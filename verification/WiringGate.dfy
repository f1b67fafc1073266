/**
 The gate that ties the registered phases to the jobs that run them: which steps count as an
 invocation, every finding the gate reports, and what a verdict without findings means.
 */
module WiringGate {
  import opened Basics
  import opened WorkflowText
  import opened WorkflowParser

  const PREFIX := "admin/rust/scripts/backend-rust "
  const SELF_TEST := "python3 scripts/ci/check-backend-rust-phase-wiring.py --self-test"
  const LIVE := "python3 scripts/ci/check-backend-rust-phase-wiring.py"
  const LINUX := "build-and-test-linux"
  const MACOS := "build-and-test-macos"
  const CONTRACT := "backend-rust-command-contract"
  const EXPECTED_COMMON: nat := 11
  const REQUIRED_KEYS: set<string> := {"name", "runs-on", "timeout-minutes"}

  function Contract(job: string): map<string, string> {
    if job == LINUX then
      map["name" := "Build & Test (Rust / Linux)", "runs-on" := "ubuntu-latest", "timeout-minutes" := "75"]
    else if job == MACOS then
      map["name" := "Build & Test (Rust / macOS)", "runs-on" := "macos-15", "timeout-minutes" := "75"]
    else
      map["name" := "Backend Rust command contract", "runs-on" := "ubuntu-latest", "timeout-minutes" := "5"]
  }

  // ----- Which steps count -----

  predicate IsPhase(p: string) {
    && p != "" && p[0] != '-'
    && forall i | 0 <= i < |p| :: 'a' <= p[i] <= 'z' || '0' <= p[i] <= '9' || p[i] == '-'
  }

  /** Lower-case letters, digits and dashes, but no dash in front; nothing else. */
  lemma PhaseNames()
    ensures IsPhase("az-09") && IsPhase("0") && !IsPhase("") && !IsPhase("-a")
    ensures !IsPhase("aZ") && !IsPhase("a b") && !IsPhase("a_b")
  {
    assert "aZ"[1] == 'Z' && "a b"[1] == ' ' && "a_b"[1] == '_';
  }

  /** The phase a command invokes: the dispatcher, one blank and a phase name, and nothing else. */
  function PhaseOf(cmd: string): Option<string> {
    if PREFIX <= cmd && IsPhase(cmd[|PREFIX|..]) then Some(cmd[|PREFIX|..]) else None
  }

  predicate LoadBearing(job: Job, step: Step, wf: Option<string>) {
    wf.None? && job.defaultsShell.None? && "if" !in step && "continue-on-error" !in step && "shell" !in step
  }

  function CommandOf(step: Step): Option<string> {
    if "run" in step && step["run"] != "" then Some(step["run"]) else None
  }

  /** The command a step runs unconditionally, if it does. */
  function Ran(job: Job, step: Step, wf: Option<string>): Option<string> {
    if LoadBearing(job, step, wf) then CommandOf(step) else None
  }

  function PhasesIn(cmd: Option<string>): seq<string> {
    if cmd.Some? && PhaseOf(cmd.value).Some? then [PhaseOf(cmd.value).value] else []
  }

  /** The phases the first `n` steps of a job invoke. */
  function InvokedUpTo(job: Job, wf: Option<string>, n: nat): seq<string>
    requires n <= |job.steps|
  {
    if n == 0 then [] else InvokedUpTo(job, wf, n - 1) + PhasesIn(Ran(job, job.steps[n - 1], wf))
  }

  function InvokedBy(job: Job, wf: Option<string>): seq<string> {
    InvokedUpTo(job, wf, |job.steps|)
  }

  /** How many of the first `n` steps run exactly this command, unconditionally. */
  function TallyUpTo(job: Job, wf: Option<string>, cmd: string, n: nat): nat
    requires n <= |job.steps|
  {
    if n == 0 then 0 else TallyUpTo(job, wf, cmd, n - 1) + if Ran(job, job.steps[n - 1], wf) == Some(cmd) then 1 else 0
  }

  function Tally(job: Job, wf: Option<string>, cmd: string): nat {
    TallyUpTo(job, wf, cmd, |job.steps|)
  }

  function Total(jobs: seq<Job>, wf: Option<string>, cmd: string): nat {
    if jobs == [] then 0 else Total(jobs[..|jobs| - 1], wf, cmd) + Tally(jobs[|jobs| - 1], wf, cmd)
  }

  /** How often a job invokes a phase: how many of its load-bearing steps run exactly that call. */
  function Invocations(job: Job, wf: Option<string>, p: string): nat {
    if IsPhase(p) then Tally(job, wf, PREFIX + p) else 0
  }

  lemma PhaseCallIff(cmd: string, p: string)
    ensures PhaseOf(cmd) == Some(p) <==> IsPhase(p) && cmd == PREFIX + p
  {
    if PREFIX <= cmd {
      assert cmd == PREFIX + cmd[|PREFIX|..];
    }
    assert (PREFIX + p)[|PREFIX|..] == p;
  }

  lemma PhasesInCounts(cmd: Option<string>, p: string)
    ensures multiset(PhasesIn(cmd))[p] == if IsPhase(p) && cmd == Some(PREFIX + p) then 1 else 0
  {
    hide PhaseOf, IsPhase, PREFIX;
    if cmd.Some? {
      PhaseCallIff(cmd.value, p);
    }
  }

  /** The list of invoked phases holds each phase exactly as often as a step calls it. */
  lemma {:induction false} InvokedCounts(job: Job, wf: Option<string>, n: nat, p: string)
    requires n <= |job.steps|
    ensures multiset(InvokedUpTo(job, wf, n))[p] == if IsPhase(p) then TallyUpTo(job, wf, PREFIX + p, n) else 0
  {
    hide IsPhase, Ran, PREFIX, PhasesIn;
    if n > 0 {
      InvokedCounts(job, wf, n - 1, p);
      var cmd := Ran(job, job.steps[n - 1], wf);
      PhasesInCounts(cmd, p);
      var before := InvokedUpTo(job, wf, n - 1);
      assert multiset(before + PhasesIn(cmd))[p] == multiset(before)[p] + multiset(PhasesIn(cmd))[p];
    }
  }

  /** The phases a job runs, collected step by step. */
  method Invoked(job: Job, wf: Option<string>) returns (out: seq<string>)
    ensures out == InvokedBy(job, wf)
    ensures forall p :: multiset(out)[p] == Invocations(job, wf, p)
  {
    out := [];
    for n := 0 to |job.steps|
      invariant out == InvokedUpTo(job, wf, n)
    {
      var cmd := CommandOf(job.steps[n]);
      if cmd.Some? && LoadBearing(job, job.steps[n], wf) {
        var hit := PhaseOf(cmd.value);
        if hit.Some? {
          out := out + [hit.value];
        }
      }
    }
    forall p ensures multiset(out)[p] == Invocations(job, wf, p) {
      InvokedCounts(job, wf, |job.steps|, p);
    }
  }

  /** The gate's own two invocations, counted over every job. */
  method GateSteps(jobs: seq<Job>, wf: Option<string>) returns (selfTests: nat, lives: nat)
    ensures selfTests == Total(jobs, wf, SELF_TEST) && lives == Total(jobs, wf, LIVE)
  {
    selfTests, lives := 0, 0;
    for k := 0 to |jobs|
      invariant selfTests == Total(jobs[..k], wf, SELF_TEST) && lives == Total(jobs[..k], wf, LIVE)
    {
      var job := jobs[k];
      ghost var selfBefore, liveBefore := selfTests, lives;
      for n := 0 to |job.steps|
        invariant selfTests == selfBefore + TallyUpTo(job, wf, SELF_TEST, n)
        invariant lives == liveBefore + TallyUpTo(job, wf, LIVE, n)
      {
        var cmd := CommandOf(job.steps[n]);
        if cmd.Some? && LoadBearing(job, job.steps[n], wf) {
          if cmd.value == SELF_TEST {
            selfTests := selfTests + 1;
          } else if cmd.value == LIVE {
            lives := lives + 1;
          }
        }
      }
      assert jobs[..k + 1][..k] == jobs[..k];
    }
    assert jobs[..|jobs|] == jobs;
  }

  /** The steps of a job that run exactly this command, unconditionally. */
  ghost function RunsIn(job: Job, wf: Option<string>, cmd: string, n: nat): set<int>
    requires n <= |job.steps|
  {
    set k | 0 <= k < n && Ran(job, job.steps[k], wf) == Some(cmd)
  }

  lemma {:induction false} TallyIsCount(job: Job, wf: Option<string>, cmd: string, n: nat)
    requires n <= |job.steps|
    ensures TallyUpTo(job, wf, cmd, n) == |RunsIn(job, wf, cmd, n)|
  {
    hide Ran;
    if n > 0 {
      TallyIsCount(job, wf, cmd, n - 1);
      if Ran(job, job.steps[n - 1], wf) == Some(cmd) {
        assert RunsIn(job, wf, cmd, n) == RunsIn(job, wf, cmd, n - 1) + {n - 1};
      } else {
        assert RunsIn(job, wf, cmd, n) == RunsIn(job, wf, cmd, n - 1);
      }
    }
  }

  /** Step `k` of job `i` runs exactly this command, unconditionally. */
  predicate RunsAt(jobs: seq<Job>, wf: Option<string>, cmd: string, i: int, k: int) {
    0 <= i < |jobs| && 0 <= k < |jobs[i].steps| && Ran(jobs[i], jobs[i].steps[k], wf) == Some(cmd)
  }

  lemma {:induction false} NoneRuns(jobs: seq<Job>, wf: Option<string>, cmd: string)
    ensures Total(jobs, wf, cmd) == 0 <==> forall i, k :: !RunsAt(jobs, wf, cmd, i, k)
  {
    hide Ran;
    if jobs != [] {
      var n := |jobs| - 1;
      var init, last := jobs[..n], jobs[n];
      NoneRuns(init, wf, cmd);
      TallyIsCount(last, wf, cmd, |last.steps|);
      assert forall i, k | i < n :: RunsAt(init, wf, cmd, i, k) == RunsAt(jobs, wf, cmd, i, k);
      assert forall k :: RunsAt(jobs, wf, cmd, n, k) <==> k in RunsIn(last, wf, cmd, |last.steps|);
    }
  }

  ghost predicate RunsOnlyAt(jobs: seq<Job>, wf: Option<string>, cmd: string, i: int, k: int) {
    RunsAt(jobs, wf, cmd, i, k) && forall a, b :: RunsAt(jobs, wf, cmd, a, b) ==> a == i && b == k
  }

  lemma LastJobRuns(jobs: seq<Job>, wf: Option<string>, cmd: string)
    requires jobs != []
    ensures var n := |jobs| - 1;
            Total(jobs, wf, cmd) == Total(jobs[..n], wf, cmd) + |RunsIn(jobs[n], wf, cmd, |jobs[n].steps|)|
    ensures var n := |jobs| - 1;
            && (forall i, k | i < n :: RunsAt(jobs[..n], wf, cmd, i, k) == RunsAt(jobs, wf, cmd, i, k))
            && forall k :: RunsAt(jobs, wf, cmd, n, k) <==> k in RunsIn(jobs[n], wf, cmd, |jobs[n].steps|)
  {
    hide Ran;
    TallyIsCount(jobs[|jobs| - 1], wf, cmd, |jobs[|jobs| - 1].steps|);
  }

  /** The total is 1 exactly when one step of one job runs the command. */
  lemma {:induction false} OneRuns(jobs: seq<Job>, wf: Option<string>, cmd: string)
    ensures Total(jobs, wf, cmd) == 1 <==> exists i, k :: RunsOnlyAt(jobs, wf, cmd, i, k)
  {
    hide Ran, Tally, RunsAt;
    RunsAtBound(jobs, wf, cmd);
    if jobs == [] {
      return;
    }
    var n := |jobs| - 1;
    var init, here := jobs[..n], RunsIn(jobs[n], wf, cmd, |jobs[n].steps|);
    LastJobRuns(jobs, wf, cmd);
    RunsAtBound(init, wf, cmd);
    NoneRuns(init, wf, cmd);
    OneRuns(init, wf, cmd);
    if Total(jobs, wf, cmd) == 1 {
      if here == {} {
        var i, k :| RunsOnlyAt(init, wf, cmd, i, k);
        assert RunsOnlyAt(jobs, wf, cmd, i, k);
      } else {
        var k :| k in here;
        Singleton(here, k);
        assert RunsOnlyAt(jobs, wf, cmd, n, k);
      }
    }
    if i, k :| RunsOnlyAt(jobs, wf, cmd, i, k) {
      if i == n {
        assert here == {k};
      } else {
        assert here == {};
        assert RunsOnlyAt(init, wf, cmd, i, k);
      }
    }
  }

  lemma RunsAtBound(jobs: seq<Job>, wf: Option<string>, cmd: string)
    ensures forall i, k :: RunsAt(jobs, wf, cmd, i, k) ==> 0 <= i < |jobs|
  {
  }

  lemma Singleton(s: set<int>, x: int)
    requires |s| <= 1 && x in s
    ensures s == {x}
  {
    assert |s - {x}| == 0;
  }

  // ----- Findings -----

  datatype Source = Registry | Functions | OfJob(job: string)

  datatype Error =
    | Repeats(source: Source, names: set<string>)
    | NotDefined(names: set<string>)
    | NotRegistered(names: set<string>)
    | NonMembers(job: string, names: set<string>)
    | NeverInvoked(job: string, names: set<string>)
    | Shared(count: nat)
    | External(message: string)
    | UnknownKeys(job: string, keys: set<string>)
    | MissingKeys(job: string, keys: set<string>)
    | WrongValue(job: string, key: string, value: string)
    | SelfTests(count: nat)
    | LiveRuns(count: nat)

  /** What is judged: the registered phases, the defined functions and the parsed workflow. */
  datatype Subject = Subject(reg: seq<string>, fns: seq<string>, jobs: seq<Job>, wf: Option<string>)

  predicate Has(jobs: seq<Job>, name: string) {
    Locate(jobs, name) < |jobs|
  }

  predicate IsJudged(name: string) {
    name == LINUX || name == MACOS || name == CONTRACT
  }

  predicate IsRustJob(name: string) {
    name == LINUX || name == MACOS
  }

  predicate Complete(jobs: seq<Job>) {
    Has(jobs, LINUX) && Has(jobs, MACOS) && Has(jobs, CONTRACT)
  }

  function Get(jobs: seq<Job>, name: string): Job
    requires Has(jobs, name)
  {
    jobs[Locate(jobs, name)]
  }

  function Names(names: seq<string>): set<string> {
    set n | n in names
  }

  function Repeated(names: seq<string>): set<string> {
    set n | n in names && multiset(names)[n] > 1
  }

  function Listed(s: Subject, source: Source): seq<string>
    requires Complete(s.jobs) && (source.OfJob? ==> IsRustJob(source.job))
  {
    match source
    case Registry => s.reg
    case Functions => s.fns
    case OfJob(job) => InvokedBy(Get(s.jobs, job), s.wf)
  }

  function JobPhases(s: Subject, job: string): set<string>
    requires Complete(s.jobs) && IsRustJob(job)
  {
    Names(Listed(s, OfJob(job)))
  }

  predicate KeyFinding(e: Error, jobs: seq<Job>)
    requires Complete(jobs)
  {
    match e
    case UnknownKeys(job, keys) => IsJudged(job) && keys != {} && keys == Get(jobs, job).attrs.Keys - REQUIRED_KEYS
    case MissingKeys(job, keys) => IsJudged(job) && keys != {} && keys == REQUIRED_KEYS - Get(jobs, job).attrs.Keys
    case WrongValue(job, key, value) =>
      IsJudged(job) && key in REQUIRED_KEYS && key in Get(jobs, job).attrs && key in Contract(job)
      && Get(jobs, job).attrs[key] == value && value != Contract(job)[key]
    case _ => false
  }

  predicate SetFinding(e: Error, s: Subject)
    requires Complete(s.jobs)
  {
    match e
    case Repeats(source, names) =>
      (source.OfJob? ==> IsRustJob(source.job)) && names != {} && names == Repeated(Listed(s, source))
    case NotDefined(names) => names != {} && names == Names(s.reg) - Names(s.fns)
    case NotRegistered(names) => names != {} && names == Names(s.fns) - Names(s.reg)
    case NonMembers(job, names) => IsRustJob(job) && names != {} && names == JobPhases(s, job) - Names(s.reg)
    case NeverInvoked(job, names) => IsRustJob(job) && names != {} && names == Names(s.reg) - JobPhases(s, job)
    case Shared(count) => count != EXPECTED_COMMON && count == |JobPhases(s, LINUX) * JobPhases(s, MACOS)|
    case _ => false
  }

  predicate WiredFinding(e: Error, s: Subject) {
    match e
    case SelfTests(count) => count != 1 && count == Total(s.jobs, s.wf, SELF_TEST)
    case LiveRuns(count) => count != 1 && count == Total(s.jobs, s.wf, LIVE)
    case _ => false
  }

  predicate Finding(e: Error, s: Subject, external: seq<string>)
    requires Complete(s.jobs)
  {
    SetFinding(e, s) || KeyFinding(e, s.jobs) || WiredFinding(e, s) || (e.External? && e.message in external)
  }

  // ----- The gate -----

  method AssertWired(s: Subject) returns (errs: seq<Error>)
    ensures forall e :: e in errs <==> WiredFinding(e, s)
  {
    var selfTests, lives := GateSteps(s.jobs, s.wf);
    errs := (if selfTests != 1 then [SelfTests(selfTests)] else []) + (if lives != 1 then [LiveRuns(lives)] else []);
  }

  predicate OfOneJob(e: Error, job: string) {
    (e.UnknownKeys? || e.MissingKeys? || e.WrongValue?) && e.job == job
  }

  method KeysOfJob(jobs: seq<Job>, name: string) returns (errs: seq<Error>)
    requires Complete(jobs) && IsJudged(name)
    ensures forall e :: e in errs <==> KeyFinding(e, jobs) && OfOneJob(e, name)
  {
    var attrs, want := Get(jobs, name).attrs, Contract(name);
    var unknown, missing := attrs.Keys - REQUIRED_KEYS, REQUIRED_KEYS - attrs.Keys;
    var a := if unknown != {} then [UnknownKeys(name, unknown)] else [];
    var b := if missing != {} then [MissingKeys(name, missing)] else [];
    var keys: seq<string>, c: seq<Error> := ["name", "runs-on", "timeout-minutes"], [];
    for i := 0 to 3
      invariant forall e :: e in c <==> e.WrongValue? && KeyFinding(e, jobs) && e.job == name && e.key in keys[..i]
    {
      assert keys[..i + 1] == keys[..i] + [keys[i]];
      if keys[i] in attrs && attrs[keys[i]] != want[keys[i]] {
        c := c + [WrongValue(name, keys[i], attrs[keys[i]])];
      }
    }
    assert keys[..3] == keys;
    errs := a + b + c;
  }

  method AssertJobKeys(jobs: seq<Job>) returns (errs: seq<Error>)
    requires Complete(jobs)
    ensures forall e :: e in errs <==> KeyFinding(e, jobs)
  {
    hide Get, Contract, REQUIRED_KEYS;
    var linux := KeysOfJob(jobs, LINUX);
    var macos := KeysOfJob(jobs, MACOS);
    var contract := KeysOfJob(jobs, CONTRACT);
    errs := linux + macos + contract;
    forall e ensures e in errs <==> KeyFinding(e, jobs) {
      assert KeyFinding(e, jobs) ==> OfOneJob(e, LINUX) || OfOneJob(e, MACOS) || OfOneJob(e, CONTRACT);
    }
  }

  method Compare(s: Subject, rust: map<string, set<string>>) returns (errs: seq<Error>)
    requires Complete(s.jobs) && rust == map[LINUX := JobPhases(s, LINUX), MACOS := JobPhases(s, MACOS)]
    ensures forall e :: e in errs <==> SetFinding(e, s) && !e.Repeats?
  {
    hide JobPhases, Names;
    var reg, fns := Names(s.reg), Names(s.fns);
    var undefined := if reg - fns != {} then [NotDefined(reg - fns)] else [];
    var unlisted := if fns - reg != {} then [NotRegistered(fns - reg)] else [];
    var linux := CompareJob(s, LINUX, rust[LINUX]);
    var macos := CompareJob(s, MACOS, rust[MACOS]);
    var n := |rust[LINUX] * rust[MACOS]|;
    var shared := if n != EXPECTED_COMMON then [Shared(n)] else [];
    errs := undefined + unlisted + linux + macos + shared;
  }

  method CompareJob(s: Subject, job: string, phases: set<string>) returns (errs: seq<Error>)
    requires Complete(s.jobs) && IsRustJob(job) && phases == JobPhases(s, job)
    ensures forall e :: e in errs <==> SetFinding(e, s) && (e.NonMembers? || e.NeverInvoked?) && e.job == job
  {
    hide JobPhases, Names;
    var reg := Names(s.reg);
    errs := (if phases - reg != {} then [NonMembers(job, phases - reg)] else [])
          + (if reg - phases != {} then [NeverInvoked(job, reg - phases)] else []);
  }

  method Duplicates(s: Subject, source: Source, names: seq<string>) returns (errs: seq<Error>)
    requires Complete(s.jobs) && (source.OfJob? ==> IsRustJob(source.job)) && names == Listed(s, source)
    ensures forall e :: e in errs <==> SetFinding(e, s) && e.Repeats? && e.source == source
  {
    hide Listed, Repeated;
    var dup := Repeated(names);
    errs := if dup != {} then [Repeats(source, dup)] else [];
  }

  datatype Verdict = Refused | Judged(errs: seq<Error>)

  function Externals(external: seq<string>): seq<Error> {
    seq(|external|, i requires 0 <= i < |external| => External(external[i]))
  }

  lemma ExternalsMean(external: seq<string>, e: Error)
    ensures e in Externals(external) <==> e.External? && e.message in external
  {
    if e.External? && e.message in external {
      var i :| 0 <= i < |external| && external[i] == e.message;
      assert Externals(external)[i] == e;
    }
  }

  /**
   The whole gate. It refuses a workflow it cannot read or that lacks a judged job; otherwise it reports
   exactly the findings, each of them. `external` stands for the checks on files outside the workflow.
   */
  method Evaluate(reg: seq<string>, fns: seq<string>, lines: seq<string>, external: seq<string>) returns (v: Verdict)
    ensures v.Refused? <==> ParseWorkflow(lines).None? || !Complete(ParseWorkflow(lines).value.jobs)
    ensures v.Judged? ==>
              var p := ParseWorkflow(lines).value;
              forall e :: e in v.errs <==> Finding(e, Subject(reg, fns, p.jobs, p.wfShell), external)
  {
    var p := ScanWorkflow(lines);
    if p.None? || !Complete(p.value.jobs) {
      return Refused;
    }
    var errs := Judge(Subject(reg, fns, p.value.jobs, p.value.wfShell), external);
    return Judged(errs);
  }

  method Judge(s: Subject, external: seq<string>) returns (errs: seq<Error>)
    requires Complete(s.jobs)
    ensures forall e :: e in errs <==> Finding(e, s, external)
  {
    var linux := Invoked(Get(s.jobs, LINUX), s.wf);
    var macos := Invoked(Get(s.jobs, MACOS), s.wf);
    var a := Duplicates(s, Registry, s.reg);
    var b := Duplicates(s, Functions, s.fns);
    var c := Duplicates(s, OfJob(LINUX), linux);
    var d := Duplicates(s, OfJob(MACOS), macos);
    var compared := Compare(s, map[LINUX := Names(linux), MACOS := Names(macos)]);
    var keys := AssertJobKeys(s.jobs);
    var wired := AssertWired(s);
    errs := a + b + c + d + compared + Externals(external) + keys + wired;
    ghost var sets := a + b + c + d + compared;
    assert forall e :: e in sets <==> SetFinding(e, s) by {
      forall e ensures e in sets <==> SetFinding(e, s) {
        assert SetFinding(e, s) && e.Repeats? ==> e.source in {Registry, Functions, OfJob(LINUX), OfJob(MACOS)};
      }
    }
    forall e ensures e in errs <==> Finding(e, s, external) {
      ExternalsMean(external, e);
    }
  }

  // ----- What a verdict without findings means -----

  predicate Once(names: seq<string>) {
    Repeated(names) == {}
  }

  lemma {:induction false} CountIff(names: seq<string>, n: string)
    ensures multiset(names)[n] > 0 <==> n in names
    ensures multiset(names)[n] > 1 <==> exists i, j :: 0 <= i < j < |names| && names[i] == n && names[j] == n
  {
    if names != [] {
      var k := |names| - 1;
      CountIff(names[..k], n);
      assert names == names[..k] + [names[k]];
      assert forall i | 0 <= i < k :: names[..k][i] == names[i];
    }
  }

  /** A list is free of repeats exactly when no two places of it agree. */
  lemma OnceIff(names: seq<string>)
    ensures Once(names) <==> forall i, j | 0 <= i < j < |names| :: names[i] != names[j]
  {
    forall n
      ensures n in Repeated(names) <==> exists i, j :: 0 <= i < j < |names| && names[i] == n && names[j] == n
    {
      CountIff(names, n);
    }
    hide Repeated;
    if i, j :| 0 <= i < j < |names| && names[i] == names[j] {
      var n := names[i];
      assert n in Repeated(names);
    }
  }

  lemma OnceMeans(names: seq<string>, n: string)
    requires Once(names)
    ensures multiset(names)[n] == if n in Names(names) then 1 else 0
  {
    assert n !in Repeated(names);
  }

  lemma {:induction false} OnceCounts(names: seq<string>)
    requires Once(names)
    ensures |Names(names)| == |names|
  {
    if names != [] {
      var n := |names| - 1;
      var init := names[..n];
      assert names == init + [names[n]];
      forall x | x in Repeated(init) ensures x in Repeated(names) {
      }
      OnceCounts(init);
      assert multiset(names)[names[n]] == multiset(init)[names[n]] + 1;
      var last := names[n];
      assert last in init ==> last in Repeated(names);
      assert Names(names) == Names(init) + {names[n]};
    }
  }

  /** Repeat-free lists with the same members are permutations of each other, and only they. */
  lemma SameMembersIff(a: seq<string>, b: seq<string>)
    requires Once(b)
    ensures Once(a) && Names(a) == Names(b) <==> multiset(a) == multiset(b)
  {
    if Once(a) && Names(a) == Names(b) {
      forall n ensures multiset(a)[n] == multiset(b)[n] {
        OnceMeans(a, n);
        OnceMeans(b, n);
      }
    }
    if multiset(a) == multiset(b) {
      assert forall n :: n in a <==> n in multiset(a);
      assert forall n :: n in b <==> n in multiset(b);
      assert Repeated(a) == Repeated(b);
    }
  }

  /** A judged job carries the keys of its contract with exactly their values, and no other key. */
  lemma KeysExactIff(jobs: seq<Job>, name: string)
    requires Complete(jobs) && IsJudged(name)
    ensures (forall e | KeyFinding(e, jobs) :: !OfOneJob(e, name)) <==> Get(jobs, name).attrs == Contract(name)
  {
    var attrs, want := Get(jobs, name).attrs, Contract(name);
    assert want.Keys == REQUIRED_KEYS;
    hide Get, Contract, LINUX, MACOS, CONTRACT, REQUIRED_KEYS;
    if forall e | KeyFinding(e, jobs) :: !OfOneJob(e, name) {
      var unknown := UnknownKeys(name, attrs.Keys - REQUIRED_KEYS);
      var missing := MissingKeys(name, REQUIRED_KEYS - attrs.Keys);
      assert OfOneJob(unknown, name) && OfOneJob(missing, name);
      assert !KeyFinding(unknown, jobs) && !KeyFinding(missing, jobs);
      assert attrs.Keys == want.Keys;
      forall k | k in attrs ensures attrs[k] == want[k] {
        assert k in REQUIRED_KEYS;
        var wrong := WrongValue(name, k, attrs[k]);
        assert OfOneJob(wrong, name) && !KeyFinding(wrong, jobs);
      }
    }
  }

  ghost predicate NoSetFinding(s: Subject)
    requires Complete(s.jobs)
  {
    forall e :: !SetFinding(e, s)
  }

  /** The four lists agree: each phase once, the same phases, as many as expected. */
  ghost predicate ListsAgree(s: Subject)
    requires Complete(s.jobs)
  {
    && Once(s.reg) && |s.reg| == EXPECTED_COMMON
    && multiset(s.fns) == multiset(s.reg)
    && multiset(Listed(s, OfJob(LINUX))) == multiset(s.reg)
    && multiset(Listed(s, OfJob(MACOS))) == multiset(s.reg)
  }

  lemma SetFindingsIff(s: Subject)
    requires Complete(s.jobs)
    ensures NoSetFinding(s) <==>
            && Once(s.reg) && Once(s.fns) && Once(Listed(s, OfJob(LINUX))) && Once(Listed(s, OfJob(MACOS)))
            && Names(s.fns) == Names(s.reg)
            && JobPhases(s, LINUX) == Names(s.reg) && JobPhases(s, MACOS) == Names(s.reg)
            && |Names(s.reg)| == EXPECTED_COMMON
  {
    hide Repeated, Names, InvokedBy, Locate;
    var reg, fns, linux, macos := Names(s.reg), Names(s.fns), JobPhases(s, LINUX), JobPhases(s, MACOS);
    if NoSetFinding(s) {
      assert !SetFinding(Repeats(Registry, Repeated(s.reg)), s);
      assert !SetFinding(Repeats(Functions, Repeated(s.fns)), s);
      assert !SetFinding(Repeats(OfJob(LINUX), Repeated(Listed(s, OfJob(LINUX)))), s);
      assert !SetFinding(Repeats(OfJob(MACOS), Repeated(Listed(s, OfJob(MACOS)))), s);
      assert !SetFinding(NotDefined(reg - fns), s) && !SetFinding(NotRegistered(fns - reg), s);
      assert !SetFinding(NonMembers(LINUX, linux - reg), s) && !SetFinding(NeverInvoked(LINUX, reg - linux), s);
      assert !SetFinding(NonMembers(MACOS, macos - reg), s) && !SetFinding(NeverInvoked(MACOS, reg - macos), s);
      assert !SetFinding(Shared(|linux * macos|), s);
      assert fns == reg && linux == reg && macos == reg && linux * macos == reg;
    } else {
      var e :| SetFinding(e, s);
      assert linux == macos ==> linux * macos == linux;
    }
  }

  lemma ListsAgreeIff(s: Subject)
    requires Complete(s.jobs)
    ensures NoSetFinding(s) <==> ListsAgree(s)
  {
    SetFindingsIff(s);
    if Once(s.reg) {
      OnceCounts(s.reg);
      SameMembersIff(s.fns, s.reg);
      SameMembersIff(Listed(s, OfJob(LINUX)), s.reg);
      SameMembersIff(Listed(s, OfJob(MACOS)), s.reg);
    }
    hide Repeated, Names, InvokedBy, Locate, SetFinding;
  }

  /** The job runs every registered phase in exactly one load-bearing step, and no other phase. */
  ghost predicate Proves(s: Subject, job: string)
    requires Has(s.jobs, job)
  {
    forall p :: Invocations(Get(s.jobs, job), s.wf, p) == if p in s.reg then 1 else 0
  }

  ghost predicate Wired(s: Subject)
    requires Complete(s.jobs)
  {
    && Once(s.reg) && |s.reg| == EXPECTED_COMMON && multiset(s.fns) == multiset(s.reg)
    && Proves(s, LINUX) && Proves(s, MACOS)
    && (forall job | IsJudged(job) :: Get(s.jobs, job).attrs == Contract(job))
    && Total(s.jobs, s.wf, SELF_TEST) == 1 && Total(s.jobs, s.wf, LIVE) == 1
  }

  lemma ProvesIff(s: Subject, job: string)
    requires Complete(s.jobs) && IsRustJob(job) && Once(s.reg)
    ensures multiset(Listed(s, OfJob(job))) == multiset(s.reg) <==> Proves(s, job)
  {
    var j := Get(s.jobs, job);
    forall p
      ensures multiset(Listed(s, OfJob(job)))[p] == Invocations(j, s.wf, p)
      ensures multiset(s.reg)[p] == if p in s.reg then 1 else 0
    {
      InvokedCounts(j, s.wf, |j.steps|, p);
      OnceMeans(s.reg, p);
    }
    hide Invocations, InvokedBy, Get, Once, Locate;
    if Proves(s, job) {
      forall p ensures multiset(Listed(s, OfJob(job)))[p] == multiset(s.reg)[p] {
      }
    }
  }

  lemma NoKeyFindingIff(jobs: seq<Job>)
    requires Complete(jobs)
    ensures (forall e :: !KeyFinding(e, jobs)) <==> forall job | IsJudged(job) :: Get(jobs, job).attrs == Contract(job)
  {
    KeysExactIff(jobs, LINUX);
    KeysExactIff(jobs, MACOS);
    KeysExactIff(jobs, CONTRACT);
    hide Get, Contract, REQUIRED_KEYS, Has;
    if forall job | IsJudged(job) :: Get(jobs, job).attrs == Contract(job) {
      forall e ensures !KeyFinding(e, jobs) {
        assert KeyFinding(e, jobs) ==> OfOneJob(e, LINUX) || OfOneJob(e, MACOS) || OfOneJob(e, CONTRACT);
      }
    }
  }

  /** The keys the three judged jobs must have, with their values. */
  lemma JudgedKeysIff(jobs: seq<Job>)
    requires Complete(jobs)
    ensures (forall e :: !KeyFinding(e, jobs)) <==>
            && Get(jobs, "build-and-test-linux").attrs ==
               map["name" := "Build & Test (Rust / Linux)", "runs-on" := "ubuntu-latest", "timeout-minutes" := "75"]
            && Get(jobs, "build-and-test-macos").attrs ==
               map["name" := "Build & Test (Rust / macOS)", "runs-on" := "macos-15", "timeout-minutes" := "75"]
            && Get(jobs, "backend-rust-command-contract").attrs ==
               map["name" := "Backend Rust command contract", "runs-on" := "ubuntu-latest", "timeout-minutes" := "5"]
  {
    hide Get, KeyFinding, Has;
    assert LINUX[15] == 'l' && MACOS[15] == 'm' && LINUX[1] == 'u' && MACOS[1] == 'u' && CONTRACT[1] == 'a';
    NoKeyFindingIff(jobs);
    assert IsJudged(LINUX) && IsJudged(MACOS) && IsJudged(CONTRACT);
  }

  lemma NoFindingParts(s: Subject, external: seq<string>)
    requires Complete(s.jobs)
    ensures (forall e :: !Finding(e, s, external)) <==>
            && NoSetFinding(s) && (forall e :: !KeyFinding(e, s.jobs)) && external == []
            && Total(s.jobs, s.wf, SELF_TEST) == 1 && Total(s.jobs, s.wf, LIVE) == 1
  {
    hide SetFinding, KeyFinding, Total, Has, SELF_TEST, LIVE;
    assert external != [] ==> Finding(External(external[0]), s, external);
    if forall e :: !Finding(e, s, external) {
      assert forall e :: SetFinding(e, s) ==> Finding(e, s, external);
      assert forall e :: KeyFinding(e, s.jobs) ==> Finding(e, s, external);
      assert !Finding(SelfTests(Total(s.jobs, s.wf, SELF_TEST)), s, external);
      assert !Finding(LiveRuns(Total(s.jobs, s.wf, LIVE)), s, external);
    }
  }

  /** The gate has no finding exactly when the phases are wired. */
  lemma NoFindingIff(s: Subject, external: seq<string>)
    requires Complete(s.jobs)
    ensures (forall e :: !Finding(e, s, external)) <==> Wired(s) && external == []
  {
    hide SetFinding, KeyFinding, Finding, Proves, Once, Listed, Get, Has, Contract, Total, SELF_TEST, LIVE;
    NoFindingParts(s, external);
    ListsAgreeIff(s);
    if Once(s.reg) {
      ProvesIff(s, LINUX);
      ProvesIff(s, MACOS);
    }
    NoKeyFindingIff(s.jobs);
  }

  // ----- Steps the gate does not look at -----

  /** A step that is conditional, advisory, under another shell, or runs none of the gate's commands. */
  predicate Inert(job: Job, step: Step, wf: Option<string>) {
    var cmd := Ran(job, step, wf);
    cmd.None? || (PhaseOf(cmd.value).None? && cmd.value != SELF_TEST && cmd.value != LIVE)
  }

  function WithStep(job: Job, k: nat, step: Step): Job
    requires k <= |job.steps|
  {
    job.(steps := job.steps[..k] + [step] + job.steps[k..])
  }

  lemma {:induction false} InvokedWithStep(job: Job, wf: Option<string>, k: nat, step: Step, n: nat)
    requires k <= |job.steps| && n <= |job.steps| && PhasesIn(Ran(job, step, wf)) == []
    ensures InvokedUpTo(WithStep(job, k, step), wf, if n < k then n else n + 1) == InvokedUpTo(job, wf, n)
  {
    hide PhasesIn, CommandOf;
    var job' := WithStep(job, k, step);
    if n > 0 {
      InvokedWithStep(job, wf, k, step, n - 1);
      assert n - 1 < k ==> job'.steps[n - 1] == job.steps[n - 1];
      assert n > k ==> job'.steps[n] == job.steps[n - 1];
    }
    if n == k {
      assert job'.steps[n] == step;
      assert InvokedUpTo(job', wf, n) == InvokedUpTo(job, wf, n);
    }
  }

  lemma {:induction false} TallyWithStep(job: Job, wf: Option<string>, cmd: string, k: nat, step: Step, n: nat)
    requires k <= |job.steps| && n <= |job.steps| && Ran(job, step, wf) != Some(cmd)
    ensures TallyUpTo(WithStep(job, k, step), wf, cmd, if n < k then n else n + 1) == TallyUpTo(job, wf, cmd, n)
  {
    hide CommandOf;
    var job' := WithStep(job, k, step);
    if n > 0 {
      TallyWithStep(job, wf, cmd, k, step, n - 1);
      assert n - 1 < k ==> job'.steps[n - 1] == job.steps[n - 1];
      assert n > k ==> job'.steps[n] == job.steps[n - 1];
    }
    if n == k {
      assert job'.steps[n] == step;
      assert TallyUpTo(job', wf, cmd, n) == TallyUpTo(job, wf, cmd, n);
    }
  }

  lemma {:induction false} LocateByName(a: seq<Job>, b: seq<Job>, name: string)
    requires |a| == |b| && forall i | 0 <= i < |a| :: a[i].name == b[i].name
    ensures Locate(a, name) == Locate(b, name)
  {
    if a != [] {
      LocateByName(a[1..], b[1..], name);
    }
  }

  lemma {:induction false} TotalOfSameTallies(a: seq<Job>, b: seq<Job>, wf: Option<string>, cmd: string)
    requires |a| == |b| && forall i | 0 <= i < |a| :: Tally(a[i], wf, cmd) == Tally(b[i], wf, cmd)
    ensures Total(a, wf, cmd) == Total(b, wf, cmd)
  {
    hide Tally;
    if a != [] {
      TotalOfSameTallies(a[..|a| - 1], b[..|b| - 1], wf, cmd);
    }
  }

  /** The same jobs, but with one more step somewhere in one of them. */
  function WithStepIn(s: Subject, i: nat, k: nat, step: Step): Subject
    requires i < |s.jobs| && k <= |s.jobs[i].steps|
  {
    s.(jobs := s.jobs[i := WithStep(s.jobs[i], k, step)])
  }

  lemma JobWithStep(job: Job, wf: Option<string>, k: nat, step: Step)
    requires k <= |job.steps| && Inert(job, step, wf)
    ensures InvokedBy(WithStep(job, k, step), wf) == InvokedBy(job, wf)
    ensures Tally(WithStep(job, k, step), wf, SELF_TEST) == Tally(job, wf, SELF_TEST)
    ensures Tally(WithStep(job, k, step), wf, LIVE) == Tally(job, wf, LIVE)
  {
    hide Inert, Ran, PhasesIn, InvokedUpTo, TallyUpTo, SELF_TEST, LIVE;
    InertMeans(job, step, wf);
    InvokedWithStep(job, wf, k, step, |job.steps|);
    TallyWithStep(job, wf, SELF_TEST, k, step, |job.steps|);
    TallyWithStep(job, wf, LIVE, k, step, |job.steps|);
  }

  lemma InertMeans(job: Job, step: Step, wf: Option<string>)
    requires Inert(job, step, wf)
    ensures PhasesIn(Ran(job, step, wf)) == []
    ensures Ran(job, step, wf) != Some(SELF_TEST) && Ran(job, step, wf) != Some(LIVE)
  {
    hide Ran, PhaseOf, SELF_TEST, LIVE;
  }

  lemma SameSubject(s: Subject, i: nat, k: nat, step: Step, name: string)
    requires i < |s.jobs| && k <= |s.jobs[i].steps| && Inert(s.jobs[i], step, s.wf)
    ensures Has(WithStepIn(s, i, k, step).jobs, name) == Has(s.jobs, name)
    ensures Has(s.jobs, name) ==>
              var job, job' := Get(s.jobs, name), Get(WithStepIn(s, i, k, step).jobs, name);
              job'.attrs == job.attrs && InvokedBy(job', s.wf) == InvokedBy(job, s.wf)
  {
    LocateByName(s.jobs, WithStepIn(s, i, k, step).jobs, name);
    JobWithStep(s.jobs[i], s.wf, k, step);
    hide InvokedBy, Inert, Tally;
  }

  lemma SameSets(s: Subject, s': Subject, e: Error)
    requires Complete(s.jobs) && Complete(s'.jobs) && s'.reg == s.reg && s'.fns == s.fns
    requires Listed(s', OfJob(LINUX)) == Listed(s, OfJob(LINUX)) && Listed(s', OfJob(MACOS)) == Listed(s, OfJob(MACOS))
    ensures SetFinding(e, s') == SetFinding(e, s)
  {
    hide InvokedBy, Get, Has, Repeated, Names, LINUX, MACOS, CONTRACT;
    assert forall source: Source | source.OfJob? ==> IsRustJob(source.job) :: Listed(s', source) == Listed(s, source);
  }

  lemma SameKeys(jobs: seq<Job>, jobs': seq<Job>, e: Error)
    requires Complete(jobs) && Complete(jobs')
    requires Get(jobs', LINUX).attrs == Get(jobs, LINUX).attrs && Get(jobs', MACOS).attrs == Get(jobs, MACOS).attrs
    requires Get(jobs', CONTRACT).attrs == Get(jobs, CONTRACT).attrs
    ensures KeyFinding(e, jobs') == KeyFinding(e, jobs)
  {
    hide Get, Has, Contract, LINUX, MACOS, CONTRACT, REQUIRED_KEYS;
  }

  lemma SameTotals(s: Subject, i: nat, k: nat, step: Step)
    requires i < |s.jobs| && k <= |s.jobs[i].steps| && Inert(s.jobs[i], step, s.wf)
    ensures Total(WithStepIn(s, i, k, step).jobs, s.wf, SELF_TEST) == Total(s.jobs, s.wf, SELF_TEST)
    ensures Total(WithStepIn(s, i, k, step).jobs, s.wf, LIVE) == Total(s.jobs, s.wf, LIVE)
  {
    JobWithStep(s.jobs[i], s.wf, k, step);
    TotalOfSameTallies(s.jobs, WithStepIn(s, i, k, step).jobs, s.wf, SELF_TEST);
    TotalOfSameTallies(s.jobs, WithStepIn(s, i, k, step).jobs, s.wf, LIVE);
  }

  /** Adding such a step, to any job at any place, changes no finding and so no verdict. */
  lemma InertStepIsIgnored(s: Subject, external: seq<string>, i: nat, k: nat, step: Step, e: Error)
    requires i < |s.jobs| && k <= |s.jobs[i].steps| && Inert(s.jobs[i], step, s.wf)
    ensures Complete(WithStepIn(s, i, k, step).jobs) == Complete(s.jobs)
    ensures Complete(s.jobs) ==> Finding(e, WithStepIn(s, i, k, step), external) == Finding(e, s, external)
  {
    hide InvokedBy, Inert, Total, Get, Has, Contract, Repeated, Names, WithStep, LINUX, MACOS, CONTRACT, SELF_TEST,
         LIVE, SetFinding, KeyFinding;
    var s' := WithStepIn(s, i, k, step);
    SameSubject(s, i, k, step, LINUX);
    SameSubject(s, i, k, step, MACOS);
    SameSubject(s, i, k, step, CONTRACT);
    SameTotals(s, i, k, step);
    if Complete(s.jobs) {
      SameSets(s, s', e);
      SameKeys(s.jobs, s'.jobs, e);
    }
  }
}
