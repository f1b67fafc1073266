/**
 The wiring gate on the lines of a workflow: which of them make a job run a phase, and that a phase no
 such line runs is reported.
 */
module WiringText {
  import opened Basics
  import opened WorkflowText
  import opened WorkflowParser
  import opened WorkflowLayout
  import opened WorkflowYaml
  import opened WiringGate
  import WiringLayout

  // ----- A step -----

  /** A line of the step gives the key this value. */
  predicate SaysUpTo(s: StepSpec, n: nat, key: string, value: string)
    requires n <= |s.items|
  {
    (s.key == key && s.value == value) || Key(key, value) in s.items[..n]
  }

  predicate Says(s: StepSpec, key: string, value: string) {
    SaysUpTo(s, |s.items|, key, value)
  }

  lemma {:induction false} ValueIff(s: StepSpec, n: nat, key: string, value: string)
    requires StepOk(s) && n <= |s.items| && key in STEP_KEYS
    ensures key in StepUpTo(s, n) && StepUpTo(s, n)[key] == value <==> SaysUpTo(s, n, key, value)
  {
    hide PairOk, IsBody, STEP_KEYS;
    if n > 0 {
      ValueIff(s, n - 1, key, value);
      assert ItemOk(s, n - 1);
      assert s.items[..n] == s.items[..n - 1] + [s.items[n - 1]];
    }
  }

  /** A step counts exactly when no default names a shell and it has none of three keys. */
  lemma LoadBearingIff(job: Job, s: StepSpec, wf: Option<string>)
    ensures LoadBearing(job, StepOf(s), wf) <==>
            && wf == None && job.defaultsShell == None
            && "if" !in Keys(s) && "continue-on-error" !in Keys(s) && "shell" !in Keys(s)
  {
    SeenIffWritten(s, |s.items|, "if");
    SeenIffWritten(s, |s.items|, "continue-on-error");
    SeenIffWritten(s, |s.items|, "shell");
  }

  /** The step runs the command, whatever happens before it, and its failure fails the job. */
  predicate Runs(s: StepSpec, cmd: string) {
    "if" !in Keys(s) && "continue-on-error" !in Keys(s) && "shell" !in Keys(s) && Says(s, "run", cmd)
  }

  lemma RanIff(job: Job, s: StepSpec, wf: Option<string>, cmd: string)
    requires StepOk(s) && cmd != ""
    ensures Ran(job, StepOf(s), wf) == Some(cmd) <==> wf == None && job.defaultsShell == None && Runs(s, cmd)
  {
    LoadBearingIff(job, s, wf);
    ValueIff(s, |s.items|, "run", cmd);
    hide LoadBearing, Keys, StepOk, StepUpTo;
  }

  // ----- A job -----

  function SpecsUpTo(j: JobSpec, n: nat): seq<StepSpec>
    requires n <= |j.parts|
  {
    if n == 0 then []
    else SpecsUpTo(j, n - 1) + (if j.parts[n - 1].Steps? then j.parts[n - 1].steps else [])
  }

  /** The steps of a job, as they are written. */
  function Specs(j: JobSpec): seq<StepSpec> {
    SpecsUpTo(j, |j.parts|)
  }

  lemma {:induction false} StepsAt(steps: seq<StepSpec>)
    ensures |StepsOf(steps)| == |steps| && forall k | 0 <= k < |steps| :: StepsOf(steps)[k] == StepOf(steps[k])
  {
    hide StepOf;
    if steps != [] {
      StepsAt(steps[..|steps| - 1]);
    }
  }

  lemma {:induction false} SpecsAreSteps(j: JobSpec, n: nat)
    requires JobOk(j) && n <= |j.parts|
    ensures JobUpTo(j, n).steps == StepsOf(SpecsUpTo(j, n))
    ensures forall k | 0 <= k < |SpecsUpTo(j, n)| :: StepOk(SpecsUpTo(j, n)[k])
  {
    hide StepOf, StepOk, IsBody, PairOk, BelowOk, StepsOf, ShellAfter;
    StepsAt([]);
    if n > 0 {
      SpecsAreSteps(j, n - 1);
      assert PartOk(j, n - 1);
      if j.parts[n - 1].Steps? {
        WiringLayout.StepsOfConcat(SpecsUpTo(j, n - 1), j.parts[n - 1].steps);
      } else {
        assert SpecsUpTo(j, n) == SpecsUpTo(j, n - 1);
      }
    }
  }

  ghost predicate NoShellIn(below: seq<Below>) {
    forall i | 0 <= i < |below| :: !below[i].Shell?
  }

  lemma {:induction false} ShellAfterIff(shell: Option<string>, below: seq<Below>)
    ensures ShellAfter(shell, below) == None <==> shell == None && NoShellIn(below)
  {
    if below != [] {
      var n := |below| - 1;
      ShellAfterIff(shell, below[..n]);
      assert forall i | 0 <= i < n :: below[..n][i] == below[i];
    }
  }

  /** No line under the keys of the job names a shell. */
  ghost predicate JobNamesNoShell(j: JobSpec, n: nat)
    requires n <= |j.parts|
  {
    forall i | 0 <= i < n && j.parts[i].Attr? :: NoShellIn(j.parts[i].below)
  }

  lemma {:induction false} JobShellIff(j: JobSpec, n: nat)
    requires n <= |j.parts|
    ensures JobUpTo(j, n).defaultsShell == None <==> JobNamesNoShell(j, n)
  {
    hide NoShellIn, ShellAfter;
    if n > 0 {
      JobShellIff(j, n - 1);
      if j.parts[n - 1].Attr? {
        ShellAfterIff(JobUpTo(j, n - 1).defaultsShell, j.parts[n - 1].below);
      }
    }
  }

  /** The number of steps that run a command is positive exactly when one of them does. */
  lemma {:induction false} TallyIff(job: Job, wf: Option<string>, cmd: string, n: nat)
    requires n <= |job.steps|
    ensures TallyUpTo(job, wf, cmd, n) > 0 <==> exists k :: 0 <= k < n && Ran(job, job.steps[k], wf) == Some(cmd)
  {
    hide Ran;
    if n > 0 {
      TallyIff(job, wf, cmd, n - 1);
    }
  }

  // ----- The file -----

  /** No line of the workflow's defaults names a shell. */
  ghost predicate FileNamesNoShell(w: Workflow) {
    forall i | 0 <= i < |w| && w[i].Defaults? :: NoShellIn(w[i].lines)
  }

  lemma {:induction false} FileShellIff(w: Workflow)
    ensures Meaning(w).wfShell == None <==> FileNamesNoShell(w)
  {
    hide NoShellIn, ShellAfter, JobsOf;
    if w != [] {
      var n := |w| - 1;
      FileShellIff(w[..n]);
      assert forall i | 0 <= i < n :: w[..n][i] == w[i];
      if w[n].Defaults? {
        ShellAfterIff(Meaning(w[..n]).wfShell, w[n].lines);
      }
    }
  }

  lemma {:induction false} LocateInFront(a: seq<Job>, b: seq<Job>, name: string)
    requires Has(a, name)
    ensures Has(a + b, name) && Get(a + b, name) == Get(a, name)
  {
    assert (a + b)[0] == a[0] && (a + b)[1..] == a[1..] + b;
    if a[0].name != name {
      LocateInFront(a[1..], b, name);
    }
  }

  lemma {:induction false} LocateFirst(a: seq<Job>, b: seq<Job>)
    requires b != [] && Unused(b[0].name, a)
    ensures Has(a + b, b[0].name) && Get(a + b, b[0].name) == b[0]
  {
    if a == [] {
      assert a + b == b;
    } else {
      assert (a + b)[0] == a[0] && (a + b)[1..] == a[1..] + b;
      LocateFirst(a[1..], b);
    }
  }

  lemma JobsOfSplit(jobs: seq<JobSpec>, b: nat)
    requires b < |jobs|
    ensures |JobsOf(jobs)| == |jobs| && JobsOf(jobs)[..b] == JobsOf(jobs[..b])
    ensures JobsOf(jobs)[b] == JobOf(jobs[b]) && JobOf(jobs[b]).name == jobs[b].name
  {
    hide JobUpTo;
    WiringLayout.JobsOfAt(jobs);
    WiringLayout.JobsOfAt(jobs[..b]);
    WiringLayout.JobUpToName(jobs[b], |jobs[b].parts|);
  }

  lemma JobInSection(done: seq<Job>, jobs: seq<JobSpec>, b: nat)
    requires JobsOk(done, jobs) && b < |jobs|
    ensures Has(done + JobsOf(jobs), jobs[b].name) && Get(done + JobsOf(jobs), jobs[b].name) == JobOf(jobs[b])
  {
    hide JobOk, Has, Get, JobsOf, JobOf;
    assert NextOk(done, jobs, b);
    JobsOfSplit(jobs, b);
    var all := JobsOf(jobs);
    assert done + all == (done + all[..b]) + all[b..];
    LocateFirst(done + all[..b], all[b..]);
  }

  /** A job that is written is the one the gate finds under its name. */
  lemma {:induction false} JobIsFound(w: Workflow, a: nat, b: nat, n: nat)
    requires WorkflowOk(w) && a < n <= |w| && w[a].Jobs? && b < |w[a].jobs|
    ensures var j := w[a].jobs[b]; Has(Meaning(w[..n]).jobs, j.name) && Get(Meaning(w[..n]).jobs, j.name) == JobOf(j)
  {
    hide JobOf, JobsOf, Has, Get, JobsOk, ShellAfter, IsBody, DefaultOk;
    assert w[..n][..n - 1] == w[..n - 1];
    var before := Meaning(w[..n - 1]).jobs;
    if n - 1 == a {
      assert TopOk(w, a);
      JobInSection(before, w[a].jobs, b);
    } else {
      JobIsFound(w, a, b, n - 1);
      if w[n - 1].Jobs? {
        LocateInFront(before, JobsOf(w[n - 1].jobs), w[a].jobs[b].name);
      }
    }
  }

  /**
   A job runs a phase: no default names a shell, and some step calls the dispatcher with it and has
   none of the keys that could keep it from running or from failing the job.
   */
  ghost predicate RunsPhase(w: Workflow, j: JobSpec, p: string) {
    && IsPhase(p) && FileNamesNoShell(w) && JobNamesNoShell(j, |j.parts|)
    && exists k :: 0 <= k < |Specs(j)| && Runs(Specs(j)[k], "admin/rust/scripts/backend-rust " + p)
  }

  lemma InvokedIff(job: Job, wf: Option<string>, p: string)
    ensures p in InvokedBy(job, wf) <==>
            IsPhase(p) && exists k :: 0 <= k < |job.steps| && Ran(job, job.steps[k], wf) == Some(PREFIX + p)
  {
    hide IsPhase, Ran, PREFIX, InvokedUpTo, TallyUpTo;
    InvokedCounts(job, wf, |job.steps|, p);
    TallyIff(job, wf, PREFIX + p, |job.steps|);
    assert p in InvokedBy(job, wf) <==> p in multiset(InvokedBy(job, wf));
  }

  lemma PhaseRunIff(w: Workflow, j: JobSpec, p: string)
    requires JobOk(j)
    ensures p in InvokedBy(JobOf(j), Meaning(w).wfShell) <==> RunsPhase(w, j, p)
  {
    hide JobOk, StepOk, StepOf, StepsOf, IsPhase, Ran, Runs, InvokedBy, JobUpTo, SpecsUpTo, NoShellIn, Meaning;
    var job, wf, cmd := JobOf(j), Meaning(w).wfShell, PREFIX + p;
    assert |cmd| >= |PREFIX|;
    InvokedIff(job, wf, p);
    SpecsAreSteps(j, |j.parts|);
    StepsAt(Specs(j));
    JobShellIff(j, |j.parts|);
    FileShellIff(w);
    forall k | 0 <= k < |Specs(j)|
      ensures Ran(job, job.steps[k], wf) == Some(cmd) <==>
              wf == None && job.defaultsShell == None && Runs(Specs(j)[k], cmd)
    {
      RanIff(job, Specs(j)[k], wf, cmd);
    }
  }

  /**
   The gate reads the file, and reports a registered phase as never invoked by a Rust job exactly when the
   job does not run it: a step under a condition, an advisory step or one under another shell does not count.
   */
  lemma ReportedIff(reg: seq<string>, fns: seq<string>, external: seq<string>, w: Workflow, a: nat, b: nat, p: string)
    requires WorkflowOk(w) && Complete(Meaning(w).jobs) && p in reg
    requires a < |w| && w[a].Jobs? && b < |w[a].jobs| && IsRustJob(w[a].jobs[b].name)
    ensures ParseWorkflow(Lines(w)) == Some(Meaning(w))
    ensures var m, j := Meaning(w), w[a].jobs[b];
            (exists names :: p in names && Finding(NeverInvoked(j.name, names), Subject(reg, fns, m.jobs, m.wfShell),
                                                   external)) <==>
            !RunsPhase(w, j, p)
  {
    hide JobOk, JobOf, WorkflowOk, Meaning, ParseWorkflow, Lines, RunsPhase, Has, Get, InvokedBy, IsRustJob, KeyFinding;
    LayoutReadsBack(w);
    WorkflowJobIsOk(w, a, b);
    var m, j := Meaning(w), w[a].jobs[b];
    assert w[..|w|] == w;
    JobIsFound(w, a, b, |w|);
    PhaseRunIff(w, j, p);
    var s := Subject(reg, fns, m.jobs, m.wfShell);
    var missing := Names(reg) - JobPhases(s, j.name);
    assert p in missing <==> !RunsPhase(w, j, p);
    NeverInvokedIff(s, external, j.name, missing);
  }

  lemma NeverInvokedIff(s: Subject, external: seq<string>, job: string, names: set<string>)
    requires Complete(s.jobs) && IsRustJob(job) && names == Names(s.reg) - JobPhases(s, job)
    ensures forall other :: Finding(NeverInvoked(job, other), s, external) <==> other == names && names != {}
  {
    hide JobPhases, Names;
  }

  lemma WorkflowJobIsOk(w: Workflow, a: nat, b: nat)
    requires WorkflowOk(w) && a < |w| && w[a].Jobs? && b < |w[a].jobs|
    ensures JobOk(w[a].jobs[b])
  {
    hide JobOk, Meaning, JobsOf;
    assert TopOk(w, a);
    assert NextOk(Meaning(w[..a]).jobs, w[a].jobs, b);
  }
}
