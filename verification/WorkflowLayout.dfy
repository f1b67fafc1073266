/**
 The layout of the workflows the scanner supports, and the proof that scanning a laid-out workflow
 gives the workflow back.
 */
module WorkflowLayout {
  import opened Basics
  import opened WorkflowText
  import opened WorkflowParser

  /** A line inside a step below its first: another key, or something nested deeper. */
  datatype Item = Key(key: string, value: string) | Nested(depth: nat, text: string)

  datatype StepSpec = StepSpec(key: string, value: string, items: seq<Item>)

  /** A line nested under a key of a job, or under the workflow's defaults; one of them names a shell. */
  datatype Below = Plain(depth: nat, text: string) | Shell(depth: nat, shell: string)

  /** A part of a job: a key with the lines nested under it, or the list of steps. */
  datatype Part = Attr(key: string, value: string, below: seq<Below>) | Steps(steps: seq<StepSpec>)

  datatype JobSpec = JobSpec(name: string, parts: seq<Part>)

  /** A top-level section: the jobs, the defaults, or any other, such as the name or the triggers. */
  datatype Top =
    | Other(header: string, below: seq<(nat, string)>)
    | Defaults(lines: seq<Below>)
    | Jobs(jobs: seq<JobSpec>)

  type Workflow = seq<Top>

  // ----- Laying out -----

  function Line(indent: nat, body: string): string {
    Blanks(indent) + body
  }

  function ItemLine(item: Item): string {
    match item
    case Key(k, v) => Line(8, Pair(k, v))
    case Nested(depth, text) => Line(9 + depth, text)
  }

  function ItemLines(items: seq<Item>): seq<string> {
    if items == [] then [] else ItemLines(items[..|items| - 1]) + [ItemLine(items[|items| - 1])]
  }

  function StepLines(s: StepSpec): seq<string> {
    [Line(6, "- " + Pair(s.key, s.value))] + ItemLines(s.items)
  }

  function StepsLines(steps: seq<StepSpec>): seq<string> {
    if steps == [] then [] else StepsLines(steps[..|steps| - 1]) + StepLines(steps[|steps| - 1])
  }

  function BelowText(b: Below): string {
    match b
    case Plain(_, text) => text
    case Shell(_, shell) => Pair("shell", shell)
  }

  /** Nested lines, at least `indent` deep. */
  function BelowLines(indent: nat, below: seq<Below>): seq<string> {
    if below == [] then []
    else
      var b := below[|below| - 1];
      BelowLines(indent, below[..|below| - 1]) + [Line(indent + b.depth, BelowText(b))]
  }

  function PartLines(p: Part): seq<string> {
    match p
    case Attr(key, value, below) => [Line(4, Pair(key, value))] + BelowLines(5, below)
    case Steps(steps) => [Line(4, "steps:")] + StepsLines(steps)
  }

  function PartsLines(parts: seq<Part>): seq<string> {
    if parts == [] then [] else PartsLines(parts[..|parts| - 1]) + PartLines(parts[|parts| - 1])
  }

  function JobLines(j: JobSpec): seq<string> {
    [Line(2, j.name + ":")] + PartsLines(j.parts)
  }

  function JobsLines(jobs: seq<JobSpec>): seq<string> {
    if jobs == [] then [] else JobsLines(jobs[..|jobs| - 1]) + JobLines(jobs[|jobs| - 1])
  }

  function OtherLines(below: seq<(nat, string)>): seq<string> {
    if below == [] then []
    else OtherLines(below[..|below| - 1]) + [Line(1 + below[|below| - 1].0, below[|below| - 1].1)]
  }

  function TopLines(t: Top): seq<string> {
    match t
    case Other(header, below) => [Line(0, header)] + OtherLines(below)
    case Defaults(lines) => [Line(0, "defaults:")] + BelowLines(1, lines)
    case Jobs(jobs) => [Line(0, "jobs:")] + JobsLines(jobs)
  }

  function Lines(w: Workflow): seq<string> {
    if w == [] then [] else Lines(w[..|w| - 1]) + TopLines(w[|w| - 1])
  }

  // ----- What the layout means -----

  function AddKey(step: Step, key: string, value: string): Step {
    if key in STEP_KEYS then step[key := value] else step
  }

  function StepUpTo(s: StepSpec, n: nat): Step
    requires n <= |s.items|
  {
    if n == 0 then AddKey(map[], s.key, s.value)
    else
      var item := s.items[n - 1];
      if item.Key? then AddKey(StepUpTo(s, n - 1), item.key, item.value) else StepUpTo(s, n - 1)
  }

  function StepOf(s: StepSpec): Step {
    StepUpTo(s, |s.items|)
  }

  function StepsOf(steps: seq<StepSpec>): seq<Step> {
    if steps == [] then [] else StepsOf(steps[..|steps| - 1]) + [StepOf(steps[|steps| - 1])]
  }

  /** The shell after the nested lines: the last one they name, or the one before them. */
  function ShellAfter(shell: Option<string>, below: seq<Below>): Option<string> {
    if below == [] then shell
    else
      var b := below[|below| - 1];
      if b.Shell? then Some(b.shell) else ShellAfter(shell, below[..|below| - 1])
  }

  function AddPart(job: Job, p: Part): Job {
    match p
    case Attr(key, value, below) =>
      job.(attrs := job.attrs[key := value], defaultsShell := ShellAfter(job.defaultsShell, below))
    case Steps(steps) => job.(steps := job.steps + StepsOf(steps), seenSteps := true)
  }

  function EmptyJob(name: string): Job {
    Job(name, map[], None, [], false)
  }

  function JobUpTo(j: JobSpec, n: nat): Job
    requires n <= |j.parts|
  {
    if n == 0 then EmptyJob(j.name) else AddPart(JobUpTo(j, n - 1), j.parts[n - 1])
  }

  function JobOf(j: JobSpec): Job {
    JobUpTo(j, |j.parts|)
  }

  function JobsOf(jobs: seq<JobSpec>): seq<Job> {
    if jobs == [] then [] else JobsOf(jobs[..|jobs| - 1]) + [JobOf(jobs[|jobs| - 1])]
  }

  /** The jobs and the shell of a workflow. */
  function Meaning(w: Workflow): Parsed {
    if w == [] then Parsed([], None)
    else
      var before := Meaning(w[..|w| - 1]);
      match w[|w| - 1]
      case Other(_, _) => before
      case Defaults(lines) => before.(wfShell := ShellAfter(before.wfShell, lines))
      case Jobs(jobs) => before.(jobs := before.jobs + JobsOf(jobs))
  }

  // ----- What can be laid out -----

  predicate PairOk(key: string, value: string) {
    IsKey(key) && Trimmed(value) && IsBody(Pair(key, value))
  }

  predicate ItemOk(s: StepSpec, n: nat)
    requires n < |s.items|
  {
    match s.items[n]
    case Key(k, v) => PairOk(k, v) && (k in STEP_KEYS ==> k !in StepUpTo(s, n))
    case Nested(_, text) => IsBody(text)
  }

  predicate StepOk(s: StepSpec) {
    && PairOk(s.key, s.value) && IsBody("- " + Pair(s.key, s.value))
    && forall n | 0 <= n < |s.items| :: ItemOk(s, n)
  }

  /** A nested line names a shell exactly when it says so. */
  predicate BelowOk(b: Below) {
    match b
    case Plain(_, text) => IsBody(text) && !("shell:" <= text)
    case Shell(_, shell) => PairOk("shell", shell)
  }

  /** Under the defaults a shell counts only two or four deep. */
  predicate DefaultOk(b: Below) {
    match b
    case Plain(depth, text) => IsBody(text) && (depth == 1 || depth == 3 ==> !("shell:" <= text))
    case Shell(depth, shell) => (depth == 1 || depth == 3) && PairOk("shell", shell)
  }

  /** Keys of a job are distinct, and it has one list of steps at most; the order is free. */
  predicate PartOk(j: JobSpec, n: nat)
    requires n < |j.parts|
  {
    match j.parts[n]
    case Attr(key, value, below) =>
      && PairOk(key, value) && Pair(key, value) != "steps:" && key !in JobUpTo(j, n).attrs
      && forall i | 0 <= i < |below| :: BelowOk(below[i])
    case Steps(steps) => !JobUpTo(j, n).seenSteps && forall i | 0 <= i < |steps| :: StepOk(steps[i])
  }

  predicate JobOk(j: JobSpec) {
    && IsBody(j.name + ":") && !("- " <= j.name + ":")
    && forall n | 0 <= n < |j.parts| :: PartOk(j, n)
  }

  predicate Unused(name: string, done: seq<Job>) {
    forall i | 0 <= i < |done| :: done[i].name != name
  }

  /** A job of a section, after the jobs `done` and those before it in the section; its name is new. */
  ghost predicate NextOk(done: seq<Job>, jobs: seq<JobSpec>, n: nat)
    requires n < |jobs|
  {
    JobOk(jobs[n]) && Unused(jobs[n].name, done + JobsOf(jobs[..n]))
  }

  ghost predicate JobsOk(done: seq<Job>, jobs: seq<JobSpec>) {
    forall n | 0 <= n < |jobs| :: NextOk(done, jobs, n)
  }

  ghost predicate TopOk(w: Workflow, n: nat)
    requires n < |w|
  {
    match w[n]
    case Other(header, below) =>
      && IsBody(header) && header != "jobs:" && header != "defaults:"
      && forall i | 0 <= i < |below| :: IsBody(below[i].1)
    case Defaults(lines) => forall i | 0 <= i < |lines| :: DefaultOk(lines[i])
    case Jobs(jobs) => JobsOk(Meaning(w[..n]).jobs, jobs)
  }

  ghost predicate WorkflowOk(w: Workflow) {
    forall n | 0 <= n < |w| :: TopOk(w, n)
  }

  // ----- Scanning, piece by piece -----

  lemma {:induction false} BlanksHaveNoTab(n: nat)
    ensures '\t' !in Blanks(n)
  {
    if n > 0 {
      BlanksHaveNoTab(n - 1);
    }
  }

  lemma ScanLine(st: State, indent: nat, body: string)
    requires st.Valid() && IsBody(body)
    ensures ParseLine(st, Line(indent, body)) == Dispatch(st, indent, body) && '\t' !in Line(indent, body)
  {
    LaidOut(indent, body);
    BlanksHaveNoTab(indent);
  }

  lemma {:induction false} ParseConcat(st: State, a: seq<string>, b: seq<string>)
    requires st.Valid()
    ensures ParseLines(st, a).Some? ==> ParseLines(st, a).value.Valid()
    ensures ParseLines(st, a + b) ==
            (var mid := ParseLines(st, a); if mid.None? || !mid.value.Valid() then None else ParseLines(mid.value, b))
    decreases |a|
  {
    hide ParseLine;
    if a == [] {
      assert a + b == b;
    } else {
      ParseLineIsValid(st, a[0]);
      assert (a + b)[1..] == a[1..] + b;
      if ParseLine(st, a[0]).Some? {
        ParseConcat(ParseLine(st, a[0]).value, a[1..], b);
      }
    }
  }

  lemma ParseOne(st: State, line: string)
    requires st.Valid()
    ensures ParseLines(st, [line]) == ParseLine(st, line)
  {
    hide ParseLine;
    ParseLineIsValid(st, line);
    var one: seq<string> := [line];
    assert one[1..] == [];
  }

  /** The line has no tab and takes the scan from `st` to `st'`. */
  predicate Reads(st: State, line: string, st': State) {
    st.Valid() && ParseLine(st, line) == Some(st') && '\t' !in line
  }

  /** The same for several lines. */
  predicate Scans(st: State, lines: seq<string>, st': State) {
    st.Valid() && ParseLines(st, lines) == Some(st') && st'.Valid() && !HasTab(lines)
  }

  lemma ScanNothing(st: State)
    requires st.Valid()
    ensures Scans(st, [], st)
  {
  }

  lemma ScanOne(st: State, line: string, st': State)
    requires Reads(st, line, st')
    ensures Scans(st, [line], st')
  {
    hide ParseLine;
    ParseOne(st, line);
    ParseLineIsValid(st, line);
  }

  lemma ScanBoth(st: State, a: seq<string>, mid: State, b: seq<string>, st': State)
    requires Scans(st, a, mid) && Scans(mid, b, st')
    ensures Scans(st, a + b, st')
  {
    hide ParseLine;
    ParseConcat(st, a, b);
  }

  /** The state while the job after `done` is being read. */
  function At(done: seq<Job>, cur: Job, wf: Option<string>, inSteps: bool, step: Option<Step>): State {
    State(done + [cur], wf, InJobs, Some(|done|), inSteps, step)
  }

  lemma UpdateLast(done: seq<Job>, cur: Job, cur': Job)
    ensures (done + [cur])[|done|] == cur && (done + [cur])[|done| := cur'] == done + [cur']
  {
  }

  /** The job after the step being read has been put away. */
  function Closed(cur: Job, step: Option<Step>): Job {
    if step.Some? then cur.(steps := cur.steps + [step.value]) else cur
  }

  lemma CloseAt(done: seq<Job>, cur: Job, wf: Option<string>, inSteps: bool, step: Option<Step>)
    ensures CloseStep(At(done, cur, wf, inSteps, step)) == At(done, Closed(cur, step), wf, inSteps, None)
  {
    UpdateLast(done, cur, Closed(cur, step));
  }

  // ----- Steps -----

  lemma StepKeyPair(st: State, key: string, value: string)
    requires PairOk(key, value) && st.step.Some? && (key in STEP_KEYS ==> key !in st.step.value)
    ensures StepKey(st, Pair(key, value)) == Some(st.(step := Some(AddKey(st.step.value, key, value))))
  {
    PairParts(key, value);
  }

  lemma ScanItem(done: seq<Job>, cur: Job, wf: Option<string>, s: StepSpec, n: nat)
    requires n < |s.items| && ItemOk(s, n)
    ensures Reads(At(done, cur, wf, true, Some(StepUpTo(s, n))), ItemLine(s.items[n]),
                  At(done, cur, wf, true, Some(StepUpTo(s, n + 1))))
  {
    hide ParseLine, STEP_KEYS, Line;
    var st := At(done, cur, wf, true, Some(StepUpTo(s, n)));
    match s.items[n] {
      case Key(k, v) =>
        ScanLine(st, 8, Pair(k, v));
        StepKeyPair(st, k, v);
      case Nested(depth, text) =>
        ScanLine(st, 9 + depth, text);
    }
  }

  lemma {:induction false} ScanItems(done: seq<Job>, cur: Job, wf: Option<string>, s: StepSpec, n: nat)
    requires n <= |s.items| && forall i | 0 <= i < |s.items| :: ItemOk(s, i)
    ensures Scans(At(done, cur, wf, true, Some(StepUpTo(s, 0))), ItemLines(s.items[..n]),
                  At(done, cur, wf, true, Some(StepUpTo(s, n))))
  {
    hide Reads, Scans, ItemOk, ItemLine, StepUpTo;
    var st := At(done, cur, wf, true, Some(StepUpTo(s, 0)));
    if n == 0 {
      ScanNothing(st);
    } else {
      var mid, end := At(done, cur, wf, true, Some(StepUpTo(s, n - 1))), At(done, cur, wf, true, Some(StepUpTo(s, n)));
      ScanItems(done, cur, wf, s, n - 1);
      assert s.items[..n][..n - 1] == s.items[..n - 1];
      ScanItem(done, cur, wf, s, n - 1);
      ScanOne(mid, ItemLine(s.items[n - 1]), end);
      ScanBoth(st, ItemLines(s.items[..n - 1]), mid, [ItemLine(s.items[n - 1])], end);
    }
  }

  lemma ScanStepHead(done: seq<Job>, cur: Job, wf: Option<string>, step: Option<Step>, s: StepSpec)
    requires StepOk(s)
    ensures Reads(At(done, cur, wf, true, step), Line(6, "- " + Pair(s.key, s.value)),
                  At(done, Closed(cur, step), wf, true, Some(StepUpTo(s, 0))))
  {
    hide ParseLine, Line, ItemOk;
    var st, pair := At(done, cur, wf, true, step), Pair(s.key, s.value);
    ScanLine(st, 6, "- " + pair);
    CloseAt(done, cur, wf, true, step);
    assert ("- " + pair)[2..] == pair;
    StepKeyPair(At(done, Closed(cur, step), wf, true, Some(map[])), s.key, s.value);
  }

  /** A laid-out step closes the one before it and is then the step being read. */
  lemma ScanStep(done: seq<Job>, cur: Job, wf: Option<string>, step: Option<Step>, s: StepSpec)
    requires StepOk(s)
    ensures Scans(At(done, cur, wf, true, step), StepLines(s), At(done, Closed(cur, step), wf, true, Some(StepOf(s))))
  {
    hide Reads, Scans, ItemOk, StepUpTo, ItemLines, Line, PairOk, IsBody;
    var st, job, head := At(done, cur, wf, true, step), Closed(cur, step), Line(6, "- " + Pair(s.key, s.value));
    var mid := At(done, job, wf, true, Some(StepUpTo(s, 0)));
    ScanStepHead(done, cur, wf, step, s);
    ScanOne(st, head, mid);
    ScanItems(done, job, wf, s, |s.items|);
    assert s.items[..|s.items|] == s.items;
    ScanBoth(st, [head], mid, ItemLines(s.items), At(done, job, wf, true, Some(StepOf(s))));
  }

  lemma {:induction false} ScanSteps(done: seq<Job>, cur: Job, wf: Option<string>, steps: seq<StepSpec>)
    returns (cur': Job, step': Option<Step>)
    requires forall n | 0 <= n < |steps| :: StepOk(steps[n])
    ensures Scans(At(done, cur, wf, true, None), StepsLines(steps), At(done, cur', wf, true, step'))
    ensures Closed(cur', step') == cur.(steps := cur.steps + StepsOf(steps))
  {
    hide Scans, StepOk, StepLines, StepOf;
    var st := At(done, cur, wf, true, None);
    if steps == [] {
      cur', step' := cur, None;
      ScanNothing(st);
      assert cur.steps + [] == cur.steps;
    } else {
      var n := |steps| - 1;
      var c, p := ScanSteps(done, cur, wf, steps[..n]);
      ScanStep(done, c, wf, p, steps[n]);
      cur', step' := Closed(c, p), Some(StepOf(steps[n]));
      ScanBoth(st, StepsLines(steps[..n]), At(done, c, wf, true, p), StepLines(steps[n]),
               At(done, cur', wf, true, step'));
      assert (cur.steps + StepsOf(steps[..n])) + [StepOf(steps[n])] == cur.steps + StepsOf(steps);
    }
  }

  // ----- Shells and headers -----

  /** What follows `shell:` in a laid-out shell line, stripped, is the shell. */
  lemma ShellValue(value: string)
    requires PairOk("shell", value)
    ensures "shell:" <= Pair("shell", value) && Strip(Pair("shell", value)[6..]) == value
  {
    var body := Pair("shell", value);
    if value == "" {
      assert body[6..] == "";
      return;
    }
    assert body[6..] == " " + value && " " == Blanks(1);
    LaidOut(1, value);
  }

  predicate IsPlain(word: string) {
    word != "" && forall i | 0 <= i < |word| :: 'a' <= word[i] <= 'z'
  }

  lemma PlainHeader(word: string)
    requires IsPlain(word)
    ensures IsBody(word + ":")
  {
    NoReference(word + ":");
  }

  lemma Headers()
    ensures IsBody("steps:") && IsBody("jobs:") && IsBody("defaults:")
  {
    hide IsBody;
    PlainHeader("steps");
    PlainHeader("jobs");
    PlainHeader("defaults");
    assert "steps" + ":" == "steps:" && "jobs" + ":" == "jobs:" && "defaults" + ":" == "defaults:";
  }

  /** Without `*` and `&` there is no alias. */
  lemma {:induction false} NoReference(s: string)
    requires '*' !in s && '&' !in s
    ensures !RefersAfterColon(s)
  {
    if s != "" {
      StripLeftIsSuffix(s[1..]);
      NoReference(s[1..]);
    }
  }

  lemma {:induction false} StripLeftIsSuffix(s: string)
    ensures forall c :: c in StripLeft(s) ==> c in s
  {
    if s != "" {
      StripLeftIsSuffix(s[1..]);
    }
  }

  // ----- Jobs -----

  /** A key of a job puts away the step before it and ends the list of steps. */
  lemma ScanAttr(done: seq<Job>, cur: Job, wf: Option<string>, inSteps: bool, step: Option<Step>,
                 key: string, value: string)
    requires PairOk(key, value) && Pair(key, value) != "steps:" && key !in Closed(cur, step).attrs
    ensures var job := Closed(cur, step);
            Reads(At(done, cur, wf, inSteps, step), Line(4, Pair(key, value)),
                  At(done, job.(attrs := job.attrs[key := value]), wf, false, None))
  {
    hide ParseLine, Line, Pair, Partition, Strip, CloseStep, Closed;
    var st, job, body := At(done, cur, wf, inSteps, step), Closed(cur, step), Pair(key, value);
    ScanLine(st, 4, body);
    CloseAt(done, cur, wf, inSteps, step);
    PairParts(key, value);
    UpdateLast(done, job, job.(attrs := job.attrs[key := value]));
    assert JobKey(At(done, job, wf, inSteps, None), body) ==
           Some(At(done, job.(attrs := job.attrs[key := value]), wf, false, None));
  }

  lemma ScanStepsHeader(done: seq<Job>, cur: Job, wf: Option<string>, inSteps: bool, step: Option<Step>)
    requires !Closed(cur, step).seenSteps
    ensures Reads(At(done, cur, wf, inSteps, step), Line(4, "steps:"),
                  At(done, Closed(cur, step).(seenSteps := true), wf, true, None))
  {
    hide ParseLine, Line, IsBody, PairOk, Pair, Partition, Strip, StepKey, CloseStep, NewJob, Closed;
    Headers();
    var job := Closed(cur, step);
    ScanLine(At(done, cur, wf, inSteps, step), 4, "steps:");
    CloseAt(done, cur, wf, inSteps, step);
    UpdateLast(done, job, job.(seenSteps := true));
  }

  lemma ScanBelowLine(done: seq<Job>, cur: Job, wf: Option<string>, b: Below)
    requires BelowOk(b)
    ensures Reads(At(done, cur, wf, false, None), Line(5 + b.depth, BelowText(b)),
                  At(done, cur.(defaultsShell := if b.Shell? then Some(b.shell) else cur.defaultsShell), wf,
                     false, None))
  {
    hide ParseLine, Line, Strip;
    if b.Shell? {
      ShellValue(b.shell);
      UpdateLast(done, cur, cur.(defaultsShell := Some(b.shell)));
    }
    ScanLine(At(done, cur, wf, false, None), 5 + b.depth, BelowText(b));
  }

  lemma {:induction false} ScanBelow(done: seq<Job>, cur: Job, wf: Option<string>, below: seq<Below>)
    requires forall i | 0 <= i < |below| :: BelowOk(below[i])
    ensures Scans(At(done, cur, wf, false, None), BelowLines(5, below),
                  At(done, cur.(defaultsShell := ShellAfter(cur.defaultsShell, below)), wf, false, None))
  {
    hide Reads, Scans, BelowOk, BelowText, Line;
    var st := At(done, cur, wf, false, None);
    var end := At(done, cur.(defaultsShell := ShellAfter(cur.defaultsShell, below)), wf, false, None);
    if below == [] {
      ScanNothing(st);
    } else {
      var n := |below| - 1;
      var b, before := below[n], cur.(defaultsShell := ShellAfter(cur.defaultsShell, below[..n]));
      var line, mid := Line(5 + b.depth, BelowText(b)), At(done, before, wf, false, None);
      ScanBelow(done, cur, wf, below[..n]);
      ScanBelowLine(done, before, wf, b);
      ScanOne(mid, line, end);
      ScanBoth(st, BelowLines(5, below[..n]), mid, [line], end);
    }
  }

  /** A part, read after the parts before it. */
  lemma ScanPart(done: seq<Job>, cur: Job, wf: Option<string>, inSteps: bool, step: Option<Step>, j: JobSpec, n: nat)
    returns (cur': Job, inSteps': bool, step': Option<Step>)
    requires n < |j.parts| && PartOk(j, n) && Closed(cur, step) == JobUpTo(j, n)
    ensures Scans(At(done, cur, wf, inSteps, step), PartLines(j.parts[n]), At(done, cur', wf, inSteps', step'))
    ensures Closed(cur', step') == JobUpTo(j, n + 1)
  {
    hide Reads, Scans, StepOk, BelowOk, PairOk, StepsLines, BelowLines, Line, ShellAfter, StepsOf, At;
    var st, job := At(done, cur, wf, inSteps, step), Closed(cur, step);
    match j.parts[n] {
      case Attr(key, value, below) =>
        var line, next := Line(4, Pair(key, value)), job.(attrs := job.attrs[key := value]);
        var mid := At(done, next, wf, false, None);
        cur', inSteps', step' := next.(defaultsShell := ShellAfter(next.defaultsShell, below)), false, None;
        ScanAttr(done, cur, wf, inSteps, step, key, value);
        ScanOne(st, line, mid);
        ScanBelow(done, next, wf, below);
        ScanBoth(st, [line], mid, BelowLines(5, below), At(done, cur', wf, false, None));
      case Steps(steps) =>
        var line, mid := Line(4, "steps:"), At(done, job.(seenSteps := true), wf, true, None);
        inSteps' := true;
        ScanStepsHeader(done, cur, wf, inSteps, step);
        ScanOne(st, line, mid);
        cur', step' := ScanSteps(done, job.(seenSteps := true), wf, steps);
        ScanBoth(st, [line], mid, StepsLines(steps), At(done, cur', wf, true, step'));
    }
  }

  lemma {:induction false} ScanParts(done: seq<Job>, wf: Option<string>, j: JobSpec, n: nat)
    returns (cur': Job, inSteps': bool, step': Option<Step>)
    requires n <= |j.parts| && forall i | 0 <= i < |j.parts| :: PartOk(j, i)
    ensures Scans(At(done, EmptyJob(j.name), wf, false, None), PartsLines(j.parts[..n]),
                  At(done, cur', wf, inSteps', step'))
    ensures Closed(cur', step') == JobUpTo(j, n)
  {
    hide Scans, PartOk, PartLines, AddPart;
    var st := At(done, EmptyJob(j.name), wf, false, None);
    if n == 0 {
      cur', inSteps', step' := EmptyJob(j.name), false, None;
      ScanNothing(st);
    } else {
      var c, ins, p := ScanParts(done, wf, j, n - 1);
      assert j.parts[..n][..n - 1] == j.parts[..n - 1];
      cur', inSteps', step' := ScanPart(done, c, wf, ins, p, j, n - 1);
      ScanBoth(st, PartsLines(j.parts[..n - 1]), At(done, c, wf, ins, p), PartLines(j.parts[n - 1]),
               At(done, cur', wf, inSteps', step'));
    }
  }

  /** Where a job may begin: inside the jobs section, with `done` being the jobs read before it. */
  predicate Ready(st: State, done: seq<Job>, wf: Option<string>) {
    st.section == InJobs && Between(st, done, wf)
  }

  /** Where a section may begin, after the jobs `done`. */
  predicate Between(st: State, done: seq<Job>, wf: Option<string>) {
    st.Valid() && st.wfShell == wf && CloseStep(st).jobs == done
  }

  lemma ScanJobHeader(st: State, done: seq<Job>, wf: Option<string>, name: string)
    requires Ready(st, done, wf) && Unused(name, done) && IsBody(name + ":") && !("- " <= name + ":")
    ensures Reads(st, Line(2, name + ":"), At(done, EmptyJob(name), wf, false, None))
  {
    hide ParseLine, Line, IsBody, JobKey, StepKey;
    var body := name + ":";
    ScanLine(st, 2, body);
    assert body[..|body| - 1] == name;
    LocateBound(done, name);
  }

  /** A laid-out job, read where a job may begin, is appended as it was meant. */
  lemma ScanJob(st: State, done: seq<Job>, wf: Option<string>, j: JobSpec) returns (st': State)
    requires Ready(st, done, wf) && Unused(j.name, done) && JobOk(j)
    ensures Scans(st, JobLines(j), st') && Ready(st', done + [JobOf(j)], wf)
  {
    hide Reads, Scans, IsBody, PartOk, PartsLines, JobUpTo, Line, Unused;
    var header, mid := Line(2, j.name + ":"), At(done, EmptyJob(j.name), wf, false, None);
    ScanJobHeader(st, done, wf, j.name);
    ScanOne(st, header, mid);
    var cur', inSteps, step' := ScanParts(done, wf, j, |j.parts|);
    assert j.parts[..|j.parts|] == j.parts;
    st' := At(done, cur', wf, inSteps, step');
    CloseAt(done, cur', wf, inSteps, step');
    ScanBoth(st, [header], mid, PartsLines(j.parts), st');
  }

  lemma {:induction false} ScanJobs(st: State, done: seq<Job>, wf: Option<string>, jobs: seq<JobSpec>, n: nat)
    returns (st': State)
    requires st.Valid() && Ready(st, done, wf) && JobsOk(done, jobs) && n <= |jobs|
    ensures Scans(st, JobsLines(jobs[..n]), st') && Ready(st', done + JobsOf(jobs[..n]), wf)
  {
    hide Scans, JobOk, JobLines, JobOf, Ready, Unused;
    if n == 0 {
      st' := st;
      ScanNothing(st);
      assert done + [] == done;
    } else {
      var mid := ScanJobs(st, done, wf, jobs, n - 1);
      var before := JobsOf(jobs[..n - 1]);
      assert jobs[..n][..n - 1] == jobs[..n - 1];
      assert NextOk(done, jobs, n - 1);
      st' := ScanJob(mid, done + before, wf, jobs[n - 1]);
      ScanBoth(st, JobsLines(jobs[..n - 1]), mid, JobLines(jobs[n - 1]), st');
      assert (done + before) + [JobOf(jobs[n - 1])] == done + (before + [JobOf(jobs[n - 1])]);
    }
  }

  // ----- The whole file -----

  /** The state after a top-level header. */
  function Begun(section: Section, done: seq<Job>, wf: Option<string>): State {
    State(done, wf, section, None, false, None)
  }

  function SectionOf(header: string): Section {
    if header == "jobs:" then InJobs else if header == "defaults:" then InDefaults else NoSection
  }

  lemma ScanTopHeader(st: State, done: seq<Job>, wf: Option<string>, header: string)
    requires Between(st, done, wf) && IsBody(header)
    ensures Reads(st, Line(0, header), Begun(SectionOf(header), done, wf))
    ensures Scans(st, [Line(0, header)], Begun(SectionOf(header), done, wf))
  {
    hide ParseLine, Scans, Line, IsBody, InsideJob;
    ScanLine(st, 0, header);
    ScanOne(st, Line(0, header), Begun(SectionOf(header), done, wf));
  }

  /** Lines of another section leave nothing behind: no job, no step, no shell. */
  lemma {:induction false} ScanOther(done: seq<Job>, wf: Option<string>, below: seq<(nat, string)>)
    requires forall i | 0 <= i < |below| :: IsBody(below[i].1)
    ensures Scans(Begun(NoSection, done, wf), OtherLines(below), Begun(NoSection, done, wf))
  {
    hide ParseLine, Scans, IsBody, Line;
    var st := Begun(NoSection, done, wf);
    if below == [] {
      ScanNothing(st);
    } else {
      var n := |below| - 1;
      var line := Line(1 + below[n].0, below[n].1);
      ScanOther(done, wf, below[..n]);
      ScanLine(st, 1 + below[n].0, below[n].1);
      ScanOne(st, line, st);
      ScanBoth(st, OtherLines(below[..n]), st, [line], st);
    }
  }

  lemma ScanDefaultLine(done: seq<Job>, wf: Option<string>, b: Below)
    requires DefaultOk(b)
    ensures Reads(Begun(InDefaults, done, wf), Line(1 + b.depth, BelowText(b)),
                  Begun(InDefaults, done, if b.Shell? then Some(b.shell) else wf))
  {
    hide ParseLine, Line, Strip, InsideJob;
    if b.Shell? {
      ShellValue(b.shell);
    }
    ScanLine(Begun(InDefaults, done, wf), 1 + b.depth, BelowText(b));
  }

  lemma {:induction false} ScanDefaults(done: seq<Job>, wf: Option<string>, lines: seq<Below>)
    requires forall i | 0 <= i < |lines| :: DefaultOk(lines[i])
    ensures Scans(Begun(InDefaults, done, wf), BelowLines(1, lines), Begun(InDefaults, done, ShellAfter(wf, lines)))
  {
    hide Reads, Scans, DefaultOk, BelowText, Line;
    var st, end := Begun(InDefaults, done, wf), Begun(InDefaults, done, ShellAfter(wf, lines));
    if lines == [] {
      ScanNothing(st);
    } else {
      var n := |lines| - 1;
      var b, mid := lines[n], Begun(InDefaults, done, ShellAfter(wf, lines[..n]));
      var line := Line(1 + b.depth, BelowText(b));
      ScanDefaults(done, wf, lines[..n]);
      ScanDefaultLine(done, ShellAfter(wf, lines[..n]), b);
      ScanOne(mid, line, end);
      ScanBoth(st, BelowLines(1, lines[..n]), mid, [line], end);
    }
  }

  /** A section, read after the sections before it. */
  lemma ScanTop(st: State, w: Workflow, n: nat) returns (st': State)
    requires n < |w| && TopOk(w, n) && Between(st, Meaning(w[..n]).jobs, Meaning(w[..n]).wfShell)
    ensures Scans(st, TopLines(w[n]), st')
    ensures Between(st', Meaning(w[..n + 1]).jobs, Meaning(w[..n + 1]).wfShell)
  {
    hide Reads, Scans, IsBody, Line, JobsOk, DefaultOk, JobsLines, BelowLines, OtherLines, ShellAfter, JobsOf;
    var done, wf := Meaning(w[..n]).jobs, Meaning(w[..n]).wfShell;
    assert w[..n + 1][..n] == w[..n];
    Headers();
    match w[n] {
      case Other(header, below) =>
        st' := Begun(NoSection, done, wf);
        ScanTopHeader(st, done, wf, header);
        ScanOther(done, wf, below);
        ScanBoth(st, [Line(0, header)], st', OtherLines(below), st');
      case Defaults(lines) =>
        st' := Begun(InDefaults, done, ShellAfter(wf, lines));
        ScanTopHeader(st, done, wf, "defaults:");
        ScanDefaults(done, wf, lines);
        ScanBoth(st, [Line(0, "defaults:")], Begun(InDefaults, done, wf), BelowLines(1, lines), st');
      case Jobs(jobs) =>
        ScanTopHeader(st, done, wf, "jobs:");
        st' := ScanJobs(Begun(InJobs, done, wf), done, wf, jobs, |jobs|);
        assert jobs[..|jobs|] == jobs;
        ScanBoth(st, [Line(0, "jobs:")], Begun(InJobs, done, wf), JobsLines(jobs), st');
    }
  }

  /** Scanning the sections of a workflow gives its jobs and its shell. */
  lemma {:induction false} ScanAll(w: Workflow, n: nat) returns (st: State)
    requires n <= |w| && WorkflowOk(w)
    ensures Scans(START, Lines(w[..n]), st)
    ensures Between(st, Meaning(w[..n]).jobs, Meaning(w[..n]).wfShell)
  {
    hide Scans, TopOk, TopLines;
    if n == 0 {
      st := START;
      ScanNothing(START);
    } else {
      var mid := ScanAll(w, n - 1);
      assert w[..n][..n - 1] == w[..n - 1];
      assert TopOk(w, n - 1);
      st := ScanTop(mid, w, n - 1);
      ScanBoth(START, Lines(w[..n - 1]), mid, TopLines(w[n - 1]), st);
    }
  }

  /**
   Round trip: scanning a laid-out workflow gives exactly its jobs, with every attribute, default shell
   and step, in whatever order its sections and the parts of its jobs stand, and nothing from any other
   section.
   */
  lemma LayoutReadsBack(w: Workflow)
    requires WorkflowOk(w)
    ensures ParseWorkflow(Lines(w)) == Some(Meaning(w))
  {
    hide ParseLine, ParseLines, HasTab, Lines, WorkflowOk, Meaning;
    var st := ScanAll(w, |w|);
    assert w[..|w|] == w;
  }

  /** A blank or comment line may be added anywhere without changing what is read. */
  lemma CommentsAreIgnored(a: seq<string>, comment: string, b: seq<string>)
    requires '\t' !in comment && (Strip(comment) == "" || Strip(comment)[0] == '#')
    ensures ParseWorkflow(a + [comment] + b) == ParseWorkflow(a + b)
  {
    ParseConcat(START, a, b);
    ParseConcat(START, a, [comment]);
    ParseConcat(START, a + [comment], b);
    var mid := ParseLines(START, a);
    if mid.Some? {
      ParseOne(mid.value, comment);
    }
    AddedLine(a, comment, b);
    hide ParseLines, CloseStep, HasTab;
  }

  lemma AddedLine(a: seq<string>, line: string, b: seq<string>)
    requires '\t' !in line
    ensures HasTab(a + [line] + b) == HasTab(a + b)
  {
    var x, y := a + [line] + b, a + b;
    if HasTab(x) {
      var i :| 0 <= i < |x| && '\t' in x[i];
      assert x[i] == y[if i < |a| then i else i - 1];
    }
    if HasTab(y) {
      var i :| 0 <= i < |y| && '\t' in y[i];
      assert y[i] == x[if i < |a| then i else i + 1];
    }
  }

  /** An alias, an anchor or a merge key anywhere in a file refuses the whole file. */
  lemma AliasIsRefused(a: seq<string>, line: string, b: seq<string>)
    requires Strip(line) != "" && Strip(line)[0] != '#' && IsAlias(Strip(line))
    ensures ParseWorkflow(a + [line] + b) == None
  {
    ParseConcat(START, a, [line]);
    ParseConcat(START, a + [line], b);
    var mid := ParseLines(START, a);
    if mid.Some? {
      ParseOne(mid.value, line);
      assert ParseLine(mid.value, line) == None;
    }
    hide ParseLine, HasTab, IsAlias;
  }
}
