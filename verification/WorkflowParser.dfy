/**
 The section-aware scan of a workflow file: job attributes, default shells and steps, read from
 indentation alone. It refuses what it cannot interpret instead of guessing.
 */
module WorkflowParser {
  import opened Basics
  import opened WorkflowText

  type Step = map<string, string>

  const STEP_KEYS: set<string> := {"name", "run", "uses", "if", "continue-on-error", "shell"}

  datatype Job = Job(name: string, attrs: map<string, string>, defaultsShell: Option<string>, steps: seq<Step>,
                     seenSteps: bool)

  datatype Section = NoSection | InJobs | InDefaults

  /** `job` is the position of the current job in `jobs`; `step` is the step being read. */
  datatype State = State(jobs: seq<Job>, wfShell: Option<string>, section: Section, job: Option<nat>, inSteps: bool,
                         step: Option<Step>)
  {
    predicate Valid() {
      job.Some? ==> job.value < |jobs|
    }
  }

  const START := State([], None, NoSection, None, false, None)

  // ----- The scan -----

  /** Ends the step being read, if there is one. */
  function CloseStep(st: State): State {
    if st.step.Some? && st.job.Some? && st.job.value < |st.jobs| then
      var j := st.jobs[st.job.value];
      st.(jobs := st.jobs[st.job.value := j.(steps := j.steps + [st.step.value])], step := None)
    else st.(step := None)
  }

  function Locate(jobs: seq<Job>, name: string): nat {
    if jobs == [] then 0 else if jobs[0].name == name then 0 else 1 + Locate(jobs[1..], name)
  }

  /** A job of the same name is replaced, not merged. */
  function NewJob(st: State, name: string): State {
    var i, empty := Locate(st.jobs, name), Job(name, map[], None, [], false);
    st.(jobs := if i < |st.jobs| then st.jobs[i := empty] else st.jobs + [empty], job := Some(i), inSteps := false)
  }

  function TopLevel(st: State, body: string): State {
    st.(job := None, inSteps := false,
        section := if body == "jobs:" then InJobs else if body == "defaults:" then InDefaults else NoSection)
  }

  function JobKey(st: State, body: string): Option<State>
    requires st.job.Some? && st.Valid()
  {
    var i := st.job.value;
    var j := st.jobs[i];
    if body == "steps:" then
      // A second steps section is refused, never merged.
      if j.seenSteps then None else Some(st.(inSteps := true, jobs := st.jobs[i := j.(seenSteps := true)]))
    else
      var p := Partition(body);
      if p.None? then Some(st.(inSteps := false))
      else
        var key, value := Strip(p.value.0), Strip(p.value.1);
        if key in j.attrs then None
        else Some(st.(inSteps := false, jobs := st.jobs[i := j.(attrs := j.attrs[key := value])]))
  }

  function StepKey(st: State, body: string): Option<State> {
    if st.step.None? then None
    else
      var p := Partition(body);
      if p.None? then Some(st)
      else
        var key, value := Strip(p.value.0), Strip(p.value.1);
        if key !in STEP_KEYS then Some(st)
        else if key in st.step.value then None
        else Some(st.(step := Some(st.step.value[key := value])))
  }

  function InsideJob(st: State, indent: nat, body: string): Option<State>
    requires st.job.Some? && st.Valid()
  {
    if indent == 4 then JobKey(CloseStep(st), body)
    else if !st.inSteps then
      if "shell:" <= body then
        var i := st.job.value;
        Some(st.(jobs := st.jobs[i := st.jobs[i].(defaultsShell := Some(Strip(body[6..])))]))
      else Some(st)
    else if indent == 6 && "- " <= body then StepKey(CloseStep(st).(step := Some(map[])), body[2..])
    else if indent > 8 then Some(st)
    else if indent != 8 then None
    else StepKey(st, body)
  }

  function Dispatch(st: State, indent: nat, body: string): Option<State>
    requires body != "" && st.Valid()
  {
    if indent == 0 then Some(TopLevel(CloseStep(st), body))
    else if st.section == InDefaults && (indent == 2 || indent == 4) && "shell:" <= body then
      Some(st.(wfShell := Some(Strip(body[6..]))))
    else if st.section != InJobs then Some(st)
    else if indent == 2 && body[|body| - 1] == ':' && !("- " <= body) then
      Some(NewJob(CloseStep(st), body[..|body| - 1]))
    else if st.job.None? then Some(st)
    else InsideJob(st, indent, body)
  }

  function ParseLine(st: State, raw: string): Option<State>
    requires st.Valid()
  {
    var body := Strip(raw);
    if body == "" || body[0] == '#' then Some(st)
    else if IsAlias(body) then None
    else Dispatch(st, Indent(raw), body)
  }

  lemma {:induction false} LocateBound(jobs: seq<Job>, name: string)
    ensures Locate(jobs, name) <= |jobs|
    ensures Locate(jobs, name) < |jobs| ==> jobs[Locate(jobs, name)].name == name
    ensures forall i | 0 <= i < Locate(jobs, name) :: jobs[i].name != name
  {
    if jobs != [] && jobs[0].name != name {
      LocateBound(jobs[1..], name);
    }
  }

  lemma ParseLineIsValid(st: State, raw: string)
    requires st.Valid()
    ensures ParseLine(st, raw).Some? ==> ParseLine(st, raw).value.Valid()
  {
    LocateBound(CloseStep(st).jobs, if Strip(raw) == "" then "" else Strip(raw)[..|Strip(raw)| - 1]);
  }

  function ParseLines(st: State, lines: seq<string>): Option<State>
    requires st.Valid()
    decreases |lines|
  {
    if lines == [] then Some(st)
    else
      ParseLineIsValid(st, lines[0]);
      var next := ParseLine(st, lines[0]);
      if next.None? then None else ParseLines(next.value, lines[1..])
  }

  predicate HasTab(lines: seq<string>) {
    exists i :: 0 <= i < |lines| && '\t' in lines[i]
  }

  datatype Parsed = Parsed(jobs: seq<Job>, wfShell: Option<string>)

  /** The whole file, line by line; `None` is a refusal. */
  function ParseWorkflow(lines: seq<string>): Option<Parsed> {
    if HasTab(lines) then None
    else
      var end := ParseLines(START, lines);
      if end.None? then None else Some(Parsed(CloseStep(end.value).jobs, end.value.wfShell))
  }

  lemma {:induction false} ParseLinesSnoc(st: State, lines: seq<string>)
    requires st.Valid() && lines != []
    ensures ParseLines(st, lines[..|lines| - 1]).Some? ==> ParseLines(st, lines[..|lines| - 1]).value.Valid()
    ensures ParseLines(st, lines) ==
            var before := ParseLines(st, lines[..|lines| - 1]);
            if before.None? || !before.value.Valid() then None else ParseLine(before.value, lines[|lines| - 1])
    decreases |lines|
  {
    hide ParseLine;
    ParseLineIsValid(st, lines[0]);
    if |lines| == 1 {
      assert lines[..0] == [] && lines[1..] == [];
    } else if ParseLine(st, lines[0]).Some? {
      ParseLinesSnoc(ParseLine(st, lines[0]).value, lines[1..]);
      assert lines[1..][..|lines| - 2] == lines[..|lines| - 1][1..];
    }
  }

  /** The scan as a loop that updates the state line by line. */
  method ScanWorkflow(lines: seq<string>) returns (r: Option<Parsed>)
    ensures r == ParseWorkflow(lines)
  {
    if HasTab(lines) {
      return None;
    }
    hide ParseLine;
    var st := START;
    for i := 0 to |lines|
      invariant st.Valid() && ParseLines(START, lines[..i]) == Some(st)
    {
      assert lines[..i + 1][..i] == lines[..i];
      ParseLinesSnoc(START, lines[..i + 1]);
      ParseLineIsValid(st, lines[i]);
      var next := ParseLine(st, lines[i]);
      if next.None? {
        Refused(START, lines, i + 1);
        return None;
      }
      st := next.value;
    }
    assert lines[..|lines|] == lines;
    return Some(Parsed(CloseStep(st).jobs, st.wfShell));
  }

  lemma {:induction false} Refused(st: State, lines: seq<string>, n: nat)
    requires st.Valid() && n <= |lines| && ParseLines(st, lines[..n]).None?
    ensures ParseLines(st, lines).None?
    decreases |lines|
  {
    hide ParseLine;
    if n == |lines| {
      assert lines[..n] == lines;
    } else {
      ParseLinesSnoc(st, lines);
      var init := lines[..|lines| - 1];
      assert init[..n] == lines[..n];
      Refused(st, init, n);
    }
  }
}
