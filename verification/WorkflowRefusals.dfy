/**
 What the workflow scanner refuses, on the text: after any laid-out beginning, one line that it cannot
 interpret refuses the file, whatever follows.
 */
module WorkflowRefusals {
  import opened Basics
  import opened WorkflowText
  import opened WorkflowParser
  import opened WorkflowLayout

  /** A line that the scan cannot take refuses the file. */
  lemma RefusedAt(a: seq<string>, st: State, line: string, b: seq<string>)
    requires Scans(START, a, st) && ParseLine(st, line) == None
    ensures ParseWorkflow(a + [line] + b) == None
  {
    hide ParseLine, HasTab;
    ParseConcat(START, a, [line]);
    ParseConcat(START, a + [line], b);
    ParseOne(st, line);
  }

  lemma TabIsRefused(lines: seq<string>, i: nat)
    requires i < |lines| && '\t' in lines[i]
    ensures ParseWorkflow(lines) == None
  {
    assert HasTab(lines);
  }

  // ----- In a job -----

  /** A workflow whose last section is jobs, and whose last job is `j`. */
  function Ending(w: Workflow, jobs: seq<JobSpec>, j: JobSpec): Workflow {
    w + [Jobs(jobs + [j])]
  }

  lemma InLastJob(w: Workflow, jobs: seq<JobSpec>, j: JobSpec)
    returns (done: seq<Job>, cur: Job, wf: Option<string>, inSteps: bool, step: Option<Step>)
    requires WorkflowOk(Ending(w, jobs, j))
    ensures Scans(START, Lines(Ending(w, jobs, j)), At(done, cur, wf, inSteps, step)) && JobOk(j)
    ensures Closed(cur, step) == JobOf(j)
  {
    hide Scans, JobLines, JobsLines, JobOk, Meaning, JobsOf, Unused, Line, TopOk, JobUpTo;
    var all, file := jobs + [j], Ending(w, jobs, j);
    var st := ScanAll(file, |w|);
    assert file[..|w|] == w && all[..|jobs|] == jobs;
    assert TopOk(file, |w|);
    var before := Meaning(w).jobs;
    wf := Meaning(w).wfShell;
    JobsOfTop(file, |w|);
    Headers();
    ScanTopHeader(st, before, wf, "jobs:");
    var begun := Begun(InJobs, before, wf);
    var ready := ScanJobs(begun, before, wf, all, |jobs|);
    assert NextOk(before, all, |jobs|);
    done := before + JobsOf(jobs);
    cur, inSteps, step := LastJob(ready, done, wf, j);
    var end := At(done, cur, wf, inSteps, step);
    ScanBoth(begun, JobsLines(jobs), ready, JobLines(j), end);
    assert JobsLines(all) == JobsLines(jobs) + JobLines(j) by {
      hide *;
      LastOfJobs(jobs, j);
    }
    ScanBoth(st, [Line(0, "jobs:")], begun, JobsLines(all), end);
    ScanBoth(START, Lines(w), st, TopLines(Jobs(all)), end);
  }

  lemma JobsOfTop(w: Workflow, n: nat)
    requires n < |w| && TopOk(w, n) && w[n].Jobs?
    ensures JobsOk(Meaning(w[..n]).jobs, w[n].jobs)
  {
  }

  lemma LastOfJobs(jobs: seq<JobSpec>, j: JobSpec)
    ensures JobsLines(jobs + [j]) == JobsLines(jobs) + JobLines(j)
  {
    hide JobLines;
    assert (jobs + [j])[..|jobs|] == jobs;
  }

  lemma LastJob(st: State, done: seq<Job>, wf: Option<string>, j: JobSpec)
    returns (cur: Job, inSteps: bool, step: Option<Step>)
    requires Ready(st, done, wf) && Unused(j.name, done) && JobOk(j)
    ensures Scans(st, JobLines(j), At(done, cur, wf, inSteps, step)) && Closed(cur, step) == JobOf(j)
  {
    hide Reads, Scans, IsBody, PartOk, PartsLines, JobUpTo, Line, Unused;
    var header, mid := Line(2, j.name + ":"), At(done, EmptyJob(j.name), wf, false, None);
    ScanJobHeader(st, done, wf, j.name);
    ScanOne(st, header, mid);
    cur, inSteps, step := ScanParts(done, wf, j, |j.parts|);
    assert j.parts[..|j.parts|] == j.parts;
    ScanBoth(st, [header], mid, PartsLines(j.parts), At(done, cur, wf, inSteps, step));
  }

  /** A second list of steps, and a key the job has already, refuse the file. */
  lemma RepeatedPartIsRefused(w: Workflow, jobs: seq<JobSpec>, j: JobSpec, key: string, value: string, b: seq<string>)
    requires WorkflowOk(Ending(w, jobs, j))
    ensures (exists i :: 0 <= i < |j.parts| && j.parts[i].Steps?) ==>
              ParseWorkflow(Lines(Ending(w, jobs, j)) + [Line(4, "steps:")] + b) == None
    ensures PairOk(key, value) && Pair(key, value) != "steps:" ==>
              (exists i :: 0 <= i < |j.parts| && j.parts[i].Attr? && j.parts[i].key == key) ==>
                ParseWorkflow(Lines(Ending(w, jobs, j)) + [Line(4, Pair(key, value))] + b) == None
  {
    hide Scans, ParseLine, ParseWorkflow, Line, Lines, WorkflowOk, JobOk, IsBody, JobUpTo;
    var lines := Lines(Ending(w, jobs, j));
    var done, cur, wf, inSteps, step := InLastJob(w, jobs, j);
    var st := At(done, cur, wf, inSteps, step);
    CloseAt(done, cur, wf, inSteps, step);
    if i :| 0 <= i < |j.parts| && j.parts[i].Steps? {
      PartsAreSeen(j, |j.parts|, i);
      Headers();
      ScanLine(st, 4, "steps:");
      RefusedAt(lines, st, Line(4, "steps:"), b);
    }
    if PairOk(key, value) && Pair(key, value) != "steps:" {
      if i :| 0 <= i < |j.parts| && j.parts[i].Attr? && j.parts[i].key == key {
        PartsAreSeen(j, |j.parts|, i);
        ScanLine(st, 4, Pair(key, value));
        PairParts(key, value);
        RefusedAt(lines, st, Line(4, Pair(key, value)), b);
      }
    }
  }

  lemma {:induction false} PartsAreSeen(j: JobSpec, n: nat, i: nat)
    requires i < n <= |j.parts|
    ensures j.parts[i].Steps? ==> JobUpTo(j, n).seenSteps
    ensures j.parts[i].Attr? ==> j.parts[i].key in JobUpTo(j, n).attrs
  {
    if i < n - 1 {
      PartsAreSeen(j, n - 1, i);
    }
  }

  // ----- In a list of steps -----

  /** The lines up to and including the header of the list of steps. */
  function ToSteps(w: Workflow, jobs: seq<JobSpec>, j: JobSpec): seq<string> {
    Lines(Ending(w, jobs, j)) + [Line(4, "steps:")]
  }

  ghost predicate StepsMayFollow(w: Workflow, jobs: seq<JobSpec>, j: JobSpec) {
    WorkflowOk(Ending(w, jobs, j)) && !JobOf(j).seenSteps
  }

  lemma AtSteps(w: Workflow, jobs: seq<JobSpec>, j: JobSpec)
    returns (done: seq<Job>, cur: Job, wf: Option<string>)
    requires StepsMayFollow(w, jobs, j)
    ensures Scans(START, ToSteps(w, jobs, j), At(done, cur, wf, true, None))
  {
    hide Scans, Reads, Line, Lines, WorkflowOk, JobOk, JobUpTo, At;
    var was, inSteps, step;
    done, was, wf, inSteps, step := InLastJob(w, jobs, j);
    cur := Closed(was, step).(seenSteps := true);
    ScanStepsHeader(done, was, wf, inSteps, step);
    var st, st' := At(done, was, wf, inSteps, step), At(done, cur, wf, true, None);
    ScanOne(st, Line(4, "steps:"), st');
    ScanBoth(START, Lines(Ending(w, jobs, j)), st, [Line(4, "steps:")], st');
  }

  /** A key of a step before any step has begun. */
  lemma KeyOutsideStepIsRefused(w: Workflow, jobs: seq<JobSpec>, j: JobSpec, body: string, b: seq<string>)
    requires StepsMayFollow(w, jobs, j) && IsBody(body)
    ensures ParseWorkflow(ToSteps(w, jobs, j) + [Line(8, body)] + b) == None
  {
    hide Scans, ParseLine, ParseWorkflow, Line, ToSteps, StepsMayFollow, IsBody;
    var done, cur, wf := AtSteps(w, jobs, j);
    var st := At(done, cur, wf, true, None);
    ScanLine(st, 8, body);
    RefusedAt(ToSteps(w, jobs, j), st, Line(8, body), b);
  }

  lemma InStep(w: Workflow, jobs: seq<JobSpec>, j: JobSpec, steps: seq<StepSpec>, s: StepSpec)
    returns (done: seq<Job>, cur: Job, wf: Option<string>)
    requires StepsMayFollow(w, jobs, j) && StepOk(s) && forall n | 0 <= n < |steps| :: StepOk(steps[n])
    ensures Scans(START, ToSteps(w, jobs, j) + StepsLines(steps + [s]), At(done, cur, wf, true, Some(StepOf(s))))
  {
    hide Scans, ToSteps, StepsMayFollow, StepOk, StepLines, StepOf, At;
    var was;
    done, was, wf := AtSteps(w, jobs, j);
    var st := At(done, was, wf, true, None);
    var c, p := ScanSteps(done, was, wf, steps);
    ScanStep(done, c, wf, p, s);
    cur := Closed(c, p);
    var end := At(done, cur, wf, true, Some(StepOf(s)));
    assert (steps + [s])[..|steps|] == steps;
    ScanBoth(st, StepsLines(steps), At(done, c, wf, true, p), StepLines(s), end);
    ScanBoth(START, ToSteps(w, jobs, j), st, StepsLines(steps + [s]), end);
  }

  /** One of the step keys a second time in the same step. */
  lemma RepeatedStepKeyIsRefused(w: Workflow, jobs: seq<JobSpec>, j: JobSpec, steps: seq<StepSpec>, s: StepSpec,
                                 key: string, value: string, b: seq<string>)
    requires StepsMayFollow(w, jobs, j) && StepOk(s) && forall n | 0 <= n < |steps| :: StepOk(steps[n])
    requires PairOk(key, value) && key in StepOf(s)
    requires key in {"name", "run", "uses", "if", "continue-on-error", "shell"}
    ensures ParseWorkflow(ToSteps(w, jobs, j) + StepsLines(steps + [s]) + [Line(8, Pair(key, value))] + b) == None
  {
    hide Scans, ParseLine, ParseWorkflow, Line, ToSteps, StepsMayFollow, StepOk, StepOf, StepsLines, IsBody;
    var done, cur, wf := InStep(w, jobs, j, steps, s);
    var st := At(done, cur, wf, true, Some(StepOf(s)));
    ScanLine(st, 8, Pair(key, value));
    PairParts(key, value);
    RefusedAt(ToSteps(w, jobs, j) + StepsLines(steps + [s]), st, Line(8, Pair(key, value)), b);
  }

  /** A line less deep than the keys of a step, unless it begins a step, a key of the job or another job. */
  lemma OddIndentIsRefused(w: Workflow, jobs: seq<JobSpec>, j: JobSpec, steps: seq<StepSpec>, s: StepSpec,
                           indent: nat, body: string, b: seq<string>)
    requires StepsMayFollow(w, jobs, j) && StepOk(s) && forall n | 0 <= n < |steps| :: StepOk(steps[n])
    requires IsBody(body) && 0 < indent < 8 && indent != 4
    requires indent == 6 ==> !("- " <= body)
    requires indent == 2 ==> body[|body| - 1] != ':' || "- " <= body
    ensures ParseWorkflow(ToSteps(w, jobs, j) + StepsLines(steps + [s]) + [Line(indent, body)] + b) == None
  {
    hide Scans, ParseLine, ParseWorkflow, Line, ToSteps, StepsMayFollow, StepOk, StepOf, StepsLines, IsAlias;
    var done, cur, wf := InStep(w, jobs, j, steps, s);
    var st := At(done, cur, wf, true, Some(StepOf(s)));
    ScanLine(st, indent, body);
    RefusedAt(ToSteps(w, jobs, j) + StepsLines(steps + [s]), st, Line(indent, body), b);
  }
}
