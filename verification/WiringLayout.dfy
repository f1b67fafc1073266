/** The wiring gate on the text of a workflow: adding a step the gate does not look at changes no finding. */
module WiringLayout {
  import opened Basics
  import opened WorkflowText
  import opened WorkflowParser
  import opened WorkflowLayout
  import opened WiringGate

  // ----- Inserting a step into a layout -----

  function Insert<T>(s: seq<T>, k: nat, x: T): seq<T>
    requires k <= |s|
  {
    s[..k] + [x] + s[k..]
  }

  /** Where a step may be inserted: a section, a job in it, its list of steps, and a position in that. */
  datatype Place = Place(section: nat, job: nat, part: nat, position: nat)
  {
    predicate InJob(j: JobSpec) {
      part < |j.parts| && j.parts[part].Steps? && position <= |j.parts[part].steps|
    }

    predicate InFile(w: Workflow) {
      section < |w| && w[section].Jobs? && job < |w[section].jobs| && InJob(w[section].jobs[job])
    }
  }

  function JobWith(j: JobSpec, at: Place, spec: StepSpec): JobSpec
    requires at.InJob(j)
  {
    j.(parts := j.parts[at.part := Steps(Insert(j.parts[at.part].steps, at.position, spec))])
  }

  function FileWith(w: Workflow, at: Place, spec: StepSpec): Workflow
    requires at.InFile(w)
  {
    var jobs := w[at.section].jobs;
    w[at.section := Jobs(jobs[at.job := JobWith(jobs[at.job], at, spec)])]
  }

  /** The position in the list of all jobs of the job that gets the step. */
  function Index(w: Workflow, at: Place): nat
    requires at.InFile(w)
  {
    |Meaning(w[..at.section]).jobs| + at.job
  }

  // ----- What it means -----

  lemma {:induction false} StepsOfConcat(a: seq<StepSpec>, b: seq<StepSpec>)
    ensures StepsOf(a + b) == StepsOf(a) + StepsOf(b)
  {
    if b == [] {
      assert a + b == a;
    } else {
      var n := |b| - 1;
      StepsOfConcat(a, b[..n]);
      assert (a + b)[..|a + b| - 1] == a + b[..n];
    }
  }

  lemma {:induction false} StepsOfLength(steps: seq<StepSpec>)
    ensures |StepsOf(steps)| == |steps|
  {
    if steps != [] {
      StepsOfLength(steps[..|steps| - 1]);
    }
  }

  lemma StepsOfInsert(steps: seq<StepSpec>, k: nat, spec: StepSpec)
    requires k <= |steps|
    ensures |StepsOf(steps)| == |steps|
    ensures StepsOf(Insert(steps, k, spec)) == Insert(StepsOf(steps), k, StepOf(spec))
  {
    hide StepOf;
    var a, b := steps[..k], steps[k..];
    assert a + b == steps && [spec][..0] == [];
    StepsOfConcat(a, b);
    StepsOfConcat(a, [spec]);
    StepsOfConcat(a + [spec], b);
    StepsOfLength(a);
    StepsOfLength(steps);
    assert StepsOf([spec]) == [StepOf(spec)];
    assert StepsOf(steps)[..k] == StepsOf(a) && StepsOf(steps)[k..] == StepsOf(b);
  }

  /** A job has no steps before its list of steps. */
  lemma {:induction false} NoStepsBefore(j: JobSpec, n: nat)
    requires n <= |j.parts| && !JobUpTo(j, n).seenSteps
    ensures JobUpTo(j, n).steps == []
  {
    if n > 0 {
      NoStepsBefore(j, n - 1);
    }
  }

  /** The layout with the step means the job with the step. */
  lemma {:induction false} JobUpToWith(j: JobSpec, at: Place, spec: StepSpec, n: nat)
    requires JobOk(j) && at.InJob(j) && n <= |j.parts|
    ensures n <= at.part ==> JobUpTo(JobWith(j, at, spec), n) == JobUpTo(j, n)
    ensures n > at.part ==>
              && at.position <= |JobUpTo(j, n).steps| && JobUpTo(j, n).seenSteps
              && JobUpTo(JobWith(j, at, spec), n) == WithStep(JobUpTo(j, n), at.position, StepOf(spec))
  {
    hide StepOf, StepsOf, StepOk, IsBody, PairOk, BelowOk, ShellAfter;
    if n > 0 {
      JobUpToWith(j, at, spec, n - 1);
      assert PartOk(j, n - 1);
      if n - 1 == at.part {
        NoStepsBefore(j, n - 1);
        var steps := j.parts[at.part].steps;
        StepsOfInsert(steps, at.position, spec);
        assert [] + StepsOf(steps) == StepsOf(steps);
        assert [] + StepsOf(Insert(steps, at.position, spec)) == StepsOf(Insert(steps, at.position, spec));
      }
    }
  }

  lemma JobWithIsOk(j: JobSpec, at: Place, spec: StepSpec)
    requires JobOk(j) && at.InJob(j) && StepOk(spec)
    ensures JobOk(JobWith(j, at, spec)) && at.position <= |JobOf(j).steps|
    ensures JobOf(JobWith(j, at, spec)) == WithStep(JobOf(j), at.position, StepOf(spec))
  {
    hide StepOk, IsBody, PairOk, BelowOk, JobUpTo, StepOf;
    var j' := JobWith(j, at, spec);
    JobUpToWith(j, at, spec, |j.parts|);
    forall n | 0 <= n < |j'.parts|
      ensures PartOk(j', n)
    {
      JobUpToWith(j, at, spec, n);
      assert PartOk(j, n);
    }
  }

  lemma {:induction false} JobsOfAt(jobs: seq<JobSpec>)
    ensures |JobsOf(jobs)| == |jobs| && forall i | 0 <= i < |jobs| :: JobsOf(jobs)[i] == JobOf(jobs[i])
  {
    hide JobOf;
    if jobs != [] {
      JobsOfAt(jobs[..|jobs| - 1]);
    }
  }

  lemma {:induction false} JobUpToName(j: JobSpec, n: nat)
    requires n <= |j.parts|
    ensures JobUpTo(j, n).name == j.name
  {
    if n > 0 {
      JobUpToName(j, n - 1);
    }
  }

  predicate SameNames(a: seq<Job>, b: seq<Job>) {
    |a| == |b| && forall i | 0 <= i < |a| :: a[i].name == b[i].name
  }

  lemma PrefixNames(jobs: seq<JobSpec>, b: nat, j: JobSpec, i: nat)
    requires b < |jobs| && i <= |jobs| && j.name == jobs[b].name
    ensures SameNames(JobsOf(jobs[..i]), JobsOf(jobs[b := j][..i]))
  {
    hide JobUpTo;
    JobsOfAt(jobs[..i]);
    JobsOfAt(jobs[b := j][..i]);
    JobUpToName(j, |j.parts|);
    JobUpToName(jobs[b], |jobs[b].parts|);
  }

  /** Replacing a job by one of the same name keeps a section in order. */
  lemma JobsWithIsOk(done: seq<Job>, done': seq<Job>, jobs: seq<JobSpec>, b: nat, j: JobSpec)
    requires JobsOk(done, jobs) && SameNames(done, done') && b < |jobs| && JobOk(j) && j.name == jobs[b].name
    ensures JobsOk(done', jobs[b := j])
  {
    hide JobOk, JobsOf;
    var jobs' := jobs[b := j];
    forall n | 0 <= n < |jobs'|
      ensures NextOk(done', jobs', n)
    {
      assert NextOk(done, jobs, n);
      PrefixNames(jobs, b, j, n);
      assert SameNames(done + JobsOf(jobs[..n]), done' + JobsOf(jobs'[..n]));
    }
  }

  lemma SameSectionIsOk(done: seq<Job>, done': seq<Job>, jobs: seq<JobSpec>)
    requires JobsOk(done, jobs) && SameNames(done, done')
    ensures JobsOk(done', jobs)
  {
    hide JobOk, JobsOf;
    forall n | 0 <= n < |jobs|
      ensures NextOk(done', jobs, n)
    {
      assert NextOk(done, jobs, n);
      assert SameNames(done + JobsOf(jobs[..n]), done' + JobsOf(jobs[..n]));
    }
  }

  /** The meaning of the file with the step is the meaning of the file, with the step in that job. */
  ghost predicate MeansWith(m: Parsed, m': Parsed, i: nat, job: Job) {
    && i < |m.jobs| && m'.wfShell == m.wfShell && m'.jobs == m.jobs[i := job] && m.jobs[i].name == job.name
  }

  lemma {:induction false} MeaningWith(w: Workflow, at: Place, spec: StepSpec, n: nat)
    requires WorkflowOk(w) && at.InFile(w) && StepOk(spec) && n <= |w|
    ensures n <= at.section ==> Meaning(FileWith(w, at, spec)[..n]) == Meaning(w[..n])
    ensures n > at.section ==>
              && MeansWith(Meaning(w[..n]), Meaning(FileWith(w, at, spec)[..n]), Index(w, at),
                           JobOf(JobWith(w[at.section].jobs[at.job], at, spec)))
              && Meaning(w[..n]).jobs[Index(w, at)] == JobOf(w[at.section].jobs[at.job])
  {
    hide JobOf, JobsOf, StepOk, TopOk, ShellAfter;
    var w' := FileWith(w, at, spec);
    if n > 0 {
      MeaningWith(w, at, spec, n - 1);
      assert w[..n][..n - 1] == w[..n - 1] && w'[..n][..n - 1] == w'[..n - 1];
      if n - 1 == at.section {
        SectionWith(w, at, spec);
      }
    }
  }

  lemma SectionWith(w: Workflow, at: Place, spec: StepSpec)
    requires WorkflowOk(w) && at.InFile(w) && StepOk(spec)
    ensures var jobs, done := w[at.section].jobs, Meaning(w[..at.section]).jobs;
            var j' := JobWith(jobs[at.job], at, spec);
            && Index(w, at) < |done + JobsOf(jobs)| && (done + JobsOf(jobs))[Index(w, at)] == JobOf(jobs[at.job])
            && JobOf(j').name == JobOf(jobs[at.job]).name
            && done + JobsOf(jobs[at.job := j']) == (done + JobsOf(jobs))[Index(w, at) := JobOf(j')]
  {
    hide JobUpTo, StepOk, WorkflowOk, Meaning;
    var jobs := w[at.section].jobs;
    var j, j' := jobs[at.job], JobWith(jobs[at.job], at, spec);
    JobsOfAt(jobs);
    JobsOfAt(jobs[at.job := j']);
    JobUpToName(j, |j.parts|);
    JobUpToName(j', |j'.parts|);
  }

  lemma JobOfPlaceIsOk(w: Workflow, at: Place)
    requires WorkflowOk(w) && at.InFile(w)
    ensures JobOk(w[at.section].jobs[at.job])
  {
    hide JobOk, Meaning, JobsOf;
    assert TopOk(w, at.section);
    assert NextOk(Meaning(w[..at.section]).jobs, w[at.section].jobs, at.job);
  }

  /** A workflow with one more step in a list of steps is still a workflow that can be laid out. */
  lemma FileWithIsOk(w: Workflow, at: Place, spec: StepSpec)
    requires WorkflowOk(w) && at.InFile(w) && StepOk(spec)
    ensures WorkflowOk(FileWith(w, at, spec))
  {
    hide JobOk, Meaning, JobsOf, JobOf, StepOk, IsBody, DefaultOk, JobsOk;
    var w' := FileWith(w, at, spec);
    JobOfPlaceIsOk(w, at);
    JobWithIsOk(w[at.section].jobs[at.job], at, spec);
    forall n | 0 <= n < |w'|
      ensures TopOk(w', n)
    {
      assert TopOk(w, n);
      MeaningWith(w, at, spec, n);
      if w[n].Jobs? {
        var done, done' := Meaning(w[..n]).jobs, Meaning(w'[..n]).jobs;
        assert SameNames(done, done');
        if n == at.section {
          JobsWithIsOk(done, done', w[n].jobs, at.job, JobWith(w[n].jobs[at.job], at, spec));
        } else {
          SameSectionIsOk(done, done', w[n].jobs);
        }
      }
    }
  }

  /**
   On the text: both files are read, and the gate has the same findings on both, when the added step is
   conditional, advisory, under another shell, or runs none of the gate's commands.
   */
  lemma InertStepInText(reg: seq<string>, fns: seq<string>, external: seq<string>, w: Workflow, at: Place,
                        spec: StepSpec, e: Error) returns (m: Parsed, m': Parsed)
    requires WorkflowOk(w) && at.InFile(w) && StepOk(spec)
    requires Inert(JobOf(w[at.section].jobs[at.job]), StepOf(spec), Meaning(w).wfShell)
    ensures ParseWorkflow(Lines(w)) == Some(m) && ParseWorkflow(Lines(FileWith(w, at, spec))) == Some(m')
    ensures Complete(m.jobs) == Complete(m'.jobs)
    ensures Complete(m.jobs) ==>
              Finding(e, Subject(reg, fns, m.jobs, m.wfShell), external) ==
              Finding(e, Subject(reg, fns, m'.jobs, m'.wfShell), external)
  {
    hide JobOk, JobOf, StepOk, StepOf, WorkflowOk, Meaning, ParseWorkflow, Inert, Finding, Lines, Complete;
    var w' := FileWith(w, at, spec);
    FileWithIsOk(w, at, spec);
    LayoutReadsBack(w);
    LayoutReadsBack(w');
    m, m' := Meaning(w), Meaning(w');
    MeaningWith(w, at, spec, |w|);
    assert w[..|w|] == w && w'[..|w'|] == w';
    JobOfPlaceIsOk(w, at);
    JobWithIsOk(w[at.section].jobs[at.job], at, spec);
    InertStepIsIgnored(Subject(reg, fns, m.jobs, m.wfShell), external, Index(w, at), at.position, StepOf(spec), e);
  }
}
