/**
 What YAML reads in a workflow and the scanner does not: keys written in quotes, and defaults written
 on one line. Both leave the gate's reading of the file unchanged.
 */
module WorkflowYaml {
  import opened Basics
  import opened WorkflowText
  import opened WorkflowParser
  import opened WorkflowLayout
  import opened WiringGate

  /** A key without the quotes around it, as YAML reads it. */
  function Unquoted(key: string): string {
    if |key| >= 2 && (key[0] == '"' || key[0] == '\'') && key[|key| - 1] == key[0] then key[1..|key| - 1] else key
  }

  /** Taken out of quotes is what stands between two quotes of the same kind, and nothing else. */
  lemma UnquotedIff(key: string, name: string)
    ensures Unquoted("\"" + name + "\"") == name && Unquoted("'" + name + "'") == name
    ensures Unquoted(key) != key ==> key == "\"" + Unquoted(key) + "\"" || key == "'" + Unquoted(key) + "'"
  {
  }

  // ----- Quoted step keys -----

  const DISQUALIFYING: set<string> := {"if", "continue-on-error", "shell"}

  /** The keys of a step up to the line `n` below its first, as they are written. */
  function KeysUpTo(s: StepSpec, n: nat): seq<string>
    requires n <= |s.items|
  {
    if n == 0 then [s.key]
    else KeysUpTo(s, n - 1) + (if s.items[n - 1].Key? then [s.items[n - 1].key] else [])
  }

  function Keys(s: StepSpec): seq<string> {
    KeysUpTo(s, |s.items|)
  }

  /** The scanner sees a key exactly when it is written out. */
  lemma {:induction false} SeenIffWritten(s: StepSpec, n: nat, name: string)
    requires n <= |s.items| && name in STEP_KEYS
    ensures name in StepUpTo(s, n) <==> name in KeysUpTo(s, n)
  {
    hide STEP_KEYS;
    if n > 0 {
      SeenIffWritten(s, n - 1, name);
    }
  }

  predicate ScannedUnconditional(s: StepSpec) {
    forall name | name in DISQUALIFYING :: name !in StepOf(s)
  }

  predicate Unconditional(s: StepSpec) {
    forall i | 0 <= i < |Keys(s)| :: Unquoted(Keys(s)[i]) !in DISQUALIFYING
  }

  /** A disqualifying key in quotes. */
  predicate HidesCondition(s: StepSpec) {
    exists i :: 0 <= i < |Keys(s)| && Keys(s)[i] != Unquoted(Keys(s)[i]) && Unquoted(Keys(s)[i]) in DISQUALIFYING
  }

  /** What the scanner takes for an unconditional step is one exactly when no disqualifying key is quoted. */
  lemma UnconditionalIff(s: StepSpec)
    ensures Unconditional(s) <==> ScannedUnconditional(s) && !HidesCondition(s)
  {
    forall name | name in DISQUALIFYING
      ensures name in StepOf(s) <==> name in Keys(s)
      ensures Unquoted(name) == name
    {
      SeenIffWritten(s, |s.items|, name);
    }
    hide StepOf, Keys, Unquoted, DISQUALIFYING;
    if Unconditional(s) {
      forall name | name in DISQUALIFYING
        ensures name !in StepOf(s)
      {
        assert forall i | 0 <= i < |Keys(s)| :: Keys(s)[i] == name ==> Unquoted(Keys(s)[i]) in DISQUALIFYING;
      }
    }
  }

  /**
   A step that runs a command under a quoted `if`, with any condition: it can be laid out, it is
   conditional, and the gate counts it as running the command.
   */
  lemma QuotedIfIsMissed(job: Job, cmd: string, condition: string) returns (s: StepSpec)
    requires PairOk("run", cmd) && IsBody("- " + Pair("run", cmd)) && cmd != "" && job.defaultsShell == None
    requires PairOk("\"if\"", condition)
    ensures StepOk(s) && !Unconditional(s) && Ran(job, StepOf(s), None) == Some(cmd)
  {
    hide IsBody, PairOk, Pair;
    s := StepSpec("run", cmd, [Key("\"if\"", condition)]);
    var quoted := s.items[0].key;
    assert Keys(s) == KeysUpTo(s, 0) + [quoted] && KeysUpTo(s, 0) == ["run"];
    assert Keys(s)[1] == quoted && Unquoted(quoted) == "if";
    assert quoted !in STEP_KEYS by {
      assert quoted[0] == '"' && forall name | name in STEP_KEYS :: name[0] != '"';
    }
    assert StepUpTo(s, 1) == StepUpTo(s, 0) == map["run" := cmd];
    assert ItemOk(s, 0);
  }

  // ----- Defaults on one line -----

  /** The key of a top-level line, as YAML reads it. */
  function TopKey(header: string): Option<string> {
    var p := Partition(header);
    if p.None? then None else Some(Unquoted(Strip(p.value.0)))
  }

  /** Of all ways to write the defaults, the scanner sees one: the bare key, with the rest nested under it. */
  lemma DefaultsSeenIff(st: State, done: seq<Job>, wf: Option<string>, header: string)
    requires Between(st, done, wf) && IsBody(header) && TopKey(header) == Some("defaults")
    ensures ParseLine(st, Line(0, header)).Some?
    ensures ParseLine(st, Line(0, header)).value.section == InDefaults <==> header == "defaults:"
  {
    hide ParseLine, Line, IsBody, Between, TopKey;
    ScanTopHeader(st, done, wf, header);
  }

  function WithSection(w: Workflow, n: nat, top: Top): Workflow
    requires n <= |w|
  {
    w[..n] + [top] + w[n..]
  }

  lemma {:induction false} MeaningWithSection(w: Workflow, n: nat, top: Top, m: nat)
    requires n <= |w| && top.Other? && m <= |w|
    ensures m <= n ==> WithSection(w, n, top)[..m] == w[..m]
    ensures m >= n ==> Meaning(WithSection(w, n, top)[..m + 1]) == Meaning(w[..m])
  {
    hide JobsOf, ShellAfter;
    var w' := WithSection(w, n, top);
    if m == n {
      assert w'[..m + 1][..m] == w[..m];
    } else if m > n {
      MeaningWithSection(w, n, top, m - 1);
      assert w'[..m + 1][..m] == w'[..m] && w[..m][..m - 1] == w[..m - 1];
    }
  }

  lemma SectionKeepsOk(w: Workflow, n: nat, top: Top)
    requires WorkflowOk(w) && n <= |w| && top.Other?
    requires IsBody(top.header) && top.header != "jobs:" && top.header != "defaults:"
    requires forall i | 0 <= i < |top.below| :: IsBody(top.below[i].1)
    ensures WorkflowOk(WithSection(w, n, top))
  {
    hide IsBody, Meaning, JobsOk, DefaultOk;
    var w' := WithSection(w, n, top);
    forall k | 0 <= k < |w'|
      ensures TopOk(w', k)
    {
      if k < n {
        MeaningWithSection(w, n, top, k);
        assert TopOk(w, k);
      } else if k > n {
        MeaningWithSection(w, n, top, k - 1);
        assert TopOk(w, k - 1);
      }
    }
  }

  /** A section of any other name, wherever it stands, does not change what is read. */
  lemma OtherSectionIsIgnored(w: Workflow, n: nat, top: Top)
    requires WorkflowOk(w) && n <= |w| && top.Other?
    requires IsBody(top.header) && top.header != "jobs:" && top.header != "defaults:"
    requires forall i | 0 <= i < |top.below| :: IsBody(top.below[i].1)
    ensures ParseWorkflow(Lines(WithSection(w, n, top))) == ParseWorkflow(Lines(w)) == Some(Meaning(w))
  {
    hide IsBody, Meaning, WorkflowOk, ParseWorkflow, Lines;
    SectionKeepsOk(w, n, top);
    LayoutReadsBack(w);
    LayoutReadsBack(WithSection(w, n, top));
    MeaningWithSection(w, n, top, |w|);
    var w' := WithSection(w, n, top);
    assert w'[..|w| + 1] == w' && w[..|w|] == w;
  }

  /** So defaults written on one line, with any value, go unseen: the gate judges the file without them. */
  lemma FlowDefaultsAreMissed(w: Workflow, n: nat, value: string)
    requires WorkflowOk(w) && n <= |w| && PairOk("defaults", value) && value != ""
    ensures var top := Other(Pair("defaults", value), []);
            && TopKey(top.header) == Some("defaults")
            && ParseWorkflow(Lines(WithSection(w, n, top))) == ParseWorkflow(Lines(w)) == Some(Meaning(w))
  {
    hide WorkflowOk, Meaning, Lines, ParseWorkflow, IsBody, Partition, Strip;
    PairParts("defaults", value);
    assert Pair("defaults", value)[0] == 'd' && |Pair("defaults", value)| > |"defaults:"|;
    OtherSectionIsIgnored(w, n, Other(Pair("defaults", value), []));
  }
}
