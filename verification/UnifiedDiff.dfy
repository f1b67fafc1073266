/**
 Collecting the added lines of each path from the output of `git diff -U0`.

 The output is given as lines. `Section` is the layout git uses for one file, with arbitrary text
 in the changed lines; `ScanChunks` is the collector, which sees nothing but the lines.
 */
module UnifiedDiff {
  import opened Basics

  type Lines = multiset<string>
  type Counters = map<string, Lines>

  function CountersAt(m: Counters, path: string): Lines {
    if path in m then m[path] else multiset{}
  }

  // ----- The collector -----

  datatype State = State(current: Option<string>, inHunk: bool, result: Counters)

  const DIFF := "diff --git "
  const HUNK := "@@"
  const TARGET := "+++ "

  function Step(st: State, line: string): State {
    if DIFF <= line then State(None, false, st.result)
    else if HUNK <= line then st.(inHunk := true)
    else if st.inHunk && st.current.Some? && "+" <= line then
      st.(result := st.result[st.current.value := CountersAt(st.result, st.current.value) + multiset{line[1..]}])
    else if TARGET <= line then
      var target := line[4..];
      st.(current := if "b/" <= target then Some(target[2..]) else None)
    else st
  }

  function Scan(st: State, lines: seq<string>): State {
    if lines == [] then st else Step(Scan(st, lines[..|lines| - 1]), lines[|lines| - 1])
  }

  function ScanChunks(chunks: seq<seq<string>>): Counters {
    if chunks == [] then map[]
    else Scan(State(None, false, ScanChunks(chunks[..|chunks| - 1])), chunks[|chunks| - 1]).result
  }

  /** One pass over each chunk of output; the counters carry over, the position in the file does not. */
  method AddedLinesByPath(chunks: seq<seq<string>>) returns (result: Counters)
    ensures result == ScanChunks(chunks)
  {
    result := map[];
    for c := 0 to |chunks|
      invariant result == ScanChunks(chunks[..c])
    {
      var out := chunks[c];
      assert chunks[..c + 1][..c] == chunks[..c];
      ghost var start := State(None, false, result);
      var current: Option<string>, inHunk := None, false;
      assert out[..0] == [];
      for i := 0 to |out|
        invariant State(current, inHunk, result) == Scan(start, out[..i])
      {
        var line := out[i];
        assert out[..i + 1][..i] == out[..i];
        if DIFF <= line {
          current, inHunk := None, false;
        } else if HUNK <= line {
          inHunk := true;
        } else if inHunk && current.Some? && "+" <= line {
          result := result[current.value := CountersAt(result, current.value) + multiset{line[1..]}];
        } else if TARGET <= line {
          var target := line[4..];
          current := if "b/" <= target then Some(target[2..]) else None;
        }
      }
      assert out[..|out|] == out;
    }
    assert chunks[..|chunks|] == chunks;
  }

  // ----- The layout -----

  datatype BodyLine = Plus(text: string) | Minus(text: string) | NoNewline

  datatype Hunk = Hunk(header: string, body: seq<BodyLine>)

  /** One file of the diff; a deleted file has `/dev/null` as its target and no added lines. */
  datatype Section = Section(path: string, deleted: bool, title: string, preamble: seq<string>, hunks: seq<Hunk>)

  predicate Harmless(line: string) {
    !(DIFF <= line) && !(HUNK <= line) && !(TARGET <= line)
  }

  predicate WellFormed(s: Section) {
    && DIFF <= s.title
    && (forall i | 0 <= i < |s.preamble| :: Harmless(s.preamble[i]))
    && (forall i | 0 <= i < |s.hunks| :: HUNK <= s.hunks[i].header)
    && (s.deleted ==> forall i | 0 <= i < |s.hunks| :: PlusLines(s.hunks[i].body) == multiset{})
  }

  function BodyText(b: BodyLine): string {
    match b
    case Plus(text) => "+" + text
    case Minus(text) => "-" + text
    case NoNewline => "\\ No newline at end of file"
  }

  function BodyTexts(body: seq<BodyLine>): seq<string> {
    if body == [] then [] else BodyTexts(body[..|body| - 1]) + [BodyText(body[|body| - 1])]
  }

  function PlusLines(body: seq<BodyLine>): Lines {
    if body == [] then multiset{}
    else
      var last := body[|body| - 1];
      PlusLines(body[..|body| - 1]) + (if last.Plus? then multiset{last.text} else multiset{})
  }

  function HunkTexts(hunks: seq<Hunk>): seq<string> {
    if hunks == [] then []
    else HunkTexts(hunks[..|hunks| - 1]) + ([hunks[|hunks| - 1].header] + BodyTexts(hunks[|hunks| - 1].body))
  }

  function HunksPlus(hunks: seq<Hunk>): Lines {
    if hunks == [] then multiset{} else HunksPlus(hunks[..|hunks| - 1]) + PlusLines(hunks[|hunks| - 1].body)
  }

  function TargetLine(s: Section): string {
    if s.deleted then "+++ /dev/null" else "+++ b/" + s.path
  }

  /** A file without hunks, such as a mode change or a binary file, has no target line either. */
  function Render(s: Section): seq<string> {
    [s.title] + s.preamble + (if s.hunks == [] then [] else ["--- a/" + s.path, TargetLine(s)] + HunkTexts(s.hunks))
  }

  function RenderAll(sections: seq<Section>): seq<string> {
    if sections == [] then [] else RenderAll(sections[..|sections| - 1]) + Render(sections[|sections| - 1])
  }

  /** Adds the lines of one file to the counters; a file that adds nothing leaves no entry. */
  function AddLines(m: Counters, path: string, lines: Lines): Counters {
    if lines == multiset{} then m else m[path := CountersAt(m, path) + lines]
  }

  function AddSections(m: Counters, sections: seq<Section>): Counters {
    if sections == [] then m
    else
      var s := sections[|sections| - 1];
      AddLines(AddSections(m, sections[..|sections| - 1]), s.path, HunksPlus(s.hunks))
  }

  // ----- Scanning a section -----

  lemma {:induction false} ScanConcat(st: State, a: seq<string>, b: seq<string>)
    ensures Scan(st, a + b) == Scan(Scan(st, a), b)
  {
    if b == [] {
      assert a + b == a;
    } else {
      var n := |b| - 1;
      ScanConcat(st, a, b[..n]);
      assert (a + b)[..|a + b| - 1] == a + b[..n];
    }
  }

  lemma {:induction false} ScanHarmless(st: State, lines: seq<string>)
    requires !st.inHunk && forall i | 0 <= i < |lines| :: Harmless(lines[i])
    ensures Scan(st, lines) == st
  {
    if lines != [] {
      ScanHarmless(st, lines[..|lines| - 1]);
    }
  }

  lemma FirstDiffers(prefix: string, s: string)
    requires prefix != "" && s != "" && prefix[0] != s[0]
    ensures !(prefix <= s)
  {
  }

  /** Inside a hunk every `+` line counts, whatever it says, and no other body line does anything. */
  lemma StepBody(st: State, b: BodyLine)
    requires st.inHunk && (st.current.None? ==> !b.Plus?)
    ensures Step(st, BodyText(b)) ==
            if b.Plus? then st.(result := AddLines(st.result, st.current.value, multiset{b.text})) else st
  {
    var line := BodyText(b);
    assert line[0] == if b.Plus? then '+' else if b.Minus? then '-' else '\\';
    FirstDiffers(DIFF, line);
    FirstDiffers(HUNK, line);
    if !b.Plus? {
      FirstDiffers(TARGET, line);
    }
    assert b.Plus? ==> line[1..] == b.text;
  }

  lemma AddLinesTwice(m: Counters, path: string, a: Lines, b: Lines)
    ensures AddLines(AddLines(m, path, a), path, b) == AddLines(m, path, a + b)
  {
    if a == multiset{} {
      assert a + b == b;
    } else if b == multiset{} {
      assert a + b == a;
    } else {
      assert a + b != multiset{} by {
        var x :| x in a;
        assert x in a + b;
      }
      assert (CountersAt(m, path) + a) + b == CountersAt(m, path) + (a + b);
    }
  }

  /** What scanning inside a hunk adds to the state. */
  function WithLines(st: State, lines: Lines): State {
    if st.current.None? then st else st.(result := AddLines(st.result, st.current.value, lines))
  }

  lemma LastPlusCounts(body: seq<BodyLine>)
    requires body != [] && body[|body| - 1].Plus?
    ensures PlusLines(body) != multiset{}
  {
    assert body[|body| - 1].text in PlusLines(body);
  }

  lemma {:induction false} ScanBody(st: State, body: seq<BodyLine>)
    requires st.inHunk && (st.current.None? ==> PlusLines(body) == multiset{})
    ensures Scan(st, BodyTexts(body)) == WithLines(st, PlusLines(body))
  {
    if body != [] {
      var n := |body| - 1;
      var init, b := body[..n], body[n];
      assert BodyTexts(body)[..|BodyTexts(body)| - 1] == BodyTexts(init);
      if st.current.None? {
        assert PlusLines(init) <= PlusLines(body);
        if b.Plus? {
          LastPlusCounts(body);
        }
      }
      ScanBody(st, init);
      StepBody(WithLines(st, PlusLines(init)), b);
      if st.current.Some? {
        AddLinesTwice(st.result, st.current.value, PlusLines(init), if b.Plus? then multiset{b.text} else multiset{});
      }
    }
  }

  lemma {:induction false} ScanHunks(st: State, hunks: seq<Hunk>)
    requires forall i | 0 <= i < |hunks| :: HUNK <= hunks[i].header
    requires st.current.None? ==> forall i | 0 <= i < |hunks| :: PlusLines(hunks[i].body) == multiset{}
    ensures Scan(st, HunkTexts(hunks)) == WithLines(st, HunksPlus(hunks)).(inHunk := st.inHunk || hunks != [])
  {
    if hunks != [] {
      var n := |hunks| - 1;
      var init, h := hunks[..n], hunks[n];
      ScanHunks(st, init);
      var mid := Scan(st, HunkTexts(init));
      ScanConcat(st, HunkTexts(init), [h.header] + BodyTexts(h.body));
      ScanConcat(mid, [h.header], BodyTexts(h.body));
      StepHunk(mid, h.header);
      ScanBody(mid.(inHunk := true), h.body);
      hide Scan, PlusLines;
      if st.current.Some? {
        AddLinesTwice(st.result, st.current.value, HunksPlus(init), PlusLines(h.body));
      }
    }
  }

  lemma StepHunk(st: State, header: string)
    requires HUNK <= header
    ensures Scan(st, [header]) == st.(inHunk := true)
  {
    assert header[0] == HUNK[0];
    FirstDiffers(DIFF, header);
    ScanOne(st, header);
  }

  /** Scanning the lines of a file adds exactly its added lines, under its path. */
  lemma ScanSection(st: State, s: Section)
    requires WellFormed(s)
    ensures Scan(st, Render(s)).result == AddLines(st.result, s.path, HunksPlus(s.hunks))
  {
    var head := [s.title] + s.preamble;
    ScanConcat(st, [s.title], s.preamble);
    ScanOne(st, s.title);
    var st1 := State(None, false, st.result);
    ScanHarmless(st1, s.preamble);
    assert Scan(st, head) == st1;
    if s.hunks == [] {
      assert Render(s) == head;
    } else {
      var files := ["--- a/" + s.path, TargetLine(s)];
      ScanConcat(st, head, files + HunkTexts(s.hunks));
      ScanConcat(st1, files, HunkTexts(s.hunks));
      ScanFiles(st1, s);
      ScanHunks(Scan(st1, files), s.hunks);
      assert Render(s) == head + (files + HunkTexts(s.hunks));
      if s.deleted {
        NoPlusAtAll(s.hunks);
      }
    }
  }

  lemma ScanOne(st: State, line: string)
    ensures Scan(st, [line]) == Step(st, line)
  {
    hide Step;
    var one: seq<string> := [line];
    assert one[..0] == [];
  }

  lemma StepTarget(st: State, s: Section)
    requires !st.inHunk
    ensures Step(st, TargetLine(s)) == st.(current := if s.deleted then None else Some(s.path))
  {
    var b := TargetLine(s);
    FirstDiffers(DIFF, b);
    FirstDiffers(HUNK, b);
    assert TARGET <= b;
    if s.deleted {
      assert b[4..] == "/dev/null";
      FirstDiffers("b/", b[4..]);
    } else {
      assert b[4..] == "b/" + s.path && ("b/" + s.path)[2..] == s.path;
    }
  }

  lemma ScanFiles(st: State, s: Section)
    requires !st.inHunk
    ensures Scan(st, ["--- a/" + s.path, TargetLine(s)]) == st.(current := if s.deleted then None else Some(s.path))
  {
    var a, b := "--- a/" + s.path, TargetLine(s);
    FirstDiffers(DIFF, a);
    FirstDiffers(HUNK, a);
    FirstDiffers(TARGET, a);
    StepTarget(st, s);
    ScanOne(st, a);
    ScanOne(st, b);
    ScanConcat(st, [a], [b]);
    assert [a, b] == [a] + [b];
  }

  lemma {:induction false} NoPlusAtAll(hunks: seq<Hunk>)
    requires forall i | 0 <= i < |hunks| :: PlusLines(hunks[i].body) == multiset{}
    ensures HunksPlus(hunks) == multiset{}
  {
    if hunks != [] {
      NoPlusAtAll(hunks[..|hunks| - 1]);
    }
  }

  lemma {:induction false} ScanSections(m: Counters, sections: seq<Section>)
    requires forall i | 0 <= i < |sections| :: WellFormed(sections[i])
    ensures Scan(State(None, false, m), RenderAll(sections)).result == AddSections(m, sections)
  {
    if sections != [] {
      var n := |sections| - 1;
      ScanSections(m, sections[..n]);
      var st := State(None, false, m);
      ScanConcat(st, RenderAll(sections[..n]), Render(sections[n]));
      ScanSection(Scan(st, RenderAll(sections[..n])), sections[n]);
    }
  }

  // ----- Chunks -----

  function RenderChunks(chunks: seq<seq<Section>>): seq<seq<string>> {
    if chunks == [] then [] else RenderChunks(chunks[..|chunks| - 1]) + [RenderAll(chunks[|chunks| - 1])]
  }

  function Flatten(chunks: seq<seq<Section>>): seq<Section> {
    if chunks == [] then [] else Flatten(chunks[..|chunks| - 1]) + chunks[|chunks| - 1]
  }

  lemma {:induction false} AddSectionsConcat(m: Counters, a: seq<Section>, b: seq<Section>)
    ensures AddSections(m, a + b) == AddSections(AddSections(m, a), b)
  {
    if b == [] {
      assert a + b == a;
    } else {
      hide AddLines, HunksPlus;
      var n := |b| - 1;
      AddSectionsConcat(m, a, b[..n]);
      assert (a + b)[..|a + b| - 1] == a + b[..n];
    }
  }

  /**
   However the files are distributed over chunks, the collected counters are those of all the files
   one after the other: the chunk size does not matter.
   */
  lemma {:induction false} ChunksDoNotMatter(chunks: seq<seq<Section>>)
    requires forall c, i | 0 <= c < |chunks| && 0 <= i < |chunks[c]| :: WellFormed(chunks[c][i])
    ensures ScanChunks(RenderChunks(chunks)) == AddSections(map[], Flatten(chunks))
  {
    if chunks != [] {
      var n := |chunks| - 1;
      var init, last := chunks[..n], chunks[n];
      assert forall c, i | 0 <= c < |init| && 0 <= i < |init[c]| :: init[c][i] == chunks[c][i];
      ChunksDoNotMatter(init);
      var texts := RenderChunks(chunks);
      assert texts[..|texts| - 1] == RenderChunks(init);
      ScanSections(ScanChunks(RenderChunks(init)), last);
      AddSectionsConcat(map[], Flatten(init), last);
    }
  }

  ghost predicate DistinctPaths(sections: seq<Section>) {
    forall i, j | 0 <= i < j < |sections| :: sections[i].path != sections[j].path
  }

  lemma {:induction false} AddSectionsElsewhere(m: Counters, sections: seq<Section>, path: string)
    requires forall i | 0 <= i < |sections| :: sections[i].path != path
    ensures CountersAt(AddSections(m, sections), path) == CountersAt(m, path)
  {
    if sections != [] {
      AddSectionsElsewhere(m, sections[..|sections| - 1], path);
    }
  }

  lemma AddLinesAt(m: Counters, path: string, lines: Lines, p: string)
    ensures CountersAt(AddLines(m, path, lines), p) == CountersAt(m, p) + (if p == path then lines else multiset{})
  {
  }

  /** For distinct paths the collector recovers, for each path, exactly the multiset of its added lines. */
  lemma {:induction false} AddedLinesRecovered(sections: seq<Section>, i: nat)
    requires DistinctPaths(sections) && i < |sections|
    ensures CountersAt(AddSections(map[], sections), sections[i].path) == HunksPlus(sections[i].hunks)
  {
    hide AddLines, CountersAt, HunksPlus;
    var n := |sections| - 1;
    var init, p := sections[..n], sections[i].path;
    AddLinesAt(AddSections(map[], init), sections[n].path, HunksPlus(sections[n].hunks), p);
    if i < n {
      AddedLinesRecovered(init, i);
    } else {
      AddSectionsElsewhere(map[], init, p);
      NothingAt(p);
    }
  }

  lemma NothingAt(path: string)
    ensures CountersAt(map[], path) == multiset{}
  {
  }

  /** ... and it has no entry for a path that is not in the diff. */
  lemma {:induction false} NoOtherEntries(sections: seq<Section>, path: string)
    requires forall i | 0 <= i < |sections| :: sections[i].path != path
    ensures path !in AddSections(map[], sections)
  {
    if sections != [] {
      NoOtherEntries(sections[..|sections| - 1], path);
    }
  }
}
