/**
 Finding the paths a branch would revert: the component a path belongs to, the scope of a branch,
 and the report over that scope.
 */
module BranchHygiene {
  import opened Order
  import UnifiedDiff
  import EditScripts
  import PathGlob
  import ManifestRoots

  type Lines = multiset<string>

  // ----- Components -----

  const REPO_ROOT := "<repo-root>"

  /** `root` is a directory above the path. */
  predicate IsAbove(root: string, path: string) {
    root + "/" <= path
  }

  /** The component of a path that no manifest directory is above. */
  function FallbackComponent(path: string): string {
    var parts := PathGlob.Split(path);
    if |parts| >= 3 then parts[0] + "/" + parts[1]
    else if |parts| == 2 then parts[0]
    else REPO_ROOT
  }

  function ComponentOf(path: string, roots: seq<string>): string {
    if roots == [] then FallbackComponent(path)
    else if IsAbove(roots[0], path) then roots[0]
    else ComponentOf(path, roots[1..])
  }

  /** Of two directories above a path, the shorter one is above the longer one, or they are equal. */
  lemma AncestorsNest(a: string, b: string, path: string)
    requires IsAbove(a, path) && IsAbove(b, path) && |a| <= |b|
    ensures a == b || IsAbove(a, b)
  {
    assert a + "/" == path[..|a| + 1] && b + "/" == path[..|b| + 1];
    if |a| == |b| {
      assert a == path[..|a|] == b;
    } else {
      assert path[..|a| + 1] == b[..|a| + 1];
    }
  }

  /** The component is the nearest manifest directory above the path, and the fallback only without one. */
  lemma {:induction false} ComponentIsNearest(path: string, roots: seq<string>)
    requires ManifestRoots.LongestFirst(roots)
    ensures var c := ComponentOf(path, roots);
            if exists i :: 0 <= i < |roots| && IsAbove(roots[i], path) then
              && c in roots && IsAbove(c, path)
              && forall i | 0 <= i < |roots| && IsAbove(roots[i], path) :: roots[i] == c || IsAbove(roots[i], c)
            else c == FallbackComponent(path)
  {
    if roots != [] {
      if IsAbove(roots[0], path) {
        forall i | 0 <= i < |roots| && IsAbove(roots[i], path)
          ensures roots[i] == roots[0] || IsAbove(roots[i], roots[0])
        {
          AncestorsNest(roots[i], roots[0], path);
        }
      } else {
        ComponentIsNearest(path, roots[1..]);
        assert forall i | 0 <= i < |roots| - 1 :: roots[1..][i] == roots[i + 1];
        assert forall i | 0 < i < |roots| :: roots[i] == roots[1..][i - 1];
      }
    }
  }

  lemma {:induction false} NoRootAbove(path: string, roots: seq<string>)
    requires forall i | 0 <= i < |roots| :: !(roots[i] + "/" <= path)
    ensures ComponentOf(path, roots) == FallbackComponent(path)
  {
    if roots != [] {
      assert !(roots[0] + "/" <= path);
      NoRootAbove(path, roots[1..]);
    }
  }

  lemma FallbackCases(a: string, b: string, rest: string)
    requires '/' !in a && '/' !in b
    ensures FallbackComponent(a + "/" + b + "/" + rest) == a + "/" + b
    ensures FallbackComponent(a + "/" + b) == a
    ensures FallbackComponent(a) == "<repo-root>"
  {
    var two := a + "/" + b;
    PathGlob.SplitOfSegment(a);
    PathGlob.SplitOfSegment(b);
    PathGlob.SplitConcat(a, b);
    PathGlob.SplitConcat(two, rest);
    PathGlob.SplitIsNotEmpty(rest);
    var parts := PathGlob.Split(two + "/" + rest);
    assert parts[0] == a && parts[1] == b && |parts| >= 3;
  }

  ghost predicate IsUnrooted(path: string, roots: seq<string>) {
    forall i | 0 <= i < |roots| :: !(roots[i] + "/" <= path)
  }

  /** Without a manifest above it, a path belongs to its first two directories, or to fewer if it is not that deep. */
  lemma Fallbacks(a: string, b: string, rest: string, roots: seq<string>)
    requires '/' !in a && '/' !in b
    ensures IsUnrooted(a + "/" + b + "/" + rest, roots) ==> ComponentOf(a + "/" + b + "/" + rest, roots) == a + "/" + b
    ensures IsUnrooted(a + "/" + b, roots) ==> ComponentOf(a + "/" + b, roots) == a
    ensures IsUnrooted(a, roots) ==> ComponentOf(a, roots) == "<repo-root>"
  {
    hide FallbackComponent, PathGlob.Split;
    FallbackCases(a, b, rest);
    if IsUnrooted(a + "/" + b + "/" + rest, roots) {
      NoRootAbove(a + "/" + b + "/" + rest, roots);
    }
    if IsUnrooted(a + "/" + b, roots) {
      NoRootAbove(a + "/" + b, roots);
    }
    if IsUnrooted(a, roots) {
      NoRootAbove(a, roots);
    }
  }

  // ----- The report -----

  datatype RevertedPath = RevertedPath(path: string, lines: nat, branchHasFile: bool)

  /** Most reverted lines first, then by path. */
  predicate Before(a: RevertedPath, b: RevertedPath) {
    a.lines > b.lines || (a.lines == b.lines && Less(a.path, b.path))
  }

  ghost predicate Ranked(s: seq<RevertedPath>) {
    forall i, j | 0 <= i < j < |s| :: Before(s[i], s[j])
  }

  function Rank(x: RevertedPath, s: seq<RevertedPath>): seq<RevertedPath> {
    if s == [] || Before(x, s[0]) then [x] + s else [s[0]] + Rank(x, s[1..])
  }

  lemma BeforeTransitive(a: RevertedPath, b: RevertedPath, c: RevertedPath)
    requires Before(a, b) && Before(b, c)
    ensures Before(a, c)
  {
    if a.lines == b.lines == c.lines {
      LessTransitive(a.path, b.path, c.path);
    }
  }

  lemma {:induction false} RankKeepsRanked(x: RevertedPath, s: seq<RevertedPath>)
    requires Ranked(s) && forall i | 0 <= i < |s| :: s[i].path != x.path
    ensures Ranked(Rank(x, s))
    ensures forall y :: y in Rank(x, s) <==> y == x || y in s
  {
    if s == [] {
    } else if Before(x, s[0]) {
      forall j | 0 <= j < |s|
        ensures Before(x, s[j])
      {
        if j > 0 {
          BeforeTransitive(x, s[0], s[j]);
        }
      }
    } else {
      LessTotal(x.path, s[0].path);
      RankKeepsRanked(x, s[1..]);
      var t := Rank(x, s[1..]);
      forall j | 0 <= j < |t|
        ensures Before(s[0], t[j])
      {
        assert t[j] in t;
      }
      assert forall y :: y in s <==> y == s[0] || y in s[1..];
    }
  }

  /** The number of lines of the path that count as reverted. */
  function Count(mainAdded: UnifiedDiff.Counters, absent: UnifiedDiff.Counters, path: string): nat {
    |UnifiedDiff.CountersAt(mainAdded, path) * UnifiedDiff.CountersAt(absent, path)|
  }

  /** Main changed the path, in a component that the branch changed too. */
  ghost predicate InScope(path: string, own: seq<string>, advanced: seq<string>, roots: seq<string>) {
    path in advanced && exists i :: 0 <= i < |own| && ComponentOf(own[i], roots) == ComponentOf(path, roots)
  }

  ghost predicate IsFinding(r: RevertedPath, own: seq<string>, advanced: seq<string>, roots: seq<string>,
                            mainAdded: UnifiedDiff.Counters, absent: UnifiedDiff.Counters, branchFiles: set<string>) {
    && InScope(r.path, own, advanced, roots)
    && r.lines == Count(mainAdded, absent, r.path) && r.lines > 0
    && r.branchHasFile == (r.path in branchFiles)
  }

  method OwnedComponents(own: seq<string>, roots: seq<string>) returns (owned: set<string>)
    ensures forall c :: c in owned <==> exists i :: 0 <= i < |own| && ComponentOf(own[i], roots) == c
  {
    owned := {};
    for k := 0 to |own|
      invariant forall c :: c in owned <==> exists i :: 0 <= i < k && ComponentOf(own[i], roots) == c
    {
      owned := owned + {ComponentOf(own[k], roots)};
    }
  }

  method Scope(own: seq<string>, advanced: seq<string>, roots: seq<string>) returns (scope: seq<string>)
    ensures Ascending(scope) && forall p :: p in scope <==> InScope(p, own, advanced, roots)
  {
    var owned := OwnedComponents(own, roots);
    scope := [];
    for k := 0 to |advanced|
      invariant Ascending(scope)
      invariant forall p :: p in scope <==> p in advanced[..k] && ComponentOf(p, roots) in owned
    {
      assert advanced[..k + 1] == advanced[..k] + [advanced[k]];
      if ComponentOf(advanced[k], roots) in owned {
        InsertAscends(advanced[k], scope);
        scope := Insert(advanced[k], scope);
      }
    }
    assert advanced[..|advanced|] == advanced;
  }

  /**
   Without a merge base there is nothing to report. Otherwise the report lists exactly the paths in
   scope with reverted lines, each once, with its count, the worst first. `listing` is what main
   holds; `toMain` and `fromBranch` are what git prints for the base and for the branch against main.
   */
  method RevertedPaths(hasBase: bool, own: seq<string>, advanced: seq<string>, listing: seq<string>,
                       toMain: seq<seq<string>>, fromBranch: seq<seq<string>>, branchFiles: set<string>)
    returns (ok: bool, report: seq<RevertedPath>, ghost roots: seq<string>)
    ensures ok == hasBase && (!hasBase ==> report == [])
    ensures ManifestRoots.LongestFirst(roots) && forall d :: d in roots <==> ManifestRoots.HoldsManifest(d, listing)
    ensures hasBase ==>
              forall i, j | 0 <= i < j < |report| ::
                || report[i].lines > report[j].lines
                || (report[i].lines == report[j].lines && Less(report[i].path, report[j].path))
    ensures hasBase ==>
              forall r :: r in report <==>
                          IsFinding(r, own, advanced, roots, UnifiedDiff.ScanChunks(toMain),
                                    UnifiedDiff.ScanChunks(fromBranch), branchFiles)
  {
    var found := ManifestRoots.FindRoots(listing);
    roots := found;
    if !hasBase {
      return false, [], roots;
    }
    var mainAdded := UnifiedDiff.AddedLinesByPath(toMain);
    var absent := UnifiedDiff.AddedLinesByPath(fromBranch);
    report := Report(own, advanced, found, mainAdded, absent, branchFiles);
    ok := true;
    assert forall i, j | 0 <= i < j < |report| :: Before(report[i], report[j]);
  }

  method Report(own: seq<string>, advanced: seq<string>, roots: seq<string>,
                mainAdded: UnifiedDiff.Counters, absent: UnifiedDiff.Counters, branchFiles: set<string>)
    returns (report: seq<RevertedPath>)
    ensures Ranked(report)
    ensures forall r :: r in report <==> IsFinding(r, own, advanced, roots, mainAdded, absent, branchFiles)
  {
    hide InScope, Count, Rank;
    report := [];
    var scope := Scope(own, advanced, roots);
    for k := 0 to |scope|
      invariant Ranked(report)
      invariant forall r :: r in report <==>
                  r.path in scope[..k] && IsFinding(r, own, advanced, roots, mainAdded, absent, branchFiles)
    {
      var path := scope[k];
      var count := Count(mainAdded, absent, path);
      assert scope[..k + 1] == scope[..k] + [path];
      if count > 0 {
        var r := RevertedPath(path, count, path in branchFiles);
        forall i | 0 <= i < |report|
          ensures report[i].path != path
        {
          LessIrreflexive(path);
          assert report[i] in report;
        }
        RankKeepsRanked(r, report);
        report := Rank(r, report);
      }
    }
    assert scope[..|scope|] == scope;
  }

  // ----- From edit scripts to counts -----

  /** The changed lines of a script, as they appear in the hunks. */
  function BodyOf(s: EditScripts.Script): seq<UnifiedDiff.BodyLine> {
    if s == [] then []
    else
      var e := s[|s| - 1];
      BodyOf(s[..|s| - 1]) +
      (if e.Add? then [UnifiedDiff.Plus(e.line)] else if e.Remove? then [UnifiedDiff.Minus(e.line)] else [])
  }

  function Bodies(hunks: seq<UnifiedDiff.Hunk>): seq<UnifiedDiff.BodyLine> {
    if hunks == [] then [] else Bodies(hunks[..|hunks| - 1]) + hunks[|hunks| - 1].body
  }

  /** The changed lines, without the markers for a missing newline at the end of a file. */
  function Changes(body: seq<UnifiedDiff.BodyLine>): seq<UnifiedDiff.BodyLine> {
    if body == [] then []
    else Changes(body[..|body| - 1]) + (if body[|body| - 1].NoNewline? then [] else [body[|body| - 1]])
  }

  /** The hunks of the file show the script, wherever they are cut, and main has the file. */
  predicate Shows(sec: UnifiedDiff.Section, s: EditScripts.Script) {
    !sec.deleted && Changes(Bodies(sec.hunks)) == BodyOf(s)
  }

  lemma {:induction false} PlusOfChanges(body: seq<UnifiedDiff.BodyLine>)
    ensures UnifiedDiff.PlusLines(Changes(body)) == UnifiedDiff.PlusLines(body)
  {
    if body != [] {
      var n := |body| - 1;
      PlusOfChanges(body[..n]);
      var init, longer := Changes(body[..n]), Changes(body[..n]) + [body[n]];
      assert longer[..|longer| - 1] == init && init + [] == init;
      PlusSnoc(longer);
      PlusSnoc(body);
    }
  }

  function PlusOf(b: UnifiedDiff.BodyLine): Lines {
    if b.Plus? then multiset{b.text} else multiset{}
  }

  lemma PlusSnoc(body: seq<UnifiedDiff.BodyLine>)
    requires body != []
    ensures UnifiedDiff.PlusLines(body) == UnifiedDiff.PlusLines(body[..|body| - 1]) + PlusOf(body[|body| - 1])
  {
  }

  lemma {:induction false} PlusConcat(a: seq<UnifiedDiff.BodyLine>, b: seq<UnifiedDiff.BodyLine>)
    ensures UnifiedDiff.PlusLines(a + b) == UnifiedDiff.PlusLines(a) + UnifiedDiff.PlusLines(b)
  {
    if b == [] {
      assert a + b == a;
    } else {
      var n := |b| - 1;
      PlusConcat(a, b[..n]);
      var ab, init := a + b, a + b[..n];
      assert ab[..|ab| - 1] == init && ab[|ab| - 1] == b[n];
      PlusSnoc(ab);
      PlusSnoc(b);
    }
  }

  lemma {:induction false} HunksPlusIsBodies(hunks: seq<UnifiedDiff.Hunk>)
    ensures UnifiedDiff.HunksPlus(hunks) == UnifiedDiff.PlusLines(Bodies(hunks))
  {
    if hunks != [] {
      var n := |hunks| - 1;
      HunksPlusIsBodies(hunks[..n]);
      PlusConcat(Bodies(hunks[..n]), hunks[n].body);
    }
  }

  lemma {:induction false} PlusOfBody(s: EditScripts.Script)
    ensures UnifiedDiff.PlusLines(BodyOf(s)) == EditScripts.Added(s)
  {
    if s != [] {
      var n := |s| - 1;
      PlusOfBody(s[..n]);
      var e := s[n];
      var one: seq<UnifiedDiff.BodyLine> :=
        if e.Add? then [UnifiedDiff.Plus(e.line)] else if e.Remove? then [UnifiedDiff.Minus(e.line)] else [];
      PlusConcat(BodyOf(s[..n]), one);
      if one != [] {
        PlusSnoc(one);
        assert one[..0] == [];
      }
    }
  }

  /** The added lines of a file, as read from the diff, are the lines its script adds. */
  lemma AddedByScript(sections: seq<UnifiedDiff.Section>, i: nat, s: EditScripts.Script)
    requires UnifiedDiff.DistinctPaths(sections) && i < |sections| && Shows(sections[i], s)
    ensures UnifiedDiff.CountersAt(UnifiedDiff.AddSections(map[], sections), sections[i].path) == EditScripts.Added(s)
  {
    hide UnifiedDiff.AddSections, UnifiedDiff.PlusLines, BodyOf, Bodies;
    UnifiedDiff.AddedLinesRecovered(sections, i);
    HunksPlusIsBodies(sections[i].hunks);
    PlusOfChanges(Bodies(sections[i].hunks));
    PlusOfBody(s);
  }

  /** What git prints, in chunks: well-formed files under distinct paths. */
  ghost predicate IsDiff(chunks: seq<seq<UnifiedDiff.Section>>) {
    && (forall c, i | 0 <= c < |chunks| && 0 <= i < |chunks[c]| :: UnifiedDiff.WellFormed(chunks[c][i]))
    && UnifiedDiff.DistinctPaths(UnifiedDiff.Flatten(chunks))
  }

  /** The number of reverted lines of a path, read from the two printed diffs. */
  function ReadCount(toMain: seq<seq<UnifiedDiff.Section>>, fromBranch: seq<seq<UnifiedDiff.Section>>,
                     path: string): nat {
    Count(UnifiedDiff.ScanChunks(UnifiedDiff.RenderChunks(toMain)),
          UnifiedDiff.ScanChunks(UnifiedDiff.RenderChunks(fromBranch)), path)
  }

  /**
   End to end: for a path whose two diffs are shown by the files `i` of the base-to-main output and
   `j` of the branch-to-main output, the count read from the printed lines is the overlap of the two
   edit scripts, and so at least the number of lines that main gained and the branch is missing.
   */
  lemma CountIsOverlap(toMain: seq<seq<UnifiedDiff.Section>>, fromBranch: seq<seq<UnifiedDiff.Section>>, i: nat, j: nat,
                       p: EditScripts.Script, q: EditScripts.Script,
                       base: seq<string>, branch: seq<string>, main: seq<string>)
    requires IsDiff(toMain) && IsDiff(fromBranch)
    requires i < |UnifiedDiff.Flatten(toMain)| && j < |UnifiedDiff.Flatten(fromBranch)|
    requires UnifiedDiff.Flatten(toMain)[i].path == UnifiedDiff.Flatten(fromBranch)[j].path
    requires Shows(UnifiedDiff.Flatten(toMain)[i], p) && Shows(UnifiedDiff.Flatten(fromBranch)[j], q)
    requires EditScripts.Scripts(p, q, base, branch, main)
    ensures ReadCount(toMain, fromBranch, UnifiedDiff.Flatten(toMain)[i].path) == |EditScripts.Overlap(p, q)|
    ensures |EditScripts.Overlap(p, q)| >= |EditScripts.Missing(base, branch, main)|
  {
    hide UnifiedDiff.AddSections, UnifiedDiff.ScanChunks, UnifiedDiff.RenderChunks, UnifiedDiff.Flatten, Shows,
         UnifiedDiff.WellFormed;
    UnifiedDiff.ChunksDoNotMatter(toMain);
    UnifiedDiff.ChunksDoNotMatter(fromBranch);
    AddedByScript(UnifiedDiff.Flatten(toMain), i, p);
    AddedByScript(UnifiedDiff.Flatten(fromBranch), j, q);
    EditScripts.NothingMissingIsOverlooked(p, q, base, branch, main);
  }

  /**
   A path that the branch has exactly as main does is not in the branch-to-main output, and one that
   main deleted adds no lines there; neither is ever reported.
   */
  lemma UnchangedOrDeletedIsNotReported(toMain: seq<seq<UnifiedDiff.Section>>,
                                        fromBranch: seq<seq<UnifiedDiff.Section>>, path: string)
    requires IsDiff(fromBranch)
    requires var files := UnifiedDiff.Flatten(fromBranch);
             forall j | 0 <= j < |files| && files[j].path == path :: files[j].deleted
    ensures ReadCount(toMain, fromBranch, path) == 0
  {
    FilesAreWellFormed(fromBranch);
    hide UnifiedDiff.AddSections, UnifiedDiff.ScanChunks, UnifiedDiff.RenderChunks, UnifiedDiff.Flatten;
    var files := UnifiedDiff.Flatten(fromBranch);
    UnifiedDiff.ChunksDoNotMatter(fromBranch);
    NothingAdded(files, path);
    assert forall added: Lines :: added * multiset{} == multiset{};
  }

  lemma {:induction false} FilesAreWellFormed(chunks: seq<seq<UnifiedDiff.Section>>)
    requires forall c, i | 0 <= c < |chunks| && 0 <= i < |chunks[c]| :: UnifiedDiff.WellFormed(chunks[c][i])
    ensures forall j | 0 <= j < |UnifiedDiff.Flatten(chunks)| :: UnifiedDiff.WellFormed(UnifiedDiff.Flatten(chunks)[j])
  {
    hide UnifiedDiff.WellFormed;
    if chunks != [] {
      FilesAreWellFormed(chunks[..|chunks| - 1]);
    }
  }

  lemma NothingAdded(files: seq<UnifiedDiff.Section>, path: string)
    requires UnifiedDiff.DistinctPaths(files)
    requires forall j | 0 <= j < |files| && files[j].path == path ::
               files[j].deleted && UnifiedDiff.WellFormed(files[j])
    ensures UnifiedDiff.CountersAt(UnifiedDiff.AddSections(map[], files), path) == multiset{}
  {
    hide UnifiedDiff.AddSections;
    if j :| 0 <= j < |files| && files[j].path == path {
      UnifiedDiff.AddedLinesRecovered(files, j);
      UnifiedDiff.NoPlusAtAll(files[j].hunks);
    } else {
      UnifiedDiff.NoOtherEntries(files, path);
    }
  }
}
