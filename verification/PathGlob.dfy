/**
 Path globs of the consumption-coverage gate: patterns with `**`, which stands for zero or more
 whole segments, and patterns without.

 Matching one segment against one pattern segment is Python's `fnmatch.fnmatchcase`; it is a
 parameter here, `fn`, of which only its behaviour on literals is used (`LiteralLaw`).
 */
module PathGlob {

  type Fnmatch = (string, string) -> bool

  const STARS := "**"

  // ----- Segments -----

  function Split(s: string): seq<string> {
    if s == "" then [""]
    else if s[0] == '/' then [""] + Split(s[1..])
    else Push(s[0], Split(s[1..]))
  }

  /** Puts a character in front of the first segment. */
  function Push(c: char, segs: seq<string>): seq<string> {
    if segs == [] then [[c]] else [[c] + segs[0]] + segs[1..]
  }

  lemma PushConcat(c: char, a: seq<string>, b: seq<string>)
    requires a != []
    ensures Push(c, a + b) == Push(c, a) + b
  {
    assert (a + b)[1..] == a[1..] + b;
  }

  function Join(segs: seq<string>): string {
    if segs == [] then "" else if |segs| == 1 then segs[0] else segs[0] + "/" + Join(segs[1..])
  }

  lemma {:induction false} SplitIsNotEmpty(s: string)
    ensures Split(s) != []
  {
    if s != "" {
      SplitIsNotEmpty(s[1..]);
    }
  }

  lemma {:induction false} SplitConcat(a: string, b: string)
    ensures Split(a + "/" + b) == Split(a) + Split(b)
  {
    var s := a + "/" + b;
    if a == "" {
      assert s[1..] == b;
    } else {
      assert s[1..] == a[1..] + "/" + b;
      SplitConcat(a[1..], b);
      SplitIsNotEmpty(a[1..]);
      hide Push;
      PushConcat(a[0], Split(a[1..]), Split(b));
    }
  }

  lemma {:induction false} JoinSplit(s: string)
    ensures Join(Split(s)) == s
  {
    if s != "" {
      JoinSplit(s[1..]);
      SplitIsNotEmpty(s[1..]);
      var rest := Split(s[1..]);
      if s[0] == '/' {
        assert Split(s)[1..] == rest;
      } else {
        assert Split(s)[1..] == rest[1..];
      }
      assert s == [s[0]] + s[1..];
    }
  }

  lemma {:induction false} JoinConcat(a: seq<string>, b: seq<string>)
    requires a != [] && b != []
    ensures Join(a + b) == Join(a) + "/" + Join(b)
  {
    if |a| == 1 {
      assert (a + b)[1..] == b;
    } else {
      assert (a + b)[1..] == a[1..] + b;
      JoinConcat(a[1..], b);
    }
  }

  lemma {:induction false} SplitOfSegment(s: string)
    requires '/' !in s
    ensures Split(s) == [s]
  {
    if s != "" {
      SplitOfSegment(s[1..]);
      assert s == [s[0]] + s[1..];
    }
  }

  /** The segments of `d` begin the segments of a path exactly when the path is `d` or lies beneath it. */
  lemma SegmentPrefixIff(d: string, path: string)
    ensures Split(d) <= Split(path) <==> path == d || d + "/" <= path
  {
    SplitIsNotEmpty(d);
    if Split(d) <= Split(path) {
      var rest := Split(path)[|Split(d)|..];
      assert Split(path) == Split(d) + rest;
      JoinSplit(d);
      JoinSplit(path);
      if rest == [] {
        assert Split(d) + rest == Split(d);
      } else {
        JoinConcat(Split(d), rest);
      }
    }
    if d + "/" <= path {
      var b := path[|d| + 1..];
      assert path == d + "/" + b;
      SplitConcat(d, b);
    }
  }

  // ----- The double-star matcher -----

  /** A part of the path that one pattern segment can account for. */
  predicate Absorbs(fn: Fnmatch, seg: string, part: seq<string>) {
    seg == STARS || (|part| == 1 && fn(part[0], seg))
  }

  function Concat(parts: seq<seq<string>>): seq<string> {
    if parts == [] then [] else parts[0] + Concat(parts[1..])
  }

  /** `parts` divides the path among the pattern segments. */
  ghost predicate Divides(fn: Fnmatch, pat: seq<string>, tgt: seq<string>, parts: seq<seq<string>>) {
    && |parts| == |pat| && Concat(parts) == tgt
    && forall i | 0 <= i < |pat| :: Absorbs(fn, pat[i], parts[i])
  }

  /** The meaning of a pattern: each `**` absorbs any segments, every other segment matches one. */
  ghost predicate Matches(fn: Fnmatch, pat: seq<string>, tgt: seq<string>) {
    exists parts :: Divides(fn, pat, tgt, parts)
  }

  lemma MatchesNothing(fn: Fnmatch, tgt: seq<string>)
    ensures Matches(fn, [], tgt) <==> tgt == []
  {
    if tgt == [] {
      assert Divides(fn, [], tgt, []);
    }
  }

  lemma DividesCons(fn: Fnmatch, pat: seq<string>, part: seq<string>, rest: seq<string>, parts: seq<seq<string>>)
    requires pat != [] && Absorbs(fn, pat[0], part) && Divides(fn, pat[1..], rest, parts)
    ensures Matches(fn, pat, part + rest)
  {
    var all := [part] + parts;
    assert all[1..] == parts;
    forall i | 0 <= i < |pat|
      ensures Absorbs(fn, pat[i], all[i])
    {
      if i > 0 {
        assert Absorbs(fn, pat[1..][i - 1], parts[i - 1]);
      }
    }
    assert Divides(fn, pat, part + rest, all);
  }

  lemma DividesTail(fn: Fnmatch, pat: seq<string>, tgt: seq<string>, parts: seq<seq<string>>)
    requires pat != [] && Divides(fn, pat, tgt, parts)
    ensures Absorbs(fn, pat[0], parts[0]) && tgt == parts[0] + Concat(parts[1..])
    ensures Divides(fn, pat[1..], tgt[|parts[0]|..], parts[1..])
  {
    forall i | 0 <= i < |pat| - 1
      ensures Absorbs(fn, pat[1..][i], parts[1..][i])
    {
      assert Absorbs(fn, pat[i + 1], parts[i + 1]);
    }
  }

  lemma MatchesSegment(fn: Fnmatch, pat: seq<string>, tgt: seq<string>)
    requires pat != [] && pat[0] != STARS
    ensures Matches(fn, pat, tgt) <==> tgt != [] && fn(tgt[0], pat[0]) && Matches(fn, pat[1..], tgt[1..])
  {
    if Matches(fn, pat, tgt) {
      var parts :| Divides(fn, pat, tgt, parts);
      DividesTail(fn, pat, tgt, parts);
    }
    if tgt != [] && fn(tgt[0], pat[0]) && Matches(fn, pat[1..], tgt[1..]) {
      var parts :| Divides(fn, pat[1..], tgt[1..], parts);
      DividesCons(fn, pat, [tgt[0]], tgt[1..], parts);
      assert [tgt[0]] + tgt[1..] == tgt;
    }
  }

  lemma MatchesStars(fn: Fnmatch, pat: seq<string>, tgt: seq<string>)
    requires pat != [] && pat[0] == STARS
    ensures Matches(fn, pat, tgt) <==> exists k :: 0 <= k <= |tgt| && Matches(fn, pat[1..], tgt[k..])
  {
    if Matches(fn, pat, tgt) {
      var parts :| Divides(fn, pat, tgt, parts);
      DividesTail(fn, pat, tgt, parts);
      assert Matches(fn, pat[1..], tgt[|parts[0]|..]);
    }
    if k :| 0 <= k <= |tgt| && Matches(fn, pat[1..], tgt[k..]) {
      var parts :| Divides(fn, pat[1..], tgt[k..], parts);
      DividesCons(fn, pat, tgt[..k], tgt[k..], parts);
      assert tgt[..k] + tgt[k..] == tgt;
    }
  }

  /** The rest of the pattern from `pi` on matches the rest of the path from `ti` on. */
  ghost predicate MatchesFrom(fn: Fnmatch, pat: seq<string>, pi: nat, tgt: seq<string>, ti: nat)
    requires pi <= |pat| && ti <= |tgt|
  {
    Matches(fn, pat[pi..], tgt[ti..])
  }

  lemma FromEnd(fn: Fnmatch, pat: seq<string>, tgt: seq<string>, ti: nat)
    requires ti <= |tgt|
    ensures MatchesFrom(fn, pat, |pat|, tgt, ti) <==> ti == |tgt|
  {
    assert pat[|pat|..] == [];
    MatchesNothing(fn, tgt[ti..]);
  }

  lemma FromSegment(fn: Fnmatch, pat: seq<string>, pi: nat, tgt: seq<string>, ti: nat)
    requires pi < |pat| && ti <= |tgt| && pat[pi] != STARS
    ensures MatchesFrom(fn, pat, pi, tgt, ti) <==>
            ti < |tgt| && fn(tgt[ti], pat[pi]) && MatchesFrom(fn, pat, pi + 1, tgt, ti + 1)
  {
    assert pat[pi..][1..] == pat[pi + 1..];
    assert ti < |tgt| ==> tgt[ti..][1..] == tgt[ti + 1..];
    MatchesSegment(fn, pat[pi..], tgt[ti..]);
  }

  lemma FromStars(fn: Fnmatch, pat: seq<string>, pi: nat, next: nat, tgt: seq<string>, ti: nat)
    requires pi < |pat| && next == pi + 1 && ti <= |tgt| && pat[pi] == STARS
    ensures MatchesFrom(fn, pat, pi, tgt, ti) <==>
            exists k | ti <= k <= |tgt| :: MatchesFrom(fn, pat, next, tgt, k)
  {
    hide Matches;
    MatchesStars(fn, pat[pi..], tgt[ti..]);
    assert pat[pi..][1..] == pat[pi + 1..];
    forall k | 0 <= k <= |tgt| - ti
      ensures Matches(fn, pat[pi..][1..], tgt[ti..][k..]) <==> MatchesFrom(fn, pat, next, tgt, ti + k)
    {
      assert tgt[ti..][k..] == tgt[ti + k..];
    }
    if k :| ti <= k <= |tgt| && MatchesFrom(fn, pat, next, tgt, k) {
      assert Matches(fn, pat[pi..][1..], tgt[ti..][k - ti..]);
    }
  }

  /** The matcher of the source: a loop over plain segments that recurses at each `**`. */
  method DoubleStarMatch(fn: Fnmatch, pat: seq<string>, pi0: nat, tgt: seq<string>, ti0: nat) returns (r: bool)
    requires pi0 <= |pat| && ti0 <= |tgt|
    ensures r <==> MatchesFrom(fn, pat, pi0, tgt, ti0)
    decreases |pat| - pi0
  {
    hide MatchesFrom;
    var pi, ti := pi0, ti0;
    while pi < |pat|
      invariant pi0 <= pi <= |pat| && ti0 <= ti <= |tgt|
      invariant MatchesFrom(fn, pat, pi, tgt, ti) <==> MatchesFrom(fn, pat, pi0, tgt, ti0)
    {
      var seg := pat[pi];
      if seg == STARS {
        var next := pi + 1;
        FromStars(fn, pat, pi, next, tgt, ti);
        if pi == |pat| - 1 {
          FromEnd(fn, pat, tgt, |tgt|);
          return true;
        }
        for skip := ti to |tgt| + 1
          invariant forall k | ti <= k < skip :: !MatchesFrom(fn, pat, next, tgt, k)
        {
          var found := DoubleStarMatch(fn, pat, next, tgt, skip);
          if found {
            return true;
          }
        }
        return false;
      }
      FromSegment(fn, pat, pi, tgt, ti);
      if ti >= |tgt| || !fn(tgt[ti], seg) {
        return false;
      }
      pi, ti := pi + 1, ti + 1;
    }
    FromEnd(fn, pat, tgt, ti);
    return ti == |tgt|;
  }

  // ----- Whole patterns -----

  ghost predicate Contains(s: string, t: string) {
    exists i :: 0 <= i <= |s| && t <= s[i..]
  }

  predicate IsWild(c: char) {
    c == '*' || c == '?' || c == '['
  }

  predicate IsLiteral(s: string) {
    forall i | 0 <= i < |s| :: !IsWild(s[i])
  }

  /** A pattern without wildcards matches itself and nothing else. */
  ghost predicate LiteralLaw(fn: Fnmatch) {
    forall text, pattern | IsLiteral(pattern) :: fn(text, pattern) <==> text == pattern
  }

  /** Up to the first segment with a wildcard, path and pattern agree segment by segment. */
  predicate SameAnchors(path: seq<string>, pat: seq<string>) {
    path == [] || pat == [] || '*' in pat[0] || '?' in pat[0] || (path[0] == pat[0] && SameAnchors(path[1..], pat[1..]))
  }

  function LastOf(segs: seq<string>): string {
    if segs == [] then "" else segs[|segs| - 1]
  }

  ghost predicate SimpleGlobMatch(fn: Fnmatch, path: string, pattern: string) {
    if |pattern| >= 2 && pattern[|pattern| - 2..] == "/*" then
      var head := pattern[..|pattern| - 2];
      path == head || head + "/" <= path
    else fn(path, pattern) && SameAnchors(Split(path), Split(pattern))
  }

  ghost predicate PathMatches(fn: Fnmatch, path: string, pattern: string) {
    if '/' !in pattern && '*' !in pattern then LastOf(Split(path)) == pattern || path == pattern
    else if !Contains(pattern, STARS) then SimpleGlobMatch(fn, path, pattern)
    else Matches(fn, Split(pattern), Split(path))
  }

  ghost predicate IsCovered(fn: Fnmatch, path: string, patterns: seq<string>) {
    exists i :: 0 <= i < |patterns| && PathMatches(fn, path, patterns[i])
  }

  /** Literal segments followed by `**` match exactly the paths they begin. */
  lemma {:induction false} LiteralThenStars(fn: Fnmatch, lits: seq<string>, tgt: seq<string>)
    requires LiteralLaw(fn) && forall i | 0 <= i < |lits| :: IsLiteral(lits[i])
    ensures Matches(fn, lits + [STARS], tgt) <==> lits <= tgt
  {
    var pat := lits + [STARS];
    if lits == [] {
      assert pat[1..] == [] && tgt[|tgt|..] == [];
      MatchesNothing(fn, tgt[|tgt|..]);
      MatchesStars(fn, pat, tgt);
    } else {
      assert pat[0] == lits[0] && pat[1..] == lits[1..] + [STARS];
      assert IsLiteral(lits[0]) && IsWild(STARS[0]);
      MatchesSegment(fn, pat, tgt);
      if tgt != [] {
        LiteralThenStars(fn, lits[1..], tgt[1..]);
        assert lits <= tgt <==> lits[0] == tgt[0] && lits[1..] <= tgt[1..];
      }
    }
  }

  lemma {:induction false} SegmentsAreLiteral(d: string, i: nat)
    requires IsLiteral(d) && i < |Split(d)|
    ensures IsLiteral(Split(d)[i])
  {
    if d != "" {
      SplitIsNotEmpty(d[1..]);
      if d[0] == '/' {
        if i > 0 {
          SegmentsAreLiteral(d[1..], i - 1);
        }
      } else {
        SegmentsAreLiteral(d[1..], i);
      }
    }
  }

  // A literal directory followed by `/**` covers the directory and everything beneath it.
  lemma DirectoryStarsIff(fn: Fnmatch, path: string, d: string)
    requires LiteralLaw(fn) && IsLiteral(d)
    ensures PathMatches(fn, path, d + "/**") <==> path == d || d + "/" <= path
  {
    var pattern := d + "/**";
    assert pattern[|d| + 1..] == STARS && pattern[|d|] == '/';
    assert Contains(pattern, STARS);
    assert pattern == d + "/" + STARS;
    SplitConcat(d, STARS);
    SplitOfSegment(STARS);
    forall i | 0 <= i < |Split(d)|
      ensures IsLiteral(Split(d)[i])
    {
      SegmentsAreLiteral(d, i);
    }
    LiteralThenStars(fn, Split(d), Split(path));
    SegmentPrefixIff(d, path);
  }

  // The documentation confines `*` to one segment, but a literal directory followed by `/*` covers
  // exactly what the same directory followed by `/**` does: itself, and everything at any depth.
  lemma DirectoryStarIff(fn: Fnmatch, path: string, d: string)
    requires LiteralLaw(fn) && IsLiteral(d)
    ensures PathMatches(fn, path, d + "/*") <==> path == d || d + "/" <= path
    ensures PathMatches(fn, path, d + "/*") <==> PathMatches(fn, path, d + "/**")
  {
    DirectoryStarsIff(fn, path, d);
    var pattern := d + "/*";
    assert pattern[|pattern| - 2..] == "/*" && pattern[..|pattern| - 2] == d && pattern[|d|] == '/';
    forall i | 0 <= i <= |pattern|
      ensures !(STARS <= pattern[i..])
    {
      if i + 2 <= |pattern| {
        assert pattern[i..][0] == pattern[i] && (i < |d| ==> !IsWild(d[i]));
      }
    }
    assert !Contains(pattern, STARS);
  }

  // The patterns of a list of literal directories, each followed by `/**`, cover a path exactly when it is
  // one of the directories or lies beneath one.
  lemma CoveredIff(fn: Fnmatch, path: string, dirs: seq<string>)
    requires LiteralLaw(fn) && forall i | 0 <= i < |dirs| :: IsLiteral(dirs[i])
    ensures IsCovered(fn, path, seq(|dirs|, i requires 0 <= i < |dirs| => dirs[i] + "/**")) <==>
            exists i :: 0 <= i < |dirs| && (path == dirs[i] || dirs[i] + "/" <= path)
  {
    hide PathMatches, IsLiteral;
    var patterns := seq(|dirs|, i requires 0 <= i < |dirs| => dirs[i] + "/**");
    forall i | 0 <= i < |dirs|
      ensures PathMatches(fn, path, patterns[i]) <==> path == dirs[i] || dirs[i] + "/" <= path
    {
      DirectoryStarsIff(fn, path, dirs[i]);
    }
    if i :| 0 <= i < |dirs| && (path == dirs[i] || dirs[i] + "/" <= path) {
      assert PathMatches(fn, path, patterns[i]);
    }
  }

  lemma {:induction false} SplitWithSlash(s: string)
    requires '/' in s
    ensures |Split(s)| > 1
  {
    SplitIsNotEmpty(s[1..]);
    if s[0] != '/' {
      SplitWithSlash(s[1..]);
    }
  }

  /** The last segment is what follows the last slash. */
  lemma {:induction false} LastSegment(s: string)
    ensures var last := LastOf(Split(s));
            '/' !in last && (s == last || (|last| < |s| && s[|s| - |last| - 1..] == "/" + last))
  {
    if s != "" {
      var rest := s[1..];
      LastSegment(rest);
      SplitIsNotEmpty(rest);
      var last := LastOf(Split(rest));
      if s[0] != '/' && '/' !in rest {
        SplitOfSegment(s);
      } else if s[0] != '/' {
        SplitWithSlash(rest);
        assert LastOf(Split(s)) == last;
      }
    }
  }

  // A name without slash or star covers exactly the paths that are it or end in a slash and it.
  lemma BareNameIff(fn: Fnmatch, path: string, name: string)
    requires '/' !in name && '*' !in name
    ensures PathMatches(fn, path, name) <==>
            path == name || (|name| < |path| && path[|path| - |name| - 1..] == "/" + name)
  {
    LastSegment(path);
    SplitOfSegment(name);
    if |name| < |path| && path[|path| - |name| - 1..] == "/" + name {
      var d := path[..|path| - |name| - 1];
      assert path == d + "/" + name;
      SplitConcat(d, name);
    }
  }

  /** The segments agree up to the first one that has a star or a question mark, and that is all. */
  lemma {:induction false} SameAnchorsIff(path: seq<string>, pat: seq<string>)
    ensures SameAnchors(path, pat) <==> Anchored(path, pat)
  {
    if path != [] && pat != [] && '*' !in pat[0] && '?' !in pat[0] {
      SameAnchorsIff(path[1..], pat[1..]);
      if SameAnchors(path, pat) {
        forall k | 0 <= k < |path| && k < |pat| && PlainUpTo(pat, k)
          ensures path[k] == pat[k]
        {
          if k > 0 {
            assert forall j | 0 <= j <= k - 1 :: pat[1..][j] == pat[j + 1];
            assert PlainUpTo(pat[1..], k - 1) && path[1..][k - 1] == path[k] && pat[1..][k - 1] == pat[k];
          }
        }
      } else if path[0] == pat[0] {
        var k :| 0 <= k < |path| - 1 && k < |pat| - 1 && PlainUpTo(pat[1..], k) && path[1..][k] != pat[1..][k];
        var m := k + 1;
        assert forall j | 0 < j <= m :: pat[j] == pat[1..][j - 1];
        assert PlainUpTo(pat, m) && path[m] != pat[m];
      } else {
        assert PlainUpTo(pat, 0);
      }
    } else if path != [] && pat != [] {
      forall k | 0 <= k < |path| && k < |pat|
        ensures !PlainUpTo(pat, k)
      {
      }
    }
  }

  ghost predicate PlainUpTo(pat: seq<string>, k: int)
    requires k < |pat|
  {
    forall j | 0 <= j <= k :: '*' !in pat[j] && '?' !in pat[j]
  }

  /** The segments in front of the first wildcard of the pattern are those of the path. */
  ghost predicate Anchored(path: seq<string>, pat: seq<string>) {
    forall k | 0 <= k < |path| && k < |pat| && PlainUpTo(pat, k) :: path[k] == pat[k]
  }

  // Any other pattern without `**` asks for `fnmatch` and for the segments in front of its first wildcard.
  lemma AnchoredIff(fn: Fnmatch, path: string, pattern: string)
    requires ('/' in pattern || '*' in pattern) && !Contains(pattern, "**")
    requires |pattern| >= 2 ==> pattern[|pattern| - 2..] != "/*"
    ensures PathMatches(fn, path, pattern) <==> fn(path, pattern) && Anchored(Split(path), Split(pattern))
  {
    hide Split, Contains, SameAnchors, Matches, Anchored;
    SameAnchorsIff(Split(path), Split(pattern));
  }

  lemma StarsHaveStar(d: string)
    requires Contains(d, STARS)
    ensures '*' in d
  {
    var i :| 0 <= i <= |d| && STARS <= d[i..];
    assert d[i..][0] == d[i];
  }

  // A path written out in full covers itself and nothing else.
  lemma LiteralPathIff(fn: Fnmatch, path: string, d: string)
    requires LiteralLaw(fn) && IsLiteral(d) && '/' in d
    ensures PathMatches(fn, path, d) <==> path == d
  {
    if Contains(d, STARS) {
      StarsHaveStar(d);
      assert false;
    }
    SameAnchorsIff(Split(d), Split(d));
    assert |d| >= 2 ==> d[|d| - 2..][1] == d[|d| - 1];
  }

  lemma StarCrossesSegments(fn: Fnmatch)
    requires LiteralLaw(fn)
    ensures PathMatches(fn, "a/b/c", "a/*") && PathMatches(fn, "a", "a/*")
  {
    assert "a" + "/*" == "a/*";
    assert "a" + "/" <= "a/b/c";
    DirectoryStarIff(fn, "a/b/c", "a");
    DirectoryStarIff(fn, "a", "a");
  }
}
