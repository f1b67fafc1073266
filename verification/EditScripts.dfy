/**
 Counting the lines a branch would revert, for any edit scripts that git may choose.

 `p` is a script from the merge base to main, `q` one from the branch to main. The count is the
 size of the overlap of the lines the two scripts add.
 */
module EditScripts {

  datatype Edit = Keep(line: string) | Add(line: string) | Remove(line: string)

  type Script = seq<Edit>
  type Lines = multiset<string>

  function Old(s: Script): seq<string> {
    if s == [] then []
    else Old(s[..|s| - 1]) + (if s[|s| - 1].Add? then [] else [s[|s| - 1].line])
  }

  function New(s: Script): seq<string> {
    if s == [] then []
    else New(s[..|s| - 1]) + (if s[|s| - 1].Remove? then [] else [s[|s| - 1].line])
  }

  function Added(s: Script): Lines {
    if s == [] then multiset{}
    else Added(s[..|s| - 1]) + (if s[|s| - 1].Add? then multiset{s[|s| - 1].line} else multiset{})
  }

  function Removed(s: Script): Lines {
    if s == [] then multiset{}
    else Removed(s[..|s| - 1]) + (if s[|s| - 1].Remove? then multiset{s[|s| - 1].line} else multiset{})
  }

  /** Lines that the script both removes and adds: it moved them. */
  function Moved(s: Script): Lines {
    Added(s) * Removed(s)
  }

  /** The lines that `after` has more often than `before`. */
  function Gained(before: seq<string>, after: seq<string>): Lines {
    multiset(after) - multiset(before)
  }

  lemma Snoc(s: Script, e: Edit)
    ensures Old(s + [e]) == Old(s) + (if e.Add? then [] else [e.line])
    ensures New(s + [e]) == New(s) + (if e.Remove? then [] else [e.line])
    ensures Added(s + [e]) == Added(s) + (if e.Add? then multiset{e.line} else multiset{})
    ensures Removed(s + [e]) == Removed(s) + (if e.Remove? then multiset{e.line} else multiset{})
  {
    assert (s + [e])[..|s|] == s;
  }

  lemma {:induction false} ScriptBalances(s: Script)
    ensures multiset(New(s)) + Removed(s) == multiset(Old(s)) + Added(s)
  {
    if s != [] {
      var init, e := s[..|s| - 1], s[|s| - 1];
      ScriptBalances(init);
      assert s == init + [e];
      Snoc(init, e);
      hide Old, New, Added, Removed;
      SnocBag(New(init), e.line);
      SnocBag(Old(init), e.line);
      Rebalance(multiset(New(init)), Removed(init), multiset(Old(init)), Added(init), multiset{e.line});
    }
  }

  lemma SnocBag(s: seq<string>, x: string)
    ensures multiset(s + [x]) == multiset(s) + multiset{x} && multiset(s + []) == multiset(s)
  {
    assert s + [] == s;
  }

  lemma Rebalance(n: Lines, r: Lines, o: Lines, a: Lines, x: Lines)
    requires n + r == o + a
    ensures (n + x) + r == (o + x) + a && n + (r + x) == (o + x) + a && (n + x) + r == o + (a + x)
    ensures n + multiset{} == n && r + multiset{} == r && o + multiset{} == o && a + multiset{} == a
  {
    assert (n + x) + r == (n + r) + x == n + (r + x);
    assert (o + x) + a == (o + a) + x == o + (a + x);
  }

  /** What a script adds is what was gained, plus what it moved. */
  lemma AddedIsGainedPlusMoved(s: Script)
    ensures Added(s) == Gained(Old(s), New(s)) + Moved(s)
  {
    ScriptBalances(s);
    forall x
      ensures Added(s)[x] == (Gained(Old(s), New(s)) + Moved(s))[x]
    {
      assert (multiset(New(s)) + Removed(s))[x] == (multiset(Old(s)) + Added(s))[x];
    }
  }

  /** The lines counted as reverted. */
  function Overlap(p: Script, q: Script): Lines {
    Added(p) * Added(q)
  }

  /** The lines main gained since the base that the branch has fewer of than main. */
  function Missing(base: seq<string>, branch: seq<string>, main: seq<string>): Lines {
    Gained(base, main) * Gained(branch, main)
  }

  ghost predicate Scripts(p: Script, q: Script, base: seq<string>, branch: seq<string>, main: seq<string>) {
    Old(p) == base && New(p) == main && Old(q) == branch && New(q) == main
  }

  /** Whatever scripts git chooses, every missing line is counted. */
  lemma NothingMissingIsOverlooked(p: Script, q: Script, base: seq<string>, branch: seq<string>, main: seq<string>)
    requires Scripts(p, q, base, branch, main)
    ensures Missing(base, branch, main) <= Overlap(p, q)
    ensures |Overlap(p, q)| >= |Missing(base, branch, main)|
  {
    var a, b := Missing(base, branch, main), Overlap(p, q);
    forall x
      ensures a[x] <= b[x]
    {
      MissingLineIsCounted(p, q, base, branch, main, x);
    }
    hide Missing, Overlap;
    assert b == a + (b - a);
  }

  lemma MissingLineIsCounted(p: Script, q: Script, base: seq<string>, branch: seq<string>, main: seq<string>, x: string)
    requires Scripts(p, q, base, branch, main)
    ensures Missing(base, branch, main)[x] <= Overlap(p, q)[x]
  {
    AddedIsGainedPlusMoved(p);
    AddedIsGainedPlusMoved(q);
    hide Added, Gained, Moved, Old, New;
  }

  /** On the side with the smaller gain of the line, the script does not move it. */
  predicate CountedExactly(p: Script, q: Script, base: seq<string>, branch: seq<string>, main: seq<string>, x: string) {
    var g1, g2 := Gained(base, main)[x], Gained(branch, main)[x];
    (g1 <= g2 && Moved(p)[x] == 0) || (g2 <= g1 && Moved(q)[x] == 0)
  }

  lemma LineCountIff(p: Script, q: Script, base: seq<string>, branch: seq<string>, main: seq<string>, x: string)
    requires Scripts(p, q, base, branch, main)
    ensures Overlap(p, q)[x] == Missing(base, branch, main)[x] <==> CountedExactly(p, q, base, branch, main, x)
  {
    AddedIsGainedPlusMoved(p);
    AddedIsGainedPlusMoved(q);
    var m1, m2 := Moved(p)[x], Moved(q)[x];
    var g1, g2 := Gained(base, main)[x], Gained(branch, main)[x];
    assert Added(p)[x] == g1 + m1 && Added(q)[x] == g2 + m2;
  }

  lemma SameSizeIsSame(a: Lines, b: Lines)
    requires a <= b && |a| == |b|
    ensures a == b
  {
    assert b == a + (b - a);
    assert |b - a| == 0;
  }

  /**
   The count is the number of missing lines exactly when no moved line inflates it; in particular
   when neither script moves a line.
   */
  lemma CountIsExactIff(p: Script, q: Script, base: seq<string>, branch: seq<string>, main: seq<string>)
    requires Scripts(p, q, base, branch, main)
    ensures |Overlap(p, q)| == |Missing(base, branch, main)| <==>
            forall x :: CountedExactly(p, q, base, branch, main, x)
    ensures Moved(p) == multiset{} && Moved(q) == multiset{} ==> |Overlap(p, q)| == |Missing(base, branch, main)|
  {
    hide Overlap, Missing, Scripts, CountedExactly, Moved;
    NothingMissingIsOverlooked(p, q, base, branch, main);
    var a, b := Missing(base, branch, main), Overlap(p, q);
    forall x
      ensures b[x] == a[x] <==> CountedExactly(p, q, base, branch, main, x)
    {
      LineCountIff(p, q, base, branch, main, x);
    }
    if |a| == |b| {
      SameSizeIsSame(a, b);
    }
    if forall x :: CountedExactly(p, q, base, branch, main, x) {
      assert a == b;
    }
    NoMovesIsExact(p, q, base, branch, main);
  }

  lemma NoMovesIsExact(p: Script, q: Script, base: seq<string>, branch: seq<string>, main: seq<string>)
    ensures Moved(p) == multiset{} && Moved(q) == multiset{} ==> forall x :: CountedExactly(p, q, base, branch, main, x)
  {
  }

  /**
   A line the branch removed on purpose was in the base, and the design says that such a line is
   never counted. A line that main did not gain is counted exactly when main's script moved it and
   the other script adds it.
   */
  lemma UngainedLineCountedIff(p: Script, q: Script, base: seq<string>, branch: seq<string>, main: seq<string>,
                               x: string)
    requires Scripts(p, q, base, branch, main) && Gained(base, main)[x] == 0
    ensures Overlap(p, q)[x] > 0 <==> Moved(p)[x] > 0 && Added(q)[x] > 0
  {
    AddedIsGainedPlusMoved(p);
  }

  /** Main moved `x` below `y`; the branch deleted `x`; the deletion is counted as a reverted line. */
  lemma DeliberateRemovalIsCounted(x: string, y: string)
    requires x != y
    ensures var base, main, branch := [x, y], [y, x], [y];
            var p, q := [Remove(x), Keep(y), Add(x)], [Keep(y), Add(x)];
            && Scripts(p, q, base, branch, main)
            && Gained(base, main) == multiset{} && Overlap(p, q) == multiset{x}
  {
    MoveBelow(x, y);
    AppendAgain(x, y);
    assert multiset([x, y]) == multiset([y, x]);
  }

  lemma MoveBelow(x: string, y: string)
    ensures var p := [Remove(x), Keep(y), Add(x)]; Old(p) == [x, y] && New(p) == [y, x] && Added(p) == multiset{x}
  {
    var s0: Script := [];
    Snoc(s0, Remove(x));
    Snoc(s0 + [Remove(x)], Keep(y));
    Snoc(s0 + [Remove(x)] + [Keep(y)], Add(x));
    assert s0 + [Remove(x)] + [Keep(y)] + [Add(x)] == [Remove(x), Keep(y), Add(x)];
  }

  lemma AppendAgain(x: string, y: string)
    ensures var q := [Keep(y), Add(x)]; Old(q) == [y] && New(q) == [y, x] && Added(q) == multiset{x}
  {
    var s0: Script := [];
    Snoc(s0, Keep(y));
    Snoc(s0 + [Keep(y)], Add(x));
    assert s0 + [Keep(y)] + [Add(x)] == [Keep(y), Add(x)];
  }
}
