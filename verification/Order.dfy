/** Code-point order on strings, and the sorted list of the distinct elements of a list. */
module Order {

  predicate Less(a: string, b: string) {
    if b == "" then false
    else if a == "" then true
    else if a[0] != b[0] then a[0] < b[0]
    else Less(a[1..], b[1..])
  }

  lemma {:induction false} LessTransitive(a: string, b: string, c: string)
    requires Less(a, b) && Less(b, c)
    ensures Less(a, c)
  {
    if a != "" && a[0] == b[0] == c[0] {
      LessTransitive(a[1..], b[1..], c[1..]);
    }
  }

  lemma {:induction false} LessTotal(a: string, b: string)
    ensures a == b || Less(a, b) || Less(b, a)
    ensures !(Less(a, b) && Less(b, a)) && !Less(a, a)
  {
    if a != "" {
      LessTotal(a[1..], if b == "" then "" else b[1..]);
      assert a == [a[0]] + a[1..];
      if b != "" {
        assert b == [b[0]] + b[1..];
        LessIrreflexive(a);
      } else {
        LessIrreflexive(a);
      }
    }
  }

  lemma {:induction false} LessIrreflexive(a: string)
    ensures !Less(a, a)
  {
    if a != "" {
      LessIrreflexive(a[1..]);
    }
  }

  /** The first `k` characters agree, and then `a` ends or has the smaller one. */
  predicate SmallerAt(a: string, b: string, k: nat) {
    k <= |a| && k < |b| && a[..k] == b[..k] && (k < |a| ==> a[k] < b[k])
  }

  lemma HeadsAgree(a: string, b: string, k: nat)
    requires SmallerAt(a, b, k) && k > 0
    ensures a[0] == b[0]
  {
    assert a[..k][0] == b[..k][0];
  }

  lemma {:induction false} LessIff(a: string, b: string)
    ensures Less(a, b) <==> exists k: nat :: SmallerAt(a, b, k)
  {
    if b != "" && (a == "" || a[0] != b[0]) {
      assert SmallerAt(a, b, 0) || forall k: nat :: !SmallerAt(a, b, k) by {
        forall k: nat | SmallerAt(a, b, k)
          ensures k == 0
        {
          if k > 0 {
            HeadsAgree(a, b, k);
          }
        }
      }
    } else if b != "" {
      LessIff(a[1..], b[1..]);
      if k: nat :| SmallerAt(a[1..], b[1..], k) {
        var m := k + 1;
        assert a[..m] == [a[0]] + a[1..][..k] && b[..m] == [b[0]] + b[1..][..k];
        assert SmallerAt(a, b, m);
      }
      if m: nat :| SmallerAt(a, b, m) {
        assert m > 0;
        assert a[1..][..m - 1] == a[..m][1..] && b[1..][..m - 1] == b[..m][1..];
        assert SmallerAt(a[1..], b[1..], m - 1);
      }
    }
  }

  ghost predicate Ascending(s: seq<string>) {
    forall i, j | 0 <= i < j < |s| :: Less(s[i], s[j])
  }

  /** Puts `x` in its place in an ascending list, unless it is there already. */
  function Insert(x: string, s: seq<string>): seq<string> {
    if s == [] then [x]
    else if x == s[0] then s
    else if Less(x, s[0]) then [x] + s
    else [s[0]] + Insert(x, s[1..])
  }

  function SortedDistinct(xs: seq<string>): seq<string> {
    if xs == [] then [] else Insert(xs[0], SortedDistinct(xs[1..]))
  }

  lemma {:induction false} InsertAscends(x: string, s: seq<string>)
    requires Ascending(s)
    ensures Ascending(Insert(x, s))
    ensures forall y :: y in Insert(x, s) <==> y == x || y in s
  {
    if s != [] && x != s[0] {
      LessTotal(x, s[0]);
      if Less(x, s[0]) {
        forall j | 0 <= j < |s|
          ensures Less(x, s[j])
        {
          if j > 0 {
            LessTransitive(x, s[0], s[j]);
          }
        }
      } else {
        InsertAscends(x, s[1..]);
        var t := Insert(x, s[1..]);
        forall j | 0 <= j < |t|
          ensures Less(s[0], t[j])
        {
          assert t[j] in t;
        }
        assert forall y :: y in s <==> y == s[0] || y in s[1..];
      }
    }
  }

  /** `sorted(set(xs))`: ascending, and with exactly the elements of `xs`. */
  lemma {:induction false} SortedDistinctSorts(xs: seq<string>)
    ensures Ascending(SortedDistinct(xs))
    ensures forall y :: y in SortedDistinct(xs) <==> y in xs
  {
    if xs != [] {
      SortedDistinctSorts(xs[1..]);
      InsertAscends(xs[0], SortedDistinct(xs[1..]));
      assert forall y :: y in xs <==> y == xs[0] || y in xs[1..];
    }
  }
}
