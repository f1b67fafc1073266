/**
 What the limit of the issue listing does to the rounds. The listing holds the newest open issues,
 up to `FETCH_LIMIT` of them; an older issue is invisible to the round that fetched it.
 */
module IssueFetch {
  import opened Basics
  import opened Order
  import opened CheckRuns
  import opened ChronicReds
  import opened IssueTracker

  const FETCH_LIMIT: nat := 100

  predicate IsOpen(t: Tracker, n: nat) {
    n in t.issues && t.issues[n].open
  }

  /** The number of open issues numbered from `lo` up to, but not including, `hi`. */
  function OpenBetween(t: Tracker, lo: nat, hi: nat): nat {
    if hi <= lo then 0 else OpenBetween(t, lo, hi - 1) + (if IsOpen(t, hi - 1) then 1 else 0)
  }

  function OpenCount(t: Tracker): nat {
    OpenBetween(t, 0, t.next)
  }

  /** The number of open issues newer than issue `n`. */
  function NewerOpen(t: Tracker, n: nat): nat {
    OpenBetween(t, n + 1, t.next)
  }

  /** The list is what the fetch returns: exactly the issues with fewer than `FETCH_LIMIT` newer open ones. */
  ghost predicate Listing(list: seq<OrphanIssue>, t: Tracker) {
    && IsFetch(list, t)
    && forall n: nat | Fetched(t, n).Some? :: Fetched(t, n).value in list <==> NewerOpen(t, n) < FETCH_LIMIT
  }

  lemma {:induction false} OpenFromBelow(t: Tracker, lo: nat, hi: nat)
    requires lo < hi
    ensures OpenBetween(t, lo, hi) == OpenBetween(t, lo + 1, hi) + (if IsOpen(t, lo) then 1 else 0)
  {
    if lo + 1 < hi {
      OpenFromBelow(t, lo, hi - 1);
    }
  }

  lemma {:induction false} FewerFromAbove(t: Tracker, lo: nat, mid: nat, hi: nat)
    requires lo <= mid
    ensures OpenBetween(t, mid, hi) <= OpenBetween(t, lo, hi)
  {
    if mid < hi {
      FewerFromAbove(t, lo, mid, hi - 1);
    }
  }

  /** With at most `FETCH_LIMIT` open issues nothing is missing from the listing. */
  lemma SmallListingIsComplete(list: seq<OrphanIssue>, t: Tracker)
    requires t.Valid() && Listing(list, t) && OpenCount(t) <= FETCH_LIMIT
    ensures IsComplete(list, t)
  {
    forall n: nat | Fetched(t, n).Some?
      ensures Fetched(t, n).value in list
    {
      FewerFromAbove(t, 0, n, t.next);
      OpenFromBelow(t, n, t.next);
    }
  }

  // ----- A second issue for one context -----

  predicate Concerns(a: Action, n: nat) {
    !a.Create? && a.number == n
  }

  /** An issue that no action concerns is left alone. */
  lemma {:induction false} Untouched(t: Tracker, actions: seq<Action>, times: seq<int>, n: nat)
    requires t.Valid() && n in t.issues && |actions| == |times|
    requires forall i | 0 <= i < |actions| :: !Concerns(actions[i], n)
    ensures var t' := ApplyAll(t, actions, times);
            t'.Valid() && t.next <= t'.next && n in t'.issues && t'.issues[n] == t.issues[n]
  {
    if actions != [] {
      var k := |actions| - 1;
      Untouched(t, actions[..k], times[..k], n);
    }
  }

  /** Issues are never removed, and new ones get new numbers. */
  lemma {:induction false} Grows(t: Tracker, actions: seq<Action>, times: seq<int>)
    requires t.Valid() && |actions| == |times|
    ensures var t' := ApplyAll(t, actions, times);
            t'.Valid() && t.next <= t'.next && t.issues.Keys <= t'.issues.Keys
  {
    if actions != [] {
      Grows(t, actions[..|actions| - 1], times[..|actions| - 1]);
    }
  }

  /** An issue is open for a context afterwards only if it was before or the context's issue was created. */
  lemma {:induction false} OpenedByCreate(t: Tracker, actions: seq<Action>, times: seq<int>, n: nat, ctx: string)
    returns (i: nat)
    requires |actions| == |times|
    requires OpenFor(ApplyAll(t, actions, times), n, ctx) && !OpenFor(t, n, ctx)
    ensures i < |actions| && actions[i].Create? && actions[i].context == ctx
  {
    var k := |actions| - 1;
    var before := ApplyAll(t, actions[..k], times[..k]);
    if OpenFor(before, n, ctx) {
      i := OpenedByCreate(t, actions[..k], times[..k], n, ctx);
    } else {
      i := k;
      TitleNamesContext(TitleOf(actions[k].context), ctx);
      TitleNamesContext(TitleOf(actions[k].context), actions[k].context);
    }
  }

  /** A created issue stays open when the other actions concern older issues only. */
  lemma {:induction false} CreatedStaysOpen(t: Tracker, actions: seq<Action>, times: seq<int>, j: nat)
    returns (m: nat)
    requires t.Valid() && |actions| == |times| && j < |actions| && actions[j].Create?
    requires forall i | 0 <= i < |actions| :: !actions[i].Create? ==> actions[i].number < t.next
    ensures t.next <= m && OpenFor(ApplyAll(t, actions, times), m, actions[j].context)
    decreases |actions|
  {
    var k := |actions| - 1;
    Grows(t, actions[..k], times[..k]);
    if j == k {
      m := ApplyAll(t, actions[..k], times[..k]).next;
    } else {
      m := CreatedStaysOpen(t, actions[..k], times[..k], j);
    }
  }

  /** Every re-ping and close of a plan is of a listed issue of its context. */
  lemma PlanConcernsListed(t: Tracker, r: Round, sla: int, i: nat) returns (k: nat)
    requires IsFetch(r.list, t) && i < |r.Plan(sla)| && !r.Plan(sla)[i].Create?
    ensures var a := r.Plan(sla)[i]; k < |r.list| && Fetched(t, a.number) == Some(r.list[k])
  {
    var p := |r.Paging(sla)|;
    var a := r.Plan(sla)[i];
    if i < p {
      PagesMean(r.orphans, r.list, r.now, r.oncall, sla, i);
      PrimaryIsLeast(r.list, a.context);
      k :| 0 <= k < |r.list| && r.list[k] == Primary(r.list, a.context).value;
    } else {
      k := ClosesMean(r.obs, r.list, i - p);
    }
    assert Fetched(t, r.list[k].number) == Some(r.list[k]);
  }

  /** What a round decided on a fetched list, executed to the end. */
  ghost predicate FullRound(t: Tracker, r: Round, sla: int) {
    && Listing(r.list, t) && Enumerates(r.orphans, r.obs, r.declared, r.now, Orphan)
    && |r.times| == |r.Plan(sla)|
  }

  ghost predicate SecondOpen(t: Tracker, n: nat, ctx: string) {
    exists m: nat :: m != n && OpenFor(t, m, ctx)
  }

  /** With its issue listed, an orphan gets no second one. */
  lemma ListedIsNotRepeated(t: Tracker, r: Round, sla: int, ctx: string, n: nat)
    requires OneOpenEach(t) && OpenFor(t, n, ctx) && FullRound(t, r, sla)
    requires Primary(r.list, ctx).Some?
    ensures !SecondOpen(After(t, r, sla), n, ctx)
  {
    var plan := r.Plan(sla);
    assert plan[..|plan|] == plan && r.times[..|plan|] == r.times;
    forall m: nat | m != n
      ensures !OpenFor(After(t, r, sla), m, ctx)
    {
      if OpenFor(After(t, r, sla), m, ctx) {
        var i := OpenedByCreate(t, plan, r.times, m, ctx);
        if i < |r.Paging(sla)| {
          PagesMean(r.orphans, r.list, r.now, r.oncall, sla, i);
        } else {
          var k := ClosesMean(r.obs, r.list, i - |r.Paging(sla)|);
        }
        assert false;
      }
    }
  }

  /** The open issue of a context is listed exactly when few enough open issues are newer. */
  lemma ListedIff(t: Tracker, list: seq<OrphanIssue>, ctx: string, n: nat)
    requires Listing(list, t) && OneOpenEach(t) && OpenFor(t, n, ctx)
    ensures Primary(list, ctx).Some? <==> NewerOpen(t, n) < FETCH_LIMIT
  {
    TitleNamesContext(t.issues[n].title, ctx);
    PrimaryIsLeast(list, ctx);
    var oi := Primary(list, ctx);
    if oi.Some? {
      var k :| 0 <= k < |list| && list[k] == oi.value;
      assert Fetched(t, list[k].number) == Some(list[k]);
      TitleNamesContext(t.issues[oi.value.number].title, ctx);
      assert OpenFor(t, oi.value.number, ctx);
    }
  }

  /**
   A fully executed round leaves an orphan with a second open issue exactly when at least
   `FETCH_LIMIT` open issues are newer than the one it had.
   */
  lemma SecondIssueIff(t: Tracker, r: Round, sla: int, ctx: string, n: nat)
    requires t.Valid() && OneOpenEach(t) && OpenFor(t, n, ctx) && FullRound(t, r, sla)
    requires IsOrphan(r.obs, r.declared, ctx)
    ensures SecondOpen(After(t, r, sla), n, ctx) <==> NewerOpen(t, n) >= FETCH_LIMIT
    ensures NewerOpen(t, n) >= FETCH_LIMIT ==> OpenFor(After(t, r, sla), n, ctx)
  {
    ListedIff(t, r.list, ctx, n);
    if Primary(r.list, ctx).Some? {
      ListedIsNotRepeated(t, r, sla, ctx, n);
    } else {
      UnlistedIsUntouched(t, r, sla, ctx, n);
      assert ctx in r.orphans;
      var plan := r.Plan(sla);
      assert plan[..|plan|] == plan && r.times[..|plan|] == r.times;
      var j := PagesCover(r.orphans, r.list, r.now, r.oncall, sla, ctx);
      assert plan[j] == Create(ctx, r.oncall, r.now + sla);
      forall i | 0 <= i < |plan| && !plan[i].Create?
        ensures plan[i].number < t.next
      {
        var k := PlanConcernsListed(t, r, sla, i);
      }
      var m := CreatedStaysOpen(t, plan, r.times, j);
    }
  }

  // ----- An input that shows it -----

  /** The contexts "x", "xx", "xxx", ... */
  function Named(k: nat): string {
    seq(k + 1, _ => 'x')
  }

  /** One open issue for each of the first `n` of these contexts, opened in this order. */
  function Crowd(n: nat): Tracker {
    Tracker(map k: nat | k < n :: Issue(TitleOf(Named(k)), true, 0, []), n)
  }

  lemma {:induction false} CrowdIsOpen(n: nat, lo: nat, hi: nat)
    requires lo <= hi <= n
    ensures OpenBetween(Crowd(n), lo, hi) == hi - lo
  {
    if lo < hi {
      CrowdIsOpen(n, lo, hi - 1);
    }
  }

  lemma CrowdIsOneEach(n: nat)
    ensures Crowd(n).Valid() && OneOpenEach(Crowd(n))
  {
    forall a, b, ctx | OpenFor(Crowd(n), a, ctx) && OpenFor(Crowd(n), b, ctx)
      ensures a == b
    {
      assert |TitleOf(Named(a))| == |TitleOf(Named(b))|;
    }
  }

  /**
   With 101 open issues, one for each of 101 contexts, a round that finds the oldest context orphaned
   leaves it with two open issues.
   */
  lemma HundredAndOneIssues(r: Round, sla: int)
    requires FullRound(Crowd(101), r, sla) && IsOrphan(r.obs, r.declared, "x")
    ensures OpenFor(Crowd(101), 0, "x") && OneOpenEach(Crowd(101)) && !OneOpenEach(After(Crowd(101), r, sla))
  {
    var t := Crowd(101);
    CrowdIsOneEach(101);
    CrowdIsOpen(101, 1, 101);
    assert Named(0) == "x";
    SecondIssueIff(t, r, sla, "x", 0);
    var m :| m != 0 && OpenFor(After(t, r, sla), m, "x");
  }

  // ----- What a full round closes -----

  /** An issue that some action closes is closed at the end. */
  lemma {:induction false} ClosedByClose(t: Tracker, actions: seq<Action>, times: seq<int>, j: nat)
    requires t.Valid() && |actions| == |times| && j < |actions|
    requires actions[j].Close? && actions[j].number in t.issues
    ensures var t' := ApplyAll(t, actions, times);
            t'.Valid() && actions[j].number in t'.issues && !t'.issues[actions[j].number].open
    decreases |actions|
  {
    var k := |actions| - 1;
    if j < k {
      ClosedByClose(t, actions[..k], times[..k], j);
    } else {
      Grows(t, actions[..k], times[..k]);
    }
  }

  /** After a full round the open issues of a green check are exactly those it could not see. */
  lemma FullRoundClosesGreen(t: Tracker, r: Round, sla: int, ctx: string, n: nat)
    requires t.Valid() && FullRound(t, r, sla) && Green(r.obs, ctx)
    ensures OpenFor(After(t, r, sla), n, ctx) <==> OpenFor(t, n, ctx) && NewerOpen(t, n) >= FETCH_LIMIT
  {
    hide Listing, Enumerates, Green, OpenFor, NewerOpen;
    assert r.times[..|r.times|] == r.times;
    if !OpenFor(t, n, ctx) {
      NotOpenedForGreen(t, r, sla, ctx, n);
    } else if NewerOpen(t, n) < FETCH_LIMIT {
      ListedGreenIsClosed(t, r, sla, ctx, n);
    } else {
      UnlistedIsUntouched(t, r, sla, ctx, n);
    }
  }

  lemma ListedGreenIsClosed(t: Tracker, r: Round, sla: int, ctx: string, n: nat)
    requires t.Valid() && FullRound(t, r, sla) && Green(r.obs, ctx)
    requires OpenFor(t, n, ctx) && NewerOpen(t, n) < FETCH_LIMIT
    ensures !OpenFor(After(t, r, sla), n, ctx)
  {
    var plan, p := r.Plan(sla), |r.Paging(sla)|;
    assert plan[..|plan|] == plan && r.times[..|plan|] == r.times;
    TitleNamesContext(TitleOf(ctx), ctx);
    var k :| 0 <= k < |r.list| && r.list[k] == Fetched(t, n).value;
    var j := ClosesCover(r.obs, r.list, k);
    assert plan[p + j] == Close(ctx, n);
    ClosedByClose(t, plan, r.times, p + j);
  }

  lemma UnlistedIsUntouched(t: Tracker, r: Round, sla: int, ctx: string, n: nat)
    requires t.Valid() && FullRound(t, r, sla)
    requires OpenFor(t, n, ctx) && NewerOpen(t, n) >= FETCH_LIMIT
    ensures OpenFor(After(t, r, sla), n, ctx)
  {
    var plan := r.Plan(sla);
    assert plan[..|plan|] == plan && r.times[..|plan|] == r.times;
    forall i | 0 <= i < |plan|
      ensures !Concerns(plan[i], n)
    {
      if Concerns(plan[i], n) {
        var k := PlanConcernsListed(t, r, sla, i);
        assert false;
      }
    }
    Untouched(t, plan, r.times, n);
  }

  lemma NotOpenedForGreen(t: Tracker, r: Round, sla: int, ctx: string, n: nat)
    requires FullRound(t, r, sla) && Green(r.obs, ctx) && !OpenFor(t, n, ctx)
    ensures !OpenFor(After(t, r, sla), n, ctx)
  {
    var plan := r.Plan(sla);
    assert plan[..|plan|] == plan && r.times[..|plan|] == r.times;
    if OpenFor(After(t, r, sla), n, ctx) {
      var i := OpenedByCreate(t, plan, r.times, n, ctx);
      if i < |r.Paging(sla)| {
        PagesMean(r.orphans, r.list, r.now, r.oncall, sla, i);
      } else {
        var k := ClosesMean(r.obs, r.list, i - |r.Paging(sla)|);
      }
      assert false;
    }
  }
}
