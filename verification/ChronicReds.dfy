/**
 The chronic-red gate: which failing checks are owned, which are orphans, and what the gate does
 about the orphans. The decision is `Classify`; its paging actions are `Pages`, its closing actions `Closes`.
 */
module ChronicReds {
  import opened Basics
  import opened Order
  import opened CheckRuns

  datatype Declared = Declared(check: string, owner: string, expires: int)

  /** An open issue of the gate as it is fetched; `lastPing` is the newest re-ping, if any. */
  datatype OrphanIssue = OrphanIssue(number: nat, context: string, createdAt: int, lastPing: Option<int>)
  {
    /** The opening of the issue is itself the first page. */
    function Since(): int {
      if lastPing.Some? then lastPing.value else createdAt
    }
  }

  datatype Action =
    | Create(context: string, assignee: string, deadline: int)
    | Reping(context: string, number: nat)
    | Close(context: string, number: nat)

  type Checks = map<string, Observation>

  const FAILED := Observation("completed", Some("failure"))
  const GREEN := Observation("completed", Some("success"))

  predicate Failing(obs: Checks, ctx: string) {
    ctx in obs && obs[ctx] == FAILED
  }

  predicate Green(obs: Checks, ctx: string) {
    ctx in obs && obs[ctx] == GREEN
  }

  /** A check fails, or is green, exactly when its newest run by id is completed with that conclusion. */
  lemma NewestDecides(rows: seq<Row>, ctx: string)
    requires AllValid(rows)
    ensures Failing(Observations(KeepAll(rows)), ctx) <==> NewestConcludes(rows, ctx, "failure")
    ensures Green(Observations(KeepAll(rows)), ctx) <==> NewestConcludes(rows, ctx, "success")
  {
    hide Valid, KeepAll;
    var i := KeptIsNewest(rows, ctx);
    forall j: nat | Newest(rows, ctx, j)
      ensures ctx in KeepAll(rows) && j == i
    {
    }
    hide Newest;
    if ctx in KeepAll(rows) {
      ObservedIs(rows[i], "failure");
      ObservedIs(rows[i], "success");
      assert Newest(rows, ctx, i);
    }
  }

  lemma ObservedIs(r: Row, conclusion: string)
    requires Valid(r)
    ensures Observed(r) == Observation("completed", Some(conclusion)) <==> Concludes(r, conclusion)
  {
  }

  predicate Concludes(r: Row, conclusion: string) {
    r.Row? && r.status == Text("completed") && r.conclusion == Text(conclusion)
  }

  ghost predicate NewestConcludes(rows: seq<Row>, ctx: string, conclusion: string) {
    exists i: nat :: Newest(rows, ctx, i) && Concludes(rows[i], conclusion)
  }

  // ----- Declarations -----

  predicate Covers(d: Declared, ctx: string) {
    d.check <= ctx
  }

  /** The first of the longest declarations that cover the context. */
  function DeclaredFor(ctx: string, declared: seq<Declared>): Option<Declared> {
    if declared == [] then None
    else
      var n := |declared| - 1;
      var best := DeclaredFor(ctx, declared[..n]);
      if Covers(declared[n], ctx) && (best.None? || |declared[n].check| > |best.value.check|)
      then Some(declared[n]) else best
  }

  /** Declaration `i` covers the context, and no other covering one is longer, or as long and earlier. */
  ghost predicate MostSpecific(ctx: string, declared: seq<Declared>, i: nat) {
    && i < |declared| && declared[i].check <= ctx
    && forall j | 0 <= j < |declared| && declared[j].check <= ctx ::
         |declared[j].check| < |declared[i].check| || (|declared[j].check| == |declared[i].check| && i <= j)
  }

  lemma {:induction false} DeclaredForIsMostSpecific(ctx: string, declared: seq<Declared>) returns (i: nat)
    ensures DeclaredFor(ctx, declared).Some? ==>
              MostSpecific(ctx, declared, i) && DeclaredFor(ctx, declared) == Some(declared[i])
    ensures DeclaredFor(ctx, declared).None? ==> forall j | 0 <= j < |declared| :: !(declared[j].check <= ctx)
  {
    i := 0;
    if declared != [] {
      var n := |declared| - 1;
      i := DeclaredForIsMostSpecific(ctx, declared[..n]);
      assert forall j | 0 <= j < n :: declared[..n][j] == declared[j];
      var best := DeclaredFor(ctx, declared[..n]);
      if Covers(declared[n], ctx) && (best.None? || |declared[n].check| > |best.value.check|) {
        i := n;
      }
    }
  }

  method FindDeclared(ctx: string, declared: seq<Declared>) returns (best: Option<Declared>)
    ensures best == DeclaredFor(ctx, declared)
  {
    best := None;
    for i := 0 to |declared|
      invariant best == DeclaredFor(ctx, declared[..i])
    {
      var d := declared[i];
      assert declared[..i + 1][..i] == declared[..i];
      if ctx == d.check || d.check <= ctx {
        if best.None? || |d.check| > |best.value.check| {
          best := Some(d);
        }
      }
    }
    assert declared[..|declared|] == declared;
  }

  /** A failing check has no declaration, or one past its expiry, or one in force. */
  datatype Standing = Orphan | Expired | InForce

  function StandingOf(declared: seq<Declared>, now: int, ctx: string): Standing {
    var d := DeclaredFor(ctx, declared);
    if d.None? then Orphan else if now > d.value.expires then Expired else InForce
  }

  /** What the standing of a check means, by the declarations themselves. */
  ghost predicate HasStanding(declared: seq<Declared>, now: int, ctx: string, k: Standing) {
    match k
    case Orphan => forall j | 0 <= j < |declared| :: !(declared[j].check <= ctx)
    case Expired => exists i: nat :: MostSpecific(ctx, declared, i) && now > declared[i].expires
    case InForce => exists i: nat :: MostSpecific(ctx, declared, i) && now <= declared[i].expires
  }

  lemma StandingIff(declared: seq<Declared>, now: int, ctx: string, k: Standing)
    ensures StandingOf(declared, now, ctx) == k <==> HasStanding(declared, now, ctx, k)
  {
    var i := DeclaredForIsMostSpecific(ctx, declared);
    hide DeclaredFor;
    if DeclaredFor(ctx, declared).Some? {
      assert MostSpecific(ctx, declared, i);
      forall j: nat | MostSpecific(ctx, declared, j)
        ensures j == i
      {
      }
    }
  }

  ghost predicate IsOrphan(obs: Checks, declared: seq<Declared>, ctx: string) {
    Failing(obs, ctx) && forall j | 0 <= j < |declared| :: !(declared[j].check <= ctx)
  }

  /** The list has exactly the failing checks of that standing, in ascending order. */
  ghost predicate Enumerates(list: seq<string>, obs: Checks, declared: seq<Declared>, now: int, k: Standing) {
    Ascending(list) && forall ctx :: ctx in list <==> Failing(obs, ctx) && HasStanding(declared, now, ctx, k)
  }

  function Select(list: seq<string>, declared: seq<Declared>, now: int, k: Standing): seq<string> {
    if list == [] then []
    else
      var n := |list| - 1;
      Select(list[..n], declared, now, k) + (if StandingOf(declared, now, list[n]) == k then [list[n]] else [])
  }

  lemma {:induction false} SelectMeans(list: seq<string>, declared: seq<Declared>, now: int, k: Standing)
    requires Ascending(list)
    ensures Ascending(Select(list, declared, now, k))
    ensures forall ctx :: ctx in Select(list, declared, now, k) <==> ctx in list && HasStanding(declared, now, ctx, k)
  {
    hide StandingOf, HasStanding;
    if list != [] {
      StandingIff(declared, now, list[|list| - 1], k);
      var n := |list| - 1;
      var init := list[..n];
      SelectMeans(init, declared, now, k);
      assert forall ctx :: ctx in list <==> ctx in init || ctx == list[n];
      var s := Select(init, declared, now, k);
      forall i | 0 <= i < |s|
        ensures Less(s[i], list[n])
      {
        assert s[i] in init;
      }
    }
  }

  function WithExpiry(list: seq<string>, declared: seq<Declared>): seq<(string, int)> {
    if list == [] then []
    else
      var n := |list| - 1;
      var d := DeclaredFor(list[n], declared);
      WithExpiry(list[..n], declared) + [(list[n], if d.Some? then d.value.expires else 0)]
  }

  /** Each entry of the expired list is a check with the date of the declaration that covers it. */
  ghost predicate IsExpiry(e: (string, int), ctx: string, declared: seq<Declared>) {
    e.0 == ctx && exists i: nat :: MostSpecific(ctx, declared, i) && declared[i].expires == e.1
  }

  lemma {:induction false} WithExpiryMeans(list: seq<string>, declared: seq<Declared>, now: int)
    requires forall i | 0 <= i < |list| :: HasStanding(declared, now, list[i], Expired)
    ensures |WithExpiry(list, declared)| == |list|
    ensures forall i | 0 <= i < |list| :: IsExpiry(WithExpiry(list, declared)[i], list[i], declared)
  {
    hide HasStanding, IsExpiry, DeclaredFor;
    if list != [] {
      var n := |list| - 1;
      WithExpiryMeans(list[..n], declared, now);
      StandingIff(declared, now, list[n], Expired);
      ExpiryIs(list[n], declared);
    }
  }

  lemma ExpiryIs(ctx: string, declared: seq<Declared>)
    ensures var d := DeclaredFor(ctx, declared); d.Some? ==> IsExpiry((ctx, d.value.expires), ctx, declared)
  {
    var i := DeclaredForIsMostSpecific(ctx, declared);
  }

  // ----- The plan -----

  /** The lowest-numbered issue of a context. */
  function Primary(issues: seq<OrphanIssue>, ctx: string): Option<OrphanIssue> {
    if issues == [] then None
    else
      var n := |issues| - 1;
      var least := Primary(issues[..n], ctx);
      if issues[n].context == ctx && (least.None? || issues[n].number < least.value.number)
      then Some(issues[n]) else least
  }

  lemma {:induction false} PrimaryIsLeast(issues: seq<OrphanIssue>, ctx: string)
    ensures Primary(issues, ctx).None? <==> forall i | 0 <= i < |issues| :: issues[i].context != ctx
    ensures Primary(issues, ctx).Some? ==>
              && Primary(issues, ctx).value in issues && Primary(issues, ctx).value.context == ctx
              && forall i | 0 <= i < |issues| && issues[i].context == ctx ::
                   Primary(issues, ctx).value.number <= issues[i].number
  {
    if issues != [] {
      var n := |issues| - 1;
      PrimaryIsLeast(issues[..n], ctx);
      assert forall i | 0 <= i < n :: issues[..n][i] == issues[i];
    }
  }

  /** What an orphan calls for: a new issue, a re-ping once the SLA has passed, or nothing yet. */
  function Page(ctx: string, issues: seq<OrphanIssue>, now: int, oncall: string, sla: int): seq<Action> {
    var oi := Primary(issues, ctx);
    if oi.None? then [Create(ctx, oncall, now + sla)]
    else if now - oi.value.Since() >= sla then [Reping(ctx, oi.value.number)]
    else []
  }

  function Pages(orphans: seq<string>, issues: seq<OrphanIssue>, now: int, oncall: string, sla: int): seq<Action> {
    if orphans == [] then []
    else Pages(orphans[..|orphans| - 1], issues, now, oncall, sla)
         + Page(orphans[|orphans| - 1], issues, now, oncall, sla)
  }

  function Closes(obs: Checks, issues: seq<OrphanIssue>): seq<Action> {
    if issues == [] then []
    else
      var n := |issues| - 1;
      Closes(obs, issues[..n])
      + (if Green(obs, issues[n].context) then [Close(issues[n].context, issues[n].number)] else [])
  }

  datatype Classification = Classification(declaredOk: seq<string>, expired: seq<(string, int)>,
                                           orphans: seq<string>, actions: seq<Action>)

  /** Lists the elements of a set in ascending order. */
  method SortNames(names: set<string>) returns (list: seq<string>)
    ensures Ascending(list) && forall ctx :: ctx in list <==> ctx in names
  {
    list := [];
    var rest := names;
    while rest != {}
      invariant rest <= names && Ascending(list)
      invariant forall ctx :: ctx in list <==> ctx in names - rest
      decreases rest
    {
      var x :| x in rest;
      InsertAscends(x, list);
      list := Insert(x, list);
      rest := rest - {x};
    }
  }

  /**
   The three lists are ascending and split the failing checks exactly: without a covering
   declaration, with one that has expired, and with one in force. The actions page the orphans in
   order and then close the issues of green checks.
   */
  method Classify(obs: Checks, declared: seq<Declared>, issues: seq<OrphanIssue>, now: int, oncall: string, sla: int)
    returns (c: Classification, ghost lapsed: seq<string>)
    ensures Enumerates(c.orphans, obs, declared, now, Orphan)
    ensures Enumerates(c.declaredOk, obs, declared, now, InForce)
    ensures Enumerates(lapsed, obs, declared, now, Expired)
    ensures |c.expired| == |lapsed| && forall i | 0 <= i < |lapsed| :: IsExpiry(c.expired[i], lapsed[i], declared)
    ensures c.actions == Pages(c.orphans, issues, now, oncall, sla) + Closes(obs, issues)
  {
    var failing := SortNames(set name | name in obs && obs[name] == FAILED);
    var declaredOk, expired, orphans := SplitByStanding(declared, now, failing);
    lapsed := Select(failing, declared, now, Expired);
    SelectMeans(failing, declared, now, Orphan);
    SelectMeans(failing, declared, now, Expired);
    SelectMeans(failing, declared, now, InForce);
    assert forall i | 0 <= i < |lapsed| :: lapsed[i] in lapsed;
    WithExpiryMeans(lapsed, declared, now);
    var paging := PageOrphans(orphans, issues, now, oncall, sla);
    var closing := CloseGreen(obs, issues);
    c := Classification(declaredOk, expired, orphans, paging + closing);
  }

  method SplitByStanding(declared: seq<Declared>, now: int, failing: seq<string>)
    returns (declaredOk: seq<string>, expired: seq<(string, int)>, orphans: seq<string>)
    ensures orphans == Select(failing, declared, now, Orphan)
    ensures declaredOk == Select(failing, declared, now, InForce)
    ensures expired == WithExpiry(Select(failing, declared, now, Expired), declared)
  {
    declaredOk, expired, orphans := [], [], [];
    for i := 0 to |failing|
      invariant orphans == Select(failing[..i], declared, now, Orphan)
      invariant declaredOk == Select(failing[..i], declared, now, InForce)
      invariant expired == WithExpiry(Select(failing[..i], declared, now, Expired), declared)
    {
      var ctx := failing[i];
      assert failing[..i + 1][..i] == failing[..i];
      var d := FindDeclared(ctx, declared);
      assert StandingOf(declared, now, ctx) != Expired ==>
               Select(failing[..i + 1], declared, now, Expired) == Select(failing[..i], declared, now, Expired);
      if d.None? {
        orphans := orphans + [ctx];
      } else if now > d.value.expires {
        ghost var before := Select(failing[..i], declared, now, Expired);
        assert Select(failing[..i + 1], declared, now, Expired) == before + [ctx];
        assert (before + [ctx])[..|before|] == before;
        expired := expired + [(ctx, d.value.expires)];
      } else {
        declaredOk := declaredOk + [ctx];
      }
    }
    assert failing[..|failing|] == failing;
  }

  method PageOrphans(orphans: seq<string>, issues: seq<OrphanIssue>, now: int, oncall: string, sla: int)
    returns (actions: seq<Action>)
    ensures actions == Pages(orphans, issues, now, oncall, sla)
  {
    actions := [];
    for i := 0 to |orphans|
      invariant actions == Pages(orphans[..i], issues, now, oncall, sla)
    {
      assert orphans[..i + 1][..i] == orphans[..i];
      var oi := Primary(issues, orphans[i]);
      if oi.None? {
        actions := actions + [Create(orphans[i], oncall, now + sla)];
      } else if now - oi.value.Since() >= sla {
        actions := actions + [Reping(orphans[i], oi.value.number)];
      }
    }
    assert orphans[..|orphans|] == orphans;
  }

  method CloseGreen(obs: Checks, issues: seq<OrphanIssue>) returns (actions: seq<Action>)
    ensures actions == Closes(obs, issues)
  {
    actions := [];
    for i := 0 to |issues|
      invariant actions == Closes(obs, issues[..i])
    {
      assert issues[..i + 1][..i] == issues[..i];
      if issues[i].context in obs && obs[issues[i].context] == GREEN {
        actions := actions + [Close(issues[i].context, issues[i].number)];
      }
    }
    assert issues[..|issues|] == issues;
  }

  // ----- What the actions of a plan are -----

  /** Every paging action is the one its own context calls for. */
  lemma {:induction false} PagesMean(orphans: seq<string>, issues: seq<OrphanIssue>, now: int, oncall: string,
                                     sla: int, j: nat)
    requires j < |Pages(orphans, issues, now, oncall, sla)|
    ensures var a := Pages(orphans, issues, now, oncall, sla)[j];
            && a.context in orphans && Page(a.context, issues, now, oncall, sla) == [a] && !a.Close?
            && (a.Create? ==> a.assignee == oncall && a.deadline == now + sla)
  {
    var n := |orphans| - 1;
    var init := Pages(orphans[..n], issues, now, oncall, sla);
    if j < |init| {
      PagesMean(orphans[..n], issues, now, oncall, sla, j);
    }
  }

  lemma {:induction false} PagesAreDistinct(orphans: seq<string>, issues: seq<OrphanIssue>, now: int, oncall: string,
                                            sla: int, i: nat, j: nat)
    requires Ascending(orphans) && i < j < |Pages(orphans, issues, now, oncall, sla)|
    ensures Pages(orphans, issues, now, oncall, sla)[i].context != Pages(orphans, issues, now, oncall, sla)[j].context
  {
    var n := |orphans| - 1;
    var init := Pages(orphans[..n], issues, now, oncall, sla);
    if j < |init| {
      PagesAreDistinct(orphans[..n], issues, now, oncall, sla, i, j);
    } else {
      PagesMean(orphans[..n], issues, now, oncall, sla, i);
      LessIrreflexive(orphans[n]);
      assert orphans[n] !in orphans[..n];
    }
  }

  /** An orphan that calls for an action gets it. */
  lemma {:induction false} PagesCover(orphans: seq<string>, issues: seq<OrphanIssue>, now: int, oncall: string,
                                      sla: int, ctx: string) returns (j: nat)
    requires ctx in orphans && Page(ctx, issues, now, oncall, sla) != []
    ensures j < |Pages(orphans, issues, now, oncall, sla)|
    ensures [Pages(orphans, issues, now, oncall, sla)[j]] == Page(ctx, issues, now, oncall, sla)
  {
    var n := |orphans| - 1;
    if orphans[n] == ctx {
      j := |Pages(orphans[..n], issues, now, oncall, sla)|;
    } else {
      j := PagesCover(orphans[..n], issues, now, oncall, sla, ctx);
    }
  }

  lemma {:induction false} ClosesMean(obs: Checks, issues: seq<OrphanIssue>, j: nat) returns (k: nat)
    requires j < |Closes(obs, issues)|
    ensures j <= k < |issues| && Green(obs, issues[k].context)
    ensures Closes(obs, issues)[j] == Close(issues[k].context, issues[k].number)
  {
    var n := |issues| - 1;
    if j < |Closes(obs, issues[..n])| {
      k := ClosesMean(obs, issues[..n], j);
    } else {
      k := n;
      ClosesAreFew(obs, issues[..n]);
    }
  }

  /** Every listed issue of a green check gets its close. */
  lemma {:induction false} ClosesCover(obs: Checks, issues: seq<OrphanIssue>, k: nat) returns (j: nat)
    requires k < |issues| && Green(obs, issues[k].context)
    ensures j < |Closes(obs, issues)| && Closes(obs, issues)[j] == Close(issues[k].context, issues[k].number)
  {
    var n := |issues| - 1;
    if k == n {
      j := |Closes(obs, issues[..n])|;
    } else {
      j := ClosesCover(obs, issues[..n], k);
    }
  }

  lemma {:induction false} ClosesAreFew(obs: Checks, issues: seq<OrphanIssue>)
    ensures |Closes(obs, issues)| <= |issues|
  {
    if issues != [] {
      ClosesAreFew(obs, issues[..|issues| - 1]);
    }
  }

  lemma {:induction false} ClosesAreDistinct(obs: Checks, issues: seq<OrphanIssue>, i: nat, j: nat)
    requires forall p, q | 0 <= p < q < |issues| :: issues[p].number != issues[q].number
    requires i < j < |Closes(obs, issues)|
    ensures Closes(obs, issues)[i].Close? && Closes(obs, issues)[j].Close?
    ensures Closes(obs, issues)[i].number != Closes(obs, issues)[j].number
  {
    var n := |issues| - 1;
    var init := Closes(obs, issues[..n]);
    if j < |init| {
      ClosesAreDistinct(obs, issues[..n], i, j);
    } else {
      var k := ClosesMean(obs, issues[..n], i);
    }
  }
}
