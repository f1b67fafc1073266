/**
 The chronic-red gate running over time against its issue tracker. One round fetches the open
 issues, decides, and executes its plan action by action; it may stop after any number of actions
 because the main branch moved. The rounds are serialised and nothing else writes these issues.
 */
module IssueTracker {
  import opened Basics
  import opened Order
  import opened CheckRuns
  import opened ChronicReds

  const TITLE_PREFIX := "[chronic-red] "

  /** A comment; `reping` says whether it carries the gate's re-ping marker. */
  datatype Comment = Comment(reping: bool, at: int)

  datatype Issue = Issue(title: string, open: bool, createdAt: int, comments: seq<Comment>)

  datatype Tracker = Tracker(issues: map<nat, Issue>, next: nat)
  {
    ghost predicate Valid() {
      forall n | n in issues :: n < next
    }
  }

  // ----- Titles and pings -----

  function TitleOf(ctx: string): string {
    TITLE_PREFIX + ctx
  }

  function ContextOf(title: string): Option<string> {
    if TITLE_PREFIX <= title then Some(title[|TITLE_PREFIX|..]) else None
  }

  /** A title names a context exactly when it is that context's title. */
  lemma TitleNamesContext(title: string, ctx: string)
    ensures ContextOf(title) == Some(ctx) <==> title == TitleOf(ctx)
    ensures TitleOf(ctx) == "[chronic-red] " + ctx
  {
    if TITLE_PREFIX <= title {
      assert title == TITLE_PREFIX + title[|TITLE_PREFIX|..];
    }
    assert TitleOf(ctx)[|TITLE_PREFIX|..] == ctx;
  }

  function LatestPing(comments: seq<Comment>): Option<int> {
    if comments == [] then None
    else
      var n := |comments| - 1;
      var latest := LatestPing(comments[..n]);
      if comments[n].reping && (latest.None? || comments[n].at > latest.value) then Some(comments[n].at) else latest
  }

  lemma {:induction false} LatestPingIsLatest(comments: seq<Comment>)
    ensures LatestPing(comments).None? ==> forall i | 0 <= i < |comments| :: !comments[i].reping
    ensures LatestPing(comments).Some? ==>
              && (exists i :: 0 <= i < |comments| && comments[i] == Comment(true, LatestPing(comments).value))
              && forall i | 0 <= i < |comments| && comments[i].reping :: comments[i].at <= LatestPing(comments).value
  {
    if comments != [] {
      var n := |comments| - 1;
      LatestPingIsLatest(comments[..n]);
      assert forall i | 0 <= i < n :: comments[..n][i] == comments[i];
    }
  }

  function Flatten(pages: seq<seq<Comment>>): seq<Comment> {
    if pages == [] then [] else Flatten(pages[..|pages| - 1]) + pages[|pages| - 1]
  }

  method ReadLatestPing(pages: seq<seq<Comment>>) returns (latest: Option<int>)
    ensures latest == LatestPing(Flatten(pages))
  {
    latest := None;
    for p := 0 to |pages|
      invariant latest == LatestPing(Flatten(pages[..p]))
    {
      var page := pages[p];
      ghost var before := Flatten(pages[..p]);
      assert pages[..p + 1][..p] == pages[..p];
      assert before + page[..0] == before;
      for i := 0 to |page|
        invariant latest == LatestPing(before + page[..i])
      {
        assert before + page[..i + 1] == (before + page[..i]) + [page[i]];
        assert (before + page[..i + 1])[..|before| + i] == before + page[..i];
        if page[i].reping && (latest.None? || page[i].at > latest.value) {
          latest := Some(page[i].at);
        }
      }
      assert page[..|page|] == page;
    }
    assert pages[..|pages|] == pages;
  }

  /** When the issue last paged somebody. */
  function LastPage(issue: Issue): int {
    var ping := LatestPing(issue.comments);
    if ping.Some? then ping.value else issue.createdAt
  }

  // ----- Fetching -----

  /** What the fetch makes of issue `n`: nothing unless it is open and titled by the gate. */
  function Fetched(t: Tracker, n: nat): Option<OrphanIssue> {
    if n in t.issues && t.issues[n].open && ContextOf(t.issues[n].title).Some?
    then
      Some(OrphanIssue(n, ContextOf(t.issues[n].title).value, t.issues[n].createdAt, LatestPing(t.issues[n].comments)))
    else None
  }

  ghost predicate IsFetch(list: seq<OrphanIssue>, t: Tracker) {
    && (forall i | 0 <= i < |list| :: Fetched(t, list[i].number) == Some(list[i]))
    && (forall i, j | 0 <= i < j < |list| :: list[i].number != list[j].number)
  }

  /** No open issue of the gate is missing from the list. */
  ghost predicate IsComplete(list: seq<OrphanIssue>, t: Tracker) {
    forall n | Fetched(t, n).Some? :: Fetched(t, n).value in list
  }

  // ----- Executing -----

  function Apply(t: Tracker, a: Action, at: int): Tracker {
    match a
    case Create(ctx, _, _) =>
      Tracker(t.issues[t.next := Issue(TitleOf(ctx), true, at, [])], t.next + 1)
    case Reping(_, n) =>
      if n !in t.issues then t
      else t.(issues := t.issues[n := t.issues[n].(comments := t.issues[n].comments + [Comment(true, at)])])
    case Close(_, n) =>
      if n !in t.issues then t
      else
        var issue := t.issues[n];
        t.(issues := t.issues[n := issue.(open := false, comments := issue.comments + [Comment(false, at)])])
  }

  function ApplyAll(t: Tracker, actions: seq<Action>, times: seq<int>): Tracker
    requires |actions| == |times|
  {
    if actions == [] then t
    else
      var n := |actions| - 1;
      Apply(ApplyAll(t, actions[..n], times[..n]), actions[n], times[n])
  }

  // ----- Guards, and why a plan never trips over itself -----

  predicate OpenFor(t: Tracker, n: nat, ctx: string) {
    n in t.issues && t.issues[n].open && t.issues[n].title == TitleOf(ctx)
  }

  /** What must hold of the tracker when an action of a round decided at `now` is executed. */
  ghost predicate Fits(t: Tracker, a: Action, obs: Checks, now: int, sla: int) {
    match a
    case Create(ctx, _, _) => Failing(obs, ctx) && forall n :: !OpenFor(t, n, ctx)
    case Reping(ctx, n) => Failing(obs, ctx) && OpenFor(t, n, ctx) && now - LastPage(t.issues[n]) >= sla
    case Close(ctx, n) => Green(obs, ctx) && OpenFor(t, n, ctx)
  }

  /** Two actions that do not touch the same issue and cannot create one for the same context. */
  predicate Independent(a: Action, b: Action) {
    a.context != b.context || (a.Close? && b.Close? && a.number != b.number)
  }

  lemma FitsIsKept(t: Tracker, a: Action, at: int, b: Action, obs: Checks, now: int, sla: int)
    requires t.Valid() && Fits(t, a, obs, now, sla) && Fits(t, b, obs, now, sla) && Independent(a, b)
    ensures Fits(Apply(t, a, at), b, obs, now, sla)
  {
    TitleNamesContext(TitleOf(a.context), a.context);
    TitleNamesContext(TitleOf(b.context), b.context);
    TitleNamesContext(TitleOf(a.context), b.context);
    var t' := Apply(t, a, at);
    if b.Create? {
      forall n
        ensures !OpenFor(t', n, b.context)
      {
        assert !OpenFor(t, n, b.context);
      }
    }
  }

  // ----- One round -----

  /**
   A round: what it observed, what it fetched, when it decided, and how much of its plan it
   executed at which times.
   */
  datatype Round = Round(obs: Checks, declared: seq<Declared>, orphans: seq<string>, list: seq<OrphanIssue>,
                         now: int, oncall: string, done: nat, times: seq<int>)
  {
    function Paging(sla: int): seq<Action> {
      Pages(orphans, list, now, oncall, sla)
    }

    function Plan(sla: int): seq<Action> {
      Paging(sla) + Closes(obs, list)
    }
  }

  ghost predicate Legal(t: Tracker, r: Round, sla: int) {
    && IsFetch(r.list, t) && IsComplete(r.list, t)
    && Enumerates(r.orphans, r.obs, r.declared, r.now, Orphan)
    && r.done <= |r.Plan(sla)| && |r.times| == r.done
    && forall i | 0 <= i < r.done :: r.times[i] >= r.now
  }

  function StateAt(t: Tracker, r: Round, sla: int, k: nat): Tracker
    requires k <= |r.times| <= |r.Plan(sla)|
  {
    ApplyAll(t, r.Plan(sla)[..k], r.times[..k])
  }

  function After(t: Tracker, r: Round, sla: int): Tracker
    requires |r.times| <= |r.Plan(sla)|
  {
    StateAt(t, r, sla, |r.times|)
  }

  lemma OpenIsListed(list: seq<OrphanIssue>, t: Tracker, n: nat, ctx: string)
    requires IsComplete(list, t) && OpenFor(t, n, ctx)
    ensures Primary(list, ctx).Some?
  {
    TitleNamesContext(t.issues[n].title, ctx);
    assert Fetched(t, n).value in list;
    PrimaryIsLeast(list, ctx);
  }

  lemma PagingFits(t: Tracker, r: Round, sla: int, j: nat)
    requires Legal(t, r, sla) && j < |r.Paging(sla)|
    ensures Fits(t, r.Paging(sla)[j], r.obs, r.now, sla) && !r.Paging(sla)[j].Close?
  {
    var a := r.Paging(sla)[j];
    PagesMean(r.orphans, r.list, r.now, r.oncall, sla, j);
    var ctx := a.context;
    PrimaryIsLeast(r.list, ctx);
    var oi := Primary(r.list, ctx);
    if oi.None? {
      forall n
        ensures !OpenFor(t, n, ctx)
      {
        if OpenFor(t, n, ctx) {
          OpenIsListed(r.list, t, n, ctx);
          assert false;
        }
      }
    } else {
      var i :| 0 <= i < |r.list| && r.list[i] == oi.value;
      assert Fetched(t, r.list[i].number) == Some(r.list[i]);
      TitleNamesContext(t.issues[oi.value.number].title, ctx);
    }
  }

  lemma ClosingFits(t: Tracker, r: Round, sla: int, j: nat)
    requires Legal(t, r, sla) && j < |Closes(r.obs, r.list)|
    ensures Fits(t, Closes(r.obs, r.list)[j], r.obs, r.now, sla) && Closes(r.obs, r.list)[j].Close?
  {
    var k := ClosesMean(r.obs, r.list, j);
    assert Fetched(t, r.list[k].number) == Some(r.list[k]);
    TitleNamesContext(t.issues[r.list[k].number].title, r.list[k].context);
  }

  /** When the round decides, each action of its plan is in order. */
  lemma PlanFits(t: Tracker, r: Round, sla: int, j: nat)
    requires Legal(t, r, sla) && j < |r.Plan(sla)|
    ensures Fits(t, r.Plan(sla)[j], r.obs, r.now, sla)
    ensures r.Plan(sla)[j].Close? <==> j >= |r.Paging(sla)|
  {
    if j < |r.Paging(sla)| {
      PagingFits(t, r, sla, j);
    } else {
      ClosingFits(t, r, sla, j - |r.Paging(sla)|);
    }
  }

  /** The actions of a plan never concern the same issue, nor page and close the same context. */
  lemma PlanIsIndependent(t: Tracker, r: Round, sla: int, i: nat, j: nat)
    requires Legal(t, r, sla) && i < j < |r.Plan(sla)|
    ensures Independent(r.Plan(sla)[i], r.Plan(sla)[j])
  {
    var p := |r.Paging(sla)|;
    PlanFits(t, r, sla, i);
    PlanFits(t, r, sla, j);
    if j < p {
      PagesAreDistinct(r.orphans, r.list, r.now, r.oncall, sla, i, j);
    } else if i >= p {
      ClosesAreDistinct(r.obs, r.list, i - p, j - p);
    }
  }

  lemma StateAtSnoc(t: Tracker, r: Round, sla: int, k: nat)
    requires k < |r.times| <= |r.Plan(sla)|
    ensures StateAt(t, r, sla, k + 1) == Apply(StateAt(t, r, sla, k), r.Plan(sla)[k], r.times[k])
  {
    var plan := r.Plan(sla);
    assert plan[..k + 1][..k] == plan[..k] && r.times[..k + 1][..k] == r.times[..k];
  }

  /** Every action of the plan is still in order when its turn comes. */
  lemma {:induction false} PlanStaysFit(t: Tracker, r: Round, sla: int, k: nat, j: nat)
    requires t.Valid() && Legal(t, r, sla) && k <= r.done && k <= j < |r.Plan(sla)|
    ensures StateAt(t, r, sla, k).Valid() && Fits(StateAt(t, r, sla, k), r.Plan(sla)[j], r.obs, r.now, sla)
  {
    hide Fits, Independent, IsFetch, IsComplete, Enumerates;
    if k == 0 {
      PlanFits(t, r, sla, j);
    } else {
      PlanStaysFit(t, r, sla, k - 1, k - 1);
      PlanStaysFit(t, r, sla, k - 1, j);
      PlanIsIndependent(t, r, sla, k - 1, j);
      StateAtSnoc(t, r, sla, k - 1);
      FitsIsKept(StateAt(t, r, sla, k - 1), r.Plan(sla)[k - 1], r.times[k - 1], r.Plan(sla)[j], r.obs, r.now, sla);
    }
  }

  // ----- What rounds keep -----

  /** Never two open issues for one context. */
  ghost predicate OneOpenEach(t: Tracker) {
    forall n, m, ctx | OpenFor(t, n, ctx) && OpenFor(t, m, ctx) :: n == m
  }

  /** The pages of an issue, its opening and its re-pings, are at least one SLA apart. */
  ghost predicate PagesApart(issue: Issue, sla: int) {
    forall j | 0 <= j < |issue.comments| && issue.comments[j].reping :: ApartFromEarlier(issue, sla, j)
  }

  ghost predicate ApartFromEarlier(issue: Issue, sla: int, j: nat)
    requires j < |issue.comments|
  {
    && issue.comments[j].at - issue.createdAt >= sla
    && forall i | 0 <= i < j && issue.comments[i].reping :: issue.comments[j].at - issue.comments[i].at >= sla
  }

  ghost predicate AllPagesApart(t: Tracker, sla: int) {
    forall n | n in t.issues :: PagesApart(t.issues[n], sla)
  }

  lemma ActionKeepsOneOpen(t: Tracker, a: Action, at: int, obs: Checks, now: int, sla: int)
    requires t.Valid() && OneOpenEach(t) && Fits(t, a, obs, now, sla)
    ensures OneOpenEach(Apply(t, a, at))
  {
    var t' := Apply(t, a, at);
    forall n, m, ctx | OpenFor(t', n, ctx) && OpenFor(t', m, ctx)
      ensures n == m
    {
      if a.Create? {
        TitleNamesContext(TitleOf(a.context), a.context);
        TitleNamesContext(TitleOf(a.context), ctx);
        assert n != t.next ==> OpenFor(t, n, ctx);
        assert m != t.next ==> OpenFor(t, m, ctx);
      } else {
        assert OpenFor(t, n, ctx) && OpenFor(t, m, ctx);
      }
    }
  }

  /** A comment put on an issue whose last page is at least an SLA old keeps its pages apart. */
  lemma CommentKeepsApart(issue: Issue, c: Comment, open: bool, sla: int)
    requires PagesApart(issue, sla) && sla > 0 && (c.reping ==> c.at - LastPage(issue) >= sla)
    ensures PagesApart(issue.(open := open, comments := issue.comments + [c]), sla)
  {
    var issue' := issue.(open := open, comments := issue.comments + [c]);
    LatestPingIsLatest(issue.comments);
    forall j | 0 <= j < |issue'.comments| && issue'.comments[j].reping
      ensures ApartFromEarlier(issue', sla, j)
    {
      if j < |issue.comments| {
        assert ApartFromEarlier(issue, sla, j);
      } else if LatestPing(issue.comments).Some? {
        var k :| 0 <= k < |issue.comments| && issue.comments[k] == Comment(true, LastPage(issue));
        assert ApartFromEarlier(issue, sla, k);
      }
    }
  }

  lemma ActionKeepsPagesApart(t: Tracker, a: Action, at: int, obs: Checks, now: int, sla: int)
    requires AllPagesApart(t, sla) && Fits(t, a, obs, now, sla) && sla > 0 && at >= now
    ensures AllPagesApart(Apply(t, a, at), sla)
  {
    if !a.Create? {
      var issue := t.issues[a.number];
      CommentKeepsApart(issue, Comment(a.Reping?, at), a.Reping? && issue.open, sla);
    }
  }

  /** Both invariants hold after every executed prefix of a round's plan. */
  lemma {:induction false} RoundKeeps(t: Tracker, r: Round, sla: int, k: nat)
    requires t.Valid() && OneOpenEach(t) && AllPagesApart(t, sla) && sla > 0
    requires Legal(t, r, sla) && k <= r.done
    ensures StateAt(t, r, sla, k).Valid()
    ensures OneOpenEach(StateAt(t, r, sla, k)) && AllPagesApart(StateAt(t, r, sla, k), sla)
  {
    if k > 0 {
      RoundKeeps(t, r, sla, k - 1);
      PlanStaysFit(t, r, sla, k - 1, k - 1);
      StateAtSnoc(t, r, sla, k - 1);
      var s, a, at := StateAt(t, r, sla, k - 1), r.Plan(sla)[k - 1], r.times[k - 1];
      ActionKeepsOneOpen(s, a, at, r.obs, r.now, sla);
      ActionKeepsPagesApart(s, a, at, r.obs, r.now, sla);
    }
  }

  ghost predicate IsRun(states: seq<Tracker>, rounds: seq<Round>, sla: int) {
    && |states| == |rounds| + 1
    && forall i | 0 <= i < |rounds| :: IsRoundOf(states[i], rounds[i], states[i + 1], sla)
  }

  ghost predicate IsRoundOf(t: Tracker, r: Round, t': Tracker, sla: int) {
    Legal(t, r, sla) && t' == After(t, r, sla)
  }

  /**
   Over any sequence of rounds, each cut short anywhere, there is never a second open issue for a
   context, and no issue ever pages twice within one SLA.
   */
  lemma {:induction false} RunsKeep(states: seq<Tracker>, rounds: seq<Round>, sla: int, n: nat)
    requires IsRun(states, rounds, sla) && n < |states| && sla > 0
    requires states[0].Valid() && OneOpenEach(states[0]) && AllPagesApart(states[0], sla)
    ensures states[n].Valid() && OneOpenEach(states[n]) && AllPagesApart(states[n], sla)
  {
    if n > 0 {
      RunsKeep(states, rounds, sla, n - 1);
      assert IsRoundOf(states[n - 1], rounds[n - 1], states[n], sla);
      RoundKeeps(states[n - 1], rounds[n - 1], sla, rounds[n - 1].done);
    }
  }

  // ----- What a full round achieves -----

  /** Issue `n` is open for the context and paged somebody less than one SLA before `now`, or since. */
  predicate Paged(t: Tracker, n: nat, ctx: string, now: int, sla: int) {
    OpenFor(t, n, ctx) && LastPage(t.issues[n]) > now - sla
  }

  ghost predicate HasPagedIssue(t: Tracker, ctx: string, now: int, sla: int) {
    exists n :: Paged(t, n, ctx, now, sla)
  }

  lemma OtherContextsStay(t: Tracker, a: Action, at: int, obs: Checks, now: int, sla: int, n: nat, ctx: string)
    requires t.Valid() && Fits(t, a, obs, now, sla) && a.context != ctx && OpenFor(t, n, ctx)
    ensures var t' := Apply(t, a, at); n in t'.issues && t'.issues[n] == t.issues[n]
  {
    TitleNamesContext(TitleOf(ctx), ctx);
    TitleNamesContext(TitleOf(ctx), a.context);
  }

  lemma {:induction false} StaysPaged(t: Tracker, r: Round, sla: int, from: nat, k: nat, n: nat, ctx: string)
    requires t.Valid() && Legal(t, r, sla) && from <= k <= r.done
    requires Paged(StateAt(t, r, sla, from), n, ctx, r.now, sla)
    requires forall j | from <= j < k :: r.Plan(sla)[j].context != ctx
    ensures Paged(StateAt(t, r, sla, k), n, ctx, r.now, sla)
  {
    if from < k {
      StaysPaged(t, r, sla, from, k - 1, n, ctx);
      PlanStaysFit(t, r, sla, k - 1, k - 1);
      StateAtSnoc(t, r, sla, k - 1);
      OtherContextsStay(StateAt(t, r, sla, k - 1), r.Plan(sla)[k - 1], r.times[k - 1], r.obs, r.now, sla, n, ctx);
    }
  }

  lemma PagingPages(t: Tracker, a: Action, at: int, obs: Checks, now: int, sla: int) returns (n: nat)
    requires t.Valid() && Fits(t, a, obs, now, sla) && !a.Close? && at >= now && sla > 0
    ensures Paged(Apply(t, a, at), n, a.context, now, sla)
  {
    if a.Create? {
      n := t.next;
    } else {
      n := a.number;
      var comments := t.issues[n].comments;
      assert (comments + [Comment(true, at)])[..|comments|] == comments;
    }
  }

  /**
   After a fully executed round every orphan has an open issue whose last page is younger than one
   SLA: it was opened or re-pinged by the round, or it had been paged recently enough.
   */
  lemma FullRoundPagesOrphans(t: Tracker, r: Round, sla: int, ctx: string)
    requires t.Valid() && Legal(t, r, sla) && sla > 0 && r.done == |r.Plan(sla)|
    requires IsOrphan(r.obs, r.declared, ctx)
    ensures HasPagedIssue(After(t, r, sla), ctx, r.now, sla)
  {
    assert ctx in r.orphans;
    var n: nat;
    var page := ChronicReds.Page(ctx, r.list, r.now, r.oncall, sla);
    var plan := r.Plan(sla);
    if page == [] {
      forall j | 0 <= j < |plan|
        ensures plan[j].context != ctx
      {
        PlanFits(t, r, sla, j);
        if j < |r.Paging(sla)| {
          PagesMean(r.orphans, r.list, r.now, r.oncall, sla, j);
        }
      }
      PrimaryIsLeast(r.list, ctx);
      var oi := Primary(r.list, ctx).value;
      n := oi.number;
      var i :| 0 <= i < |r.list| && r.list[i] == oi;
      assert Fetched(t, r.list[i].number) == Some(r.list[i]);
      TitleNamesContext(t.issues[n].title, ctx);
      StaysPaged(t, r, sla, 0, r.done, n, ctx);
    } else {
      var j := PagesCover(r.orphans, r.list, r.now, r.oncall, sla, ctx);
      assert plan[j] == page[0];
      PlanStaysFit(t, r, sla, j, j);
      StateAtSnoc(t, r, sla, j);
      n := PagingPages(StateAt(t, r, sla, j), plan[j], r.times[j], r.obs, r.now, sla);
      forall k | j < k < |plan|
        ensures plan[k].context != ctx
      {
        PlanIsIndependent(t, r, sla, j, k);
      }
      StaysPaged(t, r, sla, j + 1, r.done, n, ctx);
    }
    assert Paged(After(t, r, sla), n, ctx, r.now, sla);
  }

  /** A round closes an issue only when its check was observed completed and successful. */
  lemma {:induction false} ClosedMeansGreen(t: Tracker, r: Round, sla: int, k: nat, n: nat, ctx: string)
    requires t.Valid() && Legal(t, r, sla) && k <= r.done
    requires OpenFor(t, n, ctx) && !OpenFor(StateAt(t, r, sla, k), n, ctx)
    ensures Green(r.obs, ctx)
  {
    hide IsFetch, IsComplete, Enumerates, LastPage, TitleOf;
    var s := StateAt(t, r, sla, k - 1);
    if OpenFor(s, n, ctx) {
      PlanStaysFit(t, r, sla, k - 1, k - 1);
      StateAtSnoc(t, r, sla, k - 1);
      var a := r.Plan(sla)[k - 1];
      if a.context != ctx {
        OtherContextsStay(s, a, r.times[k - 1], r.obs, r.now, sla, n, ctx);
      }
    } else {
      ClosedMeansGreen(t, r, sla, k - 1, n, ctx);
    }
  }

  /**
   End to end: an issue that a round closed belongs to a check whose newest run, by id, among the rows
   the round read is completed and successful.
   */
  lemma ClosedMeansNewestSucceeded(t: Tracker, r: Round, sla: int, k: nat, n: nat, ctx: string, rows: seq<Row>)
    returns (i: nat)
    requires AllValid(rows) && r.obs == Observations(KeepAll(rows))
    requires t.Valid() && Legal(t, r, sla) && k <= r.done
    requires OpenFor(t, n, ctx) && !OpenFor(StateAt(t, r, sla, k), n, ctx)
    ensures Newest(rows, ctx, i) && Concludes(rows[i], "success")
  {
    hide StateAt, Legal;
    ClosedMeansGreen(t, r, sla, k, n, ctx);
    NewestDecides(rows, ctx);
    i :| Newest(rows, ctx, i) && Concludes(rows[i], "success");
  }

  /** ... and a check that pages somebody is undeclared, and its newest run is a completed failure. */
  lemma PagedMeansNewestFailed(t: Tracker, r: Round, sla: int, j: nat, rows: seq<Row>) returns (i: nat)
    requires AllValid(rows) && r.obs == Observations(KeepAll(rows))
    requires Legal(t, r, sla) && j < |r.Plan(sla)| && !r.Plan(sla)[j].Close?
    ensures var ctx := r.Plan(sla)[j].context;
            && Newest(rows, ctx, i) && Concludes(rows[i], "failure")
            && forall d | 0 <= d < |r.declared| :: !(r.declared[d].check <= ctx)
  {
    PlanFits(t, r, sla, j);
    PagesMean(r.orphans, r.list, r.now, r.oncall, sla, j);
    var ctx := r.Plan(sla)[j].context;
    NewestDecides(rows, ctx);
    i :| Newest(rows, ctx, i) && Concludes(rows[i], "failure");
  }
}
