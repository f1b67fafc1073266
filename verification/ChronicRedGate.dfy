/** The gate as it runs: fetch, decide, and write to the tracker until done or stopped. */
module ChronicRedGate {
  import opened Basics
  import opened Order
  import opened CheckRuns
  import opened ChronicReds
  import opened IssueTracker
  import opened IssueFetch

  /** What can stop a write: the tip had moved, or the request failed, applied or not. */
  datatype Weather = Fair | TipMoved | FailedUnapplied | FailedApplied

  /** `Pass` and `Findings` are exit codes 0 and 1; `CannotRun` is 2. */
  datatype Exit = Pass | Findings | CannotRun

  function Times(clock: nat -> int, n: nat): seq<int> {
    seq(n, (i: nat) => clock(i))
  }

  /** Every write but possibly the last of the first `done` went through; that one at least was applied. */
  ghost predicate FairUpTo(weather: nat -> Weather, done: nat) {
    forall i | 0 <= i < done :: weather(i).Fair? || (i == done - 1 && weather(i).FailedApplied?)
  }

  /** The reason for stopping after `done` of `all` actions. */
  predicate StoppedAt(weather: nat -> Weather, done: nat, all: nat) {
    || (done < all && (weather(done).TipMoved? || weather(done).FailedUnapplied?))
    || (done > 0 && weather(done - 1).FailedApplied?)
  }

  class Gate {
    var tracker: Tracker

    constructor (tracker: Tracker)
      ensures this.tracker == tracker
    {
      this.tracker := tracker;
    }

    /** Lists the open issues, newest first, the first `FETCH_LIMIT` of them. */
    method FetchOrphanIssues() returns (list: seq<OrphanIssue>)
      requires tracker.Valid()
      ensures Listing(list, tracker)
      ensures OpenCount(tracker) <= FETCH_LIMIT ==> IsComplete(list, tracker)
    {
      list := [];
      var n: nat, seen: nat := tracker.next, 0;
      while n > 0 && seen < FETCH_LIMIT
        invariant n <= tracker.next && seen == OpenBetween(tracker, n, tracker.next) <= FETCH_LIMIT
        invariant IsFetch(list, tracker)
        invariant forall i | 0 <= i < |list| :: list[i].number >= n && NewerOpen(tracker, list[i].number) < FETCH_LIMIT
        invariant forall m: nat | m >= n && Fetched(tracker, m).Some? :: Fetched(tracker, m).value in list
        decreases n
      {
        n := n - 1;
        OpenFromBelow(tracker, n, tracker.next);
        if n in tracker.issues && tracker.issues[n].open {
          seen := seen + 1;
          var ctx := ContextOf(tracker.issues[n].title);
          if ctx.Some? {
            var ping := LatestPing(tracker.issues[n].comments);
            list := list + [OrphanIssue(n, ctx.value, tracker.issues[n].createdAt, ping)];
          }
        }
      }
      forall m: nat | Fetched(tracker, m).Some?
        ensures Fetched(tracker, m).value in list <==> NewerOpen(tracker, m) < FETCH_LIMIT
      {
        if m < n {
          FewerFromAbove(tracker, m + 1, n, tracker.next);
        }
      }
      if OpenCount(tracker) <= FETCH_LIMIT {
        SmallListingIsComplete(list, tracker);
      }
    }

    /**
     Executes the actions in order; what it leaves is some prefix of them applied. It stops at the
     first action before which the tip has moved or whose request fails, and writes nothing after it.
     */
    method Execute(actions: seq<Action>, dryRun: bool, weather: nat -> Weather, clock: nat -> int)
      returns (done: nat, ok: bool)
      modifies this
      ensures done <= |actions|
      ensures tracker == if dryRun then old(tracker) else ApplyAll(old(tracker), actions[..done], Times(clock, done))
      ensures ok <==> dryRun || forall i | 0 <= i < |actions| :: weather(i).Fair?
      ensures ok ==> done == |actions|
      ensures !dryRun ==> FairUpTo(weather, done)
      ensures !ok ==> StoppedAt(weather, done, |actions|)
    {
      done := 0;
      while done < |actions|
        invariant done <= |actions|
        invariant tracker == if dryRun then old(tracker)
                             else ApplyAll(old(tracker), actions[..done], Times(clock, done))
        invariant dryRun || forall i | 0 <= i < done :: weather(i).Fair?
      {
        if !dryRun {
          if weather(done).TipMoved? || weather(done).FailedUnapplied? {
            return done, false;
          }
          assert actions[..done + 1][..done] == actions[..done] && Times(clock, done + 1)[..done] == Times(clock, done);
          tracker := Apply(tracker, actions[done], clock(done));
          if weather(done).FailedApplied? {
            return done + 1, false;
          }
        }
        done := done + 1;
      }
      return done, true;
    }

    /**
     One run of the gate. The tracker ends up as after a round, whatever stopped the run; the round is
     legal as long as the fetch saw everything and the clock does not run backwards. The run is stopped
     exactly when the tip has moved or a write fails; otherwise it executes its whole plan, and the exit
     code is 0 exactly when no failing check is an orphan or expired.
     */
    method Run(obs: Checks, declared: seq<Declared>, now: int, oncall: string, sla: int, dryRun: bool,
               tipStable: bool, weather: nat -> Weather, clock: nat -> int) returns (exit: Exit, ghost r: Round)
      requires tracker.Valid()
      modifies this
      ensures |r.times| <= |r.Plan(sla)| && tracker == After(old(tracker), r, sla)
      ensures r.obs == obs && r.declared == declared && r.now == now && r.oncall == oncall
      ensures Listing(r.list, old(tracker)) && Enumerates(r.orphans, obs, declared, now, Orphan)
      ensures OpenCount(old(tracker)) <= FETCH_LIMIT && (forall i :: clock(i) >= now) ==>
                Legal(old(tracker), r, sla)
      ensures exit == CannotRun <==>
                !dryRun && r.Plan(sla) != [] && (!tipStable || exists i | 0 <= i < |r.Plan(sla)| :: !weather(i).Fair?)
      ensures exit != CannotRun ==>
                (exit == Pass <==> forall ctx | Failing(obs, ctx) :: HasStanding(declared, now, ctx, InForce))
      ensures exit != CannotRun && !dryRun ==> r.done == |r.Plan(sla)|
      ensures !dryRun && !tipStable ==> tracker == old(tracker)
      ensures !dryRun && tipStable ==> FairUpTo(weather, |r.times|)
      ensures exit == CannotRun && tipStable ==> StoppedAt(weather, |r.times|, |r.Plan(sla)|)
      ensures dryRun ==> tracker == old(tracker)
    {
      var list := FetchOrphanIssues();
      var c, lapsed := Classify(obs, declared, list, now, oncall, sla);
      var verdict := ExitCode(obs, declared, now, c, lapsed);
      r := Round(obs, declared, c.orphans, list, now, oncall, 0, []);
      if c.actions != [] {
        if !dryRun && !tipStable {
          return CannotRun, r;
        }
        var done, ok := Execute(c.actions, dryRun, weather, clock);
        if !dryRun {
          r := r.(done := done, times := Times(clock, done));
          assert r.times[..done] == r.times;
        }
        if !ok {
          return CannotRun, r;
        }
      }
      return verdict, r;
    }
  }

  /** Orphans and expired declarations are findings. */
  method ExitCode(obs: Checks, declared: seq<Declared>, now: int, c: Classification, ghost lapsed: seq<string>)
    returns (exit: Exit)
    requires Enumerates(c.orphans, obs, declared, now, Orphan)
    requires Enumerates(lapsed, obs, declared, now, Expired) && |c.expired| == |lapsed|
    ensures exit != CannotRun
    ensures exit == Pass <==> forall ctx | Failing(obs, ctx) :: HasStanding(declared, now, ctx, InForce)
  {
    exit := if c.orphans != [] || c.expired != [] then Findings else Pass;
    forall ctx
      ensures HasStanding(declared, now, ctx, InForce) <==>
              !HasStanding(declared, now, ctx, Orphan) && !HasStanding(declared, now, ctx, Expired)
    {
      StandingIff(declared, now, ctx, InForce);
      StandingIff(declared, now, ctx, Orphan);
      StandingIff(declared, now, ctx, Expired);
    }
    hide HasStanding;
    ghost var ctx := if c.orphans != [] then c.orphans[0] else if lapsed != [] then lapsed[0] else "";
    assert exit == Findings ==> ctx in c.orphans || ctx in lapsed;
  }
}
