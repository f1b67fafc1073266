/** The backup manager as it works on its database and its directory, step by step. */
module BackupManager {
  import opened BackupLog

  predicate StartedBefore(log: Log, a: nat, b: nat) {
    a in log.rows && b in log.rows && log.rows[a].startedAt <= log.rows[b].startedAt
  }

  ghost predicate Distinct(s: seq<nat>) {
    forall i, j | 0 <= i < j < |s| :: s[i] != s[j]
  }

  ghost predicate InOrder(log: Log, s: seq<nat>) {
    forall i, j | 0 <= i < j < |s| :: StartedBefore(log, s[i], s[j])
  }

  function Elements(s: seq<nat>): set<nat> {
    set x | x in s
  }

  /** The ids of the completed rows, each once, in an order of `startedAt` that leaves ties open. */
  ghost predicate ByAge(log: Log, entries: seq<nat>) {
    Distinct(entries) && InOrder(log, entries) && Elements(entries) == log.Done()
  }

  lemma ElementsConcat(a: seq<nat>, b: seq<nat>)
    ensures Elements(a + b) == Elements(a) + Elements(b)
  {
  }

  lemma {:induction false} DistinctSize(s: seq<nat>)
    requires Distinct(s)
    ensures |Elements(s)| == |s|
  {
    if s != [] {
      var n := |s| - 1;
      DistinctSize(s[..n]);
      ElementsConcat(s[..n], [s[n]]);
      assert s == s[..n] + [s[n]];
      assert Elements([s[n]]) == {s[n]} && s[n] !in s[..n];
    }
  }

  lemma HalvesAreDisjoint(s: seq<nat>, n: nat)
    requires Distinct(s) && n <= |s|
    ensures Elements(s) - Elements(s[..n]) == Elements(s[n..]) && Elements(s[..n]) <= Elements(s)
  {
    assert s == s[..n] + s[n..];
    ElementsConcat(s[..n], s[n..]);
    forall x | x in Elements(s[n..])
      ensures x !in Elements(s[..n])
    {
      var j :| 0 <= j < |s[n..]| && s[n..][j] == x;
      assert s[n + j] == x;
    }
  }

  /** Dropping all but the last `retain` of the rows by age is a legal prune. */
  lemma OldestArePrunable(log: Log, retain: nat, entries: seq<nat>, n: nat)
    requires ByAge(log, entries) && n == (if |entries| <= retain then 0 else |entries| - retain)
    ensures Prunable(log, retain, Elements(entries[..n]))
  {
    var gone, kept := Elements(entries[..n]), Elements(entries[n..]);
    DistinctSize(entries);
    DistinctSize(entries[n..]);
    HalvesAreDisjoint(entries, n);
    forall d, k | d in gone && k in kept
      ensures log.rows[d].startedAt <= log.rows[k].startedAt
    {
      OrderedHalves(log, entries, n, d, k);
    }
  }

  lemma OrderedHalves(log: Log, s: seq<nat>, n: nat, d: nat, k: nat)
    requires InOrder(log, s) && n <= |s| && d in Elements(s[..n]) && k in Elements(s[n..])
    ensures StartedBefore(log, d, k)
  {
    var i :| 0 <= i < n && s[..n][i] == d;
    var j :| 0 <= j < |s| - n && s[n..][j] == k;
    assert StartedBefore(log, s[i], s[n + j]);
  }

  /** Puts `x` behind every row that is not newer. */
  function Place(log: Log, x: nat, s: seq<nat>): seq<nat> {
    if s == [] then [x]
    else if StartedBefore(log, x, s[0]) then [x] + s
    else [s[0]] + Place(log, x, s[1..])
  }

  lemma {:induction false} PlaceKeepsOrder(log: Log, x: nat, s: seq<nat>)
    requires x in log.rows && x !in s && InOrder(log, s) && Distinct(s) && Elements(s) <= log.rows.Keys
    ensures InOrder(log, Place(log, x, s)) && Distinct(Place(log, x, s))
    ensures Elements(Place(log, x, s)) == Elements(s) + {x}
  {
    hide Log.Done;
    if s != [] {
      assert forall j | 0 <= j < |s| :: s[j] in Elements(s);
      if StartedBefore(log, x, s[0]) {
        forall j | 0 <= j < |s|
          ensures StartedBefore(log, x, s[j])
        {
          assert j > 0 ==> StartedBefore(log, s[0], s[j]);
        }
        ElementsConcat([x], s);
      } else {
        assert s == [s[0]] + s[1..];
        ElementsConcat([s[0]], s[1..]);
        PlaceKeepsOrder(log, x, s[1..]);
        var t := Place(log, x, s[1..]);
        forall j | 0 <= j < |t|
          ensures StartedBefore(log, s[0], t[j]) && s[0] != t[j]
        {
          assert t[j] in Elements(t);
        }
        ElementsConcat([s[0]], t);
      }
    }
  }

  lemma TakeOneMore(s: seq<nat>, i: nat, n: nat)
    requires i < n <= |s|
    ensures Elements(s[..i + 1]) == Elements(s[..i]) + {s[i]} && s[i] in Elements(s[..n])
  {
    assert s[..i + 1] == s[..i] + [s[i]];
    ElementsConcat(s[..i], [s[i]]);
    assert s[..n][i] == s[i];
  }

  /** The first `i` of the rows to delete are gone, and so are their files, except those that are stuck. */
  ghost predicate Deleted(before: Log, entries: seq<nat>, i: nat, stuck: set<string>, rows: map<nat, Row>,
                          files: set<string>)
    requires i <= |entries|
  {
    && rows == before.rows - Elements(entries[..i])
    && files == before.files - (Paths(before, Elements(entries[..i])) - stuck)
  }

  lemma DeleteOneMore(before: Log, entries: seq<nat>, i: nat, stuck: set<string>, rows: map<nat, Row>,
                      files: set<string>)
    requires i < |entries| && Distinct(entries) && entries[i] in before.rows
    requires Deleted(before, entries, i, stuck, rows, files)
    ensures var path := before.rows[entries[i]].path;
            && entries[i] in rows && rows[entries[i]].path == path
            && Deleted(before, entries, i + 1, stuck, rows - {entries[i]},
                       if path in stuck then files else files - {path})
  {
    var id := entries[i];
    assert id !in Elements(entries[..i]);
    TakeOneMore(entries, i, |entries|);
    hide Elements, Distinct;
    var gone, gone' := Elements(entries[..i]), Elements(entries[..i + 1]);
    assert Paths(before, gone') == Paths(before, gone) + {before.rows[id].path};
  }

  lemma DeleteNothing(before: Log, entries: seq<nat>, stuck: set<string>)
    ensures Deleted(before, entries, 0, stuck, before.rows, before.files)
  {
    assert Elements(entries[..0]) == {};
  }

  lemma AllDeleted(before: Log, retain: nat, entries: seq<nat>, n: nat, stuck: set<string>, after: Log)
    requires n <= |entries| && Prunable(before, retain, Elements(entries[..n])) && after.next == before.next
    requires Deleted(before, entries, n, stuck, after.rows, after.files)
    ensures Pruned(before, retain, Elements(entries[..n]), stuck, after)
  {
    hide Elements, Prunable;
  }

  lemma EntriesAreRows(log: Log, entries: seq<nat>)
    requires ByAge(log, entries)
    ensures Distinct(entries) && forall i | 0 <= i < |entries| :: entries[i] in log.rows
  {
    assert forall i | 0 <= i < |entries| :: entries[i] in Elements(entries);
  }

  class Manager {
    const retain: nat
    var rows: map<nat, Row>
    var next: nat
    var files: set<string>

    constructor (retain: nat)
      ensures this.retain == retain && Current() == Log(map[], 0, {})
    {
      this.retain := retain;
      rows, next, files := map[], 0, {};
    }

    function Current(): Log
      reads this
    {
      Log(rows, next, files)
    }

    /** The query behind a prune; nothing is promised about rows started at the same time. */
    method CompletedByAge() returns (entries: seq<nat>)
      ensures ByAge(Current(), entries)
    {
      entries := [];
      var left := Current().Done();
      while left != {}
        invariant left <= Current().Done() && InOrder(Current(), entries) && Distinct(entries)
        invariant Elements(entries) == Current().Done() - left
        decreases left
      {
        var x :| x in left;
        PlaceKeepsOrder(Current(), x, entries);
        entries := Place(Current(), x, entries);
        left := left - {x};
      }
    }

    /** Deletes the oldest completed rows beyond the retention count, with their files unless they are stuck. */
    method Prune(stuck: set<string>) returns (ghost gone: set<nat>)
      modifies this`rows, this`files
      ensures Pruned(old(Current()), retain, gone, stuck, Current())
    {
      hide ByAge, Deleted, Distinct, Prunable, Pruned, Elements;
      var entries := CompletedByAge();
      var n := if |entries| <= retain then 0 else |entries| - retain;
      ghost var before := Current();
      gone := Elements(entries[..n]);
      EntriesAreRows(before, entries);
      OldestArePrunable(before, retain, entries, n);
      DeleteNothing(before, entries, stuck);
      for i := 0 to n
        invariant next == before.next && Deleted(before, entries, i, stuck, rows, files)
      {
        var id := entries[i];
        DeleteOneMore(before, entries, i, stuck, rows, files);
        if rows[id].path !in stuck {
          files := files - {rows[id].path};
        }
        rows := rows - {id};
      }
      AllDeleted(before, retain, entries, n, stuck, Current());
    }

    /** One backup to `path`, started at `at`; it reports whether it succeeded. */
    method RunBackup(path: string, at: int, outcome: Outcome, stuck: set<string>)
      returns (ok: bool, ghost gone: set<nat>)
      modifies this
      ensures Backup(old(Current()), retain, path, at, outcome, gone, stuck, Current())
      ensures ok <==> Vacuums(old(Current()), path, outcome)
    {
      hide Pruned, Prunable;
      gone := {};
      var id := next;
      rows, next := rows[id := Row(path, Running, at)], next + 1;
      if outcome.Succeeds? && path !in files {
        files := files + {path};
        rows := rows[id := rows[id].(status := Completed)];
        gone := Prune(stuck);
        return true, gone;
      }
      if !outcome.Succeeds? && outcome.leavesFile {
        files := files + {path};
      }
      if !outcome.Dies? {
        rows := rows[id := rows[id].(status := Failed)];
      }
      return false, gone;
    }
  }
}
