/**
 The backup log and its retention: what one backup does to the log and the backup directory, and
 what any sequence of backups keeps.
 */
module BackupLog {

  datatype Status = Running | Completed | Failed

  datatype Row = Row(path: string, status: Status, startedAt: int)

  /** The `backup_log` table by id, the next id, and the files in the backup directory. */
  datatype Log = Log(rows: map<nat, Row>, next: nat, files: set<string>)
  {
    /** Ids are handed out upwards; completed backups have their files, one each. */
    ghost predicate Valid() {
      && (forall id | id in rows :: id < next)
      && (forall id | id in Done() :: rows[id].path in files)
      && (forall a, b | a in Done() && b in Done() && rows[a].path == rows[b].path :: a == b)
    }

    /** The ids of the completed backups. */
    function Done(): set<nat> {
      set id | id in rows && rows[id].status == Completed
    }
  }

  /** How `VACUUM INTO` and the process fared. A failure or a crash may leave a partial file behind. */
  datatype Outcome = Succeeds | Fails(leavesFile: bool) | Dies(leavesFile: bool)

  function Min(a: nat, b: nat): nat {
    if a < b then a else b
  }

  // ----- Pruning -----

  /** `gone` could be pruned from the log: the right number of completed rows, none newer than one kept. */
  ghost predicate Prunable(log: Log, retain: nat, gone: set<nat>) {
    && gone <= log.Done()
    && |log.Done() - gone| == Min(|log.Done()|, retain)
    && forall d, k | d in gone && k in log.Done() - gone :: log.rows[d].startedAt <= log.rows[k].startedAt
  }

  /** The pruned rows go, and so do their files, except those that cannot be removed, `stuck`; nothing else goes. */
  ghost predicate Pruned(log: Log, retain: nat, gone: set<nat>, stuck: set<string>, log': Log) {
    && Prunable(log, retain, gone)
    && log'.rows == log.rows - gone && log'.next == log.next
    && log'.files == log.files - (Paths(log, gone) - stuck)
  }

  function Paths(log: Log, ids: set<nat>): set<string> {
    set id | id in ids && id in log.rows :: log.rows[id].path
  }

  lemma PruneKeepsValid(log: Log, retain: nat, gone: set<nat>, stuck: set<string>, log': Log)
    requires log.Valid() && Pruned(log, retain, gone, stuck, log')
    ensures log'.Valid() && log'.Done() == log.Done() - gone && |log'.Done()| == Min(|log.Done()|, retain)
  {
    assert log'.Done() == log.Done() - gone;
    forall id | id in log'.Done()
      ensures log'.rows[id].path in log'.files
    {
      KeptPathStays(log, gone, id);
    }
  }

  lemma KeptPathStays(log: Log, gone: set<nat>, id: nat)
    requires log.Valid() && gone <= log.Done() && id in log.Done() - gone
    ensures log.rows[id].path in log.files - Paths(log, gone)
  {
    if d :| d in gone && d in log.rows && log.rows[d].path == log.rows[id].path {
      assert false;
    }
  }

  // ----- One backup -----

  /** The row is inserted as running, before anything else happens. */
  function Started(log: Log, path: string, at: int): Log {
    Log(log.rows[log.next := Row(path, Running, at)], log.next + 1, log.files)
  }

  function WithStatus(log: Log, id: nat, status: Status, files: set<string>): Log
    requires id in log.rows
  {
    log.(rows := log.rows[id := log.rows[id].(status := status)], files := files)
  }

  /** `VACUUM INTO` refuses a target that exists. */
  predicate Vacuums(log: Log, path: string, outcome: Outcome) {
    outcome.Succeeds? && path !in log.files
  }

  function Littered(log: Log, path: string, outcome: Outcome): set<string> {
    if !outcome.Succeeds? && outcome.leavesFile then log.files + {path} else log.files
  }

  /** The log after the attempt itself, before pruning. */
  function Attempted(log: Log, path: string, at: int, outcome: Outcome): Log {
    var started := Started(log, path, at);
    if Vacuums(log, path, outcome) then WithStatus(started, log.next, Completed, log.files + {path})
    else if outcome.Dies? then started.(files := Littered(log, path, outcome))
    else WithStatus(started, log.next, Failed, Littered(log, path, outcome))
  }

  /** One backup: the attempt, and after a success a prune of the rows `gone` and of their files but for `stuck`. */
  ghost predicate Backup(log: Log, retain: nat, path: string, at: int, outcome: Outcome, gone: set<nat>,
                         stuck: set<string>, log': Log)
  {
    var tried := Attempted(log, path, at, outcome);
    if Vacuums(log, path, outcome) then Pruned(tried, retain, gone, stuck, log') else gone == {} && log' == tried
  }

  lemma AttemptKeepsValid(log: Log, path: string, at: int, outcome: Outcome)
    requires log.Valid()
    ensures var tried := Attempted(log, path, at, outcome);
            && tried.Valid()
            && tried.Done() == (if Vacuums(log, path, outcome) then log.Done() + {log.next} else log.Done())
            && (forall id | id in log.rows :: id in tried.rows && tried.rows[id] == log.rows[id])
            && tried.rows.Keys == log.rows.Keys + {log.next} && tried.rows[log.next].startedAt == at
  {
    var tried := Attempted(log, path, at, outcome);
    assert tried.Done() == if Vacuums(log, path, outcome) then log.Done() + {log.next} else log.Done();
  }

  /**
   One backup keeps the log valid. A success leaves one completed row more, up to the retention
   count; anything else leaves as many as before. Rows that were not completed are not touched.
   */
  lemma BackupKeeps(log: Log, retain: nat, path: string, at: int, outcome: Outcome, gone: set<nat>,
                    stuck: set<string>, log': Log)
    requires log.Valid() && Backup(log, retain, path, at, outcome, gone, stuck, log')
    ensures log'.Valid()
    ensures |log'.Done()| == if Vacuums(log, path, outcome) then Min(|log.Done()| + 1, retain) else |log.Done()|
    ensures forall id | id in log.rows && log.rows[id].status != Completed ::
              id in log'.rows && log'.rows[id] == log.rows[id]
    ensures forall id | id in log'.rows && id != log.next :: id in log.rows && log'.rows[id] == log.rows[id]
    ensures log.next in log'.rows ==> log'.rows[log.next].startedAt == at
  {
    hide Log.Valid, Log.Done, Backup, Vacuums, Min;
    BackupKeepsRows(log, retain, path, at, outcome, gone, stuck, log');
    BackupCounts(log, retain, path, at, outcome, gone, stuck, log');
  }

  lemma BackupCounts(log: Log, retain: nat, path: string, at: int, outcome: Outcome, gone: set<nat>,
                     stuck: set<string>, log': Log)
    requires log.Valid() && Backup(log, retain, path, at, outcome, gone, stuck, log')
    ensures log'.Valid()
    ensures |log'.Done()| == if Vacuums(log, path, outcome) then Min(|log.Done()| + 1, retain) else |log.Done()|
  {
    hide Log.Valid, Log.Done, Attempted, Pruned, Vacuums;
    AttemptKeepsValid(log, path, at, outcome);
    DoneMeans(log);
    if Vacuums(log, path, outcome) {
      PruneKeepsValid(Attempted(log, path, at, outcome), retain, gone, stuck, log');
    }
  }

  lemma BackupKeepsRows(log: Log, retain: nat, path: string, at: int, outcome: Outcome, gone: set<nat>,
                        stuck: set<string>, log': Log)
    requires log.Valid() && Backup(log, retain, path, at, outcome, gone, stuck, log')
    ensures forall id | id in log.rows && log.rows[id].status != Completed ::
              id in log'.rows && log'.rows[id] == log.rows[id]
    ensures forall id | id in log'.rows && id != log.next :: id in log.rows && log'.rows[id] == log.rows[id]
    ensures log.next in log'.rows ==> log'.rows[log.next].startedAt == at
  {
    hide Log.Valid, Log.Done, Attempted, Paths, Vacuums, Min;
    AttemptKeepsValid(log, path, at, outcome);
    DoneMeans(log);
  }

  lemma DoneMeans(log: Log)
    requires log.Valid()
    ensures log.next !in log.rows && log.next !in log.Done()
    ensures forall id | id in log.rows && log.rows[id].status != Completed :: id !in log.Done()
  {
  }

  // ----- Runs -----

  datatype Event = Event(path: string, at: int, outcome: Outcome, gone: set<nat>, stuck: set<string>)

  ghost predicate StepAt(logs: seq<Log>, events: seq<Event>, retain: nat, i: nat)
    requires i < |events| && |logs| == |events| + 1
  {
    var e := events[i];
    Backup(logs[i], retain, e.path, e.at, e.outcome, e.gone, e.stuck, logs[i + 1])
  }

  ghost predicate IsRun(logs: seq<Log>, events: seq<Event>, retain: nat) {
    && |logs| == |events| + 1
    && forall i | 0 <= i < |events| :: StepAt(logs, events, retain, i)
  }

  /** The number of backups among the first `n` events that succeeded. */
  function Successes(logs: seq<Log>, events: seq<Event>, n: nat): nat
    requires n <= |events| < |logs|
  {
    if n == 0 then 0
    else
      Successes(logs, events, n - 1)
      + (if Vacuums(logs[n - 1], events[n - 1].path, events[n - 1].outcome) then 1 else 0)
  }

  /**
   From an empty log, after any backups, successful or not, the log has as many completed rows as
   there were successes, up to the retention count, and each of them has a file of its own.
   */
  lemma {:induction false} RetentionHolds(logs: seq<Log>, events: seq<Event>, retain: nat, n: nat)
    requires IsRun(logs, events, retain) && logs[0].rows == map[] && n <= |events|
    ensures logs[n].Valid()
    ensures |logs[n].Done()| == Min(Successes(logs, events, n), retain)
  {
    if n > 0 {
      RetentionHolds(logs, events, retain, n - 1);
      assert StepAt(logs, events, retain, n - 1);
      var e := events[n - 1];
      BackupKeeps(logs[n - 1], retain, e.path, e.at, e.outcome, e.gone, e.stuck, logs[n]);
    }
  }

  // ----- Attempts that did not succeed -----

  /** The row of an attempt that did not succeed: running after a crash, failed otherwise. */
  predicate RecordsFailure(row: Row, e: Event) {
    row.path == e.path && row.startedAt == e.at && row.status == if e.outcome.Dies? then Running else Failed
  }

  lemma AttemptRow(log: Log, retain: nat, e: Event, log': Log)
    requires Backup(log, retain, e.path, e.at, e.outcome, e.gone, e.stuck, log')
    ensures !Vacuums(log, e.path, e.outcome) ==> log.next in log'.rows && RecordsFailure(log'.rows[log.next], e)
    ensures log.next in log'.rows && log'.rows[log.next].status == Running ==> e.outcome.Dies?
  {
  }

  /** Over any run, an attempt that did not succeed keeps its row for good. */
  lemma {:induction false} FailureIsRecorded(logs: seq<Log>, events: seq<Event>, retain: nat, i: nat, n: nat)
    requires IsRun(logs, events, retain) && logs[0].rows == map[] && i < n <= |events|
    requires !events[i].outcome.Succeeds? || events[i].path in logs[i].files
    ensures logs[i].next in logs[n].rows && RecordsFailure(logs[n].rows[logs[i].next], events[i])
  {
    var e := events[n - 1];
    assert StepAt(logs, events, retain, n - 1);
    if n == i + 1 {
      AttemptRow(logs[i], retain, e, logs[n]);
    } else {
      FailureIsRecorded(logs, events, retain, i, n - 1);
      RetentionHolds(logs, events, retain, n - 1);
      BackupKeeps(logs[n - 1], retain, e.path, e.at, e.outcome, e.gone, e.stuck, logs[n]);
    }
  }

  /** ... and a row that says running was left by a crash. */
  lemma {:induction false} RunningMeansCrashed(logs: seq<Log>, events: seq<Event>, retain: nat, n: nat, id: nat)
    returns (i: nat)
    requires IsRun(logs, events, retain) && logs[0].rows == map[] && n <= |events|
    requires id in logs[n].rows && logs[n].rows[id].status == Running
    ensures i < n && logs[i].next == id && events[i].outcome.Dies?
  {
    hide Backup;
    var e := events[n - 1];
    assert StepAt(logs, events, retain, n - 1);
    RetentionHolds(logs, events, retain, n - 1);
    BackupKeeps(logs[n - 1], retain, e.path, e.at, e.outcome, e.gone, e.stuck, logs[n]);
    AttemptRow(logs[n - 1], retain, e, logs[n]);
    if id == logs[n - 1].next {
      i := n - 1;
    } else {
      i := RunningMeansCrashed(logs, events, retain, n - 1, id);
    }
  }

  // ----- The backup directory -----

  /** Event `i` left the file behind: a partial file of an attempt, or one that its prune could not remove. */
  ghost predicate LeftBy(logs: seq<Log>, events: seq<Event>, i: nat, file: string)
    requires i < |events| < |logs|
  {
    var e := events[i];
    || (!e.outcome.Succeeds? && e.outcome.leavesFile && file == e.path)
    || (file in e.stuck && file in Paths(Attempted(logs[i], e.path, e.at, e.outcome), e.gone))
  }

  lemma FileOfStep(log: Log, retain: nat, e: Event, log': Log, file: string)
    requires log.Valid() && Backup(log, retain, e.path, e.at, e.outcome, e.gone, e.stuck, log')
    requires file in log'.files && file !in Paths(log', log'.Done())
    ensures || (file in log.files && file !in Paths(log, log.Done()))
            || (!e.outcome.Succeeds? && e.outcome.leavesFile && file == e.path)
            || (file in e.stuck && file in Paths(Attempted(log, e.path, e.at, e.outcome), e.gone))
  {
    var tried := Attempted(log, e.path, e.at, e.outcome);
    AttemptKeepsValid(log, e.path, e.at, e.outcome);
    if Vacuums(log, e.path, e.outcome) {
      PruneKeepsValid(tried, retain, e.gone, e.stuck, log');
      if d :| d in tried.Done() && tried.rows[d].path == file {
        assert d in e.gone || d in log'.Done();
      }
    }
  }

  /**
   Over any run from an empty log and an empty directory, a file that belongs to no completed backup
   was left behind by one of the events.
   */
  lemma {:induction false} OtherFilesAreLeftovers(logs: seq<Log>, events: seq<Event>, retain: nat, n: nat, file: string)
    returns (i: nat)
    requires IsRun(logs, events, retain) && logs[0].rows == map[] && logs[0].files == {} && n <= |events|
    requires file in logs[n].files && file !in Paths(logs[n], logs[n].Done())
    ensures i < n && LeftBy(logs, events, i, file)
  {
    hide Backup, Attempted, Paths;
    RetentionHolds(logs, events, retain, n - 1);
    assert StepAt(logs, events, retain, n - 1);
    FileOfStep(logs[n - 1], retain, events[n - 1], logs[n], file);
    if LeftBy(logs, events, n - 1, file) {
      i := n - 1;
    } else {
      i := OtherFilesAreLeftovers(logs, events, retain, n - 1, file);
    }
  }

  /** No attempt leaves a partial file, and every removal works. */
  ghost predicate Tidy(events: seq<Event>) {
    forall i | 0 <= i < |events| ::
      events[i].stuck == {} && (events[i].outcome.Succeeds? || !events[i].outcome.leavesFile)
  }

  /** Then the directory holds exactly the files of the completed backups: pruning leaves nothing behind. */
  lemma DirectoryIsExact(logs: seq<Log>, events: seq<Event>, retain: nat, n: nat)
    requires IsRun(logs, events, retain) && logs[0].rows == map[] && logs[0].files == {} && n <= |events|
    requires Tidy(events)
    ensures logs[n].files == Paths(logs[n], logs[n].Done())
  {
    RetentionHolds(logs, events, retain, n);
    forall file | file in logs[n].files
      ensures file in Paths(logs[n], logs[n].Done())
    {
      if file !in Paths(logs[n], logs[n].Done()) {
        var i := OtherFilesAreLeftovers(logs, events, retain, n, file);
        assert false;
      }
    }
  }

  ghost predicate ClockRunsForward(events: seq<Event>) {
    forall i, j | 0 <= i <= j < |events| :: events[i].at <= events[j].at
  }

  /** Every row of the log was started by one of the first `n` events. */
  lemma {:induction false} RowsAreFromEvents(logs: seq<Log>, events: seq<Event>, retain: nat, n: nat, id: nat)
    requires IsRun(logs, events, retain) && logs[0].rows == map[] && 0 < n <= |events|
    requires ClockRunsForward(events) && id in logs[n].rows
    ensures logs[n].rows[id].startedAt <= events[n - 1].at
  {
    hide Backup, Vacuums, Min;
    RetentionHolds(logs, events, retain, n - 1);
    assert StepAt(logs, events, retain, n - 1);
    var e := events[n - 1];
    BackupKeeps(logs[n - 1], retain, e.path, e.at, e.outcome, e.gone, e.stuck, logs[n]);
    if id != logs[n - 1].next {
      assert n - 1 > 0;
      RowsAreFromEvents(logs, events, retain, n - 1, id);
      assert events[n - 2].at <= e.at;
    }
  }

  /**
   With a clock that does not run backwards, no surviving backup is older than any backup that was
   ever pruned, whichever way ties were broken.
   */
  lemma {:induction false} SurvivorsAreNewer(logs: seq<Log>, events: seq<Event>, retain: nat, i: nat, n: nat,
                                             d: nat, k: nat)
    requires IsRun(logs, events, retain) && logs[0].rows == map[] && ClockRunsForward(events)
    requires i < n <= |events| && d in events[i].gone && k in logs[n].Done()
    ensures var tried := Attempted(logs[i], events[i].path, events[i].at, events[i].outcome);
            d in tried.rows && tried.rows[d].startedAt <= logs[n].rows[k].startedAt
  {
    var tried := Attempted(logs[i], events[i].path, events[i].at, events[i].outcome);
    RetentionHolds(logs, events, retain, n - 1);
    assert StepAt(logs, events, retain, n - 1);
    var e := events[n - 1];
    BackupKeeps(logs[n - 1], retain, e.path, e.at, e.outcome, e.gone, e.stuck, logs[n]);
    if n == i + 1 {
      RetentionHolds(logs, events, retain, i);
      AttemptKeepsValid(logs[i], events[i].path, events[i].at, events[i].outcome);
      PruneKeepsValid(tried, retain, events[i].gone, events[i].stuck, logs[n]);
    } else if k == logs[n - 1].next {
      PrunedIsOld(logs, events, retain, i, d);
    } else {
      assert k in logs[n - 1].Done();
      SurvivorsAreNewer(logs, events, retain, i, n - 1, d, k);
    }
  }

  lemma PrunedIsOld(logs: seq<Log>, events: seq<Event>, retain: nat, i: nat, d: nat)
    requires IsRun(logs, events, retain) && logs[0].rows == map[] && ClockRunsForward(events)
    requires i < |events| && d in events[i].gone
    ensures var tried := Attempted(logs[i], events[i].path, events[i].at, events[i].outcome);
            d in tried.rows && tried.rows[d].startedAt <= events[i].at
  {
    assert StepAt(logs, events, retain, i);
    RetentionHolds(logs, events, retain, i);
    AttemptKeepsValid(logs[i], events[i].path, events[i].at, events[i].outcome);
    if d != logs[i].next {
      RowsAreFromEvents(logs, events, retain, i, d);
    }
  }

  // ----- Does the backup that was just reported survive? -----

  /** The other completed rows that are not older than `id`. */
  function NotOlder(log: Log, id: nat): set<nat>
    requires id in log.rows
  {
    set k | k in log.Done() && k != id && log.rows[k].startedAt >= log.rows[id].startedAt
  }

  /** Whatever the tie-break, the row is not pruned. */
  ghost predicate AlwaysKept(log: Log, retain: nat, id: nat) {
    forall gone | Prunable(log, retain, gone) :: id !in gone
  }

  lemma SubsetSize(a: set<nat>, b: set<nat>)
    requires a <= b
    ensures |a| <= |b|
  {
    assert b == a + (b - a);
  }

  lemma KeptWhenFewNotOlder(log: Log, retain: nat, id: nat, gone: set<nat>)
    requires id in log.Done() && Prunable(log, retain, gone) && id in gone
    ensures |NotOlder(log, id)| >= retain
  {
    var kept := log.Done() - gone;
    SubsetSize(kept, NotOlder(log, id));
    if |log.Done()| < retain {
      SubsetSize(kept, log.Done() - {id});
    }
  }

  /** The `n` newest of a set of rows. */
  lemma {:induction false} Newest(log: Log, from: set<nat>, n: nat) returns (top: set<nat>)
    requires from <= log.rows.Keys && n <= |from|
    ensures top <= from && |top| == n
    ensures forall d, k | d in from - top && k in top :: log.rows[d].startedAt <= log.rows[k].startedAt
  {
    if n == 0 {
      top := {};
    } else {
      var m := NewestOne(log, from);
      var others := Newest(log, from - {m}, n - 1);
      top := others + {m};
      assert from - top == (from - {m}) - others;
    }
  }

  lemma {:induction false} NewestOne(log: Log, from: set<nat>) returns (m: nat)
    requires from <= log.rows.Keys && from != {}
    ensures m in from && forall d | d in from :: log.rows[d].startedAt <= log.rows[m].startedAt
    decreases |from|
  {
    m :| m in from;
    if from != {m} {
      var k := NewestOne(log, from - {m});
      if log.rows[k].startedAt > log.rows[m].startedAt {
        m := k;
      }
    }
  }

  /**
   A successful backup reports the path of its file, but the prune that follows may delete that very
   file. It is certain to survive exactly when fewer completed rows than the retention count are
   not older; in particular never with a retention count of 0, and always with a positive one when
   it is strictly the newest.
   */
  lemma AlwaysKeptIff(log: Log, retain: nat, id: nat)
    requires id in log.Done()
    ensures AlwaysKept(log, retain, id) <==> |NotOlder(log, id)| < retain
    ensures retain > 0 && NotOlder(log, id) == {} ==> AlwaysKept(log, retain, id)
    ensures retain == 0 ==> !AlwaysKept(log, retain, id)
  {
    if |NotOlder(log, id)| < retain {
      forall gone | Prunable(log, retain, gone)
        ensures id !in gone
      {
        if id in gone {
          KeptWhenFewNotOlder(log, retain, id, gone);
        }
      }
    } else {
      var gone := WorstPrune(log, retain, id);
    }
  }

  lemma WorstPrune(log: Log, retain: nat, id: nat) returns (gone: set<nat>)
    requires id in log.Done() && |NotOlder(log, id)| >= retain
    ensures Prunable(log, retain, gone) && id in gone
  {
    var done := log.Done();
    var others := done - {id};
    SubsetSize(NotOlder(log, id), others);
    var top := Newest(log, others, retain);
    gone := done - top;
    assert done - gone == top;
    forall k | k in top
      ensures log.rows[id].startedAt <= log.rows[k].startedAt
    {
      if log.rows[k].startedAt < log.rows[id].startedAt {
        SubsetSize(NotOlder(log, id), top - {k});
      }
    }
    forall d, k | d in gone && k in done - gone
      ensures log.rows[d].startedAt <= log.rows[k].startedAt
    {
      if d != id {
        assert d in others - top;
      }
    }
  }

  /** A log whose only row is a completed backup, in a directory with its file. */
  function Single(path: string, at: int, next: nat): Log {
    Log(map[0 := Row(path, Completed, at)], next, {path})
  }

  lemma FirstBackup(a: string, at: int)
    ensures Backup(Log(map[], 0, {}), 1, a, at, Succeeds, {}, {}, Single(a, at, 1))
  {
    var tried := Attempted(Log(map[], 0, {}), a, at, Succeeds);
    assert tried == Single(a, at, 1) && tried.Done() == {0};
    assert tried.Done() - {} == {0} && tried.rows - {} == tried.rows && Paths(tried, {}) == {};
  }

  lemma SecondBackup(a: string, b: string, at: int)
    requires a != b
    ensures Backup(Single(a, at, 1), 1, b, at, Succeeds, {1}, {}, Single(a, at, 2))
  {
    var tried := Attempted(Single(a, at, 1), b, at, Succeeds);
    assert tried == Log(map[0 := Row(a, Completed, at), 1 := Row(b, Completed, at)], 2, {a, b});
    assert tried.Done() == {0, 1} && tried.Done() - {1} == {0} && Paths(tried, {1}) == {b};
    assert tried.rows - {1} == Single(a, at, 2).rows && {a, b} - ({b} - {}) == {a};
  }

  /**
   From an empty log, with a retention count of 1: two backups that start at the same time both succeed,
   and the second one deletes its own row and the file whose path it reports.
   */
  lemma SecondBackupPrunesItself(a: string, b: string, at: int) returns (logs: seq<Log>, events: seq<Event>)
    requires a != b
    ensures IsRun(logs, events, 1) && logs == [Log(map[], 0, {}), Single(a, at, 1), Single(a, at, 2)]
    ensures Vacuums(logs[1], events[1].path, events[1].outcome) && events[1].path == b && b !in logs[2].files
  {
    hide Backup;
    events := [Event(a, at, Succeeds, {}, {}), Event(b, at, Succeeds, {1}, {})];
    logs := [Log(map[], 0, {}), Single(a, at, 1), Single(a, at, 2)];
    FirstBackup(a, at);
    SecondBackup(a, b, at);
    assert StepAt(logs, events, 1, 0) && StepAt(logs, events, 1, 1);
  }
}
