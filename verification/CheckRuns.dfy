/**
 Reading the check runs of a commit, page by page, and keeping the newest run of each check.
 */
module CheckRuns {
  import opened Basics

  const PAGE_SIZE: nat := 100
  const MAX_PAGES: nat := 20

  datatype Observation = Observation(status: string, conclusion: Option<string>)

  /** A JSON field: absent or null, a string, or something of another type. */
  datatype Field = Absent | Text(text: string) | OtherType

  /** An entry of the check-runs list; `id` is `None` when it is not an integer. */
  datatype Row = NotAnObject | Row(id: Option<int>, name: Field, status: Field, conclusion: Field)

  predicate NonEmptyText(f: Field) {
    f.Text? && f.text != ""
  }

  predicate Valid(r: Row) {
    && r.Row? && r.id.Some? && NonEmptyText(r.name) && NonEmptyText(r.status)
    && !r.conclusion.OtherType?
    && (r.status.text == "completed" ==> NonEmptyText(r.conclusion))
  }

  /** The rows that can be read, by the forms a row can have. */
  lemma ValidRows(id: int, name: string, status: string, conclusion: string, r: Row)
    ensures Valid(Row(Some(id), Text(name), Text(status), Absent)) <==>
            name != "" && status != "" && status != "completed"
    ensures Valid(Row(Some(id), Text(name), Text(status), Text(conclusion))) <==>
            name != "" && status != "" && (conclusion != "" || status != "completed")
    ensures Valid(r) ==>
              r.Row? && r.id.Some? && r.name.Text? && r.status.Text? && (r.conclusion.Text? || r.conclusion.Absent?)
  {
  }

  predicate AllValid(rows: seq<Row>) {
    forall i | 0 <= i < |rows| :: Valid(rows[i])
  }

  function Observed(r: Row): Observation
    requires Valid(r)
  {
    Observation(r.status.text, if r.conclusion.Text? then Some(r.conclusion.text) else None)
  }

  type Kept = map<string, (int, Observation)>

  /** A run replaces the kept one of the same name when its id is greater. */
  function Keep(kept: Kept, r: Row): Kept
    requires Valid(r)
  {
    if r.name.text !in kept || r.id.value > kept[r.name.text].0
    then kept[r.name.text := (r.id.value, Observed(r))]
    else kept
  }

  function KeepAll(rows: seq<Row>): Kept
    requires AllValid(rows)
  {
    if rows == [] then map[] else Keep(KeepAll(rows[..|rows| - 1]), rows[|rows| - 1])
  }

  predicate Named(r: Row, name: string) {
    Valid(r) && r.name.text == name
  }

  /** Row `i` has the name, and no row of that name has a greater id; among equals it is the first. */
  ghost predicate Newest(rows: seq<Row>, name: string, i: nat) {
    && i < |rows| && Named(rows[i], name)
    && forall j | 0 <= j < |rows| && Named(rows[j], name) ::
         rows[j].id.value < rows[i].id.value || (rows[j].id.value == rows[i].id.value && i <= j)
  }

  /** What is kept for a name is its newest row; a name is kept when some row has it. */
  lemma {:induction false} KeptIsNewest(rows: seq<Row>, name: string) returns (i: nat)
    requires AllValid(rows)
    ensures name in KeepAll(rows) ==>
              Newest(rows, name, i) && KeepAll(rows)[name] == (rows[i].id.value, Observed(rows[i]))
    ensures name !in KeepAll(rows) ==> forall j | 0 <= j < |rows| :: !Named(rows[j], name)
  {
    i := 0;
    if rows != [] {
      var n := |rows| - 1;
      i := KeptIsNewest(rows[..n], name);
      if rows[n].name.text == name && KeepAll(rows)[name] == (rows[n].id.value, Observed(rows[n])) {
        if name !in KeepAll(rows[..n]) || rows[n].id.value > KeepAll(rows[..n])[name].0 {
          i := n;
        }
      }
      assert forall j | 0 <= j < n :: rows[..n][j] == rows[j];
    }
  }

  ghost predicate DistinctIds(rows: seq<Row>)
    requires AllValid(rows)
  {
    forall i, j | 0 <= i < j < |rows| :: rows[i].id.value != rows[j].id.value
  }

  /** With distinct ids the kept observations do not depend on the order of the rows. */
  lemma OrderDoesNotMatter(rows: seq<Row>, rows': seq<Row>)
    requires AllValid(rows) && AllValid(rows') && DistinctIds(rows)
    requires multiset(rows) == multiset(rows')
    ensures KeepAll(rows) == KeepAll(rows')
  {
    forall name
      ensures name in KeepAll(rows) <==> name in KeepAll(rows')
      ensures name in KeepAll(rows) && name in KeepAll(rows') ==> KeepAll(rows)[name] == KeepAll(rows')[name]
    {
      SameNewest(rows, rows', name);
    }
  }

  lemma SameNewest(rows: seq<Row>, rows': seq<Row>, name: string)
    requires AllValid(rows) && AllValid(rows') && DistinctIds(rows)
    requires multiset(rows) == multiset(rows')
    ensures name in KeepAll(rows) <==> name in KeepAll(rows')
    ensures name in KeepAll(rows) && name in KeepAll(rows') ==> KeepAll(rows)[name] == KeepAll(rows')[name]
  {
    var i := KeptIsNewest(rows, name);
    var j := KeptIsNewest(rows', name);
    if name in KeepAll(rows) {
      var j' := Find(rows, rows', i);
      assert Named(rows'[j'], name);
    }
    if name in KeepAll(rows') {
      var i' := Find(rows', rows, j);
      assert Named(rows[i'], name);
    }
  }

  lemma Find(rows: seq<Row>, rows': seq<Row>, i: nat) returns (j: nat)
    requires i < |rows| && multiset(rows) == multiset(rows')
    ensures j < |rows'| && rows'[j] == rows[i]
  {
    assert rows[i] in multiset(rows');
    j :| j < |rows'| && rows'[j] == rows[i];
  }

  // ----- The program -----

  function Min(a: nat, b: nat): nat {
    if a < b then a else b
  }

  /** Page number `page`, counted from 1, of the rows the server has. */
  function Page(rows: seq<Row>, page: nat): seq<Row>
    requires page >= 1
  {
    rows[Min((page - 1) * PAGE_SIZE, |rows|)..Min(page * PAGE_SIZE, |rows|)]
  }

  function Observations(kept: Kept): map<string, Observation> {
    map name | name in kept :: kept[name].1
  }

  /** The rows can be read: all are valid, and there are fewer than the last page would hold in full. */
  predicate Readable(rows: seq<Row>) {
    AllValid(rows) && |rows| < PAGE_SIZE * MAX_PAGES
  }

  function Success(id: int): Row {
    Row(Some(id), Text("build"), Text("completed"), Text("success"))
  }

  /** 2000 valid runs with distinct ids fill the 20 pages exactly, with none left over, and cannot be read. */
  lemma TwoThousandRunsAreRefused()
    ensures var rows := seq(2000, i => Success(i));
            AllValid(rows) && DistinctIds(rows) && Page(rows, MAX_PAGES + 1) == [] && !Readable(rows)
  {
  }

  /** Takes in one page after the rows before it. */
  method KeepPage(runs: Kept, batch: seq<Row>, ghost before: seq<Row>) returns (kept: Option<Kept>)
    requires AllValid(before) && runs == KeepAll(before)
    ensures kept.Some? <==> AllValid(batch)
    ensures kept.Some? ==> AllValid(before + batch) && kept.value == KeepAll(before + batch)
  {
    hide Valid, Keep;
    var result := runs;
    assert before + batch[..0] == before;
    for i := 0 to |batch|
      invariant AllValid(batch[..i]) && AllValid(before + batch[..i]) && result == KeepAll(before + batch[..i])
    {
      if !Valid(batch[i]) {
        return None;
      }
      var longer := before + batch[..i + 1];
      assert longer[..|longer| - 1] == before + batch[..i] && longer[|longer| - 1] == batch[i];
      result := Keep(result, batch[i]);
    }
    assert batch[..|batch|] == batch;
    return Some(result);
  }

  /**
   Reads all pages. The reading succeeds exactly when every row is valid and there are fewer than
   2000 of them, and then it holds the newest observation of each name over all pages.
   */
  method FetchCheckObservations(rows: seq<Row>) returns (r: Option<map<string, Observation>>)
    ensures r.Some? <==> Readable(rows)
    ensures r.Some? ==> r.value == Observations(KeepAll(rows))
  {
    hide AllValid, KeepAll, Observations, Page, Min;
    var runs: Kept, page, start := map[], 1, 0;
    NoRows(rows[..0]);
    while true
      invariant 1 <= page <= MAX_PAGES && start == (page - 1) * PAGE_SIZE <= |rows|
      invariant AllValid(rows[..start]) && runs == KeepAll(rows[..start])
      decreases MAX_PAGES - page
    {
      var batch := Page(rows, page);
      PageIsNext(rows, page, start);
      if batch == [] {
        break;
      }
      var kept := KeepPage(runs, batch, rows[..start]);
      if kept.None? {
        return None;
      }
      runs, start := kept.value, start + |batch|;
      if |batch| < PAGE_SIZE {
        break;
      }
      page := page + 1;
      if page > MAX_PAGES {
        return None;
      }
    }
    assert rows[..start] == rows;
    return Some(Observations(runs));
  }

  lemma NoRows(rows: seq<Row>)
    requires rows == []
    ensures AllValid(rows) && KeepAll(rows) == map[]
  {
  }

  /** A page is what follows the pages before it, up to its size; its rows are valid if all rows are. */
  lemma PageIsNext(rows: seq<Row>, page: nat, start: nat)
    requires page >= 1 && start == (page - 1) * PAGE_SIZE <= |rows|
    ensures var batch := Page(rows, page);
            && |batch| <= PAGE_SIZE && start + |batch| <= |rows| && (|batch| < PAGE_SIZE ==> start + |batch| == |rows|)
            && rows[..start] + batch == rows[..start + |batch|] && (AllValid(rows) ==> AllValid(batch))
  {
    var batch := Page(rows, page);
    assert forall i | 0 <= i < |batch| :: batch[i] == rows[start + i];
  }
}
