/** The `batch_tasks` table of src-tauri/src/simple_database.rs as a value:
    its rows in insertion (rowid) order, with the primary key `id` unique.
    The SQL statements the store issues become functions on that sequence,
    and their promises are lemmas about those functions. */
module TaskTable {
  import opened Wrappers
  import opened Text
  import opened Tasks

  /** One row, column for column (src-tauri/src/simple_database.rs:29-45). */
  datatype Row = Row(
    id: string,
    name: string,
    kind: string,
    status: string,
    progress: i32,
    totalItems: i32,
    completedItems: i32,
    failedItems: i32,
    createdAt: string,
    startedAt: Option<string>,
    completedAt: Option<string>,
    configJson: string,
    itemsJson: string,
    resultsJson: string,
    errorText: Option<string>)

  /** The values `save_batch_task` binds to the INSERT's parameters. */
  function EncodeTask(json: JsonCodec, t: BatchTask): Row {
    Row(t.id, t.name, t.kind, t.status, t.progress, t.totalItems, t.completedItems, t.failedItems,
        t.createdAt, t.startedAt, t.completedAt,
        json.encodeConfig(t.config), json.encodeItems(t.items), json.encodeResults(t.results),
        t.error)
  }

  /** The `query_map` closure: scalar columns are read back as they are, the
      three JSON columns are decoded in the order config, items, results. */
  function DecodeRow(json: JsonCodec, r: Row): Result<BatchTask, string> {
    var config :- json.decodeConfig(r.configJson);
    var items :- json.decodeItems(r.itemsJson);
    var results :- json.decodeResults(r.resultsJson);
    Success(BatchTask(r.id, r.name, r.kind, r.status, r.progress, r.totalItems, r.completedItems, r.failedItems,
                      r.createdAt, r.startedAt, r.completedAt, config, items, results, r.errorText))
  }

  /** Collecting the decoded rows in order; the first failure ends the call. */
  function DecodeAll(json: JsonCodec, rows: seq<Row>): Result<seq<BatchTask>, string>
    decreases |rows|
  {
    if rows == [] then Success([])
    else match DecodeRow(json, rows[0])
      case Failure(e) => Failure("读取任务失败: " + e)
      case Success(t) =>
        match DecodeAll(json, rows[1..])
        case Failure(e) => Failure(e)
        case Success(ts) => Success([t] + ts)
  }

  // ---------------------------------------------------------------------
  // Keys

  function IdSet(rows: seq<Row>): set<string> {
    set r | r in rows :: r.id
  }

  /** The PRIMARY KEY constraint. */
  predicate DistinctIds(rows: seq<Row>)
    decreases |rows|
  {
    rows == [] || (rows[0].id !in IdSet(rows[1..]) && DistinctIds(rows[1..]))
  }

  /** The row with key `id`, if any (`SELECT * ... WHERE id = ?`). */
  function Lookup(rows: seq<Row>, id: string): Option<Row>
    decreases |rows|
  {
    if rows == [] then None else if rows[0].id == id then Some(rows[0]) else Lookup(rows[1..], id)
  }

  /** How many rows carry key `id`. */
  function CountId(rows: seq<Row>, id: string): nat
    decreases |rows|
  {
    if rows == [] then 0 else (if rows[0].id == id then 1 else 0) + CountId(rows[1..], id)
  }

  /** `DELETE FROM batch_tasks WHERE id IN (...)`: the other rows, in order. */
  function WithoutIds(rows: seq<Row>, ids: set<string>): seq<Row>
    decreases |rows|
  {
    if rows == [] then [] else (if rows[0].id in ids then [] else [rows[0]]) + WithoutIds(rows[1..], ids)
  }

  /** `DELETE FROM batch_tasks WHERE id = ?`. */
  function Without(rows: seq<Row>, id: string): seq<Row> {
    WithoutIds(rows, {id})
  }

  /** `INSERT OR REPLACE`: a row with the same key is deleted and the new row
      is appended with a fresh rowid. */
  function Upsert(rows: seq<Row>, row: Row): seq<Row> {
    Without(rows, row.id) + [row]
  }

  function IdsOf(rows: seq<Row>): seq<string> {
    seq(|rows|, i requires 0 <= i < |rows| => rows[i].id)
  }

  lemma IdSetConcat(a: seq<Row>, b: seq<Row>)
    ensures IdSet(a + b) == IdSet(a) + IdSet(b)
  {
    assert forall r :: r in a + b <==> r in a || r in b;
  }

  lemma IdSetCons(s: seq<Row>)
    requires s != []
    ensures IdSet(s) == {s[0].id} + IdSet(s[1..])
  {
    assert s == [s[0]] + s[1..];
    IdSetConcat([s[0]], s[1..]);
  }

  lemma IdsOfSet(rows: seq<Row>)
    ensures (set x | x in IdsOf(rows)) == IdSet(rows)
  {
    forall x | x in IdSet(rows)
      ensures x in IdsOf(rows)
    {
      var r :| r in rows && r.id == x;
      var i :| 0 <= i < |rows| && rows[i] == r;
      assert IdsOf(rows)[i] == x;
    }
  }

  lemma IdSetOfPermutation(a: seq<Row>, b: seq<Row>)
    requires multiset(a) == multiset(b)
    ensures IdSet(a) == IdSet(b)
  {
    assert forall r :: r in a <==> r in multiset(a);
    assert forall r :: r in b <==> r in multiset(b);
  }

  lemma {:induction false} DistinctConcat(a: seq<Row>, b: seq<Row>)
    ensures DistinctIds(a + b) <==> DistinctIds(a) && DistinctIds(b) && IdSet(a) !! IdSet(b)
    decreases |a|
  {
    if a == [] {
      assert a + b == b;
    } else {
      assert (a + b)[0] == a[0] && (a + b)[1..] == a[1..] + b;
      DistinctConcat(a[1..], b);
      IdSetConcat(a[1..], b);
      IdSetCons(a);
    }
  }

  // ---------------------------------------------------------------------
  // Deleting by key

  lemma {:induction false} WithoutIdsMembers(s: seq<Row>, ids: set<string>)
    ensures forall r :: r in WithoutIds(s, ids) <==> r in s && r.id !in ids
    ensures IdSet(WithoutIds(s, ids)) == IdSet(s) - ids
    decreases |s|
  {
    if s != [] {
      WithoutIdsMembers(s[1..], ids);
      assert s == [s[0]] + s[1..];
    }
  }

  lemma {:induction false} WithoutIdsMultiset(s: seq<Row>, ids: set<string>)
    ensures forall r :: multiset(WithoutIds(s, ids))[r] == if r.id in ids then 0 else multiset(s)[r]
    decreases |s|
  {
    if s != [] {
      WithoutIdsMultiset(s[1..], ids);
      assert s == [s[0]] + s[1..];
    }
  }

  lemma {:induction false} WithoutIdsDistinct(s: seq<Row>, ids: set<string>)
    requires DistinctIds(s)
    ensures DistinctIds(WithoutIds(s, ids))
    decreases |s|
  {
    if s != [] {
      WithoutIdsDistinct(s[1..], ids);
      WithoutIdsMembers(s[1..], ids);
      var rest := WithoutIds(s[1..], ids);
      if s[0].id !in ids {
        assert WithoutIds(s, ids) == [s[0]] + rest;
        assert ([s[0]] + rest)[1..] == rest;
      } else {
        assert WithoutIds(s, ids) == [] + rest == rest;
      }
    }
  }

  /** Deleting keys the table does not hold changes nothing. */
  lemma {:induction false} WithoutIdsAbsent(s: seq<Row>, ids: set<string>)
    requires IdSet(s) !! ids
    ensures WithoutIds(s, ids) == s
    decreases |s|
  {
    if s != [] {
      IdSetCons(s);
      WithoutIdsAbsent(s[1..], ids);
      assert s == [s[0]] + s[1..];
    }
  }

  lemma {:induction false} WithoutIdsAll(s: seq<Row>, ids: set<string>)
    requires IdSet(s) <= ids
    ensures WithoutIds(s, ids) == []
    decreases |s|
  {
    if s != [] {
      IdSetCons(s);
      WithoutIdsAll(s[1..], ids);
    }
  }

  lemma {:induction false} WithoutIdsConcat(a: seq<Row>, b: seq<Row>, ids: set<string>)
    ensures WithoutIds(a + b, ids) == WithoutIds(a, ids) + WithoutIds(b, ids)
    decreases |a|
  {
    if a == [] {
      assert a + b == b;
    } else {
      assert (a + b)[0] == a[0] && (a + b)[1..] == a[1..] + b;
      WithoutIdsConcat(a[1..], b, ids);
    }
  }

  lemma {:induction false} CountIdFacts(s: seq<Row>, id: string)
    ensures CountId(s, id) == 0 <==> id !in IdSet(s)
    ensures DistinctIds(s) ==> CountId(s, id) == if id in IdSet(s) then 1 else 0
    ensures |Without(s, id)| + CountId(s, id) == |s|
    decreases |s|
  {
    if s != [] {
      IdSetCons(s);
      CountIdFacts(s[1..], id);
    }
  }

  lemma {:induction false} LookupFacts(s: seq<Row>, id: string)
    ensures Lookup(s, id).Some? <==> id in IdSet(s)
    ensures Lookup(s, id).Some? ==> Lookup(s, id).value in s && Lookup(s, id).value.id == id
    decreases |s|
  {
    if s != [] {
      IdSetCons(s);
      LookupFacts(s[1..], id);
    }
  }

  lemma {:induction false} LookupConcat(a: seq<Row>, b: seq<Row>, id: string)
    ensures Lookup(a + b, id) == if id in IdSet(a) then Lookup(a, id) else Lookup(b, id)
    decreases |a|
  {
    if a == [] {
      assert a + b == b;
    } else {
      assert (a + b)[0] == a[0] && (a + b)[1..] == a[1..] + b;
      IdSetCons(a);
      LookupConcat(a[1..], b, id);
    }
  }

  lemma {:induction false} LookupWithoutIds(s: seq<Row>, ids: set<string>, id: string)
    ensures Lookup(WithoutIds(s, ids), id) == if id in ids then None else Lookup(s, id)
    decreases |s|
  {
    if s != [] {
      LookupWithoutIds(s[1..], ids, id);
      var rest := WithoutIds(s[1..], ids);
      if s[0].id !in ids {
        assert WithoutIds(s, ids) == [s[0]] + rest;
        assert ([s[0]] + rest)[1..] == rest;
      } else {
        assert WithoutIds(s, ids) == [] + rest == rest;
      }
    }
  }

  /** `delete_batch_task`: the key is gone, every other key keeps its row,
      and deleting an absent key leaves the table as it was. */
  lemma DeleteSpec(rows: seq<Row>, id: string)
    requires DistinctIds(rows)
    ensures DistinctIds(Without(rows, id))
    ensures Lookup(Without(rows, id), id) == None
    ensures forall other :: other != id ==> Lookup(Without(rows, id), other) == Lookup(rows, other)
    ensures id !in IdSet(rows) ==> Without(rows, id) == rows
    ensures |Without(rows, id)| == |rows| - (if id in IdSet(rows) then 1 else 0)
  {
    WithoutIdsDistinct(rows, {id});
    LookupWithoutIds(rows, {id}, id);
    forall other | other != id
      ensures Lookup(Without(rows, id), other) == Lookup(rows, other)
    {
      LookupWithoutIds(rows, {id}, other);
    }
    if id !in IdSet(rows) {
      WithoutIdsAbsent(rows, {id});
    }
    CountIdFacts(rows, id);
  }

  // ---------------------------------------------------------------------
  // INSERT OR REPLACE

  /** `save_batch_task`: afterwards exactly one row has the key, the keys
      stay distinct, and the table grows by one only when the key was new. */
  lemma UpsertKeys(rows: seq<Row>, row: Row)
    requires DistinctIds(rows)
    ensures DistinctIds(Upsert(rows, row))
    ensures CountId(Upsert(rows, row), row.id) == 1
    ensures IdSet(Upsert(rows, row)) == IdSet(rows) + {row.id}
    ensures |Upsert(rows, row)| == |rows| + (if row.id in IdSet(rows) then 0 else 1)
  {
    var rest := Without(rows, row.id);
    WithoutIdsDistinct(rows, {row.id});
    WithoutIdsMembers(rows, {row.id});
    assert DistinctIds([row]) by {
      assert [row][1..] == [];
    }
    assert IdSet([row]) == {row.id};
    DistinctConcat(rest, [row]);
    IdSetConcat(rest, [row]);
    CountIdFacts(Upsert(rows, row), row.id);
    CountIdFacts(rows, row.id);
  }

  /** `save_batch_task`: the key finds the new row and every other key keeps its row. */
  lemma UpsertLookup(rows: seq<Row>, row: Row)
    ensures Lookup(Upsert(rows, row), row.id) == Some(row)
    ensures forall id :: id != row.id ==> Lookup(Upsert(rows, row), id) == Lookup(rows, id)
  {
    var rest := Without(rows, row.id);
    var u := Upsert(rows, row);
    WithoutIdsMembers(rows, {row.id});
    LookupConcat(rest, [row], row.id);
    LookupWithoutIds(rows, {row.id}, row.id);
    LookupFacts(rest, row.id);
    forall id | id != row.id
      ensures Lookup(u, id) == Lookup(rows, id)
    {
      LookupConcat(rest, [row], id);
      LookupWithoutIds(rows, {row.id}, id);
      if id !in IdSet(rest) {
        assert [row][1..] == [];
        LookupFacts(rows, id);
      }
    }
  }

  /** Saving the same task twice leaves the table as saving it once. */
  lemma UpsertIdempotent(rows: seq<Row>, row: Row)
    ensures Upsert(Upsert(rows, row), row) == Upsert(rows, row)
  {
    var rest := Without(rows, row.id);
    WithoutIdsConcat(rest, [row], {row.id});
    WithoutIdsMembers(rows, {row.id});
    WithoutIdsAbsent(rest, {row.id});
    assert [row][1..] == [];
    assert WithoutIds([row], {row.id}) == [];
  }

  // ---------------------------------------------------------------------
  // ORDER BY created_at DESC

  /** Places `r` before the first row it does not sort after. Among rows with
      equal `created_at` the earlier-inserted one stays first. */
  function Insert(r: Row, sorted: seq<Row>): (s: seq<Row>)
    ensures |s| == |sorted| + 1
    decreases |sorted|
  {
    if sorted == [] then [r]
    else if TextLe(sorted[0].createdAt, r.createdAt) then [r] + sorted
    else [sorted[0]] + Insert(r, sorted[1..])
  }

  /** The rows as `ORDER BY created_at DESC` returns them. */
  function NewestFirst(rows: seq<Row>): (s: seq<Row>)
    ensures |s| == |rows|
    decreases |rows|
  {
    if rows == [] then [] else Insert(rows[0], NewestFirst(rows[1..]))
  }

  predicate NewestFirstOrder(s: seq<Row>) {
    forall i, j :: 0 <= i < j < |s| ==> TextLe(s[j].createdAt, s[i].createdAt)
  }

  /** Every row of `s` sorts at or before `c`. */
  predicate Below(s: seq<Row>, c: string) {
    forall i :: 0 <= i < |s| ==> TextLe(s[i].createdAt, c)
  }

  lemma {:induction false} InsertMultiset(r: Row, s: seq<Row>)
    ensures multiset(Insert(r, s)) == multiset(s) + multiset{r}
    decreases |s|
  {
    if s != [] && !TextLe(s[0].createdAt, r.createdAt) {
      InsertMultiset(r, s[1..]);
      assert s == [s[0]] + s[1..];
    }
  }

  lemma {:induction false} InsertBelow(r: Row, s: seq<Row>, c: string)
    requires Below(s, c) && TextLe(r.createdAt, c)
    ensures Below(Insert(r, s), c)
    decreases |s|
  {
    if s != [] && !TextLe(s[0].createdAt, r.createdAt) {
      InsertBelow(r, s[1..], c);
      var t := Insert(r, s);
      assert t == [s[0]] + Insert(r, s[1..]);
      forall i | 1 <= i < |t|
        ensures TextLe(t[i].createdAt, c)
      {
        assert t[i] == Insert(r, s[1..])[i - 1];
      }
    }
  }

  lemma ConsSorted(x: Row, t: seq<Row>)
    requires NewestFirstOrder(t) && Below(t, x.createdAt)
    ensures NewestFirstOrder([x] + t)
  {
    var u := [x] + t;
    forall i, j | 0 <= i < j < |u|
      ensures TextLe(u[j].createdAt, u[i].createdAt)
    {
      assert u[j] == t[j - 1];
      if i > 0 {
        assert u[i] == t[i - 1];
      }
    }
  }

  lemma SortedTail(s: seq<Row>)
    requires s != [] && NewestFirstOrder(s)
    ensures NewestFirstOrder(s[1..]) && Below(s[1..], s[0].createdAt)
  {
    var t := s[1..];
    forall i | 0 <= i < |t|
      ensures TextLe(t[i].createdAt, s[0].createdAt)
    {
      assert t[i] == s[i + 1];
    }
    forall i, j | 0 <= i < j < |t|
      ensures TextLe(t[j].createdAt, t[i].createdAt)
    {
      assert t[i] == s[i + 1] && t[j] == s[j + 1];
    }
  }

  lemma {:induction false} InsertSorted(r: Row, s: seq<Row>)
    requires NewestFirstOrder(s)
    ensures NewestFirstOrder(Insert(r, s))
    decreases |s|
  {
    if s == [] {
    } else if TextLe(s[0].createdAt, r.createdAt) {
      SortedTail(s);
      forall i | 0 <= i < |s|
        ensures TextLe(s[i].createdAt, r.createdAt)
      {
        if i > 0 {
          assert s[1..][i - 1] == s[i];
          TextLeTransitive(s[i].createdAt, s[0].createdAt, r.createdAt);
        }
      }
      ConsSorted(r, s);
    } else {
      SortedTail(s);
      InsertSorted(r, s[1..]);
      TextLeTotal(s[0].createdAt, r.createdAt);
      InsertBelow(r, s[1..], s[0].createdAt);
      ConsSorted(s[0], Insert(r, s[1..]));
    }
  }

  lemma {:induction false} InsertDistinct(r: Row, s: seq<Row>)
    requires DistinctIds(s) && r.id !in IdSet(s)
    ensures DistinctIds(Insert(r, s))
    decreases |s|
  {
    if s == [] {
      assert [r][1..] == [];
    } else if TextLe(s[0].createdAt, r.createdAt) {
      assert ([r] + s)[1..] == s;
    } else {
      IdSetCons(s);
      InsertDistinct(r, s[1..]);
      InsertMultiset(r, s[1..]);
      IdSetOfPermutation(Insert(r, s[1..]), s[1..] + [r]);
      IdSetConcat(s[1..], [r]);
      assert IdSet([r]) == {r.id};
      assert ([s[0]] + Insert(r, s[1..]))[1..] == Insert(r, s[1..]);
    }
  }

  /** The ordering is a permutation of the rows, sorted newest first, and
      keeps the keys distinct. */
  lemma {:induction false} NewestFirstFacts(rows: seq<Row>)
    ensures multiset(NewestFirst(rows)) == multiset(rows)
    ensures NewestFirstOrder(NewestFirst(rows))
    ensures IdSet(NewestFirst(rows)) == IdSet(rows)
    ensures DistinctIds(rows) ==> DistinctIds(NewestFirst(rows))
    decreases |rows|
  {
    if rows != [] {
      var rest := NewestFirst(rows[1..]);
      NewestFirstFacts(rows[1..]);
      InsertMultiset(rows[0], rest);
      InsertSorted(rows[0], rest);
      assert rows == [rows[0]] + rows[1..];
      IdSetOfPermutation(NewestFirst(rows), rows);
      if DistinctIds(rows) {
        InsertDistinct(rows[0], rest);
      }
    }
  }

  // ---------------------------------------------------------------------
  // Reading every task

  predicate FirstBadRow(json: JsonCodec, rows: seq<Row>, i: int) {
    && 0 <= i < |rows|
    && DecodeRow(json, rows[i]).Failure?
    && forall j :: 0 <= j < i ==> DecodeRow(json, rows[j]).Success?
  }

  /** The collection succeeds exactly when every row decodes, and then holds
      one task per row in the same order; otherwise it reports the first
      row that fails. */
  lemma {:induction false} DecodeAllSpec(json: JsonCodec, rows: seq<Row>)
    ensures DecodeAll(json, rows).Success? <==> forall i :: 0 <= i < |rows| ==> DecodeRow(json, rows[i]).Success?
    ensures DecodeAll(json, rows).Success? ==>
      |DecodeAll(json, rows).value| == |rows| &&
      forall i :: 0 <= i < |rows| ==> DecodeRow(json, rows[i]) == Success(DecodeAll(json, rows).value[i])
    ensures DecodeAll(json, rows).Failure? ==>
      exists i :: FirstBadRow(json, rows, i) && DecodeAll(json, rows).error == "读取任务失败: " + DecodeRow(json, rows[i]).error
    decreases |rows|
  {
    if rows != [] {
      DecodeAllSpec(json, rows[1..]);
      assert forall i :: 1 <= i < |rows| ==> rows[i] == rows[1..][i - 1];
      if DecodeRow(json, rows[0]).Success? && DecodeAll(json, rows[1..]).Failure? {
        var k :| FirstBadRow(json, rows[1..], k) && DecodeAll(json, rows[1..]).error == "读取任务失败: " + DecodeRow(json, rows[1..][k]).error;
        assert FirstBadRow(json, rows, k + 1);
      } else if DecodeRow(json, rows[0]).Failure? {
        assert FirstBadRow(json, rows, 0);
      }
    }
  }

  /** A decoded row carries its key and `created_at` unchanged. */
  lemma DecodeRowKeepsColumns(json: JsonCodec, r: Row)
    requires DecodeRow(json, r).Success?
    ensures DecodeRow(json, r).value.id == r.id
    ensures DecodeRow(json, r).value.createdAt == r.createdAt
  {
  }

  /** A stored task reads back as itself when the JSON library round-trips. */
  lemma RowRoundTrip(json: JsonCodec, t: BatchTask)
    requires RoundTrips(json)
    ensures DecodeRow(json, EncodeTask(json, t)) == Success(t)
  {
    assert json.decodeConfig(json.encodeConfig(t.config)) == Success(t.config);
    assert json.decodeItems(json.encodeItems(t.items)) == Success(t.items);
    assert json.decodeResults(json.encodeResults(t.results)) == Success(t.results);
  }

  /** `get_all_batch_tasks` fails exactly when some stored row fails to
      decode: a bad row is reported, never skipped. */
  lemma GetAllReportsBadRows(json: JsonCodec, rows: seq<Row>)
    ensures DecodeAll(json, NewestFirst(rows)).Failure? <==> exists r :: r in rows && DecodeRow(json, r).Failure?
  {
    var o := NewestFirst(rows);
    NewestFirstFacts(rows);
    DecodeAllSpec(json, o);
    assert forall r :: r in rows <==> r in multiset(rows);
    assert forall r :: r in o <==> r in multiset(o);
    if exists r :: r in rows && DecodeRow(json, r).Failure? {
      var r :| r in rows && DecodeRow(json, r).Failure?;
      var i :| 0 <= i < |o| && o[i] == r;
    }
    if DecodeAll(json, o).Failure? {
      var i :| FirstBadRow(json, o, i) && DecodeAll(json, o).error == "读取任务失败: " + DecodeRow(json, o[i]).error;
      assert o[i] in rows;
    }
  }

  /** A successful `get_all_batch_tasks` returns one task per row, newest
      first, and every stored row is among them as it decodes. */
  lemma GetAllNewestFirst(json: JsonCodec, rows: seq<Row>)
    requires DecodeAll(json, NewestFirst(rows)).Success?
    ensures |DecodeAll(json, NewestFirst(rows)).value| == |rows|
    ensures forall i, j :: 0 <= i < j < |DecodeAll(json, NewestFirst(rows)).value| ==>
      TextLe(DecodeAll(json, NewestFirst(rows)).value[j].createdAt, DecodeAll(json, NewestFirst(rows)).value[i].createdAt)
    ensures forall r :: r in rows ==> DecodeRow(json, r).Success? && DecodeRow(json, r).value in DecodeAll(json, NewestFirst(rows)).value
  {
    var o := NewestFirst(rows);
    var ts := DecodeAll(json, o).value;
    NewestFirstFacts(rows);
    DecodeAllSpec(json, o);
    forall i | 0 <= i < |o|
      ensures ts[i].createdAt == o[i].createdAt
    {
      DecodeRowKeepsColumns(json, o[i]);
    }
    forall r | r in rows
      ensures DecodeRow(json, r).Success? && DecodeRow(json, r).value in ts
    {
      assert r in multiset(o);
      var i :| 0 <= i < |o| && o[i] == r;
      assert DecodeRow(json, r).value == ts[i];
    }
  }

  /** Saving a task and reading every task back yields that task unchanged,
      provided the JSON library round-trips and the other stored rows decode. */
  lemma SaveThenGetAll(json: JsonCodec, rows: seq<Row>, t: BatchTask)
    requires RoundTrips(json)
    requires forall r :: r in rows ==> DecodeRow(json, r).Success?
    ensures DecodeAll(json, NewestFirst(Upsert(rows, EncodeTask(json, t)))).Success?
    ensures t in DecodeAll(json, NewestFirst(Upsert(rows, EncodeTask(json, t)))).value
  {
    var row := EncodeTask(json, t);
    var u := Upsert(rows, row);
    RowRoundTrip(json, t);
    WithoutIdsMembers(rows, {row.id});
    assert forall r :: r in u ==> r == row || r in Without(rows, row.id);
    GetAllReportsBadRows(json, u);
    GetAllNewestFirst(json, u);
    assert row in u;
  }

  // ---------------------------------------------------------------------
  // Retention

  /** The OFFSET the cleanup query runs with: SQLite reads a negative OFFSET as 0. */
  function Keep(maxTasksToKeep: i64): nat {
    if maxTasksToKeep < 0 then 0 else maxTasksToKeep as int
  }

  /** `SELECT id ... ORDER BY created_at DESC LIMIT -1 OFFSET keep`: the rows
      after the first `keep` in newest-first order. */
  function Evicted(rows: seq<Row>, keep: nat): seq<Row> {
    var o := NewestFirst(rows);
    if keep < |o| then o[keep..] else []
  }

  /** The table after the cleanup's DELETE. */
  function Retained(rows: seq<Row>, keep: nat): seq<Row> {
    WithoutIds(rows, IdSet(Evicted(rows, keep)))
  }

  function Min(a: int, b: int): int {
    if a < b then a else b
  }

  /** The rows the cleanup keeps: the first `keep` in newest-first order. */
  function Kept(rows: seq<Row>, keep: nat): seq<Row> {
    NewestFirst(rows)[..Min(keep, |rows|)]
  }

  lemma SplitNewestFirst(rows: seq<Row>, keep: nat)
    requires DistinctIds(rows)
    ensures NewestFirst(rows) == Kept(rows, keep) + Evicted(rows, keep)
    ensures IdSet(Kept(rows, keep)) !! IdSet(Evicted(rows, keep))
    ensures IdSet(Kept(rows, keep)) + IdSet(Evicted(rows, keep)) == IdSet(rows)
  {
    var o := NewestFirst(rows);
    NewestFirstFacts(rows);
    var m := Min(keep, |rows|);
    assert Evicted(rows, keep) == o[m..];
    assert o == o[..m] + o[m..];
    DistinctConcat(Kept(rows, keep), Evicted(rows, keep));
    IdSetConcat(Kept(rows, keep), Evicted(rows, keep));
  }

  lemma DeleteEvictedFromOrdered(rows: seq<Row>, keep: nat)
    requires DistinctIds(rows)
    ensures WithoutIds(NewestFirst(rows), IdSet(Evicted(rows, keep))) == Kept(rows, keep)
  {
    var kept := Kept(rows, keep);
    var ev := Evicted(rows, keep);
    var d := IdSet(ev);
    SplitNewestFirst(rows, keep);
    WithoutIdsConcat(kept, ev, d);
    WithoutIdsAbsent(kept, d);
    WithoutIdsAll(ev, d);
  }

  /** Deleting keys from two orderings of the same rows leaves the same rows. */
  lemma WithoutIdsPermutation(a: seq<Row>, b: seq<Row>, ids: set<string>)
    requires multiset(a) == multiset(b)
    ensures multiset(WithoutIds(a, ids)) == multiset(WithoutIds(b, ids))
  {
    WithoutIdsMultiset(a, ids);
    WithoutIdsMultiset(b, ids);
    assert forall r :: multiset(WithoutIds(a, ids))[r] == multiset(WithoutIds(b, ids))[r];
  }

  /** The cleanup keeps exactly the `keep` newest rows (as a bag), in their
      stored order, and deletes the rest. */
  lemma RetainedAreNewest(rows: seq<Row>, keep: nat)
    requires DistinctIds(rows)
    ensures multiset(Retained(rows, keep)) == multiset(Kept(rows, keep))
    ensures |Retained(rows, keep)| == Min(keep, |rows|)
    ensures |Evicted(rows, keep)| == |rows| - Min(keep, |rows|)
  {
    var d := IdSet(Evicted(rows, keep));
    NewestFirstFacts(rows);
    DeleteEvictedFromOrdered(rows, keep);
    WithoutIdsPermutation(rows, NewestFirst(rows), d);
    calc {
      |Retained(rows, keep)|;
      |multiset(Retained(rows, keep))|;
      |multiset(Kept(rows, keep))|;
      |Kept(rows, keep)|;
    }
  }

  lemma KeptAboveEvicted(rows: seq<Row>, keep: nat)
    ensures forall i, j :: 0 <= i < |Kept(rows, keep)| && 0 <= j < |Evicted(rows, keep)| ==>
      TextLe(Evicted(rows, keep)[j].createdAt, Kept(rows, keep)[i].createdAt)
  {
    var o := NewestFirst(rows);
    var m := Min(keep, |rows|);
    NewestFirstFacts(rows);
    var kept := Kept(rows, keep);
    var ev := Evicted(rows, keep);
    assert ev == o[m..];
    forall i, j | 0 <= i < |kept| && 0 <= j < |ev|
      ensures TextLe(ev[j].createdAt, kept[i].createdAt)
    {
      assert kept[i] == o[i] && ev[j] == o[m + j];
    }
  }

  /** Every kept row is at least as new as every deleted row. */
  lemma RetentionOrder(rows: seq<Row>, keep: nat)
    requires DistinctIds(rows)
    ensures forall x, y :: x in Retained(rows, keep) && y in Evicted(rows, keep) ==> TextLe(y.createdAt, x.createdAt)
  {
    var kept := Kept(rows, keep);
    var ev := Evicted(rows, keep);
    RetainedAreNewest(rows, keep);
    KeptAboveEvicted(rows, keep);
    forall x, y | x in Retained(rows, keep) && y in ev
      ensures TextLe(y.createdAt, x.createdAt)
    {
      assert x in multiset(Retained(rows, keep));
      var i :| 0 <= i < |kept| && kept[i] == x;
      var j :| 0 <= j < |ev| && ev[j] == y;
    }
  }

  /** The kept rows come from the table, keep their keys distinct, and
      together with the deleted ones account for every key. */
  lemma RetentionKeys(rows: seq<Row>, keep: nat)
    requires DistinctIds(rows)
    ensures forall x :: x in Retained(rows, keep) ==> x in rows
    ensures DistinctIds(Retained(rows, keep))
    ensures IdSet(Retained(rows, keep)) !! IdSet(Evicted(rows, keep))
    ensures IdSet(Retained(rows, keep)) + IdSet(Evicted(rows, keep)) == IdSet(rows)
  {
    var ev := Evicted(rows, keep);
    SplitNewestFirst(rows, keep);
    WithoutIdsMembers(rows, IdSet(ev));
    WithoutIdsDistinct(rows, IdSet(ev));
  }

  /** Keeping at least as many rows as the table holds deletes nothing;
      keeping none deletes every row. */
  lemma RetentionExtremes(rows: seq<Row>, keep: nat)
    requires DistinctIds(rows)
    ensures keep >= |rows| ==> Evicted(rows, keep) == [] && Retained(rows, keep) == rows
    ensures keep == 0 ==> Retained(rows, keep) == []
  {
    NewestFirstFacts(rows);
    RetainedAreNewest(rows, keep);
    if keep >= |rows| {
      WithoutIdsAbsent(rows, {});
    }
  }
}
