/** `SimpleDatabase` (src-tauri/src/simple_database.rs): the store object
    holds the `batch_tasks` table and every command changes or reads it in
    place. Connecting, creating the table and the engine's own failures are
    not part of this model; the JSON library is the store's codec. */
module TaskStore {
  import opened Wrappers
  import opened Tasks
  import opened TaskTable
  import opened SqlLiteral

  /** A successful collection with `done` placed before it. */
  function PrependTasks(done: seq<BatchTask>, r: Result<seq<BatchTask>, string>): Result<seq<BatchTask>, string> {
    match r
    case Success(ts) => Success(done + ts)
    case Failure(e) => Failure(e)
  }

  class SimpleDatabase {
    /** The table's rows in rowid order. */
    var rows: seq<Row>
    const json: JsonCodec

    ghost predicate Valid()
      reads this
    {
      DistinctIds(rows)
    }

    /** `init_db` on a fresh database file: an empty table. */
    constructor (json: JsonCodec)
      ensures Valid()
      ensures rows == []
      ensures this.json == json
    {
      rows := [];
      this.json := json;
    }

    /** `save_batch_task`: encode the nested fields and INSERT OR REPLACE. */
    method SaveBatchTask(task: BatchTask)
      requires Valid()
      modifies this
      ensures Valid()
      ensures rows == Upsert(old(rows), EncodeTask(json, task))
      ensures CountId(rows, task.id) == 1
      ensures Lookup(rows, task.id) == Some(EncodeTask(json, task))
      ensures forall id :: id != task.id ==> Lookup(rows, id) == Lookup(old(rows), id)
      ensures |rows| == |old(rows)| + (if task.id in IdSet(old(rows)) then 0 else 1)
    {
      var row := EncodeTask(json, task);
      UpsertKeys(rows, row);
      UpsertLookup(rows, row);
      rows := Upsert(rows, row);
    }

    /** `delete_batch_task`: removes the row with that key, if there is one. */
    method DeleteBatchTask(taskId: string)
      requires Valid()
      modifies this
      ensures Valid()
      ensures rows == Without(old(rows), taskId)
      ensures Lookup(rows, taskId) == None
      ensures forall id :: id != taskId ==> Lookup(rows, id) == Lookup(old(rows), id)
      ensures taskId !in IdSet(old(rows)) ==> rows == old(rows)
    {
      DeleteSpec(rows, taskId);
      rows := Without(rows, taskId);
    }

    /** `clear_batch_tasks`. */
    method ClearBatchTasks()
      modifies this
      ensures Valid()
      ensures rows == []
    {
      rows := [];
    }

    /** `get_task_count`: `SELECT COUNT(*)`. */
    method GetTaskCount() returns (count: nat)
      ensures count == |rows|
    {
      count := |rows|;
    }

    /** `get_all_batch_tasks`: the rows newest first, each decoded and pushed
        in turn; the first row that fails to decode ends the call. */
    method GetAllBatchTasks() returns (r: Result<seq<BatchTask>, string>)
      ensures r == DecodeAll(json, NewestFirst(rows))
    {
      var ordered := NewestFirst(rows);
      var tasks: seq<BatchTask> := [];
      assert ordered[0..] == ordered;
      assert PrependTasks([], DecodeAll(json, ordered)) == DecodeAll(json, ordered) by {
        if DecodeAll(json, ordered).Success? {
          assert [] + DecodeAll(json, ordered).value == DecodeAll(json, ordered).value;
        }
      }
      for i := 0 to |ordered|
        invariant DecodeAll(json, ordered) == PrependTasks(tasks, DecodeAll(json, ordered[i..]))
      {
        assert ordered[i..][0] == ordered[i] && ordered[i..][1..] == ordered[i + 1..];
        match DecodeRow(json, ordered[i]) {
          case Failure(e) =>
            return Failure("读取任务失败: " + e);
          case Success(t) =>
            ghost var later := DecodeAll(json, ordered[i + 1..]);
            if later.Success? {
              assert tasks + ([t] + later.value) == (tasks + [t]) + later.value;
            }
            tasks := tasks + [t];
        }
      }
      assert ordered[|ordered|..] == [];
      assert tasks + [] == tasks;
      return Success(tasks);
    }

    /** `cleanup_old_tasks`: select the keys past the first `maxTasksToKeep`
        newest rows, and when there are any, build the DELETE statement with
        their quoted keys and run it. Returns how many keys were selected and
        the statement that was run, if one was. */
    method CleanupOldTasks(maxTasksToKeep: i64) returns (count: nat, statement: Option<string>)
      requires Valid()
      modifies this
      ensures Valid()
      ensures rows == Retained(old(rows), Keep(maxTasksToKeep))
      ensures count == |Evicted(old(rows), Keep(maxTasksToKeep))|
      ensures statement == if count == 0 then None else Some(DeleteStatement(IdsOf(Evicted(old(rows), Keep(maxTasksToKeep)))))
    {
      var ordered := NewestFirst(rows);
      var keep := Keep(maxTasksToKeep);
      var taskIds := IdsOf(if keep < |ordered| then ordered[keep..] else []);
      ghost var evicted := Evicted(rows, keep);
      assert taskIds == IdsOf(evicted);
      count := |taskIds|;
      if count > 0 {
        var list := BuildIdList(taskIds);
        var sql := DeletePrefix + list + ")";
        DeleteStatementRoundTrip(taskIds);
        var named := ParseDeleteStatement(sql);
        IdsOfSet(evicted);
        WithoutIdsDistinct(rows, set x | x in named.value);
        rows := WithoutIds(rows, set x | x in named.value);
        statement := Some(sql);
      } else {
        assert evicted == [] && IdSet(evicted) == {};
        WithoutIdsAbsent(rows, {});
        statement := None;
      }
    }
  }
}
