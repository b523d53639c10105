/** The one piece of logic in the `cleanup_old_tasks` command handler
    (src-tauri/src/main.rs:305-314): the default retention limit and the
    widening of the front end's `i32` to the store's `i64`. */
module Commands {
  import opened Wrappers
  import opened Tasks
  import opened TaskTable

  const DefaultMaxTasksToKeep: i32 := 100

  /** `max_tasks_to_keep.unwrap_or(100) as i64`. */
  function CleanupLimit(maxTasksToKeep: Option<i32>): (k: i64)
    ensures k as int == if maxTasksToKeep.Some? then maxTasksToKeep.value as int else 100
    ensures -0x8000_0000 <= k as int < 0x8000_0000
  {
    maxTasksToKeep.GetOr(DefaultMaxTasksToKeep) as int as i64
  }

  /** What the command leaves in the table: the 100 newest rows without an
      argument, nothing for a limit of zero or below, everything for a limit
      at least the table's size. */
  lemma CleanupCommandRetention(rows: seq<Row>, maxTasksToKeep: Option<i32>)
    requires DistinctIds(rows)
    ensures maxTasksToKeep.None? ==> |Retained(rows, Keep(CleanupLimit(maxTasksToKeep)))| == Min(100, |rows|)
    ensures maxTasksToKeep.Some? && maxTasksToKeep.value <= 0 ==> Retained(rows, Keep(CleanupLimit(maxTasksToKeep))) == []
    ensures maxTasksToKeep.Some? && maxTasksToKeep.value as int >= |rows| ==>
      Retained(rows, Keep(CleanupLimit(maxTasksToKeep))) == rows
  {
    var keep := Keep(CleanupLimit(maxTasksToKeep));
    RetainedAreNewest(rows, keep);
    RetentionExtremes(rows, keep);
  }
}
