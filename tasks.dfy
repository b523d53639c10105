/** The batch-task records of src-tauri/src/main.rs:16-90, as values. The
    store keeps `config`, `items` and `results` as JSON text and never looks
    inside them; their shape is given here so that a round trip through the
    store can be stated for whole tasks. */
module Tasks {
  import opened Wrappers

  /** Rust's `i32`. */
  newtype i32 = x: int | -0x8000_0000 <= x < 0x8000_0000

  /** Rust's `i64`. */
  newtype i64 = x: int | -0x8000_0000_0000_0000 <= x < 0x8000_0000_0000_0000

  /** A JSON document (`serde_json::Value`), with numbers kept as their text. */
  datatype JsonValue =
    | Null
    | Bool(b: bool)
    | Number(text: string)
    | Str(s: string)
    | Array(elements: seq<JsonValue>)
    | Object(members: seq<(string, JsonValue)>)

  datatype BatchTaskConfig = BatchTaskConfig(
    model: string,
    modelType: string,
    concurrentLimit: i32,
    retryAttempts: i32,
    retryDelay: i32,
    autoDownload: bool,
    aspectRatio: string,
    size: string,
    quality: string,
    generateCount: Option<i32>,
    apiTimeoutMs: Option<i32>)

  datatype DebugLog = DebugLog(
    id: string,
    taskItemId: string,
    timestamp: string,
    kind: string,
    data: JsonValue,
    duration: Option<i32>)

  datatype TaskItem = TaskItem(
    id: string,
    prompt: string,
    sourceImage: Option<string>,
    mask: Option<string>,
    priority: i32,
    status: string,
    attemptCount: i32,
    createdAt: string,
    processedAt: Option<string>,
    error: Option<string>,
    debugLogs: Option<seq<DebugLog>>)

  datatype TaskResult = TaskResult(
    id: string,
    taskItemId: string,
    imageUrl: string,
    localPath: Option<string>,
    downloaded: bool,
    createdAt: string,
    durationMs: Option<i32>)

  datatype BatchTask = BatchTask(
    id: string,
    name: string,
    kind: string,
    status: string,
    progress: i32,
    totalItems: i32,
    completedItems: i32,
    failedItems: i32,
    createdAt: string,
    startedAt: Option<string>,
    completedAt: Option<string>,
    config: BatchTaskConfig,
    items: seq<TaskItem>,
    results: seq<TaskResult>,
    error: Option<string>)

  /** `serde_json::to_string` and `serde_json::from_str` for the three nested
      fields. Encoding these types cannot fail; decoding can. */
  datatype JsonCodec = JsonCodec(
    encodeConfig: BatchTaskConfig -> string,
    decodeConfig: string -> Result<BatchTaskConfig, string>,
    encodeItems: seq<TaskItem> -> string,
    decodeItems: string -> Result<seq<TaskItem>, string>,
    encodeResults: seq<TaskResult> -> string,
    decodeResults: string -> Result<seq<TaskResult>, string>)

  /** The round-trip law a JSON library is expected to obey. */
  ghost predicate RoundTrips(json: JsonCodec) {
    && (forall c :: json.decodeConfig(json.encodeConfig(c)) == Success(c))
    && (forall items :: json.decodeItems(json.encodeItems(items)) == Success(items))
    && (forall results :: json.decodeResults(json.encodeResults(results)) == Success(results))
  }
}
