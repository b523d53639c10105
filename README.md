# magic_image back end: download engine and batch-task store

This project models the Rust side of the magic_image desktop app (a Tauri
application) and proves properties of that model.

It covers two parts.

- **Downloading and reading images** (`src-tauri/src/main.rs`):
  - `download_file` picks the save path and fetches a URL with up to three attempts. It streams the body to the file in 64 KiB chunks and emits a `download:progress` event after each chunk.
  - `read_local_file` returns a file as a base64 `data:` URI. The MIME type comes from the path's extension.
  - The `cleanup_old_tasks` command supplies a default retention limit of 100.
- **The batch-task store** (`src-tauri/src/simple_database.rs`):
  - `SimpleDatabase` keeps one SQLite table, `batch_tasks`, keyed by `id`.
  - It can save (insert-or-replace), delete, clear, count and list all tasks newest first.
  - Retention cleanup deletes everything but the newest N tasks, with a hand-built `DELETE ... IN (...)` statement.

The world outside the program becomes inputs:

- the network, file system and download-directory lookup become data (`Download.Environment`, `LocalFile.FileRead`);
- the JSON and base64 libraries are function values (`Tasks.JsonCodec`, the `encode` parameter);
- sleeps and emitted events are recorded, not performed.

The table is a sequence of rows in rowid order with unique keys. A class field holds it, and the store's methods update it in place.

Files:

| file | module | contents |
|---|---|---|
| `wrappers.dfy` | `Wrappers` | `Option` and `Result` |
| `text.dfy` | `Text` | ASCII lower-casing, suffixes, decimal numbers, `u64` parsing, the TEXT order of SQLite's BINARY collation |
| `local_file.dfy` | `LocalFile` | `read_local_file`: MIME choice and data-URI shape |
| `download.dfy` | `Download` | `download_file`: save path, attempt loop, chunk loop |
| `tasks.dfy` | `Tasks` | batch-task records, the JSON codec and its round-trip law |
| `sql_literal.dfy` | `SqlLiteral` | quoting ids as SQL string literals and reading them back |
| `task_table.dfy` | `TaskTable` | the table as a value; the meaning of each statement the store runs |
| `task_store.dfy` | `TaskStore` | the `SimpleDatabase` class |
| `commands.dfy` | `Commands` | the `cleanup_old_tasks` default |

How the code behaves:

- **A non-success HTTP status** is retried at once, without a pause. Only a transport error pauses, for 300·(k+1) ms after 0-based attempt k, and the third one pauses too.
- **A read error in the middle of the body** ends the chunk loop and the call still returns `Ok(path)`. The file is left truncated, and the `读取流失败` message that is stored is never reported.
- **A request that cannot be built** ends the call at once, with no retry.

The model follows this code as written.

## Model

| member | source | states |
|---|---|---|
| `Text.ParseU64Decimal` | src-tauri/src/main.rs:174-179 | every value up to 2^64−1 written in decimal, with or without a leading `+`, parses back to itself as `u64` |
| `Text.ParseU64Overflow` | src-tauri/src/main.rs:178 | a decimal value above 2^64−1 does not parse as `u64` |
| `Text.ParseU64RejectsNonDigit` | src-tauri/src/main.rs:178 | any character other than a digit (or a leading `+`) makes the `u64` parse fail |
| `Text.DecimalRoundTrip` | src-tauri/src/main.rs:170 | the decimal rendering of a number is a non-empty digit string whose value is that number |
| `Text.TextLeTotal` | src-tauri/src/simple_database.rs:38 | any two TEXT values are comparable under the BINARY order |
| `Text.TextLeTransitive` | src-tauri/src/simple_database.rs:38 | the BINARY order on TEXT is transitive |
| `Text.TextLeAntisymmetric` | src-tauri/src/simple_database.rs:38 | two TEXT values each at or before the other are equal |
| `Text.AsciiLowerConcat` | src-tauri/src/main.rs:111 | lower-casing a concatenation lower-cases each part |
| `Text.LowerCharKeepsNonLetter` | src-tauri/src/main.rs:111 | lower-casing maps a character to a given non-letter (such as `.`) exactly when it is that character |
| `LocalFile.MimeTypeByExtension` | src-tauri/src/main.rs:111-117 | for a path `stem.ext` with a dot-free extension, the MIME type is the table entry for the lower-cased extension: png→image/png, jpg/jpeg→image/jpeg, gif→image/gif, webp→image/webp, anything else→application/octet-stream |
| `LocalFile.NoDottedSuffix` | src-tauri/src/main.rs:112-115 | a dot-free path ends in no suffix that starts with a dot |
| `LocalFile.MimeTypeOfDotted` | src-tauri/src/main.rs:111-117 | when the lower-cased path is `a.e` with e dot-free, the source's chain of suffix tests picks the table entry for e |
| `LocalFile.MimeTypeWithoutDot` | src-tauri/src/main.rs:116 | a path without a dot is served as application/octet-stream |
| `LocalFile.MimeTypeIgnoresCase` | src-tauri/src/main.rs:111 | paths equal up to ASCII case get the same MIME type |
| `LocalFile.DotSuffix` | src-tauri/src/main.rs:112-115 | a path `a.ext` ends in `.x` (x dot-free) exactly when ext is x |
| `LocalFile.LowerOfDotted` | src-tauri/src/main.rs:111 | lower-casing `stem.ext` lower-cases stem and ext separately and keeps the extension dot-free |
| `LocalFile.LowerKeepsDotFree` | src-tauri/src/main.rs:111 | lower-casing never introduces a dot |
| `LocalFile.MimeTypeHasNoSemicolon` | src-tauri/src/main.rs:111-117 | no chosen MIME type contains `;` |
| `LocalFile.DataUriRoundTrip` | src-tauri/src/main.rs:120 | `data:<mime>;base64,<payload>` splits back into the same MIME type and payload |
| `LocalFile.IndexOf` | src-tauri/src/main.rs:120 | finds the first occurrence of a character, or reports that there is none |
| `LocalFile.IndexOfFirst` | src-tauri/src/main.rs:120 | the first position holding a character is the one found |
| `LocalFile.ReadLocalFileShape` | src-tauri/src/main.rs:103-120 | a successful read yields a data URI that splits into the path's MIME type and the encoding of exactly the bytes read; an open failure reports `无法打开文件: …` and a read failure `读取文件失败: <e>` |
| `Download.SavePathPlacement` | src-tauri/src/main.rs:134-143 | a non-empty `dir` is the save directory; `None` or `""` falls back to the download directory, whose failed lookup is the error `无法获取下载目录: <e>`; a plain file name lands directly in the chosen directory |
| `Download.JoinPlacesName` | src-tauri/src/main.rs:142-143 | pushing a plain name onto a directory gives exactly the directory followed by the name, with one `/` between them unless the directory is empty or already ends in `/`; the name is the last segment |
| `Download.LastSegmentAfterSlash` | src-tauri/src/main.rs:143 | after a separator, the pushed name is the path's last segment |
| `Download.AbsoluteNameReplacesDir` | src-tauri/src/main.rs:143 | an absolute file name replaces the chosen directory |
| `Download.PreflightErrors` | src-tauri/src/main.rs:134-156 | a failed save-directory lookup, directory creation (`创建目录失败: …`) or client construction (`构建HTTP客户端失败: …`) ends the call before any request, sleep or event |
| `Download.ContentTotalCases` | src-tauri/src/main.rs:174-179 | the reported total is the parsed Content-Length; it is 0 when the header is missing, too large for `u64` or not a number |
| `Download.StreamProgress` | src-tauri/src/main.rs:186-215 | event j follows the first j+1 reads, all of them non-empty chunks written without error, and reports url, path, the starting count plus the bytes of those reads, and the total |
| `Download.StreamIncreasing` | src-tauri/src/main.rs:201-215 | `downloaded` is above the starting count in every event and strictly increases from event to event |
| `Download.StreamEndsInWriteError` | src-tauri/src/main.rs:190-200 | the chunk loop ends in a write error exactly when, after only clean chunks, a non-empty chunk fails to be written with that error |
| `Download.SizeSumSnoc` | src-tauri/src/main.rs:201 | the bytes counted after one more read are the bytes before plus that read's chunk |
| `Download.ProgressStepsFitBuffer` | src-tauri/src/main.rs:187-201 | when every read fits the 64 KiB buffer, the first event and each step between events are at most 64 KiB |
| `Download.StreamBody` | src-tauri/src/main.rs:186-216 | the imperative chunk loop ends and emits exactly what the chunk-loop definition `Stream` gives from 0 bytes |
| `Download.ReceiveBody` | src-tauri/src/main.rs:174-219 | a response with a success status gives one request, no sleep, and the outcome `Conclude` defines (file-create error, write error, or `Ok(path)`) |
| `Download.AttemptLoop` | src-tauri/src/main.rs:158-229 | the imperative `for attempt in 0..3` loop yields the result, sleeps, events and request count of the attempt-loop definition `RetryFrom` from attempt 0 |
| `Download.DownloadFile` | src-tauri/src/main.rs:133-230 | the whole command yields exactly the run `DownloadSpec` defines |
| `Download.RetryRequestsBound` | src-tauri/src/main.rs:160 | from attempt k on, at most 3−k requests are executed |
| `Download.AtMostThreeRequests` | src-tauri/src/main.rs:160-167 | a download executes at most three requests |
| `Download.RetriesExhausted` | src-tauri/src/main.rs:159-229 | when every remaining attempt is retried, the result is the last attempt's message, the requests are the attempts made, no event is emitted, and the sleeps are one 300·(k+1) ms pause per transport error in order |
| `Download.FirstFinalAttemptDecides` | src-tauri/src/main.rs:160-226 | the first attempt that is not retried decides the result and events; the attempts before it add only their requests and transport-error pauses |
| `Download.ThreeTransportErrors` | src-tauri/src/main.rs:221-229 | three transport errors give three requests, sleeps of 300, 600 and 900 ms (even after the last attempt) and the third error message |
| `Download.ThreeBadStatuses` | src-tauri/src/main.rs:169-229 | three non-success statuses give three requests, no sleep, and the error `HTTP <status>`, which starts with the status code's digits |
| `Download.ConcludeOutcomes` | src-tauri/src/main.rs:165-219 | an attempt that is not retried never sleeps; a request that cannot be built fails at once with `构建请求失败: …` and no request; a file-create error fails with `创建文件失败: …`; otherwise the stream decides between `Ok(path)` and `写入文件失败: …` |
| `Download.ReadErrorStillSucceeds` | src-tauri/src/main.rs:190-219 | a read error after clean chunks ends the transfer with `Ok(path)` |
| `Download.EmptyReadSucceeds` | src-tauri/src/main.rs:190-219 | a read of 0 bytes after clean chunks ends the body, and the transfer returns `Ok(path)` |
| `SqlLiteral.BuildIdList` | src-tauri/src/simple_database.rs:196-202 | the `params_str` loop produces the quoted ids joined by `", "` |
| `SqlLiteral.JoinQuotedSnoc` | src-tauri/src/simple_database.rs:197-201 | adding one id to the list appends `", "` (except for the first) and its quoted form |
| `SqlLiteral.LiteralBody` | src-tauri/src/simple_database.rs:201 | reading a literal's body consumes at least its closing quote |
| `SqlLiteral.ParseLiteral` | src-tauri/src/simple_database.rs:201 | reading a literal consumes at least its two quotes |
| `SqlLiteral.LiteralBodyOfEscape` | src-tauri/src/simple_database.rs:201 | reading an escaped value and its closing quote gives back the value and the text after it |
| `SqlLiteral.QuoteRoundTrip` | src-tauri/src/simple_database.rs:201 | un-quoting `'…'` with doubled `'` gives back the original id |
| `SqlLiteral.IdListRoundTrip` | src-tauri/src/simple_database.rs:196-202 | the comma-separated literal list reads back as exactly the ids it was built from, in order |
| `SqlLiteral.DeleteStatementRoundTrip` | src-tauri/src/simple_database.rs:196-206 | the executed `DELETE … WHERE id IN (…)` names exactly the selected ids |
| `TaskTable.IdSetConcat` | src-tauri/src/simple_database.rs:30 | the keys of two row sequences together are the keys of each |
| `TaskTable.IdSetCons` | src-tauri/src/simple_database.rs:30 | the keys of a table are its first row's key and the keys of the rest |
| `TaskTable.IdsOfSet` | src-tauri/src/simple_database.rs:180 | the selected id list holds exactly the keys of the selected rows |
| `TaskTable.IdSetOfPermutation` | src-tauri/src/simple_database.rs:58 | reordering rows keeps the set of keys |
| `TaskTable.DistinctConcat` | src-tauri/src/simple_database.rs:30 | two row sequences together have distinct keys exactly when each does and they share none |
| `TaskTable.WithoutIdsMembers` | src-tauri/src/simple_database.rs:140-145 | after a delete by keys, a row remains exactly when it was there and its key is not deleted |
| `TaskTable.WithoutIdsMultiset` | src-tauri/src/simple_database.rs:204 | a delete by keys removes every copy of a deleted key's rows and keeps every other row as often as before |
| `TaskTable.WithoutIdsDistinct` | src-tauri/src/simple_database.rs:140-145 | deleting keeps the keys distinct |
| `TaskTable.WithoutIdsAbsent` | src-tauri/src/simple_database.rs:141 | deleting keys the table does not hold changes nothing |
| `TaskTable.WithoutIdsAll` | src-tauri/src/simple_database.rs:204 | deleting every key of a sequence leaves nothing of it |
| `TaskTable.WithoutIdsConcat` | src-tauri/src/simple_database.rs:204 | a delete acts on each part of a sequence separately |
| `TaskTable.WithoutIdsPermutation` | src-tauri/src/simple_database.rs:204 | deleting keys from two orderings of the same rows leaves the same rows |
| `TaskTable.CountIdFacts` | src-tauri/src/simple_database.rs:162-166 | a key has no row exactly when it is absent, one row when present in a keyed table, and deleting it removes exactly its rows |
| `TaskTable.LookupFacts` | src-tauri/src/simple_database.rs:30 | a key finds a row exactly when it is present, and the row found carries that key |
| `TaskTable.LookupConcat` | src-tauri/src/simple_database.rs:30 | a key is looked up in the first part first |
| `TaskTable.LookupWithoutIds` | src-tauri/src/simple_database.rs:141 | after a delete, deleted keys find nothing and other keys find what they found before |
| `TaskTable.DeleteSpec` | src-tauri/src/simple_database.rs:140-145 | deleting a key removes only its row: that key finds nothing, every other key keeps its row, an absent key leaves the table unchanged, and the count drops by one exactly when the key was present |
| `TaskTable.UpsertKeys` | src-tauri/src/simple_database.rs:107-131 | insert-or-replace on a keyed table leaves exactly one row with the key and the keys distinct; the count grows by one only for a new key |
| `TaskTable.UpsertLookup` | src-tauri/src/simple_database.rs:107-131 | after insert-or-replace the key finds the new row and every other key finds the row it found before |
| `TaskTable.UpsertIdempotent` | src-tauri/src/simple_database.rs:107-131 | saving the same task twice leaves the table as saving it once |
| `TaskTable.Insert` | src-tauri/src/simple_database.rs:58 | placing one row into an ordering lengthens it by one |
| `TaskTable.NewestFirst` | src-tauri/src/simple_database.rs:58 | the newest-first ordering has as many rows as the table |
| `TaskTable.InsertMultiset` | src-tauri/src/simple_database.rs:58 | placing a row adds exactly that row |
| `TaskTable.InsertBelow` | src-tauri/src/simple_database.rs:58 | placing a row keeps a bound that row and the ordering both respect |
| `TaskTable.ConsSorted` | src-tauri/src/simple_database.rs:58 | a row at least as new as every row of an ordering may head it |
| `TaskTable.SortedTail` | src-tauri/src/simple_database.rs:58 | the rest of an ordering is ordered and no newer than its head |
| `TaskTable.InsertSorted` | src-tauri/src/simple_database.rs:58 | placing a row into a newest-first ordering keeps it newest first |
| `TaskTable.InsertDistinct` | src-tauri/src/simple_database.rs:58 | placing a row with a new key keeps the keys distinct |
| `TaskTable.NewestFirstFacts` | src-tauri/src/simple_database.rs:57-58 | `ORDER BY created_at DESC` returns a permutation of the rows, sorted by `created_at` descending in TEXT order, with the same (distinct) keys |
| `TaskTable.DecodeAllSpec` | src-tauri/src/simple_database.rs:61-93 | collecting succeeds exactly when every row decodes, and then holds one task per row in order; otherwise the error is `读取任务失败: ` and the first failing row's decode error |
| `TaskTable.DecodeRowKeepsColumns` | src-tauri/src/simple_database.rs:66-75 | a decoded task keeps its row's `id` and `created_at` |
| `TaskTable.RowRoundTrip` | src-tauri/src/simple_database.rs:61-131 | with a round-tripping JSON library, a stored task reads back as itself, scalar columns column for column |
| `TaskTable.GetAllReportsBadRows` | src-tauri/src/simple_database.rs:78-91 | listing fails exactly when some stored row fails to decode; a bad row is never skipped |
| `TaskTable.GetAllNewestFirst` | src-tauri/src/simple_database.rs:58-93 | a successful listing has one task per row, ordered by `created_at` descending, and contains every stored row's task |
| `TaskTable.SaveThenGetAll` | src-tauri/src/simple_database.rs:61-131 | after saving a task, listing succeeds (when the other rows decode) and contains that task unchanged |
| `TaskTable.SplitNewestFirst` | src-tauri/src/simple_database.rs:177 | the ordering is the kept rows followed by the rows past the OFFSET, with no key in both |
| `TaskTable.DeleteEvictedFromOrdered` | src-tauri/src/simple_database.rs:177-204 | removing the selected keys from the ordering leaves the first `keep` rows |
| `TaskTable.RetainedAreNewest` | src-tauri/src/simple_database.rs:176-210 | cleanup keeps exactly the `keep` newest rows, min(n, keep) of them, and selects max(0, n−keep) for deletion |
| `TaskTable.KeptAboveEvicted` | src-tauri/src/simple_database.rs:177 | every row within the OFFSET is at least as new as every row past it |
| `TaskTable.RetentionOrder` | src-tauri/src/simple_database.rs:176-207 | every row left after cleanup is at least as new as every deleted row |
| `TaskTable.RetentionKeys` | src-tauri/src/simple_database.rs:176-207 | the rows left come from the table with distinct keys; kept and deleted keys are disjoint and together are all keys |
| `TaskTable.RetentionExtremes` | src-tauri/src/simple_database.rs:177-187 | keeping at least n rows selects and deletes nothing; keeping 0 (or a negative limit) deletes every row |
| `TaskStore.SimpleDatabase.constructor` | src-tauri/src/simple_database.rs:24-51 | a freshly initialised store has an empty table with distinct keys |
| `TaskStore.SimpleDatabase.SaveBatchTask` | src-tauri/src/simple_database.rs:97-134 | the table becomes the insert-or-replace of the encoded task: exactly one row has the key and holds the new values, other keys unchanged |
| `TaskStore.SimpleDatabase.DeleteBatchTask` | src-tauri/src/simple_database.rs:137-146 | only the row with the key is removed; an absent key leaves the table unchanged |
| `TaskStore.SimpleDatabase.ClearBatchTasks` | src-tauri/src/simple_database.rs:149-156 | the table becomes empty |
| `TaskStore.SimpleDatabase.GetTaskCount` | src-tauri/src/simple_database.rs:159-169 | returns the number of rows |
| `TaskStore.SimpleDatabase.GetAllBatchTasks` | src-tauri/src/simple_database.rs:54-94 | the push loop returns the newest-first rows decoded, or the first decode error |
| `TaskStore.SimpleDatabase.CleanupOldTasks` | src-tauri/src/simple_database.rs:172-211 | the table becomes the rows not past the OFFSET (negative read as 0); the count returned is the number selected; a DELETE naming exactly their quoted ids is run only when there are any |
| `Commands.CleanupLimit` | src-tauri/src/main.rs:309 | the limit is 100 without an argument, else the given `i32` widened to `i64` |
| `Commands.CleanupCommandRetention` | src-tauri/src/main.rs:305-314 | without an argument the command leaves min(n, 100) rows; a limit of 0 or less clears the table; a limit of at least n keeps every row |

## Left out

- The Tauri host is left out: the `#[tauri::command]` wrappers and their `获取任务失败: …`-style re-prefixing, `init_db` before every command, `get_download_dir`, `lib.rs` and `main`. These are framework plumbing.
- `get_machine_id` is left out. It is a SHA-256 hash of system information taken from foreign libraries.
- Failures of the SQLite engine itself are not modelled. That covers connection, prepare, execute and column errors (`打开数据库失败`, `查询失败` and so on). The engine appears only as the table it maintains.
- `init_db` on an existing file is not modelled; the constructor models a fresh, empty database.
- The unused `_sql` placeholder statement is not modelled.
- Serialising the nested JSON fields cannot fail for these types, so `序列化…失败` is not modelled.
- The serde_json and base64 engines are left out. They are function values, and the JSON round trip is the assumption `Tasks.RoundTrips`.
- The HTTP client's configuration is left out: the timeout, User-Agent and Referer headers. Each attempt's outcome is an input.
- Elapsed time and `bytesPerSec` are left out. They are clock readings and floating point.
- Real sleeping and the result of `emit` are not modelled. Sleeps and events are recorded.
- Async execution and concurrent access to the database file are not modelled.
- The `尝试读取文件: …` log line that `read_local_file` prints is not modelled. It is console output only.
- The `network` input of `Download.Environment` may make any attempt fail to build its request. The source builds every attempt from the same URL and headers, so only attempt 0 can fail that way. The model's inputs are a superset of the real ones, and its results on the reachable inputs are unaffected.
- Windows path semantics are not modelled. `Download.Join` follows Unix `PathBuf::push`.
- The parent-directory test of `create_dir_all` is folded into the `mkdirError` input.
- The `{:?}` rendering of the path in the open-error message is simplified. `LocalFile.QuotedPath` puts the path in double quotes and does not model Debug escaping of quotes or control characters.
- The canonical reason phrase of an HTTP status is an input (`Status.reason`). The model does not hold a table of phrases.
- `to_string_lossy` is not modelled, so paths are taken to be valid Unicode.
- `to_lowercase` is given only its ASCII part (`Text.AsciiLower`). Non-ASCII letters never lower-case into the ASCII suffixes tested, but other full Unicode case mappings are not modelled.
- `Download.StreamBody`: `downloaded` is an unbounded `nat`. The `u64` counter could only wrap after 2^64 bytes.
- `TaskStore.SimpleDatabase.GetTaskCount` returns a `nat`, not an `i64`. A SQLite table cannot hold 2^63 rows.
- `TaskStore.SimpleDatabase.CleanupOldTasks` returns a `nat` count. This leaves out the `as i64` cast for the same reason.
- `TaskTable.NewestFirst` fixes one order for rows with equal `created_at`: insertion (rowid) order. SQLite leaves the order of ties unspecified, so when ties straddle the OFFSET, the rows SQLite deletes may differ from the model's.
- `TaskTable.RetainedAreNewest` states which rows are kept as a bag, compared with the first `keep` rows of the ordering. The kept rows also stay in their stored order, because a delete only filters.
