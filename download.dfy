/** `download_file` (src-tauri/src/main.rs:132-230): choose the save path,
    then fetch a URL with up to three attempts and stream the body to the
    file in 64 KiB chunks, emitting one progress event per chunk written.

    What the network and the file system answer is an input: the outcome of
    each attempt, indexed by the attempt number, and for a response the
    sequence of values its successive reads return. `std::thread::sleep`
    and `app_handle.emit` are recorded instead of performed: a run yields
    the result, the requested sleeps, the emitted progress events, and the
    number of requests executed. */
module Download {
  import opened Wrappers
  import opened Text

  const MaxAttempts: nat := 3
  const BufferSize: nat := 64 * 1024

  /** The sleep after a transport error on the 0-based attempt `attempt`. */
  function BackoffMs(attempt: nat): nat {
    300 * (attempt + 1)
  }

  // ---------------------------------------------------------------------
  // Save path

  /** The directory to save into: a non-empty `dir`, else the platform's
      download directory, whose lookup may fail. */
  function SaveDir(dir: Option<string>, downloadDir: Result<string, string>): Result<string, string> {
    if dir.Some? && dir.value != "" then Success(dir.value)
    else match downloadDir
      case Success(d) => Success(d)
      case Failure(e) => Failure("无法获取下载目录: " + e)
  }

  /** `PathBuf::push` on Unix: an absolute name replaces the path; otherwise
      a `/` is added unless the path is empty or already ends in one. */
  function Join(dir: string, name: string): string {
    if |name| > 0 && name[0] == '/' then name
    else if |dir| > 0 && dir[|dir| - 1] != '/' then dir + "/" + name
    else dir + name
  }

  function SavePath(dir: Option<string>, filename: string, downloadDir: Result<string, string>): Result<string, string> {
    match SaveDir(dir, downloadDir)
    case Success(d) => Success(Join(d, filename))
    case Failure(e) => Failure(e)
  }

  /** Reference definition: what follows the last `/` of a path. */
  function LastSegment(p: string): string
    decreases |p|
  {
    if p == [] || p[|p| - 1] == '/' then [] else LastSegment(p[..|p| - 1]) + [p[|p| - 1]]
  }

  /** `p` is `d`, then at most one separator, then the plain name `f`. */
  predicate PlacedIn(p: string, d: string, f: string) {
    |d| + |f| <= |p| <= |d| + 1 + |f| && p[..|d|] == d && LastSegment(p) == f
  }

  lemma {:induction false} LastSegmentAfterSlash(a: string, name: string)
    requires (a == [] || a[|a| - 1] == '/') && '/' !in name
    ensures LastSegment(a + name) == name
    decreases |name|
  {
    if name == [] {
      assert a + name == a;
    } else {
      var p := a + name;
      var last := name[|name| - 1];
      var init := name[..|name| - 1];
      assert last in name;
      assert p[|p| - 1] == last && last != '/';
      assert p[..|p| - 1] == a + init;
      assert '/' !in init by {
        assert forall k :: 0 <= k < |init| ==> init[k] == name[k];
      }
      LastSegmentAfterSlash(a, init);
      assert LastSegment(p) == init + [last];
      assert name == init + [last];
    }
  }

  /** A plain (non-empty, slash-free) file name lands directly in the chosen directory. */
  lemma JoinPlacesName(d: string, f: string)
    requires f != [] && '/' !in f
    ensures PlacedIn(Join(d, f), d, f)
    ensures Join(d, f) == d + f || Join(d, f) == d + "/" + f
  {
    assert f[0] in f;
    if |d| > 0 && d[|d| - 1] != '/' {
      assert d + "/" + f == (d + "/") + f;
      LastSegmentAfterSlash(d + "/", f);
    } else {
      LastSegmentAfterSlash(d, f);
    }
  }

  /** A non-empty `dir` is used as given; `None` or `""` falls back to the
      download directory, and a failed lookup of that is the error. The file
      name is appended to the chosen directory. */
  lemma SavePathPlacement(dir: Option<string>, filename: string, downloadDir: Result<string, string>)
    requires filename != [] && '/' !in filename
    ensures dir.Some? && dir.value != "" ==>
      SavePath(dir, filename, downloadDir).Success? &&
      PlacedIn(SavePath(dir, filename, downloadDir).value, dir.value, filename)
    ensures !(dir.Some? && dir.value != "") && downloadDir.Success? ==>
      SavePath(dir, filename, downloadDir).Success? &&
      PlacedIn(SavePath(dir, filename, downloadDir).value, downloadDir.value, filename)
    ensures !(dir.Some? && dir.value != "") && downloadDir.Failure? ==>
      SavePath(dir, filename, downloadDir) == Failure("无法获取下载目录: " + downloadDir.error)
  {
    if dir.Some? && dir.value != "" {
      JoinPlacesName(dir.value, filename);
    } else if downloadDir.Success? {
      JoinPlacesName(downloadDir.value, filename);
    }
  }

  /** An absolute file name discards the chosen directory altogether. */
  lemma AbsoluteNameReplacesDir(d: string, f: string)
    requires |f| > 0 && f[0] == '/'
    ensures Join(d, f) == f
  {
  }

  // ---------------------------------------------------------------------
  // Attempt outcomes

  /** The `http` crate's status codes are three-digit numbers. */
  type StatusCode = c: nat | 100 <= c <= 999 witness 200

  /** A status with its canonical reason phrase, when the code has one. */
  datatype Status = Status(code: StatusCode, reason: Option<string>)

  predicate IsSuccess(s: Status) {
    200 <= s.code <= 299
  }

  /** `Display` for a status: the code, a space, then the reason phrase. */
  function StatusText(s: Status): string {
    NatToDecimal(s.code) + " " + s.reason.GetOr("<unknown status code>")
  }

  /** One value returned by `resp.read`, and, for a non-empty chunk, whether
      writing it to the file failed. `Data(0, _)` is the end of the body. */
  datatype BodyRead =
    | Data(size: nat, writeError: Option<string>)
    | ReadFailed(error: string)

  /** What one attempt meets: building the request fails, executing it fails,
      or a response arrives with its status, its Content-Length header, the
      outcome of creating the file and the reads of its body. */
  datatype Attempt =
    | RequestBuildFailed(error: string)
    | TransportFailed(error: string)
    | Responded(status: Status, contentLength: Option<string>, createError: Option<string>, body: seq<BodyRead>)

  /** Everything outside the function: the download-directory lookup, the
      outcome of creating the parent directory, of building the HTTP client,
      and of each numbered attempt. */
  datatype Environment = Environment(
    downloadDir: Result<string, string>,
    mkdirError: Option<string>,
    clientError: Option<string>,
    network: nat -> Attempt)

  datatype Progress = Progress(url: string, path: string, downloaded: nat, total: nat)

  datatype Run = Run(result: Result<string, string>, sleeps: seq<nat>, events: seq<Progress>, requests: nat)

  /** The `total` reported in progress events: the parsed Content-Length, or 0. */
  function ContentTotal(contentLength: Option<string>): nat {
    match contentLength
    case None => 0
    case Some(s) => ParseU64(s).GetOr(0)
  }

  // ---------------------------------------------------------------------
  // Streaming the body

  datatype StreamEnd = Drained | WriteFailed(error: string)

  datatype Transfer = Transfer(end: StreamEnd, events: seq<Progress>)

  /** The chunk loop from `downloaded` bytes on. A read of 0, a read error
      and the end of the reads all stop it without an error; a failed write
      stops it with one. */
  function Stream(url: string, path: string, total: nat, body: seq<BodyRead>, downloaded: nat): Transfer
    decreases |body|
  {
    if body == [] then Transfer(Drained, [])
    else match body[0]
      case ReadFailed(_) => Transfer(Drained, [])
      case Data(n, w) =>
        if n == 0 then Transfer(Drained, [])
        else if w.Some? then Transfer(WriteFailed(w.value), [])
        else
          var rest := Stream(url, path, total, body[1..], downloaded + n);
          Transfer(rest.end, [Progress(url, path, downloaded + n, total)] + rest.events)
  }

  /** Reads that each deliver a non-empty chunk written without error. */
  predicate Clean(s: seq<BodyRead>) {
    forall i :: 0 <= i < |s| ==> s[i].Data? && s[i].size > 0 && s[i].writeError.None?
  }

  /** Reference definition: the bytes the reads in `s` deliver. */
  function SizeSum(s: seq<BodyRead>): nat
    decreases |s|
  {
    if s == [] then 0 else (if s[0].Data? then s[0].size else 0) + SizeSum(s[1..])
  }

  /** Event `j` follows the `j+1` first reads, all clean, and reports the
      sum of their sizes on top of the starting count. */
  lemma {:induction false} StreamProgress(url: string, path: string, total: nat, body: seq<BodyRead>, d: nat)
    ensures var t := Stream(url, path, total, body, d);
      |t.events| <= |body| && Clean(body[..|t.events|]) &&
      forall j :: 0 <= j < |t.events| ==> t.events[j] == Progress(url, path, d + SizeSum(body[..j + 1]), total)
    decreases |body|
  {
    var t := Stream(url, path, total, body, d);
    if body != [] && body[0].Data? && body[0].size > 0 && body[0].writeError.None? {
      var n := body[0].size;
      var rest := Stream(url, path, total, body[1..], d + n);
      StreamProgress(url, path, total, body[1..], d + n);
      assert t.events == [Progress(url, path, d + n, total)] + rest.events;
      forall i | 0 <= i < |t.events|
        ensures body[..|t.events|][i].Data? && body[..|t.events|][i].size > 0 && body[..|t.events|][i].writeError.None?
      {
        if i > 0 {
          assert body[..|t.events|][i] == body[1..][..|rest.events|][i - 1];
        }
      }
      forall j | 0 <= j < |t.events|
        ensures t.events[j] == Progress(url, path, d + SizeSum(body[..j + 1]), total)
      {
        assert body[..j + 1][1..] == body[1..][..j];
        if j > 0 {
          assert t.events[j] == rest.events[j - 1];
        }
      }
    }
  }

  /** `downloaded` strictly increases from one event to the next and
      every event reports more than the starting count. */
  lemma {:induction false} StreamIncreasing(url: string, path: string, total: nat, body: seq<BodyRead>, d: nat)
    ensures forall j :: 0 <= j < |Stream(url, path, total, body, d).events| ==>
      d < Stream(url, path, total, body, d).events[j].downloaded
    ensures forall i, j :: 0 <= i < j < |Stream(url, path, total, body, d).events| ==>
      Stream(url, path, total, body, d).events[i].downloaded < Stream(url, path, total, body, d).events[j].downloaded
    decreases |body|
  {
    var t := Stream(url, path, total, body, d);
    if body != [] && body[0].Data? && body[0].size > 0 && body[0].writeError.None? {
      var n := body[0].size;
      StreamIncreasing(url, path, total, body[1..], d + n);
      var rest := Stream(url, path, total, body[1..], d + n);
      assert t.events == [Progress(url, path, d + n, total)] + rest.events;
      forall j | 0 <= j < |t.events|
        ensures d < t.events[j].downloaded
      {
        if j > 0 {
          assert t.events[j] == rest.events[j - 1];
          assert d + n < rest.events[j - 1].downloaded;
        }
      }
      forall i, j | 0 <= i < j < |t.events|
        ensures t.events[i].downloaded < t.events[j].downloaded
      {
        assert t.events[j] == rest.events[j - 1];
        assert d + n < rest.events[j - 1].downloaded;
        if i > 0 {
          assert t.events[i] == rest.events[i - 1];
          assert rest.events[i - 1].downloaded < rest.events[j - 1].downloaded;
        }
      }
    }
  }

  /** The chunk loop ends in a write error exactly when some read delivers a
      chunk whose write fails after only clean reads before it; a read error
      or a read of 0 ends it normally. */
  lemma {:induction false} StreamEndsInWriteError(url: string, path: string, total: nat, body: seq<BodyRead>, d: nat, e: string)
    ensures Stream(url, path, total, body, d).end == WriteFailed(e) <==>
      exists j :: 0 <= j < |body| && Clean(body[..j]) && body[j].Data? && body[j].size > 0 && body[j].writeError == Some(e)
    decreases |body|
  {
    var t := Stream(url, path, total, body, d);
    if body == [] {
    } else if body[0].Data? && body[0].size > 0 && body[0].writeError.None? {
      StreamEndsInWriteError(url, path, total, body[1..], d + body[0].size, e);
      if t.end == WriteFailed(e) {
        var j :| 0 <= j < |body[1..]| && Clean(body[1..][..j]) && body[1..][j].Data? && body[1..][j].size > 0 && body[1..][j].writeError == Some(e);
        var pre := body[..j + 1];
        var later := body[1..][..j];
        forall i | 0 <= i < |pre|
          ensures pre[i].Data? && pre[i].size > 0 && pre[i].writeError.None?
        {
          if i > 0 {
            assert pre[i] == later[i - 1];
          }
        }
        assert body[j + 1] == body[1..][j];
      }
      if exists j :: 0 <= j < |body| && Clean(body[..j]) && body[j].Data? && body[j].size > 0 && body[j].writeError == Some(e) {
        var j :| 0 <= j < |body| && Clean(body[..j]) && body[j].Data? && body[j].size > 0 && body[j].writeError == Some(e);
        assert j != 0;
        var pre := body[..j];
        var later := body[1..][..j - 1];
        forall i | 0 <= i < |later|
          ensures later[i].Data? && later[i].size > 0 && later[i].writeError.None?
        {
          assert later[i] == pre[i + 1];
        }
        assert body[1..][j - 1] == body[j];
      }
    } else {
      // the first read ends the loop: the witness can only be read 0
      forall j | 0 < j < |body|
        ensures !Clean(body[..j])
      {
        assert body[..j][0] == body[0];
      }
    }
  }

  predicate FitsBuffer(body: seq<BodyRead>) {
    forall i :: 0 <= i < |body| && body[i].Data? ==> body[i].size <= BufferSize
  }

  lemma {:induction false} SizeSumSnoc(s: seq<BodyRead>, r: BodyRead)
    ensures SizeSum(s + [r]) == SizeSum(s) + (if r.Data? then r.size else 0)
    decreases |s|
  {
    if s == [] {
      assert [r][1..] == [];
    } else {
      assert (s + [r])[1..] == s[1..] + [r];
      SizeSumSnoc(s[1..], r);
    }
  }

  /** With reads that fit the 64 KiB buffer, the first event and every step
      between consecutive events are at most 64 KiB. */
  lemma ProgressStepsFitBuffer(url: string, path: string, total: nat, body: seq<BodyRead>)
    requires FitsBuffer(body)
    ensures var t := Stream(url, path, total, body, 0);
      (|t.events| > 0 ==> t.events[0].downloaded <= BufferSize) &&
      forall j :: 0 <= j < |t.events| - 1 ==> t.events[j + 1].downloaded - t.events[j].downloaded <= BufferSize
  {
    var t := Stream(url, path, total, body, 0);
    StreamProgress(url, path, total, body, 0);
    if |t.events| > 0 {
      assert body[..1] == [] + [body[0]];
      SizeSumSnoc([], body[0]);
    }
    forall j | 0 <= j < |t.events| - 1
      ensures t.events[j + 1].downloaded - t.events[j].downloaded <= BufferSize
    {
      assert body[..j + 2] == body[..j + 1] + [body[j + 1]];
      SizeSumSnoc(body[..j + 1], body[j + 1]);
    }
  }

  // ---------------------------------------------------------------------
  // The attempt loop

  /** Attempts after which the loop goes on: a transport error or a
      non-success status. */
  predicate Retryable(a: Attempt) {
    a.TransportFailed? || (a.Responded? && !IsSuccess(a.status))
  }

  /** The message a retried attempt leaves in `last_err`. */
  function AttemptError(a: Attempt): string
    requires Retryable(a)
  {
    if a.TransportFailed? then "请求失败: " + a.error else "HTTP " + StatusText(a.status)
  }

  /** The run of an attempt that ends the loop: a request that cannot be
      built, a file that cannot be created, or the streamed body. */
  function Conclude(url: string, path: string, a: Attempt): Run
    requires !Retryable(a)
  {
    match a
    case RequestBuildFailed(e) => Run(Failure("构建请求失败: " + e), [], [], 0)
    case Responded(_, contentLength, createError, body) =>
      if createError.Some? then Run(Failure("创建文件失败: " + createError.value), [], [], 1)
      else
        var t := Stream(url, path, ContentTotal(contentLength), body, 0);
        match t.end
        case Drained => Run(Success(path), [], t.events, 1)
        case WriteFailed(e) => Run(Failure("写入文件失败: " + e), [], t.events, 1)
  }

  /** The attempt loop from attempt number `attempt`, with `lastError` the
      message the previous attempts left. */
  function RetryFrom(url: string, path: string, network: nat -> Attempt, attempt: nat, lastError: Option<string>): Run
    decreases MaxAttempts - attempt
  {
    if attempt >= MaxAttempts then Run(Failure(lastError.GetOr("下载失败")), [], [], 0)
    else
      var a := network(attempt);
      if Retryable(a) then
        var rest := RetryFrom(url, path, network, attempt + 1, Some(AttemptError(a)));
        var pause := if a.TransportFailed? then [BackoffMs(attempt)] else [];
        Run(rest.result, pause + rest.sleeps, rest.events, rest.requests + 1)
      else Conclude(url, path, a)
  }

  /** Sleeps and requests done before `r`, added in front of it. */
  function Prepend(sleeps: seq<nat>, requests: nat, r: Run): Run {
    Run(r.result, sleeps + r.sleeps, r.events, requests + r.requests)
  }

  /** The whole of `download_file`. */
  function DownloadSpec(url: string, filename: string, dir: Option<string>, env: Environment): Run {
    match SavePath(dir, filename, env.downloadDir)
    case Failure(e) => Run(Failure(e), [], [], 0)
    case Success(path) =>
      if env.mkdirError.Some? then Run(Failure("创建目录失败: " + env.mkdirError.value), [], [], 0)
      else if env.clientError.Some? then Run(Failure("构建HTTP客户端失败: " + env.clientError.value), [], [], 0)
      else RetryFrom(url, path, env.network, 0, None)
  }

  /** Reference definition of the sleeps: one per transport error among
      attempts `from` to `upto - 1`, in attempt order. */
  function Backoffs(network: nat -> Attempt, from: nat, upto: nat): seq<nat>
    decreases upto - from
  {
    if from >= upto then []
    else (if network(from).TransportFailed? then [BackoffMs(from)] else []) + Backoffs(network, from + 1, upto)
  }

  // ---------------------------------------------------------------------
  // The imperative loop

  /** The chunk loop of one attempt: `downloaded` counts the bytes written
      and an event is emitted after each chunk. */
  method StreamBody(url: string, path: string, total: nat, body: seq<BodyRead>)
    returns (end: StreamEnd, events: seq<Progress>)
    ensures Transfer(end, events) == Stream(url, path, total, body, 0)
  {
    events := [];
    end := Drained;
    var downloaded: nat := 0;
    var i := 0;
    while i < |body|
      invariant 0 <= i <= |body|
      invariant Stream(url, path, total, body, 0).end == Stream(url, path, total, body[i..], downloaded).end
      invariant Stream(url, path, total, body, 0).events == events + Stream(url, path, total, body[i..], downloaded).events
    {
      assert body[i..][0] == body[i] && body[i..][1..] == body[i + 1..];
      match body[i] {
        case ReadFailed(_) =>
          // the source records the message in `last_err`, but the attempt then succeeds
          break;
        case Data(n, writeError) =>
          if n == 0 {
            break;
          }
          if writeError.Some? {
            end := WriteFailed(writeError.value);
            return;
          }
          ghost var later := Stream(url, path, total, body[i + 1..], downloaded + n).events;
          assert events + ([Progress(url, path, downloaded + n, total)] + later)
              == (events + [Progress(url, path, downloaded + n, total)]) + later;
          downloaded := downloaded + n;
          events := events + [Progress(url, path, downloaded, total)];
      }
      i := i + 1;
    }
  }

  method DownloadFile(url: string, filename: string, dir: Option<string>, env: Environment)
    returns (result: Result<string, string>, sleeps: seq<nat>, events: seq<Progress>, requests: nat)
    ensures Run(result, sleeps, events, requests) == DownloadSpec(url, filename, dir, env)
  {
    sleeps, events, requests := [], [], 0;
    var saveDir: string;
    if dir.Some? && dir.value != "" {
      saveDir := dir.value;
    } else if env.downloadDir.Success? {
      saveDir := env.downloadDir.value;
    } else {
      return Failure("无法获取下载目录: " + env.downloadDir.error), sleeps, events, requests;
    }
    var savePath := Join(saveDir, filename);
    if env.mkdirError.Some? {
      return Failure("创建目录失败: " + env.mkdirError.value), sleeps, events, requests;
    }
    if env.clientError.Some? {
      return Failure("构建HTTP客户端失败: " + env.clientError.value), sleeps, events, requests;
    }
    result, sleeps, events, requests := AttemptLoop(url, savePath, env.network);
  }

  /** A response with a success status: read Content-Length, create the
      file, then stream the body into it. */
  method ReceiveBody(url: string, savePath: string, a: Attempt)
    returns (result: Result<string, string>, events: seq<Progress>)
    requires a.Responded? && IsSuccess(a.status)
    ensures Run(result, [], events, 1) == Conclude(url, savePath, a)
  {
    var total := ContentTotal(a.contentLength);
    if a.createError.Some? {
      return Failure("创建文件失败: " + a.createError.value), [];
    }
    var end;
    end, events := StreamBody(url, savePath, total, a.body);
    if end.WriteFailed? {
      return Failure("写入文件失败: " + end.error), events;
    }
    return Success(savePath), events;
  }

  /** One retried attempt: its pause and its request, then the rest of the loop. */
  lemma RetryUnfold(url: string, path: string, network: nat -> Attempt, attempt: nat, lastError: Option<string>)
    requires attempt < MaxAttempts && Retryable(network(attempt))
    ensures RetryFrom(url, path, network, attempt, lastError) ==
      Prepend(if network(attempt).TransportFailed? then [BackoffMs(attempt)] else [], 1,
              RetryFrom(url, path, network, attempt + 1, Some(AttemptError(network(attempt)))))
  {
  }

  lemma PrependTwice(s1: seq<nat>, n1: nat, s2: seq<nat>, n2: nat, r: Run)
    ensures Prepend(s1, n1, Prepend(s2, n2, r)) == Prepend(s1 + s2, n1 + n2, r)
  {
    assert s1 + (s2 + r.sleeps) == (s1 + s2) + r.sleeps;
  }

  /** The `for attempt in 0..3` loop, with `last_err` carried across attempts. */
  method AttemptLoop(url: string, savePath: string, network: nat -> Attempt)
    returns (result: Result<string, string>, sleeps: seq<nat>, events: seq<Progress>, requests: nat)
    ensures Run(result, sleeps, events, requests) == RetryFrom(url, savePath, network, 0, None)
  {
    sleeps, events, requests := [], [], 0;
    ghost var spec := RetryFrom(url, savePath, network, 0, None);
    assert [] + spec.sleeps == spec.sleeps;
    var lastError: Option<string> := None;
    for attempt := 0 to MaxAttempts
      invariant events == []
      invariant spec == Prepend(sleeps, requests, RetryFrom(url, savePath, network, attempt, lastError))
    {
      match network(attempt) {
        case RequestBuildFailed(e) =>
          return Failure("构建请求失败: " + e), sleeps, events, requests;
        case TransportFailed(e) =>
          RetryUnfold(url, savePath, network, attempt, lastError);
          PrependTwice(sleeps, requests, [BackoffMs(attempt)], 1,
                       RetryFrom(url, savePath, network, attempt + 1, Some("请求失败: " + e)));
          requests := requests + 1;
          lastError := Some("请求失败: " + e);
          sleeps := sleeps + [BackoffMs(attempt)];
        case Responded(status, contentLength, createError, body) =>
          if !IsSuccess(status) {
            RetryUnfold(url, savePath, network, attempt, lastError);
            PrependTwice(sleeps, requests, [], 1,
                         RetryFrom(url, savePath, network, attempt + 1, Some("HTTP " + StatusText(status))));
            assert sleeps + [] == sleeps;
            requests := requests + 1;
            lastError := Some("HTTP " + StatusText(status));
            continue;
          }
          requests := requests + 1;
          result, events := ReceiveBody(url, savePath, network(attempt));
          return result, sleeps, events, requests;
      }
    }
    assert sleeps + [] == sleeps;
    return Failure(lastError.GetOr("下载失败")), sleeps, events, requests;
  }

  // ---------------------------------------------------------------------
  // Properties of a run

  lemma {:induction false} RetryRequestsBound(url: string, path: string, network: nat -> Attempt, attempt: nat, lastError: Option<string>)
    requires attempt <= MaxAttempts
    ensures RetryFrom(url, path, network, attempt, lastError).requests <= MaxAttempts - attempt
    decreases MaxAttempts - attempt
  {
    if attempt < MaxAttempts && Retryable(network(attempt)) {
      RetryRequestsBound(url, path, network, attempt + 1, Some(AttemptError(network(attempt))));
    }
  }

  /** At most three requests are executed. */
  lemma AtMostThreeRequests(url: string, filename: string, dir: Option<string>, env: Environment)
    ensures DownloadSpec(url, filename, dir, env).requests <= 3
  {
    match SavePath(dir, filename, env.downloadDir)
    case Failure(_) =>
    case Success(path) => RetryRequestsBound(url, path, env.network, 0, None);
  }

  /** When every remaining attempt is retried, the loop runs out: the error
      is the message of the last attempt, one request is made per attempt,
      and the sleeps are the transport errors' backoffs. */
  lemma {:induction false} RetriesExhausted(url: string, path: string, network: nat -> Attempt, attempt: nat, lastError: Option<string>)
    requires attempt < MaxAttempts
    requires forall k :: attempt <= k < MaxAttempts ==> Retryable(network(k))
    ensures RetryFrom(url, path, network, attempt, lastError)
         == Run(Failure(AttemptError(network(MaxAttempts - 1))), Backoffs(network, attempt, MaxAttempts), [], MaxAttempts - attempt)
    decreases MaxAttempts - attempt
  {
    if attempt + 1 < MaxAttempts {
      RetriesExhausted(url, path, network, attempt + 1, Some(AttemptError(network(attempt))));
    }
  }

  /** The first attempt that is not retried decides the run; the attempts
      before it only add their requests and backoffs. */
  lemma {:induction false} FirstFinalAttemptDecides(url: string, path: string, network: nat -> Attempt, attempt: nat, j: nat, lastError: Option<string>)
    requires attempt <= j < MaxAttempts
    requires forall k :: attempt <= k < j ==> Retryable(network(k))
    requires !Retryable(network(j))
    ensures RetryFrom(url, path, network, attempt, lastError)
         == Prepend(Backoffs(network, attempt, j), j - attempt, Conclude(url, path, network(j)))
    decreases j - attempt
  {
    if attempt < j {
      FirstFinalAttemptDecides(url, path, network, attempt + 1, j, Some(AttemptError(network(attempt))));
    }
  }

  /** Three transport errors: three requests, sleeps of 300, 600 and 900 ms
      (the last one after the final attempt), and the third error reported. */
  lemma ThreeTransportErrors(url: string, path: string, network: nat -> Attempt)
    requires forall k: nat :: k < MaxAttempts ==> network(k).TransportFailed?
    ensures RetryFrom(url, path, network, 0, None)
         == Run(Failure("请求失败: " + network(2).error), [300, 600, 900], [], 3)
  {
    RetriesExhausted(url, path, network, 0, None);
  }

  /** Three non-success statuses: three requests, no sleep at all, and the
      last status reported as `HTTP <code> <reason>`, which starts with the
      code's digits. */
  lemma ThreeBadStatuses(url: string, path: string, network: nat -> Attempt)
    requires forall k: nat :: k < MaxAttempts ==> network(k).Responded? && !IsSuccess(network(k).status)
    ensures RetryFrom(url, path, network, 0, None)
         == Run(Failure("HTTP " + StatusText(network(2).status)), [], [], 3)
    ensures StatusText(network(2).status)[..|NatToDecimal(network(2).status.code)|] == NatToDecimal(network(2).status.code)
  {
    RetriesExhausted(url, path, network, 0, None);
  }

  /** How an attempt that is not retried ends: a request that cannot be
      built fails without a request; otherwise one request is made, a file
      creation error fails at once, and a streamed body fails exactly on a
      write error, keeping the events emitted before it. */
  lemma ConcludeOutcomes(url: string, path: string, a: Attempt)
    requires !Retryable(a)
    ensures Conclude(url, path, a).sleeps == []
    ensures a.RequestBuildFailed? ==> Conclude(url, path, a) == Run(Failure("构建请求失败: " + a.error), [], [], 0)
    ensures a.Responded? && a.createError.Some? ==>
      Conclude(url, path, a) == Run(Failure("创建文件失败: " + a.createError.value), [], [], 1)
    ensures a.Responded? && a.createError.None? ==>
      (var t := Stream(url, path, ContentTotal(a.contentLength), a.body, 0);
       Conclude(url, path, a).requests == 1 && Conclude(url, path, a).events == t.events &&
       (Conclude(url, path, a).result == Success(path) <==> t.end == Drained) &&
       (t.end.WriteFailed? ==> Conclude(url, path, a).result == Failure("写入文件失败: " + t.end.error)))
  {
  }

  /** A read error after a successful status is not reported: once the
      chunks before it are written, the call returns the save path. */
  lemma ReadErrorStillSucceeds(url: string, path: string, a: Attempt, j: nat)
    requires a.Responded? && IsSuccess(a.status) && a.createError.None?
    requires j < |a.body| && Clean(a.body[..j]) && a.body[j].ReadFailed?
    ensures Conclude(url, path, a).result == Success(path)
  {
    var body := a.body;
    var t := Stream(url, path, ContentTotal(a.contentLength), body, 0);
    forall i | 0 <= i < |body|
      ensures !(Clean(body[..i]) && body[i].Data? && body[i].size > 0 && body[i].writeError.Some?)
    {
      if i < j {
        assert body[..j][i] == body[i];
      } else if i > j {
        assert body[..i][j] == body[j];
      }
    }
    if t.end.WriteFailed? {
      StreamEndsInWriteError(url, path, ContentTotal(a.contentLength), body, 0, t.end.error);
    }
  }

  /** A read of 0 bytes is the end of the body: once the chunks before it
      are written, the call returns the save path. */
  lemma EmptyReadSucceeds(url: string, path: string, a: Attempt, j: nat)
    requires a.Responded? && IsSuccess(a.status) && a.createError.None?
    requires j < |a.body| && Clean(a.body[..j]) && a.body[j].Data? && a.body[j].size == 0
    ensures Conclude(url, path, a).result == Success(path)
  {
    var body := a.body;
    var t := Stream(url, path, ContentTotal(a.contentLength), body, 0);
    forall i | 0 <= i < |body|
      ensures !(Clean(body[..i]) && body[i].Data? && body[i].size > 0 && body[i].writeError.Some?)
    {
      if i < j {
        assert body[..j][i] == body[i];
      } else if i > j {
        assert body[..i][j] == body[j];
      }
    }
    if t.end.WriteFailed? {
      StreamEndsInWriteError(url, path, ContentTotal(a.contentLength), body, 0, t.end.error);
    }
  }

  /** Errors before the loop: no request, no sleep, no event. */
  lemma PreflightErrors(url: string, filename: string, dir: Option<string>, env: Environment)
    ensures SavePath(dir, filename, env.downloadDir).Failure? ==>
      DownloadSpec(url, filename, dir, env) == Run(SavePath(dir, filename, env.downloadDir), [], [], 0)
    ensures SavePath(dir, filename, env.downloadDir).Success? && env.mkdirError.Some? ==>
      DownloadSpec(url, filename, dir, env) == Run(Failure("创建目录失败: " + env.mkdirError.value), [], [], 0)
    ensures SavePath(dir, filename, env.downloadDir).Success? && env.mkdirError.None? && env.clientError.Some? ==>
      DownloadSpec(url, filename, dir, env) == Run(Failure("构建HTTP客户端失败: " + env.clientError.value), [], [], 0)
  {
  }

  /** The `total` of the events: a Content-Length that parses as `u64`, and
      0 when the header is missing or does not parse. */
  lemma ContentTotalCases(n: nat, s: string, i: nat)
    ensures ContentTotal(None) == 0
    ensures n <= U64Max ==> ContentTotal(Some(NatToDecimal(n))) == n
    ensures n > U64Max ==> ContentTotal(Some(NatToDecimal(n))) == 0
    ensures i < |s| && !IsDigit(s[i]) && !(i == 0 && s[i] == '+') ==> ContentTotal(Some(s)) == 0
  {
    if n <= U64Max {
      ParseU64Decimal(n);
    } else {
      ParseU64Overflow(n);
    }
    if i < |s| && !IsDigit(s[i]) && !(i == 0 && s[i] == '+') {
      ParseU64RejectsNonDigit(s, i);
    }
  }
}
