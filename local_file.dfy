/** `read_local_file` (src-tauri/src/main.rs:92-121): read a file and hand it
    back as a base64 `data:` URI whose MIME type is chosen from the path's
    extension. The file system and the base64 engine are inputs: the outcome
    of opening and reading the file, and the encoder as a function value. */
module LocalFile {
  import opened Wrappers
  import opened Text

  newtype byte = x: int | 0 <= x < 256

  /** What the operating system answers when the file is opened and read to the end. */
  datatype FileRead =
    | OpenFailed(error: string)
    | ReadFailed(error: string)
    | Contents(bytes: seq<byte>)

  /** The MIME type for a path: suffixes tested on the lower-cased path,
      in the source's order. */
  function MimeType(path: string): string {
    var p := AsciiLower(path);
    if EndsWith(p, ".png") then "image/png"
    else if EndsWith(p, ".jpg") || EndsWith(p, ".jpeg") then "image/jpeg"
    else if EndsWith(p, ".gif") then "image/gif"
    else if EndsWith(p, ".webp") then "image/webp"
    else "application/octet-stream"
  }

  /** Reference table: the MIME type for an already lower-cased extension. */
  function MimeForExtension(ext: string): string {
    match ext
    case "png" => "image/png"
    case "jpg" => "image/jpeg"
    case "jpeg" => "image/jpeg"
    case "gif" => "image/gif"
    case "webp" => "image/webp"
    case _ => "application/octet-stream"
  }

  function DataUri(mime: string, payload: string): string {
    "data:" + mime + ";base64," + payload
  }

  /** The path as Rust's `{:?}` shows it in the open error: in double quotes. */
  function QuotedPath(path: string): string {
    "\"" + path + "\""
  }

  function ReadLocalFile(path: string, file: FileRead, encode: seq<byte> -> string): Result<string, string> {
    match file
    case OpenFailed(e) => Failure("无法打开文件: " + e + " (路径: " + QuotedPath(path) + ")")
    case ReadFailed(e) => Failure("读取文件失败: " + e)
    case Contents(bytes) => Success(DataUri(MimeType(path), encode(bytes)))
  }

  // ---------------------------------------------------------------------
  // The MIME choice depends only on the lower-cased extension

  /** A dot-free extension `x` ends `a + "." + ext` exactly when it is `ext`. */
  lemma DotSuffix(a: string, ext: string, x: string)
    requires '.' !in ext && '.' !in x
    ensures EndsWith(a + "." + ext, "." + x) <==> ext == x
  {
    var p := a + "." + ext;
    var q := "." + x;
    if |ext| < |x| {
      if |q| <= |p| {
        // the separator of `p` stands where `q` has a letter of `x`
        var k := |x| - |ext|;
        assert p[|p| - |q|..][k] == p[|p| - 1 - |ext|] == '.';
        assert q[k] == x[k - 1] && x[k - 1] in x;
      }
    } else if |ext| > |x| {
      assert p[|p| - |q|] == ext[|ext| - |q|] && ext[|ext| - |q|] in ext;
      assert p[|p| - |q|..][0] == p[|p| - |q|];
    } else {
      assert p[|p| - |q|..] == "." + ext;
      assert ("." + ext)[1..] == ext && q[1..] == x;
    }
  }

  lemma {:induction false} LowerKeepsDotFree(s: string)
    requires '.' !in s
    ensures '.' !in AsciiLower(s)
  {
    if '.' in AsciiLower(s) {
      var i :| 0 <= i < |s| && AsciiLower(s)[i] == '.';
      LowerCharKeepsNonLetter(s[i], '.');
    }
  }

  /** Lower-casing `stem.ext` lower-cases the stem and the extension apart. */
  lemma LowerOfDotted(stem: string, ext: string)
    requires '.' !in ext
    ensures AsciiLower(stem + "." + ext) == AsciiLower(stem) + "." + AsciiLower(ext)
    ensures '.' !in AsciiLower(ext)
  {
    AsciiLowerConcat(stem + ".", ext);
    AsciiLowerConcat(stem, ".");
    assert AsciiLower(".") == ".";
    LowerKeepsDotFree(ext);
  }

  /** The source's chain of suffix tests, read on the extension alone. */
  lemma MimeTypeOfDotted(a: string, e: string, path: string)
    requires AsciiLower(path) == a + "." + e && '.' !in e
    ensures MimeType(path) == MimeForExtension(e)
  {
    assert ".png" == "." + "png" && ".jpg" == "." + "jpg" && ".jpeg" == "." + "jpeg";
    assert ".gif" == "." + "gif" && ".webp" == "." + "webp";
    DotSuffix(a, e, "png");
    DotSuffix(a, e, "jpg");
    DotSuffix(a, e, "jpeg");
    DotSuffix(a, e, "gif");
    DotSuffix(a, e, "webp");
  }

  /** For a path `stem.ext` whose extension has no dot, the MIME type is the
      table's entry for the lower-cased extension, whatever the stem. */
  lemma MimeTypeByExtension(stem: string, ext: string)
    requires '.' !in ext
    ensures MimeType(stem + "." + ext) == MimeForExtension(AsciiLower(ext))
  {
    LowerOfDotted(stem, ext);
    MimeTypeOfDotted(AsciiLower(stem), AsciiLower(ext), stem + "." + ext);
  }

  lemma NoDottedSuffix(p: string, x: string)
    requires '.' !in p && x != [] && x[0] == '.'
    ensures !EndsWith(p, x)
  {
    if |x| <= |p| {
      assert p[|p| - |x|] in p;
      assert p[|p| - |x|..][0] == p[|p| - |x|];
    }
  }

  /** A path without any dot is served as `application/octet-stream`. */
  lemma MimeTypeWithoutDot(path: string)
    requires '.' !in path
    ensures MimeType(path) == "application/octet-stream"
  {
    var p := AsciiLower(path);
    LowerKeepsDotFree(path);
    NoDottedSuffix(p, ".png");
    NoDottedSuffix(p, ".jpg");
    NoDottedSuffix(p, ".jpeg");
    NoDottedSuffix(p, ".gif");
    NoDottedSuffix(p, ".webp");
  }

  /** Only the lower-cased path matters: case variants get the same type. */
  lemma MimeTypeIgnoresCase(p: string, q: string)
    requires AsciiLower(p) == AsciiLower(q)
    ensures MimeType(p) == MimeType(q)
  {
  }

  // ---------------------------------------------------------------------
  // The data URI shape

  function IndexOf(s: string, c: char): (r: Option<nat>)
    ensures r.Some? ==> r.value < |s| && s[r.value] == c && c !in s[..r.value]
    ensures r.None? ==> c !in s
  {
    if s == [] then None
    else if s[0] == c then Some(0)
    else match IndexOf(s[1..], c)
      case None => None
      case Some(i) => assert s[..i + 1] == [s[0]] + s[1..][..i]; Some(i + 1)
  }

  lemma {:induction false} IndexOfFirst(s: string, c: char, i: nat)
    requires i < |s| && s[i] == c && c !in s[..i]
    ensures IndexOf(s, c) == Some(i)
  {
    if i > 0 {
      assert s[0] in s[..i];
      assert s[1..][..i - 1] == s[1..i];
      assert forall d :: d in s[1..i] ==> d in s[..i];
      IndexOfFirst(s[1..], c, i - 1);
    }
  }

  /** Splits a `data:<mime>;base64,<payload>` URI at the first `;`. */
  function ParseDataUri(uri: string): Option<(string, string)> {
    if |uri| < 5 || uri[..5] != "data:" then None
    else
      var rest := uri[5..];
      match IndexOf(rest, ';')
      case None => None
      case Some(k) =>
        if |rest| - k >= 8 && rest[k..k + 8] == ";base64," then Some((rest[..k], rest[k + 8..])) else None
  }

  lemma DataUriRoundTrip(mime: string, payload: string)
    requires ';' !in mime
    ensures ParseDataUri(DataUri(mime, payload)) == Some((mime, payload))
  {
    var uri := DataUri(mime, payload);
    assert uri[..5] == "data:";
    var rest := uri[5..];
    assert rest == mime + ";base64," + payload;
    assert rest[|mime|] == ';' && rest[..|mime|] == mime;
    IndexOfFirst(rest, ';', |mime|);
    assert rest[|mime|..|mime| + 8] == ";base64,";
    assert rest[|mime| + 8..] == payload;
  }

  lemma MimeTypeHasNoSemicolon(path: string)
    ensures ';' !in MimeType(path)
  {
    var types := ["image/png", "image/jpeg", "image/gif", "image/webp", "application/octet-stream"];
    assert MimeType(path) in types;
    assert forall t :: t in types ==> ';' !in t;
  }

  /** A successful read yields a `data:` URI that splits back into the
      MIME type of the path and the encoding of exactly the bytes read;
      open and read failures are reported with their own prefixes. */
  lemma ReadLocalFileShape(path: string, file: FileRead, encode: seq<byte> -> string)
    ensures file.Contents? ==>
      ReadLocalFile(path, file, encode).Success? &&
      ParseDataUri(ReadLocalFile(path, file, encode).value) == Some((MimeType(path), encode(file.bytes)))
    ensures file.OpenFailed? ==>
      ReadLocalFile(path, file, encode).Failure? &&
      ReadLocalFile(path, file, encode).error[..|"无法打开文件: "|] == "无法打开文件: "
    ensures file.ReadFailed? ==>
      ReadLocalFile(path, file, encode) == Failure("读取文件失败: " + file.error)
  {
    if file.Contents? {
      MimeTypeHasNoSemicolon(path);
      DataUriRoundTrip(MimeType(path), encode(file.bytes));
    }
  }
}
