/** The DELETE statement that `cleanup_old_tasks` builds by hand
    (src-tauri/src/simple_database.rs:196-204): every id becomes an SQL
    character string literal, quoted with `'` and with each `'` inside
    doubled, as section 5.3 (<literal>) of ISO/IEC 9075-2 (SQL:2016 Part 2)
    defines <character string literal>; the literals are joined by ", ".

    The second half of the module is how the database engine reads such a
    list back, so that the statement can be shown to name exactly the ids
    it was built from. */
module SqlLiteral {
  import opened Wrappers

  /** `id.replace("'", "''")`. */
  function Escape(s: string): string
    decreases |s|
  {
    if s == [] then [] else (if s[0] == '\'' then "''" else [s[0]]) + Escape(s[1..])
  }

  /** `format!("'{}'", id.replace("'", "''"))`. */
  function Quote(id: string): string {
    "'" + Escape(id) + "'"
  }

  /** The quoted ids separated by ", ". */
  function JoinQuoted(ids: seq<string>): string
    decreases |ids|
  {
    if ids == [] then ""
    else if |ids| == 1 then Quote(ids[0])
    else Quote(ids[0]) + ", " + JoinQuoted(ids[1..])
  }

  const DeletePrefix := "DELETE FROM batch_tasks WHERE id IN ("

  function DeleteStatement(ids: seq<string>): string {
    DeletePrefix + JoinQuoted(ids) + ")"
  }

  lemma {:induction false} JoinQuotedSnoc(ids: seq<string>, x: string)
    ensures JoinQuoted(ids + [x]) == JoinQuoted(ids) + (if ids == [] then "" else ", ") + Quote(x)
    decreases |ids|
  {
    if |ids| > 1 {
      assert (ids + [x])[1..] == ids[1..] + [x];
      JoinQuotedSnoc(ids[1..], x);
    } else if |ids| == 1 {
      assert (ids + [x])[1..] == [x];
    }
  }

  /** The `params_str` loop: `", "` before every id but the first. */
  method BuildIdList(ids: seq<string>) returns (s: string)
    ensures s == JoinQuoted(ids)
  {
    s := "";
    for i := 0 to |ids|
      invariant s == JoinQuoted(ids[..i])
    {
      if i > 0 {
        s := s + ", ";
      }
      s := s + Quote(ids[i]);
      JoinQuotedSnoc(ids[..i], ids[i]);
      assert ids[..i + 1] == ids[..i] + [ids[i]];
    }
    assert ids[..|ids|] == ids;
  }

  // ---------------------------------------------------------------------
  // Reading the statement back

  /** The rest of a string literal after its opening quote: `''` stands for
      one quote and a lone `'` closes the literal. Yields the value and the
      text after the closing quote. */
  function LiteralBody(s: string): (r: Option<(string, string)>)
    ensures r.Some? ==> |r.value.1| < |s|
    decreases |s|
  {
    if s == [] then None
    else if s[0] == '\'' then
      if |s| > 1 && s[1] == '\'' then
        match LiteralBody(s[2..])
        case None => None
        case Some((v, rest)) => Some(("'" + v, rest))
      else Some(("", s[1..]))
    else
      match LiteralBody(s[1..])
      case None => None
      case Some((v, rest)) => Some(([s[0]] + v, rest))
  }

  function ParseLiteral(s: string): (r: Option<(string, string)>)
    ensures r.Some? ==> |r.value.1| + 2 <= |s|
  {
    if s != [] && s[0] == '\'' then LiteralBody(s[1..]) else None
  }

  /** A non-empty list of literals separated by ", ". */
  function ParseIdList(s: string): Option<seq<string>>
    decreases |s|
  {
    match ParseLiteral(s)
    case None => None
    case Some((v, rest)) =>
      if rest == [] then Some([v])
      else if |rest| >= 2 && rest[..2] == ", " then
        match ParseIdList(rest[2..])
        case None => None
        case Some(vs) => Some([v] + vs)
      else None
  }

  /** The ids a `DELETE ... WHERE id IN (...)` statement names. */
  function ParseDeleteStatement(sql: string): Option<seq<string>> {
    var n := |DeletePrefix|;
    if |sql| > n && sql[..n] == DeletePrefix && sql[|sql| - 1] == ')'
    then ParseIdList(sql[n..|sql| - 1])
    else None
  }

  /** Reading an escaped value followed by the closing quote gives back the
      value, provided what follows cannot be taken for a doubled quote. */
  lemma {:induction false} LiteralBodyOfEscape(v: string, rest: string)
    requires rest == [] || rest[0] != '\''
    ensures LiteralBody(Escape(v) + "'" + rest) == Some((v, rest))
    decreases |v|
  {
    var s := Escape(v) + "'" + rest;
    if v == [] {
      assert s == "'" + rest;
      assert s[1..] == rest;
    } else if v[0] == '\'' {
      assert s == "''" + (Escape(v[1..]) + "'" + rest);
      assert s[2..] == Escape(v[1..]) + "'" + rest;
      LiteralBodyOfEscape(v[1..], rest);
      assert v == "'" + v[1..];
    } else {
      assert s == [v[0]] + (Escape(v[1..]) + "'" + rest);
      assert s[1..] == Escape(v[1..]) + "'" + rest;
      LiteralBodyOfEscape(v[1..], rest);
      assert v == [v[0]] + v[1..];
    }
  }

  lemma QuoteRoundTrip(v: string, rest: string)
    requires rest == [] || rest[0] != '\''
    ensures ParseLiteral(Quote(v) + rest) == Some((v, rest))
  {
    LiteralBodyOfEscape(v, rest);
    assert (Quote(v) + rest)[1..] == Escape(v) + "'" + rest;
  }

  /** Un-quoting the list gives back exactly the ids, in order. */
  lemma {:induction false} IdListRoundTrip(ids: seq<string>)
    requires ids != []
    ensures ParseIdList(JoinQuoted(ids)) == Some(ids)
    decreases |ids|
  {
    if |ids| == 1 {
      QuoteRoundTrip(ids[0], "");
      assert JoinQuoted(ids) == Quote(ids[0]) == Quote(ids[0]) + "";
      assert ids == [ids[0]];
    } else {
      var tail := ", " + JoinQuoted(ids[1..]);
      assert JoinQuoted(ids) == Quote(ids[0]) + tail;
      QuoteRoundTrip(ids[0], tail);
      assert tail[..2] == ", " && tail[2..] == JoinQuoted(ids[1..]);
      IdListRoundTrip(ids[1..]);
      assert ids == [ids[0]] + ids[1..];
    }
  }

  /** The DELETE statement names exactly the ids it was built from. */
  lemma DeleteStatementRoundTrip(ids: seq<string>)
    requires ids != []
    ensures ParseDeleteStatement(DeleteStatement(ids)) == Some(ids)
  {
    var sql := DeleteStatement(ids);
    var n := |DeletePrefix|;
    assert sql[..n] == DeletePrefix;
    assert sql[n..|sql| - 1] == JoinQuoted(ids);
    IdListRoundTrip(ids);
  }
}
