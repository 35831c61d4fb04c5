/** Building SQL text: quotes are doubled, so that what is stored is what was passed. */
module SqlText {
  import opened Bytes
  import opened Text

  const QUOTE: char := '\''

  // ----- reading SQL: a literal ends at a quote that is not doubled -----

  /** The text of a literal behind its opening quote, and what follows the closing one. */
  function LexBody(s: string): (r: Option<(string, string)>)
    ensures r.Some? ==> |r.value.0| + |r.value.1| + 1 <= |s|
  {
    if s == [] then None
    else if s[0] != QUOTE then
      var more :- LexBody(s[1..]);
      Some(([s[0]] + more.0, more.1))
    else if |s| > 1 && s[1] == QUOTE then
      var more :- LexBody(s[2..]);
      Some(([QUOTE] + more.0, more.1))
    else Some(([], s[1..]))
  }

  /** The rows of one string each behind VALUES, up to the semicolon that ends the text. */
  function LexRows(s: string): Option<seq<string>>
    decreases |s|
  {
    var start :- ScanLiteral(s, "('");
    var literal :- LexBody(start);
    var rest :- ScanLiteral(literal.1, ")");
    if rest == ";" then Some([literal.0])
    else
      var next :- ScanLiteral(rest, ",");
      var rows :- LexRows(next);
      Some([literal.0] + rows)
  }

  // ----- escaping -----

  function Escaped(s: string): string {
    if s == [] then []
    else if s[0] == QUOTE then [QUOTE, QUOTE] + Escaped(s[1..])
    else [s[0]] + Escaped(s[1..])
  }

  /** An escaped text reads back as it was, whatever follows its closing quote. */
  lemma {:induction false} EscapedBack(s: string, rest: string)
    requires rest == [] || rest[0] != QUOTE
    ensures LexBody(Escaped(s) + ([QUOTE] + rest)) == Some((s, rest))
  {
    var tail := [QUOTE] + rest;
    if s == [] {
      assert [] + tail == tail && tail[1..] == rest;
    } else {
      EscapedBack(s[1..], rest);
      var more := Escaped(s[1..]) + tail;
      assert s == [s[0]] + s[1..];
      if s[0] == QUOTE {
        var text := [QUOTE, QUOTE] + more;
        assert Escaped(s) + tail == text && text[2..] == more;
      } else {
        var text := [s[0]] + more;
        assert Escaped(s) + tail == text && text[1..] == more;
      }
    }
  }

  /** Without escaping, a text reads back exactly if it has no quote. */
  lemma {:induction false} UnescapedBack(s: string, rest: string)
    requires rest == [] || rest[0] != QUOTE
    ensures LexBody(s + ([QUOTE] + rest)) == Some((s, rest)) <==> QUOTE !in s
  {
    var tail := [QUOTE] + rest;
    var text := s + tail;
    if s == [] {
      assert text == tail && tail[1..] == rest;
    } else if s[0] != QUOTE {
      UnescapedBack(s[1..], rest);
      assert text[1..] == s[1..] + tail;
      assert s == [s[0]] + s[1..];
    }
  }

  /** replace_all: every quote that is found is replaced, and the search goes on behind the two. */
  method Escape(s: string) returns (r: string)
    ensures r == Escaped(s)
  {
    r := s;
    var pos := 0;
    ghost var left := s;
    while pos < |r|
      invariant pos <= |r| && r[pos..] == left && r[..pos] + Escaped(left) == Escaped(s)
      decreases |left|
    {
      assert left == [r[pos]] + left[1..];
      if r[pos] == QUOTE {
        EscapeStep(r[..pos], left);
        r := r[..pos] + [QUOTE, QUOTE] + r[pos + 1..];
        pos := pos + 2;
      } else {
        EscapeStep(r[..pos], left);
        pos := pos + 1;
      }
      left := left[1..];
    }
  }

  lemma EscapeStep(done: string, left: string)
    requires left != []
    ensures done + Escaped(left)
         == done + (if left[0] == QUOTE then [QUOTE, QUOTE] else [left[0]]) + Escaped(left[1..])
  {
    Associate(done, if left[0] == QUOTE then [QUOTE, QUOTE] else [left[0]], Escaped(left[1..]));
  }

  lemma Associate(a: string, b: string, c: string)
    ensures a + (b + c) == (a + b) + c
  {
  }

  // ----- the rows of a playlist -----

  function Row(path: string): string {
    "('" + (Escaped(path) + "'),")
  }

  function Rows(paths: seq<string>): string {
    if paths == [] then "" else Rows(paths[..|paths| - 1]) + Row(paths[|paths| - 1])
  }

  /** The comma behind the last row gives way to a semicolon. */
  function Values(paths: seq<string>): string
    requires paths != []
  {
    Rows(paths)[..|Rows(paths)| - 1] + ";"
  }

  lemma RowsSnoc(paths: seq<string>, path: string)
    ensures Rows(paths + [path]) == Rows(paths) + Row(path)
  {
    hide Row;
    assert (paths + [path])[..|paths|] == paths;
  }

  lemma RowsOne(path: string)
    ensures Rows([path]) == Row(path)
  {
    hide Row;
    assert [path][..0] == [];
  }

  lemma {:induction false} RowsFront(paths: seq<string>)
    requires paths != []
    ensures Rows(paths) == Row(paths[0]) + Rows(paths[1..])
  {
    hide Rows, Row;
    var n := |paths| - 1;
    if n == 0 {
      RowsOne(paths[0]);
      assert paths == [paths[0]];
      NoRows(paths[1..]);
    } else {
      var front, middle, last := paths[..n], paths[1..n], paths[n];
      RowsFront(front);
      assert front[1..] == middle;
      RowsSnoc(front, last);
      RowsSnoc(middle, last);
      assert paths == front + [last] && paths[1..] == middle + [last];
      assert (Row(paths[0]) + Rows(middle)) + Row(last) == Row(paths[0]) + (Rows(middle) + Row(last));
    }
  }

  lemma NoRows(paths: seq<string>)
    requires paths == []
    ensures Rows(paths) == []
  {
  }

  lemma ValuesFront(paths: seq<string>)
    requires paths != []
    ensures var last := if |paths| == 1 then ";" else "," + Values(paths[1..]);
            Values(paths) == "('" + (Escaped(paths[0]) + ([QUOTE] + (")" + last)))
  {
    RowsFront(paths);
    var row, rows := Row(paths[0]), Rows(paths[1..]);
    if |paths| > 1 {
      assert (row + rows)[..|row + rows| - 1] == row + rows[..|rows| - 1];
    }
  }

  lemma RowBack(path: string, last: string)
    ensures var text := "('" + (Escaped(path) + ([QUOTE] + (")" + last)));
            ScanLiteral(text, "('").Some? && LexBody(ScanLiteral(text, "('").value) == Some((path, ")" + last))
  {
    LiteralOf("('", Escaped(path) + ([QUOTE] + (")" + last)));
    EscapedBack(path, ")" + last);
  }

  lemma LastRowBack(path: string)
    ensures LexRows("('" + (Escaped(path) + ([QUOTE] + (")" + ";")))) == Some([path])
  {
    RowBack(path, ";");
    LiteralOf(")", ";");
    hide LexBody, Escaped, ScanLiteral;
  }

  lemma NextRowBack(path: string, more: string, rows: seq<string>)
    requires LexRows(more) == Some(rows)
    ensures LexRows("('" + (Escaped(path) + ([QUOTE] + (")" + ("," + more))))) == Some([path] + rows)
  {
    var last := "," + more;
    RowBack(path, last);
    LiteralOf(")", last);
    LiteralOf(",", more);
    assert last[0] == ',';
    hide LexBody, Escaped, ScanLiteral;
  }

  /** One row per string, in order, each equal to the original. */
  lemma {:induction false} ValuesBack(paths: seq<string>)
    requires paths != []
    ensures LexRows(Values(paths)) == Some(paths)
  {
    ValuesFront(paths);
    hide LexRows, Escaped, Values;
    assert paths == [paths[0]] + paths[1..];
    if |paths| == 1 {
      LastRowBack(paths[0]);
      assert paths == [paths[0]];
    } else {
      ValuesBack(paths[1..]);
      NextRowBack(paths[0], Values(paths[1..]), paths[1..]);
    }
  }

  class Database {
    var queries: seq<string>

    constructor ()
      ensures queries == []
    {
      queries := [];
    }

    method Push(query: string)
      modifies this
      ensures queries == old(queries) + [query]
    {
      queries := queries + [query];
    }

    /** The list form: the text behind VALUES holds exactly the given strings. */
    method AddToPlaylist(name: string, paths: seq<string>)
      modifies this
      ensures paths == [] ==> queries == old(queries)
      ensures paths != [] ==>
        exists values: string ::
          && queries == old(queries) + ["CREATE TABLE IF NOT EXISTS [" + name + "] (path TEXT PRIMARY KEY);",
                                        "REPLACE INTO [" + name + "] VALUES " + values]
          && LexRows(values) == Some(paths)
    {
      if |paths| == 0 {
        return;
      }
      var prefix := "REPLACE INTO [" + name + "] VALUES ";
      var vals := "";
      for k := 0 to |paths|
        invariant vals == Rows(paths[..k]) && queries == old(queries)
      {
        assert paths[..k + 1][..k] == paths[..k];
        var escaped := Escape(paths[k]);
        vals := vals + ("('" + (escaped + "'),"));
      }
      assert paths[..|paths|] == paths;
      ValuesBack(paths);
      assert |vals| > 0;
      vals := vals[..|vals| - 1] + ";";
      assert vals == Values(paths);
      hide Values, LexRows, Rows;
      var create := "CREATE TABLE IF NOT EXISTS [" + name + "] (path TEXT PRIMARY KEY);";
      Push(create);
      Push(prefix + vals);
    }
  }
}
