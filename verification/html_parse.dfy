/** A reader for the HTML that `HtmlTable` writes, and the round trip: as long
    as no title or cell text contains '<', reading a rendered table gives back
    exactly its layout, so the header list, the number of rows and every
    cell's highlight can be recovered from the string. */
module HtmlParse {
  import opened Wrappers
  import opened HtmlTable

  predicate StartsWith(s: string, p: string) {
    |p| <= |s| && s[..|p|] == p
  }

  /** A string does not start with `p` if it differs from `p` at position `i`. */
  lemma DiffersAt(s: string, p: string, i: int)
    requires 0 <= i < |p| && i < |s| && s[i] != p[i]
    ensures !StartsWith(s, p)
  {
    if |p| <= |s| {
      assert s[..|p|][i] == s[i];
    }
  }

  /** Consume the literal `lit` at the front of `s`. */
  function Expect(s: string, lit: string): (r: Option<string>)
    ensures r.Some? <==> StartsWith(s, lit)
    ensures r.Some? ==> s == lit + r.value
  {
    if StartsWith(s, lit) then
      assert s == s[..|lit|] + s[|lit|..];
      Some(s[|lit|..])
    else None
  }

  /** Split `s` at its first '<': the text before it and the rest. */
  function ReadText(s: string): (r: (string, string))
    ensures r.0 + r.1 == s
    ensures '<' !in r.0
    ensures r.1 == [] || r.1[0] == '<'
    decreases |s|
  {
    if |s| == 0 || s[0] == '<' then ([], s)
    else
      var r := ReadText(s[1..]);
      assert s == [s[0]] + s[1..];
      AppendAssoc([s[0]], r.0, r.1);
      ([s[0]] + r.0, r.1)
  }

  /** An opening cell tag, plain or highlighted. */
  function ParseOpen(s: string): (r: Option<(Tag, bool, string)>)
    ensures r.Some? ==> s == OpenTag(r.value.0, r.value.1) + r.value.2
  {
    if StartsWith(s, OpenTag(Th, false)) then Some((Th, false, s[|OpenTag(Th, false)|..]))
    else if StartsWith(s, OpenTag(Th, true)) then Some((Th, true, s[|OpenTag(Th, true)|..]))
    else if StartsWith(s, OpenTag(Td, false)) then Some((Td, false, s[|OpenTag(Td, false)|..]))
    else if StartsWith(s, OpenTag(Td, true)) then Some((Td, true, s[|OpenTag(Td, true)|..]))
    else None
  }

  function ParseCell(s: string): (r: Option<(Cell, string)>)
    ensures r.Some? ==> |r.value.1| < |s|
  {
    match ParseOpen(s)
    case None => None
    case Some((tag, marked, s1)) =>
      var (text, s2) := ReadText(s1);
      match Expect(s2, CloseTag(tag))
      case None => None
      case Some(s3) => Some((Cell(tag, marked, text), s3))
  }

  /** Cells up to the closing `</tr>`, which is left in place. */
  function ParseCells(s: string): (r: Option<(seq<Cell>, string)>)
    ensures r.Some? ==> |r.value.1| <= |s|
    decreases |s|
  {
    if StartsWith(s, "</tr>") then Some(([], s))
    else
      match ParseCell(s)
      case None => None
      case Some((c, s1)) =>
        match ParseCells(s1)
        case None => None
        case Some((cs, s2)) => Some(([c] + cs, s2))
  }

  function ParseRow(s: string): (r: Option<(seq<Cell>, string)>)
    ensures r.Some? ==> |r.value.1| < |s|
  {
    match Expect(s, "<tr>")
    case None => None
    case Some(s1) =>
      match ParseCells(s1)
      case None => None
      case Some((cs, s2)) =>
        match Expect(s2, "</tr>")
        case None => None
        case Some(s3) => Some((cs, s3))
  }

  /** Rows up to the closing `</table>`, which is left in place. */
  function ParseRows(s: string): (r: Option<(seq<seq<Cell>>, string)>)
    ensures r.Some? ==> |r.value.1| <= |s|
    decreases |s|
  {
    if StartsWith(s, "</table>") then Some(([], s))
    else
      match ParseRow(s)
      case None => None
      case Some((row, s1)) =>
        match ParseRows(s1)
        case None => None
        case Some((rows, s2)) => Some(([row] + rows, s2))
  }

  function ParseTable(s: string): (r: Option<(Table, string)>)
    ensures r.Some? ==> |r.value.1| < |s|
  {
    match Expect(s, "<h3>")
    case None => None
    case Some(s1) =>
      var (title, s2) := ReadText(s1);
      match Expect(s2, "</h3><table>")
      case None => None
      case Some(s3) =>
        match ParseRows(s3)
        case None => None
        case Some((rows, s4)) =>
          match Expect(s4, "</table>")
          case None => None
          case Some(s5) => Some((Table(title, rows), s5))
  }

  /** Consecutive tables, for as long as the input starts with `<h3>`. */
  function ParseTables(s: string): (r: Option<(seq<Table>, string)>)
    ensures r.Some? ==> |r.value.1| <= |s|
    decreases |s|
  {
    if !StartsWith(s, "<h3>") then Some(([], s))
    else
      match ParseTable(s)
      case None => None
      case Some((t, s1)) =>
        match ParseTables(s1)
        case None => None
        case Some((ts, s2)) => Some(([t] + ts, s2))
  }

  function TablesHtml(ts: seq<Table>): string
    decreases |ts|
  {
    if |ts| == 0 then "" else TableHtml(ts[0]) + TablesHtml(ts[1..])
  }

  ghost predicate CleanCells(cs: seq<Cell>) {
    forall i :: 0 <= i < |cs| ==> '<' !in cs[i].text
  }

  ghost predicate CleanRows(rows: seq<seq<Cell>>) {
    forall k :: 0 <= k < |rows| ==> CleanCells(rows[k])
  }

  /** No title or cell text of the table contains '<'. */
  ghost predicate CleanTable(t: Table) {
    '<' !in t.title && CleanRows(t.rows)
  }

  lemma {:induction false} ReadTextOf(t: string, rest: string)
    requires '<' !in t
    requires rest == [] || rest[0] == '<'
    ensures ReadText(t + rest) == (t, rest)
    decreases |t|
  {
    if |t| > 0 {
      assert (t + rest)[0] == t[0];
      assert (t + rest)[1..] == t[1..] + rest;
      ReadTextOf(t[1..], rest);
      assert [t[0]] + t[1..] == t;
    } else {
      assert t + rest == rest;
    }
  }

  lemma ExpectOf(lit: string, rest: string)
    ensures Expect(lit + rest, lit) == Some(rest)
  {
    assert (lit + rest)[..|lit|] == lit;
  }

  lemma ParseOpenOf(tag: Tag, marked: bool, rest: string)
    ensures ParseOpen(OpenTag(tag, marked) + rest) == Some((tag, marked, rest))
  {
    var s := OpenTag(tag, marked) + rest;
    assert s[..|OpenTag(tag, marked)|] == OpenTag(tag, marked);
    assert s[|OpenTag(tag, marked)|..] == rest;
    assert s[2] == OpenTag(tag, marked)[2];
    assert s[3] == OpenTag(tag, marked)[3];
    if !StartsWith(s, OpenTag(Th, false)) || tag != Th || marked {
      if tag == Th && marked {
        assert s[3] == ' ';
        assert !StartsWith(s, OpenTag(Th, false));
      } else if tag == Td {
        assert s[2] == 'd';
        assert !StartsWith(s, OpenTag(Th, false));
        assert !StartsWith(s, OpenTag(Th, true));
        if marked {
          assert s[3] == ' ';
          assert !StartsWith(s, OpenTag(Td, false));
        }
      }
    }
  }

  lemma CellHtmlSplit(c: Cell, rest: string)
    ensures CellHtml(c) + rest == OpenTag(c.tag, c.marked) + (c.text + (CloseTag(c.tag) + rest))
  {
  }

  lemma ParseCellOf(c: Cell, rest: string)
    requires '<' !in c.text
    ensures ParseCell(CellHtml(c) + rest) == Some((c, rest))
  {
    var close := CloseTag(c.tag);
    var s1 := c.text + (close + rest);
    CellHtmlSplit(c, rest);
    ParseOpenOf(c.tag, c.marked, s1);
    assert (close + rest)[0] == '<';
    ReadTextOf(c.text, close + rest);
    ExpectOf(close, rest);
  }

  /** A rendered cell never starts with a closing tag. */
  lemma CellNotClosing(c: Cell, rest: string, close: string)
    requires |close| >= 2 && close[1] == '/'
    ensures !StartsWith(CellHtml(c) + rest, close)
  {
    var s := CellHtml(c) + rest;
    assert s[1] == OpenTag(c.tag, c.marked)[1] == 't';
    DiffersAt(s, close, 1);
  }

  lemma AppendAssoc(a: string, b: string, c: string)
    ensures (a + b) + c == a + (b + c)
  {
  }

  /** One step of `ParseCells`: a cell, then the remaining cells. */
  lemma ParseCellsCons(s: string, c: Cell, s1: string, cs: seq<Cell>, s2: string)
    requires !StartsWith(s, "</tr>")
    requires ParseCell(s) == Some((c, s1))
    requires ParseCells(s1) == Some((cs, s2))
    ensures ParseCells(s) == Some(([c] + cs, s2))
  {
  }

  lemma {:induction false} ParseCellsOf(cs: seq<Cell>, rest: string)
    requires CleanCells(cs)
    requires StartsWith(rest, "</tr>")
    ensures ParseCells(CellsHtml(cs) + rest) == Some((cs, rest))
    decreases |cs|
  {
    if |cs| == 0 {
      assert CellsHtml(cs) + rest == rest;
    } else {
      var tail := CellsHtml(cs[1..]) + rest;
      AppendAssoc(CellHtml(cs[0]), CellsHtml(cs[1..]), rest);
      CellNotClosing(cs[0], tail, "</tr>");
      ParseCellOf(cs[0], tail);
      ParseCellsOf(cs[1..], rest);
      ParseCellsCons(CellHtml(cs[0]) + tail, cs[0], tail, cs[1..], rest);
      assert [cs[0]] + cs[1..] == cs;
    }
  }

  lemma ParseRowOf(cs: seq<Cell>, rest: string)
    requires CleanCells(cs)
    ensures ParseRow(RowHtml(cs) + rest) == Some((cs, rest))
  {
    var s1 := CellsHtml(cs) + ("</tr>" + rest);
    assert RowHtml(cs) + rest == "<tr>" + s1;
    ExpectOf("<tr>", s1);
    ExpectOf("</tr>", rest);
    ParseCellsOf(cs, "</tr>" + rest);
  }

  /** One step of `ParseRows`: a row, then the remaining rows. */
  lemma ParseRowsCons(s: string, row: seq<Cell>, s1: string, rows: seq<seq<Cell>>, s2: string)
    requires !StartsWith(s, "</table>")
    requires ParseRow(s) == Some((row, s1))
    requires ParseRows(s1) == Some((rows, s2))
    ensures ParseRows(s) == Some(([row] + rows, s2))
  {
  }

  /** A rendered row never starts like the table's closing tag. */
  lemma RowNotTableEnd(cs: seq<Cell>, rest: string)
    ensures !StartsWith(RowHtml(cs) + rest, "</table>")
  {
    var s := RowHtml(cs) + rest;
    assert s == "<tr>" + (CellsHtml(cs) + "</tr>" + rest);
    assert s[1] == 't';
    DiffersAt(s, "</table>", 1);
  }

  lemma {:induction false} ParseRowsOf(rows: seq<seq<Cell>>, rest: string)
    requires CleanRows(rows)
    requires StartsWith(rest, "</table>")
    ensures ParseRows(RowsHtml(rows) + rest) == Some((rows, rest))
    decreases |rows|
  {
    if |rows| == 0 {
      assert RowsHtml(rows) + rest == rest;
    } else {
      var tail := RowsHtml(rows[1..]) + rest;
      var s := RowHtml(rows[0]) + tail;
      AppendAssoc(RowHtml(rows[0]), RowsHtml(rows[1..]), rest);
      RowNotTableEnd(rows[0], tail);
      ParseRowOf(rows[0], tail);
      ParseRowsOf(rows[1..], rest);
      ParseRowsCons(s, rows[0], tail, rows[1..], rest);
      assert [rows[0]] + rows[1..] == rows;
    }
  }

  /** Reading a rendered table gives back the table and leaves what follows. */
  lemma ParseTableOf(t: Table, rest: string)
    requires CleanTable(t)
    ensures ParseTable(TableHtml(t) + rest) == Some((t, rest))
  {
    var s4 := "</table>" + rest;
    var s3 := RowsHtml(t.rows) + s4;
    var s2 := "</h3><table>" + s3;
    var s1 := t.title + s2;
    AppendAssoc("<h3>" + t.title + "</h3><table>" + RowsHtml(t.rows), "</table>", rest);
    AppendAssoc("<h3>" + t.title + "</h3><table>", RowsHtml(t.rows), s4);
    AppendAssoc("<h3>" + t.title, "</h3><table>", s3);
    AppendAssoc("<h3>", t.title, s2);
    ExpectOf("<h3>", s1);
    ReadTextOf(t.title, s2);
    ExpectOf("</h3><table>", s3);
    ParseRowsOf(t.rows, s4);
    ExpectOf("</table>", rest);
  }

  /** One step of `ParseTables`: a table, then the remaining tables. */
  lemma ParseTablesCons(s: string, t: Table, s1: string, ts: seq<Table>, s2: string)
    requires StartsWith(s, "<h3>")
    requires ParseTable(s) == Some((t, s1))
    requires ParseTables(s1) == Some((ts, s2))
    ensures ParseTables(s) == Some(([t] + ts, s2))
  {
  }

  lemma {:induction false} ParseTablesOf(ts: seq<Table>, rest: string)
    requires forall k :: 0 <= k < |ts| ==> CleanTable(ts[k])
    requires !StartsWith(rest, "<h3>")
    ensures ParseTables(TablesHtml(ts) + rest) == Some((ts, rest))
    decreases |ts|
  {
    if |ts| == 0 {
      assert TablesHtml(ts) + rest == rest;
    } else {
      var tail := TablesHtml(ts[1..]) + rest;
      var s := TableHtml(ts[0]) + tail;
      AppendAssoc(TableHtml(ts[0]), TablesHtml(ts[1..]), rest);
      ExpectOf("<h3>", ts[0].title + "</h3><table>" + RowsHtml(ts[0].rows) + "</table>" + tail);
      ParseTableOf(ts[0], tail);
      ParseTablesOf(ts[1..], rest);
      ParseTablesCons(s, ts[0], tail, ts[1..], rest);
      assert [ts[0]] + ts[1..] == ts;
    }
  }

  /** The inputs of `getHTMLTable` carry no '<' in the title or any cell. */
  ghost predicate PlainInputs(name: string, header: seq<string>, rows: seq<seq<string>>) {
    && '<' !in name
    && (forall i :: 0 <= i < |header| ==> '<' !in header[i])
    && (forall k, i :: 0 <= k < |rows| && 0 <= i < |rows[k]| ==> '<' !in rows[k][i])
  }

  /** Parsing the rendered table reproduces its title, its header list (with
      "End" cells highlighted), one row per input row holding that row's
      items, and the highlight at the last "End" position only. */
  lemma RenderTableRoundTrip(name: string, header: seq<string>, rows: seq<seq<string>>)
    requires PlainInputs(name, header, rows)
    ensures ParseTable(RenderTable(name, header, rows)) == Some((Layout(name, header, rows), ""))
  {
    var t := Layout(name, header, rows);
    LayoutShape(name, header, rows);
    assert CleanCells(t.rows[0]);
    assert forall k :: 1 <= k < |t.rows| ==> CleanCells(t.rows[k]);
    assert RenderTable(name, header, rows) + "" == TableHtml(t);
    ParseTableOf(t, "");
  }
}
