/** The report's HTML table renderer (`getHTMLTable`).

    A table is first laid out as rows of cells, each cell knowing its tag
    (`th` for the header row, `td` for data rows), whether it carries the
    red highlight, and its text; the layout is then written out as HTML.
    Cell texts are inserted verbatim: the renderer does no escaping. */
module HtmlTable {

  /** The one column name that the renderer highlights (case-sensitive). */
  const EndName: string := "End"

  datatype Tag = Th | Td

  datatype Cell = Cell(tag: Tag, marked: bool, text: string)

  /** A titled table; `rows[0]` is the header row. */
  datatype Table = Table(title: string, rows: seq<seq<Cell>>)

  /** `i` is the last position of `x` in `s`. */
  ghost predicate IsLastIndex(s: seq<string>, x: string, i: int) {
    0 <= i < |s| && s[i] == x && forall j :: i < j < |s| ==> s[j] != x
  }

  /** The last position of `x` in `s`, or -1 when `x` does not occur. This is
      the value `end_column` holds after the header loop, since that loop
      overwrites it at every occurrence. */
  function LastIndex(s: seq<string>, x: string): (r: int)
    ensures -1 <= r < |s|
    ensures r == -1 <==> x !in s
    ensures forall i :: 0 <= i < |s| ==> (IsLastIndex(s, x, i) <==> i == r)
    decreases |s|
  {
    if |s| == 0 then -1
    else
      var n := |s| - 1;
      if s[n] == x then n
      else
        assert s == s[..n] + [s[n]];
        assert forall i :: IsLastIndex(s, x, i) <==> IsLastIndex(s[..n], x, i);
        LastIndex(s[..n], x)
  }

  function HeaderCell(head: string): Cell {
    Cell(Th, head == EndName, head)
  }

  function HeaderCells(header: seq<string>): seq<Cell> {
    seq(|header|, i requires 0 <= i < |header| => HeaderCell(header[i]))
  }

  /** The cells of one data row: position `endColumn` is highlighted. */
  function DataCells(row: seq<string>, endColumn: int): seq<Cell> {
    seq(|row|, i requires 0 <= i < |row| => Cell(Td, i == endColumn, row[i]))
  }

  /** The layout `getHTMLTable` produces: one header row, then one row per
      data row in input order, with data cells highlighted at `end_column`. */
  function Layout(name: string, header: seq<string>, rows: seq<seq<string>>): Table {
    var endColumn := LastIndex(header, EndName);
    Table(name, [HeaderCells(header)] + seq(|rows|, k requires 0 <= k < |rows| => DataCells(rows[k], endColumn)))
  }

  /** Shape and highlighting of the layout: a header cell is highlighted
      exactly when its text is "End"; a data cell exactly when its position
      is the LAST position of "End" in the header; every data row has as
      many cells as it has items, whatever the header's length. */
  lemma LayoutShape(name: string, header: seq<string>, rows: seq<seq<string>>)
    ensures var t := Layout(name, header, rows);
      && t.title == name
      && |t.rows| == |rows| + 1
      && |t.rows[0]| == |header|
      && (forall i :: 0 <= i < |header| ==>
            t.rows[0][i].tag == Th && t.rows[0][i].text == header[i] &&
            (t.rows[0][i].marked <==> header[i] == EndName))
      && (forall k :: 1 <= k <= |rows| ==> |t.rows[k]| == |rows[k - 1]|)
      && (forall k, i :: 1 <= k <= |rows| && 0 <= i < |t.rows[k]| ==>
            t.rows[k][i].tag == Td && t.rows[k][i].text == rows[k - 1][i] &&
            (t.rows[k][i].marked <==> IsLastIndex(header, EndName, i)))
  {
  }

  /** Without an "End" header no data cell is highlighted. */
  lemma NoEndNoHighlight(name: string, header: seq<string>, rows: seq<seq<string>>)
    requires EndName !in header
    ensures var t := Layout(name, header, rows);
      forall k, i :: 1 <= k < |t.rows| && 0 <= i < |t.rows[k]| ==> !t.rows[k][i].marked
  {
  }

  function OpenTag(tag: Tag, marked: bool): string {
    match tag
    case Th => if marked then "<th bgcolor='#D45B5B'>" else "<th>"
    case Td => if marked then "<td bgcolor='#D45B5B'>" else "<td>"
  }

  function CloseTag(tag: Tag): string {
    match tag
    case Th => "</th>"
    case Td => "</td>"
  }

  function CellHtml(c: Cell): string {
    OpenTag(c.tag, c.marked) + c.text + CloseTag(c.tag)
  }

  function CellsHtml(cs: seq<Cell>): string
    decreases |cs|
  {
    if |cs| == 0 then "" else CellHtml(cs[0]) + CellsHtml(cs[1..])
  }

  function RowHtml(cs: seq<Cell>): string {
    "<tr>" + CellsHtml(cs) + "</tr>"
  }

  function RowsHtml(rs: seq<seq<Cell>>): string
    decreases |rs|
  {
    if |rs| == 0 then "" else RowHtml(rs[0]) + RowsHtml(rs[1..])
  }

  function TableHtml(t: Table): string {
    "<h3>" + t.title + "</h3><table>" + RowsHtml(t.rows) + "</table>"
  }

  /** `getHTMLTable(table_name, header, rows)` as a function. */
  function RenderTable(name: string, header: seq<string>, rows: seq<seq<string>>): string {
    TableHtml(Layout(name, header, rows))
  }

  lemma {:induction false} CellsHtmlAppend(cs: seq<Cell>, c: Cell)
    ensures CellsHtml(cs + [c]) == CellsHtml(cs) + CellHtml(c)
    decreases |cs|
  {
    if |cs| > 0 {
      assert (cs + [c])[1..] == cs[1..] + [c];
      CellsHtmlAppend(cs[1..], c);
    }
  }

  lemma {:induction false} RowsHtmlAppend(rs: seq<seq<Cell>>, r: seq<Cell>)
    ensures RowsHtml(rs + [r]) == RowsHtml(rs) + RowHtml(r)
    decreases |rs|
  {
    if |rs| > 0 {
      assert (rs + [r])[1..] == rs[1..] + [r];
      RowsHtmlAppend(rs[1..], r);
    }
  }

  /** A table with no data rows is the title and the header row alone. */
  lemma HeaderOnlyTable(name: string, header: seq<string>)
    ensures RenderTable(name, header, []) ==
      "<h3>" + name + "</h3><table>" + RowHtml(HeaderCells(header)) + "</table>"
  {
    var t := Layout(name, header, []);
    assert t.rows == [HeaderCells(header)];
    assert RowsHtml(t.rows) == RowHtml(HeaderCells(header)) + RowsHtml([]);
    assert RowsHtml(t.rows) == RowHtml(HeaderCells(header));
  }

  lemma HeaderCellsSnoc(hs: seq<string>, h: string)
    ensures HeaderCells(hs + [h]) == HeaderCells(hs) + [HeaderCell(h)]
  {
    assert forall i :: 0 <= i < |hs| ==> (hs + [h])[i] == hs[i];
  }

  lemma DataCellsSnoc(row: seq<string>, x: string, endColumn: int)
    ensures DataCells(row + [x], endColumn) == DataCells(row, endColumn) + [Cell(Td, |row| == endColumn, x)]
  {
    assert forall i :: 0 <= i < |row| ==> (row + [x])[i] == row[i];
  }

  /** The header loop of `getHTMLTable`: the header cells' HTML, and
      `end_column`, overwritten at every "End" so that the last one wins. */
  method HeaderRow(header: seq<string>) returns (tableHead: string, endColumn: int)
    ensures tableHead == CellsHtml(HeaderCells(header))
    ensures endColumn == LastIndex(header, EndName)
  {
    tableHead := "";
    endColumn := -1;
    var index := 0;
    while index < |header|
      invariant 0 <= index <= |header|
      invariant endColumn == LastIndex(header[..index], EndName)
      invariant tableHead == CellsHtml(HeaderCells(header[..index]))
    {
      var head := header[index];
      CellsHtmlAppend(HeaderCells(header[..index]), HeaderCell(head));
      assert header[..index + 1] == header[..index] + [head];
      HeaderCellsSnoc(header[..index], head);
      assert header[..index + 1][..index] == header[..index];
      if head == EndName {
        tableHead := tableHead + ("<th bgcolor='#D45B5B'>" + head + "</th>");
        endColumn := index;
      } else {
        tableHead := tableHead + ("<th>" + head + "</th>");
      }
      index := index + 1;
    }
    assert header[..index] == header;
  }

  /** The per-row loop of `getHTMLTable`: only the item at `endColumn` is
      highlighted. */
  method DataRow(row: seq<string>, endColumn: int) returns (tableRow: string)
    ensures tableRow == CellsHtml(DataCells(row, endColumn))
  {
    tableRow := "";
    var i := 0;
    while i < |row|
      invariant 0 <= i <= |row|
      invariant tableRow == CellsHtml(DataCells(row[..i], endColumn))
    {
      var cell := Cell(Td, i == endColumn, row[i]);
      CellsHtmlAppend(DataCells(row[..i], endColumn), cell);
      assert row[..i + 1] == row[..i] + [row[i]];
      DataCellsSnoc(row[..i], row[i], endColumn);
      if i == endColumn {
        tableRow := tableRow + ("<td bgcolor='#D45B5B'>" + row[i] + "</td>");
      } else {
        tableRow := tableRow + ("<td>" + row[i] + "</td>");
      }
      i := i + 1;
    }
    assert row[..i] == row;
  }

  /** The closing loop of `getHTMLTable`: each collected row string wrapped
      in `<tr>`, in order. */
  method WrapRows(items: seq<string>, ghost rows: seq<seq<Cell>>) returns (table: string)
    requires |items| == |rows|
    requires forall j :: 0 <= j < |rows| ==> items[j] == CellsHtml(rows[j])
    ensures table == RowsHtml(rows)
  {
    table := "";
    var m := 0;
    while m < |items|
      invariant 0 <= m <= |items|
      invariant table == RowsHtml(rows[..m])
    {
      RowsHtmlAppend(rows[..m], rows[m]);
      assert rows[..m + 1] == rows[..m] + [rows[m]];
      table := table + ("<tr>" + items[m] + "</tr>");
      m := m + 1;
    }
    assert rows[..m] == rows;
  }

  /** Appending the next row's HTML keeps `items` in step with `rs`. */
  lemma ItemsSnoc(items: seq<string>, x: string, rs: seq<seq<Cell>>)
    requires |items| < |rs|
    requires forall j :: 0 <= j < |items| ==> items[j] == CellsHtml(rs[j])
    requires x == CellsHtml(rs[|items|])
    ensures forall j :: 0 <= j <= |items| ==> (items + [x])[j] == CellsHtml(rs[j])
  {
  }

  /** `getHTMLTable` as the source writes it: the header loop, the data-row
      loop collecting one string per row, then wrapping each collected row in
      `<tr>` and the whole in the titled table. */
  method GetHTMLTable(tableName: string, header: seq<string>, rows: seq<seq<string>>) returns (html: string)
    ensures html == RenderTable(tableName, header, rows)
  {
    var tableHead, endColumn := HeaderRow(header);
    ghost var layout := Layout(tableName, header, rows);
    var tableItems := [tableHead];
    var k := 0;
    while k < |rows|
      invariant 0 <= k <= |rows|
      invariant |tableItems| == k + 1
      invariant forall j :: 0 <= j <= k ==> tableItems[j] == CellsHtml(layout.rows[j])
    {
      var tableRow := DataRow(rows[k], endColumn);
      assert layout.rows[k + 1] == DataCells(rows[k], endColumn);
      ItemsSnoc(tableItems, tableRow, layout.rows);
      tableItems := tableItems + [tableRow];
      k := k + 1;
    }
    var table := WrapRows(tableItems, layout.rows);
    html := "<h3>" + tableName + "</h3><table>" + table + "</table>";
  }
}
