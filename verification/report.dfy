/** The report document (`makeMessage`) and the handler's recipient logic
    (`lambda_handler`).

    The SDK calls are parameters: the five `describe_*` responses arrive as
    record lists, the mailing-table scan as its items, the identity list as
    strings, and the date prefix of the archive key as a string. Turning a
    cell value into text (Python's `str.format`) is the parameter `show`. */
module Report {
  import opened Wrappers
  import opened Seqs
  import opened HtmlTable
  import opened HtmlParse
  import opened Selection

  /** The text of each source line of the document head, up to and
      including `<body>`. The source writes the head as one string literal
      continued over these lines with a backslash, so the line breaks are
      dropped and each line's indentation is part of the text. */
  const HeadLines: seq<string> := [
    "<!DOCTYPE html>",
    "          <html lang='en'>",
    "          <head>",
    "              <title>RI Status</title>",
    "              <style>",
    "                  table, th, td {",
    "                      border: 1px solid black;",
    "                      border-collapse: collapse;",
    "                      font-size: 10pt;",
    "                      width: 1500px;",
    "                  }",
    "                  th, td {",
    "                      padding: 5px;",
    "                      text-align: left;",
    "                  }",
    "              </style>",
    "          </head>",
    "          <body>"]

  function Concat(parts: seq<string>): string
    decreases |parts|
  {
    if |parts| == 0 then "" else parts[0] + Concat(parts[1..])
  }

  /** The fixed document head. */
  const Prefix: string := Concat(HeadLines)

  const Suffix: string := "</body></html>"

  /** The section titles, in document order. */
  const SectionNames: seq<string> := ["EC2", "RDS", "Redshift", "ElastiCache", "ElasticSearch"]

  const StateKey: string := "State"
  const ActiveState: string := "active"

  const RdsColumns: seq<string> :=
    ["ReservedDBInstanceId", "StartTime", "State", "End", "DBInstanceClass", "DBInstanceCount"]
  const RedshiftColumns: seq<string> :=
    ["ReservedNodeId", "StartTime", "State", "End", "NodeType", "NodeCount"]
  const ElastiCacheColumns: seq<string> :=
    ["ReservedCacheNodeId", "StartTime", "State", "End", "CacheNodeType", "CacheNodeCount"]
  const ElasticsearchColumns: seq<string> :=
    ["ReservationName", "ReservedElasticsearchInstanceId", "StartTime", "State", "End",
     "ElasticsearchInstanceType", "ElasticsearchInstanceCount"]

  /** The reservation lists of the five services. */
  datatype Responses = Responses(
    ec2: seq<Record>,
    rds: seq<Record>,
    redshift: seq<Record>,
    elastiCache: seq<Record>,
    elasticsearch: seq<Record>)

  ghost predicate UniformResponses(r: Responses) {
    && UniformSchema(r.ec2)
    && UniformSchema(r.rds)
    && UniformSchema(r.redshift)
    && UniformSchema(r.elastiCache)
    && UniformSchema(r.elasticsearch)
  }

  /** Every cell value written as text. */
  function Cells(rows: seq<seq<Value>>, show: Value -> string): seq<seq<string>> {
    seq(|rows|, k requires 0 <= k < |rows| => seq(|rows[k]|, i requires 0 <= i < |rows[k]| => show(rows[k][i])))
  }

  /** The layout of one titled section. */
  function SectionLayout(name: string, listing: Listing, show: Value -> string): Table {
    Layout(name, listing.head, Cells(listing.rows, show))
  }

  function SectionsHtml(sections: seq<(string, Listing)>, show: Value -> string): string
    decreases |sections|
  {
    if |sections| == 0 then ""
    else RenderTable(sections[0].0, sections[0].1.head, Cells(sections[0].1.rows, show))
         + SectionsHtml(sections[1..], show)
  }

  /** A page with head `head`: the head, each section's table in the given
      order, and the closing tags. */
  function Page(head: string, sections: seq<(string, Listing)>, show: Value -> string): string {
    head + (SectionsHtml(sections, show) + Suffix)
  }

  /** Read a page with head `head` back into its section tables. */
  function ParsePage(head: string, s: string): Option<seq<Table>> {
    match Expect(s, head)
    case None => None
    case Some(s1) =>
      match ParseTables(s1)
      case None => None
      case Some((ts, s2)) => if s2 == Suffix then Some(ts) else None
  }

  /** The report document. */
  function Document(sections: seq<(string, Listing)>, show: Value -> string): string {
    Page(Prefix, sections, show)
  }

  function ParseDocument(s: string): Option<seq<Table>> {
    ParsePage(Prefix, s)
  }

  function SectionLayouts(sections: seq<(string, Listing)>, show: Value -> string): seq<Table> {
    seq(|sections|, i requires 0 <= i < |sections| => SectionLayout(sections[i].0, sections[i].1, show))
  }

  lemma {:induction false} SectionsAsTables(sections: seq<(string, Listing)>, show: Value -> string)
    ensures SectionsHtml(sections, show) == TablesHtml(SectionLayouts(sections, show))
    decreases |sections|
  {
    if |sections| > 0 {
      SectionsAsTables(sections[1..], show);
      assert SectionLayouts(sections, show)[1..] == SectionLayouts(sections[1..], show);
    }
  }

  /** No cell that the sections write contains '<'. The condition is on the
      cells that occur, not on `show` as a whole: a string cell is written
      as the string itself. */
  ghost predicate PlainCells(sections: seq<(string, Listing)>, show: Value -> string) {
    forall i, k, j :: 0 <= i < |sections| && 0 <= k < |sections[i].1.rows| && 0 <= j < |sections[i].1.rows[k]| ==>
      '<' !in show(sections[i].1.rows[k][j])
  }

  /** No section title, column name or written cell contains '<'. */
  ghost predicate PlainSections(sections: seq<(string, Listing)>, show: Value -> string) {
    && PlainCells(sections, show)
    && (forall i :: 0 <= i < |sections| ==> '<' !in sections[i].0)
    && (forall i, j :: 0 <= i < |sections| && 0 <= j < |sections[i].1.head| ==> '<' !in sections[i].1.head[j])
  }

  lemma SectionLayoutClean(name: string, listing: Listing, show: Value -> string)
    requires forall k, j :: 0 <= k < |listing.rows| && 0 <= j < |listing.rows[k]| ==> '<' !in show(listing.rows[k][j])
    requires '<' !in name
    requires forall j :: 0 <= j < |listing.head| ==> '<' !in listing.head[j]
    ensures CleanTable(SectionLayout(name, listing, show))
  {
    var cells := Cells(listing.rows, show);
    assert PlainInputs(name, listing.head, cells);
    LayoutShape(name, listing.head, cells);
    var t := SectionLayout(name, listing, show);
    assert forall k :: 0 <= k < |t.rows| ==> CleanCells(t.rows[k]) by {
      forall k | 0 <= k < |t.rows| ensures CleanCells(t.rows[k]) {
        if k > 0 {
          assert forall i :: 0 <= i < |t.rows[k]| ==> t.rows[k][i].text == show(listing.rows[k - 1][i]);
        }
      }
    }
  }

  lemma SectionLayoutsClean(sections: seq<(string, Listing)>, show: Value -> string)
    requires PlainSections(sections, show)
    ensures forall k :: 0 <= k < |SectionLayouts(sections, show)| ==> CleanTable(SectionLayouts(sections, show)[k])
  {
    forall k | 0 <= k < |sections| ensures CleanTable(SectionLayouts(sections, show)[k]) {
      SectionLayoutClean(sections[k].0, sections[k].1, show);
    }
  }

  /** The closing tags cannot be mistaken for another section. */
  lemma SuffixNotTable()
    ensures !StartsWith(Suffix, "<h3>")
  {
    DiffersAt(Suffix, "<h3>", 1);
  }

  /** A page body made of clean tables reads back as those tables. */
  lemma ParsePageOf(head: string, ts: seq<Table>)
    requires forall k :: 0 <= k < |ts| ==> CleanTable(ts[k])
    ensures ParsePage(head, head + (TablesHtml(ts) + Suffix)) == Some(ts)
  {
    SuffixNotTable();
    ParseTablesOf(ts, Suffix);
    ExpectOf(head, TablesHtml(ts) + Suffix);
  }

  lemma PageRoundTrip(head: string, sections: seq<(string, Listing)>, show: Value -> string)
    requires PlainSections(sections, show)
    ensures ParsePage(head, Page(head, sections, show)) == Some(SectionLayouts(sections, show))
  {
    SectionLayoutsClean(sections, show);
    SectionsAsTables(sections, show);
    ParsePageOf(head, SectionLayouts(sections, show));
  }

  /** Reading the document back gives one table per section, in the given
      order, each with its title, header row and data rows. */
  lemma DocumentRoundTrip(sections: seq<(string, Listing)>, show: Value -> string)
    requires PlainSections(sections, show)
    ensures ParseDocument(Document(sections, show)) == Some(SectionLayouts(sections, show))
  {
    PageRoundTrip(Prefix, sections, show);
  }

  /** The horizon each selection compares with: the program reads the clock
      once for the EC2 block and again inside each `getExpRIList` call, after
      that service's listing, so the five horizons may differ. */
  datatype Horizons = Horizons(ec2: int, rds: int, redshift: int, elastiCache: int, elasticsearch: int)

  /** The five selections, in the order `makeMessage` runs them. */
  function Selections(responses: Responses, horizons: Horizons): (sel: seq<Result<Listing, Error>>)
    requires UniformResponses(responses)
    ensures |sel| == 5
  {
    [ Ec2ExpiringList(responses.ec2, horizons.ec2),
      GetExpRIList(responses.rds, StateKey, ActiveState, RdsColumns, horizons.rds),
      GetExpRIList(responses.redshift, StateKey, ActiveState, RedshiftColumns, horizons.redshift),
      GetExpRIList(responses.elastiCache, StateKey, ActiveState, ElastiCacheColumns, horizons.elastiCache),
      GetExpRIList(responses.elasticsearch, StateKey, ActiveState, ElasticsearchColumns, horizons.elasticsearch) ]
  }

  /** `makeMessage`: run the five selections in order (the first failure
      aborts the report) and write the document with the sections EC2, RDS,
      Redshift, ElastiCache and ElasticSearch. */
  function MakeMessage(responses: Responses, horizons: Horizons, show: Value -> string): (res: Result<string, Error>)
    requires UniformResponses(responses)
    ensures var sel := Selections(responses, horizons);
      res.Success? <==> forall i :: 0 <= i < 5 ==> sel[i].Success?
    ensures var sel := Selections(responses, horizons);
      res.Failure? ==> exists i :: 0 <= i < 5 && sel[i].Failure? && res.error == sel[i].error &&
                                   forall j :: 0 <= j < i ==> sel[j].Success?
    ensures var sel := Selections(responses, horizons);
      res.Success? ==> res.value == Document(Sections(sel), show)
  {
    var sel := Selections(responses, horizons);
    match FirstFailure(sel)
    case Some(e) => Failure(e)
    case None => Success(Document(Sections(sel), show))
  }

  /** The titled sections of five successful selections, in document order. */
  function Sections(sel: seq<Result<Listing, Error>>): (sections: seq<(string, Listing)>)
    requires |sel| == 5 && forall i :: 0 <= i < 5 ==> sel[i].Success?
    ensures |sections| == 5
  {
    seq(5, i requires 0 <= i < 5 => (SectionNames[i], sel[i].value))
  }

  /** The column list each section reports, in document order. */
  const SectionColumns: seq<seq<string>> :=
    [Ec2Columns, RdsColumns, RedshiftColumns, ElastiCacheColumns, ElasticsearchColumns]

  lemma PlainNames()
    ensures forall i :: 0 <= i < 5 ==> '<' !in SectionNames[i]
  {
  }

  lemma PlainEc2Columns()
    ensures forall j :: 0 <= j < |Ec2Columns| ==> '<' !in Ec2Columns[j]
  {
  }

  lemma PlainRdsColumns()
    ensures forall j :: 0 <= j < |RdsColumns| ==> '<' !in RdsColumns[j]
  {
  }

  lemma PlainRedshiftColumns()
    ensures forall j :: 0 <= j < |RedshiftColumns| ==> '<' !in RedshiftColumns[j]
  {
  }

  lemma PlainElastiCacheColumns()
    ensures forall j :: 0 <= j < |ElastiCacheColumns| ==> '<' !in ElastiCacheColumns[j]
  {
  }

  lemma PlainElasticsearchColumns()
    ensures forall j :: 0 <= j < |ElasticsearchColumns| ==> '<' !in ElasticsearchColumns[j]
  {
  }

  /** No column name of any section contains '<'. */
  lemma PlainColumns()
    ensures |SectionColumns| == 5
    ensures forall i, j :: 0 <= i < 5 && 0 <= j < |SectionColumns[i]| ==> '<' !in SectionColumns[i][j]
  {
    PlainEc2Columns();
    PlainRdsColumns();
    PlainRedshiftColumns();
    PlainElastiCacheColumns();
    PlainElasticsearchColumns();
  }

  lemma HeadsInOrder(sel: seq<Result<Listing, Error>>)
    requires |sel| == 5 && forall i :: 0 <= i < 5 ==> sel[i].Success?
    requires sel[0].value.head == Ec2Columns
    requires sel[1].value.head == RdsColumns
    requires sel[2].value.head == RedshiftColumns
    requires sel[3].value.head == ElastiCacheColumns
    requires sel[4].value.head == ElasticsearchColumns
    ensures forall i :: 0 <= i < 5 ==> sel[i].value.head == SectionColumns[i]
  {
  }

  lemma SelectionHead0(responses: Responses, horizons: Horizons)
    requires UniformResponses(responses)
    ensures Selections(responses, horizons)[0].Success? ==> Selections(responses, horizons)[0].value.head == Ec2Columns
  {
  }

  lemma SelectionHead1(responses: Responses, horizons: Horizons)
    requires UniformResponses(responses)
    ensures Selections(responses, horizons)[1].Success? ==> Selections(responses, horizons)[1].value.head == RdsColumns
  {
  }

  lemma SelectionHead2(responses: Responses, horizons: Horizons)
    requires UniformResponses(responses)
    ensures Selections(responses, horizons)[2].Success? ==> Selections(responses, horizons)[2].value.head == RedshiftColumns
  {
  }

  lemma SelectionHead3(responses: Responses, horizons: Horizons)
    requires UniformResponses(responses)
    ensures Selections(responses, horizons)[3].Success? ==> Selections(responses, horizons)[3].value.head == ElastiCacheColumns
  {
  }

  lemma SelectionHead4(responses: Responses, horizons: Horizons)
    requires UniformResponses(responses)
    ensures Selections(responses, horizons)[4].Success? ==> Selections(responses, horizons)[4].value.head == ElasticsearchColumns
  {
  }

  /** Each successful selection reports its service's column list. */
  lemma SelectionHeads(responses: Responses, horizons: Horizons)
    requires UniformResponses(responses)
    requires forall i :: 0 <= i < 5 ==> Selections(responses, horizons)[i].Success?
    ensures forall i :: 0 <= i < 5 ==> Selections(responses, horizons)[i].value.head == SectionColumns[i]
  {
    SelectionHead0(responses, horizons);
    SelectionHead1(responses, horizons);
    SelectionHead2(responses, horizons);
    SelectionHead3(responses, horizons);
    SelectionHead4(responses, horizons);
    HeadsInOrder(Selections(responses, horizons));
  }

  /** Shape of one section's table: its title, header row and row count. */
  lemma SectionShape(name: string, listing: Listing, show: Value -> string)
    ensures var t := SectionLayout(name, listing, show);
      && t.title == name
      && |t.rows| == |listing.rows| + 1
      && |t.rows[0]| == |listing.head|
      && forall j :: 0 <= j < |listing.head| ==> t.rows[0][j].text == listing.head[j]
  {
    LayoutShape(name, listing.head, Cells(listing.rows, show));
  }

  /** `doc` reads back as five tables titled EC2, RDS, Redshift, ElastiCache
      and ElasticSearch in that order, the i-th headed by the i-th service's
      column list and holding one data row per row of the successful
      selection `sel[i]`. */
  ghost predicate ReadsBack(doc: string, sel: seq<Result<Listing, Error>>) {
    && |sel| == 5
    && (forall i :: 0 <= i < 5 ==> sel[i].Success?)
    && match ParseDocument(doc)
       case None => false
       case Some(ts) =>
         && |ts| == 5
         && forall i :: 0 <= i < 5 ==>
              && ts[i].title == SectionNames[i]
              && |ts[i].rows| == |sel[i].value.rows| + 1
              && |ts[i].rows[0]| == |SectionColumns[i]|
              && forall j :: 0 <= j < |SectionColumns[i]| ==> ts[i].rows[0][j].text == SectionColumns[i][j]
  }

  /** No field of any record is written with a '<'. For a `show` that writes
      a string as itself, this says the string fields hold no '<'. */
  ghost predicate PlainRecords(records: seq<Record>, show: Value -> string) {
    forall i, key :: 0 <= i < |records| && key in records[i] ==> '<' !in show(records[i][key])
  }

  /** With a `show` that writes a string as itself, as Python's `format`
      does, `PlainRecords` asks only that the string fields hold no '<'. */
  lemma StringShowPlainRecords(records: seq<Record>, show: Value -> string)
    requires forall t :: show(Str(t)) == t
    requires PlainInts(show)
    requires forall i, key :: 0 <= i < |records| && key in records[i] && records[i][key].Str? ==>
      '<' !in records[i][key].s
    ensures PlainRecords(records, show)
  {
    forall i, key | 0 <= i < |records| && key in records[i] ensures '<' !in show(records[i][key]) {
      match records[i][key]
      case Str(t) => assert show(Str(t)) == t;
      case Int(n) =>
    }
  }

  ghost predicate PlainResponses(r: Responses, show: Value -> string) {
    && PlainRecords(r.ec2, show)
    && PlainRecords(r.rds, show)
    && PlainRecords(r.redshift, show)
    && PlainRecords(r.elastiCache, show)
    && PlainRecords(r.elasticsearch, show)
  }

  /** No number is written with a '<' (a derived `End` is a number). */
  ghost predicate PlainInts(show: Value -> string) {
    forall n: int :: '<' !in show(Int(n))
  }

  /** No cell of a successful listing is written with a '<'. */
  ghost predicate PlainListing(res: Result<Listing, Error>, show: Value -> string) {
    res.Success? ==>
      forall k, j :: 0 <= k < |res.value.rows| && 0 <= j < |res.value.rows[k]| ==> '<' !in show(res.value.rows[k][j])
  }

  /** No cell of the five selections is written with a '<'. */
  ghost predicate PlainRows(sel: seq<Result<Listing, Error>>, show: Value -> string) {
    |sel| == 5 && forall i :: 0 <= i < 5 ==> PlainListing(sel[i], show)
  }

  /** Every reported cell of `getExpRIList` is a field of a record or a
      derived end, so plain records give plain cells. */
  lemma GetExpRIListPlain(records: seq<Record>, filterName: string, filterValue: string,
                          columns: seq<string>, horizon: int, show: Value -> string)
    requires UniformSchema(records)
    requires PlainRecords(records, show) && PlainInts(show)
    ensures PlainListing(GetExpRIList(records, filterName, filterValue, columns, horizon), show)
  {
    var res := GetExpRIList(records, filterName, filterValue, columns, horizon);
    if res.Success? {
      GetExpRIListSelects(records, filterName, filterValue, columns, horizon);
      var idx := Kept(Expiring(filterName, filterValue, horizon), records);
      var rows := res.value.rows;
      forall k, j | 0 <= k < |rows| && 0 <= j < |rows[k]| ensures '<' !in show(rows[k][j]) {
        var r := records[idx[k]];
        assert DerivedRow(rows[k], r, columns);
        if columns[j] != EndKey {
          assert columns[j] in r && rows[k][j] == r[columns[j]];
        }
      }
    }
  }

  lemma ProjectPlain(r: Record, columns: seq<string>, show: Value -> string)
    requires forall j :: 0 <= j < |columns| ==> columns[j] in r
    requires forall key :: key in r ==> '<' !in show(r[key])
    ensures forall c :: c in columns ==> c in r
    ensures forall j :: 0 <= j < |columns| ==> '<' !in show(Project(r, columns)[j])
  {
  }

  /** Every reported EC2 cell is a field of a record. */
  lemma Ec2ExpiringListPlain(records: seq<Record>, horizon: int, show: Value -> string)
    requires UniformSchema(records)
    requires PlainRecords(records, show)
    ensures PlainListing(Ec2ExpiringList(records, horizon), show)
  {
    var res := Ec2ExpiringList(records, horizon);
    if res.Success? {
      Ec2ExpiringListSelects(records, horizon);
      var idx := Kept(DueBy(horizon), records);
      var rows := res.value.rows;
      forall k | 0 <= k < |rows|
        ensures forall j :: 0 <= j < |rows[k]| ==> '<' !in show(rows[k][j])
      {
        var r := records[idx[k]];
        assert r.Keys == records[0].Keys;
        ProjectPlain(r, Ec2Columns, show);
      }
    }
  }

  lemma SelectionsPlain(responses: Responses, horizons: Horizons, show: Value -> string)
    requires UniformResponses(responses)
    requires PlainResponses(responses, show) && PlainInts(show)
    ensures PlainRows(Selections(responses, horizons), show)
  {
    Ec2ExpiringListPlain(responses.ec2, horizons.ec2, show);
    GetExpRIListPlain(responses.rds, StateKey, ActiveState, RdsColumns, horizons.rds, show);
    GetExpRIListPlain(responses.redshift, StateKey, ActiveState, RedshiftColumns, horizons.redshift, show);
    GetExpRIListPlain(responses.elastiCache, StateKey, ActiveState, ElastiCacheColumns, horizons.elastiCache, show);
    GetExpRIListPlain(responses.elasticsearch, StateKey, ActiveState, ElasticsearchColumns, horizons.elasticsearch, show);
  }

  /** Five successful selections, each reporting its service's columns,
      make a document that reads back as five tables titled EC2, RDS,
      Redshift, ElastiCache and ElasticSearch in that order; each header row
      is that service's column list and each table has one data row per
      reported reservation. */
  lemma SectionsReadBack(sel: seq<Result<Listing, Error>>, show: Value -> string)
    requires |sel| == 5 && forall i :: 0 <= i < 5 ==> sel[i].Success?
    requires forall i :: 0 <= i < 5 ==> sel[i].value.head == SectionColumns[i]
    requires PlainRows(sel, show)
    ensures ReadsBack(Document(Sections(sel), show), sel)
  {
    var sections := Sections(sel);
    PlainNames();
    PlainColumns();
    assert PlainSections(sections, show);
    DocumentRoundTrip(sections, show);
    forall i | 0 <= i < 5 {
      SectionShape(SectionNames[i], sel[i].value, show);
    }
  }

  /** A successful report reads back as its five sections in document order,
      each headed by its service's column list. */
  lemma MakeMessageSections(responses: Responses, horizons: Horizons, show: Value -> string)
    requires UniformResponses(responses)
    requires PlainResponses(responses, show) && PlainInts(show)
    requires MakeMessage(responses, horizons, show).Success?
    ensures ReadsBack(MakeMessage(responses, horizons, show).value, Selections(responses, horizons))
  {
    var sel := Selections(responses, horizons);
    SelectionHeads(responses, horizons);
    SelectionsPlain(responses, horizons, show);
    SectionsReadBack(sel, show);
    assert MakeMessage(responses, horizons, show).value == Document(Sections(sel), show);
  }

  /** The SES identities that contain ".com". */
  function ComIdentities(identities: seq<string>): (r: seq<string>)
    ensures forall x :: x in r <==> x in identities && Contains(x, ".com")
  {
    var r := Filter(id => Contains(id, ".com"), identities);
    assert forall i :: 0 <= i < |identities| && Contains(identities[i], ".com") ==> identities[i] in r;
    r
  }

  /** The addresses that get a verification request: those that are not a
      ".com" identity. */
  function NeedsVerification(identities: seq<string>): string -> bool {
    e => !(e in identities && Contains(e, ".com"))
  }

  /** The recipients sent an SES verification request: one request per list
      entry that is not among the ".com" identities, in list order, repeated
      entries included. `Kept` lists every such entry's position, ascending. */
  function VerificationTargets(emails: seq<string>, identities: seq<string>): (r: seq<string>)
    ensures var idx := Kept(NeedsVerification(identities), emails);
      && |r| == |idx|
      && forall k :: 0 <= k < |idx| ==> r[k] == emails[idx[k]]
    ensures forall e :: e in r <==> e in emails && !(e in identities && Contains(e, ".com"))
  {
    var listed := ComIdentities(identities);
    var r := Filter(e => e !in listed, emails);
    assert forall i :: 0 <= i < |emails| && emails[i] !in listed ==> emails[i] in r;
    FilterKeptExt(e => e !in listed, NeedsVerification(identities), emails);
    FilterAtKept(NeedsVerification(identities), emails);
    r
  }

  /** A recipient already registered as an identity is still sent a request
      when its address does not contain ".com". */
  lemma NonComIdentityIsReverified(emails: seq<string>, identities: seq<string>, e: string)
    requires e in emails && e in identities
    requires !Contains(e, ".com")
    ensures e in VerificationTargets(emails, identities)
  {
  }

  /** The recipient addresses of the mailing-table scan: each item's `email`
      attribute, as its string value `S`. */
  function EmailList(items: seq<map<string, map<string, string>>>): (res: Result<seq<string>, Error>)
    ensures res.Success? <==> forall i :: 0 <= i < |items| ==> "email" in items[i] && "S" in items[i]["email"]
    ensures res.Success? ==>
      && |res.value| == |items|
      && forall i :: 0 <= i < |items| ==> res.value[i] == items[i]["email"]["S"]
    decreases |items|
  {
    if |items| == 0 then Success([])
    else if "email" !in items[0] then Failure(MissingKey("email"))
    else if "S" !in items[0]["email"] then Failure(MissingKey("S"))
    else
      match EmailList(items[1..])
      case Failure(e) => Failure(e)
      case Success(rest) =>
        assert forall i :: 1 <= i < |items| ==> items[i] == items[1..][i - 1];
        Success([items[0]["email"]["S"]] + rest)
  }

  /** One delivery job: the address and the HTML body sent to it. */
  datatype MailJob = MailJob(email: string, msg: string)

  /** One send job per recipient entry, in order, all carrying the same message. */
  function SendJobs(emails: seq<string>, msg: string): (jobs: seq<MailJob>)
    ensures |jobs| == |emails|
    ensures forall i :: 0 <= i < |jobs| ==> jobs[i] == MailJob(emails[i], msg)
    decreases |emails|
  {
    if |emails| == 0 then [] else [MailJob(emails[0], msg)] + SendJobs(emails[1..], msg)
  }

  const ArchiveBucket: string := "ri-exp-contents"

  /** The archived report and the deliveries, once the report is built. */
  datatype Delivery = Delivery(bucket: string, key: string, document: string, jobs: seq<MailJob>)

  /** What one run of the handler does: the verification requests it sends
      (before the report is built, so whatever becomes of the report) and,
      if the report could be built, the archive object and the send jobs. */
  datatype Run = Run(verifications: seq<string>, delivery: Result<Delivery, Error>)

  /** The handler's steps once `makeMessage` has returned: a failed report
      ends the run; otherwise the document is archived under the date-prefixed
      key and one send job per recipient carries it. */
  function Deliver(report: Result<string, Error>, emails: seq<string>, datePrefix: string): (d: Result<Delivery, Error>)
    ensures d.Success? <==> report.Success?
    ensures d.Failure? ==> d.error == report.error
    ensures d.Success? ==>
      && d.value.document == report.value
      && d.value.bucket == ArchiveBucket
      && d.value.key == datePrefix + "ri_exp.html"
      && |d.value.jobs| == |emails|
      && forall i :: 0 <= i < |emails| ==> d.value.jobs[i].email == emails[i] && d.value.jobs[i].msg == report.value
  {
    match report
    case Failure(e) => Failure(e)
    case Success(msg) => Success(Delivery(ArchiveBucket, datePrefix + "ri_exp.html", msg, SendJobs(emails, msg)))
  }

  /** `lambda_handler`: read the recipients from the mailing-table scan (an
      item without `email.S` aborts the run before anything is sent), send
      the verification requests, whatever becomes of the report, then archive
      and deliver the report. */
  function Handler(items: seq<map<string, map<string, string>>>, identities: seq<string>, responses: Responses,
                   horizons: Horizons, show: Value -> string, datePrefix: string): (run: Result<Run, Error>)
    requires UniformResponses(responses)
    ensures run.Success? <==> forall i :: 0 <= i < |items| ==> "email" in items[i] && "S" in items[i]["email"]
    ensures run.Failure? ==> run.error == EmailList(items).error
    ensures run.Success? ==>
      var emails := EmailList(items).value;
      && |emails| == |items|
      && run.value.verifications == VerificationTargets(emails, identities)
      && (forall e :: e in run.value.verifications <==> e in emails && !(e in identities && Contains(e, ".com")))
      && run.value.delivery == Deliver(MakeMessage(responses, horizons, show), emails, datePrefix)
  {
    match EmailList(items)
    case Failure(e) => Failure(e)
    case Success(emails) =>
      Success(Run(VerificationTargets(emails, identities),
                  Deliver(MakeMessage(responses, horizons, show), emails, datePrefix)))
  }
}
