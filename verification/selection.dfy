/** Selection of reservations that expire by a horizon (`getExpRIList`, and
    the inline EC2 variant in `makeMessage`).

    A raw reservation record is a map from field name to value; timestamps
    and durations are whole seconds. The horizon is a parameter. Where the
    program would raise (indexing the first record of an empty
    response, a missing field, a field that is not a timestamp, a selected
    column that does not exist) the model returns a `Failure`. */
module Selection {
  import opened Wrappers
  import opened Seqs

  datatype Value = Str(s: string) | Int(i: int)

  type Record = map<string, Value>

  datatype Error =
    | EmptyResponse               // the first record of an empty response is read for the header
    | MissingKey(key: string)     // a record or the table lacks a field
    | NotATimestamp(key: string)  // a time or duration field holds something else
    | MissingColumns(keys: seq<string>)  // selected columns absent from the table

  /** Rows of selected cell values, and the column names heading them. */
  datatype Listing = Listing(rows: seq<seq<Value>>, head: seq<string>)

  const StartTimeKey: string := "StartTime"
  const DurationKey: string := "Duration"
  const EndKey: string := "End"

  /** The columns the EC2 section reports. */
  const Ec2Columns: seq<string> :=
    ["ReservedInstancesId", "Start", "State", "End", "InstanceType", "InstanceCount"]

  /** Every record of a response has the same fields. The source places each
      record's values under the FIRST record's field names, so the model is
      only meaningful for uniform responses. */
  ghost predicate UniformSchema(records: seq<Record>) {
    forall i, j :: 0 <= i < |records| && 0 <= j < |records| ==> records[i].Keys == records[j].Keys
  }

  predicate HasValue(r: Record, key: string, value: string) {
    key in r && r[key] == Str(value)
  }

  predicate IsInt(r: Record, key: string) {
    key in r && r[key].Int?
  }

  /** The row mask `End <= horizon`; rows ending exactly at the horizon count. */
  predicate EndsBy(r: Record, horizon: int) {
    IsInt(r, EndKey) && r[EndKey].i <= horizon
  }

  function DueBy(horizon: int): Record -> bool {
    r => EndsBy(r, horizon)
  }

  /** The record filter `a[filter_name] == filter_value`. */
  function Matching(filterName: string, filterValue: string): Record -> bool {
    r => HasValue(r, filterName, filterValue)
  }

  /** The record with its derived `End = StartTime + Duration`; a pre-existing
      `End` field is overwritten. */
  function WithEnd(r: Record): (r': Record)
    requires IsInt(r, StartTimeKey) && IsInt(r, DurationKey)
    ensures r'.Keys == r.Keys + {EndKey}
    ensures r'[EndKey] == Int(r[StartTimeKey].i + r[DurationKey].i)
    ensures forall k :: k in r && k != EndKey ==> r'[k] == r[k]
  {
    r[EndKey := Int(r[StartTimeKey].i + r[DurationKey].i)]
  }

  function WithEnds(rs: seq<Record>): seq<Record>
    requires forall k :: 0 <= k < |rs| ==> IsInt(rs[k], StartTimeKey) && IsInt(rs[k], DurationKey)
  {
    seq(|rs|, k requires 0 <= k < |rs| => WithEnd(rs[k]))
  }

  /** The values of the selected columns, in the order the columns are given. */
  function Project(r: Record, columns: seq<string>): seq<Value>
    requires forall c :: c in columns ==> c in r
  {
    seq(|columns|, j requires 0 <= j < |columns| => r[columns[j]])
  }

  function ProjectAll(rs: seq<Record>, columns: seq<string>): seq<seq<Value>>
    requires forall k, c :: 0 <= k < |rs| && c in columns ==> c in rs[k]
  {
    seq(|rs|, k requires 0 <= k < |rs| => Project(rs[k], columns))
  }

  /** The rows of a table that end by the horizon, cut down to the selected
      columns: the step both selection paths share. */
  function ExpiringRows(table: seq<Record>, horizon: int, columns: seq<string>): (rows: seq<seq<Value>>)
    requires forall k, c :: 0 <= k < |table| && c in columns ==> c in table[k]
    ensures |rows| <= |table|
    ensures forall k :: 0 <= k < |rows| ==> |rows[k]| == |columns|
  {
    var due := Filter(DueBy(horizon), table);
    assert forall k :: 0 <= k < |due| ==> exists j :: 0 <= j < |table| && table[j] == due[k];
    ProjectAll(due, columns)
  }

  /** The selected columns that the table does not have. */
  function Missing(columns: seq<string>, present: set<string>): (m: seq<string>)
    ensures forall k :: 0 <= k < |m| ==> m[k] in columns && m[k] !in present
    ensures m == [] <==> forall i :: 0 <= i < |columns| ==> columns[i] in present
  {
    var m := Filter(c => c !in present, columns);
    assert forall i :: 0 <= i < |columns| && columns[i] !in present ==> columns[i] in m;
    assert m != [] ==> exists i :: 0 <= i < |columns| && columns[i] == m[0];
    m
  }

  /** The field checks of `getExpRIList` in the order the source meets them. */
  ghost predicate ListingOk(records: seq<Record>, filterName: string, filterValue: string, columns: seq<string>) {
    && |records| > 0
    && filterName in records[0]
    && StartTimeKey in records[0]
    && (forall i :: 0 <= i < |records| && HasValue(records[i], filterName, filterValue) ==> IsInt(records[i], StartTimeKey))
    && DurationKey in records[0]
    && (forall i :: 0 <= i < |records| && HasValue(records[i], filterName, filterValue) ==> IsInt(records[i], DurationKey))
    && (forall j :: 0 <= j < |columns| ==> columns[j] in records[0] || columns[j] == EndKey)
  }

  /** The rows `getExpRIList` reports once every field check has passed. */
  function Selected(records: seq<Record>, filterName: string, filterValue: string,
                    columns: seq<string>, horizon: int): seq<seq<Value>>
    requires UniformSchema(records)
    requires ListingOk(records, filterName, filterValue, columns)
  {
    var active := Filter(Matching(filterName, filterValue), records);
    assert forall k :: 0 <= k < |active| ==> exists i :: 0 <= i < |records| && records[i] == active[k];
    ExpiringRows(WithEnds(active), horizon, columns)
  }

  /** `getExpRIList`: keep the records whose `filterName` field equals
      `filterValue`, derive each one's end, keep those ending by the horizon,
      and report the selected columns. The header is taken from the first
      record of the whole response. */
  function GetExpRIList(records: seq<Record>, filterName: string, filterValue: string,
                        columns: seq<string>, horizon: int): (res: Result<Listing, Error>)
    requires UniformSchema(records)
    ensures |records| == 0 ==> res == Failure(EmptyResponse)
    ensures |records| > 0 && filterName !in records[0] ==> res == Failure(MissingKey(filterName))
    ensures res.Success? <==> ListingOk(records, filterName, filterValue, columns)
    ensures res.Success? ==> res.value.head == columns
    ensures res.Success? ==> |res.value.rows| <= |records|
    ensures res.Success? ==> forall k :: 0 <= k < |res.value.rows| ==> |res.value.rows[k]| == |columns|
    ensures res.Failure? && res.error.MissingColumns? ==>
      res.error.keys != [] &&
      forall k :: 0 <= k < |res.error.keys| ==>
        res.error.keys[k] in columns && res.error.keys[k] !in records[0] && res.error.keys[k] != EndKey
  {
    if |records| == 0 then Failure(EmptyResponse)
    else if filterName !in records[0] then Failure(MissingKey(filterName))
    else
      var active := Filter(Matching(filterName, filterValue), records);
      assert forall k :: 0 <= k < |active| ==> exists i :: 0 <= i < |records| && records[i] == active[k];
      var head := records[0].Keys;
      if StartTimeKey !in head then Failure(MissingKey(StartTimeKey))
      else if !(forall k :: 0 <= k < |active| ==> IsInt(active[k], StartTimeKey)) then
        Failure(NotATimestamp(StartTimeKey))
      else if DurationKey !in head then Failure(MissingKey(DurationKey))
      else if !(forall k :: 0 <= k < |active| ==> IsInt(active[k], DurationKey)) then
        Failure(NotATimestamp(DurationKey))
      else
        var missing := Missing(columns, head + {EndKey});
        if missing != [] then Failure(MissingColumns(missing))
        else
          Success(Listing(Selected(records, filterName, filterValue, columns, horizon), columns))
  }

  /** A record `getExpRIList` reports: it has the filter value and its start
      plus duration is at or before the horizon. */
  predicate ExpiresBy(r: Record, filterName: string, filterValue: string, horizon: int) {
    && HasValue(r, filterName, filterValue)
    && IsInt(r, StartTimeKey) && IsInt(r, DurationKey)
    && r[StartTimeKey].i + r[DurationKey].i <= horizon
  }

  function Expiring(filterName: string, filterValue: string, horizon: int): Record -> bool {
    r => ExpiresBy(r, filterName, filterValue, horizon)
  }

  /** The start and duration of every matching record are timestamps. */
  ghost predicate TimesOk(records: seq<Record>, filterName: string, filterValue: string) {
    forall i :: 0 <= i < |records| && HasValue(records[i], filterName, filterValue) ==>
      IsInt(records[i], StartTimeKey) && IsInt(records[i], DurationKey)
  }

  lemma TimesOkPrefix(records: seq<Record>, filterName: string, filterValue: string, n: int)
    requires TimesOk(records, filterName, filterValue)
    requires 0 <= n <= |records|
    ensures TimesOk(records[..n], filterName, filterValue)
  {
    assert forall i :: 0 <= i < n ==> records[..n][i] == records[i];
  }

  lemma ActiveTimes(records: seq<Record>, filterName: string, filterValue: string)
    requires TimesOk(records, filterName, filterValue)
    ensures var active := Filter(Matching(filterName, filterValue), records);
      forall k :: 0 <= k < |active| ==> IsInt(active[k], StartTimeKey) && IsInt(active[k], DurationKey)
  {
    var active := Filter(Matching(filterName, filterValue), records);
    forall k | 0 <= k < |active|
      ensures IsInt(active[k], StartTimeKey) && IsInt(active[k], DurationKey)
    {
      var i :| 0 <= i < |records| && records[i] == active[k];
    }
  }

  lemma WithEndsAppend(a: seq<Record>, b: seq<Record>)
    requires forall k :: 0 <= k < |a| ==> IsInt(a[k], StartTimeKey) && IsInt(a[k], DurationKey)
    requires forall k :: 0 <= k < |b| ==> IsInt(b[k], StartTimeKey) && IsInt(b[k], DurationKey)
    ensures WithEnds(a + b) == WithEnds(a) + WithEnds(b)
  {
  }

  /** A derived record is due exactly when its start plus duration is at or
      before the horizon. */
  lemma WithEndDue(r: Record, horizon: int)
    requires IsInt(r, StartTimeKey) && IsInt(r, DurationKey)
    ensures DueBy(horizon)(WithEnd(r)) <==> r[StartTimeKey].i + r[DurationKey].i <= horizon
  {
  }

  /** One more matching record: it is reported after the earlier ones exactly
      when it ends by the horizon. */
  lemma ActiveSnoc(active: seq<Record>, expiring: seq<Record>, x: Record,
                   filterName: string, filterValue: string, horizon: int)
    requires forall k :: 0 <= k < |active| ==> IsInt(active[k], StartTimeKey) && IsInt(active[k], DurationKey)
    requires forall k :: 0 <= k < |expiring| ==> IsInt(expiring[k], StartTimeKey) && IsInt(expiring[k], DurationKey)
    requires HasValue(x, filterName, filterValue) && IsInt(x, StartTimeKey) && IsInt(x, DurationKey)
    requires Filter(DueBy(horizon), WithEnds(active)) == WithEnds(expiring)
    ensures Filter(DueBy(horizon), WithEnds(active + [x])) ==
            WithEnds(expiring + (if ExpiresBy(x, filterName, filterValue, horizon) then [x] else []))
  {
    WithEndsAppend(active, [x]);
    assert WithEnds([x]) == [WithEnd(x)];
    FilterSnoc(DueBy(horizon), WithEnds(active), WithEnd(x));
    WithEndDue(x, horizon);
    if ExpiresBy(x, filterName, filterValue, horizon) {
      WithEndsAppend(expiring, [x]);
    } else {
      assert expiring + [] == expiring;
    }
  }

  /** Keeping the matching records, deriving their ends and keeping the rows
      that end by the horizon gives the derived records that `ExpiresBy`
      accepts. */
  ghost predicate Fused(records: seq<Record>, filterName: string, filterValue: string, horizon: int) {
    var active := Filter(Matching(filterName, filterValue), records);
    && (forall k :: 0 <= k < |active| ==> IsInt(active[k], StartTimeKey) && IsInt(active[k], DurationKey))
    && Filter(DueBy(horizon), WithEnds(active)) == WithEnds(Filter(Expiring(filterName, filterValue, horizon), records))
  }

  /** The claim of `DerivedDue` for one more record, given it for the earlier ones. */
  lemma DerivedDueSnoc(init: seq<Record>, x: Record, filterName: string, filterValue: string, horizon: int)
    requires TimesOk(init + [x], filterName, filterValue)
    requires TimesOk(init, filterName, filterValue)
    requires Fused(init, filterName, filterValue, horizon)
    ensures Fused(init + [x], filterName, filterValue, horizon)
  {
    var isActive := Matching(filterName, filterValue);
    var isExpiring := Expiring(filterName, filterValue, horizon);
    ActiveTimes(init + [x], filterName, filterValue);
    FilterSnoc(isActive, init, x);
    FilterSnoc(isExpiring, init, x);
    var active0 := Filter(isActive, init);
    var expiring0 := Filter(isExpiring, init);
    if isActive(x) {
      assert (init + [x])[|init|] == x;
      ActiveSnoc(active0, expiring0, x, filterName, filterValue, horizon);
    } else {
      assert Filter(isActive, init + [x]) == active0 + [] == active0;
      assert Filter(isExpiring, init + [x]) == expiring0 + [] == expiring0;
    }
  }

  /** `Fused` holds for every response whose matching records carry
      timestamps. */
  lemma {:induction false} DerivedDue(records: seq<Record>, filterName: string, filterValue: string,
                                      horizon: int)
    requires TimesOk(records, filterName, filterValue)
    ensures Fused(records, filterName, filterValue, horizon)
    decreases |records|
  {
    if |records| == 0 {
      ActiveTimes(records, filterName, filterValue);
    } else {
      var n := |records| - 1;
      var init := records[..n];
      var x := records[n];
      assert records == init + [x];
      TimesOkPrefix(records, filterName, filterValue, n);
      DerivedDue(init, filterName, filterValue, horizon);
      DerivedDueSnoc(init, x, filterName, filterValue, horizon);
    }
  }

  /** `row` holds, column by column, the fields of `r`, except that the `End`
      column holds the derived end `StartTime + Duration`. */
  ghost predicate DerivedRow(row: seq<Value>, r: Record, columns: seq<string>) {
    && IsInt(r, StartTimeKey) && IsInt(r, DurationKey)
    && |row| == |columns|
    && forall j :: 0 <= j < |columns| ==>
         if columns[j] == EndKey then row[j] == Int(r[StartTimeKey].i + r[DurationKey].i)
         else columns[j] in r && row[j] == r[columns[j]]
  }

  lemma ProjectDerived(r: Record, columns: seq<string>)
    requires IsInt(r, StartTimeKey) && IsInt(r, DurationKey)
    requires forall j :: 0 <= j < |columns| ==> columns[j] in r || columns[j] == EndKey
    ensures forall c :: c in columns ==> c in WithEnd(r)
    ensures DerivedRow(Project(WithEnd(r), columns), r, columns)
  {
    assert forall c :: c in columns ==> c in WithEnd(r) by {
      forall c | c in columns ensures c in WithEnd(r) {
        var j :| 0 <= j < |columns| && columns[j] == c;
      }
    }
  }

  /** Under a uniform schema every record has the columns the first one has. */
  lemma ColumnsOf(records: seq<Record>, columns: seq<string>, i: int)
    requires UniformSchema(records)
    requires 0 <= i < |records|
    requires forall j :: 0 <= j < |columns| ==> columns[j] in records[0] || columns[j] == EndKey
    ensures forall j :: 0 <= j < |columns| ==> columns[j] in records[i] || columns[j] == EndKey
  {
    assert records[i].Keys == records[0].Keys;
  }

  /** Row `k` of `Selected` is the derived row of the `k`-th record that
      `ExpiresBy` accepts. */
  lemma SelectedRows(records: seq<Record>, filterName: string, filterValue: string,
                     columns: seq<string>, horizon: int)
    requires UniformSchema(records)
    requires ListingOk(records, filterName, filterValue, columns)
    ensures var rows := Selected(records, filterName, filterValue, columns, horizon);
      var idx := Kept(Expiring(filterName, filterValue, horizon), records);
      && |idx| == |rows|
      && forall k :: 0 <= k < |idx| ==> DerivedRow(rows[k], records[idx[k]], columns)
  {
    var isExpiring := Expiring(filterName, filterValue, horizon);
    DerivedDue(records, filterName, filterValue, horizon);
    FilterAtKept(isExpiring, records);
    var idx := Kept(isExpiring, records);
    var rows := Selected(records, filterName, filterValue, columns, horizon);
    var expiring := Filter(isExpiring, records);
    assert |rows| == |expiring|;
    forall k | 0 <= k < |idx| ensures DerivedRow(rows[k], records[idx[k]], columns) {
      var r := records[idx[k]];
      assert isExpiring(r);
      ColumnsOf(records, columns, idx[k]);
      ProjectDerived(r, columns);
      assert rows[k] == Project(WithEnd(r), columns);
    }
  }

  /** The rows `getExpRIList` returns are exactly the projections of the
      records that `ExpiresBy` accepts, in input order: their positions
      `idx` are strictly ascending and miss none. */
  lemma GetExpRIListSelects(records: seq<Record>, filterName: string, filterValue: string,
                            columns: seq<string>, horizon: int)
    requires UniformSchema(records)
    requires GetExpRIList(records, filterName, filterValue, columns, horizon).Success?
    ensures var rows := GetExpRIList(records, filterName, filterValue, columns, horizon).value.rows;
      var idx := Kept(Expiring(filterName, filterValue, horizon), records);
      && |idx| == |rows|
      && (forall k, l :: 0 <= k < l < |idx| ==> idx[k] < idx[l])
      && (forall k :: 0 <= k < |idx| ==>
            0 <= idx[k] < |records| && ExpiresBy(records[idx[k]], filterName, filterValue, horizon))
      && (forall k :: 0 <= k < |idx| ==> DerivedRow(rows[k], records[idx[k]], columns))
      && (forall i :: 0 <= i < |records| && ExpiresBy(records[i], filterName, filterValue, horizon) ==> i in idx)
  {
    assert GetExpRIList(records, filterName, filterValue, columns, horizon).value.rows
        == Selected(records, filterName, filterValue, columns, horizon);
    SelectedRows(records, filterName, filterValue, columns, horizon);
  }

  /** The EC2 block of `makeMessage`: the response is already limited to
      active reservations, and each record's own `End` is compared with the
      horizon. */
  function Ec2ExpiringList(records: seq<Record>, horizon: int): (res: Result<Listing, Error>)
    requires UniformSchema(records)
    ensures |records| == 0 ==> res == Failure(EmptyResponse)
    ensures res.Success? <==>
      && |records| > 0
      && EndKey in records[0]
      && (forall i :: 0 <= i < |records| ==> IsInt(records[i], EndKey))
      && (forall j :: 0 <= j < |Ec2Columns| ==> Ec2Columns[j] in records[0])
    ensures res.Success? ==> res.value.head == Ec2Columns
    ensures res.Success? ==> forall k :: 0 <= k < |res.value.rows| ==> |res.value.rows[k]| == |Ec2Columns|
  {
    if |records| == 0 then Failure(EmptyResponse)
    else
      var head := records[0].Keys;
      if EndKey !in head then Failure(MissingKey(EndKey))
      else if !(forall k :: 0 <= k < |records| ==> IsInt(records[k], EndKey)) then Failure(NotATimestamp(EndKey))
      else
        var missing := Missing(Ec2Columns, head);
        if missing != [] then Failure(MissingColumns(missing))
        else Success(Listing(ExpiringRows(records, horizon, Ec2Columns), Ec2Columns))
  }

  /** The EC2 rows are exactly the projections of the records whose own `End`
      is at or before the horizon, in input order. */
  lemma Ec2ExpiringListSelects(records: seq<Record>, horizon: int)
    requires UniformSchema(records)
    requires Ec2ExpiringList(records, horizon).Success?
    ensures var rows := Ec2ExpiringList(records, horizon).value.rows;
      var idx := Kept(DueBy(horizon), records);
      && |idx| == |rows|
      && (forall k, l :: 0 <= k < l < |idx| ==> idx[k] < idx[l])
      && (forall k :: 0 <= k < |idx| ==>
            0 <= idx[k] < |records| && records[idx[k]][EndKey].i <= horizon)
      && (forall k :: 0 <= k < |idx| ==> rows[k] == Project(records[idx[k]], Ec2Columns))
      && (forall i :: 0 <= i < |records| && records[i][EndKey].i <= horizon ==> i in idx)
  {
    var isDue := DueBy(horizon);
    FilterAtKept(isDue, records);
    var rows := Ec2ExpiringList(records, horizon).value.rows;
    assert rows == ProjectAll(Filter(isDue, records), Ec2Columns);
  }
}
