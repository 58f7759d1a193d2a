/**
 * The monthly admin reports of open-vsx.org (reports/get_open_vsx_data.py): which
 * (year, month) pairs are fetched, how the publishing statistics are gathered
 * column by column, and how the four "most active" top lists are de-duplicated and
 * laid out as one column per distinct entry.
 *
 * The report endpoint is a parameter `reports` from (year, month) to the response
 * it gives; values inside a report are of an arbitrary type `V`.
 */
module OpenVsxData {
  import opened Wrappers
  import opened Text
  import opened Seqs

  /** A (year, month) pair, month 1..12. */
  type Month = (int, int)

  // ---------------------------------------------------------------------------
  // Which months are visited
  // ---------------------------------------------------------------------------

  /**
   * The month test exactly as the script writes it: `and` binds tighter than `or`,
   * so it reads (y == sy and m >= sm) or (sy < y < cy) or (y == cy and m <= cm).
   */
  predicate VisitedAsWritten(sy: int, sm: int, cy: int, cm: int, y: int, m: int) {
    (y == sy && m >= sm) || (sy < y < cy) || (y == cy && m <= cm)
  }

  /** The chronological range from (sy, sm) to (cy, cm), both ends included. */
  predicate InRange(sy: int, sm: int, cy: int, cm: int, y: int, m: int) {
    (sy < y || (y == sy && sm <= m)) && (y < cy || (y == cy && m <= cm))
  }

  /** The months of one year, in the order of `range(1, 13)`. */
  function Year(y: int): (r: seq<Month>)
    ensures |r| == 12 && forall i :: 0 <= i < 12 ==> r[i] == (y, i + 1)
  {
    seq(12, i => (y, i + 1))
  }

  /** Every (year, month) the nested loops over `range(sy, y + 1)` and `range(1, 13)` consider, in loop order. */
  function Grid(sy: int, y: int): seq<Month>
    decreases if y < sy then 0 else y - sy + 1
  {
    if y < sy then [] else Grid(sy, y - 1) + Year(y)
  }

  lemma {:induction false} GridContents(sy: int, y: int, p: Month)
    ensures p in Grid(sy, y) <==> sy <= p.0 <= y && 1 <= p.1 <= 12
    decreases if y < sy then 0 else y - sy + 1
  {
    if y >= sy {
      GridContents(sy, y - 1, p);
      if p.0 == y && 1 <= p.1 <= 12 {
        assert Year(y)[p.1 - 1] == p;
      }
    }
  }

  /**
   * The corrected month test the report loops run here: a month is fetched iff it
   * lies between the start month and the current month. The test as written is
   * `VisitedAsWritten`; the two differ only when the start year is the current year.
   */
  function Keep(sy: int, sm: int, cy: int, cm: int): Month -> bool {
    (p: Month) => InRange(sy, sm, cy, cm, p.0, p.1)
  }

  /** The months the report loops fetch under the corrected test, in loop order. */
  function Months(sy: int, sm: int, cy: int, cm: int): seq<Month> {
    Filter(Keep(sy, sm, cy, cm), Grid(sy, cy))
  }

  /** The months the loops as written fetch. */
  function MonthsAsWritten(sy: int, sm: int, cy: int, cm: int): seq<Month> {
    Filter((p: Month) => VisitedAsWritten(sy, sm, cy, cm, p.0, p.1), Grid(sy, cy))
  }

  /** The months fetched are exactly the calendar months of the range. */
  lemma MonthsInRange(sy: int, sm: int, cy: int, cm: int, p: Month)
    ensures p in Months(sy, sm, cy, cm) <==> InRange(sy, sm, cy, cm, p.0, p.1) && 1 <= p.1 <= 12
  {
    GridContents(sy, cy, p);
    if InRange(sy, sm, cy, cm, p.0, p.1) && 1 <= p.1 <= 12 {
      FilterKeeps(Keep(sy, sm, cy, cm), Grid(sy, cy), p);
    }
  }

  /** When the range spans more than one year, the test as written is the range. */
  lemma MonthsAsWrittenAcrossYears(sy: int, sm: int, cy: int, cm: int)
    requires sy < cy
    ensures MonthsAsWritten(sy, sm, cy, cm) == Months(sy, sm, cy, cm)
  {
    var g := Grid(sy, cy);
    forall k | 0 <= k < |g|
      ensures VisitedAsWritten(sy, sm, cy, cm, g[k].0, g[k].1) == InRange(sy, sm, cy, cm, g[k].0, g[k].1)
    {
      GridContents(sy, cy, g[k]);
    }
    FilterExt((p: Month) => VisitedAsWritten(sy, sm, cy, cm, p.0, p.1),
              Keep(sy, sm, cy, cm), g);
  }

  /** Within a single year the test as written is a disjunction, not a range. */
  lemma VisitedAsWrittenSameYear(sy: int, sm: int, cm: int, m: int)
    ensures VisitedAsWritten(sy, sm, sy, cm, sy, m) <==> m >= sm || m <= cm
  {
  }

  /**
   * From March to May of one year, the test as written also fetches October,
   * which lies outside the range.
   */
  lemma VisitedAsWrittenOverreaches()
    ensures (2024, 10) in MonthsAsWritten(2024, 3, 2024, 5)
    ensures (2024, 10) !in Months(2024, 3, 2024, 5)
  {
    GridContents(2024, 2024, (2024, 10));
    FilterKeeps((p: Month) => VisitedAsWritten(2024, 3, 2024, 5, p.0, p.1), Grid(2024, 2024), (2024, 10));
    MonthsInRange(2024, 3, 2024, 5, (2024, 10));
  }

  // ---------------------------------------------------------------------------
  // Responses
  // ---------------------------------------------------------------------------

  /** An HTTP response: its status code and, when the body parses as JSON, the value. */
  datatype Response<T> = Response(status: int, body: Option<T>)

  /** A 200 response whose JSON decodes. */
  predicate Decoded<T>(r: Response<T>) {
    r.status == 200 && r.body.Some?
  }

  // ---------------------------------------------------------------------------
  // get_publishing_data
  // ---------------------------------------------------------------------------

  /** The report columns, in the order the script appends them. */
  const Headers: seq<string> :=
    ["year", "month", "extensions", "downloads", "downloadsTotal", "publishers", "averageReviewsPerExtension",
     "namespaceOwners"]

  lemma HeadersDistinct()
    ensures NoDuplicates(Headers)
  {
    assert |Headers[6]| == 26 && |Headers[4]| == 14 && |Headers[7]| == 15;
  }

  // The lemmas below are stated for any list of distinct column names `hs`; the
  // script's own list is `Headers`.

  /** A report carrying every column. */
  predicate Complete<K(==,!new), V>(hs: seq<K>, row: map<K, V>) {
    forall h :: h in hs ==> h in row
  }

  /** The first column, in list order from position `k`, a report lacks. */
  function MissingHeader<K(==,!new), V>(hs: seq<K>, row: map<K, V>, k: nat): (r: Option<K>)
    requires k <= |hs|
    ensures r.None? <==> forall j :: k <= j < |hs| ==> hs[j] in row
    ensures r.Some? ==>
      exists j :: k <= j < |hs| && r.value == hs[j] && hs[j] !in row && forall i :: k <= i < j ==> hs[i] in row
    decreases |hs| - k
  {
    if k == |hs| then None
    else if hs[k] !in row then Some(hs[k])
    else MissingHeader(hs, row, k + 1)
  }

  /** The decoded reports of the months `ms`, in month order. */
  function Rows<K, V>(reports: Month -> Response<map<K, V>>, ms: seq<Month>): seq<map<K, V>> {
    if ms == [] then []
    else
      var r := reports(ms[|ms| - 1]);
      Rows(reports, ms[..|ms| - 1]) + (if Decoded(r) then [r.body.value] else [])
  }

  /** The position of the first report that lacks a column. */
  function FirstIncomplete<K(==,!new), V>(hs: seq<K>, rows: seq<map<K, V>>): (r: Option<nat>)
    ensures r.None? <==> forall i :: 0 <= i < |rows| ==> Complete(hs, rows[i])
    ensures r.Some? ==> r.value < |rows| && !Complete(hs, rows[r.value])
    ensures r.Some? ==> forall i :: 0 <= i < r.value ==> Complete(hs, rows[i])
  {
    if rows == [] then None
    else if !Complete(hs, rows[0]) then Some(0)
    else match FirstIncomplete(hs, rows[1..])
      case None => None
      case Some(i) => Some(i + 1)
  }

  /** The columns after appending every column of each report in turn. */
  function Table<K(==,!new), V>(hs: seq<K>, rows: seq<map<K, V>>): (t: map<K, seq<V>>)
    requires forall i :: 0 <= i < |rows| ==> Complete(hs, rows[i])
    ensures forall h :: h in t <==> h in hs
  {
    if rows == [] then map h | h in hs :: []
    else
      var t := Table(hs, rows[..|rows| - 1]);
      var last := rows[|rows| - 1];
      assert Complete(hs, last);
      map h | h in hs :: t[h] + [last[h]]
  }

  /** Each column holds that header's value from every report, in report order. */
  lemma {:induction false} TableColumns<K(!new), V>(hs: seq<K>, rows: seq<map<K, V>>, h: K)
    requires forall i :: 0 <= i < |rows| ==> Complete(hs, rows[i])
    requires h in hs
    ensures |Table(hs, rows)[h]| == |rows|
    ensures forall i :: 0 <= i < |rows| ==> Table(hs, rows)[h][i] == rows[i][h]
  {
    if rows != [] {
      var init := rows[..|rows| - 1];
      TableColumns(hs, init, h);
      assert forall i :: 0 <= i < |init| ==> init[i] == rows[i];
    }
  }

  /**
   * What `get_publishing_data` yields: the table of the decoded reports, or the
   * KeyError for the first column missing from the first report that lacks one.
   */
  function Publishing<K(==,!new), V>(hs: seq<K>, rows: seq<map<K, V>>): Result<map<K, seq<V>>, K> {
    match FirstIncomplete(hs, rows)
      case None => Success(Table(hs, rows))
      case Some(i) => Failure(MissingHeader(hs, rows[i], 0).value)
  }

  /**
   * The columns all have the same length, one value per decoded report: a month
   * whose response is not 200 or does not decode adds nothing.
   */
  lemma PublishingColumns<K(!new), V>(hs: seq<K>, rows: seq<map<K, V>>, h: K)
    requires Publishing(hs, rows).Success? && h in hs
    ensures h in Publishing(hs, rows).value
    ensures |Publishing(hs, rows).value[h]| == |rows|
    ensures forall i :: 0 <= i < |rows| ==> Publishing(hs, rows).value[h][i] == rows[i][h]
  {
    TableColumns(hs, rows, h);
  }

  /** A month that is not 200 or does not decode leaves the gathered reports as they were. */
  lemma RowsSnoc<K(!new), V>(reports: Month -> Response<map<K, V>>, ms: seq<Month>, p: Month)
    ensures Rows(reports, ms + [p]) == Rows(reports, ms) + (if Decoded(reports(p)) then [reports(p).body.value] else [])
  {
    assert (ms + [p])[..|ms|] == ms;
  }

  lemma {:induction false} RowsAppend<K(!new), V>(reports: Month -> Response<map<K, V>>, a: seq<Month>, b: seq<Month>)
    ensures Rows(reports, a + b) == Rows(reports, a) + Rows(reports, b)
  {
    if b == [] {
      assert a + b == a;
    } else {
      assert (a + b)[..|a + b| - 1] == a + b[..|b| - 1];
      RowsAppend(reports, a, b[..|b| - 1]);
    }
  }

  lemma FirstIncompleteSnoc<K(!new), V>(hs: seq<K>, rows: seq<map<K, V>>, row: map<K, V>)
    requires FirstIncomplete(hs, rows).None?
    ensures FirstIncomplete(hs, rows + [row]) == if Complete(hs, row) then None else Some(|rows|)
  {
    var r := FirstIncomplete(hs, rows + [row]);
    assert (rows + [row])[|rows|] == row;
    if r.Some? {
      assert r.value == |rows|;
    }
  }

  lemma FirstIncompleteAppend<K(!new), V>(hs: seq<K>, rows: seq<map<K, V>>, more: seq<map<K, V>>)
    requires FirstIncomplete(hs, rows).Some?
    ensures FirstIncomplete(hs, rows + more) == FirstIncomplete(hs, rows)
  {
    var i := FirstIncomplete(hs, rows).value;
    assert (rows + more)[i] == rows[i];
    assert forall j :: 0 <= j < i ==> (rows + more)[j] == rows[j];
  }

  lemma TableSnoc<K(!new), V>(hs: seq<K>, rows: seq<map<K, V>>, row: map<K, V>)
    requires FirstIncomplete(hs, rows).None? && Complete(hs, row)
    ensures FirstIncomplete(hs, rows + [row]).None?
    ensures Table(hs, rows + [row]) == map h | h in hs :: Table(hs, rows)[h] + [row[h]]
  {
    FirstIncompleteSnoc(hs, rows, row);
    assert (rows + [row])[..|rows|] == rows;
    assert (rows + [row])[|rows|] == row;
  }

  /** The reports gathered from the months of `done` that pass the month test. */
  function Gathered<K, V>(sy: int, sm: int, cy: int, cm: int, reports: Month -> Response<map<K, V>>,
                          done: seq<Month>): seq<map<K, V>> {
    Rows(reports, Filter(Keep(sy, sm, cy, cm), done))
  }

  /** The columns of the reports gathered so far, none of them lacking a column. */
  predicate Collected<K(==,!new), V(==)>(hs: seq<K>, sy: int, sm: int, cy: int, cm: int,
                                   reports: Month -> Response<map<K, V>>, done: seq<Month>, data: map<K, seq<V>>) {
    FirstIncomplete(hs, Gathered(sy, sm, cy, cm, reports, done)).None? &&
    data == Table(hs, Gathered(sy, sm, cy, cm, reports, done))
  }

  predicate IsPrefix<T(==)>(a: seq<T>, b: seq<T>) {
    |a| <= |b| && b[..|a|] == a
  }

  lemma {:induction false} GridPrefix(sy: int, y: int, cy: int)
    requires y <= cy
    ensures IsPrefix(Grid(sy, y), Grid(sy, cy))
    decreases cy - y
  {
    if y < cy {
      GridPrefix(sy, y + 1, cy);
      if y + 1 >= sy {
        assert Grid(sy, y + 1) == Grid(sy, y) + Year(y + 1);
      }
    }
  }

  /** After its twelfth month, a year's months complete the grid up to it. */
  lemma GridYear(sy: int, year: int)
    requires sy <= year
    ensures Grid(sy, year - 1) + Year(year)[..12] == Grid(sy, year)
  {
    assert Year(year)[..12] == Year(year);
  }

  /** The next month of the nested loops extends what they have visited, within the grid. */
  lemma NextMonth(sy: int, cy: int, year: int, month: int)
    requires sy <= year <= cy && 1 <= month <= 12
    ensures Grid(sy, year - 1) + Year(year)[..month - 1] + [(year, month)] == Grid(sy, year - 1) + Year(year)[..month]
    ensures IsPrefix(Grid(sy, year - 1) + Year(year)[..month], Grid(sy, cy))
  {
    assert Year(year)[..month] == Year(year)[..month - 1] + [(year, month)];
    GridPrefix(sy, year, cy);
    assert Grid(sy, year) == Grid(sy, year - 1) + Year(year);
    assert (Grid(sy, year - 1) + Year(year))[..|Grid(sy, year - 1)| + month] == Grid(sy, year - 1) + Year(year)[..month];
  }

  /**
   * `get_publishing_data` with the corrected month test: for each month of the range
   * whose report comes back 200 and decodes, append every column of the report to its
   * column list.
   */
  method GetPublishingData<V(==)>(sy: int, sm: int, cy: int, cm: int, reports: Month -> Response<map<string, V>>)
    returns (r: Result<map<string, seq<V>>, string>)
    ensures r == Publishing(Headers, Rows(reports, Months(sy, sm, cy, cm)))
  {
    HeadersDistinct();
    r := CollectColumns(Headers, sy, sm, cy, cm, reports);
  }

  /** The nested year and month loops of `get_publishing_data`, for a list `hs` of distinct columns. */
  method CollectColumns<K(==,!new), V(==)>(hs: seq<K>, sy: int, sm: int, cy: int, cm: int,
                                      reports: Month -> Response<map<K, V>>)
    returns (r: Result<map<K, seq<V>>, K>)
    requires NoDuplicates(hs)
    ensures r == Publishing(hs, Rows(reports, Months(sy, sm, cy, cm)))
  {
    var data: map<K, seq<V>> := map h | h in hs :: [];
    CollectedStart(hs, sy, sm, cy, cm, reports);
    var year := sy;
    ghost var prev := sy - 1;  // the last year visited
    while year <= cy
      invariant prev == year - 1
      invariant year <= cy + 1 || cy < sy
      invariant cy < sy ==> year == sy
      invariant Collected(hs, sy, sm, cy, cm, reports, Grid(sy, prev), data)
      decreases cy - year
    {
      var missing;
      data, missing := CollectYear(hs, sy, sm, cy, cm, reports, data, year);
      if missing.Some? {
        return Failure(missing.value);
      }
      prev := year;
      year := year + 1;
    }
    assert Grid(sy, prev) == Grid(sy, cy);
    CollectedAll(hs, sy, sm, cy, cm, reports, data);
    r := Success(data);
  }

  lemma CollectedStart<K(!new), V>(hs: seq<K>, sy: int, sm: int, cy: int, cm: int,
                                    reports: Month -> Response<map<K, V>>)
    ensures Collected(hs, sy, sm, cy, cm, reports, Grid(sy, sy - 1), map h | h in hs :: [])
  {
    assert Gathered(sy, sm, cy, cm, reports, Grid(sy, sy - 1)) == [];
  }

  /** Once every month of the grid is gathered, the columns are those of the whole range. */
  lemma CollectedAll<K(!new), V>(hs: seq<K>, sy: int, sm: int, cy: int, cm: int,
                                  reports: Month -> Response<map<K, V>>, data: map<K, seq<V>>)
    requires Collected(hs, sy, sm, cy, cm, reports, Grid(sy, cy), data)
    ensures Success(data) == Publishing(hs, Rows(reports, Months(sy, sm, cy, cm)))
  {
  }

  /** The month loop of one year of `get_publishing_data`. */
  method CollectYear<K(==,!new), V(==)>(hs: seq<K>, sy: int, sm: int, cy: int, cm: int,
                                        reports: Month -> Response<map<K, V>>, data: map<K, seq<V>>, year: int)
    returns (data': map<K, seq<V>>, missing: Option<K>)
    requires NoDuplicates(hs) && sy <= year <= cy
    requires Collected(hs, sy, sm, cy, cm, reports, Grid(sy, year - 1), data)
    ensures missing.None? ==> Collected(hs, sy, sm, cy, cm, reports, Grid(sy, year), data')
    ensures missing.Some? ==> Publishing(hs, Rows(reports, Months(sy, sm, cy, cm))) == Failure(missing.value)
  {
    data' := data;
    missing := None;
    var month := 1;
    ghost var prev := 0;  // the last month visited
    ghost var done := Grid(sy, year - 1);
    assert done == Grid(sy, year - 1) + Year(year)[..0];
    while month <= 12
      invariant 1 <= month <= 13 && prev == month - 1 && missing.None?
      invariant done == Grid(sy, year - 1) + Year(year)[..prev]
      invariant Collected(hs, sy, sm, cy, cm, reports, done, data')
    {
      NextMonth(sy, cy, year, month);
      data', missing := VisitMonth(hs, sy, sm, cy, cm, reports, data', done, year, month);
      if missing.Some? {
        return;
      }
      done := done + [(year, month)];
      prev := month;
      month := month + 1;
    }
    assert done == Grid(sy, year) by {
      GridYear(sy, year);
    }
  }

  /**
   * The body of the month loop of `get_publishing_data`: a month of the range whose
   * report is 200 and decodes adds one value to each column, or raises KeyError for
   * the first column its report lacks, which ends the whole gathering.
   */
  method VisitMonth<K(==,!new), V(==)>(hs: seq<K>, sy: int, sm: int, cy: int, cm: int,
                                  reports: Month -> Response<map<K, V>>,
                                  data: map<K, seq<V>>, ghost done: seq<Month>, year: int, month: int)
    returns (data': map<K, seq<V>>, missing: Option<K>)
    requires NoDuplicates(hs)
    requires IsPrefix(done + [(year, month)], Grid(sy, cy))
    requires Collected(hs, sy, sm, cy, cm, reports, done, data)
    ensures missing.None? ==> Collected(hs, sy, sm, cy, cm, reports, done + [(year, month)], data')
    ensures missing.Some? ==> Publishing(hs, Rows(reports, Months(sy, sm, cy, cm))) == Failure(missing.value)
  {
    data' := data;
    missing := None;
    var keep := Keep(sy, sm, cy, cm);
    FilterSnoc(keep, done, (year, month));
    assert keep((year, month)) == InRange(sy, sm, cy, cm, year, month);
    RowsSnoc(reports, Filter(keep, done), (year, month));
    ghost var before := Gathered(sy, sm, cy, cm, reports, done);
    ghost var after := Gathered(sy, sm, cy, cm, reports, done + [(year, month)]);
    if keep((year, month)) {
      assert Filter(keep, done + [(year, month)]) == Filter(keep, done) + [(year, month)];
    } else {
      assert Filter(keep, done + [(year, month)]) == Filter(keep, done);
    }
    assert after == if keep((year, month)) && Decoded(reports((year, month)))
      then before + [reports((year, month)).body.value] else before;
    if InRange(sy, sm, cy, cm, year, month) {
      var response := reports((year, month));
      if response.status == 200 && response.body.Some? {
        var row := response.body.value;
        var r;
        data', r := AppendRow(hs, data, Gathered(sy, sm, cy, cm, reports, done), row);
        if r.Failure? {
          missing := Some(r.error);
          PublishingFails(hs, reports, sy, sm, cy, cm, done + [(year, month)], row);
        }
      }
    }
  }

  /**
   * `for col in HEADERS: data[col].append(json_results[col])`: either every column
   * grows by the report's value, or the first missing column raises KeyError.
   */
  method AppendRow<K(==,!new), V(==)>(hs: seq<K>, data: map<K, seq<V>>, ghost rows: seq<map<K, V>>, row: map<K, V>)
    returns (data': map<K, seq<V>>, r: Result<map<K, seq<V>>, K>)
    requires NoDuplicates(hs)
    requires FirstIncomplete(hs, rows).None? && data == Table(hs, rows)
    ensures r.Failure? <==> !Complete(hs, row)
    ensures r.Failure? ==> r.error == MissingHeader(hs, row, 0).value
    ensures r.Success? ==> FirstIncomplete(hs, rows + [row]).None? && data' == Table(hs, rows + [row])
  {
    data' := data;
    for k := 0 to |hs|
      invariant forall j :: 0 <= j < k ==> hs[j] in row
      invariant forall h :: h in data' <==> h in hs
      invariant forall j :: 0 <= j < k ==> data'[hs[j]] == data[hs[j]] + [row[hs[j]]]
      invariant forall j :: k <= j < |hs| ==> data'[hs[j]] == data[hs[j]]
    {
      var col := hs[k];
      if col !in row {
        r := Failure(col);
        assert MissingHeader(hs, row, k) == Some(col);
        MissingHeaderFrom(hs, row, k);
        return;
      }
      data' := data'[col := data'[col] + [row[col]]];
    }
    r := Success(data');
    TableSnoc(hs, rows, row);
    assert forall h :: h in hs ==> data'[h] == data[h] + [row[h]];
  }

  lemma {:induction false} MissingHeaderFrom<K(!new), V>(hs: seq<K>, row: map<K, V>, k: nat)
    requires k <= |hs| && forall j :: 0 <= j < k ==> hs[j] in row
    ensures MissingHeader(hs, row, 0) == MissingHeader(hs, row, k)
    decreases k
  {
    if k > 0 {
      MissingHeaderFrom(hs, row, k - 1);
    }
  }

  /** A report lacking a column ends the whole gathering with that column's KeyError. */
  lemma PublishingFails<K(!new), V>(hs: seq<K>, reports: Month -> Response<map<K, V>>, sy: int, sm: int, cy: int, cm: int,
                              seen: seq<Month>, row: map<K, V>)
    requires |seen| > 0 && IsPrefix(seen, Grid(sy, cy))
    requires var p := seen[|seen| - 1];
      Keep(sy, sm, cy, cm)(p) && Decoded(reports(p)) && reports(p).body.value == row && !Complete(hs, row) &&
      FirstIncomplete(hs, Gathered(sy, sm, cy, cm, reports, seen[..|seen| - 1])).None?
    ensures Publishing(hs, Rows(reports, Months(sy, sm, cy, cm))) == Failure(MissingHeader(hs, row, 0).value)
  {
    var keep := Keep(sy, sm, cy, cm);
    var g := Grid(sy, cy);
    var init := seen[..|seen| - 1];
    var p := seen[|seen| - 1];
    assert seen == init + [p];
    assert g == seen + g[|seen|..];
    FilterSnoc(keep, init, p);
    FilterAppend(keep, seen, g[|seen|..]);
    RowsSnoc(reports, Filter(keep, init), p);
    var before := Rows(reports, Filter(keep, seen));
    FirstIncompleteSnoc(hs, Rows(reports, Filter(keep, init)), row);
    RowsAppend(reports, Filter(keep, seen), Filter(keep, g[|seen|..]));
    FirstIncompleteAppend(hs, before, Rows(reports, Filter(keep, g[|seen|..])));
    assert (before + Rows(reports, Filter(keep, g[|seen|..])))[|before| - 1] == row;
  }

  // ---------------------------------------------------------------------------
  // get_most_active_data
  // ---------------------------------------------------------------------------

  /** The four top lists of a report, in the order the script handles them. */
  datatype Category = Users | Namespaces | Versions | Downloads

  /**
   * An entry of a top list: its key field (`userLoginName`, `namespace` or
   * `extensionIdentifier`), which is also its first value, and its second value.
   */
  datatype Entry<V> = Entry(name: V, value: V)

  /** The four top lists of one month's report. */
  datatype Top<V> = Top(users: seq<Entry<V>>, namespaces: seq<Entry<V>>, versions: seq<Entry<V>>,
                        downloads: seq<Entry<V>>)

  function Entries<V>(t: Top<V>, c: Category): seq<Entry<V>> {
    match c
      case Users => t.users
      case Namespaces => t.namespaces
      case Versions => t.versions
      case Downloads => t.downloads
  }

  /** The entries of a response's list, none when the response has no body. */
  function Listed<V>(r: Response<Top<V>>, c: Category): seq<Entry<V>> {
    if r.body.Some? then Entries(r.body.value, c) else []
  }

  /** A 200 response that decodes and has at least one non-empty top list. */
  predicate Active<V>(r: Response<Top<V>>) {
    Decoded(r) &&
    (|r.body.value.users| > 0 || |r.body.value.namespaces| > 0 || |r.body.value.versions| > 0 ||
     |r.body.value.downloads| > 0)
  }

  /** `'%s/%s' % (month, str(year)[2:])`. */
  function Label(y: int, m: int): string {
    IntToString(m) + "/" + Slice(IntToString(y), 2, |IntToString(y)|)
  }

  lemma SlashAfterDigits(a: string, b: string)
    requires AllDigits(a)
    ensures IndexOfChar(a + "/" + b, '/') == Some(|a|)
  {
    var s := a + "/" + b;
    assert s[|a|] == '/';
    assert forall k :: 0 <= k < |a| ==> s[k] == a[k] && IsDigit(s[k]);
  }

  /** A label names its month: two months with the same label are the same month of the year. */
  lemma LabelMonth(y1: int, m1: int, y2: int, m2: int)
    requires 1 <= m1 <= 12 && 1 <= m2 <= 12 && Label(y1, m1) == Label(y2, m2)
    ensures m1 == m2
  {
    var a1 := NatToString(m1);
    var a2 := NatToString(m2);
    DigitsOfNat(m1);
    DigitsOfNat(m2);
    SlashAfterDigits(a1, Slice(IntToString(y1), 2, |IntToString(y1)|));
    SlashAfterDigits(a2, Slice(IntToString(y2), 2, |IntToString(y2)|));
    assert |a1| == |a2|;
    assert a1 == Label(y1, m1)[..|a1|] == Label(y2, m2)[..|a2|] == a2;
    ParseIntOfNatToString(m1);
    ParseIntOfNatToString(m2);
  }

  /** The most-active lists of one category: its distinct keys and its entries per label. */
  datatype Slot<V> = Slot(unique: seq<V>, byDate: map<string, seq<Entry<V>>>)

  /** The `most_active` dictionary. */
  datatype MostActive<V> = MostActive(dates: seq<string>, users: Slot<V>, namespaces: Slot<V>, versions: Slot<V>,
                                      downloads: Slot<V>)

  function SlotOf<V>(st: MostActive<V>, c: Category): Slot<V> {
    match c
      case Users => st.users
      case Namespaces => st.namespaces
      case Versions => st.versions
      case Downloads => st.downloads
  }

  function ActiveIn<V>(reports: Month -> Response<Top<V>>): Month -> bool {
    (p: Month) => Active(reports(p))
  }

  /** The keys of a list of entries, in order. */
  function NamesOf<V>(entries: seq<Entry<V>>): (r: seq<V>)
    ensures |r| == |entries| && forall k :: 0 <= k < |entries| ==> r[k] == entries[k].name
  {
    seq(|entries|, k requires 0 <= k < |entries| => entries[k].name)
  }

  /** Every key listed in category `c` by the months `ms`, in month and list order. */
  function Names<V>(reports: Month -> Response<Top<V>>, ms: seq<Month>, c: Category): seq<V> {
    if ms == [] then [] else Names(reports, ms[..|ms| - 1], c) + NamesOf(Listed(reports(ms[|ms| - 1]), c))
  }

  /** For each label, the list of the last month of `ms` with that label. */
  function ByDate<V>(reports: Month -> Response<Top<V>>, ms: seq<Month>, c: Category): map<string, seq<Entry<V>>> {
    if ms == [] then map[]
    else
      var p := ms[|ms| - 1];
      ByDate(reports, ms[..|ms| - 1], c)[Label(p.0, p.1) := Listed(reports(p), c)]
  }

  /**
   * The `most_active` dictionary after the months `ms`: the months whose report is
   * active contribute their label to `dates`, their keys to each `unique` list in
   * order of first appearance, and their lists under their label.
   */
  function Expected<V(==)>(reports: Month -> Response<Top<V>>, ms: seq<Month>): MostActive<V> {
    Assembled(reports, Filter(ActiveIn(reports), ms))
  }

  /** The `most_active` dictionary built from the active months `kept`. */
  function Assembled<V(==)>(reports: Month -> Response<Top<V>>, kept: seq<Month>): MostActive<V> {
    MostActive(DatesOf(kept), SlotFor(reports, kept, Users), SlotFor(reports, kept, Namespaces),
               SlotFor(reports, kept, Versions), SlotFor(reports, kept, Downloads))
  }

  /** The labels of the months `kept`, in order. */
  function DatesOf(kept: seq<Month>): (r: seq<string>)
    ensures |r| == |kept|
  {
    if kept == [] then [] else DatesOf(kept[..|kept| - 1]) + [Label(kept[|kept| - 1].0, kept[|kept| - 1].1)]
  }

  /** The `i`th date is the label of the `i`th active month. */
  lemma {:induction false} DatesOfLabels(kept: seq<Month>, i: nat)
    requires i < |kept|
    ensures DatesOf(kept)[i] == Label(kept[i].0, kept[i].1)
  {
    if i < |kept| - 1 {
      var init := kept[..|kept| - 1];
      DatesOfLabels(init, i);
      assert init[i] == kept[i];
    }
  }

  /** One category's lists after the active months `kept`. */
  function SlotFor<V(==)>(reports: Month -> Response<Top<V>>, kept: seq<Month>, c: Category): Slot<V> {
    Slot(FirstOccurrences(Names(reports, kept, c)), ByDate(reports, kept, c))
  }

  lemma SlotOfExpected<V>(reports: Month -> Response<Top<V>>, ms: seq<Month>, c: Category)
    ensures SlotOf(Expected(reports, ms), c) == SlotFor(reports, Filter(ActiveIn(reports), ms), c)
  {
  }

  /** A month whose report is not active leaves `most_active` as it was. */
  lemma ExpectedSkips<V>(reports: Month -> Response<Top<V>>, ms: seq<Month>, p: Month)
    requires !Active(reports(p))
    ensures Expected(reports, ms + [p]) == Expected(reports, ms)
  {
    KeptSnoc(reports, ms, p);
    assert Filter(ActiveIn(reports), ms + [p]) == Filter(ActiveIn(reports), ms);
  }

  lemma VisitedSnoc(sy: int, sm: int, cy: int, cm: int, done: seq<Month>, p: Month)
    ensures Filter(Keep(sy, sm, cy, cm), done + [p]) ==
      if InRange(sy, sm, cy, cm, p.0, p.1) then Filter(Keep(sy, sm, cy, cm), done) + [p]
      else Filter(Keep(sy, sm, cy, cm), done)
  {
    FilterSnoc(Keep(sy, sm, cy, cm), done, p);
  }

  lemma KeptSnoc<V>(reports: Month -> Response<Top<V>>, ms: seq<Month>, p: Month)
    ensures Filter(ActiveIn(reports), ms + [p]) ==
      if Active(reports(p)) then Filter(ActiveIn(reports), ms) + [p] else Filter(ActiveIn(reports), ms)
  {
    FilterSnoc(ActiveIn(reports), ms, p);
  }

  lemma DatesSnoc(kept: seq<Month>, p: Month)
    ensures DatesOf(kept + [p]) == DatesOf(kept) + [Label(p.0, p.1)]
  {
    assert (kept + [p])[..|kept|] == kept;
  }

  /** An active month adds its keys and its list to each category. */
  lemma SlotForAdds<V>(reports: Month -> Response<Top<V>>, kept: seq<Month>, p: Month, c: Category)
    requires Active(reports(p))
    ensures SlotFor(reports, kept + [p], c) ==
      Slot(FirstOccurrences(Names(reports, kept, c) + NamesOf(Entries(reports(p).body.value, c))),
           ByDate(reports, kept, c)[Label(p.0, p.1) := Entries(reports(p).body.value, c)])
  {
    assert (kept + [p])[..|kept|] == kept;
  }

  /**
   * The `unique` lists: each key listed in the category once, nothing else, in
   * order of first appearance.
   */
  lemma UniqueLists<V>(reports: Month -> Response<Top<V>>, ms: seq<Month>, c: Category)
    ensures var kept := Filter(ActiveIn(reports), ms);
      var u := SlotOf(Expected(reports, ms), c).unique;
      NoDuplicates(u) && (forall x :: x in u <==> x in Names(reports, kept, c)) &&
      forall i, j :: 0 <= i < j < |u| ==>
        FirstIndex(Names(reports, kept, c), u[i]) < FirstIndex(Names(reports, kept, c), u[j])
  {
    var names := Names(reports, Filter(ActiveIn(reports), ms), c);
    FirstOccurrencesSpec(names);
    forall i, j | 0 <= i < j < |FirstOccurrences(names)|
      ensures FirstIndex(names, FirstOccurrences(names)[i]) < FirstIndex(names, FirstOccurrences(names)[j])
    {
      FirstOccurrencesOrder(names, i, j);
    }
  }

  /** The body of the `for item in ...` loop: add each key not yet listed. */
  method AddUnique<V(==)>(unique: seq<V>, entries: seq<Entry<V>>, ghost seen: seq<V>) returns (r: seq<V>)
    requires unique == FirstOccurrences(seen)
    ensures r == FirstOccurrences(seen + NamesOf(entries))
  {
    r := unique;
    ghost var done := seen;
    assert seen + NamesOf(entries[..0]) == seen;
    for k := 0 to |entries|
      invariant done == seen + NamesOf(entries[..k])
      invariant r == FirstOccurrences(done)
    {
      var name := entries[k].name;
      NamesOfNext(seen, entries, k);
      FirstOccurrencesSpec(done);
      FirstOccurrencesSnoc(done, name);
      if name !in r {
        r := r + [name];
      }
      done := done + [name];
    }
    assert entries[..|entries|] == entries;
  }

  lemma NamesOfNext<V>(seen: seq<V>, entries: seq<Entry<V>>, k: nat)
    requires k < |entries|
    ensures seen + NamesOf(entries[..k + 1]) == seen + NamesOf(entries[..k]) + [entries[k].name]
  {
    assert NamesOf(entries[..k + 1]) == NamesOf(entries[..k]) + [entries[k].name];
  }

  /** One category's update for an active month: store its list, then extend `unique`. */
  method Absorb<V(==)>(slot: Slot<V>, date: string, entries: seq<Entry<V>>, ghost seen: seq<V>) returns (r: Slot<V>)
    requires slot.unique == FirstOccurrences(seen)
    ensures r == Slot(FirstOccurrences(seen + NamesOf(entries)), slot.byDate[date := entries])
  {
    var unique := AddUnique(slot.unique, entries, seen);
    r := Slot(unique, slot.byDate[date := entries]);
  }

  /** `most_active` after the loops have visited the months `done`. */
  ghost predicate ActiveSoFar<V>(sy: int, sm: int, cy: int, cm: int, reports: Month -> Response<Top<V>>,
                                     done: seq<Month>, st: MostActive<V>)
  {
    st == Assembled(reports, Filter(ActiveIn(reports), Filter(Keep(sy, sm, cy, cm), done)))
  }

  /** The body of the month loop of `get_most_active_data`. */
  method VisitActiveMonth<V(==)>(sy: int, sm: int, cy: int, cm: int, reports: Month -> Response<Top<V>>,
                                 st: MostActive<V>, ghost done: seq<Month>, year: int, month: int)
    returns (st': MostActive<V>)
    requires ActiveSoFar(sy, sm, cy, cm, reports, done, st)
    ensures ActiveSoFar(sy, sm, cy, cm, reports, done + [(year, month)], st')
  {
    var p := (year, month);
    ghost var visited := Filter(Keep(sy, sm, cy, cm), done);
    ghost var kept := Filter(ActiveIn(reports), visited);
    VisitedSnoc(sy, sm, cy, cm, done, p);
    st' := st;
    if !InRange(sy, sm, cy, cm, year, month) {
      return;
    }
    KeptSnoc(reports, visited, p);
    var response := reports(p);
    if !Active(response) {
      return;
    }
    st' := AbsorbMonth(reports, st, kept, p);
  }

  /** An active month's report merged into `most_active`. */
  method AbsorbMonth<V(==)>(reports: Month -> Response<Top<V>>, st: MostActive<V>, ghost kept: seq<Month>, p: Month)
    returns (st': MostActive<V>)
    requires Active(reports(p))
    requires st == Assembled(reports, kept)
    ensures st' == Assembled(reports, kept + [p])
  {
    var date := Label(p.0, p.1);
    DatesSnoc(kept, p);
    var users := AbsorbCategory(reports, st.users, kept, p, Users);
    var namespaces := AbsorbCategory(reports, st.namespaces, kept, p, Namespaces);
    var versions := AbsorbCategory(reports, st.versions, kept, p, Versions);
    var downloads := AbsorbCategory(reports, st.downloads, kept, p, Downloads);
    st' := MostActive(st.dates + [date], users, namespaces, versions, downloads);
  }

  /** One category of an active month's report merged into its lists. */
  method AbsorbCategory<V(==)>(reports: Month -> Response<Top<V>>, slot: Slot<V>, ghost kept: seq<Month>, p: Month,
                               c: Category)
    returns (r: Slot<V>)
    requires Active(reports(p))
    requires slot == SlotFor(reports, kept, c)
    ensures r == SlotFor(reports, kept + [p], c)
  {
    r := Absorb(slot, Label(p.0, p.1), Entries(reports(p).body.value, c), Names(reports, kept, c));
    SlotForAdds(reports, kept, p, c);
  }

  /** The month loop of one year of `get_most_active_data`. */
  method ActiveYear<V(==)>(sy: int, sm: int, cy: int, cm: int, reports: Month -> Response<Top<V>>,
                           st: MostActive<V>, year: int)
    returns (st': MostActive<V>)
    requires sy <= year <= cy
    requires ActiveSoFar(sy, sm, cy, cm, reports, Grid(sy, year - 1), st)
    ensures ActiveSoFar(sy, sm, cy, cm, reports, Grid(sy, year), st')
  {
    st' := st;
    var month := 1;
    ghost var prev := 0;  // the last month visited
    ghost var done := Grid(sy, year - 1);
    assert done == Grid(sy, year - 1) + Year(year)[..0];
    while month <= 12
      invariant 1 <= month <= 13 && prev == month - 1
      invariant done == Grid(sy, year - 1) + Year(year)[..prev]
      invariant ActiveSoFar(sy, sm, cy, cm, reports, done, st')
    {
      NextMonth(sy, cy, year, month);
      st' := VisitActiveMonth(sy, sm, cy, cm, reports, st', done, year, month);
      done := done + [(year, month)];
      prev := month;
      month := month + 1;
    }
    assert done == Grid(sy, year) by {
      GridYear(sy, year);
    }
  }

  /** `most_active` as initialised: no dates and four empty categories. */
  function NoActivity<V>(): MostActive<V> {
    MostActive([], Slot([], map[]), Slot([], map[]), Slot([], map[]), Slot([], map[]))
  }

  /** Before the first year nothing is visited. */
  lemma ActiveStart<V>(sy: int, sm: int, cy: int, cm: int, reports: Month -> Response<Top<V>>)
    ensures ActiveSoFar(sy, sm, cy, cm, reports, Grid(sy, sy - 1), NoActivity())
  {
    assert Filter(Keep(sy, sm, cy, cm), Grid(sy, sy - 1)) == [];
    assert Filter(ActiveIn(reports), []) == [];
    assert DatesOf([]) == [];
  }

  /** After the last year every month of the grid is visited. */
  lemma ActiveEnd<V>(sy: int, sm: int, cy: int, cm: int, reports: Month -> Response<Top<V>>, last: int,
                         st: MostActive<V>)
    requires last == cy || (cy < sy && last == sy - 1)
    requires ActiveSoFar(sy, sm, cy, cm, reports, Grid(sy, last), st)
    ensures st == Expected(reports, Months(sy, sm, cy, cm))
  {
    assert Grid(sy, last) == Grid(sy, cy);
  }

  /** The year and month loops of `get_most_active_data` with the corrected month test, before `process_data`. */
  method GatherMostActive<V(==)>(sy: int, sm: int, cy: int, cm: int, reports: Month -> Response<Top<V>>)
    returns (st: MostActive<V>)
    ensures st == Expected(reports, Months(sy, sm, cy, cm))
  {
    st := NoActivity();
    ActiveStart(sy, sm, cy, cm, reports);
    var year := sy;
    ghost var prev := sy - 1;  // the last year visited
    while year <= cy
      invariant prev == year - 1
      invariant year <= cy + 1 || cy < sy
      invariant cy < sy ==> year == sy
      invariant ActiveSoFar(sy, sm, cy, cm, reports, Grid(sy, prev), st)
      decreases cy - year
    {
      st := ActiveYear(sy, sm, cy, cm, reports, st, year);
      prev := year;
      year := year + 1;
    }
    ActiveEnd(sy, sm, cy, cm, reports, prev, st);
  }

  /*
   * `process_data`: one table per category, with a column for each key of
   * `unique` and a row for each label of `dates`.
   */

  /** The value `data[item][i]` holds after the entries of one label: that of the last entry for `u`. */
  function LastValue<V(==)>(entries: seq<Entry<V>>, u: V): (r: Option<V>)
    ensures r.None? <==> forall k :: 0 <= k < |entries| ==> entries[k].name != u
    ensures r.Some? ==>
      exists k :: 0 <= k < |entries| && entries[k] == Entry(u, r.value) &&
                  forall j :: k < j < |entries| ==> entries[j].name != u
  {
    if entries == [] then None
    else
      var last := entries[|entries| - 1];
      if last.name == u then Some(last.value) else LastValue(entries[..|entries| - 1], u)
  }

  /** What `process_data` needs of one category: each label is stored, each listed key is in `unique`. */
  predicate Indexed<V(==)>(dates: seq<string>, slot: Slot<V>) {
    (forall i :: 0 <= i < |dates| ==> dates[i] in slot.byDate) &&
    forall d, k :: d in slot.byDate && 0 <= k < |slot.byDate[d]| ==> slot.byDate[d][k].name in slot.unique
  }

  /** The table of one category: columns `unique`, then `date`. */
  datatype Frame<V> = Frame(columns: seq<V>, cells: map<V, seq<Option<V>>>, date: seq<string>)

  /** The column of key `u`: for each label, the value of `u` in that label's list, if any. */
  function Column<V(==)>(dates: seq<string>, slot: Slot<V>, u: V): (r: seq<Option<V>>)
    requires forall i :: 0 <= i < |dates| ==> dates[i] in slot.byDate
    ensures |r| == |dates|
    ensures forall i :: 0 <= i < |dates| ==> r[i] == LastValue(slot.byDate[dates[i]], u)
  {
    seq(|dates|, i requires 0 <= i < |dates| => LastValue(slot.byDate[dates[i]], u))
  }

  function FrameOf<V(==)>(dates: seq<string>, slot: Slot<V>): Frame<V>
    requires forall i :: 0 <= i < |dates| ==> dates[i] in slot.byDate
  {
    Frame(slot.unique, map u | u in slot.unique :: Column(dates, slot, u), dates)
  }

  /** The body of `for i in range(len(dates))`: write cell `i` of each column from one label's list. */
  method FillRow<V(==)>(cells: map<V, seq<Option<V>>>, i: nat, entries: seq<Entry<V>>)
    returns (cells': map<V, seq<Option<V>>>)
    requires forall k :: 0 <= k < |entries| ==> entries[k].name in cells
    requires forall u :: u in cells ==> i < |cells[u]| && cells[u][i] == None
    ensures cells'.Keys == cells.Keys
    ensures forall u :: u in cells ==> |cells'[u]| == |cells[u]| && cells'[u][i] == LastValue(entries, u)
    ensures forall u, j :: u in cells && 0 <= j < |cells[u]| && j != i ==> cells'[u][j] == cells[u][j]
  {
    cells' := cells;
    for k := 0 to |entries|
      invariant cells'.Keys == cells.Keys
      invariant forall u :: u in cells ==> |cells'[u]| == |cells[u]| && cells'[u][i] == LastValue(entries[..k], u)
      invariant forall u, j :: u in cells && 0 <= j < |cells[u]| && j != i ==> cells'[u][j] == cells[u][j]
    {
      var e := entries[k];
      assert entries[..k + 1][..k] == entries[..k];
      cells' := cells'[e.name := cells'[e.name][i := Some(e.value)]];
    }
    assert entries[..|entries|] == entries;
  }

  /** `process_data` for one category. */
  method ProcessSlot<V(==)>(dates: seq<string>, slot: Slot<V>) returns (f: Frame<V>)
    requires Indexed(dates, slot)
    ensures f == FrameOf(dates, slot)
  {
    var cells: map<V, seq<Option<V>>> := map[];
    var blank: seq<Option<V>> := seq(|dates|, _ => None);
    for k := 0 to |slot.unique|
      invariant forall u :: u in cells <==> u in slot.unique[..k]
      invariant forall u :: u in cells ==> cells[u] == blank
    {
      cells := cells[slot.unique[k] := blank];
    }
    assert slot.unique[..|slot.unique|] == slot.unique;
    for i := 0 to |dates|
      invariant forall u :: u in cells <==> u in slot.unique
      invariant forall u :: u in cells ==> |cells[u]| == |dates|
      invariant forall u, j :: u in cells && 0 <= j < i ==> cells[u][j] == LastValue(slot.byDate[dates[j]], u)
      invariant forall u, j :: u in cells && i <= j < |dates| ==> cells[u][j] == None
    {
      cells := FillRow(cells, i, slot.byDate[dates[i]]);
    }
    assert cells == map u | u in slot.unique :: Column(dates, slot, u) by {
      forall u | u in cells
        ensures cells[u] == Column(dates, slot, u)
      {
        assert |cells[u]| == |Column(dates, slot, u)|;
      }
    }
    f := Frame(slot.unique, cells, dates);
  }

  /** Every label of an active month is stored. */
  lemma {:induction false} ByDateLabels<V>(reports: Month -> Response<Top<V>>, kept: seq<Month>, c: Category)
    ensures forall i :: 0 <= i < |kept| ==> DatesOf(kept)[i] in ByDate(reports, kept, c)
  {
    if kept != [] {
      var init := kept[..|kept| - 1];
      var p := kept[|kept| - 1];
      ByDateLabels(reports, init, c);
      var before, after := ByDate(reports, init, c), ByDate(reports, kept, c);
      assert after == before[Label(p.0, p.1) := Listed(reports(p), c)];
      UpdateKeeps(before, Label(p.0, p.1), Listed(reports(p), c), DatesOf(init));
    }
  }

  /** Updating a map keeps every key it had and adds the updated one. */
  lemma UpdateKeeps<K, W>(m: map<K, W>, k: K, v: W, keys: seq<K>)
    requires forall i :: 0 <= i < |keys| ==> keys[i] in m
    ensures forall i :: 0 <= i < |keys + [k]| ==> (keys + [k])[i] in m[k := v]
  {
    forall i | 0 <= i < |keys + [k]|
      ensures (keys + [k])[i] in m[k := v]
    {
      if i < |keys| {
        assert (keys + [k])[i] == keys[i];
      }
    }
  }

  /** Every key a stored list holds is one of `Names`. */
  lemma {:induction false} ByDateNames<V>(reports: Month -> Response<Top<V>>, kept: seq<Month>, c: Category)
    ensures forall d, k :: d in ByDate(reports, kept, c) && 0 <= k < |ByDate(reports, kept, c)[d]| ==>
      ByDate(reports, kept, c)[d][k].name in Names(reports, kept, c)
  {
    if kept != [] {
      var init := kept[..|kept| - 1];
      var p := kept[|kept| - 1];
      ByDateNames(reports, init, c);
      var last := Listed(reports(p), c);
      assert Names(reports, kept, c) == Names(reports, init, c) + NamesOf(last);
      forall d, k | d in ByDate(reports, kept, c) && 0 <= k < |ByDate(reports, kept, c)[d]|
        ensures ByDate(reports, kept, c)[d][k].name in Names(reports, kept, c)
      {
        if d == Label(p.0, p.1) {
          assert NamesOf(last)[k] == last[k].name;
        } else {
          assert ByDate(reports, kept, c)[d] == ByDate(reports, init, c)[d];
        }
      }
    }
  }

  /** The lists gathered by the month loops are what `process_data` needs. */
  lemma ExpectedIndexed<V>(reports: Month -> Response<Top<V>>, ms: seq<Month>, c: Category)
    ensures Indexed(Expected(reports, ms).dates, SlotOf(Expected(reports, ms), c))
  {
    var kept := Filter(ActiveIn(reports), ms);
    ByDateLabels(reports, kept, c);
    ByDateNames(reports, kept, c);
    FirstOccurrencesSpec(Names(reports, kept, c));
    assert SlotOf(Expected(reports, ms), c) == SlotFor(reports, kept, c);
  }

  /** The tables of the four categories. */
  datatype Frames<V> = Frames(users: Frame<V>, namespaces: Frame<V>, versions: Frame<V>, downloads: Frame<V>)

  function FramesOf<V(==)>(st: MostActive<V>): Frames<V>
    requires forall c: Category :: Indexed(st.dates, SlotOf(st, c))
  {
    assert Indexed(st.dates, SlotOf(st, Users)) && Indexed(st.dates, SlotOf(st, Namespaces));
    assert Indexed(st.dates, SlotOf(st, Versions)) && Indexed(st.dates, SlotOf(st, Downloads));
    Frames(FrameOf(st.dates, st.users), FrameOf(st.dates, st.namespaces), FrameOf(st.dates, st.versions),
           FrameOf(st.dates, st.downloads))
  }

  /** `process_data`. */
  method ProcessData<V(==)>(st: MostActive<V>) returns (r: Frames<V>)
    requires forall c: Category :: Indexed(st.dates, SlotOf(st, c))
    ensures r == FramesOf(st)
  {
    assert Indexed(st.dates, SlotOf(st, Users)) && Indexed(st.dates, SlotOf(st, Namespaces));
    assert Indexed(st.dates, SlotOf(st, Versions)) && Indexed(st.dates, SlotOf(st, Downloads));
    var users := ProcessSlot(st.dates, st.users);
    var namespaces := ProcessSlot(st.dates, st.namespaces);
    var versions := ProcessSlot(st.dates, st.versions);
    var downloads := ProcessSlot(st.dates, st.downloads);
    r := Frames(users, namespaces, versions, downloads);
  }

  /** `get_most_active_data` with the corrected month test: the month loops, then `process_data`. */
  method GetMostActiveData<V(==)>(sy: int, sm: int, cy: int, cm: int, reports: Month -> Response<Top<V>>)
    returns (r: Frames<V>)
    ensures forall c: Category :: Indexed(Expected(reports, Months(sy, sm, cy, cm)).dates,
                                          SlotOf(Expected(reports, Months(sy, sm, cy, cm)), c))
    ensures r == FramesOf(Expected(reports, Months(sy, sm, cy, cm)))
  {
    var st := GatherMostActive(sy, sm, cy, cm, reports);
    forall c: Category
      ensures Indexed(st.dates, SlotOf(st, c))
    {
      ExpectedIndexed(reports, Months(sy, sm, cy, cm), c);
    }
    r := ProcessData(st);
  }
}
