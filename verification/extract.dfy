/** Table extraction (run.py:26-69): one placemark description, already parsed
    into its HTML tables, becomes a title and a key/value dict. */
module Extract {
  import opened Base
  import opened Seqs
  import opened Dicts

  /** The texts of the `td` cells of one `tr` row. */
  type HtmlRow = seq<Text>
  /** The `tr` rows of one `table`. */
  type HtmlTable = seq<HtmlRow>
  /** The `table` elements of one placemark description, in document order. */
  type Description = seq<HtmlTable>

  /** What one placemark yields: the title and the key/value dict of its data table. */
  datatype RawTable = RawTable(title: Text, fields: Dict<Text>)

  predicate AllPairs(rows: seq<HtmlRow>) {
    forall i | 0 <= i < |rows| :: |rows[i]| == 2
  }

  /** The first cell of every row: the key texts, in row order. */
  function KeyColumn(rows: seq<HtmlRow>): (ks: seq<Text>)
    requires AllPairs(rows)
    ensures |ks| == |rows| && forall i | 0 <= i < |rows| :: ks[i] == rows[i][0]
  {
    seq(|rows|, i requires 0 <= i < |rows| => rows[i][0])
  }

  /** `_parse_table`, as a specification: the dict after all rows are stored.
      The test at run.py:54 looks the cell element up among text keys and so
      never fires: a repeated key text simply overwrites the earlier value. */
  function ParseRows(rows: seq<HtmlRow>): (r: Result<Dict<Text>>)
    ensures r.Success? <==> AllPairs(rows)
    ensures r.Success? ==> forall k :: k in r.value.m <==> k in KeyColumn(rows)
  {
    if |rows| == 0 then Success(EmptyDict())
    else
      var prefix := rows[..|rows| - 1];
      var row := rows[|rows| - 1];
      assert AllPairs(rows) <==> AllPairs(prefix) && |row| == 2;
      match ParseRows(prefix)
      case Failure(e) => Failure(e)
      case Success(d) =>
        if |row| != 2 then Failure(DataRowCellCount(|row|))
        else
          assert KeyColumn(rows) == KeyColumn(prefix) + [row[0]];
          Success(Put(d, row[0], row[1]))
  }

  lemma PrefixPairs(rows: seq<HtmlRow>)
    requires |rows| > 0 && AllPairs(rows)
    ensures AllPairs(rows[..|rows| - 1])
  {
    var prefix := rows[..|rows| - 1];
    forall i | 0 <= i < |prefix| ensures |prefix[i]| == 2 {
      assert prefix[i] == rows[i];
    }
  }

  /** A failed parse reports the cell count of the first row without exactly two cells. */
  lemma {:induction false} ParseRowsFirstBadRow(rows: seq<HtmlRow>)
    requires ParseRows(rows).Failure?
    ensures exists i | 0 <= i < |rows| ::
      |rows[i]| != 2 && AllPairs(rows[..i]) && ParseRows(rows).error == DataRowCellCount(|rows[i]|)
  {
    var prefix := rows[..|rows| - 1];
    var row := rows[|rows| - 1];
    if ParseRows(prefix).Failure? {
      ParseRowsFirstBadRow(prefix);
      var i :| 0 <= i < |prefix| && |prefix[i]| != 2 && AllPairs(prefix[..i]) &&
        ParseRows(prefix).error == DataRowCellCount(|prefix[i]|);
      assert rows[i] == prefix[i] && rows[..i] == prefix[..i];
    } else {
      assert rows[..|rows| - 1] == prefix;
    }
  }

  /** `_parse_table` (run.py:48-57): stores the rows one by one, failing at the
      first row that does not have exactly two cells. */
  method ParseTable(rows: seq<HtmlRow>) returns (r: Result<Dict<Text>>)
    ensures r == ParseRows(rows)
  {
    var data: Dict<Text> := EmptyDict();
    var i := 0;
    while i < |rows|
      invariant 0 <= i <= |rows|
      invariant ParseRows(rows[..i]) == Success(data)
    {
      var columns := rows[i];
      assert rows[..i + 1][..i] == rows[..i];
      if |columns| != 2 {
        ParseRowsPrefixFailure(rows, i + 1);
        return Failure(DataRowCellCount(|columns|));
      }
      var key, value := columns[0], columns[1];
      data := Put(data, key, value);
      i := i + 1;
    }
    assert rows[..i] == rows;
    return Success(data);
  }

  /** Once a prefix of the rows has failed, no later row changes the outcome. */
  lemma {:induction false} ParseRowsPrefixFailure(rows: seq<HtmlRow>, n: nat)
    requires n <= |rows| && ParseRows(rows[..n]).Failure?
    ensures ParseRows(rows) == ParseRows(rows[..n])
    decreases |rows| - n
  {
    if n < |rows| {
      var longer := rows[..n + 1];
      assert longer[..n] == rows[..n];
      ParseRowsPrefixFailure(rows, n + 1);
    } else {
      assert rows[..n] == rows;
    }
  }

  /** A successful parse of rows ends by storing the last row into the parse of the others. */
  lemma ParseRowsStep(rows: seq<HtmlRow>)
    requires |rows| > 0 && ParseRows(rows).Success?
    ensures var prefix, row := rows[..|rows| - 1], rows[|rows| - 1];
      && AllPairs(prefix) && |row| == 2 && ParseRows(prefix).Success?
      && ParseRows(rows).value == Put(ParseRows(prefix).value, row[0], row[1])
  {
    PrefixPairs(rows);
  }

  /** The key column of rows is that of all but the last, followed by the last key. */
  lemma KeyColumnSnoc(rows: seq<HtmlRow>)
    requires |rows| > 0 && AllPairs(rows)
    ensures AllPairs(rows[..|rows| - 1])
    ensures KeyColumn(rows) == KeyColumn(rows[..|rows| - 1]) + [rows[|rows| - 1][0]]
  {
    PrefixPairs(rows);
    assert KeyColumn(rows) == KeyColumn(rows[..|rows| - 1]) + [rows[|rows| - 1][0]];
  }

  /** Every key of the parsed dict holds the value of the LAST row carrying that key text. */
  lemma {:induction false} ParseRowsLastValueWins(rows: seq<HtmlRow>, k: Text)
    requires ParseRows(rows).Success? && k in KeyColumn(rows)
    ensures ParseRows(rows).value.m[k] == rows[LastIndex(KeyColumn(rows), k)][1]
  {
    var prefix := rows[..|rows| - 1];
    var row := rows[|rows| - 1];
    ParseRowsStep(rows);
    KeyColumnSnoc(rows);
    var ks, pks := KeyColumn(rows), KeyColumn(prefix);
    if k != row[0] {
      assert ks[..|ks| - 1] == pks;
      ParseRowsLastValueWins(prefix, k);
      assert rows[LastIndex(pks, k)] == prefix[LastIndex(pks, k)];
    }
  }

  /** The parsed dict lists its keys in the order in which they first appear among the rows. */
  lemma {:induction false} ParseRowsKeyOrder(rows: seq<HtmlRow>)
    requires ParseRows(rows).Success?
    ensures FirstAppearanceOrder(ParseRows(rows).value.keys, KeyColumn(rows))
  {
    if |rows| > 0 {
      var prefix := rows[..|rows| - 1];
      var row := rows[|rows| - 1];
      ParseRowsStep(rows);
      KeyColumnSnoc(rows);
      ParseRowsKeyOrder(prefix);
      var pd := ParseRows(prefix).value;
      assert forall x | x in KeyColumn(prefix) :: x in pd.m;
      PutKeepsAppearanceOrder(pd, KeyColumn(prefix), row[0], row[1]);
    }
  }

  /** `_get_title_from_first_table` (run.py:42-45): the text of the single cell of the first row. */
  function TitleOf(table: HtmlTable): (r: Result<Text>)
    ensures r.Success? <==> |table| > 0 && |table[0]| == 1
    ensures r.Success? ==> r.value == table[0][0]
  {
    if |table| == 0 then Failure(MissingTitleRow)
    else if |table[0]| != 1 then Failure(TitleCellCount(|table[0]|))
    else Success(table[0][0])
  }

  /** `_extract_html_table` (run.py:26-39): exactly two tables, a one-cell title
      row in the first, a two-column data table in the second. */
  function ExtractHtmlTable(tables: Description): (r: Result<RawTable>)
    ensures r.Success? <==>
      |tables| == 2 && |tables[0]| > 0 && |tables[0][0]| == 1 && AllPairs(tables[1])
    ensures |tables| != 2 ==> r == Failure(TableCount(|tables|))
    ensures r.Success? ==>
      && r.value.title == tables[0][0][0]
      && r.value.fields == ParseRows(tables[1]).value
      && forall k :: k in r.value.fields.m <==> k in KeyColumn(tables[1])
    ensures |tables| == 2 && TitleOf(tables[0]).Failure? ==> r == Failure(TitleOf(tables[0]).error)
    ensures |tables| == 2 && TitleOf(tables[0]).Success? && ParseRows(tables[1]).Failure? ==>
      r == Failure(ParseRows(tables[1]).error)
  {
    if |tables| != 2 then Failure(TableCount(|tables|))
    else
      match TitleOf(tables[0])
      case Failure(e) => Failure(e)
      case Success(title) =>
        match ParseRows(tables[1])
        case Failure(e) => Failure(e)
        case Success(fields) => Success(RawTable(title, fields))
  }

  /** Rows of the title table after its first row play no part in the result. */
  lemma ExtractIgnoresLaterTitleRows(first: HtmlTable, extra: seq<HtmlRow>, data: HtmlTable)
    requires |first| > 0
    ensures ExtractHtmlTable([first + extra, data]) == ExtractHtmlTable([first, data])
  {
    assert (first + extra)[0] == first[0];
  }

  /** `_load_tables` (run.py:63-67) once every placemark's description has been
      parsed: extract each in document order, stopping at the first failure. */
  method LoadTables(descriptions: seq<Description>) returns (r: Result<seq<RawTable>>)
    ensures r.Success? <==> forall i | 0 <= i < |descriptions| :: ExtractHtmlTable(descriptions[i]).Success?
    ensures r.Success? ==>
      |r.value| == |descriptions| &&
      forall i | 0 <= i < |descriptions| :: r.value[i] == ExtractHtmlTable(descriptions[i]).value
    ensures r.Failure? ==> exists i | 0 <= i < |descriptions| ::
      ExtractHtmlTable(descriptions[i]) == Failure(r.error) &&
      forall j | 0 <= j < i :: ExtractHtmlTable(descriptions[j]).Success?
  {
    var tables: seq<RawTable> := [];
    var i := 0;
    while i < |descriptions|
      invariant 0 <= i <= |descriptions| && |tables| == i
      invariant forall j | 0 <= j < i ::
        ExtractHtmlTable(descriptions[j]).Success? && tables[j] == ExtractHtmlTable(descriptions[j]).value
    {
      match ExtractHtmlTable(descriptions[i])
      case Failure(e) => return Failure(e);
      case Success(t) => tables := tables + [t];
      i := i + 1;
    }
    return Success(tables);
  }
}
