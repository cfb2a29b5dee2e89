/** The raw dump `save_raw_tables_to_csv` (run.py:102-110): every table as a
    title row, its key/value rows in insertion order and a blank separator row.
    The rows are the result; writing and quoting them is not modelled. */
module RawDump {
  import opened Base
  import opened Dicts
  import opened Extract

  /** One two-column CSV row. */
  datatype CsvRow = CsvRow(left: Text, right: Text)

  const Separator := CsvRow("", "")

  /** One row per key/value pair, in order. */
  function ItemRows(items: seq<(Text, Text)>): (rows: seq<CsvRow>)
    ensures |rows| == |items|
    ensures forall i | 0 <= i < |items| :: rows[i] == CsvRow(items[i].0, items[i].1)
  {
    seq(|items|, i requires 0 <= i < |items| => CsvRow(items[i].0, items[i].1))
  }

  /** The rows written for one table. */
  function TableRows(t: RawTable): seq<CsvRow> {
    [CsvRow(t.title, "")] + ItemRows(Items(t.fields)) + [Separator]
  }

  /** The rows written for the tables, in table order. */
  function RawLayout(tables: seq<RawTable>): seq<CsvRow> {
    if |tables| == 0 then []
    else RawLayout(tables[..|tables| - 1]) + TableRows(tables[|tables| - 1])
  }

  /** The number of rows the tables take: each its items plus two. */
  function RowCount(tables: seq<RawTable>): nat {
    if |tables| == 0 then 0
    else RowCount(tables[..|tables| - 1]) + |tables[|tables| - 1].fields.keys| + 2
  }

  /** The dump of the tables, written row by row as the nested loops do. */
  method SaveRawTables(tables: seq<RawTable>) returns (rows: seq<CsvRow>)
    ensures rows == RawLayout(tables)
  {
    rows := [];
    var i := 0;
    while i < |tables|
      invariant 0 <= i <= |tables|
      invariant rows == RawLayout(tables[..i])
    {
      var t := tables[i];
      assert tables[..i + 1][..i] == tables[..i];
      ghost var before := rows;
      rows := rows + [CsvRow(t.title, "")];
      var items := Items(t.fields);
      var j := 0;
      while j < |items|
        invariant 0 <= j <= |items|
        invariant rows == before + [CsvRow(t.title, "")] + ItemRows(items[..j])
      {
        var (key, value) := items[j];
        assert ItemRows(items[..j + 1]) == ItemRows(items[..j]) + [CsvRow(key, value)];
        rows := rows + [CsvRow(key, value)];
        j := j + 1;
      }
      assert items[..j] == items;
      rows := rows + [Separator];
      i := i + 1;
    }
    assert tables[..i] == tables;
  }

  /** The dump has exactly one title row, the items and one separator per table. */
  lemma {:induction false} RawLayoutLength(tables: seq<RawTable>)
    ensures |RawLayout(tables)| == RowCount(tables)
  {
    if |tables| > 0 {
      RawLayoutLength(tables[..|tables| - 1]);
    }
  }

  /** Dumping two runs of tables one after the other gives the two dumps concatenated. */
  lemma {:induction false} RawLayoutAppend(a: seq<RawTable>, b: seq<RawTable>)
    ensures RawLayout(a + b) == RawLayout(a) + RawLayout(b)
    decreases |b|
  {
    if |b| > 0 {
      var b' := b[..|b| - 1];
      assert (a + b)[..|a + b| - 1] == a + b';
      RawLayoutAppend(a, b');
    } else {
      assert a + b == a;
    }
  }

  /** The rows of table `k` sit right after those of the tables before it. */
  lemma RawLayoutLocates(tables: seq<RawTable>, k: nat)
    requires k < |tables|
    ensures var start := RowCount(tables[..k]);
      && start + |TableRows(tables[k])| <= |RawLayout(tables)|
      && RawLayout(tables)[start..start + |TableRows(tables[k])|] == TableRows(tables[k])
  {
    var before, after := tables[..k], tables[k + 1..];
    assert tables == before + [tables[k]] + after;
    RawLayoutAppend(before + [tables[k]], after);
    RawLayoutAppend(before, [tables[k]]);
    assert RawLayout([tables[k]]) == TableRows(tables[k]) by {
      assert [tables[k]][..0] == [];
    }
    RawLayoutLength(before);
  }

  /** Reading the key/value rows of one table back: up to and without the
      first separator row, with what follows it. */
  function ReadItems(rows: seq<CsvRow>): (r: Option<(seq<(Text, Text)>, seq<CsvRow>)>)
    ensures r.Some? ==> |r.value.1| < |rows|
  {
    if |rows| == 0 then None
    else if rows[0] == Separator then Some(([], rows[1..]))
    else match ReadItems(rows[1..])
      case None => None
      case Some((items, rest)) => Some(([(rows[0].left, rows[0].right)] + items, rest))
  }

  /** Reading a whole dump back into titles and their key/value pairs. */
  function ReadRaw(rows: seq<CsvRow>): Option<seq<(Text, seq<(Text, Text)>)>>
    decreases |rows|
  {
    if |rows| == 0 then Some([])
    else match ReadItems(rows[1..])
      case None => None
      case Some((items, rest)) =>
        match ReadRaw(rest)
        case None => None
        case Some(more) => Some([(rows[0].left, items)] + more)
  }

  /** What the dump of the tables holds: each title with its items. */
  function Contents(tables: seq<RawTable>): seq<(Text, seq<(Text, Text)>)> {
    seq(|tables|, i requires 0 <= i < |tables| => (tables[i].title, Items(tables[i].fields)))
  }

  /** No key/value pair of the table is an empty key with an empty value. */
  predicate NoBlankItem(t: RawTable) {
    forall k | k in t.fields.m :: k != "" || t.fields.m[k] != ""
  }

  /** Item rows followed by a separator read back as those items, with the
      rows after the separator left over, when no item looks like a separator. */
  lemma {:induction false} ReadItemsBack(items: seq<(Text, Text)>, tail: seq<CsvRow>)
    requires forall i | 0 <= i < |items| :: items[i] != ("", "")
    ensures ReadItems(ItemRows(items) + [Separator] + tail) == Some((items, tail))
    decreases |items|
  {
    var rows := ItemRows(items) + [Separator] + tail;
    if |items| > 0 {
      assert rows[1..] == ItemRows(items[1..]) + [Separator] + tail;
      ReadItemsBack(items[1..], tail);
      assert [items[0]] + items[1..] == items;
    } else {
      assert rows[1..] == tail;
    }
  }

  /** The items of a table with no blank item contain no separator. */
  lemma NoSeparatorItem(t: RawTable)
    requires NoBlankItem(t)
    ensures forall i | 0 <= i < |Items(t.fields)| :: Items(t.fields)[i] != ("", "")
  {
    var items := Items(t.fields);
    forall i | 0 <= i < |items| ensures items[i] != ("", "") {
      assert items[i].0 in t.fields.m;
    }
  }

  /** Reading back the rows of one table followed by more rows. */
  lemma ReadRawTable(t: RawTable, tail: seq<CsvRow>)
    requires NoBlankItem(t)
    ensures ReadRaw(TableRows(t) + tail) ==
      if ReadRaw(tail).Some? then Some([(t.title, Items(t.fields))] + ReadRaw(tail).value) else None
  {
    var items := Items(t.fields);
    var rows := TableRows(t) + tail;
    NoSeparatorItem(t);
    assert rows[1..] == ItemRows(items) + [Separator] + tail;
    ReadItemsBack(items, tail);
  }

  /** Dumping a table ahead of others puts its rows first. */
  lemma RawLayoutCons(t: RawTable, rest: seq<RawTable>)
    ensures RawLayout([t] + rest) == TableRows(t) + RawLayout(rest)
  {
    RawLayoutAppend([t], rest);
    assert [t][..0] == [];
  }

  /** The contents of tables listed after a first one. */
  lemma ContentsCons(t: RawTable, rest: seq<RawTable>)
    ensures Contents([t] + rest) == [(t.title, Items(t.fields))] + Contents(rest)
  {
  }

  /** The dump can be read back into the tables' titles and items as long as no
      table holds an empty key with an empty value, which would read as the
      separator. */
  lemma {:induction false} RawLayoutReadsBack(tables: seq<RawTable>)
    requires forall i | 0 <= i < |tables| :: NoBlankItem(tables[i])
    ensures ReadRaw(RawLayout(tables)) == Some(Contents(tables))
    decreases |tables|
  {
    if |tables| > 0 {
      var t, rest := tables[0], tables[1..];
      assert tables == [t] + rest;
      assert NoBlankItem(t);
      RawLayoutCons(t, rest);
      ContentsCons(t, rest);
      assert forall i | 0 <= i < |rest| :: NoBlankItem(rest[i]) by {
        forall i | 0 <= i < |rest| ensures NoBlankItem(rest[i]) {
          assert rest[i] == tables[i + 1];
        }
      }
      RawLayoutReadsBack(rest);
      ReadRawTable(t, RawLayout(rest));
    } else {
      assert Contents(tables) == [];
    }
  }
}
