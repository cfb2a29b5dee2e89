/** `process_kml_file` (run.py:10-23) once the placemark descriptions are in
    hand: load the tables, consolidate them by block id, require a single town,
    then produce the raw dump and the consolidated table. */
module Pipeline {
  import opened Base
  import opened Seqs
  import opened Dicts
  import opened Extract
  import opened Schema
  import opened Consolidation
  import opened Town
  import opened RawDump

  /** What a successful run writes: the town that names the two output files,
      the rows of the raw dump and the consolidated table. */
  datatype Output = Output(town: Option<Text>, rawRows: seq<CsvRow>, cleaned: Consolidated)

  /** The run over tables already loaded, with the schema `fields`, as a specification. */
  function ProcessTables(fields: seq<Text>, tables: seq<RawTable>): (r: Result<Output>)
    requires TownField in fields
    ensures r.Success? ==> r.value.rawRows == RawLayout(tables)
  {
    match IndexTables(fields, tables)
    case Failure(e) => Failure(e)
    case Success(c) =>
      match SingleTown(fields, c)
      case Failure(e) => Failure(e)
      case Success(town) => Success(Output(town, RawLayout(tables), c))
  }

  /** The tables loaded from descriptions that all extract successfully. */
  function ExtractedTables(descriptions: seq<Description>): (tables: seq<RawTable>)
    requires forall i | 0 <= i < |descriptions| :: ExtractHtmlTable(descriptions[i]).Success?
    ensures |tables| == |descriptions|
    ensures forall i | 0 <= i < |descriptions| :: tables[i] == ExtractHtmlTable(descriptions[i]).value
  {
    seq(|descriptions|, i requires 0 <= i < |descriptions| => ExtractHtmlTable(descriptions[i]).value)
  }

  /** `process_kml_file`: the steps in the source's order, each stopping the run
      on failure; the raw dump is produced only once the town is known. */
  method ProcessKmlFile(descriptions: seq<Description>) returns (r: Result<Output>)
    ensures (exists i | 0 <= i < |descriptions| :: ExtractHtmlTable(descriptions[i]).Failure?) ==>
      && r.Failure?
      && exists i | 0 <= i < |descriptions| ::
           ExtractHtmlTable(descriptions[i]) == Failure(r.error) &&
           forall j | 0 <= j < i :: ExtractHtmlTable(descriptions[j]).Success?
    ensures (forall i | 0 <= i < |descriptions| :: ExtractHtmlTable(descriptions[i]).Success?) ==>
      r == ProcessTables(GetFields(), ExtractedTables(descriptions))
  {
    var loaded := LoadTables(descriptions);
    if loaded.Failure? {
      return Failure(loaded.error);
    }
    var tables := loaded.value;
    assert tables == ExtractedTables(descriptions);
    var fields := GetFields();
    var cleaned := IndexByBlockId(fields, tables);
    if cleaned.Failure? {
      return Failure(cleaned.error);
    }
    var town := SingleTown(fields, cleaned.value);
    if town.Failure? {
      return Failure(town.error);
    }
    var rawRows := SaveRawTables(tables);
    return Success(Output(town.value, rawRows, cleaned.value));
  }

  /** Every block's town is the same as that of the first block encountered. */
  ghost predicate TownsAgree(tables: seq<RawTable>) {
    |BlockIds(tables)| > 0 &&
    forall id | id in BlockIds(tables) ::
      FirstSupplied(tables, id, TownField) == FirstSupplied(tables, BlockIds(tables)[0], TownField)
  }

  /** Over a consolidation that succeeded, the town check passes exactly when
      the towns agree, and then yields the town of the first block. */
  lemma TownCheckOnTables(fields: seq<Text>, tables: seq<RawTable>)
    requires TownField in fields && Consolidate(fields, tables).Success?
    ensures var c := Consolidate(fields, tables).value;
      && (SingleTown(fields, c).Success? <==> TownsAgree(tables))
      && (SingleTown(fields, c).Success? ==>
            SingleTown(fields, c).value == FirstSupplied(tables, BlockIds(tables)[0], TownField))
  {
    var c := Consolidate(fields, tables).value;
    ConsolidateBlockIds(fields, tables);
    SingleTownSucceedsIff(fields, c);
    forall id | id in c.m ensures c.m[id][TownField] == FirstSupplied(tables, id, TownField) {
      ConsolidateValue(fields, tables, id, TownField);
    }
    if |BlockIds(tables)| > 0 {
      assert BlockIds(tables)[0] in c.m;
    }
    if |c.keys| > 0 {
      assert c.keys[0] in c.m;
    }
  }

  /** A run over loaded tables succeeds exactly when no two tables for one
      block disagree on a field and all blocks name the same town; it then
      reports that town, the raw dump and the consolidated table. A failure
      over some tables reports the disagreement if there is one, else the towns. */
  lemma ProcessTablesSpec(fields: seq<Text>, tables: seq<RawTable>)
    requires TownField in fields
    ensures var r := ProcessTables(fields, tables);
      && (|tables| == 0 ==> r == Failure(NoTables))
      && (r.Success? <==> !Conflict(fields, tables) && TownsAgree(tables))
      && (r.Success? ==>
            && r.value.town == FirstSupplied(tables, BlockIds(tables)[0], TownField)
            && r.value.rawRows == RawLayout(tables)
            && r.value.cleaned == Consolidate(fields, tables).value)
      && (r.Failure? && |tables| > 0 ==>
            if Conflict(fields, tables) then r.error.InconsistentField? else r.error.TownCount?)
  {
    ConsolidateFailsIffConflict(fields, tables);
    if Consolidate(fields, tables).Success? {
      TownCheckOnTables(fields, tables);
    }
    if ProcessTables(fields, tables).Failure? && |tables| > 0 {
      ProcessTablesFailure(fields, tables);
    }
  }

  /** A failed run over some tables reports, when two tables for one block
      disagree, the field and the two values of the first such disagreement;
      otherwise every town the blocks name, of which there are not exactly one. */
  lemma ProcessTablesFailure(fields: seq<Text>, tables: seq<RawTable>)
    requires TownField in fields && |tables| > 0 && ProcessTables(fields, tables).Failure?
    ensures var e := ProcessTables(fields, tables).error;
      && (Conflict(fields, tables) ==>
            && e.InconsistentField? && e.field in fields && e.stored != e.supplied
            && exists i, j :: Witnesses(tables, e, i, j) && Consolidate(fields, tables[..j]).Success?)
      && (!Conflict(fields, tables) ==>
            && e.TownCount? && |e.towns| != 1
            && (forall id | id in BlockIds(tables) :: FirstSupplied(tables, id, TownField) in e.towns)
            && (forall x | x in e.towns :: exists id | id in BlockIds(tables) :: FirstSupplied(tables, id, TownField) == x))
  {
    assert IndexTables(fields, tables) == Consolidate(fields, tables);
    ConsolidateFailsIffConflict(fields, tables);
    if Conflict(fields, tables) {
      ConsolidateFailure(fields, tables);
    } else {
      var c := Consolidate(fields, tables).value;
      var e := ProcessTables(fields, tables).error;
      assert e == SingleTown(fields, c).error;
      ConsolidateBlockIds(fields, tables);
      SingleTownFailureLists(fields, c);
      forall id | id in c.m ensures c.m[id][TownField] == FirstSupplied(tables, id, TownField) {
        ConsolidateValue(fields, tables, id, TownField);
      }
      forall x | x in e.towns ensures exists id | id in BlockIds(tables) :: FirstSupplied(tables, id, TownField) == x {
        var id :| id in c.m && c.m[id][TownField] == x;
        assert id in c.keys;
      }
    }
  }

  /** With the schema of `get_fields()` (as every `Consolidate(GetFields(), _)`
      result has, by its ensures), every consolidated row has exactly
      its 32 distinct columns, among them "Block Group" and "Town" but never
      the block id, which is the index. */
  lemma SchemaRows(c: Consolidated)
    requires RowsOk(GetFields(), c)
    ensures forall id | id in c.m ::
      && |c.m[id].Keys| == 32
      && BlockGroupField in c.m[id] && TownField in c.m[id]
      && BlockIdField !in c.m[id]
  {
    FieldsFacts();
    DistinctCard(Fields);
    forall id | id in c.m ensures |c.m[id].Keys| == 32 {
      assert c.m[id].Keys == set f | f in Fields;
    }
  }

  /** A placemark table for block `id` of town "TestTown". */
  function ExampleTable(title: Text, id: Text): (t: RawTable)
    ensures HasBlockId(t) && BlockIdOf(t) == id
    ensures Supplied(t, TownField) == Some("TestTown")
    ensures Supplied(t, BlockGroupField) == Some(title)
  {
    assert BlockIdField != TownField;
    RawTable(title, Put(Put(EmptyDict(), BlockIdField, id), TownField, "TestTown"))
  }

  /** Two tables for two different blocks never clash; they give the block ids
      in table order, and each block gets exactly what its own table supplies. */
  lemma TwoBlocks(fields: seq<Text>, t1: RawTable, t2: RawTable)
    requires HasBlockId(t1) && HasBlockId(t2) && BlockIdOf(t1) != BlockIdOf(t2)
    ensures BlockIds([t1, t2]) == [BlockIdOf(t1), BlockIdOf(t2)]
    ensures forall f :: FirstSupplied([t1, t2], BlockIdOf(t1), f) == Supplied(t1, f)
    ensures forall f :: FirstSupplied([t1, t2], BlockIdOf(t2), f) == Supplied(t2, f)
    ensures !Conflict(fields, [t1, t2])
  {
    var ts := [t1, t2];
    assert ts[..|ts| - 1] == [t1] && [t1][..|[t1]| - 1] == [];
    assert BlockIds([t1]) == [BlockIdOf(t1)];
    forall f ensures FirstSupplied([t1], BlockIdOf(t1), f) == Supplied(t1, f)
      && FirstSupplied([t1], BlockIdOf(t2), f) == None
    {
    }
  }

  /** Consolidating two tables for two different blocks gives two rows, in
      table order, each holding what its own table supplies. */
  lemma TwoBlocksConsolidate(fields: seq<Text>, t1: RawTable, t2: RawTable)
    requires HasBlockId(t1) && HasBlockId(t2) && BlockIdOf(t1) != BlockIdOf(t2)
    ensures Consolidate(fields, [t1, t2]).Success?
    ensures var c := Consolidate(fields, [t1, t2]).value;
      && c.keys == [BlockIdOf(t1), BlockIdOf(t2)]
      && forall f | f in fields :: c.m[BlockIdOf(t1)][f] == Supplied(t1, f) && c.m[BlockIdOf(t2)][f] == Supplied(t2, f)
  {
    var tables := [t1, t2];
    TwoBlocks(fields, t1, t2);
    ConsolidateFailsIffConflict(fields, tables);
    ConsolidateFailsIffConflict(fields, [t1]);
    assert tables[..1] == [t1] && [t1][..0] == [];
    var c1 := Consolidate(fields, [t1]).value;
    FoldTableResult(fields, EmptyDict(), t1);
    assert c1.keys == [BlockIdOf(t1)];
    var c := Consolidate(fields, tables).value;
    FoldTableResult(fields, c1, t2);
    forall f | f in fields ensures c.m[BlockIdOf(t1)][f] == Supplied(t1, f) && c.m[BlockIdOf(t2)][f] == Supplied(t2, f) {
      ConsolidateValue(fields, tables, BlockIdOf(t1), f);
      ConsolidateValue(fields, tables, BlockIdOf(t2), f);
    }
  }

  /** A run over two tables for two different blocks of the same town
      succeeds, reports that town and keeps the two rows in table order. */
  lemma TwoBlocksOneTown(fields: seq<Text>, t1: RawTable, t2: RawTable)
    requires TownField in fields
    requires HasBlockId(t1) && HasBlockId(t2) && BlockIdOf(t1) != BlockIdOf(t2)
    requires Supplied(t1, TownField) == Supplied(t2, TownField)
    ensures var r := ProcessTables(fields, [t1, t2]);
      && r.Success? && r.value.town == Supplied(t1, TownField)
      && r.value.cleaned == Consolidate(fields, [t1, t2]).value
  {
    TwoBlocks(fields, t1, t2);
    assert TownsAgree([t1, t2]);
    ProcessTablesSpec(fields, [t1, t2]);
  }

  /** Two placemarks for two blocks of the same town give two rows, keyed by
      the block ids in order, each holding its title as "Block Group". */
  lemma TwoBlocksExample(fields: seq<Text>)
    requires BlockGroupField in fields && TownField in fields
    ensures var tables := [ExampleTable("Block Group 1", "250010001"), ExampleTable("Block Group 2", "250010002")];
      var r := ProcessTables(fields, tables);
      && r.Success? && r.value.town == Some("TestTown")
      && r.value.cleaned.keys == ["250010001", "250010002"]
      && r.value.cleaned.m["250010001"][BlockGroupField] == Some("Block Group 1")
      && r.value.cleaned.m["250010002"][BlockGroupField] == Some("Block Group 2")
  {
    var t1, t2 := ExampleTable("Block Group 1", "250010001"), ExampleTable("Block Group 2", "250010002");
    TwoBlocksOneTown(fields, t1, t2);
    TwoBlocksConsolidate(fields, t1, t2);
  }
}
