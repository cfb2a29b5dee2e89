/** Block consolidation (`_index_by_block_id`, run.py:72-95): the per-placemark
    tables are folded, in order, into one row per block id over the canonical
    fields. A field is set by the first table that supplies it; a later table
    for the same block must supply the same text or the run fails. */
module Consolidation {
  import opened Base
  import opened Seqs
  import opened Dicts
  import opened Extract
  import opened Schema

  /** One consolidated row: a value for every field of the schema `fields`
      (`get_fields()`, see Schema), None until some table supplies it. */
  type BlockRow = map<Text, Option<Text>>

  ghost predicate IsBlockRow(fields: seq<Text>, row: BlockRow) {
    forall f :: f in row <==> f in fields
  }

  /** `{field: None for field in fields}` (run.py:82). */
  function EmptyRow(fields: seq<Text>): (row: BlockRow)
    ensures IsBlockRow(fields, row)
    ensures forall f | f in row :: row[f] == None
  {
    map f | f in fields :: None
  }

  /** The consolidated table: block ids in order of first encounter, each with its row. */
  type Consolidated = Dict<BlockRow>

  ghost predicate RowsOk(fields: seq<Text>, c: Consolidated) {
    forall id | id in c.m :: IsBlockRow(fields, c.m[id])
  }

  predicate HasBlockId(t: RawTable) {
    BlockIdField in t.fields.m
  }

  function BlockIdOf(t: RawTable): Text
    requires HasBlockId(t)
  {
    t.fields.m[BlockIdField]
  }

  /** What table `t` offers for field `f`: "Block Group" is always the title
      (run.py:84 overrides any such key), any other field its value if the key is present. */
  function Supplied(t: RawTable, f: Text): Option<Text> {
    if f == BlockGroupField then Some(t.title)
    else if f in t.fields.m then Some(t.fields.m[f])
    else None
  }

  /** Two optional values do not contradict each other. */
  predicate Agree(a: Option<Text>, b: Option<Text>) {
    a.None? || b.None? || a == b
  }

  /** The stored value wins; an unset one takes the new value. */
  function FirstOf(a: Option<Text>, b: Option<Text>): Option<Text> {
    if a.Some? then a else b
  }

  /** What `c` holds for field `f` of block `id`: None when the block has no row yet. */
  function Stored(fields: seq<Text>, c: Consolidated, id: Text, f: Text): Option<Text>
    requires RowsOk(fields, c)
  {
    if id in c.m && f in fields then c.m[id][f] else None
  }

  /** The inner loop of run.py:85-91 over the items of one table, merging them
      into the row of block `id`, from the item list's front. */
  function MergeItems(fields: seq<Text>, row: BlockRow, id: Text, items: seq<(Text, Text)>): (r: Result<BlockRow>)
    requires IsBlockRow(fields, row)
    ensures r.Success? ==> IsBlockRow(fields, r.value)
    decreases |items|
  {
    if |items| == 0 then Success(row)
    else
      var (key, value) := items[0];
      if key !in fields then MergeItems(fields, row, id, items[1..])
      else if row[key].None? then MergeItems(fields, row[key := Some(value)], id, items[1..])
      else if row[key].value == value then MergeItems(fields, row, id, items[1..])
      else Failure(InconsistentField(id, key, row[key].value, value))
  }

  /** Merging items with distinct keys: it succeeds exactly when no item of a
      field contradicts the row, it sets each unset field the items supply, it
      keeps every set field, and a failure names a field on which they disagree. */
  lemma {:induction false} MergeItemsSpec(fields: seq<Text>, row: BlockRow, id: Text, items: seq<(Text, Text)>)
    requires IsBlockRow(fields, row) && DistinctFirsts(items)
    ensures var r := MergeItems(fields, row, id, items);
      && (r.Success? <==> forall f | f in fields :: Agree(row[f], Lookup(items, f)))
      && (r.Success? ==> forall f | f in fields :: r.value[f] == FirstOf(row[f], Lookup(items, f)))
      && (r.Failure? ==>
            && r.error.InconsistentField? && r.error.blockId == id && r.error.field in fields
            && row[r.error.field] == Some(r.error.stored)
            && Lookup(items, r.error.field) == Some(r.error.supplied)
            && r.error.stored != r.error.supplied)
    decreases |items|
  {
    if |items| > 0 {
      var (key, value) := items[0];
      var rest := items[1..];
      assert DistinctFirsts(rest) by {
        forall i, j | 0 <= i < j < |rest| ensures rest[i].0 != rest[j].0 {
          assert rest[i] == items[i + 1] && rest[j] == items[j + 1];
        }
      }
      LookupFinds(rest, key);
      assert Lookup(rest, key).None? by {
        forall i | 0 <= i < |rest| ensures rest[i].0 != key {
          assert rest[i] == items[i + 1];
        }
      }
      if key !in fields {
        MergeItemsSpec(fields, row, id, rest);
      } else if row[key].None? {
        MergeItemsSpec(fields, row[key := Some(value)], id, rest);
      } else if row[key].value == value {
        MergeItemsSpec(fields, row, id, rest);
      }
    }
  }

  /** One step of the outer loop (run.py:75-91): fold table `t` into `c`. */
  function FoldTable(fields: seq<Text>, c: Consolidated, t: RawTable): (r: Result<Consolidated>)
    requires RowsOk(fields, c)
    ensures r.Success? ==> RowsOk(fields, r.value)
  {
    if !HasBlockId(t) then Success(c)
    else
      var id := BlockIdOf(t);
      var row := if id in c.m then c.m[id] else EmptyRow(fields);
      var withTitle := Put(t.fields, BlockGroupField, t.title);
      match MergeItems(fields, row, id, Items(withTitle))
      case Failure(e) => Failure(e)
      case Success(merged) => Success(Put(c, id, merged))
  }

  /** The row and the item list FoldTable merges agree with Stored and Supplied on every field. */
  lemma FoldTableInputs(fields: seq<Text>, c: Consolidated, t: RawTable)
    requires RowsOk(fields, c) && HasBlockId(t)
    ensures var id := BlockIdOf(t);
      var row := if id in c.m then c.m[id] else EmptyRow(fields);
      var items := Items(Put(t.fields, BlockGroupField, t.title));
      && IsBlockRow(fields, row) && DistinctFirsts(items)
      && forall f | f in fields :: row[f] == Stored(fields, c, id, f) && Lookup(items, f) == Supplied(t, f)
  {
    var withTitle := Put(t.fields, BlockGroupField, t.title);
    ItemsLookup(withTitle, BlockGroupField);
    forall f | f in fields ensures Lookup(Items(withTitle), f) == Supplied(t, f) {
      ItemsLookup(withTitle, f);
    }
  }

  /** Folding a table with a block id succeeds exactly when every field it
      supplies agrees with the block's stored value. */
  lemma FoldTableSucceedsIff(fields: seq<Text>, c: Consolidated, t: RawTable)
    requires RowsOk(fields, c) && HasBlockId(t)
    ensures FoldTable(fields, c, t).Success? <==>
      forall f | f in fields :: Agree(Stored(fields, c, BlockIdOf(t), f), Supplied(t, f))
  {
    var id := BlockIdOf(t);
    var row := if id in c.m then c.m[id] else EmptyRow(fields);
    FoldTableInputs(fields, c, t);
    MergeItemsSpec(fields, row, id, Items(Put(t.fields, BlockGroupField, t.title)));
  }

  /** A successful fold stores, under the table's block id and nowhere else, a
      row in which each field keeps its stored value or takes the table's; a
      new block id goes to the end. */
  lemma FoldTableResult(fields: seq<Text>, c: Consolidated, t: RawTable)
    requires RowsOk(fields, c) && HasBlockId(t) && FoldTable(fields, c, t).Success?
    ensures var id := BlockIdOf(t);
      var r := FoldTable(fields, c, t).value;
      && r == Put(c, id, r.m[id])
      && forall f | f in fields :: r.m[id][f] == FirstOf(Stored(fields, c, id, f), Supplied(t, f))
  {
    var id := BlockIdOf(t);
    var row := if id in c.m then c.m[id] else EmptyRow(fields);
    FoldTableInputs(fields, c, t);
    MergeItemsSpec(fields, row, id, Items(Put(t.fields, BlockGroupField, t.title)));
  }

  /** A failed fold names the block, a field of the schema, the stored value and
      the different value the table supplies. */
  lemma FoldTableFailure(fields: seq<Text>, c: Consolidated, t: RawTable)
    requires RowsOk(fields, c) && FoldTable(fields, c, t).Failure?
    ensures HasBlockId(t)
    ensures var e := FoldTable(fields, c, t).error;
      && e.InconsistentField? && e.blockId == BlockIdOf(t) && e.field in fields
      && Stored(fields, c, e.blockId, e.field) == Some(e.stored)
      && Supplied(t, e.field) == Some(e.supplied)
      && e.stored != e.supplied
  {
    var id := BlockIdOf(t);
    var row := if id in c.m then c.m[id] else EmptyRow(fields);
    FoldTableInputs(fields, c, t);
    MergeItemsSpec(fields, row, id, Items(Put(t.fields, BlockGroupField, t.title)));
  }

  /** After a successful fold, the block of `t` holds, field by field, its
      stored value or else the one `t` supplies; every other block is unchanged. */
  lemma StoredAfterFold(fields: seq<Text>, c: Consolidated, t: RawTable, id: Text, f: Text)
    requires RowsOk(fields, c) && FoldTable(fields, c, t).Success? && f in fields
    ensures Stored(fields, FoldTable(fields, c, t).value, id, f) ==
      if HasBlockId(t) && BlockIdOf(t) == id then FirstOf(Stored(fields, c, id, f), Supplied(t, f))
      else Stored(fields, c, id, f)
  {
    if HasBlockId(t) {
      FoldTableResult(fields, c, t);
      var r := FoldTable(fields, c, t).value;
      assert r.m == c.m[BlockIdOf(t) := r.m[BlockIdOf(t)]];
    }
  }

  /** Two rows of the schema that agree on every field are the same row. */
  lemma RowsEqual(fields: seq<Text>, a: BlockRow, b: BlockRow)
    requires IsBlockRow(fields, a) && IsBlockRow(fields, b)
    requires forall f | f in fields :: a[f] == b[f]
    ensures a == b
  {
  }

  /** `_index_by_block_id` as a specification: the consolidated table after
      folding every table in order, or the first failure. */
  function Consolidate(fields: seq<Text>, tables: seq<RawTable>): (r: Result<Consolidated>)
    ensures r.Success? ==> RowsOk(fields, r.value)
  {
    if |tables| == 0 then Success(EmptyDict())
    else
      match Consolidate(fields, tables[..|tables| - 1])
      case Failure(e) => Failure(e)
      case Success(c) => FoldTable(fields, c, tables[|tables| - 1])
  }

  /** A table without a block id leaves the consolidation as it was. */
  lemma SkipsTableWithoutBlockId(fields: seq<Text>, tables: seq<RawTable>, t: RawTable)
    requires !HasBlockId(t)
    ensures Consolidate(fields, tables + [t]) == Consolidate(fields, tables)
  {
    assert (tables + [t])[..|tables|] == tables;
  }

  /** Once a prefix of the tables has failed, the later tables do not matter. */
  lemma {:induction false} ConsolidatePrefixFailure(fields: seq<Text>, tables: seq<RawTable>, n: nat)
    requires n <= |tables| && Consolidate(fields, tables[..n]).Failure?
    ensures Consolidate(fields, tables) == Consolidate(fields, tables[..n])
    decreases |tables| - n
  {
    if n < |tables| {
      assert tables[..n + 1][..n] == tables[..n];
      ConsolidatePrefixFailure(fields, tables, n + 1);
    } else {
      assert tables[..n] == tables;
    }
  }

  /** The block ids of the tables that carry one, in table order, repeats kept. */
  function BlockIds(tables: seq<RawTable>): seq<Text> {
    if |tables| == 0 then []
    else
      var last := tables[|tables| - 1];
      BlockIds(tables[..|tables| - 1]) + if HasBlockId(last) then [BlockIdOf(last)] else []
  }

  /** The value that the first table for block `id` supplying field `f` gives it,
      or None when no table for that block supplies it. */
  function FirstSupplied(tables: seq<RawTable>, id: Text, f: Text): Option<Text> {
    if |tables| == 0 then None
    else
      var earlier := FirstSupplied(tables[..|tables| - 1], id, f);
      var last := tables[|tables| - 1];
      if earlier.Some? then earlier
      else if HasBlockId(last) && BlockIdOf(last) == id then Supplied(last, f)
      else None
  }

  /** Two tables for the same block that supply different values for one field. */
  predicate Clash(fields: seq<Text>, t: RawTable, u: RawTable) {
    && HasBlockId(t) && HasBlockId(u) && BlockIdOf(t) == BlockIdOf(u)
    && exists f | f in fields :: !Agree(Supplied(t, f), Supplied(u, f))
  }

  /** Table `t` clashes with one of the tables `earlier`. */
  predicate ClashesWithEarlier(fields: seq<Text>, earlier: seq<RawTable>, t: RawTable) {
    exists i | 0 <= i < |earlier| :: Clash(fields, earlier[i], t)
  }

  /** Some two of the tables clash. */
  ghost predicate Conflict(fields: seq<Text>, tables: seq<RawTable>) {
    exists i, j | 0 <= i < j < |tables| :: Clash(fields, tables[i], tables[j])
  }

  /** The keys of the consolidated table are exactly the block ids of the
      tables that carry one, each once, in order of first encounter. */
  lemma {:induction false} ConsolidateBlockIds(fields: seq<Text>, tables: seq<RawTable>)
    requires Consolidate(fields, tables).Success?
    ensures var c := Consolidate(fields, tables).value;
      && (forall id | id in BlockIds(tables) :: id in c.m)
      && FirstAppearanceOrder(c.keys, BlockIds(tables))
  {
    if |tables| > 0 {
      var prefix := tables[..|tables| - 1];
      var t := tables[|tables| - 1];
      var c0 := Consolidate(fields, prefix).value;
      ConsolidateBlockIds(fields, prefix);
      if HasBlockId(t) {
        var id := BlockIdOf(t);
        var row := if id in c0.m then c0.m[id] else EmptyRow(fields);
        var merged := MergeItems(fields, row, id, Items(Put(t.fields, BlockGroupField, t.title))).value;
        assert Consolidate(fields, tables).value == Put(c0, id, merged);
        assert BlockIds(tables) == BlockIds(prefix) + [id];
        PutKeepsAppearanceOrder(c0, BlockIds(prefix), id, merged);
      } else {
        assert BlockIds(tables) == BlockIds(prefix);
      }
    }
  }

  /** Every field of every block holds the first value supplied for it by a
      table with that block id (None if none supplied one); a block with no
      table has no row. */
  lemma {:induction false} ConsolidateValue(fields: seq<Text>, tables: seq<RawTable>, id: Text, f: Text)
    requires Consolidate(fields, tables).Success? && f in fields
    ensures Stored(fields, Consolidate(fields, tables).value, id, f) == FirstSupplied(tables, id, f)
  {
    if |tables| > 0 {
      var prefix := tables[..|tables| - 1];
      ConsolidateValue(fields, prefix, id, f);
      StoredAfterFold(fields, Consolidate(fields, prefix).value, tables[|tables| - 1], id, f);
    }
  }

  /** A first-supplied value comes from some table for that block. */
  lemma {:induction false} FirstSuppliedWitness(tables: seq<RawTable>, id: Text, f: Text)
    requires FirstSupplied(tables, id, f).Some?
    ensures exists i | 0 <= i < |tables| ::
      HasBlockId(tables[i]) && BlockIdOf(tables[i]) == id && Supplied(tables[i], f) == FirstSupplied(tables, id, f)
  {
    var prefix := tables[..|tables| - 1];
    if FirstSupplied(prefix, id, f).Some? {
      FirstSuppliedWitness(prefix, id, f);
      var i :| 0 <= i < |prefix| &&
        HasBlockId(prefix[i]) && BlockIdOf(prefix[i]) == id && Supplied(prefix[i], f) == FirstSupplied(prefix, id, f);
      assert tables[i] == prefix[i];
    }
  }

  /** A conflict among the leading tables is a conflict among all of them. */
  lemma ConflictGrows(fields: seq<Text>, tables: seq<RawTable>, n: nat)
    requires n <= |tables| && Conflict(fields, tables[..n])
    ensures Conflict(fields, tables)
  {
    var i, j :| 0 <= i < j < n && Clash(fields, tables[..n][i], tables[..n][j]);
    assert tables[..n][i] == tables[i] && tables[..n][j] == tables[j];
  }

  /** When no two tables clash, every table for a block that supplies a field
      supplies the first-supplied value. */
  lemma {:induction false} FirstSuppliedAgrees(fields: seq<Text>, tables: seq<RawTable>, id: Text, f: Text, i: nat)
    requires !Conflict(fields, tables) && f in fields
    requires i < |tables| && HasBlockId(tables[i]) && BlockIdOf(tables[i]) == id && Supplied(tables[i], f).Some?
    ensures FirstSupplied(tables, id, f) == Supplied(tables[i], f)
  {
    var n := |tables| - 1;
    var prefix := tables[..n];
    if !Conflict(fields, prefix) && i < n {
      assert prefix[i] == tables[i];
      FirstSuppliedAgrees(fields, prefix, id, f, i);
    } else if Conflict(fields, prefix) {
      ConflictGrows(fields, tables, n);
    } else if FirstSupplied(prefix, id, f).Some? {
      FirstSuppliedWitness(prefix, id, f);
      var k :| 0 <= k < |prefix| &&
        HasBlockId(prefix[k]) && BlockIdOf(prefix[k]) == id && Supplied(prefix[k], f) == FirstSupplied(prefix, id, f);
      assert tables[k] == prefix[k];
      assert !Clash(fields, tables[k], tables[i]);
    }
  }

  /** A conflict among the tables is one among the earlier ones or a clash with the last. */
  lemma ConflictSnoc(fields: seq<Text>, tables: seq<RawTable>)
    requires |tables| > 0
    ensures var n := |tables| - 1;
      Conflict(fields, tables) <==>
        Conflict(fields, tables[..n]) || ClashesWithEarlier(fields, tables[..n], tables[n])
  {
    var n := |tables| - 1;
    var prefix := tables[..n];
    forall i, j | 0 <= i < j < |tables| && Clash(fields, tables[i], tables[j])
      ensures Conflict(fields, prefix) || ClashesWithEarlier(fields, prefix, tables[n])
    {
      assert prefix[i] == tables[i];
      if j < n {
        assert prefix[j] == tables[j];
      }
    }
    if Conflict(fields, prefix) {
      ConflictGrows(fields, tables, n);
    }
    if i :| 0 <= i < n && Clash(fields, prefix[i], tables[n]) {
      assert prefix[i] == tables[i];
    }
  }

  /** Folding a table into the consolidation of earlier tables fails exactly
      when it clashes with one of them. */
  lemma FoldFailsIffClash(fields: seq<Text>, prefix: seq<RawTable>, t: RawTable)
    requires Consolidate(fields, prefix).Success? && !Conflict(fields, prefix)
    ensures FoldTable(fields, Consolidate(fields, prefix).value, t).Failure? <==>
      ClashesWithEarlier(fields, prefix, t)
  {
    if i :| 0 <= i < |prefix| && Clash(fields, prefix[i], t) {
      ClashMakesFoldFail(fields, prefix, t, i);
    }
    if FoldTable(fields, Consolidate(fields, prefix).value, t).Failure? {
      FoldFailureHasClash(fields, prefix, t);
    }
  }

  /** A failed fold names a field that an earlier table for the same block supplied differently. */
  lemma FoldFailureHasClash(fields: seq<Text>, prefix: seq<RawTable>, t: RawTable)
    requires Consolidate(fields, prefix).Success?
    requires FoldTable(fields, Consolidate(fields, prefix).value, t).Failure?
    ensures ClashesWithEarlier(fields, prefix, t)
  {
    var c0 := Consolidate(fields, prefix).value;
    FoldTableFailure(fields, c0, t);
    var id := BlockIdOf(t);
    var f := FoldTable(fields, c0, t).error.field;
    ConsolidateValue(fields, prefix, id, f);
    FirstSuppliedWitness(prefix, id, f);
    var i :| 0 <= i < |prefix| &&
      HasBlockId(prefix[i]) && BlockIdOf(prefix[i]) == id && Supplied(prefix[i], f) == FirstSupplied(prefix, id, f);
    assert f in fields && !Agree(Supplied(prefix[i], f), Supplied(t, f));
    assert Clash(fields, prefix[i], t);
  }

  /** A table that clashes with an earlier one makes the fold fail. */
  lemma ClashMakesFoldFail(fields: seq<Text>, prefix: seq<RawTable>, t: RawTable, i: nat)
    requires Consolidate(fields, prefix).Success? && !Conflict(fields, prefix)
    requires i < |prefix| && Clash(fields, prefix[i], t)
    ensures FoldTable(fields, Consolidate(fields, prefix).value, t).Failure?
  {
    var c0 := Consolidate(fields, prefix).value;
    var id := BlockIdOf(t);
    FoldTableSucceedsIff(fields, c0, t);
    var f :| f in fields && !Agree(Supplied(prefix[i], f), Supplied(t, f));
    FirstSuppliedAgrees(fields, prefix, id, f, i);
    ConsolidateValue(fields, prefix, id, f);
    assert !Agree(Stored(fields, c0, id, f), Supplied(t, f));
  }

  /** Consolidation fails exactly when two tables for the same block supply
      different values for one field of the schema. */
  lemma {:induction false} ConsolidateFailsIffConflict(fields: seq<Text>, tables: seq<RawTable>)
    ensures Consolidate(fields, tables).Failure? <==> Conflict(fields, tables)
  {
    if |tables| > 0 {
      var n := |tables| - 1;
      var prefix := tables[..n];
      ConsolidateFailsIffConflict(fields, prefix);
      ConflictSnoc(fields, tables);
      if Consolidate(fields, prefix).Success? {
        FoldFailsIffClash(fields, prefix, tables[n]);
        assert Consolidate(fields, tables) == FoldTable(fields, Consolidate(fields, prefix).value, tables[n]);
      } else {
        assert Consolidate(fields, tables).Failure?;
      }
    } else {
      assert !Conflict(fields, tables);
    }
  }

  /** Tables `i` before `j` are both for the error's block, and supply for its
      field the stored and the different value it names, as run.py:90-91 reports. */
  predicate Witnesses(tables: seq<RawTable>, e: Error, i: int, j: int) {
    && e.InconsistentField? && 0 <= i < j < |tables|
    && HasBlockId(tables[i]) && BlockIdOf(tables[i]) == e.blockId
    && HasBlockId(tables[j]) && BlockIdOf(tables[j]) == e.blockId
    && Supplied(tables[i], e.field) == Some(e.stored)
    && Supplied(tables[j], e.field) == Some(e.supplied)
  }

  /** A failed consolidation names a block, a schema field and two different
      values; an earlier table for that block supplied the first and table `j`,
      the first whose fold fails, the second. */
  lemma {:induction false} ConsolidateFailure(fields: seq<Text>, tables: seq<RawTable>)
    requires Consolidate(fields, tables).Failure?
    ensures var e := Consolidate(fields, tables).error;
      && e.InconsistentField? && e.field in fields && e.stored != e.supplied
      && exists i, j :: Witnesses(tables, e, i, j) && Consolidate(fields, tables[..j]).Success?
           && Consolidate(fields, tables[..j + 1]) == Consolidate(fields, tables)
  {
    assert |tables| > 0;
    var n := |tables| - 1;
    var prefix := tables[..n];
    var e := Consolidate(fields, tables).error;
    if Consolidate(fields, prefix).Failure? {
      assert Consolidate(fields, tables) == Consolidate(fields, prefix);
      ConsolidateFailure(fields, prefix);
      var i, j :| Witnesses(prefix, e, i, j) && Consolidate(fields, prefix[..j]).Success?
        && Consolidate(fields, prefix[..j + 1]) == Consolidate(fields, prefix);
      WitnessesExtend(tables, n, e, i, j);
    } else {
      var c0 := Consolidate(fields, prefix).value;
      assert Consolidate(fields, tables) == FoldTable(fields, c0, tables[n]);
      FoldFailureWitness(fields, prefix, tables[n]);
      assert tables == prefix + [tables[n]];
      var i :| Witnesses(prefix + [tables[n]], e, i, n);
      assert Witnesses(tables, e, i, n) && Consolidate(fields, tables[..n]).Success?;
      assert tables[..n + 1] == tables;
    }
  }

  /** Witnesses among leading tables are witnesses among all of them. */
  lemma WitnessesExtend(tables: seq<RawTable>, n: nat, e: Error, i: int, j: int)
    requires n <= |tables| && Witnesses(tables[..n], e, i, j)
    ensures Witnesses(tables, e, i, j)
    ensures tables[..n][..j] == tables[..j] && tables[..n][..j + 1] == tables[..j + 1]
  {
    assert tables[..n][i] == tables[i] && tables[..n][j] == tables[j];
  }

  /** A fold that fails after the earlier tables succeeded names what table
      `t` and an earlier table for its block supply differently. */
  lemma FoldFailureWitness(fields: seq<Text>, prefix: seq<RawTable>, t: RawTable)
    requires Consolidate(fields, prefix).Success?
    requires FoldTable(fields, Consolidate(fields, prefix).value, t).Failure?
    ensures var e := FoldTable(fields, Consolidate(fields, prefix).value, t).error;
      && e.InconsistentField? && e.field in fields && e.stored != e.supplied
      && exists i :: Witnesses(prefix + [t], e, i, |prefix|)
  {
    var c0 := Consolidate(fields, prefix).value;
    var e := FoldTable(fields, c0, t).error;
    FoldTableFailure(fields, c0, t);
    ConsolidateValue(fields, prefix, e.blockId, e.field);
    FirstSuppliedWitness(prefix, e.blockId, e.field);
    var i :| 0 <= i < |prefix| && HasBlockId(prefix[i]) && BlockIdOf(prefix[i]) == e.blockId
      && Supplied(prefix[i], e.field) == FirstSupplied(prefix, e.blockId, e.field);
    assert (prefix + [t])[i] == prefix[i] && (prefix + [t])[|prefix|] == t;
    assert Witnesses(prefix + [t], e, i, |prefix|);
  }

  /** Every block id met among the tables has a first-supplied "Block Group": its first table's title. */
  lemma {:induction false} BlockGroupSupplied(tables: seq<RawTable>, id: Text)
    requires id in BlockIds(tables)
    ensures FirstSupplied(tables, id, BlockGroupField).Some?
  {
    var prefix := tables[..|tables| - 1];
    if id in BlockIds(prefix) {
      BlockGroupSupplied(prefix, id);
    }
  }

  /** The "Block Group" of a block is the title of the first table carrying its block id. */
  lemma {:induction false} BlockGroupIsFirstTitle(tables: seq<RawTable>, id: Text, k: nat)
    requires k < |tables| && HasBlockId(tables[k]) && BlockIdOf(tables[k]) == id
    requires forall j | 0 <= j < k :: !(HasBlockId(tables[j]) && BlockIdOf(tables[j]) == id)
    ensures FirstSupplied(tables, id, BlockGroupField) == Some(tables[k].title)
  {
    var n := |tables| - 1;
    var prefix := tables[..n];
    if k < n {
      assert prefix[k] == tables[k];
      assert forall j | 0 <= j < k :: prefix[j] == tables[j];
      BlockGroupIsFirstTitle(prefix, id, k);
    } else {
      FirstSuppliedNone(prefix, id, BlockGroupField);
    }
  }

  /** No table for the block among `tables`: nothing is supplied for it. */
  lemma {:induction false} FirstSuppliedNone(tables: seq<RawTable>, id: Text, f: Text)
    requires forall j | 0 <= j < |tables| :: !(HasBlockId(tables[j]) && BlockIdOf(tables[j]) == id)
    ensures FirstSupplied(tables, id, f) == None
  {
    if |tables| > 0 {
      var prefix := tables[..|tables| - 1];
      assert forall j | 0 <= j < |prefix| :: prefix[j] == tables[j];
      FirstSuppliedNone(prefix, id, f);
    }
  }

  /** Every row that consolidation creates has its "Block Group" set: the
      title of each table always supplies it. */
  lemma BlockGroupAlwaysSet(fields: seq<Text>, tables: seq<RawTable>)
    requires BlockGroupField in fields && Consolidate(fields, tables).Success?
    ensures var c := Consolidate(fields, tables).value;
      forall id | id in c.m :: c.m[id][BlockGroupField].Some?
  {
    var c := Consolidate(fields, tables).value;
    ConsolidateBlockIds(fields, tables);
    forall id | id in c.m ensures c.m[id][BlockGroupField].Some? {
      assert id in c.keys;
      BlockGroupSupplied(tables, id);
      ConsolidateValue(fields, tables, id, BlockGroupField);
    }
  }

  /** The block of `t` already has a row that holds every value `t` supplies. */
  ghost predicate Absorbs(fields: seq<Text>, c: Consolidated, t: RawTable)
    requires RowsOk(fields, c)
  {
    && HasBlockId(t) && BlockIdOf(t) in c.m
    && forall f | f in fields && Supplied(t, f).Some? :: Stored(fields, c, BlockIdOf(t), f) == Supplied(t, f)
  }

  /** Folding a table whose values the block's row already holds changes nothing. */
  lemma FoldTableAbsorbed(fields: seq<Text>, c: Consolidated, t: RawTable)
    requires RowsOk(fields, c) && Absorbs(fields, c, t)
    ensures FoldTable(fields, c, t) == Success(c)
  {
    var id := BlockIdOf(t);
    FoldTableSucceedsIff(fields, c, t);
    FoldTableResult(fields, c, t);
    var c2 := FoldTable(fields, c, t).value;
    RowsEqual(fields, c2.m[id], c.m[id]);
    assert c.m[id := c.m[id]] == c.m;
  }

  /** After a successful fold of a table with a block id, its row holds every value it supplies. */
  lemma FoldTableAbsorbs(fields: seq<Text>, c: Consolidated, t: RawTable)
    requires RowsOk(fields, c) && HasBlockId(t) && FoldTable(fields, c, t).Success?
    ensures Absorbs(fields, FoldTable(fields, c, t).value, t)
  {
    FoldTableSucceedsIff(fields, c, t);
    FoldTableResult(fields, c, t);
  }

  /** Folding the same table a second time changes nothing. */
  lemma FoldTableIdempotent(fields: seq<Text>, c: Consolidated, t: RawTable)
    requires RowsOk(fields, c) && FoldTable(fields, c, t).Success?
    ensures FoldTable(fields, FoldTable(fields, c, t).value, t) == FoldTable(fields, c, t)
  {
    if HasBlockId(t) {
      FoldTableAbsorbs(fields, c, t);
      FoldTableAbsorbed(fields, FoldTable(fields, c, t).value, t);
    }
  }

  /** When consolidation succeeds, the row of every table's block holds every value the table supplies. */
  lemma ConsolidateAbsorbs(fields: seq<Text>, tables: seq<RawTable>, k: nat)
    requires Consolidate(fields, tables).Success? && k < |tables| && HasBlockId(tables[k])
    ensures Absorbs(fields, Consolidate(fields, tables).value, tables[k])
  {
    var t := tables[k];
    var id := BlockIdOf(t);
    var c := Consolidate(fields, tables).value;
    ConsolidateFailsIffConflict(fields, tables);
    KnownBlockId(fields, tables, k);
    forall f | f in fields && Supplied(t, f).Some? ensures Stored(fields, c, id, f) == Supplied(t, f) {
      ConsolidateValue(fields, tables, id, f);
      FirstSuppliedAgrees(fields, tables, id, f, k);
    }
  }

  /** Folding in again any table already consolidated leaves the result unchanged. */
  lemma RefoldKnownTable(fields: seq<Text>, tables: seq<RawTable>, k: nat)
    requires Consolidate(fields, tables).Success? && k < |tables|
    ensures Consolidate(fields, tables + [tables[k]]) == Consolidate(fields, tables)
  {
    assert (tables + [tables[k]])[..|tables|] == tables;
    if HasBlockId(tables[k]) {
      ConsolidateAbsorbs(fields, tables, k);
      FoldTableAbsorbed(fields, Consolidate(fields, tables).value, tables[k]);
    }
  }

  /** The block id of every consolidated table has a row. */
  lemma KnownBlockId(fields: seq<Text>, tables: seq<RawTable>, k: nat)
    requires Consolidate(fields, tables).Success? && k < |tables| && HasBlockId(tables[k])
    ensures BlockIdOf(tables[k]) in Consolidate(fields, tables).value.m
  {
    ConsolidateBlockIds(fields, tables);
    assert tables[..k + 1][..k] == tables[..k];
    assert BlockIdOf(tables[k]) in BlockIds(tables[..k + 1]);
    BlockIdsGrow(tables, k + 1);
  }

  /** The block ids of leading tables are among the block ids of all of them. */
  lemma {:induction false} BlockIdsGrow(tables: seq<RawTable>, n: nat)
    requires n <= |tables|
    ensures forall id | id in BlockIds(tables[..n]) :: id in BlockIds(tables)
    decreases |tables| - n
  {
    if n < |tables| {
      assert tables[..n + 1][..n] == tables[..n];
      BlockIdsGrow(tables, n + 1);
    } else {
      assert tables[..n] == tables;
    }
  }

  /** Keys outside the schema (other than the block id) never affect the fold. */
  lemma ExtraKeysIgnored(fields: seq<Text>, c: Consolidated, t: RawTable, k: Text, v: Text)
    requires RowsOk(fields, c) && k !in fields && k != BlockIdField
    ensures var t' := RawTable(t.title, Put(t.fields, k, v));
      && FoldTable(fields, c, t').Success? == FoldTable(fields, c, t).Success?
      && (FoldTable(fields, c, t).Success? ==> FoldTable(fields, c, t') == FoldTable(fields, c, t))
  {
    var t' := RawTable(t.title, Put(t.fields, k, v));
    assert forall f | f in fields :: Supplied(t', f) == Supplied(t, f);
    if HasBlockId(t) {
      var id := BlockIdOf(t);
      FoldTableSucceedsIff(fields, c, t);
      FoldTableSucceedsIff(fields, c, t');
      if FoldTable(fields, c, t).Success? {
        FoldTableResult(fields, c, t);
        FoldTableResult(fields, c, t');
        var r, r' := FoldTable(fields, c, t).value, FoldTable(fields, c, t').value;
        RowsEqual(fields, r'.m[id], r.m[id]);
      }
    }
  }

  /** `_index_by_block_id` as a whole: the consolidation of the tables, except
      that with no table at all it fails when naming the index. */
  function IndexTables(fields: seq<Text>, tables: seq<RawTable>): (r: Result<Consolidated>)
    ensures r.Success? ==> RowsOk(fields, r.value)
  {
    if |tables| == 0 then Failure(NoTables) else Consolidate(fields, tables)
  }

  /** The inner loop of `_index_by_block_id` (run.py:85-91): merge the items
      of one table into the row `this_group`, field by field. */
  method MergeRow(fields: seq<Text>, row: BlockRow, id: Text, items: seq<(Text, Text)>)
    returns (r: Result<BlockRow>)
    requires IsBlockRow(fields, row)
    ensures r == MergeItems(fields, row, id, items)
  {
    var group := row;
    var j := 0;
    while j < |items|
      invariant 0 <= j <= |items| && IsBlockRow(fields, group)
      invariant MergeItems(fields, row, id, items) == MergeItems(fields, group, id, items[j..])
    {
      var (key, value) := items[j];
      assert items[j..][1..] == items[j + 1..];
      if key in fields {
        if group[key] == None {
          group := group[key := Some(value)];
        } else if group[key].value != value {
          return Failure(InconsistentField(id, key, group[key].value, value));
        }
      }
      j := j + 1;
    }
    return Success(group);
  }

  /** `_index_by_block_id` (run.py:72-95): the outer loop that fills
      `info_by_block_id`, one table at a time, then names the index. */
  method IndexByBlockId(fields: seq<Text>, tables: seq<RawTable>) returns (r: Result<Consolidated>)
    ensures r == IndexTables(fields, tables)
  {
    var info: Consolidated := EmptyDict();
    var i := 0;
    while i < |tables|
      invariant 0 <= i <= |tables|
      invariant Consolidate(fields, tables[..i]) == Success(info)
    {
      var t := tables[i];
      assert tables[..i + 1][..i] == tables[..i];
      if BlockIdField !in t.fields.m {
        i := i + 1;
        continue;
      }
      var blockId := t.fields.m[BlockIdField];
      var group := if blockId in info.m then info.m[blockId] else EmptyRow(fields);
      var merged := MergeRow(fields, group, blockId, Items(Put(t.fields, BlockGroupField, t.title)));
      if merged.Failure? {
        ConsolidatePrefixFailure(fields, tables, i + 1);
        return Failure(merged.error);
      }
      info := Put(info, blockId, merged.value);
      i := i + 1;
    }
    assert tables[..i] == tables;
    if |tables| == 0 {
      return Failure(NoTables);
    }
    return Success(info);
  }
}
