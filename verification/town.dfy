/** The town check of `process_kml_file` (run.py:17-20): the consolidated
    table must name exactly one town, and that town names the output files. */
module Town {
  import opened Base
  import opened Seqs
  import opened Dicts
  import opened Schema
  import opened Consolidation

  /** The "Town" column of the consolidated table, one entry per block in row order. */
  function TownColumn(fields: seq<Text>, c: Consolidated): (col: seq<Option<Text>>)
    requires TownField in fields && RowsOk(fields, c)
    ensures |col| == |c.keys|
    ensures forall i | 0 <= i < |col| :: col[i] == c.m[c.keys[i]][TownField]
  {
    seq(|c.keys|, i requires 0 <= i < |c.keys| => c.m[c.keys[i]][TownField])
  }

  /** `cleaned_table['Town'].unique()` followed by the length check: the one
      town (None when no table supplied one), or the distinct towns found. */
  function SingleTown(fields: seq<Text>, c: Consolidated): (r: Result<Option<Text>>)
    requires TownField in fields && RowsOk(fields, c)
    ensures r.Failure? ==> r.error.TownCount? && |r.error.towns| != 1 && Distinct(r.error.towns)
  {
    var towns := Unique(TownColumn(fields, c));
    if |towns| != 1 then Failure(TownCount(towns)) else Success(towns[0])
  }

  /** Every block names `town` (None included). */
  ghost predicate OneTown(fields: seq<Text>, c: Consolidated, town: Option<Text>)
    requires TownField in fields && RowsOk(fields, c)
  {
    forall id | id in c.m :: c.m[id][TownField] == town
  }

  /** Every block names `town` exactly when every entry of the column is `town`. */
  lemma OneTownColumn(fields: seq<Text>, c: Consolidated, town: Option<Text>)
    requires TownField in fields && RowsOk(fields, c)
    ensures OneTown(fields, c, town) <==>
      forall i | 0 <= i < |TownColumn(fields, c)| :: TownColumn(fields, c)[i] == town
  {
    var col := TownColumn(fields, c);
    if forall i | 0 <= i < |col| :: col[i] == town {
      forall id | id in c.m ensures c.m[id][TownField] == town {
        assert col[FirstIndex(c.keys, id)] == c.m[id][TownField];
      }
    }
  }

  /** The check passes exactly when there is at least one block and every
      block names the same town as the first; that town is the result. */
  lemma SingleTownSucceedsIff(fields: seq<Text>, c: Consolidated)
    requires TownField in fields && RowsOk(fields, c)
    ensures var r := SingleTown(fields, c);
      && (r.Success? <==> |c.keys| > 0 && OneTown(fields, c, c.m[c.keys[0]][TownField]))
      && (r.Success? ==> OneTown(fields, c, r.value))
  {
    var col := TownColumn(fields, c);
    UniqueSingle(col);
    if |c.keys| > 0 {
      OneTownColumn(fields, c, col[0]);
    }
  }

  /** A failure lists every town found, and nothing else. */
  lemma SingleTownFailureLists(fields: seq<Text>, c: Consolidated)
    requires TownField in fields && RowsOk(fields, c) && SingleTown(fields, c).Failure?
    ensures var towns := SingleTown(fields, c).error.towns;
      && (forall id | id in c.m :: c.m[id][TownField] in towns)
      && (forall x | x in towns :: exists id | id in c.m :: c.m[id][TownField] == x)
  {
    var col := TownColumn(fields, c);
    forall id | id in c.m ensures c.m[id][TownField] in col {
      assert col[FirstIndex(c.keys, id)] == c.m[id][TownField];
    }
    forall x | x in col ensures exists id | id in c.m :: c.m[id][TownField] == x {
      var i :| 0 <= i < |col| && col[i] == x;
      assert c.keys[i] in c.m;
    }
  }
}
