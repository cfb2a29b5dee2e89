/** The fixed column list of the consolidated table (`get_fields`, run.py:113-147). */
module Schema {
  import opened Base
  import opened Seqs

  /** The key whose value identifies a block; it indexes the consolidated rows. */
  const BlockIdField: Text := "Block Group Identification Number"
  /** The column filled from a table's title. */
  const BlockGroupField: Text := "Block Group"
  const TownField: Text := "Town"

  /** The canonical fields, in column order. */
  const Fields: seq<Text> := [
    "Block Group",
    "Town",
    "Active Electric Locations, 2019",
    "Active Electric Accounts as of December, 2019",
    "2013 Electric Location Participation Rate",
    "2014 Electric Location Participation Rate",
    "2015 Electric Location Participation Rate",
    "2016 Electric Location Participation Rate",
    "2017 Electric Location Participation Rate",
    "2018 Electric Location Participation Rate",
    "2019 Electric Location Participation Rate",
    "2013-2019 Total Electric Location Participation Rate",
    "2013-2019 Total Electric Location Participation Rate Rank",
    "2013-2019 Electric location participation rate percentage points difference from town mean",
    "Active Gas Locations, 2019",
    "Active Gas Accounts as of December, 2019",
    "2013 Gas Location Participation Rate",
    "2014 Gas Location Participation Rate",
    "2015 Gas Location Participation Rate",
    "2016 Gas Location Participation Rate",
    "2017 Gas Location Participation Rate",
    "2018 Gas Location Participation Rate",
    "2019 Gas Location Participation Rate",
    "2013-2019 Total Gas Location Participation Rate",
    "2013-2019 Total Gas Location Participation Rate Rank",
    "2013-2019 Gas location participation rate percentage points difference from town mean",
    "2018 Block Group rank ordered by share of income eligible households",
    "2018 ACS Share of income eligible households",
    "2018 Block Group rank ordered by share of renter occupied households",
    "2018 ACS Share of renter occupied households",
    "2018 Block Group rank ordered by share of limited english proficiency households",
    "2018 ACS Share of limited english proficiency households"
  ]

  /** No field is listed twice: each lemma below checks the fields in a few
      positions against every later one. */
  lemma FieldsDistinct0To4()
    ensures forall i, j | 0 <= i < 4 && i < j < |Fields| :: Fields[i] != Fields[j]
  {
    forall i | 0 <= i < 4 ensures forall j | i < j < |Fields| :: Fields[i] != Fields[j] {
    }
  }

  lemma FieldsDistinct4To8()
    ensures forall i, j | 4 <= i < 8 && i < j < |Fields| :: Fields[i] != Fields[j]
  {
    forall i | 4 <= i < 8 ensures forall j | i < j < |Fields| :: Fields[i] != Fields[j] {
    }
  }

  lemma FieldsDistinct8To12()
    ensures forall i, j | 8 <= i < 12 && i < j < |Fields| :: Fields[i] != Fields[j]
  {
    forall i | 8 <= i < 12 ensures forall j | i < j < |Fields| :: Fields[i] != Fields[j] {
    }
  }

  lemma FieldsDistinct12To17()
    ensures forall i, j | 12 <= i < 17 && i < j < |Fields| :: Fields[i] != Fields[j]
  {
    forall i | 12 <= i < 17 ensures forall j | i < j < |Fields| :: Fields[i] != Fields[j] {
    }
  }

  lemma FieldsDistinct17To23()
    ensures forall i, j | 17 <= i < 23 && i < j < |Fields| :: Fields[i] != Fields[j]
  {
    forall i | 17 <= i < 23 ensures forall j | i < j < |Fields| :: Fields[i] != Fields[j] {
    }
  }

  lemma FieldsDistinct23To32()
    ensures forall i, j | 23 <= i < 32 && i < j < |Fields| :: Fields[i] != Fields[j]
  {
    forall i | 23 <= i < 32 ensures forall j | i < j < |Fields| :: Fields[i] != Fields[j] {
    }
  }

  /** The block id is not one of the fields. */
  lemma BlockIdNotAField()
    ensures forall i | 0 <= i < |Fields| :: Fields[i] != BlockIdField
  {
  }

  /** The schema: 32 distinct columns, led by the title column and the town,
      and never the block id itself (it is the index, not a column). */
  lemma FieldsFacts()
    ensures |Fields| == 32 && Distinct(Fields)
    ensures Fields[0] == BlockGroupField && Fields[1] == TownField
    ensures BlockIdField !in Fields
  {
    FieldsDistinct0To4();
    FieldsDistinct4To8();
    FieldsDistinct8To12();
    FieldsDistinct12To17();
    FieldsDistinct17To23();
    FieldsDistinct23To32();
    BlockIdNotAField();
  }

  /** `get_fields()`: the schema every consolidation uses; it holds the
      title column and the town. */
  function GetFields(): (fs: seq<Text>)
    ensures BlockGroupField in fs && TownField in fs
  {
    assert Fields[0] == BlockGroupField && Fields[1] == TownField;
    Fields
  }
}
