/** Vocabulary shared by the whole model: cell texts, optional values and the
    failures that abort a run of the extractor. */
module Base {

  /** The text of a cell, a key or a value (already HTML-unescaped by the parser). */
  type Text = string

  datatype Option<+T> = None | Some(value: T)

  /** Every exception the modelled core raises; a placemark without a
      description and file errors are outside the model. */
  datatype Error =
    /** run.py:33: the description did not hold exactly two tables (carries the count found). */
    | TableCount(found: nat)
    /** run.py:43: the first table has no row at all, so `table.tr` is None. */
    | MissingTitleRow
    /** run.py:44: the first row of the first table does not hold exactly one cell. */
    | TitleCellCount(found: nat)
    /** run.py:52: a row of the data table does not hold exactly two cells. */
    | DataRowCellCount(found: nat)
    /** run.py:94: with no table at all the loop never binds the block id
        field's name, so naming the index of the consolidated table fails. */
    | NoTables
    /** run.py:90-91: two tables for one block disagree on a canonical field. */
    | InconsistentField(blockId: Text, field: Text, stored: Text, supplied: Text)
    /** run.py:18-19: the consolidated rows do not share exactly one Town value. */
    | TownCount(towns: seq<Option<Text>>)

  datatype Result<+T> = Success(value: T) | Failure(error: Error)
}
