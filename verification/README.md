# kml_parsing: a Dafny model of the table extraction and block consolidation

`run.py` reads a KML file of census block groups. Each placemark has an HTML
description that holds two tables:

- a one-cell title table;
- a two-column key/value table.

The program turns every description into a `(title, dict)` pair. It then
folds these pairs into one row per block id ("Block Group Identification
Number") over a fixed list of 32 fields. It checks that the result names a
single town, and writes two CSV files: a raw dump of every pair, and the
consolidated table.

This project models that core in Dafny and proves what it guarantees.

- `base.dfy` (`Base`): the texts, `Option`, `Result`, and one `Error` variant
  for each exception the core can raise.
- `seqs.dfy` (`Seqs`): small sequence facts. These are first and last
  occurrence, distinctness, and the order-keeping removal of repeats that
  pandas' `unique()` performs.
- `dicts.dfy` (`Dicts`): Python's insertion-ordered `dict`, as a key list plus
  a map. Storing an existing key keeps its position; a new key goes to the end.
- `extract.dfy` (`Extract`): `_parse_table`, `_get_title_from_first_table`,
  `_extract_html_table` and the loop of `_load_tables`. A description arrives
  already split into tables, rows and cell texts.
- `schema.dfy` (`Schema`): `get_fields()` and the facts about it.
- `consolidate.dfy` (`Consolidation`): `_index_by_block_id`. The pure fold
  `Consolidate` is the specification. The two loops of the source are
  `IndexByBlockId` and `MergeRow`, proved equal to it.
- `town.dfy` (`Town`): the town check of `process_kml_file`.
- `raw_dump.dfy` (`RawDump`): the row layout of `save_raw_tables_to_csv`,
  written by nested loops and proved equal to a layout function.
- `pipeline.dfy` (`Pipeline`): `process_kml_file` from loaded descriptions to
  its outputs.

Each operation is partnered as follows.

- `_parse_table`: its last-value-wins and key-order laws.
- Consolidation: an independent characterisation. Each stored value is the
  first one any table supplied for that block, and the run fails exactly when
  two tables for one block disagree.
- The raw dump: a reader that recovers every title and its items from the rows.

Four behaviours of the code are worth stating outright:

- **Repeated keys.** The guard at `run.py:54` looks the `td` element itself up
  among the dict's text keys, so it never fires. A repeated key text
  overwrites the earlier value and keeps the key's first position
  (`Extract.ParseRowsLastValueWins`, `Extract.ParseRowsKeyOrder`).
- **The title table.** Only its first row is examined. That row must have
  exactly one cell, and any later rows are ignored
  (`Extract.ExtractIgnoresLaterTitleRows`). The title is the cell's text as
  is, not trimmed.
- **The field list.** The list has 32 fields; the block id is not among them
  (`Schema.FieldsFacts`, `Pipeline.SchemaRows`).
- **No tables at all.** With no table, the loop of `_index_by_block_id` never
  binds `block_id_field`, so naming the index (`run.py:94`) fails. The model
  reports this as `NoTables`.

## Model

The rows below state properties of these specification functions:

- `Extract.ParseRows`, for `_parse_table` (run.py:48-57).
- `Consolidation.MergeItems`, for the inner loop of run.py:85-91.
- `Consolidation.FoldTable`, for one pass of the outer loop (run.py:75-91).
- `Consolidation.Consolidate`, for the whole fold.
- `Consolidation.IndexTables`, which adds the empty-input failure of run.py:94.
- `RawDump.RawLayout`, for the rows of run.py:104-110.
- `Pipeline.ProcessTables`, for run.py:15-22 over loaded tables.

| member | source | states |
|---|---|---|
| `Extract.ParseRows` | run.py:48-57 | parsing fails exactly when some row does not have two cells; on success the dict's keys are exactly the first-cell texts |
| `Extract.ParseTable` | run.py:48-57 | the row loop, which stops at the first bad row, yields exactly the dict (or failure) that `ParseRows` specifies |
| `Extract.ParseRowsFirstBadRow` | run.py:50-52 | a failure reports the cell count of the first row that does not have two cells; every earlier row has two |
| `Extract.ParseRowsPrefixFailure` | run.py:50-52 | once some leading rows have failed, the later rows never change the outcome |
| `Extract.ParseRowsLastValueWins` | run.py:53-55 | each key holds the value of the last row carrying that key text (the guard at line 54 never rejects a repeat) |
| `Extract.ParseRowsKeyOrder` | run.py:49-55 | the dict lists its keys in the order of their first appearance among the rows |
| `Extract.TitleOf` | run.py:42-45 | the title exists exactly when the table has a first row and that row has one cell; the title is that cell's text as is |
| `Extract.ExtractHtmlTable` | run.py:26-39 | extraction succeeds exactly when there are two tables, the first row of the first has one cell and every row of the second has two; a wrong table count is reported with the count, otherwise the title table's error and then the data table's; on success the title is that cell's text and the dict is exactly what `_parse_table` gives for the second table |
| `Extract.ExtractIgnoresLaterTitleRows` | run.py:42-45 | rows of the title table after its first never affect the result |
| `Extract.LoadTables` | run.py:63-67 | loading succeeds exactly when every description extracts, and then yields their tables in document order; otherwise it reports the error of the first failing description |
| `Schema.FieldsFacts` | run.py:113-147 | the field list has 32 distinct names, starts with "Block Group" and "Town", and does not contain the block id key |
| `Schema.GetFields` | run.py:113-147 | the schema holds the title column and the town column |
| `Consolidation.MergeItemsSpec` | run.py:85-91 | merging one table's items into a row succeeds exactly when no item contradicts a set field; each unset field takes the item's value and set fields are kept; a failure names the block, the field and both values |
| `Consolidation.MergeRow` | run.py:85-91 | the inner loop over a table's items computes exactly the merge that `MergeItems` specifies |
| `Consolidation.FoldTableSucceedsIff` | run.py:77-91 | folding a table with a block id succeeds exactly when every field it supplies agrees with the value stored for that block |
| `Consolidation.FoldTableResult` | run.py:80-88 | a successful fold changes only the table's block, which is created at the end if new; each field keeps its stored value or takes the table's |
| `Consolidation.FoldTableFailure` | run.py:89-91 | a failed fold comes from a table with a block id; it names a schema field whose stored value differs from the supplied one |
| `Consolidation.StoredAfterFold` | run.py:81-88 | after a fold, a field of the table's block holds its old value or else the supplied one; other blocks are unchanged |
| `Consolidation.SkipsTableWithoutBlockId` | run.py:76-78 | a table without a block id leaves the consolidation unchanged |
| `Consolidation.ConsolidatePrefixFailure` | run.py:75-91 | once consolidating some leading tables has failed, later tables do not change the outcome |
| `Consolidation.ConsolidateBlockIds` | run.py:75-83 | the consolidated keys are exactly the block ids met, each once, in order of first encounter |
| `Consolidation.ConsolidateValue` | run.py:75-91 | every field of every block holds the value supplied by the first table for that block that supplies it, or None |
| `Consolidation.FoldFailsIffClash` | run.py:85-91 | given earlier tables with no conflict, folding one more table fails exactly when it disagrees with an earlier table for the same block |
| `Consolidation.ConsolidateFailsIffConflict` | run.py:75-91 | consolidation fails exactly when two tables for one block supply different values for some schema field |
| `Consolidation.ConsolidateFailure` | run.py:85-91 | a failed consolidation names a block, a schema field and two different values: the first value was supplied by an earlier table for that block, the second by the first table whose fold fails |
| `Consolidation.BlockGroupIsFirstTitle` | run.py:84 | the "Block Group" of a block is the title of the first table carrying its block id |
| `Consolidation.BlockGroupAlwaysSet` | run.py:84-88 | every consolidated row has its "Block Group" set |
| `Consolidation.FoldTableIdempotent` | run.py:75-91 | folding the same table twice in a row equals folding it once |
| `Consolidation.RefoldKnownTable` | run.py:75-91 | appending a table already consolidated leaves a successful consolidation unchanged |
| `Consolidation.ExtraKeysIgnored` | run.py:85-86 | adding a key outside the schema (other than the block id) to a table changes neither the outcome nor the result of folding it |
| `Consolidation.IndexByBlockId` | run.py:72-95 | the nested loops compute exactly the specified consolidation; with no table at all they fail when naming the index |
| `Town.SingleTown` | run.py:17-20 | a failed town check lists distinct towns, and not exactly one of them |
| `Town.SingleTownSucceedsIff` | run.py:17-20 | the check passes exactly when there is at least one block and all blocks name the same town (None counts as a value); the town returned is that town |
| `Town.SingleTownFailureLists` | run.py:17-19 | a failed check lists every town that some block names, and only those |
| `RawDump.SaveRawTables` | run.py:102-110 | the loops write, per table, a title row, one row per item in insertion order and a blank separator row |
| `RawDump.RawLayoutLength` | run.py:104-110 | the dump has, for every table, its number of items plus two rows |
| `RawDump.RawLayoutAppend` | run.py:104-110 | the dump of two runs of tables is the two dumps one after the other |
| `RawDump.RawLayoutLocates` | run.py:104-110 | the rows of table k start right after the rows of the tables before it |
| `RawDump.RawLayoutReadsBack` | run.py:102-110 | the dump reads back into every title with its items in order, provided no item has an empty key and an empty value |
| `Pipeline.ProcessKmlFile` | run.py:10-23 | if any description fails to extract, the run fails with the error of the first failing description in document order; otherwise it equals the specified run over the loaded tables |
| `Pipeline.TownCheckOnTables` | run.py:15-20 | after a successful consolidation, the town check passes exactly when every block's first-supplied town equals the first block's; that town is returned |
| `Pipeline.ProcessTablesSpec` | run.py:15-22 | a run over no tables fails; a run succeeds exactly when no two tables for one block disagree and all blocks name one town; it reports that town, the raw dump and the consolidated table; a failure reports the disagreement when there is one, else the towns |
| `Pipeline.ProcessTablesFailure` | run.py:15-20 | a failed run reports, when two tables for one block disagree, the field and both values as two such tables supply them; otherwise it lists exactly the towns the blocks name, which are not one |
| `Pipeline.SchemaRows` | run.py:73-82 | every row of a table built over the schema of `get_fields()`, as every consolidation result is, has exactly 32 columns, including "Block Group" and "Town" but never the block id |
| `Pipeline.TwoBlocksConsolidate` | run.py:75-91 | two tables for two different blocks give two rows in table order, each holding what its own table supplies |
| `Pipeline.TwoBlocksOneTown` | run.py:15-20 | two tables for two different blocks of one town give a successful run reporting that town |
| `Pipeline.TwoBlocksExample` | run.py:10-23 | two placemarks with block ids 250010001 and 250010002, both in "TestTown", give two rows in that order, with "Block Group" values "Block Group 1" and "Block Group 2" |

## Left out

- HTML and XML parsing (BeautifulSoup with lxml) is not modelled. A description
  arrives as its tables, rows and cell texts. HTML unescaping and bs4's search
  through nested elements are therefore not part of the model.
- Reading the KML file and finding the placemarks (`run.py:61-64`) is not
  modelled. A placemark without a `description` child, which raises an
  `AttributeError`, is not modelled either: the loader starts from the
  description texts.
- pandas is not modelled: `DataFrame.from_dict`, the index name,
  `save_cleaned_table` and `to_csv` (`run.py:93-99`). The consolidated table
  is the ordered dict of rows that `from_dict` receives. `unique()` is modelled
  as dropping repeats in row order.
- CSV writing is not modelled: the writer, quoting and escaping, and the
  output files. The raw dump is the list of two-column rows the writer
  receives.
- The command line is not modelled: `argparse`, `__main__`, and building the
  output paths from the town name.
- Exception messages are not modelled. Each exception is an `Error` value that
  carries the data the message shows.
- `Consolidation.MergeRow` merges into a copy of the block's row and stores it
  back after the loop. The source updates the row in place through an alias.
  A failure aborts the whole run, so nothing observable differs.
