# Mambo table builders, modelled in Dafny

Mambo builds multi-modal networks out of many biological datasets. Every
node belongs to a *mode* (genes, proteins, functions, ...). Every edge
belongs to a *crossnet*, which links two modes. Each node and edge gets one
global *mambo id*. The scripts under `utils/` turn a dataset's tab-separated
file into mambo tables:

- **Mode table** (`create_mambo_mode_table`). Each distinct non-empty node
  key of the input gets the next mambo id. The script appends to the mode's
  full table and writes a dataset table of `id, key, other columns`.
- **Mapped mode table** (`create_mapped_mode_table`). Node keys are first
  looked up in a mapping file that links mambo ids to names in several
  naming schemes. A known key reuses its id. An unknown key gets the next id
  after the mapping's `max_id`, and a new mapping row is appended. Unless
  `skip` is set, in which case it is written under id 0. The full table is
  rewritten. Ids touched in this run get the dataset appended to their
  dataset list. Every other old id is carried forward unchanged.
- **Crossnet table** (`create_mambo_crossnet_table`). Each edge line's two
  endpoint keys are filtered and then resolved to mambo node ids through the
  two mode tables. Each edge gets the next edge id. A missing key either
  aborts the run or, with `skip_missing_ids`, skips the line. Edges are not
  de-duplicated.
- **Mapping table** (`create_mapping_table`). This merges a name-to-name
  mapping into an existing mapping table keyed by mambo id:
  - a known name keeps its id and its row is filled in;
  - an unknown name gets the next id after the largest existing id;
  - rows no name touched are carried forward;
  - then the whole table is rewritten under a rebuilt title line.

Each loop is a Dafny `method` with a `while` loop, proved equal to a
specification function. Each specification is a left fold (`Lines.Fold`) of
a one-line step function over the input lines, or over the dictionary's
iteration order. The properties are lemmas about those specifications.

The files:

- `lines.dfy`: lines and fields, Python indexing, schema columns, the
  errors, and the fold.
- `decimal.dfy`: `int()` and `%d`.
- `sightings.dfy`: first occurrences of keys.
- `mode_table.dfy`, `mapped_mode_table.dfy`, `crossnet_table.dfy`,
  `mapping_table.dfy`: one module per script.
- `wrappers.dfy`: `Option` and `Result`.

How the model represents the scripts' inputs and behaviour:

- **Lines.** A line is its first character plus its fields, already split.
- **Errors.** An uncaught Python exception becomes a `Failure`:
  `IndexError` on a field, `ValueError` from `int()`, and `KeyError` on a
  mode mapping.
- **Dictionary iteration order** is an explicit parameter. The model
  requires only that it visits each key once.
- **Id counter.** The starting value of the mode and crossnet counters is a
  parameter. It is either the caller's override or what the registry scan
  found.

The code does not check a caller-supplied start id. A start that is not
above the registry's ids is used as given. The model follows the code: a run
with any start succeeds or fails exactly as the script does. The freshness
lemmas (`ModeTable.MintedIdsAreFresh`, `CrossnetTable.EdgeIdsAreFresh`)
make that start condition a hypothesis.

Two behaviours of the code are modelled exactly as written:

- **`max_id` in `create_mapped_mode_table`.** It is the id of the last
  mapping row, not the largest id. With a mapping file not in id order, a
  new key can be minted under an id that is already in use
  (`MappedModeTable.UnsortedMappingRepeatsAnId`).
- **An empty `index2` slot in `create_mapping_table`.** An existing row whose
  mapped-name column is `None` gets the name itself, not the mapped name
  (`MappingTable.NoneSlotGetsTheName`).

## Model

| member | source | states |
|---|---|---|
| Lines.ColumnsExcept | utils/create_mambo_mode_table.py:88-91 | the schema columns are exactly the column numbers below the width that are not excluded, strictly increasing |
| Lines.Except | utils/create_mambo_mode_table.py:97-100 | the attribute fields are, position by position, the fields under the schema columns |
| Lines.SchemaColumns | utils/create_mambo_mode_table.py:88-91 | the schema loop yields the non-excluded column numbers in order |
| Lines.Attributes | utils/create_mambo_mode_table.py:97-100 | the attribute loop yields the fields outside the excluded columns in order |
| Decimal.Show | utils/create_mapping_table.py:15-16 | `%d` writes a non-empty numeral that starts with a digit or a minus sign and ends in a digit |
| Decimal.ParseShow | utils/create_mapped_mode_table.py:123 | a number written with `%d` reads back as itself through `int()` |
| ModeTable.CreateModeTable | utils/create_mambo_mode_table.py:67-104 | the run computes exactly the whole-run specification: the full table's header (present only when the counter starts at 0), both tables, the schema line, or the first error |
| ModeTable.ModeLine | utils/create_mambo_mode_table.py:84-104 | one iteration of the main loop computes exactly one step of the whole-run specification: comment skipped, schema written once, repeated or empty key skipped, otherwise both rows written under the counter |
| ModeTable.ModeTableRows | utils/create_mambo_mode_table.py:94-104 | ids run start, start+1, ... with no gap, one per distinct non-empty key, in first-appearance order; the full row and the dataset row of an id are written together; the dataset row keeps the key and the other columns of the line that minted it |
| ModeTable.ModeTableKeys | utils/create_mambo_mode_table.py:95-103 | the dataset rows' keys are pairwise distinct and are exactly the non-empty keys of the input |
| ModeTable.MintedIdsAreFresh | utils/create_mambo_mode_table.py:25-27 | with the counter started above every registered id, no minted id is already registered |
| ModeTable.ModeTableFailure | utils/create_mambo_mode_table.py:94 | a run fails iff some record line lacks the node column, and it reports the first such line |
| ModeTable.ModeTableSchema | utils/create_mambo_mode_table.py:87-93 | a schema line is written iff the input has a record; it lists the first record's columns other than the node column |
| ModeTable.CommentsWriteNothing | utils/create_mambo_mode_table.py:84-85 | dropping every comment line changes neither success nor the tables |
| ModeTable.AlphaBetaAlpha | utils/create_mambo_mode_table.py:95-104 | keys `ALPHA, BETA, ALPHA` from counter 0 give ids 0 and 1, and the repeated key is skipped |
| CrossnetTable.CreateCrossnetTable | utils/create_mambo_crossnet_table.py:101-146 | the main loop computes exactly the whole-run specification, or its first error |
| CrossnetTable.EdgeLine | utils/create_mambo_crossnet_table.py:118-146 | one iteration of the main loop computes exactly one step of the whole-run specification, including the missing-column and unresolved-key errors |
| CrossnetTable.CrossnetRows | utils/create_mambo_crossnet_table.py:128-146 | edge ids run start, start+1, ..., one per emitted line, in input order, with no de-duplication; the full row carries the dataset id and both resolved node ids; the dataset row carries the two datasets' ids and the remaining columns |
| CrossnetTable.CrossnetSchema | utils/create_mambo_crossnet_table.py:121-127 | a schema line is written iff the input has a record; it lists the first record's columns other than the two endpoint columns |
| CrossnetTable.CrossnetFailure | utils/create_mambo_crossnet_table.py:128-144 | a run fails iff some line is fatal: a missing endpoint column, or an unknown key without `skip_missing_ids`; it fails on the first such line, with IndexError before KeyError, source before destination |
| CrossnetTable.SkipMissingNeverUnresolved | utils/create_mambo_crossnet_table.py:136-138 | with `skip_missing_ids`, an unknown key never aborts the run |
| CrossnetTable.SelfJoinSharesMapping | utils/create_mambo_crossnet_table.py:92-96 | when both mode tables are the same file, the one loaded map serves both ends: a self-join run equals a two-file run whose destination table has the same content, and every edge's two ends are ids of that one table |
| CrossnetTable.EdgeIdsAreFresh | utils/create_mambo_crossnet_table.py:32-34 | with the counter started above every recorded edge id, no new edge id collides |
| CrossnetTable.AlphaBetaEdge | utils/create_mambo_crossnet_table.py:143-144 | edge `(ALPHA, BETA)` with ALPHA -> 5 and BETA -> 7 gives the full row `(0, 3, 5, 7)` |
| CrossnetTable.RepeatedEdgeWrittenTwice | utils/create_mambo_crossnet_table.py:139-146 | the same edge listed twice is written twice, under consecutive ids |
| MappedModeTable.ReadFullModeFile | utils/create_mapped_mode_table.py:60-67 | the loader loop computes the map of the old full table, or the first error |
| MappedModeTable.FullModeMapLastWins | utils/create_mapped_mode_table.py:63-67 | every record has an id and a dataset list; the map holds exactly the records' ids, each with the last record's dataset list |
| MappedModeTable.ReadMappingFile | utils/create_mapped_mode_table.py:72-82 | the loader loop computes the mapping, `max_id` and `num_cols`, or the first error |
| MappedModeTable.MappingNames | utils/create_mapped_mode_table.py:76-81 | after a load every record has an id and a name, and the mapping holds exactly the records' names |
| MappedModeTable.MappingLastWins | utils/create_mapped_mode_table.py:81 | a name mapped again later takes the id of the last record naming it |
| MappedModeTable.MappingMaxIdIsLast | utils/create_mapped_mode_table.py:80-82 | `max_id` and `num_cols` are the id and width of the last record (0 and 0 without one), not a maximum |
| MappedModeTable.Split | utils/create_mapped_mode_table.py:113 | `split('.')` gives at least one piece and no piece contains the separator |
| MappedModeTable.SplitWithout | utils/create_mapped_mode_table.py:113 | a string without the separator splits into itself alone |
| MappedModeTable.SplitFirst | utils/create_mapped_mode_table.py:113 | a string with the separator splits into the text before its first occurrence, then the split of the rest |
| MappedModeTable.UndottedKey | utils/create_mapped_mode_table.py:113-114 | a field without a dot is its own lookup key |
| MappedModeTable.DottedKey | utils/create_mapped_mode_table.py:113-114 | a dotted field's key is the text between its first dot and the next dot (or the end) |
| MappedModeTable.TaxonPrefixDropped | utils/create_mapped_mode_table.py:113-114 | `9606.ENSP1` is looked up as `ENSP1` |
| MappedModeTable.NewRow | utils/create_mapped_mode_table.py:127-131 | a minted mapping row has the id, the key under `map_index` and `None` in every other column |
| MappedModeTable.BuildNewRow | utils/create_mapped_mode_table.py:128-130 | the label loop builds exactly that row |
| MappedModeTable.ReadBackClean | utils/create_mapped_mode_table.py:79 | a written row whose last field does not end in white space comes back from `line.strip().split` with the fields it was written with |
| MappedModeTable.ReadBackHead | utils/create_mapped_mode_table.py:79 | a written row whose first field does not end in white space comes back with that first field |
| MappedModeTable.NewRowReadsBack | utils/create_mapped_mode_table.py:127-131 | a minted row comes back as written, with its key under `map_index`, when the key is not in the last column or does not end in white space |
| MappedModeTable.MintedRowReadsBack | utils/create_mapped_mode_table.py:124-132 | under that condition, reading a minted row back maps its key to its id and sets `max_id` and `num_cols` to its own |
| MappedModeTable.LastColumnKeyStripped | utils/create_mapped_mode_table.py:79-81 | a key minted into the last column reads back with its trailing white space removed, and the reload aborts on the missing column when nothing of the key is left |
| MappedModeTable.TrailingSpaceKeyLost | utils/create_mapped_mode_table.py:79-81 | after `3, A`, the key `B ` minted as 4 reloads as `B -> 4`, and `B ` is not in the mapping |
| MappedModeTable.Reconcile | utils/create_mapped_mode_table.py:98-137 | the main loop computes exactly the main-loop specification, or its first error |
| MappedModeTable.ReconcileLine | utils/create_mapped_mode_table.py:100-137 | one iteration of the main loop computes exactly one step of the main-loop specification, including the header skip and the missing key column |
| MappedModeTable.ResolveKey | utils/create_mapped_mode_table.py:121-132 | the id of a first-seen key is its mapped id, 0 under skip, or the next `max_id` with its new mapping row |
| MappedModeTable.MappedRows | utils/create_mapped_mode_table.py:113-137 | one pair of rows per distinct non-empty lookup key, written at its first line and never from the header line or a comment; the dataset row keeps the raw field and the other columns |
| MappedModeTable.ReusedIdsAndMergedDatasets | utils/create_mapped_mode_table.py:122-134 | a known key is written under its mapped id; each full row's dataset list is the old list, then `,`, then this dataset, or this dataset alone |
| MappedModeTable.SkipWritesZero | utils/create_mapped_mode_table.py:121-126 | with `skip`, nothing is appended and `max_id` stays; an unknown key is written under id 0 |
| MappedModeTable.MintedIdsConsecutive | utils/create_mapped_mode_table.py:124-132 | without `skip`, one id is minted per distinct new key; a new key gets `max_id + 1 + i` with the i-th appended row carrying that id and that key, and of two new keys the one first seen earlier gets the smaller id |
| MappedModeTable.MintedIdsAreFresh | utils/create_mapped_mode_table.py:124-126 | when `max_id` bounds every mapped id, minted ids are pairwise distinct and none is a mapped id |
| MappedModeTable.MappedFailure | utils/create_mapped_mode_table.py:113 | the main loop fails iff some record other than the first line lacks the key column, and it fails on the first one |
| MappedModeTable.HeaderLineIgnored | utils/create_mapped_mode_table.py:100-102 | whatever the first input line holds, the run is the same |
| MappedModeTable.Carried | utils/create_mapped_mode_table.py:138-140 | the carried entries are old ids not touched this run, with their old dataset lists, and every untouched visited id is among them |
| MappedModeTable.CarryForward | utils/create_mapped_mode_table.py:138-140 | the carry-forward loop yields exactly the carried entries |
| MappedModeTable.CarriedOnce | utils/create_mapped_mode_table.py:138-140 | with an order visiting each old id once, each untouched old id is carried exactly once |
| MappedModeTable.CarriedDistinct | utils/create_mapped_mode_table.py:138-140 | carried entries have pairwise distinct ids |
| MappedModeTable.CreateMappedModeTable | utils/create_mapped_mode_table.py:55-140 | the whole run computes exactly the specification: the two loads, the main loop and the carry-forward |
| MappedModeTable.FullTableHasEveryId | utils/create_mapped_mode_table.py:133-140 | every old id appears in the rewritten full table |
| MappedModeTable.CarriedUntouched | utils/create_mapped_mode_table.py:138-140 | carried entries are old ids absent from the main rows, with their old dataset lists |
| MappedModeTable.CarriedOncePerId | utils/create_mapped_mode_table.py:138-140 | each carried entry has an id of its own |
| MappedModeTable.CarryForwardKeepsEveryId | utils/create_mapped_mode_table.py:133-140 | touched ids have their lists merged; every other old id is carried forward once, with its old list |
| MappedModeTable.RowsReadBack | utils/create_mapped_mode_table.py:75-82 | mapping rows appended to a file that loads, each still giving a name under `map_index` once `strip()` has been applied, read back: the load still succeeds, each row maps that name to its id with later rows winning, and `max_id` and `num_cols` are the last row's as read back |
| MappedModeTable.WithRowsKeeps | utils/create_mapped_mode_table.py:81 | on reload, a name that no appended row gives keeps its old id |
| MappedModeTable.WithRowsLatest | utils/create_mapped_mode_table.py:81 | on reload, a row's name maps to that row's id when no later row gives the same name |
| MappedModeTable.AppendedRows | utils/create_mapped_mode_table.py:124-131 | when `map_index` is a label column and the new keys survive `strip()` (not the last column, or no new key ends in white space), the i-th appended row reads back with the i-th new key under `map_index` and carries `max_id + 1 + i` |
| MappedModeTable.KnownKeyReloaded | utils/create_mapped_mode_table.py:121-123 | under the same conditions, a key the mapping knew is given by no appended row, so it keeps its id on reload |
| MappedModeTable.NewKeyReloaded | utils/create_mapped_mode_table.py:124-131 | under the same conditions, a new key reads back with the id minted for it |
| MappedModeTable.ReloadedId | utils/create_mapped_mode_table.py:121-132 | under the same conditions, with the appended rows read back, every key that wrote a row maps to the id it was written with |
| MappedModeTable.ReloadedKeys | utils/create_mapped_mode_table.py:121-132 | under the same conditions, with the appended rows read back, every key of the input is in the mapping |
| MappedModeTable.SecondRunSameRows | utils/create_mapped_mode_table.py:99-137 | under the same conditions, the main loop run again on the same input with the reloaded mapping succeeds, mints and appends nothing, and writes the same dataset rows with the same ids |
| MappedModeTable.SecondRunReusesIds | utils/create_mapped_mode_table.py:55-140 | without `skip`, with `map_index` a label column and the new keys surviving `strip()`, running the script again on the same input, with the mapping file it appended to, gives every key its first-run id, appends nothing and writes the same dataset table |
| MappedModeTable.UnsortedMappingLoad | utils/create_mapped_mode_table.py:82 | mapping rows (3, A) then (2, B) leave `max_id` at 2 |
| MappedModeTable.MintAfterUnsortedLoad | utils/create_mapped_mode_table.py:124-126 | after that load, the unknown key C is minted as 3 |
| MappedModeTable.UnsortedMappingRepeatsAnId | utils/create_mapped_mode_table.py:122-126 | C is minted under the id that A already has |
| MappingTable.ReadSource | utils/create_mapping_table.py:19-29 | the loader loop computes the name mapping, or the first error |
| MappingTable.SourceNames | utils/create_mapping_table.py:21-29 | every non-comment line has both columns; the mapping holds exactly the names of the non-NULL pairs; `NULL` is never a name nor a mapped name |
| MappingTable.SourceLastPairWins | utils/create_mapping_table.py:29 | the last pair naming a name wins |
| MappingTable.ReadExisting | utils/create_mapping_table.py:31-45 | the loader loop computes the existing table, or the first error |
| MappingTable.ExistingRows | utils/create_mapping_table.py:41-43 | every row has an id and a name column; the row map holds exactly the rows' ids, each with the fields of the last row carrying it |
| MappingTable.ExistingNames | utils/create_mapping_table.py:44-45 | the name index holds exactly the non-`None` names, each with the id of the last row naming it, and every indexed id has a row |
| MappingTable.ExistingWidth | utils/create_mapping_table.py:42 | `num_fields` is the last row's width less one, or 0 without rows |
| MappingTable.ExistingTitle | utils/create_mapping_table.py:38-39 | the title is the last `#` line, and there is none without one |
| MappingTable.MaxOf | utils/create_mapping_table.py:46 | the maximum of a non-empty list is one of its elements and bounds them all |
| MappingTable.MaxCount | utils/create_mapping_table.py:46 | the max loop gives the largest id, or -1 for no ids |
| MappingTable.StartCountIsMax | utils/create_mapping_table.py:46 | whatever the listing order, `max_count` is an id bounding all ids, or -1 for none |
| MappingTable.Insert | utils/create_mapping_table.py:53-58 | `list.insert` adds one element: it sits at the index, or at the end when the index is past it, and removing it gives back the old list |
| MappingTable.TitleLine | utils/create_mapping_table.py:61-62 | the title line begins with `#Mambo_id` and a tab |
| MappingTable.BuildTitle | utils/create_mapping_table.py:49-62 | the in-place title edits give exactly the title line of the placed titles |
| MappingTable.TitlesAtFront | utils/create_mapping_table.py:50-60 | the first title lands in place 0 and the second in place 1, except with one old title field and the name column not first, where the old field sits between them; later old fields stay |
| MappingTable.DefaultTitles | utils/create_mapping_table.py:15-16 | without given titles or an old title line, the titles are `Index1` and `Index2` |
| MappingTable.Nones | utils/create_mapping_table.py:75 | `[NONE] * n` has length n and holds only `None` |
| MappingTable.NewTerms | utils/create_mapping_table.py:73-77 | a new row exists iff both columns fit its width; it holds the mapped name at `index2`, the name at `index1` (when distinct) and `None` elsewhere; otherwise IndexError |
| MappingTable.FillRow | utils/create_mapping_table.py:78-82 | a short row gets the mapped name appended; a `None` at `index2` becomes the name; other fields stay |
| MappingTable.MergeNames | utils/create_mapping_table.py:64-86 | the main loop computes exactly the main-loop specification, or its first error |
| MappingTable.MergeName | utils/create_mapping_table.py:65-86 | one iteration of the main loop computes exactly one step of the main-loop specification: known names fill their old row, unknown names get a fresh id and a new row |
| MappingTable.KnownNamesKeepTheirIds | utils/create_mapping_table.py:64-68 | one row per name, in visiting order; a known name keeps its existing id |
| MappingTable.NewIdsFollowTheLargest | utils/create_mapping_table.py:69-71 | the q-th unknown name gets `max_count + 1 + q`, above every existing id, starting from 0 for an empty table |
| MappingTable.NewRowsShape | utils/create_mapping_table.py:72-77 | an unknown name's row is `None` except its two columns, with the width the existing rows call for (2 for an empty table) |
| MappingTable.KnownRowsFilled | utils/create_mapping_table.py:78-82 | the first name of a known id writes that id's row filled: non-`None` fields stay, only the mapped-name column changes or the row grows; an empty row is replaced by a new one |
| MappingTable.MainFailure | utils/create_mapping_table.py:69-77 | the main loop fails exactly when some name needs a new row (it is unknown, or its id's row is empty) and the new-row width misses `index1` or `index2`; the error is then that too-short row's IndexError |
| MappingTable.Carried | utils/create_mapping_table.py:88-95 | the carried rows are untouched existing rows, padded by one `None` when too short, and every untouched visited id is among them |
| MappingTable.CarryForward | utils/create_mapping_table.py:88-95 | the carry-forward loop yields exactly the carried rows |
| MappingTable.CarriedDistinct | utils/create_mapping_table.py:88-89 | carried rows have pairwise distinct ids |
| MappingTable.CarriedRowsUntouched | utils/create_mapping_table.py:88-95 | carried rows are the untouched existing rows, each once, padded, and none shares an id with a main-loop row |
| MappingTable.EveryIdWritten | utils/create_mapping_table.py:64-95 | every existing id is written again, under a name or carried forward |
| MappingTable.CreateMappingTable | utils/create_mapping_table.py:10-96 | the whole run computes exactly the specification: the loads, the title, the main loop and the carry-forward |
| MappingTable.OnePairLoads | utils/create_mapping_table.py:19-29 | source line `A, X` loads as `A -> X` |
| MappingTable.OneRowLoads | utils/create_mapping_table.py:31-45 | the row `5, A, None` loads as that row, with A indexed under 5 |
| MappingTable.OneNameFillsItsRow | utils/create_mapping_table.py:64-86 | the main loop fills row 5 as `A, A` |
| MappingTable.NoneSlotGetsTheName | utils/create_mapping_table.py:80-82 | row `5, A, None` meeting pair `A -> X` is written as `5, A, A`: the slot gets the name, not `X` |

## Left out

- File I/O is left out. Inputs are sequences of already-split lines and outputs are lists of rows. The comment test reads each raw line's first character. Nothing is written as text except the mapping table's title line.
- File modes are left out: append versus truncate. What a run that aborts leaves in a file is not modelled either. For example, `create_mapping_table` opens its output with `"w"` (utils/create_mapping_table.py:48), so an error in the main loop leaves the file empty.
- An absent full mode table or mapping table is modelled as an empty one. The `os.path.isfile` test is left out.
- The command-line parsing under `__main__` is left out, along with the default file names, `os.path.join` and the generation dates.
- The `verbose` prints and the debug `print` at utils/create_mapping_table.py:81 are left out. They are output only.
- `utils.py` is not part of this model. Its helpers become inputs:
  - `get_max_id` becomes the `start` parameter;
  - `read_mode_file` becomes the two mode maps;
  - `get_filter` becomes optional filter functions;
  - `split_then_strip` and `strip().split` become pre-split fields;
  - `parse_dataset_id_from_name` and `parse_mode_name_from_name` become dataset ids given as inputs.
- `os.path.samefile` is left out. Whether the two mode tables are one file is a boolean input.
- utils/network_utils.py and the example dataset filter are not part of this model. They are not table builders.
- Python 2 dictionary iteration order is not modelled. `order`, `fullOrder` and `uidOrder` are any orders that visit each key once. The lemmas hold for every such order.
- The rows' text formatting (`'%d%s%s'`, joining with tabs) is not modelled. Rows are kept as values. The one exception is a mapping row the mapped reconciler appends: the next load's `line.strip().split` of it is modelled on its fields (`ReadBack`), on the assumption that no field holds a tab, since every key comes from a line split on tabs.
- Python's `int()` is modelled on ASCII digits with an optional sign and surrounding white space. Underscores, Unicode digits and other bases are not modelled.
- The mapping merger's output indices are natural numbers, so Python's negative list indices for `output_index1` or `output_index2` are not modelled. The titles are strings, not parsed as integers the way the command line does.
- MappedModeTable.SecondRunReusesIds: the round trip is proved under three conditions, so it is not promised for every input.
  - `skip` is off. With `skip`, nothing is appended and the second run repeats the first; this is not stated as a lemma.
  - `map_index` is a label column of the mapping rows, that is `1 <= map_index < num_cols` after the first load. With an empty mapping file `num_cols` is 0, so the minted rows hold only their ids, and the reload aborts on the missing column at utils/create_mapped_mode_table.py:81.
  - The new keys survive the reload's `line.strip()` (utils/create_mapped_mode_table.py:79): `map_index` is not the last column, or no new key ends in white space. Otherwise a key such as `B ` reloads as `B` (MappedModeTable.TrailingSpaceKeyLost), so the second run mints it again and may overwrite an older name `B`. A key of white space alone makes the reload abort (MappedModeTable.LastColumnKeyStripped).
- MappedModeTable.MintedRowReadsBack, MappedModeTable.RowsReadBack, MappedModeTable.SecondRunReusesIds: these assume the mapping file ends in a newline. Otherwise append mode (utils/create_mapped_mode_table.py:90) joins the first appended row to the file's last line. The model appends rows as separate lines.
- MappingTable.KnownRowsFilled: this lemma covers only the first name that reaches a given known id. Later names sharing that id write a fresh copy of the row as filled by the earlier names. Their fields are not characterised beyond the row counts and ids in MappingTable.KnownNamesKeepTheirIds.
- MappingTable.MainStep aliases the row list: `uid_other_map[counter]` may be mutated in place while the loop runs. The model expresses this by value, with `others[counter := terms]`. Object identity is not modelled.
