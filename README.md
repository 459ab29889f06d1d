# API-Football parser: a Dafny model of its table pipeline

`APIParser` (`api_parser.py`) pulls football data from the API-Football
service and turns each JSON `response` list into a pandas DataFrame. This
project models the data path that turns those responses into tables, and
proves properties of it:

- **Normalising.** `pd.json_normalize` on a `response` list
  (`get_response_df`, lines 25-30) gives one row per record. Each leaf of a
  nested object becomes a column named by its key path joined with `.`. A list
  is a leaf and stays whole in one cell. Top-level leaves come first, and the
  flattened nested ones follow (module `Normalize`, built on the dict model in
  `Dicts`).
- **Renaming.** `replace_period` (lines 21-23) replaces every `.` in the
  column names with `_` (module `Rename`).
- **Concatenation.** `pd.concat(frames)` along the rows takes the union of the
  column names in order of first appearance. Each frame's rows are laid out
  under that union by name, and a missing cell becomes NaN (`Missing`)
  (modules `Tables` and `Concat`).
- **Per-season tables.** `get_all_teams` and `get_all_fixtures_info` (lines
  45-69) do the same steps for every season of the league: normalise the
  response, insert `season` (as an integer) and `league_id` as the first two
  columns, stack the season tables, then rename (module `Seasons`). The loop
  that collects the frames is the method `Seasons.CollectSeasons`.
- **Raw fixture statistics.** `get_df_stats_raw` (lines 71-94) cuts the
  fixture ids into batches of 20 and joins each batch with `-` (module
  `Chunker`). `process_fixtures` normalises a batch, renames it and keeps six
  columns. The batches are folded into an accumulator in the order they
  complete; that order is an input, any permutation of the batches (module
  `Stats`; the loop is the method `Stats.GetDfStatsRaw`).
- **Decomposing nested lists.** `json_decomposer` (lines 269-283) explodes
  every row of a table along the list held in one column. Each element is
  meant to become a row that holds the row's carried columns beside the
  element's flattened fields. The per-row frames are concatenated and
  renamed. A table without rows gives `None`. Line 274, though, pairs the
  carried frame with the element frame by row label, not by position. The
  carried frame bears the source row's label on every row, and the element
  frame is labelled `0 .. n-1`. The two agree only for an empty list, or a
  one-element list in the row labelled 0 (see Findings). Module
  `Decomposer` models both behaviours:
  - `ExplodeRowAsWritten` and `DecomposeAsWritten` align by label, as line
    274 does;
  - `ExplodeRow`, `Decompose` and the method `Decomposer.JsonDecomposer`
    give the positional explode the method is evidently meant to perform.
  The lemmas about the result are stated for the positional explode. A
  table's row labels are taken to be its positions, as they are for every
  frame the callers pass (each comes from `json_normalize` or
  `reset_index`).

The Python exceptions on these paths are values of `Tables.Error`:

- a `KeyError` from a missing label;
- a repeated label where one value is needed;
- a cell under the exploded column that is not a list: a `TypeError` from
  `len()` for NaN, `None` or a number, a `NotImplementedError` from
  `json_normalize` for a string;
- a list element that is not an object;
- a `ValueError` from `insert` of an existing column;
- a `ValueError` from concatenating no frames;
- an `InvalidIndexError` from aligning frames whose own labels (column
  names, or row labels at line 274) repeat.

Where pandas versions differ, the model follows pandas 1.x.

Each operation returns either its result or the error it raises.

## Model

| member | source | states |
|---|---|---|
| Rename.ReplaceDots | api_parser.py:22 | the new name has the old name's length; each character is the old one, with every `.` turned into `_` |
| Rename.ReplaceDotsSpec | api_parser.py:22 | a renamed name holds no `.`; renaming leaves a name unchanged exactly when it holds no `.`; renaming twice is the same as renaming once |
| Rename.ReplacePeriod | api_parser.py:21-23 | the rows are unchanged; there are as many columns as before, each the old name with its dots replaced |
| Rename.ReplacePeriodSpec | api_parser.py:21-23 | the result is dot-free and keeps the rows and rectangularity; its names are exactly the old names renamed; applying it twice is the same as once; it is the identity on a dot-free table |
| Rename.ReplacePeriodNames | api_parser.py:22 | a name is a column of the renamed table exactly when it is the renaming of an old column |
| Dicts.Put | api_parser.py:29 | dict assignment: the key now maps to the value; an existing key keeps its place and a new key goes last; every entry under another key is unchanged; distinct keys stay distinct; nothing else is added |
| Dicts.PutKeeps | api_parser.py:29 | one more assignment keeps the dict's keys in order of first insertion and keeps, for every key, the value of its last assignment |
| Dicts.Build | api_parser.py:29 | a dict filled from pairs has distinct keys, exactly the keys of the pairs, and holds only pairs that were assigned |
| Dicts.BuildOrder | api_parser.py:29 | the dict filled from pairs lists its keys in the order each first appears and holds for each key the value of its last pair |
| Dicts.BuildOfDistinct | api_parser.py:29 | pairs whose keys are already distinct make the dict that holds exactly those pairs in order |
| Normalize.FlattenRecord | api_parser.py:29 | a record becomes a flat row (distinct names, no object in any cell) whose columns are exactly the names of the record's leaves, each pair being one of those leaves |
| Normalize.FlatIsFixed | api_parser.py:29 | a record that is already flat normalises to itself |
| Normalize.FlattenIdempotent | api_parser.py:29 | normalising a normalised record changes nothing |
| Normalize.FlattenExact | api_parser.py:29 | when no two leaf paths collide, the flat row is exactly the list of leaves: top-level leaves first, then the nested ones |
| Normalize.LeafBecomesColumn | api_parser.py:29 | every leaf reachable by a key path becomes a column named by the dotted path; when no paths collide, that column holds that leaf |
| Normalize.ColumnIsLeafPath | api_parser.py:29 | conversely, in a record without repeated keys (as every decoded JSON object is), every column of the flat row is the dotted key path of a leaf, and holds the leaf found along that path |
| Normalize.ColumnsOfSpec | api_parser.py:29 | the table's columns name every key of every flat row and nothing else, with no name twice |
| Normalize.CellOfSpec | api_parser.py:29 | a cell is present exactly when the row has that column, and then holds the row's value under it (NaN otherwise) |
| Normalize.JsonNormalizeShape | api_parser.py:25-30 | one row per record, every row as wide as the columns, no repeated column, columns exactly the names some record's flat row has, and the empty frame for an empty list |
| Normalize.JsonNormalizeCell | api_parser.py:25-30 | the cell of record i under column j is present exactly when that record's flat row has the column, and then holds that record's value for it |
| Tables.Union | api_parser.py:54 | the union of column names starts with the first list unchanged and contains exactly the names of either list, with no name twice when neither list repeats one |
| Tables.RealignByName | api_parser.py:54 | a row laid out under the combined columns holds, at each column, its own cell of that name, or NaN when it has none |
| Tables.FirstMissing | api_parser.py:85 | none exactly when every requested name is a column; otherwise a requested name that is not a column |
| Tables.ProjectSpec | api_parser.py:85 | `df[names]` fails exactly when some name is not a column; otherwise it keeps every row and exactly the requested names, and without repeated columns it has those names in order, cell for cell |
| Tables.ProjectColumns | api_parser.py:85 | every requested name is a column of the selection, and the selection has no other name |
| Tables.ProjectDistinct | api_parser.py:85 | without repeated columns, the selection's columns are the requested list, and each cell is the source row's cell under that name |
| Concat.UnionAll | api_parser.py:54 | the combined columns are exactly the names of some frame, with no name twice when no frame repeats a name |
| Concat.UnionAllPrefix | api_parser.py:54 | the combined columns start with the first frame's columns, in order |
| Concat.StackRowsSpec | api_parser.py:54 | stacking succeeds exactly when every frame can be aligned; it then has as many rows as all frames together, each as wide as the combined columns |
| Concat.StackRowsAt | api_parser.py:54 | row k of frame i lands at the number of rows of the earlier frames plus k, realigned under the combined columns |
| Concat.ConcatAllSpec | api_parser.py:54 | `pd.concat` succeeds exactly when there is a frame and every frame can be aligned; the result has the combined columns, the rows of all frames, and is rectangular and free of repeated columns when the frames are |
| Concat.ConcatAllAt | api_parser.py:54 | row k of frame i appears after the rows of the earlier frames, laid out under the result's columns |
| Concat.ConcatAllDistinct | api_parser.py:54 | frames without repeated column names always concatenate |
| Concat.ConcatCellAt | api_parser.py:54 | the cell of frame i, row k, column x reappears at its shifted row, under the result's column of the same name |
| Concat.CollectErr | api_parser.py:48-53 | once a frame fails, the collecting loop's result is that error |
| Concat.CollectOk | api_parser.py:48-53 | collecting succeeds exactly when every frame does, and then yields each frame in order |
| Concat.ConcatPairIsConcatAll | api_parser.py:92 | concatenating `[a, b]` is the general concatenation of that two-element list |
| Concat.ConcatPairSpec | api_parser.py:92 | `pd.concat([a, b])` succeeds exactly when both frames can be aligned; it has the union of the columns, the rows of `a` (realigned) then those of `b`, and keeps rectangularity |
| Concat.LabelUnion | api_parser.py:274 | the union of two row indexes without sorting: the first index unchanged, then labels of the second it lacks; exactly the labels of either, none twice when neither repeats one |
| Concat.ConcatColumnsByLabel | api_parser.py:274 | `pd.concat([a, b], axis=1)` for frames as long as each other, `b` uniquely labelled: fails exactly when the indexes differ and `a`'s repeats a label; otherwise the columns of `a` then those of `b` |
| Concat.ConcatColumnsByLabelRows | api_parser.py:274 | the rows are indexed by the union of the labels, none twice; the row bearing a label holds `a`'s row with that label beside `b`'s, NaN standing in for a frame without it, also when equal indexes pair rows by position |
| Concat.ConcatColumnsDisjointRows | api_parser.py:274 | two one-row frames labelled differently give two rows, each frame's cells beside NaN for the other's columns |
| Concat.ConcatOntoEmpty | api_parser.py:92 | concatenating a frame onto the empty frame gives the frame itself |
| Concat.ConcatSameColumns | api_parser.py:92 | frames with the same columns concatenate to their rows one after the other, under those columns |
| Chunker.ChunksShape | api_parser.py:72-73 | the batches put back together give the ids; every batch is non-empty and at most the batch size, and all but the last are full; there is no batch exactly when there are no ids |
| Chunker.ChunksSpec | api_parser.py:72-73 | the same partition facts, with the batch count bounded by `(n-1)*size < len <= n*size` |
| Chunker.BatchCount | api_parser.py:72-73 | the number of batches is the ceiling of the number of ids divided by 20 |
| Chunker.ChunkAt | api_parser.py:72-73 | batch k is the slice of the ids from its start offset to the next start offset, cut at the end of the list |
| Chunker.ChunkIsSlice | api_parser.py:72-73 | batch k is `ids[k*size : (k+1)*size]`, as the comprehension slices it |
| Chunker.ParseNatToString | api_parser.py:73 | reading back the decimal string of a number gives the number |
| Chunker.SplitJoin | api_parser.py:73 | splitting a `-`-joined list of dash-free parts gives back the parts |
| Chunker.BatchQueryRoundTrip | api_parser.py:73 | a batch query string splits back into one decimal string per id, each of which reads back as that id |
| Chunker.BreakdownListSpec | api_parser.py:72-73 | `breakdown_list` has one entry per batch; entry k decodes to exactly the ids of slice `[20k, 20k+20)` |
| Seasons.SeasonListYears | api_parser.py:17 | `int(season)` on each entry of the season list gives back its year |
| Seasons.TagSeasonSpec | api_parser.py:51-52 | the two inserts succeed exactly when neither name is a column yet; otherwise `season` fails first, then `league_id`; on success the table is the tagged one |
| Seasons.TagShape | api_parser.py:51-52 | the tagged table has `league_id`, `season`, then the old columns; every row is the league cell, the season cell, then the old row; rectangularity and distinct names are kept |
| Seasons.NormalizedShape | api_parser.py:50 | each season's normalised table is well formed, and the tables of the first m seasons have as many rows as their responses have records |
| Seasons.TaggedConcat | api_parser.py:54 | untagged well-formed season tables always stack; the result has the rows of all seasons, is rectangular, and starts with `league_id` and `season` |
| Seasons.StackSeasonsOut | api_parser.py:48-55 | the method succeeds exactly when every insert succeeds and the tagged frames concatenate; its result is the renamed concatenation |
| Seasons.StackSeasonsSpec | api_parser.py:45-56 | without seasons the concatenation fails; otherwise the result exists exactly when no season table already has a provenance column; it then has the rows of all seasons, is rectangular, has no dot in any name, starts with `league_id`, `season`, and its columns are exactly those two and the renamed columns of the season tables |
| Seasons.StackSeasonsColumns | api_parser.py:45-56 | the stacked, renamed table's columns are exactly `league_id`, `season` and the renamed columns of the season tables |
| Seasons.StackSeasonsAt | api_parser.py:45-56 | record k of season i sits after the rows of the earlier seasons, with the league id and that season in its first two cells, and its own cell under the renamed name of its column |
| Seasons.AllSeasonsSpec | api_parser.py:45-69 | from the raw responses: no seasons fails; otherwise the result exists exactly when no normalised response has a provenance column; it then has one row per record of all responses, is rectangular and dot-free, starts with `league_id`, `season`, and its columns are exactly those two and the renamed columns of the normalised responses |
| Seasons.AllSeasonsAt | api_parser.py:45-69 | record k of season i's response is row `records before + k`: league id, season, then each normalised cell under its renamed column |
| Seasons.StackSeasonsDuplicate | api_parser.py:64-68 | when a season table has a `league.id` column, the renamed result has two columns named `league_id` |
| Seasons.DuplicateLeagueId | api_parser.py:58-69 | the fixtures endpoint's `league.id` leaf therefore gives `get_all_fixtures_info` a repeated `league_id` column |
| Seasons.TagEach | api_parser.py:48-53 | the loop over seasons yields the tagged frames in season order, or the first insert error |
| Seasons.CollectSeasons | api_parser.py:45-69 | the whole method: the loop, the concatenation and the renaming produce what the season-stacking function specifies |
| Stats.ProcessFixturesSpec | api_parser.py:76-85 | a batch fails with a KeyError naming one of the six columns the renamed table lacks, and succeeds exactly when all six are present; it then has one row per record and exactly the six names, and when clean, in order with each record's cell |
| Stats.PermutationSplit | api_parser.py:89-90 | the last batch occurs in any completion order, and removing it leaves a completion order of the others |
| Stats.RowsOfPermutation | api_parser.py:90 | the rows gathered in any completion order are a permutation of the rows gathered in submission order |
| Stats.FoldShape | api_parser.py:90-92 | if the fold from position i succeeds, every batch taken succeeded; the result has the accumulator's rows plus those of the batches taken, exactly their columns and the accumulator's, and stays rectangular |
| Stats.FoldSameColumns | api_parser.py:90-92 | when every batch has the accumulator's columns, the fold appends their rows in completion order under those columns |
| Stats.FoldAll | api_parser.py:87-92 | a successful fold from the empty frame means every batch succeeded; it has as many rows as all batches and exactly the columns some batch has |
| Stats.TakenInAnyOrder | api_parser.py:87-92 | taking the batches in a completion order covers every batch: the same successes, the same columns and the same number of rows as submission order |
| Stats.FoldAllSame | api_parser.py:87-92 | when every batch has the same columns, the fold succeeds, has those columns, and its rows are a permutation of all batches' rows |
| Stats.BatchesShape | api_parser.py:82-85 | a batch that succeeds has one row per fetched record, and every batch table is rectangular |
| Stats.CleanBatchColumns | api_parser.py:85 | clean, successful batches all have exactly the six columns in the listed order |
| Stats.StatsRawSpec | api_parser.py:71-94 | no ids gives the empty frame; a result means every batch succeeded; it has one row per fetched record, exactly the columns some batch has, and is rectangular |
| Stats.StatsRawClean | api_parser.py:71-94 | when every batch is clean and succeeds, the result exists, has the six columns (none without ids), and its rows are a permutation of all batches' rows |
| Stats.StatsRawOrderFree | api_parser.py:87-92 | two completion orders give results with the same column names and row count; with clean batches, the same columns and the same rows up to order |
| Stats.GetDfStatsRaw | api_parser.py:71-94 | the loop over completed futures, which stops at the first error, produces what the fold function specifies |
| Decomposer.FirstAmbiguousSpec | api_parser.py:272 | no carried label is ambiguous exactly when the carried labels are distinct and none occurs twice among the columns |
| Decomposer.ObjectsSpec | api_parser.py:273 | a list's elements are taken as records exactly when all are objects, and then each element is its record |
| Decomposer.ExplodeRowOk | api_parser.py:272-274 | a row explodes exactly when every carried name is a column and the row holds a list; for a non-empty list, also when no carried label repeats and every element is an object |
| Decomposer.ExplodeRowShape | api_parser.py:272-274 | an exploded row has one row per list element and is rectangular; an empty list gives the empty frame; otherwise it has the carried names then the element columns, and element k's row is the row's carried cells then element k's normalised cells |
| Decomposer.Decompose | api_parser.py:269-283 | `None` exactly when the table has no rows; a produced table has no dot in any column name |
| Decomposer.StackIsConcat | api_parser.py:276-277 | for a table with rows, stacking succeeds exactly when every row explodes and the frames concatenate, and its result is that concatenation |
| Decomposer.FrameRowCount | api_parser.py:272-274 | an exploded row's frame has one row per element of its list |
| Decomposer.FramesRowCount | api_parser.py:271-277 | the frames of the first m rows together have as many rows as those rows have list elements |
| Decomposer.DecomposeSpec | api_parser.py:269-283 | the method succeeds exactly when every row explodes and, given rows, the frames concatenate (always so when no frame repeats a name); it then has one row per list element, is rectangular, and its columns are the combined frame columns renamed |
| Decomposer.DecomposeOut | api_parser.py:276-280 | a successful result is the renamed concatenation of the per-row frames |
| Decomposer.DecomposeRowAt | api_parser.py:271-277 | element k of row i becomes the output row after all elements of earlier rows, realigned under the combined columns |
| Decomposer.SideBySideCellAt | api_parser.py:274 | after realignment, a carried column holds the row's carried cell and an element column holds the element's cell |
| Decomposer.DecomposeCellAt | api_parser.py:269-280 | in the output row of element k of row i, each carried column holds that row's value and each element column holds the element's normalised value, under the renamed name |
| Decomposer.ExplodeRowAsWrittenAgrees | api_parser.py:272-274 | as written, an empty list, or a one-element list in the row labelled 0, gives the positional frame |
| Decomposer.ExplodeRowAsWrittenRaises | api_parser.py:272-274 | as written, a list of two elements or more always raises, with `InvalidIndexError` when the row is otherwise well formed |
| Decomposer.ExplodeRowAsWrittenSplits | api_parser.py:272-274 | as written, a one-element list in a row not labelled 0 gives two rows (carried cells beside NaN, NaN beside the element's cells) where the positional frame has one row holding both |
| Decomposer.DecomposeAsWrittenRaises | api_parser.py:269-277 | as written, a table with any row whose list holds two elements or more makes the method raise |
| Decomposer.DecomposeAsWrittenAgrees | api_parser.py:269-283 | as written, the result is the positional one when every list is empty except possibly a one-element list in the first row |
| Decomposer.DecomposeAsWrittenSplitsRows | api_parser.py:269-283 | as written, n rows each holding a one-element list give 2n-1 rows, where the positional result has n |
| Decomposer.ExplodeEach | api_parser.py:270-275 | the loop over rows collects one frame per row in row order, or stops with the first row's error |
| Decomposer.JsonDecomposer | api_parser.py:269-283 | the whole method: loop, concatenation, renaming and the `None` for no frames produce what the decompose function specifies |

## Left out

- HTTP, the session, the headers and the API key (lines 7-16 and the `session.get` calls): each response's decoded `response` list is a parameter. In `get_df_stats_raw` the responses come from a deterministic function from query string to records.
- The constructor's bootstrap (lines 17-19): the season list and the fixture ids are parameters. `get_all_seasons`, `get_all_countries` and the other endpoint methods after line 94 are not part of this model.
- The thread pool (`ThreadPoolExecutor(max_workers=5)`) and the progress bars (`tqdm`): the batches are modelled as independent values. `as_completed` is modelled by a completion order, which is any permutation of the batches.
- The `print` in `json_decomposer` (line 282): output only; the returned `None` is modelled.
- Floating-point and other non-integer JSON numbers: scalars are null, booleans, integers and strings. NaN exists only as a `Missing` cell.
- Seasons.SeasonCell: `int(season)` is modelled on decimal strings. A season string that is not decimal would raise `ValueError`; the season list is built from the API's integer years, so it never holds one.
- Column dtypes and any column order pandas sorts rather than keeps are not modelled. Row labels are modelled only where line 274 aligns by them (`Decomposer.ExplodeRowAsWritten`, taking each row's label to be its position). Everywhere else, rows are positional, as `reset_index(drop=True)` and `ignore_index=True` leave them.
- Decomposer.ExplodeRow: a cell under the exploded column that is not a list raises `NotAList`. This includes NaN and a dict. For a dict, pandas would use the number of keys as the repeat count and normalise the dict as one record, which misaligns the frame.
- Decomposer.ExplodeRow: a string under the exploded column is also `NotAList`. In pandas `len()` accepts it and `json_normalize` then raises `NotImplementedError`: an error either way, of another kind.
- Decomposer.ExplodeRow: a carried label that repeats, in the carried list or among the columns, is the error `AmbiguousColumn` when the list is not empty. pandas would carry every copy.
- Decomposer.ExplodeRow: a list element that is not an object is the error `NonObjectElement`. pandas does not check this, and what `json_normalize` makes of such an element is not modelled.
- Decomposer.Decompose: follows pandas 1.x, where a frame built from no data has string-typed column labels. Under pandas 2.x, when every row's list is empty the concatenated frame's columns are an empty `RangeIndex`, and `.str.replace` at line 278 raises `AttributeError`; the model returns the empty table.
- Stats.ProcessFixturesSpec: follows pandas 1.x. Under pandas 2.x an empty batch response has a `RangeIndex` for columns, so line 83 raises `AttributeError` before the `KeyError` of line 85 that the model gives.
- Decomposer.ExplodeRowOk: states the positional explode evidently meant at line 274. As written, rows are paired by label, which raises on a list of two elements or more (see Findings; `Decomposer.ExplodeRowAsWrittenRaises`).
- Decomposer.ExplodeRowShape: states the positional frame. As written, a one-element list in a row not labelled 0 gives two rows (`Decomposer.ExplodeRowAsWrittenSplits`).
- Decomposer.FrameRowCount: counts the rows of the positional frame; the as-written counts are in `Decomposer.AsWrittenFrameRows` and `Decomposer.DecomposeAsWrittenSplitsRows`.
- Decomposer.FramesRowCount: counts the rows of the positional frames, for the same reason.
- Decomposer.DecomposeSpec: states the positional result; as written the method raises or adds rows (see Findings).
- Decomposer.DecomposeRowAt: places element rows as the positional explode does; as written they are placed only when the lists are empty or the first row alone holds one element (`Decomposer.DecomposeAsWrittenAgrees`).
- Decomposer.SideBySideCellAt: describes the positional side-by-side frame, not the label-aligned one of line 274.
- Decomposer.DecomposeCellAt: states the cells of the positional result, for the same reason.
- Decomposer.LabelValue: a label that occurs twice where one value is needed is the error `AmbiguousColumn`. In pandas, `row[label]` then returns a Series and the result depends on the lengths involved.
- Concat.Aligned: concatenating frames whose own column names repeat fails with `CannotAlign` unless the frame already has exactly the combined columns. pandas raises `InvalidIndexError` on those cases.
- Concat.UnionAll: a column name that a frame repeats is added as often as that frame has it when no earlier frame has it, and not at all otherwise. pandas' multiplicity in these cases is not modelled; such frames fail with `CannotAlign` unless their columns are exactly the combined ones.

## Findings

| source | as written | input that shows it | evidently intended | confidence | as-written member | corrected member |
|---|---|---|---|---|---|---|
| api_parser.py:272-274 | the carried frame `pd.DataFrame([row[left_cols]] * n)` bears the source row's label on all its rows, the element frame is labelled `0 .. n-1`, and `pd.concat(axis=1)` pairs them by label | a row holding the list `[{"x": 0}, {"x": 1}]` raises `InvalidIndexError`; a table of two rows each holding `[{"x": 0}]` gives 3 rows instead of 2 | each list element on one row beside the source row's carried cells, paired by position | not executed; rests on pandas labelling a frame built from Series by their names | Decomposer.DecomposeAsWritten, with Decomposer.DecomposeAsWrittenRaises and Decomposer.DecomposeAsWrittenSplitsRows | Decomposer.Decompose, with Decomposer.DecomposeSpec |
