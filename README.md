# Merging and cleaning structural-variant call tables

A Dafny model of two post-processing scripts of a structural-variant caller, with proofs
about it.

- `merge_samples` (script/merge_files.py) merges the per-sample call tables of a directory
  into one table. It takes the files whose names end with the extension, in sorted order. The
  sample is the part of the file's base name before the first underscore. Each table is read
  as text cells. A table without an `inserted_seq` column gets `inserted_seq` and
  `contig_sequence` filled with "-". Every row gets its sample in the `sample` column. The
  columns are reindexed to the 28 canonical columns. The script writes each row whose
  `status` is not a false call: "F" or "aF" by default, only "F" in normal-tissue mode.
- script/update_bps.py cleans the breakpoint table. It reads the false-call listing and
  splits each line at "_". Tokens 0, 1, 2 and tokens 0, 3, 4 each give a key for a
  blocklist. It then copies every breakpoint line whose fields 2, 3 and 4, joined with "_",
  are not on the blocklist.

Modules:

- `Common` (common.dfy): `Option`, subsequences, `MapSeq`, `Flatten`.
- `Strings` (strings.dfy): Python's `str.rstrip()` (with the Python 3 whitespace set),
  `split` at one character, `join`, string ordering and suffix matching, with their laws.
- `Sorting` (sorting.dfy): Python's `sorted` on file names, as an insertion sort.
- `MergeFiles` (merge_files.dfy): the merge script.
  - Reference functions: `NormalizeRow`, `KeptRows`, `FileRows`, `CollectedRows`,
    `MergeOutput`.
  - A `DataFrame` class whose fields the column assignments update, as the script does to its
    pandas frame.
  - The imperative methods `WriteKeptRows`, `WriteFile`, `WriteFiles` and `MergeSamples`,
    each proved equal to the reference functions.
- `MergeProperties` (merge_properties.dfy): properties of whole merge runs.
- `UpdateBps` (update_bps.dfy): the cleaning script.
  - Reference functions: `Blocklist`, `FilterLines`, `UpdateOutput`.
  - The loops `BuildBlocklist` and `RemoveFalsePositives` and the script `UpdateBreakpoints`,
    proved equal to those functions, with the lemmas about them.

Environment the model takes as parameters:

- The directory listing is a `seq<string>` of names.
- The readable files are a map from name to `Frame`: the column names and the rows of text
  cells that the table reader returns. A name missing from the map is a file that cannot be
  read.
- The output file is the sequence of lines written to it.
- For the cleaning script, both input files are their sequences of lines, terminators
  included.

Facts about the code that the model follows:

- The canonical header at script/merge_files.py:20-23 lists 28 columns.
- A canonical column that a file does not have is filled by the reindex with NaN, which
  `str` prints as `nan`. The model writes "nan" (`MergeFiles.Str`).
- The command line rejects an empty extension (script/merge_files.py:65), but
  `merge_samples` itself does not check it. The model accepts an empty extension, which
  matches every name.
- When a file cannot be read, the output file is already open and the lines written so far
  stay in it. The model returns those lines with `failed` set.

## Model

| member | source | states |
|---|---|---|
| MergeFiles.MatchingFiles | script/merge_files.py:16-18 | each listed name with the extension occurs as often as in the listing; other names do not occur |
| MergeProperties.MergedFilesMembers | script/merge_files.py:16-28 | a name is merged exactly when it is listed and ends with the extension |
| MergeProperties.MatchingFilesPermutation | script/merge_files.py:16-18 | listings with the same multiset of names match the same multiset of files |
| Sorting.Sort | script/merge_files.py:28 | the files are processed in ascending string order, as a permutation of the matching names |
| Sorting.SortedUnique | script/merge_files.py:28 | two sorted permutations of the same names are equal, so the order is fully determined |
| Sorting.SortIgnoresInputOrder | script/merge_files.py:28 | sorting gives the same sequence whatever the order of its input |
| Sorting.InsertSorted | script/merge_files.py:28 | inserting a name into a sorted sequence keeps it sorted |
| Sorting.InsertAdds | script/merge_files.py:28 | inserting adds exactly that name |
| Strings.LexLeTotal | script/merge_files.py:28 | any two names are ordered one way or the other |
| Strings.LexLeAntisymmetric | script/merge_files.py:28 | names ordered both ways are equal |
| Strings.LexLeTransitive | script/merge_files.py:28 | the string order is transitive |
| Strings.LexLeReflexive | script/merge_files.py:28 | every name is ordered with itself |
| MergeProperties.MergeOutputIgnoresListingOrder | script/merge_files.py:17-28 | the output does not depend on the order in which the directory lists its entries |
| MergeFiles.Basename | script/merge_files.py:30 | the base name is a separator-free suffix of the path; with a drive prefix (any character followed by ':') it lies after the prefix and is what follows it or a separator, otherwise it is the whole path or follows a separator |
| MergeFiles.AfterLastSeparator | script/merge_files.py:30 | the text after the last '/' or '\\' is a separator-free suffix that follows a separator or is the whole path |
| MergeFiles.SampleOf | script/merge_files.py:30 | the sample is the base name up to, not including, its first underscore, or the whole base name |
| MergeFiles.HeaderLine | script/merge_files.py:27 | the first output line: the header names joined with tabs, then a newline |
| MergeFiles.HeaderLayout | script/merge_files.py:20-27 | the header has 28 distinct names with `sample`, `inserted_seq`, `contig_sequence` and `status` at positions 0, 18, 20 and 25 |
| MergeFiles.LookupAt | script/merge_files.py:31-40 | with distinct column names, the cell under a file's column j is the row's cell j |
| MergeFiles.DataFrame.FromFrame | script/merge_files.py:31 | the frame holds the file's columns in order and the file's cell under each column for each row |
| MergeFiles.DataFrame.Contains | script/merge_files.py:33 | a valid frame contains a name exactly when it is one of its columns |
| MergeFiles.DataFrame.Reindex | script/merge_files.py:40 | one row per frame row with one cell per header name: the frame's cell under that name, or missing |
| MergeFiles.DataFrame.SetColumn | script/merge_files.py:33-37 | assigning a value to a column sets every cell of it to the value, appends a new column at the end and changes nothing else |
| MergeFiles.CollectedRows | script/merge_files.py:28-50 | the rows of the given files, file after file |
| MergeFiles.CollectedRowsSnoc | script/merge_files.py:28-50 | reading one more file appends that file's rows |
| MergeFiles.UpdatedCell | script/merge_files.py:33-40 | after the assignments, each cell the reindex reads is the canonical cell: the sample, the "-" backfill, the file's own cell or missing |
| MergeFiles.AssignedColumnsNormalize | script/merge_files.py:33-40 | reindexing the frame after the assignments gives exactly the normalized rows of the file |
| MergeFiles.CanonicalCell | script/merge_files.py:33-40 | the sample column holds the sample; without an `inserted_seq` column both `inserted_seq` and `contig_sequence` hold "-", even when the file has `contig_sequence`; any other column the file lacks is missing |
| MergeFiles.Lookup | script/merge_files.py:40 | the cell of a row under a column name, missing when the file has no such column |
| MergeFiles.AssignedColumns | script/merge_files.py:33-37 | the frame's columns after the assignments: the "-" pair when `inserted_seq` is absent, then the sample column |
| MergeFiles.Reindexed | script/merge_files.py:40 | for each row, the cells under the header names in header order, missing where the frame has no such column |
| MergeFiles.NormalizeRow | script/merge_files.py:33-40 | one input row after the assignments and the reindex has the 28 canonical cells |
| MergeFiles.NormalizedRows | script/merge_files.py:33-40 | every row of a file normalized, one per input row, each with the 28 canonical cells |
| MergeFiles.FileRows | script/merge_files.py:30-50 | the rows one file writes: its normalized rows, tagged with its sample, whose status is kept |
| MergeFiles.NormalizeRowShape | script/merge_files.py:33-40 | a normalized row has the 28 canonical columns; it holds the sample, "-" in both sequence columns when `inserted_seq` is absent, the file's cell under each canonical column it has and missing under each one it lacks |
| MergeFiles.NormalizeRowIgnoresColumnOrder | script/merge_files.py:40 | files with the same columns in another order and the same cells normalize to the same row |
| MergeFiles.NormalizeRowDropsExtraColumn | script/merge_files.py:40 | a column outside the header does not change the normalized row |
| MergeFiles.LookupSkipsLast | script/merge_files.py:40 | a column appended under another name does not change the lookup of a name |
| MergeFiles.NormalizedRowsTagged | script/merge_files.py:33-40 | every normalized row of a file holds its sample, and the "-" backfill when the file has no `inserted_seq` column |
| MergeFiles.FileRowsTagged | script/merge_files.py:30-50 | every row a file contributes has 28 cells, holds the file's sample and, without `inserted_seq`, the "-" backfill |
| MergeFiles.FalseCalls | script/merge_files.py:44-46 | "F" is always a false call, and "aF" is one exactly outside normal-tissue mode |
| MergeFiles.Keep | script/merge_files.py:49 | a row is kept when its status is none of the false calls; a missing status is kept |
| MergeFiles.KeptRows | script/merge_files.py:48-50 | the rows the loop writes, each with the 28 canonical cells |
| MergeFiles.KeepModes | script/merge_files.py:44-49 | by default rows with status "F" or "aF" are dropped; in normal-tissue mode only "F" |
| MergeFiles.KeptRowsSpec | script/merge_files.py:48-50 | the written rows are the rows whose status is kept, unmodified and in their order |
| MergeFiles.FileRowsSpec | script/merge_files.py:30-50 | a file contributes the normalized rows whose status is kept, in their order |
| MergeFiles.DefaultModeRefinesNormal | script/merge_files.py:44-50 | default-mode filtering equals normal-mode filtering followed by dropping "aF" |
| MergeProperties.KeptRowsConcat | script/merge_files.py:48-50 | the status filter distributes over the concatenation of row sequences |
| MergeProperties.CollectedDefaultRefinesNormal | script/merge_files.py:28-50 | over several files, default mode collects the normal-mode rows less those with status "aF" |
| MergeProperties.DefaultRunRefinesNormal | script/merge_files.py:26-50 | a default-mode run merges exactly the rows of the normal-mode run less those with status "aF" |
| MergeFiles.Str | script/merge_files.py:50 | a text cell prints as itself, a missing cell as "nan" |
| MergeFiles.RenderRow | script/merge_files.py:50 | the line of one row ends in a newline |
| MergeFiles.RenderAll | script/merge_files.py:48-50 | one line is written per kept row |
| MergeFiles.RenderAllLines | script/merge_files.py:48-50 | line i is the line of row i |
| MergeFiles.RenderAllConcat | script/merge_files.py:48-50 | the lines of two row sequences are the lines of the first followed by those of the second |
| MergeProperties.RenderRowFields | script/merge_files.py:50 | a written line ends in a newline, and splitting the rest at tabs gives back the printed cells |
| MergeFiles.WriteKeptRows | script/merge_files.py:48-50 | the loop appends exactly the lines of the kept rows, in order |
| MergeFiles.WriteFile | script/merge_files.py:30-50 | one file iteration appends exactly the lines of its kept, normalized rows |
| MergeFiles.FirstMissing | script/merge_files.py:28-31 | the position of the first unreadable file: all before it are readable |
| MergeFiles.FirstMissingAt | script/merge_files.py:28-31 | that position is the only one with this property |
| MergeFiles.WriteFiles | script/merge_files.py:28-50 | the file loop writes the lines of every file before the first unreadable one and reports whether it stopped there |
| MergeFiles.MergedFiles | script/merge_files.py:18-28 | the files the loop reads: sorted, and a permutation of the matching names |
| MergeFiles.MergedRows | script/merge_files.py:28-50 | the rows written, from the sorted matching files up to the first one that cannot be read |
| MergeFiles.MergeFailed | script/merge_files.py:28-31 | whether some sorted matching file cannot be read |
| MergeFiles.MergeOutput | script/merge_files.py:26-50 | the header line, then the lines of the sorted matching files up to the first unreadable one, and whether one could not be read |
| MergeFiles.MergeSamples | script/merge_files.py:26-50 | a run writes the header line, then the lines of the sorted matching files up to the first unreadable one, and fails exactly when one cannot be read |
| MergeProperties.CollectedRowsMembers | script/merge_files.py:28-50 | a row is collected exactly when one of the files contributes it |
| MergeProperties.CollectedRowsIncludes | script/merge_files.py:28-50 | every row of every file read is collected |
| MergeProperties.MergeFailsIffUnreadable | script/merge_files.py:28-31 | a run fails exactly when some listed file with the extension cannot be read |
| MergeProperties.MergedRowSource | script/merge_files.py:28-50 | every merged row comes from a listed, readable file with the extension |
| MergeProperties.MergedRowComplete | script/merge_files.py:28-50 | in a run with no failure, every row a matching file contributes is merged |
| Strings.RStrip | script/update_bps.py:12 | the result is the input less its whitespace tail and does not end in whitespace |
| Strings.RStripTrailing | script/update_bps.py:12 | stripping removes exactly a whitespace tail from a text that does not end in whitespace |
| Strings.Split | script/update_bps.py:12 | splitting gives at least one piece and no piece holds the separator |
| Strings.JoinSplit | script/update_bps.py:12 | joining the pieces of a split gives the text back |
| Strings.SplitJoin | script/update_bps.py:28 | splitting separator-free parts joined with the separator gives the parts back |
| Strings.SplitPrefix | script/update_bps.py:28 | a separator-free start of a text becomes the start of the first piece |
| Strings.SplitFirst | script/merge_files.py:30 | the first piece is the text up to its first separator, or the whole text when it has none |
| Strings.Join | script/update_bps.py:32 | the parts with the separator between each two |
| Strings.JoinEndsWithLast | script/update_bps.py:32 | joined parts end with the last part |
| UpdateBps.Key | script/update_bps.py:13-14 | a key is its three parts joined with "_" |
| UpdateBps.LineKeys | script/update_bps.py:12-14 | the two keys of a listing line, or the IndexError when it has fewer than five parts |
| UpdateBps.LineKeysOfTokens | script/update_bps.py:11-14 | any line, written as its "_"-free tokens joined with "_" and not ending in whitespace, then a whitespace tail, gives the keys of tokens 0, 1, 2 and 0, 3, 4, whatever follows them (empty tokens included); with fewer than five tokens it is an error |
| UpdateBps.Blocklist | script/update_bps.py:9-16 | the set of both keys of every listing line, or the IndexError at the first line without five parts |
| UpdateBps.BlocklistCompletes | script/update_bps.py:9-16 | the listing loop completes exactly when every line has five parts |
| UpdateBps.BlocklistMembers | script/update_bps.py:9-16 | when it completes, a key is on the blocklist exactly when some listing line has it as one of its two keys |
| UpdateBps.BlocklistIgnoresOrder | script/update_bps.py:9-16 | the order and repetition of the listing lines do not change the blocklist |
| UpdateBps.BuildBlocklist | script/update_bps.py:9-16 | the loop reports success exactly when the blocklist is defined, and then returns it |
| UpdateBps.Coords | script/update_bps.py:28-32 | the coordinates of a breakpoint line, or the IndexError when it has fewer than five fields |
| UpdateBps.CoordsOfFields | script/update_bps.py:28-32 | any line, written as its tab-free fields joined with tabs and not ending in whitespace, then a whitespace tail, has fields 2, 3 and 4 joined with "_" as its coordinates; with fewer than five fields (a blank line included) it is an error |
| UpdateBps.Passes | script/update_bps.py:20 | coordinates pass when they are not on the blocklist |
| UpdateBps.Filter | script/update_bps.py:19-21 | the line is appended exactly when its coordinates are not on the blocklist; otherwise nothing changes |
| UpdateBps.FilterLines | script/update_bps.py:26-34 | the lines the breakpoint loop writes, and whether it reached the end |
| UpdateBps.FilterLinesSubsequence | script/update_bps.py:23-34 | the written lines are input lines in their order, each with coordinates not on the blocklist |
| UpdateBps.FilterLinesCompletes | script/update_bps.py:26-34 | the breakpoint loop completes exactly when every line has five fields |
| UpdateBps.FilterLinesMembers | script/update_bps.py:19-34 | when it completes, an input line is written exactly when its coordinates are not on the blocklist |
| UpdateBps.FilterLinesCounts | script/update_bps.py:19-34 | when it completes, each line is written as many times as it occurs if its coordinates pass, and never otherwise |
| UpdateBps.FilterLinesFromInput | script/update_bps.py:19-34 | every written line is an input line |
| UpdateBps.FilterLinesAllPass | script/update_bps.py:19-34 | lines whose coordinates all pass are all written and the loop completes |
| UpdateBps.FilterIdempotent | script/update_bps.py:19-34 | filtering the output again with the same blocklist writes it unchanged |
| UpdateBps.FilterLinesFrozen | script/update_bps.py:26-34 | once the loop has stopped on an error, further lines change nothing |
| UpdateBps.FilterStopsAtFirstShort | script/update_bps.py:26-34 | at the first line without five fields the run stops; the lines written before it stay written |
| UpdateBps.RemoveFalsePositives | script/update_bps.py:23-34 | the loop writes exactly the reference output and reports whether it reached the end |
| UpdateBps.UpdateOutput | script/update_bps.py:9-36 | nothing when the listing loop fails, otherwise the breakpoint loop's output with the blocklist |
| UpdateBps.UpdateBreakpoints | script/update_bps.py:9-36 | the script writes nothing when the listing loop fails and otherwise the filtered breakpoint lines |
| UpdateBps.UpdateOutputMembers | script/update_bps.py:9-36 | in a completed run, a breakpoint line is written exactly when no listing line has its coordinates as a key, and then as many times as it occurs |
| UpdateBps.ListedBreakpointDropped | script/update_bps.py:9-36 | a breakpoint line whose coordinates some listing line has as a key is never written |

## Left out

- The command line of the merge script (`get_args`, the `__main__` block, the default directory and output name) is left out. The model takes the extension, the normal-tissue flag, the listing and the readable tables as parameters.
- The progress messages printed to the console are left out, because they do not affect the output.
- The pandas table reader is not modelled. The model takes what it returns: column names and text cells, with no dtype inference, no quoting rules and no ragged rows (`MergeFiles.Loadable`). A file it cannot read is a name missing from the map.
- The model assumes column names within one file are distinct, because pandas renames duplicates.
- MergeFiles.MatchingFiles: shell-pattern metacharacters in the extension and case-insensitive matching on Windows are not modelled. The extension is matched as a literal suffix.
- MergeFiles.Basename: UNC paths are not modelled. A drive prefix, any one character followed by ':', is dropped.
- The output file itself may appear in the directory listing when its name ends with the extension. The model treats the listing as given.
- The header line's own split into column names is not proved.
- MergeFiles.DataFrame.Reindex: returns only the cells in header order. The frame's column list after the reindex is not kept, because nothing later reads it.
- The file names hard-coded in script/update_bps.py (both inputs and `all_bps_new.txt`) are left out, and so are the unused parameters of `remove_false_positives_from_bps`. The model takes both inputs' lines as parameters and returns the written lines.
- Universal-newline reading (mode 'U') is not modelled. The lines are given as the reader yields them, terminators included.
- Strings.IsSpace: follows Python 3. Under Python 2, `rstrip` on byte strings strips only ASCII whitespace.
- Output-file flushing and encoding are left out.
- For the merge script, I/O errors other than an unreadable input file are left out. For script/update_bps.py, both inputs are given as line sequences, so no I/O error is modelled.
