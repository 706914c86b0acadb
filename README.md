# BIDS behavioural metadata generator, modelled in Dafny

The model covers the metadata generator of NCCLabMPI/BIDS-converter. The generator walks a BIDS
dataset and finds the behavioural event files: a name holding "events" inside a directory whose
path holds "beh". It reads subject, session, run and task from the first four `_`-separated parts
of each file name. It then writes these files:

- next to each event file, a JSON sidecar that merges the task's description with the column
  descriptions of its log;
- at the dataset root, `participants.tsv` (one row per subject, `age` and `sex` left empty);
- at the root, `participants.json`, which describes every column of that table;
- at the root, the `dataset_description.json` template (BIDS version 1.9.0, type "raw");
- at the root, a `README.md` placeholder.

Every write is skipped when the file exists, unless `overwrite` is set.

Two copies of the generator exist. `beh/helper_function.py` checks the file extension (".tsv" by
default) and writes the table without its index. It names an extra column in its warning, and
warns only when verbose. `bids_converter/bids.py` plus `bids_converter/beh/convert_beh.py` differ
in four ways:

- the walk ignores its `extensions` argument;
- the table is written with pandas' default index column;
- the `sex` description starts in lower case;
- the extra-column warning is always printed, without the column's name.

The README placeholders also differ in their text. Both copies are modelled. The shared logic
takes a `Pipeline.Dialect` record that holds these differences. The modules `HelperFunction`,
`Bids` and `ConvertBeh` mirror the three source files and fix each copy's constants.

Module layout:

- `Wrappers`: `Option`, `Result`, `Outcome`.
- `PyStr`: Python's `in`, `endswith` and `split` on strings.
- `Json`: JSON values. A dict is an ordered list of pairs, with `d[k] = v` (`Put`) and
  `{**a, **b}` (`Merge`).
- `Fs`: paths, file contents, the `FileSystem` object and the conditional write `Written`.
- `Records`: the file record and the errors.
- `Scanner`: the walk, specified by `Scan` and implemented by the loop `WalkFiles`.
- `Sidecars`: the sidecar plan per record, specified by `Emit` and implemented by the loop
  `CreateBehEventsSidecar`.
- `Participants`: the subjects table, its TSV form and the column descriptions.
- `Templates`: the dataset description and the README writer.
- `Pipeline`: `beh_bids_metadata` as a whole, specified by `Metadata`.

An exception the source would raise becomes an error value that stops the run at the same
point. The `IndexError` of a short file name or of a task entity without `-` is one such
exception; a failed `assert` on a missing table key is another. Details a
reader might expect from the functions' docstrings or from BIDS conventions follow the code
instead:

- a short file name aborts the whole walk instead of skipping that file;
- a missing task key stops the sidecar step after the sidecars of the earlier files have already
  been written;
- the sidecar stem is cut at the first `.` of the name;
- `bids.py` writes the index column and ignores its `extensions` argument.

## Model

| member | source | states |
|---|---|---|
| PyStr.ContainsIff | beh/helper_function.py:33 | `needle in hay` holds exactly when `needle` occurs at some offset of `hay` |
| PyStr.ContainsAppend | bids_converter/bids.py:21 | text appended after a string keeps every substring it had |
| PyStr.SplitJoin | beh/helper_function.py:34 | joining the pieces of `split` gives the string back, and no piece holds the separator |
| PyStr.JoinSplit | beh/helper_function.py:34 | splitting the join of separator-free pieces gives the pieces back |
| PyStr.SplitCount | beh/helper_function.py:34 | a split has one piece more than the separator has occurrences |
| PyStr.SplitHasSecond | beh/helper_function.py:70 | `split` yields a second piece exactly when the separator occurs |
| PyStr.SplitHead | beh/helper_function.py:75 | the first piece is the prefix before the first separator (or the whole string) |
| PyStr.SplitSecond | beh/helper_function.py:70 | the second piece is the text between the first separator and the next one or the end |
| Json.Put | beh/helper_function.py:195 | `d[k] = v`: `k` reads `v`, other keys unchanged, an existing key keeps its position, a new one goes last, keys stay distinct |
| Json.LookupSomeIff | bids_converter/beh/convert_beh.py:22-24 | a key is found exactly when it is among the dict's keys |
| Json.MergeSpec | beh/helper_function.py:74 | `{**a, **b}`: `b` wins on shared keys, other keys read `a`, the keys of `a` stay in front, no key twice |
| Json.MergeDisjoint | bids_converter/beh/convert_beh.py:26 | without shared keys, the merge is `a` followed by `b` |
| Json.DistinctKeysIff | beh/helper_function.py:160-195 | a dict has no key twice exactly when its keys differ pairwise |
| Json.LookupFirst | beh/helper_function.py:232-262 | a key that does not occur earlier reads its own entry |
| Fs.Written | beh/helper_function.py:77-87 | the conditional write adds the path, leaves other files alone, and keeps an existing file unless `overwrite` |
| Fs.WrittenIdempotent | beh/helper_function.py:126-135 | without `overwrite`, writing the same path twice is the same as writing it once |
| Fs.WrittenLastWins | beh/helper_function.py:264-274 | with `overwrite`, the last write of a path wins |
| Fs.WrittenSkipsExisting | beh/helper_function.py:303-313 | without `overwrite`, an existing file is never changed |
| Fs.FileSystem.WriteUnlessPresent | beh/helper_function.py:197-207 | the file system after the write is `Written` of the one before |
| Scanner.WalkFiles | beh/helper_function.py:30-44 | the nested loop over the walk returns exactly `Scan`: the records of the kept files in walk order, or the first malformed name |
| Scanner.ParseAllSpec | beh/helper_function.py:34-43 | parsing succeeds exactly when every kept name has four parts; then there is one record per file, in order |
| Scanner.ParseAllFirstError | bids_converter/bids.py:23-31 | the error is the first kept name with fewer than four parts |
| Scanner.ScanRecords | beh/helper_function.py:35-42 | each record holds its directory, its name and the first four `_`-parts as subject, session, run and task |
| Scanner.FilterIff | beh/helper_function.py:33 | a file is kept exactly when it is walked and passes the selection test |
| Scanner.FilterIsSubsequence | beh/helper_function.py:31-33 | the kept files come in walk order |
| Scanner.ScanNothingSelected | bids_converter/bids.py:18-35 | when nothing passes the test, the walk returns an empty list |
| Scanner.EntriesIff | beh/helper_function.py:31-32 | a (directory, name) pair is walked exactly when that directory lists the name |
| Scanner.DirEntriesIff | bids_converter/bids.py:20 | one directory's pairs are its name with each of its file names |
| Sidecars.TaskIdSpec | beh/helper_function.py:70 | the task id exists exactly when the entity holds `-`, and it is the text after the first `-` up to the next |
| Sidecars.SidecarNameSpec | beh/helper_function.py:75 | the sidecar is named after the text before the first `.` of the file name, plus ".json" |
| Sidecars.SidecarNameIdempotent | bids_converter/beh/convert_beh.py:28 | the sidecar of a sidecar is the same path |
| Sidecars.SidecarDocSpec | beh/helper_function.py:74 | the sidecar holds "task" first, then every column key; a column named "task" replaces the description |
| Sidecars.SidecarDocNoCollision | bids_converter/beh/convert_beh.py:26 | without a "task" column, the sidecar is the description followed by the columns unchanged |
| Sidecars.PlanSpec | beh/helper_function.py:70-75 | a record's sidecar fails exactly for a bad entity or a key missing from either table, and is otherwise the merge at the derived path |
| Sidecars.CreateBehEventsSidecar | beh/helper_function.py:69-89 | the loop returns its input list and leaves the files as `Emit` says, or stops with `Emit`'s error |
| Sidecars.EmitOutcome | beh/helper_function.py:71-72 | the sidecar step completes exactly when every record plans, whatever files exist |
| Sidecars.EmitStopsAt | bids_converter/beh/convert_beh.py:22-24 | the first failing record stops the step with its error, after the earlier records' sidecars |
| Sidecars.EmitFrame | beh/helper_function.py:77-87 | only sidecar paths are added or changed, and without `overwrite` no existing file changes |
| Sidecars.EmitSkipsPresent | bids_converter/beh/convert_beh.py:29-33 | without `overwrite`, when every sidecar exists, nothing changes |
| Sidecars.EmitIdempotent | beh/helper_function.py:77-81 | without `overwrite`, running the sidecar step twice is the same as once |
| Sidecars.EmitWrites | beh/helper_function.py:82-87 | a planned sidecar that nothing else overwrites holds its document |
| Sidecars.UntouchedAfter | bids_converter/beh/convert_beh.py:29-39 | a file that no sidecar targets keeps its content |
| Participants.ListOf | beh/helper_function.py:117 | `list(set(...))` lists each subject of the set exactly once |
| Participants.EnumerationExists | bids_converter/bids.py:51 | every set of subjects has such a listing |
| Participants.EnumeratesSize | beh/helper_function.py:117 | a listing has as many entries as the set |
| Participants.SubjectSetSize | bids_converter/bids.py:51 | there are no more subjects than event files |
| Participants.ParticipantsFrameSpec | beh/helper_function.py:119-123 | the table has the columns `participant_id`, `age` and `sex`, one row per distinct subject, each subject once, and `age`/`sex` empty |
| Participants.CsvRoundTrip | bids_converter/bids.py:70 | reading a written table back, with or without the index column, gives the same table when no cell is the empty string |
| Participants.ParticipantsCsv | beh/helper_function.py:135 | the written TSV has the header and one row per subject, with a numbered index column when the index is written |
| Participants.CreateParticipantsTsv | beh/helper_function.py:113-137 | returns the table of some listing of the subjects and writes its TSV form unless present |
| Participants.DescribeColumnsSpec | beh/helper_function.py:165-195 | the JSON has one entry per column: the fixed one for `age` and `sex`, the blank one otherwise |
| Participants.DescribeColumnsOrder | bids_converter/bids.py:91-123 | for distinct columns, the entries follow the column order |
| Participants.StandardDescription | beh/helper_function.py:166-194 | for the generated table the JSON is the `participant_id` placeholder, then `age`, then `sex` |
| Participants.WarningsSpec | beh/helper_function.py:183-187 | one warning per extra column: named and only when verbose, or always and unnamed |
| Participants.StandardWarnings | bids_converter/bids.py:111-114 | the generated table draws exactly one warning, for `participant_id` |
| Participants.ColumnWarning | bids_converter/bids.py:92-114 | at most one warning per column, and only for a column other than `age` and `sex` |
| Participants.CreateParticipantsJson | beh/helper_function.py:160-207 | prints the warnings `Warnings` lists and writes the described columns unless present |
| Templates.DatasetDescriptionKeys | beh/helper_function.py:232-262 | the template lists the thirteen dataset-description fields in their order |
| Templates.DatasetDescriptionDistinct | bids_converter/bids.py:152-182 | no field appears twice |
| Templates.FieldsDistinct | beh/helper_function.py:233-256 | the thirteen field names differ pairwise |
| Templates.DatasetDescriptionValues | beh/helper_function.py:233-261 | the version is "1.9.0", the type "raw", and every other field except the source datasets is blank |
| Templates.CreateDatasetDescJson | beh/helper_function.py:230-274 | writes the template to `dataset_description.json` unless present |
| Templates.CreateReadme | beh/helper_function.py:295-313 | writes the given text to `README.md` unless present |
| Pipeline.BehBidsMetadata | beh/helper_function.py:339-349 | the run leaves the files and the outcome `Metadata` gives for some listing of the subjects |
| Pipeline.WriteAllFrame | beh/helper_function.py:343-349 | the root writes add exactly their paths, and without `overwrite` change no existing file |
| Pipeline.WriteAllAt | bids_converter/beh/convert_beh.py:61-70 | each root file not kept from before holds its content |
| Pipeline.WriteAllSkips | bids_converter/beh/convert_beh.py:60-70 | without `overwrite`, when the root files exist, nothing changes |
| Pipeline.MetadataOutcome | beh/helper_function.py:339-341 | a run completes exactly when the walk succeeds and every record plans; the files present play no part |
| Pipeline.MetadataFrame | bids_converter/beh/convert_beh.py:53-70 | a run adds or changes only the sidecars it reaches, plus the root files when it completes; without `overwrite` no file changes |
| Pipeline.MetadataIdempotent | beh/helper_function.py:316-349 | without `overwrite`, a second run over the same traversal changes nothing and ends as the first did |
| Pipeline.MetadataRootFiles | bids_converter/beh/convert_beh.py:60-70 | after a completed run, each root file not kept from before holds its content |
| Pipeline.MetadataStopsAt | bids_converter/beh/convert_beh.py:56-58 | a failing record stops the run with its error; the root files are not written |
| HelperFunction.WalkBidsRoot | beh/helper_function.py:8-44 | the walk returns `Scan` with ".tsv" as the default extension |
| HelperFunction.ReadmeLinksStarterKit | beh/helper_function.py:297-313 | after a completed run, a README written at the root ends with the link to the starter kit's README template |
| HelperFunction.SidecarNeverSelected | beh/helper_function.py:33 | a generated sidecar is never picked up by a later default scan |
| HelperFunction.ParticipantsJsonWarnings | beh/helper_function.py:183-187 | the generated table warns only for `participant_id`, by name, and only when verbose |
| HelperFunction.RootFilesWritten | beh/helper_function.py:339-349 | after a completed run with `overwrite`: the table without index, the three descriptions, the template and the placeholder |
| HelperFunction.BehBidsMetadata | beh/helper_function.py:316-351 | the run with this copy's constants ends as `Metadata` says |
| HelperFunction.CreateBehEventsSidecar | beh/helper_function.py:47-89 | returns its input list and leaves the files as `Emit` says, or stops with the first failing record's error |
| HelperFunction.CreateParticipantsTsv | beh/helper_function.py:92-137 | the table is written without its index |
| HelperFunction.CreateParticipantsJson | beh/helper_function.py:140-207 | upper-case `sex` text, and warnings named and only when verbose |
| HelperFunction.CreateDatasetDescJson | beh/helper_function.py:210-274 | writes the template unless present |
| HelperFunction.CreateReadme | beh/helper_function.py:277-313 | writes this copy's placeholder unless present |
| Bids.WalkBidsRoot | bids_converter/bids.py:8-35 | the walk returns `Scan` with no extension test, whatever `extensions` is |
| Bids.ReadmeLinksStarterKit | bids_converter/bids.py:205-225 | after a completed run, a README written at the root ends with the link to the starter kit's README template |
| Bids.SidecarSelectedAgain | bids_converter/bids.py:21 | a sidecar whose stem holds "events" is picked up again by a later scan, and maps to itself |
| Bids.ParticipantsJsonWarnings | bids_converter/bids.py:111-114 | the generated table always draws one unnamed warning |
| Bids.CreateParticipantsTsv | bids_converter/bids.py:38-71 | the table is written with its index column |
| Bids.CreateParticipantsJson | bids_converter/bids.py:74-136 | lower-case `sex` text, and an unnamed warning printed whatever `verbose` is |
| Bids.CreateDatasetDescJson | bids_converter/bids.py:139-195 | writes the same template unless present |
| Bids.CreateReadme | bids_converter/bids.py:198-225 | writes this copy's placeholder unless present |
| ConvertBeh.CreateBehEventsSidecar | bids_converter/beh/convert_beh.py:6-41 | the same contract as in `helper_function.py`: the input list back, the files as `Emit` says, or the first failing record's error |
| ConvertBeh.BehBidsMetadata | bids_converter/beh/convert_beh.py:43-73 | the run with the constants of `bids.py` ends as `Metadata` says |
| ConvertBeh.RootFilesWritten | bids_converter/beh/convert_beh.py:60-70 | after a completed run with `overwrite`: the table with a numbered index, the lower-case `sex` text, the template and this copy's placeholder |

## Left out

- Console output is not modelled: progress lines, "Saving …", "already exists" and "Done!". The
  one exception is the extra-column warning, which is the `Warnings` list in both styles.
- `json.dump(..., indent=2)` and `to_csv(sep="\t")` are modelled as structured contents, not as
  bytes. JSON spacing, TSV quoting and newlines are not modelled.
- The traversal of `os.walk` is an input: a list of (directory, file names) pairs in walk order.
  Directory order and file-system errors are not modelled.
- `pathlib.Path` is a (directory, name) pair, with no normalisation.
- The order of `list(set(...))` depends on Python's string hashing. The model leaves it open: any
  listing of the subjects, each once.
- Opening or writing a file can fail in the source. The model treats both as always succeeding.
- The `create_participants_json` warning is kept as a value, not as text. Its `print` of the file
  name is left out.
- The example tables and the driver are context, not part of this model: `task_desc_prp.py`,
  `logs_metadata_prp.py`, `beh_bids_converter.py` and the `__main__` block of `convert_beh.py`.
- Pipeline.MetadataIdempotent: the second run is given the first run's traversal. A real second
  run walks the tree again and also sees the sidecars the first run wrote. For `bids.py` these can
  be selected again (`Bids.SidecarSelectedAgain`): a sidecar such as `sub-01_events.json` has fewer
  than four `_`-parts, so the re-walk fails although the files stay the same. The lemma does not
  cover that re-walk.
- Pipeline.BehBidsMetadata: the orchestrator's `verbose` only affects printing, apart from the
  participants warnings, which the run does not return.
