/**
 * The copy of the generator in `beh/helper_function.py`: the scan checks the file extension
 * (".tsv" unless told otherwise), the participants table is written without its index, and an
 * extra participant column is reported by name, only when verbose.
 */
module HelperFunction {
  import opened Wrappers
  import opened PyStr
  import opened Json
  import opened Fs
  import opened Records
  import opened Scanner
  import opened Sidecars
  import opened Participants
  import opened Templates
  import opened Pipeline

  /** `walk_bids_root(root_dir, data_type="beh", extension=None)`: a missing extension means ".tsv". */
  function WalkSelector(dataType: string, extension: Option<string>): Selector {
    Selector(dataType, Some(extension.GetOr(".tsv")))
  }

  /** A file is kept when its name holds "events" and ends with the extension, and its directory holds the data type. */
  lemma WalkSelectorSpec(dataType: string, extension: Option<string>, dirpath: string, filename: string)
    ensures Keep(WalkSelector(dataType, extension), dirpath, filename) <==>
      && Contains(filename, "events")
      && Contains(dirpath, dataType)
      && EndsWith(filename, if extension.Some? then extension.value else ".tsv")
  {
  }

  /** `walk_bids_root`: the records of the kept files, in traversal order, or the first parse error. */
  method WalkBidsRoot(w: Traversal, dataType: string, extension: Option<string>) returns (r: Result<seq<FileRecord>, Error>)
    ensures r == Scan(w, WalkSelector(dataType, extension))
  {
    var ext := if extension.None? then ".tsv" else extension.value;
    r := WalkFiles(w, Selector(dataType, Some(ext)));
  }

  /** The description of the `sex` column. */
  const SexDescription: string := "Sex of the participant as reported by the participant"

  /** The README placeholder: two lines of prose, then the starter-kit bullet. */
  const ReadmeText: string :=
    ("# Write an extensive description of your experiment!\n\n"
    + "Here are a few nice README examples:\n\n")
    + StarterKitBullet

  /** This copy's constants, with the scan as `beh_bids_metadata` calls it (all defaults). */
  const HelperDialect: Dialect := Dialect(WalkSelector("beh", None), false, SexDescription, NamedWhenVerbose, ReadmeText)

  /**
   * After a completed run, the README written at the root (one not kept from before) ends with
   * the link to the starter kit's README template.
   */
  lemma ReadmeLinksStarterKit(files: Files, w: Traversal, root: string, tasks: TaskTable, columns: ColumnTable,
                              overwrite: bool, ids: seq<string>)
    requires Metadata(HelperDialect, files, w, root, tasks, columns, overwrite, ids).1 == Pass
    requires overwrite || (Path(root, "README.md") !in files
                           && Path(root, "README.md") !in Reached(Scan(w, HelperDialect.selector).value, tasks, columns))
    ensures var after := Metadata(HelperDialect, files, w, root, tasks, columns, overwrite, ids).0;
      && Path(root, "README.md") in after
      && after[Path(root, "README.md")].TextFile?
      && PointsToStarterKit(after[Path(root, "README.md")].text)
  {
    MetadataRootFiles(HelperDialect, files, w, root, tasks, columns, overwrite, ids, 3);
    EndsWithAppend("# Write an extensive description of your experiment!\n\n"
      + "Here are a few nice README examples:\n\n", StarterKitBullet);
  }

  /** A generated sidecar ends in ".json", so a later scan with the default extension never picks it up. */
  lemma SidecarNeverSelected(dataType: string, dirpath: string, fname: string)
    ensures !Keep(WalkSelector(dataType, None), dirpath, SidecarName(fname))
  {
    var stem := Split(fname, '.')[0];
    var s := stem + ".json";
    assert s[|s| - 4] == 'j';
  }

  /** With the generated table's columns, the only warning is for `participant_id`, by name, and only when verbose. */
  lemma ParticipantsJsonWarnings(verbose: bool)
    ensures Warnings(StandardColumns, HelperDialect.style, verbose) ==
      if verbose then [ExtraColumn(Some("participant_id"))] else []
  {
    StandardWarnings(NamedWhenVerbose, verbose);
  }

  /**
   * After a successful run with `overwrite` on, the four root files hold: the subjects table
   * without an index column, the three column descriptions, the dataset description template
   * and the README placeholder.
   */
  lemma RootFilesWritten(files: Files, w: Traversal, root: string, tasks: TaskTable, columns: ColumnTable, ids: seq<string>)
    requires Metadata(HelperDialect, files, w, root, tasks, columns, true, ids).1 == Pass
    ensures var after := Metadata(HelperDialect, files, w, root, tasks, columns, true, ids).0;
      && Path(root, "participants.tsv") in after
      && after[Path(root, "participants.tsv")].TsvFile?
      && after[Path(root, "participants.tsv")].header == ["participant_id", "age", "sex"]
      && |after[Path(root, "participants.tsv")].rows| == |ids|
      && (forall i :: 0 <= i < |ids| ==> after[Path(root, "participants.tsv")].rows[i] == [ids[i], "", ""])
      && Path(root, "participants.json") in after
      && after[Path(root, "participants.json")] == JsonFile(Obj([
           ("participant_id", PlaceholderDescriptor()),
           ("age", AgeDescriptor()),
           ("sex", SexDescriptor("Sex of the participant as reported by the participant"))]))
      && Path(root, "dataset_description.json") in after
      && after[Path(root, "dataset_description.json")] == JsonFile(Obj(DatasetDescription()))
      && Path(root, "README.md") in after
      && after[Path(root, "README.md")] == TextFile(ReadmeText)
  {
    MetadataRootFiles(HelperDialect, files, w, root, tasks, columns, true, ids, 0);
    MetadataRootFiles(HelperDialect, files, w, root, tasks, columns, true, ids, 1);
    MetadataRootFiles(HelperDialect, files, w, root, tasks, columns, true, ids, 2);
    MetadataRootFiles(HelperDialect, files, w, root, tasks, columns, true, ids, 3);
    ParticipantsCsv(ids, false);
    StandardDescription(SexDescription);
  }

  /** `beh_bids_metadata` of this copy: the shared steps with this copy's constants. */
  method BehBidsMetadata(fs: FileSystem, w: Traversal, root: string, tasks: TaskTable, columns: ColumnTable,
                         verbose: bool, overwrite: bool)
    returns (r: Outcome<Error>)
    modifies fs
    ensures exists ids ::
      && (Scan(w, HelperDialect.selector).Success? ==> Enumerates(ids, SubjectSet(Scan(w, HelperDialect.selector).value)))
      && Metadata(HelperDialect, old(fs.files), w, root, tasks, columns, overwrite, ids) == (fs.files, r)
  {
    r := Pipeline.BehBidsMetadata(fs, HelperDialect, w, root, tasks, columns, verbose, overwrite);
  }

  /** `create_beh_events_sidecar(beh_events_tsvs, task_description, events_col_description, verbose, overwrite)`. */
  method CreateBehEventsSidecar(fs: FileSystem, behEventsTsvs: seq<FileRecord>, taskDescription: TaskTable,
                                eventsColDescription: ColumnTable, verbose: bool, overwrite: bool)
    returns (r: Result<seq<FileRecord>, Error>)
    modifies fs
    ensures r.Success? ==> r.value == behEventsTsvs
    ensures Emit(old(fs.files), behEventsTsvs, taskDescription, eventsColDescription, overwrite)
      == (fs.files, if r.Success? then Pass else Fail(r.error))
  {
    r := Sidecars.CreateBehEventsSidecar(fs, behEventsTsvs, taskDescription, eventsColDescription, overwrite);
  }

  /** `create_participants_tsv(bids_root, beh_events_tsvs, verbose, overwrite)`: written without the index. */
  method CreateParticipantsTsv(fs: FileSystem, bidsRoot: string, behEventsTsvs: seq<FileRecord>, verbose: bool, overwrite: bool)
    returns (participants: Frame)
    modifies fs
    ensures exists ids :: Enumerates(ids, SubjectSet(behEventsTsvs)) && participants == ParticipantsFrame(ids)
    ensures fs.files == Written(old(fs.files), Path(bidsRoot, "participants.tsv"), ToCsv(participants, false), overwrite)
  {
    participants := Participants.CreateParticipantsTsv(fs, bidsRoot, behEventsTsvs, false, overwrite);
  }

  /** `create_participants_json(bids_root, participants_tsv, verbose, overwrite)`, with this file's sex text and warnings. */
  method CreateParticipantsJson(fs: FileSystem, bidsRoot: string, participantsTsv: Frame, verbose: bool, overwrite: bool)
    returns (warnings: seq<Warning>)
    modifies fs
    ensures warnings == Warnings(participantsTsv.columns, NamedWhenVerbose, verbose)
    ensures fs.files == Written(old(fs.files), Path(bidsRoot, "participants.json"),
      JsonFile(Obj(DescribeColumns(participantsTsv.columns, SexDescription))), overwrite)
  {
    warnings := Participants.CreateParticipantsJson(fs, bidsRoot, participantsTsv, SexDescription, NamedWhenVerbose, verbose, overwrite);
  }

  /** `create_dataset_desc_json(bids_root, verbose, overwrite)`. */
  method CreateDatasetDescJson(fs: FileSystem, bidsRoot: string, verbose: bool, overwrite: bool)
    modifies fs
    ensures fs.files == Written(old(fs.files), Path(bidsRoot, "dataset_description.json"), JsonFile(Obj(DatasetDescription())), overwrite)
  {
    Templates.CreateDatasetDescJson(fs, bidsRoot, overwrite);
  }

  /** `create_readme(bids_root, verbose, overwrite)`, with this file's placeholder text. */
  method CreateReadme(fs: FileSystem, bidsRoot: string, verbose: bool, overwrite: bool)
    modifies fs
    ensures fs.files == Written(old(fs.files), Path(bidsRoot, "README.md"), TextFile(ReadmeText), overwrite)
  {
    Templates.CreateReadme(fs, bidsRoot, ReadmeText, overwrite);
  }
}
