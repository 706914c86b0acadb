/**
 * `bids_converter/beh/convert_beh.py`: its own copy of the sidecar step (the same loop as
 * `Sidecars.CreateBehEventsSidecar`) and a `beh_bids_metadata` that runs it between the shared
 * steps imported from `bids.py`.
 */
module ConvertBeh {
  import opened Wrappers
  import opened Json
  import opened Fs
  import opened Records
  import opened Scanner
  import opened Sidecars
  import opened Participants
  import opened Templates
  import opened Pipeline
  import opened Bids

  /** `beh_bids_metadata` of this package: the shared steps with the constants of `bids.py`. */
  method BehBidsMetadata(fs: FileSystem, w: Traversal, root: string, tasks: TaskTable, columns: ColumnTable,
                         verbose: bool, overwrite: bool)
    returns (r: Outcome<Error>)
    modifies fs
    ensures exists ids ::
      && (Scan(w, BidsDialect.selector).Success? ==> Enumerates(ids, SubjectSet(Scan(w, BidsDialect.selector).value)))
      && Metadata(BidsDialect, old(fs.files), w, root, tasks, columns, overwrite, ids) == (fs.files, r)
  {
    r := Pipeline.BehBidsMetadata(fs, BidsDialect, w, root, tasks, columns, verbose, overwrite);
  }

  /**
   * After a successful run with `overwrite` on, the four root files hold: the subjects table
   * with a numbered index column, the three column descriptions (lower-case sex text), the
   * dataset description template and the README placeholder.
   */
  lemma RootFilesWritten(files: Files, w: Traversal, root: string, tasks: TaskTable, columns: ColumnTable, ids: seq<string>)
    requires Metadata(BidsDialect, files, w, root, tasks, columns, true, ids).1 == Pass
    ensures var after := Metadata(BidsDialect, files, w, root, tasks, columns, true, ids).0;
      && Path(root, "participants.tsv") in after
      && after[Path(root, "participants.tsv")].TsvFile?
      && after[Path(root, "participants.tsv")].header == ["", "participant_id", "age", "sex"]
      && |after[Path(root, "participants.tsv")].rows| == |ids|
      && (forall i :: 0 <= i < |ids| ==>
            after[Path(root, "participants.tsv")].rows[i] == [NatToString(i), ids[i], "", ""])
      && Path(root, "participants.json") in after
      && after[Path(root, "participants.json")] == JsonFile(Obj([
           ("participant_id", PlaceholderDescriptor()),
           ("age", AgeDescriptor()),
           ("sex", SexDescriptor("sex of the participant as reported by the participant"))]))
      && Path(root, "dataset_description.json") in after
      && after[Path(root, "dataset_description.json")] == JsonFile(Obj(DatasetDescription()))
      && Path(root, "README.md") in after
      && after[Path(root, "README.md")] == TextFile(Bids.ReadmeText)
  {
    MetadataRootFiles(BidsDialect, files, w, root, tasks, columns, true, ids, 0);
    MetadataRootFiles(BidsDialect, files, w, root, tasks, columns, true, ids, 1);
    MetadataRootFiles(BidsDialect, files, w, root, tasks, columns, true, ids, 2);
    MetadataRootFiles(BidsDialect, files, w, root, tasks, columns, true, ids, 3);
    ParticipantsCsv(ids, true);
    StandardDescription(Bids.SexDescription);
  }

  /** `create_beh_events_sidecar(beh_events_tsvs, task_description, events_col_description, verbose, overwrite)`. */
  method CreateBehEventsSidecar(fs: FileSystem, behEventsTsvs: seq<FileRecord>, taskDescription: TaskTable,
                                eventsColDescription: ColumnTable, verbose: bool, overwrite: bool)
    returns (r: Result<seq<FileRecord>, Error>)
    modifies fs
    ensures r.Success? ==> r.value == behEventsTsvs
    ensures Emit(old(fs.files), behEventsTsvs, taskDescription, eventsColDescription, overwrite)
      == (fs.files, if r.Success? then Pass else Fail(r.error))
  {
    r := Sidecars.CreateBehEventsSidecar(fs, behEventsTsvs, taskDescription, eventsColDescription, overwrite);
  }
}
