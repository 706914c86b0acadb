/**
 * The shared steps of `bids_converter/bids.py`: the scan looks only for "events" in the name and
 * "beh" in the directory (its `extensions` argument is never consulted), the participants table
 * is written with its index column, and an extra participant column is always reported, without its name.
 */
module Bids {
  import opened Wrappers
  import opened PyStr
  import opened Json
  import opened Fs
  import opened Records
  import opened Scanner
  import opened Sidecars
  import opened Participants
  import opened Templates
  import opened Pipeline

  /** `walk_bids_root(root_dir, extensions=None)`: `extensions` gets a default and is then ignored. */
  function WalkSelector(extensions: Option<seq<string>>): Selector {
    Selector("beh", None)
  }

  /** Whatever extensions are asked for, a file is kept exactly when its name holds "events" and its directory "beh". */
  lemma WalkIgnoresExtensions(extensions: Option<seq<string>>, dirpath: string, filename: string)
    ensures Keep(WalkSelector(extensions), dirpath, filename) <==> Contains(filename, "events") && Contains(dirpath, "beh")
  {
  }

  /** `walk_bids_root`: the records of the kept files, in traversal order, or the first parse error. */
  method WalkBidsRoot(w: Traversal, extensions: Option<seq<string>>) returns (r: Result<seq<FileRecord>, Error>)
    ensures r == Scan(w, WalkSelector(extensions))
  {
    // the default `[".tsv"]` is assigned to `extensions`, which the loop then never reads
    r := WalkFiles(w, Selector("beh", None));
  }

  /** The description of the `sex` column, lower case. */
  const SexDescription: string := "sex of the participant as reported by the participant"

  /** The README placeholder: two lines of prose, then the starter-kit bullet. */
  const ReadmeText: string :=
    ("#Write an extensive description of your experiment!\n\n"
    + "Here are a few nice readmes examples: \n\n")
    + StarterKitBullet

  /** The constants of `bids.py`, with the scan as `beh_bids_metadata` calls it. */
  const BidsDialect: Dialect := Dialect(WalkSelector(None), true, SexDescription, AlwaysUnnamed, ReadmeText)

  /**
   * After a completed run, the README written at the root (one not kept from before) ends with
   * the link to the starter kit's README template.
   */
  lemma ReadmeLinksStarterKit(files: Files, w: Traversal, root: string, tasks: TaskTable, columns: ColumnTable,
                              overwrite: bool, ids: seq<string>)
    requires Metadata(BidsDialect, files, w, root, tasks, columns, overwrite, ids).1 == Pass
    requires overwrite || (Path(root, "README.md") !in files
                           && Path(root, "README.md") !in Reached(Scan(w, BidsDialect.selector).value, tasks, columns))
    ensures var after := Metadata(BidsDialect, files, w, root, tasks, columns, overwrite, ids).0;
      && Path(root, "README.md") in after
      && after[Path(root, "README.md")].TextFile?
      && PointsToStarterKit(after[Path(root, "README.md")].text)
  {
    MetadataRootFiles(BidsDialect, files, w, root, tasks, columns, overwrite, ids, 3);
    EndsWithAppend("#Write an extensive description of your experiment!\n\n"
      + "Here are a few nice readmes examples: \n\n", StarterKitBullet);
  }

  /**
   * A sidecar written next to a kept file whose stem holds "events" is itself kept by a later
   * scan, and the sidecar it would get is its own path.
   */
  lemma SidecarSelectedAgain(dirpath: string, fname: string)
    requires Keep(BidsDialect.selector, dirpath, fname)
    requires Contains(Split(fname, '.')[0], "events")
    ensures Keep(BidsDialect.selector, dirpath, SidecarName(fname))
    ensures SidecarName(SidecarName(fname)) == SidecarName(fname)
  {
    ContainsAppend(Split(fname, '.')[0], ".json", "events");
    SidecarNameIdempotent(fname);
  }

  /** With the generated table's columns there is always exactly one warning, without a column name. */
  lemma ParticipantsJsonWarnings(verbose: bool)
    ensures Warnings(StandardColumns, BidsDialect.style, verbose) == [ExtraColumn(None)]
  {
    StandardWarnings(AlwaysUnnamed, verbose);
  }

  /** `create_participants_tsv(bids_root, beh_events_tsvs, verbose, overwrite)`: written with its index column. */
  method CreateParticipantsTsv(fs: FileSystem, bidsRoot: string, behEventsTsvs: seq<FileRecord>, verbose: bool, overwrite: bool)
    returns (participants: Frame)
    modifies fs
    ensures exists ids :: Enumerates(ids, SubjectSet(behEventsTsvs)) && participants == ParticipantsFrame(ids)
    ensures fs.files == Written(old(fs.files), Path(bidsRoot, "participants.tsv"), ToCsv(participants, true), overwrite)
  {
    participants := Participants.CreateParticipantsTsv(fs, bidsRoot, behEventsTsvs, true, overwrite);
  }

  /** `create_participants_json(bids_root, participants_tsv, verbose, overwrite)`, with this file's sex text and warnings. */
  method CreateParticipantsJson(fs: FileSystem, bidsRoot: string, participantsTsv: Frame, verbose: bool, overwrite: bool)
    returns (warnings: seq<Warning>)
    modifies fs
    ensures warnings == Warnings(participantsTsv.columns, AlwaysUnnamed, verbose)
    ensures fs.files == Written(old(fs.files), Path(bidsRoot, "participants.json"),
      JsonFile(Obj(DescribeColumns(participantsTsv.columns, SexDescription))), overwrite)
  {
    warnings := Participants.CreateParticipantsJson(fs, bidsRoot, participantsTsv, SexDescription, AlwaysUnnamed, verbose, overwrite);
  }

  /** `create_dataset_desc_json(bids_root, verbose, overwrite)`. */
  method CreateDatasetDescJson(fs: FileSystem, bidsRoot: string, verbose: bool, overwrite: bool)
    modifies fs
    ensures fs.files == Written(old(fs.files), Path(bidsRoot, "dataset_description.json"), JsonFile(Obj(DatasetDescription())), overwrite)
  {
    Templates.CreateDatasetDescJson(fs, bidsRoot, overwrite);
  }

  /** `create_readme(bids_root, verbose, overwrite)`, with this file's placeholder text. */
  method CreateReadme(fs: FileSystem, bidsRoot: string, verbose: bool, overwrite: bool)
    modifies fs
    ensures fs.files == Written(old(fs.files), Path(bidsRoot, "README.md"), TextFile(ReadmeText), overwrite)
  {
    Templates.CreateReadme(fs, bidsRoot, ReadmeText, overwrite);
  }
}
