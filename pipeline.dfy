/**
 * `beh_bids_metadata`: scan for events files, write their sidecars, then the participants
 * table, its description, the dataset description and the README. The two copies of the
 * generator differ only in the constants gathered in a `Dialect`.
 */
module Pipeline {
  import opened Wrappers
  import opened Json
  import opened Fs
  import opened Records
  import opened Scanner
  import opened Sidecars
  import opened Participants
  import opened Templates

  /** What tells the two copies of the generator apart. */
  datatype Dialect = Dialect(
    /** which files the scan keeps */
    selector: Selector,
    /** whether the participants table is written with its index column */
    writeIndex: bool,
    /** the description of the `sex` column */
    sexText: string,
    /** how extra participant columns are reported */
    style: WarningStyle,
    /** the README placeholder */
    readme: string)

  /** The four files written at the dataset root once every sidecar is done, in the order they are written. */
  function RootFiles(d: Dialect, root: string, ids: seq<string>): seq<(Path, Content)> {
    [ (Path(root, "participants.tsv"), ToCsv(ParticipantsFrame(ids), d.writeIndex)),
      (Path(root, "participants.json"), JsonFile(Obj(DescribeColumns(StandardColumns, d.sexText)))),
      (Path(root, "dataset_description.json"), JsonFile(Obj(DatasetDescription()))),
      (Path(root, "README.md"), TextFile(d.readme)) ]
  }

  /** The paths of the root files. */
  function RootPaths(root: string): set<Path> {
    {Path(root, "participants.tsv"), Path(root, "participants.json"), Path(root, "dataset_description.json"), Path(root, "README.md")}
  }

  /** A sequence of conditional writes, in order. */
  function WriteAll(files: Files, ws: seq<(Path, Content)>, overwrite: bool): Files
    decreases |ws|
  {
    if ws == [] then files else WriteAll(Written(files, ws[0].0, ws[0].1, overwrite), ws[1..], overwrite)
  }

  /**
   * The state and outcome of `beh_bids_metadata`; `ids` is the order in which `list(set(...))`
   * yields the subjects. A raised exception stops the run where it happens.
   */
  function Metadata(d: Dialect, files: Files, w: Traversal, root: string, tasks: TaskTable, columns: ColumnTable,
                    overwrite: bool, ids: seq<string>): (Files, Outcome<Error>)
  {
    match Scan(w, d.selector)
    case Failure(e) => (files, Fail(e))
    case Success(recs) =>
      var (after, o) := Emit(files, recs, tasks, columns, overwrite);
      if o.Fail? then (after, o) else (WriteAll(after, RootFiles(d, root, ids), overwrite), Pass)
  }

  /** Every path a run may write: the reached sidecars, and the root files if no sidecar fails. */
  function Targets(d: Dialect, w: Traversal, root: string, tasks: TaskTable, columns: ColumnTable): set<Path> {
    match Scan(w, d.selector)
    case Failure(_) => {}
    case Success(recs) =>
      Reached(recs, tasks, columns)
        + (if AllPlanned(recs, tasks, columns) then RootPaths(root) else {})
  }

  /** `beh_bids_metadata`, with the exception it may raise as the outcome. */
  method BehBidsMetadata(fs: FileSystem, d: Dialect, w: Traversal, root: string, tasks: TaskTable, columns: ColumnTable,
                         verbose: bool, overwrite: bool)
    returns (r: Outcome<Error>)
    modifies fs
    ensures exists ids ::
      && (Scan(w, d.selector).Success? ==> Enumerates(ids, SubjectSet(Scan(w, d.selector).value)))
      && Metadata(d, old(fs.files), w, root, tasks, columns, overwrite, ids) == (fs.files, r)
  {
    var evts := WalkFiles(w, d.selector);
    if evts.Failure? {
      assert Metadata(d, old(fs.files), w, root, tasks, columns, overwrite, []) == (fs.files, Fail(evts.error));
      return Fail(evts.error);
    }
    var evtsFiles := evts.value;
    var sidecars := CreateBehEventsSidecar(fs, evtsFiles, tasks, columns, overwrite);
    if sidecars.Failure? {
      EnumerationExists(SubjectSet(evtsFiles));
      ghost var ids :| Enumerates(ids, SubjectSet(evtsFiles));
      assert Metadata(d, old(fs.files), w, root, tasks, columns, overwrite, ids) == (fs.files, Fail(sidecars.error));
      return Fail(sidecars.error);
    }
    ghost var afterSidecars := fs.files;
    var participantsTsv := CreateParticipantsTsv(fs, root, evtsFiles, d.writeIndex, overwrite);
    ghost var ids :| Enumerates(ids, SubjectSet(evtsFiles)) && participantsTsv == ParticipantsFrame(ids);
    var _ := CreateParticipantsJson(fs, root, participantsTsv, d.sexText, d.style, verbose, overwrite);
    CreateDatasetDescJson(fs, root, overwrite);
    CreateReadme(fs, root, d.readme, overwrite);
    WriteAllFour(afterSidecars, RootFiles(d, root, ids), overwrite);
    MetadataPass(d, old(fs.files), w, root, tasks, columns, overwrite, ids, afterSidecars);
    r := Pass;
  }

  lemma MetadataPass(d: Dialect, files: Files, w: Traversal, root: string, tasks: TaskTable, columns: ColumnTable,
                     overwrite: bool, ids: seq<string>, mid: Files)
    requires Scan(w, d.selector).Success?
    requires Emit(files, Scan(w, d.selector).value, tasks, columns, overwrite) == (mid, Pass)
    ensures Metadata(d, files, w, root, tasks, columns, overwrite, ids) == (WriteAll(mid, RootFiles(d, root, ids), overwrite), Pass)
  {
  }

  lemma WriteAllFour(files: Files, ws: seq<(Path, Content)>, overwrite: bool)
    requires |ws| == 4
    ensures WriteAll(files, ws, overwrite) ==
      Written(Written(Written(Written(files, ws[0].0, ws[0].1, overwrite), ws[1].0, ws[1].1, overwrite),
        ws[2].0, ws[2].1, overwrite), ws[3].0, ws[3].1, overwrite)
  {
    var f1 := Written(files, ws[0].0, ws[0].1, overwrite);
    var f2 := Written(f1, ws[1].0, ws[1].1, overwrite);
    var f3 := Written(f2, ws[2].0, ws[2].1, overwrite);
    var f4 := Written(f3, ws[3].0, ws[3].1, overwrite);
    assert ws[1..][0] == ws[1] && ws[1..][1..] == ws[2..];
    assert ws[2..][0] == ws[2] && ws[2..][1..] == ws[3..];
    assert ws[3..][0] == ws[3] && ws[3..][1..] == [];
    assert WriteAll(f3, ws[3..], overwrite) == WriteAll(f4, [], overwrite);
    assert WriteAll(f2, ws[2..], overwrite) == WriteAll(f3, ws[3..], overwrite);
    assert WriteAll(f1, ws[1..], overwrite) == WriteAll(f2, ws[2..], overwrite);
  }

  /** The paths of a sequence of writes. */
  function PathsOf(ws: seq<(Path, Content)>): set<Path> {
    set i | 0 <= i < |ws| :: ws[i].0
  }

  /** A sequence of writes adds exactly its paths, changes nothing else, and with `overwrite` off changes no existing file. */
  lemma {:induction false} WriteAllFrame(files: Files, ws: seq<(Path, Content)>, overwrite: bool)
    ensures var after := WriteAll(files, ws, overwrite);
      && after.Keys == files.Keys + PathsOf(ws)
      && (forall p :: p in files && p !in PathsOf(ws) ==> after[p] == files[p])
      && (!overwrite ==> forall p :: p in files ==> after[p] == files[p])
    decreases |ws|
  {
    if ws != [] {
      WriteAllFrame(Written(files, ws[0].0, ws[0].1, overwrite), ws[1..], overwrite);
      PathsOfCons(ws);
    }
  }

  lemma PathsOfCons(ws: seq<(Path, Content)>)
    requires ws != []
    ensures PathsOf(ws) == {ws[0].0} + PathsOf(ws[1..])
  {
    forall p | p in PathsOf(ws) ensures p in {ws[0].0} + PathsOf(ws[1..]) {
      var i :| 0 <= i < |ws| && ws[i].0 == p;
      if i > 0 {
        assert ws[1..][i - 1] == ws[i];
      }
    }
    forall p | p in PathsOf(ws[1..]) ensures p in PathsOf(ws) {
      var i :| 0 <= i < |ws[1..]| && ws[1..][i].0 == p;
      assert ws[i + 1] == ws[1..][i];
    }
  }

  /**
   * Among writes to distinct paths, each path ends up with its own content, provided it is
   * written at all: `overwrite` is on, or the path did not exist.
   */
  lemma {:induction false} WriteAllAt(files: Files, ws: seq<(Path, Content)>, overwrite: bool, i: int)
    requires 0 <= i < |ws|
    requires forall j, k :: 0 <= j < k < |ws| ==> ws[j].0 != ws[k].0
    requires overwrite || ws[i].0 !in files
    ensures var after := WriteAll(files, ws, overwrite);
      ws[i].0 in after && after[ws[i].0] == ws[i].1
    decreases |ws|
  {
    var files' := Written(files, ws[0].0, ws[0].1, overwrite);
    assert forall j :: 0 <= j < |ws| - 1 ==> ws[1..][j] == ws[j + 1];
    if i == 0 {
      WriteAllFrame(files', ws[1..], overwrite);
      assert ws[0].0 !in PathsOf(ws[1..]);
    } else {
      WriteAllAt(files', ws[1..], overwrite, i - 1);
    }
  }

  /** With `overwrite` off, writing only paths that are already present changes nothing. */
  lemma {:induction false} WriteAllSkips(files: Files, ws: seq<(Path, Content)>)
    requires PathsOf(ws) <= files.Keys
    ensures WriteAll(files, ws, false) == files
    decreases |ws|
  {
    if ws != [] {
      PathsOfCons(ws);
      assert Written(files, ws[0].0, ws[0].1, false) == files;
      WriteAllSkips(files, ws[1..]);
    }
  }

  /** The root files go to four different paths, which are `RootPaths`. */
  lemma RootPathsOf(d: Dialect, root: string, ids: seq<string>)
    ensures PathsOf(RootFiles(d, root, ids)) == RootPaths(root)
    ensures forall j, k :: 0 <= j < k < 4 ==> RootFiles(d, root, ids)[j].0 != RootFiles(d, root, ids)[k].0
  {
    FourPaths(RootFiles(d, root, ids));
  }

  lemma FourPaths(ws: seq<(Path, Content)>)
    requires |ws| == 4
    requires |ws[0].0.name| == 16 && |ws[1].0.name| == 17 && |ws[2].0.name| == 24 && |ws[3].0.name| == 9
    ensures PathsOf(ws) == {ws[0].0, ws[1].0, ws[2].0, ws[3].0}
    ensures forall j, k :: 0 <= j < k < 4 ==> ws[j].0 != ws[k].0
  {
    assert forall j :: 0 <= j < 4 ==> ws[j].0 in PathsOf(ws);
  }

  /**
   * A run succeeds exactly when the scan parses every selected file and every record has a task
   * id known to both tables; the outcome depends neither on the files present nor on the subject order.
   */
  lemma MetadataOutcome(d: Dialect, files: Files, other: Files, w: Traversal, root: string, tasks: TaskTable,
                        columns: ColumnTable, overwrite: bool, ids: seq<string>, ids': seq<string>)
    ensures Metadata(d, files, w, root, tasks, columns, overwrite, ids).1 == Pass <==>
      Scan(w, d.selector).Success? && AllPlanned(Scan(w, d.selector).value, tasks, columns)
    ensures Metadata(d, files, w, root, tasks, columns, overwrite, ids).1 ==
            Metadata(d, other, w, root, tasks, columns, overwrite, ids').1
  {
    if Scan(w, d.selector).Success? {
      EmitOutcome(files, other, Scan(w, d.selector).value, tasks, columns, overwrite);
    }
  }

  /**
   * A run creates exactly its targets, never deletes a file, changes nothing outside its targets,
   * and with `overwrite` off never changes a file that was already there.
   */
  lemma MetadataFrame(d: Dialect, files: Files, w: Traversal, root: string, tasks: TaskTable, columns: ColumnTable,
                      overwrite: bool, ids: seq<string>)
    ensures var after := Metadata(d, files, w, root, tasks, columns, overwrite, ids).0;
      var targets := Targets(d, w, root, tasks, columns);
      && after.Keys == files.Keys + targets
      && (forall p :: p in files && p !in targets ==> after[p] == files[p])
      && (!overwrite ==> forall p :: p in files ==> after[p] == files[p])
  {
    if Scan(w, d.selector).Success? {
      RunFrame(files, Scan(w, d.selector).value, tasks, columns, overwrite, RootFiles(d, root, ids));
      RootPathsOf(d, root, ids);
    }
  }

  /** The frame of the sidecar loop followed by a sequence of writes that runs only if the loop finishes. */
  lemma RunFrame(files: Files, recs: seq<FileRecord>, tasks: TaskTable, columns: ColumnTable, overwrite: bool,
                 ws: seq<(Path, Content)>)
    ensures var (mid, o) := Emit(files, recs, tasks, columns, overwrite);
      var after := if o.Fail? then mid else WriteAll(mid, ws, overwrite);
      var targets := Reached(recs, tasks, columns) + (if AllPlanned(recs, tasks, columns) then PathsOf(ws) else {});
      && after.Keys == files.Keys + targets
      && (forall p :: p in files && p !in targets ==> after[p] == files[p])
      && (!overwrite ==> forall p :: p in files ==> after[p] == files[p])
  {
    EmitFrame(files, recs, tasks, columns, overwrite);
    EmitOutcome(files, files, recs, tasks, columns, overwrite);
    WriteAllFrame(Emit(files, recs, tasks, columns, overwrite).0, ws, overwrite);
  }

  /**
   * With `overwrite` off a second run over the same listing leaves the files and the outcome
   * of the first, whatever order the subjects come in the second time. The listing is the first
   * run's: a fresh walk would also list the sidecars that run wrote.
   */
  lemma MetadataIdempotent(d: Dialect, files: Files, w: Traversal, root: string, tasks: TaskTable, columns: ColumnTable,
                           ids: seq<string>, ids': seq<string>)
    ensures var once := Metadata(d, files, w, root, tasks, columns, false, ids);
      Metadata(d, once.0, w, root, tasks, columns, false, ids') == once
  {
    if Scan(w, d.selector).Success? {
      var recs := Scan(w, d.selector).value;
      var once := Metadata(d, files, w, root, tasks, columns, false, ids);
      var mid := Emit(files, recs, tasks, columns, false).0;
      EmitFrame(files, recs, tasks, columns, false);
      EmitOutcome(files, once.0, recs, tasks, columns, false);
      if Emit(files, recs, tasks, columns, false).1.Pass? {
        WriteAllFrame(mid, RootFiles(d, root, ids), false);
        RootPathsOf(d, root, ids);
        RootPathsOf(d, root, ids');
        EmitSkipsPresent(once.0, recs, tasks, columns);
        WriteAllSkips(once.0, RootFiles(d, root, ids'));
      } else {
        EmitSkipsPresent(once.0, recs, tasks, columns);
      }
    }
  }

  /**
   * After a successful run each root file holds what the generator builds for it, unless
   * `overwrite` is off and the file was already present (or is also a sidecar path).
   */
  lemma MetadataRootFiles(d: Dialect, files: Files, w: Traversal, root: string, tasks: TaskTable, columns: ColumnTable,
                          overwrite: bool, ids: seq<string>, i: int)
    requires Metadata(d, files, w, root, tasks, columns, overwrite, ids).1 == Pass
    requires 0 <= i < 4
    requires overwrite || (RootFiles(d, root, ids)[i].0 !in files
                           && RootFiles(d, root, ids)[i].0 !in Reached(Scan(w, d.selector).value, tasks, columns))
    ensures var after := Metadata(d, files, w, root, tasks, columns, overwrite, ids).0;
      var (p, c) := RootFiles(d, root, ids)[i];
      p in after && after[p] == c
  {
    var recs := Scan(w, d.selector).value;
    EmitFrame(files, recs, tasks, columns, overwrite);
    RootPathsOf(d, root, ids);
    WriteAllAt(Emit(files, recs, tasks, columns, overwrite).0, RootFiles(d, root, ids), overwrite, i);
  }

  /**
   * A sidecar error at record k stops the run with that error after the sidecars of the earlier
   * records; no root file is written.
   */
  lemma MetadataStopsAt(d: Dialect, files: Files, w: Traversal, root: string, tasks: TaskTable, columns: ColumnTable,
                        overwrite: bool, ids: seq<string>, k: int)
    requires Scan(w, d.selector).Success?
    requires 0 <= k < |Scan(w, d.selector).value|
    requires forall i :: 0 <= i < k ==> Plan(Scan(w, d.selector).value[i], tasks, columns).Success?
    requires Plan(Scan(w, d.selector).value[k], tasks, columns).Failure?
    ensures var recs := Scan(w, d.selector).value;
      Metadata(d, files, w, root, tasks, columns, overwrite, ids) ==
        (Emit(files, recs[..k], tasks, columns, overwrite).0, Fail(Plan(recs[k], tasks, columns).error))
  {
    EmitStopsAt(files, Scan(w, d.selector).value, tasks, columns, overwrite, k);
  }
}
