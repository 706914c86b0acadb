/**
 * `create_beh_events_sidecar`: for each events record, look up its task in the two
 * description tables, merge the task description with the column metadata and write
 * the result next to the events file as `<stem>.json`.
 */
module Sidecars {
  import opened Wrappers
  import opened PyStr
  import opened Json
  import opened Fs
  import opened Records

  /** Task id to free-text description. */
  type TaskTable = map<string, string>
  /** Task id to the dict of column name to column metadata. */
  type ColumnTable = map<string, Fields>

  /** `task.split('-')[1]`: the task id inside an entity such as "task-prp". */
  function TaskId(task: string): Result<string, Error> {
    var parts := Split(task, '-');
    if |parts| < 2 then Failure(MalformedTaskEntity(task)) else Success(parts[1])
  }

  /**
   * The task id exists exactly when the entity holds a `-`; it is then the text between the
   * first `-` and the next one (or the end).
   */
  lemma TaskIdSpec(task: string)
    ensures TaskId(task).Success? <==> '-' in task
    ensures TaskId(task).Success? ==>
      var key, id := Split(task, '-')[0], TaskId(task).value;
      && '-' !in key && '-' !in id
      && StartsWith(task, key + "-" + id)
      && (|key| + 1 + |id| < |task| ==> task[|key| + 1 + |id|] == '-')
  {
    SplitHasSecond(task, '-');
    SplitHead(task, '-');
    if |Split(task, '-')| >= 2 {
      SplitSecond(task, '-');
    }
  }

  /** `fname.split('.')[0] + ".json"`. */
  function SidecarName(fname: string): string {
    Split(fname, '.')[0] + ".json"
  }

  /** The sidecar name is the part of the file name before its first `.`, followed by ".json". */
  lemma SidecarNameSpec(fname: string)
    ensures var stem := Split(fname, '.')[0];
      && SidecarName(fname) == stem + ".json"
      && StartsWith(fname, stem) && '.' !in stem
      && (|stem| < |fname| ==> fname[|stem|] == '.')
  {
    SplitHead(fname, '.');
  }

  /** The sidecar of a sidecar is the same file: its stem has no `.` left to cut at. */
  lemma SidecarNameIdempotent(fname: string)
    ensures SidecarName(SidecarName(fname)) == SidecarName(fname)
  {
    var stem := Split(fname, '.')[0];
    var s := stem + ".json";
    SplitHead(fname, '.');
    SplitHead(s, '.');
    var p := Split(s, '.')[0];
    assert s[|stem|] == '.';
    assert p == s[..|stem|] == stem;
  }

  /** `{"task": description, **columns}`. */
  function SidecarDoc(description: string, columns: Fields): Fields {
    Merge([("task", Str(description))], columns)
  }

  /**
   * The sidecar holds "task" first and every column key after it; a column named "task"
   * replaces the description, every other column keeps its metadata.
   */
  lemma SidecarDocSpec(description: string, columns: Fields, k: string)
    requires DistinctKeys(columns)
    ensures var doc := SidecarDoc(description, columns);
      && ["task"] <= Keys(doc)
      && DistinctKeys(doc)
      && (k in Keys(doc) <==> k == "task" || k in Keys(columns))
      && Lookup(doc, k) == if k in Keys(columns) then Lookup(columns, k)
                           else if k == "task" then Some(Str(description)) else None
  {
    assert Keys([("task", Str(description))]) == ["task"];
    MergeSpec([("task", Str(description))], columns, k);
  }

  /** Without a "task" column the sidecar is the description followed by the columns, in order. */
  lemma SidecarDocNoCollision(description: string, columns: Fields)
    requires DistinctKeys(columns)
    requires "task" !in Keys(columns)
    ensures SidecarDoc(description, columns) == [("task", Str(description))] + columns
  {
    assert Keys([("task", Str(description))]) == ["task"];
    forall i | 0 <= i < |columns| ensures columns[i].0 !in Keys([("task", Str(description))]) {
      KeysIndex(columns, i);
    }
    MergeDisjoint([("task", Str(description))], columns);
  }

  /** One sidecar to write: where, and what. */
  datatype Sidecar = Sidecar(path: Path, doc: Json)

  /** The loop body before the write: id extraction, the two assertions, the merge and the path. */
  function Plan(rec: FileRecord, tasks: TaskTable, columns: ColumnTable): Result<Sidecar, Error> {
    match TaskId(rec.task)
    case Failure(e) => Failure(e)
    case Success(id) =>
      if id !in tasks then Failure(MissingTaskDescription(id))
      else if id !in columns then Failure(MissingColumnDescription(id))
      else Success(Sidecar(Path(rec.filePath, SidecarName(rec.fname)), Obj(SidecarDoc(tasks[id], columns[id]))))
  }

  /** The planned sidecar fails exactly on a malformed entity or a missing table key, and is otherwise the merge at the derived path. */
  lemma PlanSpec(rec: FileRecord, tasks: TaskTable, columns: ColumnTable)
    ensures Plan(rec, tasks, columns).Success? <==>
      TaskId(rec.task).Success? && TaskId(rec.task).value in tasks && TaskId(rec.task).value in columns
    ensures Plan(rec, tasks, columns).Success? ==> '-' in rec.task
    ensures Plan(rec, tasks, columns).Success? ==>
      var id := TaskId(rec.task).value;
      && Plan(rec, tasks, columns).value.path == Path(rec.filePath, Split(rec.fname, '.')[0] + ".json")
      && Plan(rec, tasks, columns).value.doc == Obj(Merge([("task", Str(tasks[id]))], columns[id]))
  {
    TaskIdSpec(rec.task);
  }

  /** The state and outcome after the loop over `recs`; the first failing record stops it. */
  function Emit(files: Files, recs: seq<FileRecord>, tasks: TaskTable, columns: ColumnTable, overwrite: bool): (Files, Outcome<Error>)
    decreases |recs|
  {
    if recs == [] then (files, Pass)
    else
      match Plan(recs[0], tasks, columns)
      case Failure(e) => (files, Fail(e))
      case Success(s) => Emit(Written(files, s.path, JsonFile(s.doc), overwrite), recs[1..], tasks, columns, overwrite)
  }

  /** The sidecar paths of the records before the first failing one: the only paths the loop may touch. */
  function Reached(recs: seq<FileRecord>, tasks: TaskTable, columns: ColumnTable): set<Path>
    decreases |recs|
  {
    if recs == [] then {}
    else
      match Plan(recs[0], tasks, columns)
      case Failure(_) => {}
      case Success(s) => {s.path} + Reached(recs[1..], tasks, columns)
  }

  /** The loop of `create_beh_events_sidecar`; on success it returns its input list unchanged. */
  method CreateBehEventsSidecar(fs: FileSystem, recs: seq<FileRecord>, tasks: TaskTable, columns: ColumnTable, overwrite: bool)
    returns (r: Result<seq<FileRecord>, Error>)
    modifies fs
    ensures r.Success? ==> r.value == recs
    ensures Emit(old(fs.files), recs, tasks, columns, overwrite)
      == (fs.files, if r.Success? then Pass else Fail(r.error))
  {
    var i := 0;
    assert recs[0..] == recs;
    while i < |recs|
      invariant 0 <= i <= |recs|
      invariant Emit(old(fs.files), recs, tasks, columns, overwrite) == Emit(fs.files, recs[i..], tasks, columns, overwrite)
    {
      var f := recs[i];
      assert recs[i..][0] == f && recs[i..][1..] == recs[i + 1..];
      var task := Split(f.task, '-');
      if |task| < 2 {
        return Failure(MalformedTaskEntity(f.task));
      }
      var id := task[1];
      if id !in tasks {
        return Failure(MissingTaskDescription(id));
      }
      if id !in columns {
        return Failure(MissingColumnDescription(id));
      }
      var jsonSidecar := Obj(SidecarDoc(tasks[id], columns[id]));
      var sidecarFile := Path(f.filePath, SidecarName(f.fname));
      fs.WriteUnlessPresent(sidecarFile, JsonFile(jsonSidecar), overwrite);
      i := i + 1;
    }
    return Success(recs);
  }

  /** Every record has a task id known to both tables. */
  predicate AllPlanned(recs: seq<FileRecord>, tasks: TaskTable, columns: ColumnTable) {
    forall i :: 0 <= i < |recs| ==> Plan(recs[i], tasks, columns).Success?
  }

  /** The loop finishes exactly when every record plans; the outcome does not depend on the files present. */
  lemma {:induction false} EmitOutcome(files: Files, other: Files, recs: seq<FileRecord>, tasks: TaskTable, columns: ColumnTable, overwrite: bool)
    ensures Emit(files, recs, tasks, columns, overwrite).1 == Pass <==> AllPlanned(recs, tasks, columns)
    ensures Emit(files, recs, tasks, columns, overwrite).1 == Emit(other, recs, tasks, columns, overwrite).1
    decreases |recs|
  {
    if recs != [] && Plan(recs[0], tasks, columns).Success? {
      var s := Plan(recs[0], tasks, columns).value;
      EmitOutcome(Written(files, s.path, JsonFile(s.doc), overwrite), Written(other, s.path, JsonFile(s.doc), overwrite),
        recs[1..], tasks, columns, overwrite);
      assert forall i :: 1 <= i < |recs| ==> recs[1..][i - 1] == recs[i];
    }
  }

  /**
   * A failure at record k aborts the loop with that record's error, after the sidecars of the
   * records before k have been written and before anything is written for record k.
   */
  lemma {:induction false} EmitStopsAt(files: Files, recs: seq<FileRecord>, tasks: TaskTable, columns: ColumnTable, overwrite: bool, k: int)
    requires 0 <= k < |recs|
    requires forall i :: 0 <= i < k ==> Plan(recs[i], tasks, columns).Success?
    requires Plan(recs[k], tasks, columns).Failure?
    ensures Emit(files, recs, tasks, columns, overwrite)
      == (Emit(files, recs[..k], tasks, columns, overwrite).0, Fail(Plan(recs[k], tasks, columns).error))
    decreases k
  {
    if k > 0 {
      var s := Plan(recs[0], tasks, columns).value;
      assert recs[..k][0] == recs[0] && recs[..k][1..] == recs[1..][..k - 1];
      assert forall i :: 0 <= i < k - 1 ==> recs[1..][i] == recs[i + 1];
      EmitStopsAt(Written(files, s.path, JsonFile(s.doc), overwrite), recs[1..], tasks, columns, overwrite, k - 1);
    }
  }

  /**
   * Nothing but the reached sidecar paths changes; no file disappears; every reached path exists
   * afterwards; and with `overwrite` off no existing file changes.
   */
  lemma {:induction false} EmitFrame(files: Files, recs: seq<FileRecord>, tasks: TaskTable, columns: ColumnTable, overwrite: bool)
    ensures var after := Emit(files, recs, tasks, columns, overwrite).0;
      && after.Keys == files.Keys + Reached(recs, tasks, columns)
      && (forall p :: p in files && p !in Reached(recs, tasks, columns) ==> after[p] == files[p])
      && (!overwrite ==> forall p :: p in files ==> after[p] == files[p])
    decreases |recs|
  {
    if recs != [] && Plan(recs[0], tasks, columns).Success? {
      var s := Plan(recs[0], tasks, columns).value;
      EmitFrame(Written(files, s.path, JsonFile(s.doc), overwrite), recs[1..], tasks, columns, overwrite);
    }
  }

  /** With `overwrite` off, a run over files that already hold every reached sidecar changes nothing. */
  lemma {:induction false} EmitSkipsPresent(files: Files, recs: seq<FileRecord>, tasks: TaskTable, columns: ColumnTable)
    requires Reached(recs, tasks, columns) <= files.Keys
    ensures Emit(files, recs, tasks, columns, false).0 == files
    decreases |recs|
  {
    if recs != [] && Plan(recs[0], tasks, columns).Success? {
      var s := Plan(recs[0], tasks, columns).value;
      assert Written(files, s.path, JsonFile(s.doc), false) == files;
      EmitSkipsPresent(files, recs[1..], tasks, columns);
    }
  }

  /** Running the sidecar step twice with `overwrite` off gives the state and outcome of running it once. */
  lemma EmitIdempotent(files: Files, recs: seq<FileRecord>, tasks: TaskTable, columns: ColumnTable)
    ensures var once := Emit(files, recs, tasks, columns, false);
      Emit(once.0, recs, tasks, columns, false) == once
  {
    var once := Emit(files, recs, tasks, columns, false);
    EmitFrame(files, recs, tasks, columns, false);
    EmitSkipsPresent(once.0, recs, tasks, columns);
    EmitOutcome(files, once.0, recs, tasks, columns, false);
  }

  /**
   * What a reached sidecar path holds afterwards: with `overwrite` on, the document of the last
   * record writing it, whatever was there before; with it off, the document of the first record
   * writing it, provided the file did not exist.
   */
  lemma {:induction false} EmitWrites(files: Files, recs: seq<FileRecord>, tasks: TaskTable, columns: ColumnTable, overwrite: bool, i: int)
    requires 0 <= i < |recs|
    requires forall j :: 0 <= j <= i ==> Plan(recs[j], tasks, columns).Success?
    requires overwrite ==> forall j :: i < j < |recs| && Plan(recs[j], tasks, columns).Success? ==>
      Plan(recs[j], tasks, columns).value.path != Plan(recs[i], tasks, columns).value.path
    requires !overwrite ==> (Plan(recs[i], tasks, columns).value.path !in files
      && forall j :: 0 <= j < i ==> Plan(recs[j], tasks, columns).value.path != Plan(recs[i], tasks, columns).value.path)
    ensures var s := Plan(recs[i], tasks, columns).value;
      var after := Emit(files, recs, tasks, columns, overwrite).0;
      s.path in after && after[s.path] == JsonFile(s.doc)
    decreases |recs|
  {
    var s0 := Plan(recs[0], tasks, columns).value;
    var files' := Written(files, s0.path, JsonFile(s0.doc), overwrite);
    var s := Plan(recs[i], tasks, columns).value;
    if i == 0 {
      UntouchedAfter(files', recs[1..], tasks, columns, overwrite, s.path);
    } else {
      assert forall j :: 0 <= j < |recs| - 1 ==> recs[1..][j] == recs[j + 1];
      EmitWrites(files', recs[1..], tasks, columns, overwrite, i - 1);
    }
  }

  /** A path that no later successful record writes keeps its content through the rest of the loop (when `overwrite` is on, or it is already present). */
  lemma {:induction false} UntouchedAfter(files: Files, recs: seq<FileRecord>, tasks: TaskTable, columns: ColumnTable, overwrite: bool, p: Path)
    requires p in files
    requires overwrite ==> forall j :: 0 <= j < |recs| && Plan(recs[j], tasks, columns).Success? ==> Plan(recs[j], tasks, columns).value.path != p
    ensures p in Emit(files, recs, tasks, columns, overwrite).0
    ensures Emit(files, recs, tasks, columns, overwrite).0[p] == files[p]
    decreases |recs|
  {
    if recs != [] && Plan(recs[0], tasks, columns).Success? {
      var s := Plan(recs[0], tasks, columns).value;
      assert forall j :: 0 <= j < |recs| - 1 ==> recs[1..][j] == recs[j + 1];
      UntouchedAfter(Written(files, s.path, JsonFile(s.doc), overwrite), recs[1..], tasks, columns, overwrite, p);
    }
  }
}
