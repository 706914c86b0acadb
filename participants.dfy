/**
 * `create_participants_tsv` and `create_participants_json`: one row per distinct subject
 * with unknown age and sex, and a JSON description of each column of that table.
 */
module Participants {
  import opened Wrappers
  import opened Json
  import opened Fs
  import opened Records

  /** A data-frame cell; `None` is NaN. */
  type Cell = Option<string>

  /** A pandas data frame: column labels and rows of cells. */
  datatype Frame = Frame(columns: seq<string>, rows: seq<seq<Cell>>)

  /** Every row has one cell per column. */
  predicate WellFormed(f: Frame) {
    forall i :: 0 <= i < |f.rows| ==> |f.rows[i]| == |f.columns|
  }

  /** The columns of the generated table, in the order of the dict literal that builds it. */
  const StandardColumns: seq<string> := ["participant_id", "age", "sex"]

  /** `set(fl["subject"] for fl in recs)`. */
  function SubjectSet(recs: seq<FileRecord>): set<string> {
    set r | r in recs :: r.subject
  }

  /** `ids` lists the members of `s`, each exactly once: what `list(s)` returns, in some order. */
  predicate Enumerates(ids: seq<string>, s: set<string>) {
    && (forall i, j :: 0 <= i < j < |ids| ==> ids[i] != ids[j])
    && (forall x :: x in ids ==> x in s)
    && (forall x :: x in s ==> x in ids)
  }

  /** `list(set)`: the order is the set's iteration order, which the model leaves open. */
  method ListOf(s: set<string>) returns (ids: seq<string>)
    ensures Enumerates(ids, s)
  {
    ids := [];
    var rest := s;
    while rest != {}
      invariant rest <= s
      invariant forall i, j :: 0 <= i < j < |ids| ==> ids[i] != ids[j]
      invariant forall x :: x in ids <==> x in s && x !in rest
      decreases |rest|
    {
      var x :| x in rest;
      ids := ids + [x];
      rest := rest - {x};
    }
  }

  /** Every finite set can be listed. */
  lemma {:induction false} EnumerationExists(s: set<string>)
    ensures exists ids :: Enumerates(ids, s)
    decreases |s|
  {
    if s == {} {
      assert Enumerates([], s);
    } else {
      var x :| x in s;
      EnumerationExists(s - {x});
      var ids :| Enumerates(ids, s - {x});
      assert Enumerates(ids + [x], s);
    }
  }

  /** A listing of a set is as long as the set has members. */
  lemma {:induction false} EnumeratesSize(ids: seq<string>, s: set<string>)
    requires Enumerates(ids, s)
    ensures |ids| == |s|
    decreases |ids|
  {
    if ids != [] {
      var x := ids[|ids| - 1];
      var init := ids[..|ids| - 1];
      assert forall y :: y in init ==> y in ids;
      assert x !in init by {
        forall i | 0 <= i < |init| ensures init[i] != x {
          assert init[i] == ids[i];
        }
      }
      assert forall y :: y in ids <==> y in init || y == x by {
        assert ids == init + [x];
      }
      EnumeratesSize(init, s - {x});
    } else {
      assert forall y :: y !in s;
      assert s == {};
    }
  }

  /** There are never more distinct subjects than events files. */
  lemma {:induction false} SubjectSetSize(recs: seq<FileRecord>)
    ensures |SubjectSet(recs)| <= |recs|
    decreases |recs|
  {
    if recs != [] {
      var init := recs[..|recs| - 1];
      SubjectSetSize(init);
      assert recs == init + [recs[|recs| - 1]];
      assert SubjectSet(recs) == SubjectSet(init) + {recs[|recs| - 1].subject};
    }
  }

  /** The frame built from the listed subjects: the id, then NaN age and NaN sex. */
  function ParticipantsFrame(ids: seq<string>): Frame {
    Frame(StandardColumns, seq(|ids|, i requires 0 <= i < |ids| => [Some(ids[i]), None, None]))
  }

  /** The `participant_id` column of a frame. */
  function IdColumn(f: Frame): seq<Cell>
    requires forall i :: 0 <= i < |f.rows| ==> |f.rows[i]| >= 1
  {
    seq(|f.rows|, i requires 0 <= i < |f.rows| => f.rows[i][0])
  }

  /**
   * The participants frame of the discovered files is well formed, lists every subject exactly
   * once and nothing else, and leaves every age and sex unknown.
   */
  lemma ParticipantsFrameSpec(recs: seq<FileRecord>, ids: seq<string>)
    requires Enumerates(ids, SubjectSet(recs))
    ensures var f := ParticipantsFrame(ids);
      && WellFormed(f)
      && f.columns == ["participant_id", "age", "sex"]
      && |f.rows| == |SubjectSet(recs)| <= |recs|
      && (forall x :: Some(x) in IdColumn(f) <==> x in SubjectSet(recs))
      && (forall i, j :: 0 <= i < j < |f.rows| ==> f.rows[i][0] != f.rows[j][0])
      && (forall i :: 0 <= i < |f.rows| ==> f.rows[i][1] == None && f.rows[i][2] == None)
  {
    EnumeratesSize(ids, SubjectSet(recs));
    SubjectSetSize(recs);
    var f := ParticipantsFrame(ids);
    forall x ensures Some(x) in IdColumn(f) <==> x in SubjectSet(recs) {
      if x in ids {
        var i :| 0 <= i < |ids| && ids[i] == x;
        assert IdColumn(f)[i] == Some(x);
      }
      if Some(x) in IdColumn(f) {
        var i :| 0 <= i < |IdColumn(f)| && IdColumn(f)[i] == Some(x);
        assert ids[i] == x;
      }
    }
  }

  /** The text pandas writes for a cell: `na_rep` is the empty string. */
  function CellText(c: Cell): string {
    match c
    case None => ""
    case Some(s) => s
  }

  /** Reading a cell back: an empty field is NaN. */
  function ReadCell(s: string): Cell {
    if s == "" then None else Some(s)
  }

  /** The decimal digits of `n`, as pandas writes a default index label. */
  function NatToString(n: nat): string
    decreases n
  {
    var d := "0123456789"[n % 10];
    if n < 10 then [d] else NatToString(n / 10) + [d]
  }

  /**
   * `frame.to_csv(path, sep="\t", index=...)`: the header, then one line per row; with the
   * index the header starts with an empty label and each line with the row number.
   */
  function ToCsv(f: Frame, index: bool): Content {
    var lead := if index then [""] else [];
    TsvFile(
      lead + f.columns,
      seq(|f.rows|, i requires 0 <= i < |f.rows| =>
        (if index then [NatToString(i)] else []) + seq(|f.rows[i]|, j requires 0 <= j < |f.rows[i]| => CellText(f.rows[i][j]))))
  }

  /** Reads back what `ToCsv` writes: every cell as text, an empty field as NaN, the first column dropped when indexed. */
  function FromCsv(c: Content, index: bool): Option<Frame> {
    match c
    case TsvFile(header, lines) =>
      var skip := if index then 1 else 0;
      if |header| < skip || exists i :: 0 <= i < |lines| && |lines[i]| < skip then None
      else Some(Frame(header[skip..],
        seq(|lines|, i requires 0 <= i < |lines| && skip <= |lines[i]| =>
          seq(|lines[i]| - skip, j requires 0 <= j < |lines[i]| - skip => ReadCell(lines[i][j + skip])))))
    case _ => None
  }

  /** No cell holds the empty string, which the written table could not tell apart from NaN. */
  predicate NoEmptyText(f: Frame) {
    forall i, j :: 0 <= i < |f.rows| && 0 <= j < |f.rows[i]| ==> f.rows[i][j] != Some("")
  }

  /** Reading a written table back gives the same frame, with or without the index column. */
  lemma CsvRoundTrip(f: Frame, index: bool)
    requires NoEmptyText(f)
    ensures FromCsv(ToCsv(f, index), index) == Some(f)
  {
    var c := ToCsv(f, index);
    var skip := if index then 1 else 0;
    assert c.header[skip..] == f.columns;
    assert forall i :: 0 <= i < |c.rows| ==> |c.rows[i]| >= skip;
    var g := FromCsv(c, index).value;
    assert g.columns == f.columns;
    assert |g.rows| == |f.rows|;
    forall i | 0 <= i < |f.rows| ensures g.rows[i] == f.rows[i] {
      var cells := seq(|f.rows[i]|, j requires 0 <= j < |f.rows[i]| => CellText(f.rows[i][j]));
      var lead := if index then [NatToString(i)] else [];
      assert c.rows[i] == lead + cells;
      assert |g.rows[i]| == |f.rows[i]|;
      forall j | 0 <= j < |f.rows[i]| ensures g.rows[i][j] == f.rows[i][j] {
        assert c.rows[i][j + skip] == cells[j];
        assert g.rows[i][j] == ReadCell(c.rows[i][j + skip]);
      }
    }
    assert g.rows == f.rows;
  }

  /** What `create_participants_tsv` writes: the header and one line per subject, with or without the index. */
  lemma ParticipantsCsv(ids: seq<string>, index: bool)
    ensures var c := ToCsv(ParticipantsFrame(ids), index);
      && c.header == (if index then ["", "participant_id", "age", "sex"] else ["participant_id", "age", "sex"])
      && |c.rows| == |ids|
      && forall i :: 0 <= i < |ids| ==>
           c.rows[i] == if index then [NatToString(i), ids[i], "", ""] else [ids[i], "", ""]
  {
    var f := ParticipantsFrame(ids);
    var c := ToCsv(f, index);
    assert [""] + StandardColumns == ["", "participant_id", "age", "sex"];
    forall i | 0 <= i < |ids| ensures c.rows[i] == if index then [NatToString(i), ids[i], "", ""] else [ids[i], "", ""] {
      var cells := seq(|f.rows[i]|, j requires 0 <= j < |f.rows[i]| => CellText(f.rows[i][j]));
      assert f.rows[i] == [Some(ids[i]), None, None];
      assert cells == [ids[i], "", ""];
      assert [NatToString(i)] + cells == [NatToString(i), ids[i], "", ""];
    }
  }

  /** `create_participants_tsv`: list the subjects, build the frame and write it unless present. */
  method CreateParticipantsTsv(fs: FileSystem, root: string, recs: seq<FileRecord>, index: bool, overwrite: bool)
    returns (participants: Frame)
    modifies fs
    ensures exists ids :: Enumerates(ids, SubjectSet(recs)) && participants == ParticipantsFrame(ids)
    ensures fs.files == Written(old(fs.files), Path(root, "participants.tsv"), ToCsv(participants, index), overwrite)
  {
    var subjectsList := ListOf(set fl | fl in recs :: fl.subject);
    participants := ParticipantsFrame(subjectsList);
    fs.WriteUnlessPresent(Path(root, "participants.tsv"), ToCsv(participants, index), overwrite);
  }

  /** `{"Description": "Age of the participant", "Units": "years"}`. */
  function AgeDescriptor(): Json {
    Obj([("Description", Str("Age of the participant")), ("Units", Str("years"))])
  }

  /** The sex column's description with its two levels `m` and `f`. */
  function SexDescriptor(description: string): Json {
    Obj([("Description", Str(description)), ("Levels", Obj([("m", Str("male")), ("f", Str("female"))]))])
  }

  /** The blank entry for any other column, left for the user to fill in. */
  function PlaceholderDescriptor(): Json {
    Obj([("Description", Str("")), ("Levels", Obj([])), ("Units", Str(""))])
  }

  /** The entry for one column label. */
  function Descriptor(column: string, sexText: string): Json {
    if column == "age" then AgeDescriptor()
    else if column == "sex" then SexDescriptor(sexText)
    else PlaceholderDescriptor()
  }

  /** `participants_json.update({col: ...})` for each label in turn. */
  function DescribeColumns(columns: seq<string>, sexText: string): Fields
    decreases |columns|
  {
    if columns == [] then []
    else
      var last := columns[|columns| - 1];
      Put(DescribeColumns(columns[..|columns| - 1], sexText), last, Descriptor(last, sexText))
  }

  /** The participants JSON describes exactly the labels of the table, each once and with its own entry. */
  lemma {:induction false} DescribeColumnsSpec(columns: seq<string>, sexText: string, k: string)
    ensures var d := DescribeColumns(columns, sexText);
      && DistinctKeys(d)
      && (k in Keys(d) <==> k in columns)
      && Lookup(d, k) == (if k in columns then Some(Descriptor(k, sexText)) else None)
    decreases |columns|
  {
    var d := DescribeColumns(columns, sexText);
    LookupSomeIff(d, k);
    if columns != [] {
      var init, last := columns[..|columns| - 1], columns[|columns| - 1];
      DescribeColumnsSpec(init, sexText, k);
      assert columns == init + [last];
      assert k in columns <==> k in init || k == last;
    }
  }

  /** For distinct labels the keys of the participants JSON come in column order. */
  lemma {:induction false} DescribeColumnsOrder(columns: seq<string>, sexText: string)
    requires forall i, j :: 0 <= i < j < |columns| ==> columns[i] != columns[j]
    ensures Keys(DescribeColumns(columns, sexText)) == columns
    decreases |columns|
  {
    if columns != [] {
      var init, last := columns[..|columns| - 1], columns[|columns| - 1];
      assert last !in init by {
        forall i | 0 <= i < |init| ensures init[i] != last {
          assert init[i] == columns[i];
        }
      }
      forall i, j | 0 <= i < j < |init| ensures init[i] != init[j] {
        assert init[i] == columns[i] && init[j] == columns[j];
      }
      DescribeColumnsOrder(init, sexText);
      DescribeColumnsSpec(init, sexText, last);
      assert columns == init + [last];
    }
  }

  /** The entry written for the generated table: a blank one for `participant_id`, then age, then sex. */
  lemma StandardDescription(sexText: string)
    ensures DescribeColumns(StandardColumns, sexText) == [
      ("participant_id", PlaceholderDescriptor()),
      ("age", AgeDescriptor()),
      ("sex", SexDescriptor(sexText))]
  {
    DescribeThree("participant_id", "age", "sex", sexText);
    assert Descriptor("participant_id", sexText) == PlaceholderDescriptor();
    assert Descriptor("age", sexText) == AgeDescriptor();
    assert Descriptor("sex", sexText) == SexDescriptor(sexText);
  }

  /** Three different labels are described in their order. */
  lemma DescribeThree(a: string, b: string, c: string, sexText: string)
    requires a != b && a != c && b != c
    ensures DescribeColumns([a, b, c], sexText) == [(a, Descriptor(a, sexText)), (b, Descriptor(b, sexText)), (c, Descriptor(c, sexText))]
  {
    var c0: seq<string> := [];
    var c1 := c0 + [a];
    var c2 := c1 + [b];
    assert c2 + [c] == [a, b, c];
    DescribeAppendNew(c0, a, sexText);
    DescribeAppendNew(c1, b, sexText);
    DescribeAppendNew(c2, c, sexText);
  }

  /** A label not seen before adds its description at the end. */
  lemma DescribeAppendNew(columns: seq<string>, col: string, sexText: string)
    requires col !in columns
    ensures DescribeColumns(columns + [col], sexText) == DescribeColumns(columns, sexText) + [(col, Descriptor(col, sexText))]
  {
    var all := columns + [col];
    assert all[..|all| - 1] == columns;
    DescribeColumnsSpec(columns, sexText, col);
    PutNew(DescribeColumns(columns, sexText), col, Descriptor(col, sexText));
  }

  /** The console warning for a label other than `age` and `sex`, with the label when it is printed. */
  datatype Warning = ExtraColumn(column: Option<string>)

  /** How a variant warns: naming the label and only when verbose, or always and without it. */
  datatype WarningStyle = NamedWhenVerbose | AlwaysUnnamed

  /** The warning printed, if any, when the label `col` is described. */
  function WarningFor(col: string, style: WarningStyle, verbose: bool): seq<Warning> {
    if col == "age" || col == "sex" then []
    else if style == AlwaysUnnamed then [ExtraColumn(None)]
    else if verbose then [ExtraColumn(Some(col))]
    else []
  }

  /** The warnings printed while describing `columns`, in order. */
  function Warnings(columns: seq<string>, style: WarningStyle, verbose: bool): seq<Warning>
    decreases |columns|
  {
    if columns == [] then []
    else
      var last := columns[|columns| - 1];
      Warnings(columns[..|columns| - 1], style, verbose) + WarningFor(last, style, verbose)
  }

  /** The labels that are neither `age` nor `sex`, in order. */
  function ExtraColumns(columns: seq<string>): seq<string>
    decreases |columns|
  {
    if columns == [] then []
    else
      var last := columns[|columns| - 1];
      ExtraColumns(columns[..|columns| - 1]) + (if last == "age" || last == "sex" then [] else [last])
  }

  /**
   * One warning per extra label: named and only when verbose in one style, unnamed and always
   * in the other.
   */
  lemma {:induction false} WarningsSpec(columns: seq<string>, style: WarningStyle, verbose: bool)
    ensures style == NamedWhenVerbose && verbose ==>
      Warnings(columns, style, verbose) == seq(|ExtraColumns(columns)|, i requires 0 <= i < |ExtraColumns(columns)| => ExtraColumn(Some(ExtraColumns(columns)[i])))
    ensures style == NamedWhenVerbose && !verbose ==> Warnings(columns, style, verbose) == []
    ensures style == AlwaysUnnamed ==>
      Warnings(columns, style, verbose) == seq(|ExtraColumns(columns)|, _ => ExtraColumn(None))
    decreases |columns|
  {
    if columns != [] {
      WarningsSpec(columns[..|columns| - 1], style, verbose);
    }
  }

  /** The generated table always triggers exactly one warning, for `participant_id`. */
  lemma StandardWarnings(style: WarningStyle, verbose: bool)
    ensures Warnings(StandardColumns, style, verbose) ==
      if style == AlwaysUnnamed then [ExtraColumn(None)]
      else if verbose then [ExtraColumn(Some("participant_id"))]
      else []
  {
    var cols := StandardColumns;
    assert cols[..2] == ["participant_id", "age"];
    assert cols[..2][..1] == ["participant_id"];
    assert cols[..2][..1][..0] == [];
    assert Warnings(cols, style, verbose) == Warnings(cols[..2], style, verbose);
    assert Warnings(cols[..2], style, verbose) == Warnings(cols[..2][..1], style, verbose);
  }

  /** The branch of the loop that reports a label other than `age` and `sex`. */
  method ColumnWarning(col: string, style: WarningStyle, verbose: bool) returns (printed: seq<Warning>)
    ensures printed == WarningFor(col, style, verbose)
    ensures |printed| <= 1
    ensures printed != [] <==> col != "age" && col != "sex" && (style == AlwaysUnnamed || verbose)
  {
    printed := [];
    if col != "age" && col != "sex" {
      if style == AlwaysUnnamed {
        printed := [ExtraColumn(None)];
      } else if verbose {
        printed := [ExtraColumn(Some(col))];
      }
    }
  }

  /** One more label: its description is put last and its warning, if any, appended. */
  lemma DescribeStep(cols: seq<string>, i: int, sexText: string, style: WarningStyle, verbose: bool)
    requires 0 <= i < |cols|
    ensures DescribeColumns(cols[..i + 1], sexText) == Put(DescribeColumns(cols[..i], sexText), cols[i], Descriptor(cols[i], sexText))
    ensures Warnings(cols[..i + 1], style, verbose) == Warnings(cols[..i], style, verbose) + WarningFor(cols[i], style, verbose)
  {
    assert cols[..i + 1][..i] == cols[..i];
  }

  /** `create_participants_json`: describe each label in turn, then write the object unless present. */
  method CreateParticipantsJson(fs: FileSystem, root: string, participants: Frame, sexText: string,
                                style: WarningStyle, verbose: bool, overwrite: bool)
    returns (warnings: seq<Warning>)
    modifies fs
    ensures warnings == Warnings(participants.columns, style, verbose)
    ensures fs.files == Written(old(fs.files), Path(root, "participants.json"),
      JsonFile(Obj(DescribeColumns(participants.columns, sexText))), overwrite)
  {
    var participantsJson: Fields := [];
    warnings := [];
    var cols := participants.columns;
    var i := 0;
    while i < |cols|
      invariant 0 <= i <= |cols|
      invariant participantsJson == DescribeColumns(cols[..i], sexText)
      invariant warnings == Warnings(cols[..i], style, verbose)
      invariant fs.files == old(fs.files)
    {
      var col := cols[i];
      DescribeStep(cols, i, sexText, style, verbose);
      var printed := ColumnWarning(col, style, verbose);
      warnings := warnings + printed;
      participantsJson := Put(participantsJson, col, Descriptor(col, sexText));
      i := i + 1;
    }
    assert cols[..i] == cols;
    fs.WriteUnlessPresent(Path(root, "participants.json"), JsonFile(Obj(participantsJson)), overwrite);
  }
}
