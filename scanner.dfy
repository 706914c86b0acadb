/**
 * `walk_bids_root`: keep the events files of an `os.walk` traversal and split each name
 * on `_` into the subject, session, run and task entities.
 *
 * The traversal itself is an input: a sequence of (dirpath, filenames) steps in the order
 * `os.walk` produced them (the sub-directory list of each step plays no part).
 */
module Scanner {
  import opened Wrappers
  import opened PyStr
  import opened Records

  type Traversal = seq<(string, seq<string>)>

  /** The selection rule: the data-type marker looked for in the directory path, and the extension if one is checked. */
  datatype Selector = Selector(dataType: string, extension: Option<string>)

  /** `'events' in filename and data_type in dirpath [and filename.endswith(extension)]`. */
  predicate Keep(sel: Selector, dirpath: string, filename: string) {
    && Contains(filename, "events")
    && Contains(dirpath, sel.dataType)
    && (sel.extension.Some? ==> EndsWith(filename, sel.extension.value))
  }

  /** The (dirpath, filename) pairs of one walk step, in order. */
  function DirEntries(dirpath: string, filenames: seq<string>): (es: seq<(string, string)>)
    ensures |es| == |filenames|
    decreases |filenames|
  {
    if filenames == [] then [] else [(dirpath, filenames[0])] + DirEntries(dirpath, filenames[1..])
  }

  /** Every (dirpath, filename) pair of a walk, in walk order. */
  function Entries(w: Traversal): seq<(string, string)>
    decreases |w|
  {
    if w == [] then [] else DirEntries(w[0].0, w[0].1) + Entries(w[1..])
  }

  function Filter(es: seq<(string, string)>, sel: Selector): seq<(string, string)>
    decreases |es|
  {
    if es == [] then []
    else (if Keep(sel, es[0].0, es[0].1) then [es[0]] else []) + Filter(es[1..], sel)
  }

  /** The files of the walk that pass the selection rule, in walk order. */
  function Selected(w: Traversal, sel: Selector): seq<(string, string)> {
    Filter(Entries(w), sel)
  }

  /** The record built for one selected file; `parts[3]` raises IndexError on a name with fewer than four parts. */
  function Parse(dirpath: string, filename: string): Result<FileRecord, Error> {
    var parts := Split(filename, '_');
    if |parts| < 4 then Failure(MalformedFileName(dirpath, filename))
    else Success(FileRecord(dirpath, filename, parts[0], parts[1], parts[2], parts[3]))
  }

  /** `acc + rest` when `rest` succeeded; the error otherwise. */
  function Then(acc: seq<FileRecord>, rest: Result<seq<FileRecord>, Error>): Result<seq<FileRecord>, Error> {
    match rest
    case Success(rs) => Success(acc + rs)
    case Failure(e) => Failure(e)
  }

  /** The records of the given files, in order; the first malformed name aborts the whole walk. */
  function ParseAll(es: seq<(string, string)>): Result<seq<FileRecord>, Error>
    decreases |es|
  {
    if es == [] then Success([])
    else
      match Parse(es[0].0, es[0].1)
      case Failure(e) => Failure(e)
      case Success(r) => Then([r], ParseAll(es[1..]))
  }

  /** What `walk_bids_root` returns or raises for a walk. */
  function Scan(w: Traversal, sel: Selector): Result<seq<FileRecord>, Error> {
    ParseAll(Selected(w, sel))
  }

  /** The nested loop of `walk_bids_root`, shared by both variants; they differ only in `sel`. */
  method WalkFiles(w: Traversal, sel: Selector) returns (r: Result<seq<FileRecord>, Error>)
    ensures r == Scan(w, sel)
  {
    var filesInfos: seq<FileRecord> := [];
    var i := 0;
    assert w[0..] == w;
    ThenEmpty(Scan(w, sel));
    while i < |w|
      invariant 0 <= i <= |w|
      invariant Scan(w, sel) == Then(filesInfos, ParseAll(Filter(Entries(w[i..]), sel)))
    {
      var dirpath := w[i].0;
      var filenames := w[i].1;
      EntriesStep(w, i);
      var j := 0;
      while j < |filenames|
        invariant 0 <= j <= |filenames|
        invariant Scan(w, sel) == Then(filesInfos, ParseAll(Filter(DirEntries(dirpath, filenames[j..]) + Entries(w[i + 1..]), sel)))
      {
        var filename := filenames[j];
        WalkStep(w, sel, i, j, filesInfos);
        if Keep(sel, dirpath, filename) {
          var parts := Split(filename, '_');
          if |parts| < 4 {
            return Failure(MalformedFileName(dirpath, filename));
          }
          filesInfos := filesInfos + [FileRecord(dirpath, filename, parts[0], parts[1], parts[2], parts[3])];
        }
        j := j + 1;
      }
      assert DirEntries(dirpath, filenames[j..]) + Entries(w[i + 1..]) == Entries(w[i + 1..]);
      i := i + 1;
    }
    assert filesInfos + [] == filesInfos;
    r := Success(filesInfos);
  }

  /** One file of the inner loop: skipped, kept and parsed, or kept and failing. */
  lemma WalkStep(w: Traversal, sel: Selector, i: int, j: int, acc: seq<FileRecord>)
    requires 0 <= i < |w| && 0 <= j < |w[i].1|
    requires Scan(w, sel) == Then(acc, ParseAll(Filter(DirEntries(w[i].0, w[i].1[j..]) + Entries(w[i + 1..]), sel)))
    ensures var d, n := w[i].0, w[i].1[j];
      var later := ParseAll(Filter(DirEntries(d, w[i].1[j + 1..]) + Entries(w[i + 1..]), sel));
      && (!Keep(sel, d, n) ==> Scan(w, sel) == Then(acc, later))
      && (Keep(sel, d, n) && Parse(d, n).Failure? ==> Scan(w, sel) == Failure(Parse(d, n).error))
      && (Keep(sel, d, n) && Parse(d, n).Success? ==> Scan(w, sel) == Then(acc + [Parse(d, n).value], later))
  {
    var d, n := w[i].0, w[i].1[j];
    var rest := Filter(DirEntries(d, w[i].1[j + 1..]) + Entries(w[i + 1..]), sel);
    FilterStep(d, w[i].1, j, Entries(w[i + 1..]), sel);
    if Keep(sel, d, n) {
      ParseAllCons((d, n), rest);
      if Parse(d, n).Success? {
        ThenAssoc(acc, Parse(d, n).value, ParseAll(rest));
      }
    } else {
      assert [] + rest == rest;
    }
  }

  lemma EntriesStep(w: Traversal, i: int)
    requires 0 <= i < |w|
    ensures Entries(w[i..]) == DirEntries(w[i].0, w[i].1[0..]) + Entries(w[i + 1..])
  {
    assert w[i..][1..] == w[i + 1..];
    assert w[i].1[0..] == w[i].1;
  }

  lemma FilterStep(d: string, names: seq<string>, j: int, tail: seq<(string, string)>, sel: Selector)
    requires 0 <= j < |names|
    ensures Filter(DirEntries(d, names[j..]) + tail, sel)
      == (if Keep(sel, d, names[j]) then [(d, names[j])] else []) + Filter(DirEntries(d, names[j + 1..]) + tail, sel)
  {
    var rest := DirEntries(d, names[j + 1..]) + tail;
    assert names[j..][1..] == names[j + 1..];
    assert DirEntries(d, names[j..]) + tail == [(d, names[j])] + rest;
    assert ([(d, names[j])] + rest)[1..] == rest;
  }

  lemma ParseAllCons(e: (string, string), rest: seq<(string, string)>)
    ensures Parse(e.0, e.1).Failure? ==> ParseAll([e] + rest) == Failure(Parse(e.0, e.1).error)
    ensures Parse(e.0, e.1).Success? ==> ParseAll([e] + rest) == Then([Parse(e.0, e.1).value], ParseAll(rest))
  {
    assert ([e] + rest)[0] == e;
    assert ([e] + rest)[1..] == rest;
  }

  lemma ThenEmpty(rest: Result<seq<FileRecord>, Error>)
    ensures Then([], rest) == rest
  {
    if rest.Success? {
      assert [] + rest.value == rest.value;
    }
  }

  lemma ThenAssoc(acc: seq<FileRecord>, x: FileRecord, rest: Result<seq<FileRecord>, Error>)
    ensures Then(acc, Then([x], rest)) == Then(acc + [x], rest)
  {
    if rest.Success? {
      assert acc + ([x] + rest.value) == (acc + [x]) + rest.value;
    }
  }

  /** What parsing a list of files gives: success exactly when every name has four parts, and then one record per file. */
  lemma {:induction false} ParseAllSpec(es: seq<(string, string)>)
    ensures ParseAll(es).Success? <==> forall i :: 0 <= i < |es| ==> |Split(es[i].1, '_')| >= 4
    ensures ParseAll(es).Success? ==>
      && |ParseAll(es).value| == |es|
      && forall i :: 0 <= i < |es| ==> ParseAll(es).value[i] == Parse(es[i].0, es[i].1).value
    decreases |es|
  {
    if es != [] {
      ParseAllSpec(es[1..]);
      assert forall i :: 1 <= i < |es| ==> es[1..][i - 1] == es[i];
    }
  }

  /** The error raised is the one for the first selected file whose name is malformed. */
  lemma {:induction false} ParseAllFirstError(es: seq<(string, string)>, k: int)
    requires 0 <= k < |es|
    requires |Split(es[k].1, '_')| < 4
    requires forall i :: 0 <= i < k ==> |Split(es[i].1, '_')| >= 4
    ensures ParseAll(es) == Failure(MalformedFileName(es[k].0, es[k].1))
    decreases |es|
  {
    if k > 0 {
      assert forall i :: 0 <= i < k - 1 ==> es[1..][i] == es[i + 1];
      ParseAllFirstError(es[1..], k - 1);
    }
  }

  /**
   * The scan succeeds exactly when every selected file name has at least four `_`-separated parts;
   * it then holds one record per selected file, in walk order, whose fields are the directory path,
   * the file name and the first four parts of the name, verbatim.
   */
  lemma ScanRecords(w: Traversal, sel: Selector)
    ensures var s := Selected(w, sel);
      Scan(w, sel).Success? <==> forall i :: 0 <= i < |s| ==> |Split(s[i].1, '_')| >= 4
    ensures var s := Selected(w, sel);
      Scan(w, sel).Success? ==>
        && |Scan(w, sel).value| == |s|
        && forall i :: 0 <= i < |s| ==>
             var rec, parts := Scan(w, sel).value[i], Split(s[i].1, '_');
             && rec.filePath == s[i].0 && rec.fname == s[i].1
             && rec.subject == parts[0] && rec.session == parts[1]
             && rec.run == parts[2] && rec.task == parts[3]
  {
    ParseAllSpec(Selected(w, sel));
  }

  /** A file belongs to the selection exactly when the walk lists it and it passes the rule. */
  lemma {:induction false} FilterIff(es: seq<(string, string)>, sel: Selector, e: (string, string))
    ensures e in Filter(es, sel) <==> e in es && Keep(sel, e.0, e.1)
    decreases |es|
  {
    if es != [] {
      FilterIff(es[1..], sel, e);
      assert es == [es[0]] + es[1..];
    }
  }

  /** The selection keeps the walk's order: it is a subsequence of the walk's files. */
  ghost predicate IsSubsequence<T>(xs: seq<T>, ys: seq<T>)
    decreases |ys|
  {
    if xs == [] then true
    else if ys == [] then false
    else (xs[0] == ys[0] && IsSubsequence(xs[1..], ys[1..])) || IsSubsequence(xs, ys[1..])
  }

  lemma {:induction false} FilterIsSubsequence(es: seq<(string, string)>, sel: Selector)
    ensures IsSubsequence(Filter(es, sel), es)
    decreases |es|
  {
    if es != [] {
      FilterIsSubsequence(es[1..], sel);
      var rest := Filter(es[1..], sel);
      if Keep(sel, es[0].0, es[0].1) {
        assert Filter(es, sel) == [es[0]] + rest;
        assert ([es[0]] + rest)[1..] == rest;
      } else {
        assert Filter(es, sel) == rest;
        SubsequenceOfTail(rest, es);
      }
    }
  }

  lemma SubsequenceOfTail<T>(xs: seq<T>, ys: seq<T>)
    requires ys != []
    requires IsSubsequence(xs, ys[1..])
    ensures IsSubsequence(xs, ys)
  {
  }

  /** A walk in which no file passes the rule scans to the empty list, not to an error. */
  lemma {:induction false} ScanNothingSelected(w: Traversal, sel: Selector)
    requires forall e :: e in Entries(w) ==> !Keep(sel, e.0, e.1)
    ensures Scan(w, sel) == Success([])
  {
    var s := Selected(w, sel);
    if s != [] {
      FilterIff(Entries(w), sel, s[0]);
      assert false;
    }
  }

  /** The files of a walk are those listed in some step under that step's path. */
  lemma {:induction false} EntriesIff(w: Traversal, d: string, n: string)
    ensures (d, n) in Entries(w) <==> exists i :: 0 <= i < |w| && w[i].0 == d && n in w[i].1
    decreases |w|
  {
    if w != [] {
      EntriesIff(w[1..], d, n);
      DirEntriesIff(w[0].0, w[0].1, d, n);
      if exists i :: 0 <= i < |w| && w[i].0 == d && n in w[i].1 {
        var i :| 0 <= i < |w| && w[i].0 == d && n in w[i].1;
        if i > 0 {
          assert w[1..][i - 1] == w[i];
        }
      }
      if exists i :: 0 <= i < |w[1..]| && w[1..][i].0 == d && n in w[1..][i].1 {
        var i :| 0 <= i < |w[1..]| && w[1..][i].0 == d && n in w[1..][i].1;
        assert w[i + 1] == w[1..][i];
      }
    }
  }

  lemma {:induction false} DirEntriesIff(dirpath: string, filenames: seq<string>, d: string, n: string)
    ensures (d, n) in DirEntries(dirpath, filenames) <==> d == dirpath && n in filenames
    decreases |filenames|
  {
    if filenames != [] {
      DirEntriesIff(dirpath, filenames[1..], d, n);
      assert filenames == [filenames[0]] + filenames[1..];
    }
  }
}
