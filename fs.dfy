/**
 * The dataset directory as a map from paths to file contents, and the one write policy
 * every writer of the generator follows: when the target is already a file and
 * `overwrite` is false, leave everything as it is; otherwise replace the target.
 */
module Fs {
  import opened Json

  /** `Path(directory, name)`; pathlib's normalisation of separators is not modelled. */
  datatype Path = Path(dir: string, name: string)

  /** What a file holds, structurally: a JSON document, a tab-separated table, or text. */
  datatype Content =
    | JsonFile(doc: Json)
    | TsvFile(header: seq<string>, rows: seq<seq<string>>)
    | TextFile(text: string)

  type Files = map<Path, Content>

  /**
   * The state after `if os.path.isfile(p) and not overwrite: skip; else: write c to p`.
   * Exactly the target may change, and it holds `c` unless it existed and `overwrite` is off.
   */
  function Written(files: Files, p: Path, c: Content, overwrite: bool): (r: Files)
    ensures r.Keys == files.Keys + {p}
    ensures forall q :: q in files && q != p ==> r[q] == files[q]
    ensures r[p] == if p in files && !overwrite then files[p] else c
  {
    if p in files && !overwrite then files else files[p := c]
  }

  /** With `overwrite` off, a second write to the same path changes nothing, whatever it writes. */
  lemma WrittenIdempotent(files: Files, p: Path, c: Content, c': Content)
    ensures Written(Written(files, p, c, false), p, c', false) == Written(files, p, c, false)
  {
  }

  /** With `overwrite` on, the last write wins. */
  lemma WrittenLastWins(files: Files, p: Path, c: Content, c': Content)
    ensures Written(Written(files, p, c, true), p, c', true) == Written(files, p, c', true)
  {
  }

  /** A file that is already present is left alone when `overwrite` is off. */
  lemma WrittenSkipsExisting(files: Files, p: Path, c: Content)
    requires p in files
    ensures Written(files, p, c, false) == files
  {
  }

  /** The dataset directory the generator reads and writes. */
  class FileSystem {
    var files: Files

    constructor (initial: Files)
      ensures files == initial
    {
      files := initial;
    }

    /** `os.path.isfile(p)`. */
    function IsFile(p: Path): bool
      reads this
    {
      p in files
    }

    /** The conditional write shared by every writer of the generator. */
    method WriteUnlessPresent(p: Path, c: Content, overwrite: bool)
      modifies this
      ensures files == Written(old(files), p, c, overwrite)
    {
      if IsFile(p) && !overwrite {
        // the existing file is kept; the source only prints a warning here
      } else {
        files := files[p := c];
      }
    }
  }
}
