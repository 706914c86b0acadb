/**
 * The handful of Python string operations the metadata generator relies on:
 * `needle in hay`, `s.endswith(suffix)` and `s.split(sep)` with a one-character separator.
 */
module PyStr {

  /** `s.startswith(prefix)`. */
  predicate StartsWith(s: string, prefix: string) {
    |prefix| <= |s| && s[..|prefix|] == prefix
  }

  /** `s.endswith(suffix)`; every string ends with the empty suffix. */
  predicate EndsWith(s: string, suffix: string) {
    |suffix| <= |s| && s[|s| - |suffix|..] == suffix
  }

  /** A string ends with whatever was appended last. */
  lemma EndsWithAppend(s: string, t: string)
    ensures EndsWith(s + t, t)
  {
    assert (s + t)[|s|..] == t;
  }

  /** `needle in hay` for two strings: try every offset from the left. */
  predicate Contains(hay: string, needle: string)
    decreases |hay|
  {
    StartsWith(hay, needle) || (|hay| > 0 && Contains(hay[1..], needle))
  }

  /** Reference meaning of substring membership: `needle` occurs in `hay` at offset `i`. */
  ghost predicate OccursAt(hay: string, needle: string, i: int) {
    0 <= i && i + |needle| <= |hay| && hay[i..i + |needle|] == needle
  }

  lemma {:induction false} ContainsIff(hay: string, needle: string)
    ensures Contains(hay, needle) <==> exists i :: OccursAt(hay, needle, i)
    decreases |hay|
  {
    if |hay| > 0 {
      ContainsIff(hay[1..], needle);
    }
    if Contains(hay, needle) {
      if StartsWith(hay, needle) {
        assert OccursAt(hay, needle, 0);
      } else {
        var i :| OccursAt(hay[1..], needle, i);
        assert hay[1..][i..i + |needle|] == hay[i + 1..i + 1 + |needle|];
        assert OccursAt(hay, needle, i + 1);
      }
    }
    forall i | OccursAt(hay, needle, i) ensures Contains(hay, needle) {
      if i > 0 {
        assert hay[1..][i - 1..i - 1 + |needle|] == hay[i..i + |needle|];
        assert OccursAt(hay[1..], needle, i - 1);
      }
    }
  }

  /** Appending text after a string keeps every substring it already had. */
  lemma ContainsAppend(s: string, t: string, needle: string)
    requires Contains(s, needle)
    ensures Contains(s + t, needle)
  {
    ContainsIff(s, needle);
    var i :| OccursAt(s, needle, i);
    assert (s + t)[i..i + |needle|] == s[i..i + |needle|];
    assert OccursAt(s + t, needle, i);
    ContainsIff(s + t, needle);
  }

  /** `s.split(sep)`: the pieces between occurrences of `sep`, empty pieces included. */
  function Split(s: string, sep: char): (parts: seq<string>)
    ensures |parts| >= 1
    decreases |s|
  {
    if |s| == 0 then [""]
    else if s[0] == sep then [""] + Split(s[1..], sep)
    else
      var rest := Split(s[1..], sep);
      [[s[0]] + rest[0]] + rest[1..]
  }

  /** `sep.join(parts)`, the inverse of `Split`. */
  function Join(parts: seq<string>, sep: char): string
    requires |parts| >= 1
    decreases |parts|
  {
    if |parts| == 1 then parts[0] else parts[0] + [sep] + Join(parts[1..], sep)
  }

  /** Number of occurrences of `c` in `s`. */
  function Count(s: string, c: char): nat {
    if |s| == 0 then 0 else (if s[0] == c then 1 else 0) + Count(s[1..], c)
  }

  /** Joining the pieces of a split gives back the original string, and no piece holds the separator. */
  lemma {:induction false} SplitJoin(s: string, sep: char)
    ensures Join(Split(s, sep), sep) == s
    ensures forall i :: 0 <= i < |Split(s, sep)| ==> sep !in Split(s, sep)[i]
    decreases |s|
  {
    if |s| == 0 {
    } else if s[0] == sep {
      SplitJoin(s[1..], sep);
      assert s == [] + [sep] + s[1..];
    } else {
      SplitJoin(s[1..], sep);
      var rest := Split(s[1..], sep);
      if |rest| == 1 {
        assert s == [s[0]] + s[1..];
      } else {
        assert Join(rest, sep) == rest[0] + [sep] + Join(rest[1..], sep);
        assert s == [s[0]] + rest[0] + [sep] + Join(rest[1..], sep);
        assert ([[s[0]] + rest[0]] + rest[1..])[1..] == rest[1..];
      }
      forall i | 0 <= i < |Split(s, sep)| ensures sep !in Split(s, sep)[i] {
        if i > 0 {
          assert Split(s, sep)[i] == rest[i];
        }
      }
    }
  }

  /** Splitting the join of separator-free pieces gives back the pieces. */
  lemma {:induction false} JoinSplit(parts: seq<string>, sep: char)
    requires |parts| >= 1
    requires forall i :: 0 <= i < |parts| ==> sep !in parts[i]
    ensures Split(Join(parts, sep), sep) == parts
    decreases |parts|, |parts[0]|
  {
    var p := parts[0];
    if |p| == 0 {
      if |parts| == 1 {
      } else {
        var tail := Join(parts[1..], sep);
        assert Join(parts, sep) == [sep] + tail;
        assert ([sep] + tail)[1..] == tail;
        JoinSplit(parts[1..], sep);
        assert parts == [""] + parts[1..];
      }
    } else {
      var shorter := [p[1..]] + parts[1..];
      assert shorter[1..] == parts[1..];
      forall i | 0 <= i < |shorter| ensures sep !in shorter[i] {
        if i == 0 {
          assert forall c :: c in p[1..] ==> c in p;
        } else {
          assert shorter[i] == parts[i];
        }
      }
      JoinSplit(shorter, sep);
      var j := Join(parts, sep);
      assert j == [p[0]] + Join(shorter, sep);
      assert j[1..] == Join(shorter, sep);
      assert j[0] == p[0] && p[0] != sep;
      assert [p[0]] + p[1..] == p;
      assert ([[p[0]] + p[1..]] + parts[1..]) == parts;
    }
  }

  /** A split has exactly one more piece than there are separators. */
  lemma {:induction false} SplitCount(s: string, sep: char)
    ensures |Split(s, sep)| == Count(s, sep) + 1
    decreases |s|
  {
    if |s| > 0 {
      SplitCount(s[1..], sep);
    }
  }

  /** Every occurrence is counted: `c` occurs in `s` exactly when its count is positive. */
  lemma {:induction false} CountPositive(s: string, c: char)
    ensures Count(s, c) > 0 <==> c in s
    decreases |s|
  {
    if |s| > 0 {
      CountPositive(s[1..], c);
      assert c in s <==> s[0] == c || c in s[1..];
    }
  }

  /** Splitting gives at least two pieces exactly when the separator occurs. */
  lemma SplitHasSecond(s: string, sep: char)
    ensures |Split(s, sep)| >= 2 <==> sep in s
  {
    SplitCount(s, sep);
    CountPositive(s, sep);
  }

  /** The first piece of a split is the longest prefix that does not reach the first separator. */
  lemma {:induction false} SplitHead(s: string, sep: char)
    ensures StartsWith(s, Split(s, sep)[0])
    ensures sep !in Split(s, sep)[0]
    ensures |Split(s, sep)[0]| < |s| ==> s[|Split(s, sep)[0]|] == sep
    decreases |s|
  {
    if |s| > 0 && s[0] != sep {
      SplitHead(s[1..], sep);
      var h := Split(s[1..], sep)[0];
      assert Split(s, sep)[0] == [s[0]] + h;
      assert s[..|h| + 1] == [s[0]] + s[1..][..|h|];
      assert forall c :: c in [s[0]] + h ==> c == s[0] || c in h;
    }
  }

  /**
   * When there is a second piece, the string starts with the first piece, the separator and
   * the second piece, followed by the end of the string or another separator.
   */
  lemma {:induction false} SplitSecond(s: string, sep: char)
    requires |Split(s, sep)| >= 2
    ensures var parts := Split(s, sep); var n := |parts[0]| + 1 + |parts[1]|;
      && n <= |s| && s[..n] == parts[0] + [sep] + parts[1]
      && sep !in parts[1]
      && (n < |s| ==> s[n] == sep)
    decreases |s|
  {
    var parts := Split(s, sep);
    if s[0] == sep {
      SplitHead(s[1..], sep);
      var h := Split(s[1..], sep)[0];
      assert parts[0] == "" && parts[1] == h;
      assert s[..1 + |h|] == [sep] + s[1..][..|h|];
    } else {
      var rest := Split(s[1..], sep);
      assert parts[1..] == rest[1..];
      SplitSecond(s[1..], sep);
      assert parts[0] == [s[0]] + rest[0] && parts[1] == rest[1];
      var m := |rest[0]| + 1 + |rest[1]|;
      assert s[..m + 1] == [s[0]] + s[1..][..m];
    }
  }
}
