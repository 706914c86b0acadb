/**
 * JSON documents as `json.dump` writes them. An object is an ordered list of
 * (key, value) pairs: a Python dict keeps insertion order and `json.dump`
 * writes the keys in that order.
 */
module Json {
  import opened Wrappers

  datatype Json =
    | Null
    | Bool(b: bool)
    | Int(i: int)
    | Str(s: string)
    | Arr(items: seq<Json>)
    | Obj(fields: seq<(string, Json)>)

  /** The entries of a dict, in insertion order. */
  type Fields = seq<(string, Json)>

  function Keys(o: Fields): (ks: seq<string>)
    ensures |ks| == |o|
    decreases |o|
  {
    if o == [] then [] else [o[0].0] + Keys(o[1..])
  }

  /** What every Python dict satisfies: no key twice. */
  predicate DistinctKeys(o: Fields)
    decreases |o|
  {
    o == [] || (o[0].0 !in Keys(o[1..]) && DistinctKeys(o[1..]))
  }

  /** `d.get(k)`. */
  function Lookup(o: Fields, k: string): Option<Json>
    decreases |o|
  {
    if o == [] then None
    else if o[0].0 == k then Some(o[0].1)
    else Lookup(o[1..], k)
  }

  lemma {:induction false} LookupSomeIff(o: Fields, k: string)
    ensures Lookup(o, k).Some? <==> k in Keys(o)
    decreases |o|
  {
    if o != [] {
      LookupSomeIff(o[1..], k);
    }
  }

  /** `d[k] = v`: an existing key keeps its position and takes the new value, a new key goes last. */
  function Put(o: Fields, k: string, v: Json): (r: Fields)
    ensures Lookup(r, k) == Some(v)
    ensures forall k' :: k' != k ==> Lookup(r, k') == Lookup(o, k')
    ensures Keys(r) == if k in Keys(o) then Keys(o) else Keys(o) + [k]
    ensures DistinctKeys(o) ==> DistinctKeys(r)
    decreases |o|
  {
    if o == [] then [(k, v)]
    else if o[0].0 == k then [(k, v)] + o[1..]
    else
      var tail := Put(o[1..], k, v);
      assert ([o[0]] + tail)[1..] == tail;
      [o[0]] + tail
  }

  /** `{**a, **b}`: the entries of `b` are put into `a` one by one, so `b` wins on a shared key. */
  function Merge(a: Fields, b: Fields): Fields
    decreases |b|
  {
    if b == [] then a else Merge(Put(a, b[0].0, b[0].1), b[1..])
  }

  /**
   * A merge holds the keys of both dicts; a key of `b` reads `b`'s value, any other key reads `a`'s;
   * the keys of `a` keep their positions at the front, and no key appears twice.
   */
  lemma {:induction false} MergeSpec(a: Fields, b: Fields, k: string)
    requires DistinctKeys(b)
    ensures Lookup(Merge(a, b), k) == if k in Keys(b) then Lookup(b, k) else Lookup(a, k)
    ensures k in Keys(Merge(a, b)) <==> k in Keys(a) || k in Keys(b)
    ensures Keys(a) <= Keys(Merge(a, b))
    ensures DistinctKeys(a) ==> DistinctKeys(Merge(a, b))
    decreases |b|
  {
    if b != [] {
      var a' := Put(a, b[0].0, b[0].1);
      MergeSpec(a', b[1..], k);
      LookupSomeIff(a, k);
      LookupSomeIff(a', k);
      LookupSomeIff(b, k);
    }
  }

  /** When no key is shared, a merge is plain concatenation. */
  lemma {:induction false} MergeDisjoint(a: Fields, b: Fields)
    requires forall i :: 0 <= i < |b| ==> b[i].0 !in Keys(a)
    requires DistinctKeys(b)
    ensures Merge(a, b) == a + b
    decreases |b|
  {
    if b != [] {
      MergeFirstNew(a, b);
      AppendFirst(a, b);
      DisjointAfterFirst(a, b);
      MergeDisjoint(a + [b[0]], b[1..]);
    }
  }

  /** A key that is new to `a` is appended; the rest of the merge goes on from there. */
  lemma MergeFirstNew(a: Fields, b: Fields)
    requires b != [] && b[0].0 !in Keys(a)
    ensures Merge(a, b) == Merge(a + [b[0]], b[1..])
  {
    PutNew(a, b[0].0, b[0].1);
  }

  /** Moving the first element of `b` onto the end of `a` keeps the concatenation. */
  lemma AppendFirst<T>(a: seq<T>, b: seq<T>)
    requires b != []
    ensures (a + [b[0]]) + b[1..] == a + b
  {
    assert b == [b[0]] + b[1..];
  }

  /** Moving the first entry of `b` over to `a` keeps the two key lists apart. */
  lemma DisjointAfterFirst(a: Fields, b: Fields)
    requires b != []
    requires forall i :: 0 <= i < |b| ==> b[i].0 !in Keys(a)
    requires DistinctKeys(b)
    ensures forall i :: 0 <= i < |b[1..]| ==> b[1..][i].0 !in Keys(a + [b[0]])
  {
    KeysAppend(a, [b[0]]);
    assert Keys(a + [b[0]]) == Keys(a) + [b[0].0];
    forall i | 0 <= i < |b[1..]| ensures b[1..][i].0 !in Keys(a + [b[0]]) {
      KeysIndex(b[1..], i);
      assert b[1..][i] == b[i + 1];
    }
  }

  lemma {:induction false} KeysIndex(o: Fields, i: int)
    requires 0 <= i < |o|
    ensures Keys(o)[i] == o[i].0
    decreases |o|
  {
    if i > 0 {
      KeysIndex(o[1..], i - 1);
    }
  }

  lemma {:induction false} KeysAppend(a: Fields, b: Fields)
    ensures Keys(a + b) == Keys(a) + Keys(b)
    decreases |a|
  {
    if a == [] {
      assert a + b == b;
    } else {
      assert (a + b)[0] == a[0];
      assert (a + b)[1..] == a[1..] + b;
      KeysAppend(a[1..], b);
    }
  }

  /** Putting a new key appends the pair. */
  lemma {:induction false} PutNew(o: Fields, k: string, v: Json)
    requires k !in Keys(o)
    ensures Put(o, k, v) == o + [(k, v)]
    decreases |o|
  {
    if o != [] {
      PutNew(o[1..], k, v);
      assert [o[0]] + (o[1..] + [(k, v)]) == o + [(k, v)];
    }
  }

  /** No key twice, by position: distinct keys mean pairwise different first components. */
  lemma {:induction false} DistinctKeysIff(o: Fields)
    ensures DistinctKeys(o) <==> forall i, j :: 0 <= i < j < |o| ==> o[i].0 != o[j].0
    decreases |o|
  {
    if o != [] {
      DistinctKeysIff(o[1..]);
      forall i | 0 <= i < |o| - 1 {
        KeysIndex(o[1..], i);
      }
      assert forall k :: k in Keys(o[1..]) ==> exists i :: 0 <= i < |o| - 1 && Keys(o[1..])[i] == k;
      assert forall i, j :: 1 <= i < j < |o| ==> o[i] == o[1..][i - 1] && o[j] == o[1..][j - 1];
    }
  }

  /** In a dict without repeated keys, each entry is what its key looks up. */
  lemma {:induction false} LookupAt(o: Fields, i: int)
    requires DistinctKeys(o)
    requires 0 <= i < |o|
    ensures Lookup(o, o[i].0) == Some(o[i].1)
    decreases |o|
  {
    if i > 0 {
      LookupAt(o[1..], i - 1);
      KeysIndex(o[1..], i - 1);
    }
  }

  /** A key that looks something up stands at some position with that value. */
  lemma {:induction false} LookupFound(o: Fields, k: string)
    requires Lookup(o, k).Some?
    ensures exists i :: 0 <= i < |o| && o[i] == (k, Lookup(o, k).value)
    decreases |o|
  {
    if o[0].0 != k {
      LookupFound(o[1..], k);
      var i :| 0 <= i < |o| - 1 && o[1..][i] == (k, Lookup(o, k).value);
      assert o[i + 1] == o[1..][i];
    }
  }

  /** An entry is what its key looks up when no earlier entry has the same key. */
  lemma {:induction false} LookupFirst(o: Fields, i: int)
    requires 0 <= i < |o|
    requires forall j :: 0 <= j < i ==> o[j].0 != o[i].0
    ensures Lookup(o, o[i].0) == Some(o[i].1)
    decreases |o|
  {
    if i > 0 {
      assert forall j :: 0 <= j < i - 1 ==> o[1..][j] == o[j + 1];
      LookupFirst(o[1..], i - 1);
    }
  }
}
