/** Python dicts keep their keys in insertion order, and the metadata
    helpers depend on that order (the header row is the key list of a
    record). A dict is modelled as an association list with distinct keys:
    assigning to a present key keeps its place, a new key goes last. */
module Dicts {

  import opened Json

  /** Position of `k` among the keys, or the length when it is absent. */
  function KeyIndex<V>(d: seq<(string, V)>, k: string): (i: nat)
    ensures i <= |d|
    ensures i < |d| ==> d[i].0 == k
    ensures forall j :: 0 <= j < i ==> d[j].0 != k
  {
    if d == [] then 0
    else if d[0].0 == k then 0
    else 1 + KeyIndex(d[1..], k)
  }

  /** `list(d.keys())` */
  function Keys<V>(d: seq<(string, V)>): (ks: seq<string>)
    ensures |ks| == |d|
    ensures forall i :: 0 <= i < |d| ==> ks[i] == d[i].0
  {
    seq(|d|, i requires 0 <= i < |d| => d[i].0)
  }

  /** No key occurs twice. */
  predicate DistinctKeys<V>(d: seq<(string, V)>)
  {
    forall i, j :: 0 <= i < j < |d| ==> d[i].0 != d[j].0
  }

  /** `d.get(k)` */
  function Lookup<V>(d: seq<(string, V)>, k: string): Option<V>
  {
    var i := KeyIndex(d, k);
    if i < |d| then Some(d[i].1) else None
  }

  /** `d[k] = v` */
  function Put<V>(d: seq<(string, V)>, k: string, v: V): seq<(string, V)>
  {
    var i := KeyIndex(d, k);
    if i < |d| then d[i := (k, v)] else d + [(k, v)]
  }

  /** After `d[k] = v`, `k` maps to `v` and every other key to what it
      mapped to before. */
  lemma PutLookup<V>(d: seq<(string, V)>, k: string, v: V, other: string)
    ensures Lookup(Put(d, k, v), k) == Some(v)
    ensures other != k ==> Lookup(Put(d, k, v), other) == Lookup(d, other)
  {
    var i := KeyIndex(d, k);
    var r := Put(d, k, v);
    KeyIndexAt(r, k, i);
    if other != k {
      var j := KeyIndex(d, other);
      if j < |d| {
        KeyIndexAt(r, other, j);
      } else {
        KeyIndexAbsent(r, other);
      }
    }
  }

  /** The key list grows by `k` only when `k` is new, and keys stay
      distinct. */
  lemma PutKeys<V>(d: seq<(string, V)>, k: string, v: V)
    ensures Keys(Put(d, k, v)) == if Lookup(d, k).Some? then Keys(d) else Keys(d) + [k]
    ensures DistinctKeys(d) ==> DistinctKeys(Put(d, k, v))
  {
    if KeyIndex(d, k) == |d| {
      assert Keys(Put(d, k, v)) == Keys(d) + [k];
    }
  }

  /** A key that occurs at `i` and nowhere before is found at `i`. */
  lemma {:induction false} KeyIndexAt<V>(d: seq<(string, V)>, k: string, i: nat)
    requires i < |d| && d[i].0 == k
    requires forall j :: 0 <= j < i ==> d[j].0 != k
    ensures KeyIndex(d, k) == i
  {
    if i > 0 {
      KeyIndexAt(d[1..], k, i - 1);
    }
  }

  /** A key that occurs nowhere is not found. */
  lemma {:induction false} KeyIndexAbsent<V>(d: seq<(string, V)>, k: string)
    requires forall j :: 0 <= j < |d| ==> d[j].0 != k
    ensures KeyIndex(d, k) == |d|
  {
    if d != [] {
      KeyIndexAbsent(d[1..], k);
    }
  }

  /** Assigning twice to the same key leaves only the second value. */
  lemma PutPut<V>(d: seq<(string, V)>, k: string, a: V, b: V)
    ensures Put(Put(d, k, a), k, b) == Put(d, k, b)
  {
    var i := KeyIndex(d, k);
    KeyIndexAt(Put(d, k, a), k, i);
  }

  /** The dict with keys `ks` and values `vs`, in that order. */
  function Zip<V>(ks: seq<string>, vs: seq<V>): (d: seq<(string, V)>)
    requires |ks| == |vs|
    ensures |d| == |ks| && Keys(d) == ks
    ensures forall i :: 0 <= i < |ks| ==> d[i] == (ks[i], vs[i])
  {
    seq(|ks|, i requires 0 <= i < |ks| => (ks[i], vs[i]))
  }

  /** Assigning to the `i`-th key of a zipped dict replaces its value. */
  lemma PutZipAt<V>(ks: seq<string>, vs: seq<V>, i: nat, v: V)
    requires |ks| == |vs| && i < |ks|
    requires forall j :: 0 <= j < i ==> ks[j] != ks[i]
    ensures Put(Zip(ks, vs), ks[i], v) == Zip(ks, vs[i := v])
  {
    KeyIndexAt(Zip(ks, vs), ks[i], i);
  }

  /** Assigning to a new key of a zipped dict appends it. */
  lemma PutZipNew<V>(ks: seq<string>, vs: seq<V>, k: string, v: V)
    requires |ks| == |vs| && k !in ks
    ensures Put(Zip(ks, vs), k, v) == Zip(ks + [k], vs + [v])
  {
    KeyIndexAbsent(Zip(ks, vs), k);
  }

  /** In a zipped dict, the first occurrence of a key holds its value. */
  lemma LookupZip<V>(ks: seq<string>, vs: seq<V>, i: nat)
    requires |ks| == |vs| && i < |ks|
    requires forall j :: 0 <= j < i ==> ks[j] != ks[i]
    ensures Lookup(Zip(ks, vs), ks[i]) == Some(vs[i])
  {
    KeyIndexAt(Zip(ks, vs), ks[i], i);
  }
}
