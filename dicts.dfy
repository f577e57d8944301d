/** Python dictionaries as the scripts use them: an insertion-ordered list of
    key/value pairs. Assigning to a key that is already present keeps its
    position; a new key goes to the end; `update` assigns the pairs of another
    dictionary one by one, in that dictionary's order. */
module Dicts {

  type Dict<K(==), V> = seq<(K, V)>

  /** The keys, in insertion order (Python's `d.keys()`). */
  function Keys<K(==), V>(d: Dict<K, V>): seq<K>
  {
    seq(|d|, i requires 0 <= i < |d| => d[i].0)
  }

  /** No key occurs twice: every dictionary the scripts build has this shape. */
  predicate Unique<K(==), V>(d: Dict<K, V>)
  {
    forall i, j :: 0 <= i < j < |d| ==> d[i].0 != d[j].0
  }

  /** Position of the first pair with key `k`. */
  function IndexOf<K(==), V>(d: Dict<K, V>, k: K): (i: nat)
    requires k in Keys(d)
    ensures i < |d| && d[i].0 == k
    ensures forall j :: 0 <= j < i ==> d[j].0 != k
  {
    if d[0].0 == k then 0
    else
      assert Keys(d) == [d[0].0] + Keys(d[1..]);
      1 + IndexOf(d[1..], k)
  }

  /** `d[k]` for a key that is present. */
  function Get<K(==), V>(d: Dict<K, V>, k: K): V
    requires k in Keys(d)
  {
    d[IndexOf(d, k)].1
  }

  /** `d.get(k, default)`. */
  function GetOr<K(==), V>(d: Dict<K, V>, k: K, default: V): (v: V)
    ensures k in Keys(d) ==> v == Get(d, k)
    ensures k !in Keys(d) ==> v == default
  {
    if k in Keys(d) then Get(d, k) else default
  }

  lemma GetAt<K, V>(d: Dict<K, V>, i: nat)
    requires Unique(d) && i < |d|
    ensures d[i].0 in Keys(d) && IndexOf(d, d[i].0) == i && Get(d, d[i].0) == d[i].1
  {
    assert Keys(d)[i] == d[i].0;
  }

  /** The position of a key depends on the keys alone. */
  lemma SameKeysSameIndex<K, V>(d: Dict<K, V>, r: Dict<K, V>, k: K)
    requires Keys(d) == Keys(r) && k in Keys(d)
    ensures IndexOf(r, k) == IndexOf(d, k)
  {
    var a, b := IndexOf(d, k), IndexOf(r, k);
    assert Keys(r)[a] == k && Keys(d)[b] == k;
  }

  /** Appending a pair does not move the keys already present. */
  lemma AppendKeepsIndex<K, V>(d: Dict<K, V>, p: (K, V), k: K)
    requires k in Keys(d)
    ensures k in Keys(d + [p]) && IndexOf(d + [p], k) == IndexOf(d, k)
  {
    var r := d + [p];
    var a := IndexOf(d, k);
    assert r[a] == d[a];
    assert Keys(r)[a] == k;
    var b := IndexOf(r, k);
    assert d[b] == r[b];
  }

  /** `d[k] = v`: an existing key keeps its place and takes the new value, a new
      key is appended; nothing else changes. */
  function Put<K(==), V>(d: Dict<K, V>, k: K, v: V): (r: Dict<K, V>)
    ensures Keys(r) == if k in Keys(d) then Keys(d) else Keys(d) + [k]
    ensures k in Keys(r) && Get(r, k) == v
    ensures forall k' :: k' != k && k' in Keys(d) ==> Get(r, k') == Get(d, k')
  {
    if k in Keys(d) then
      var i := IndexOf(d, k);
      var r := d[i := (k, v)];
      assert Keys(r) == Keys(d);
      SameKeysSameIndex(d, r, k);
      forall k' | k' != k && k' in Keys(d) ensures Get(r, k') == Get(d, k') {
        SameKeysSameIndex(d, r, k');
      }
      r
    else
      var r := d + [(k, v)];
      assert Keys(r) == Keys(d) + [k];
      assert IndexOf(r, k) == |d| by {
        forall j | 0 <= j < |d| ensures r[j].0 != k {
          assert Keys(d)[j] == d[j].0;
        }
      }
      forall k' | k' != k && k' in Keys(d) ensures Get(r, k') == Get(d, k') {
        AppendKeepsIndex(d, (k, v), k');
      }
      r
  }

  /** `d[k] = v` never introduces a second pair with the same key. */
  lemma PutKeepsUnique<K, V>(d: Dict<K, V>, k: K, v: V)
    requires Unique(d)
    ensures Unique(Put(d, k, v))
  {
    var r := Put(d, k, v);
    if k in Keys(d) {
      assert forall j :: 0 <= j < |r| ==> r[j].0 == Keys(r)[j] == Keys(d)[j] == d[j].0;
    } else {
      assert forall j :: 0 <= j < |d| ==> r[j].0 == Keys(r)[j] == Keys(d)[j] == d[j].0;
      assert r[|d|].0 == Keys(r)[|d|] == k;
      assert forall j :: 0 <= j < |d| ==> d[j].0 != k by {
        forall j | 0 <= j < |d| ensures d[j].0 != k {
          assert Keys(d)[j] == d[j].0;
        }
      }
    }
  }

  /** `d.update(o)`: the pairs of `o` assigned to `d` one by one, in order. */
  function Update<K(==), V>(d: Dict<K, V>, o: Dict<K, V>): (r: Dict<K, V>)
    decreases |o|
  {
    if o == [] then d else Update(Put(d, o[0].0, o[0].1), o[1..])
  }

  /** What `update` promises: the keys of both, the old keys first and in their
      old order; the value from `o` wherever `o` has the key, the old one
      elsewhere. */
  lemma {:induction false} UpdateSpec<K, V>(d: Dict<K, V>, o: Dict<K, V>)
    requires Unique(o)
    ensures forall k :: k in Keys(Update(d, o)) <==> k in Keys(d) || k in Keys(o)
    ensures Keys(d) <= Keys(Update(d, o))
    ensures forall k :: k in Keys(o) ==> Get(Update(d, o), k) == Get(o, k)
    ensures forall k :: k in Keys(d) && k !in Keys(o) ==> Get(Update(d, o), k) == Get(d, k)
    ensures Unique(d) ==> Unique(Update(d, o))
    decreases |o|
  {
    if Unique(d) {
      UpdateKeepsUnique(d, o);
    }
    if o != [] {
      var d' := Put(d, o[0].0, o[0].1);
      var o' := o[1..];
      assert Keys(o) == [o[0].0] + Keys(o');
      UpdateSpec(d', o');
      var r := Update(d', o');
      assert o[0].0 !in Keys(o') by {
        forall j | 0 <= j < |o'| ensures Keys(o')[j] != o[0].0 {
          assert o'[j] == o[j + 1];
        }
      }
      assert Get(o, o[0].0) == o[0].1;
      forall k | k in Keys(o') ensures Get(o, k) == Get(o', k) {
        var j := IndexOf(o', k);
        assert o[j + 1] == o'[j];
        assert Keys(o)[j + 1] == k;
        var m := IndexOf(o, k);
        assert m >= 1;
        assert o'[m - 1] == o[m];
      }
    }
  }

  lemma {:induction false} UpdateKeepsUnique<K, V>(d: Dict<K, V>, o: Dict<K, V>)
    requires Unique(d)
    ensures Unique(Update(d, o))
    decreases |o|
  {
    if o != [] {
      PutKeepsUnique(d, o[0].0, o[0].1);
      UpdateKeepsUnique(Put(d, o[0].0, o[0].1), o[1..]);
    }
  }

  /** `update` with one more pair is one more assignment at the end, so a loop
      assigning the pairs in order computes `Update`. */
  lemma {:induction false} UpdateSnoc<K, V>(d: Dict<K, V>, o: Dict<K, V>, k: K, v: V)
    ensures Update(d, o + [(k, v)]) == Put(Update(d, o), k, v)
    decreases |o|
  {
    if o == [] {
      assert [(k, v)][1..] == [];
    } else {
      assert (o + [(k, v)])[0] == o[0];
      assert (o + [(k, v)])[1..] == o[1..] + [(k, v)];
      UpdateSnoc(Put(d, o[0].0, o[0].1), o[1..], k, v);
    }
  }

  /** Dropping the last pair of a dictionary without repeated keys: the rest
      has no repeated keys, does not hold the last key, and keeps its values. */
  lemma PrefixOfUnique<K, V>(d: Dict<K, V>)
    requires d != [] && Unique(d)
    ensures Keys(d) == Keys(d[..|d| - 1]) + [d[|d| - 1].0]
    ensures Unique(d[..|d| - 1])
    ensures d[|d| - 1].0 !in Keys(d[..|d| - 1])
    ensures Get(d, d[|d| - 1].0) == d[|d| - 1].1
    ensures forall k :: k in Keys(d[..|d| - 1]) ==> Get(d, k) == Get(d[..|d| - 1], k)
  {
    var init := d[..|d| - 1];
    assert d == init + [d[|d| - 1]];
    forall j | 0 <= j < |init| ensures Keys(init)[j] != d[|d| - 1].0 {
      assert init[j] == d[j];
    }
    GetAt(d, |d| - 1);
    forall k | k in Keys(init) ensures k in Keys(d) && Get(d, k) == Get(init, k) {
      AppendKeepsIndex(init, d[|d| - 1], k);
    }
  }
}
