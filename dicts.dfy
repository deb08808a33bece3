/** Python dictionaries with string keys, as the code uses them: ordered by insertion,
    one entry per key. */
module Dicts {

  /** The entries of a dict in iteration (insertion) order. */
  type Dict<V> = seq<(string, V)>

  /** A sequence of entries is a dict when no key occurs twice. */
  ghost predicate IsDict<V>(d: Dict<V>)
  {
    forall i, j :: 0 <= i < j < |d| ==> d[i].0 != d[j].0
  }

  /** The mapping a dict denotes; a later entry for a key wins, as in `dict(pairs)`. */
  function ToMap<V>(d: Dict<V>): map<string, V>
  {
    if d == [] then map[] else ToMap(d[..|d| - 1])[d[|d| - 1].0 := d[|d| - 1].1]
  }

  /** Position of key `k` in `d`, or -1 when `k` is absent. */
  function IndexOf<V>(d: Dict<V>, k: string): (i: int)
    ensures -1 <= i < |d|
    ensures 0 <= i ==> d[i].0 == k
    ensures i < 0 ==> forall j :: 0 <= j < |d| ==> d[j].0 != k
  {
    if d == [] then -1
    else if d[|d| - 1].0 == k then |d| - 1
    else IndexOf(d[..|d| - 1], k)
  }

  /** `d[k] = v`: an existing key keeps its position and takes the new value,
      a new key is appended. */
  function Put<V>(d: Dict<V>, k: string, v: V): Dict<V>
  {
    var i := IndexOf(d, k);
    if i < 0 then d + [(k, v)] else d[i := (k, v)]
  }

  /** Assigns every entry of `e`, in order, into `d` (`for k, v in e.items(): d[k] = v`). */
  function PutAll<V>(d: Dict<V>, e: Dict<V>): Dict<V>
  {
    if e == [] then d
    else Put(PutAll(d, e[..|e| - 1]), e[|e| - 1].0, e[|e| - 1].1)
  }

  /** `{**a, **b}`: the entries of `a`, overridden and extended by those of `b`. */
  function Merge<V>(a: Dict<V>, b: Dict<V>): Dict<V>
  {
    PutAll(a, b)
  }

  /** A key is in the mapping exactly when some entry carries it. */
  lemma {:induction false} ToMapKeys<V>(d: Dict<V>, k: string)
    ensures k in ToMap(d) <==> exists j :: 0 <= j < |d| && d[j].0 == k
  {
    if d != [] {
      var init := d[..|d| - 1];
      ToMapKeys(init, k);
      if k != d[|d| - 1].0 && k in ToMap(d) {
        var j :| 0 <= j < |init| && init[j].0 == k;
        assert d[j].0 == k;
      }
      if k != d[|d| - 1].0 && (exists j :: 0 <= j < |d| && d[j].0 == k) {
        var j :| 0 <= j < |d| && d[j].0 == k;
        assert init[j].0 == k;
      }
    }
  }

  /** Assigning a key that is absent appends it. */
  lemma PutFresh<V>(d: Dict<V>, k: string, v: V)
    requires forall j :: 0 <= j < |d| ==> d[j].0 != k
    ensures Put(d, k, v) == d + [(k, v)]
  {
  }

  /** Rewriting the entry of a key present in a dict updates the mapping at that key. */
  lemma {:induction false} ReplaceMap<V>(d: Dict<V>, i: int, v: V)
    requires IsDict(d)
    requires 0 <= i < |d|
    ensures ToMap(d[i := (d[i].0, v)]) == ToMap(d)[d[i].0 := v]
  {
    var k := d[i].0;
    var r := d[i := (k, v)];
    var n := |d| - 1;
    if i == n {
      assert r[..n] == d[..n];
    } else {
      assert r[..n] == d[..n][i := (k, v)];
      assert r[n] == d[n];
      ReplaceMap(d[..n], i, v);
      assert d[n].0 != k;
    }
  }

  /** `d[k] = v` keeps the dict a dict, maps `k` to `v` and leaves every other key as it was;
      an existing key keeps its position, a new key goes last. */
  lemma PutSpec<V>(d: Dict<V>, k: string, v: V)
    requires IsDict(d)
    ensures IsDict(Put(d, k, v))
    ensures ToMap(Put(d, k, v)) == ToMap(d)[k := v]
    ensures k in ToMap(d) ==> |Put(d, k, v)| == |d| && Put(d, k, v)[IndexOf(d, k)] == (k, v)
    ensures k !in ToMap(d) ==> Put(d, k, v) == d + [(k, v)]
  {
    ToMapKeys(d, k);
    var i := IndexOf(d, k);
    var r := Put(d, k, v);
    if 0 <= i {
      assert r == d[i := (k, v)];
      assert IsDict(r) by {
        forall j | 0 <= j < |r|
          ensures r[j].0 == d[j].0
        {
        }
      }
      ReplaceMap(d, i, v);
    } else {
      assert r == d + [(k, v)];
      assert k !in ToMap(d);
      assert IsDict(r) by {
        forall j | 0 <= j < |d|
          ensures r[j] == d[j] && r[j].0 != k
        {
        }
      }
      assert ToMap(r) == ToMap(d)[k := v] by {
        assert r[..|r| - 1] == d;
      }
    }
  }

  /** Updating a union at one key is updating its right operand there. */
  lemma UnionUpdate<V>(a: map<string, V>, b: map<string, V>, k: string, v: V)
    ensures (a + b)[k := v] == a + b[k := v]
  {
  }

  /** Assigning all of `e` into a dict yields the union of the two mappings, `e` winning. */
  lemma {:induction false} PutAllSpec<V>(d: Dict<V>, e: Dict<V>)
    requires IsDict(d)
    ensures IsDict(PutAll(d, e))
    ensures ToMap(PutAll(d, e)) == ToMap(d) + ToMap(e)
  {
    if e != [] {
      var init := e[..|e| - 1];
      var last := e[|e| - 1];
      PutAllSpec(d, init);
      PutSpec(PutAll(d, init), last.0, last.1);
      assert ToMap(e) == ToMap(init)[last.0 := last.1];
      UnionUpdate(ToMap(d), ToMap(init), last.0, last.1);
    }
  }

  /** When no key of `e` is already present and `e` is itself a dict, assigning its
      entries just appends them in order. */
  lemma {:induction false} PutAllFresh<V>(d: Dict<V>, e: Dict<V>)
    requires IsDict(d + e)
    ensures PutAll(d, e) == d + e
  {
    if e != [] {
      var n := |e| - 1;
      assert (d + e)[..|d| + n] == d + e[..n];
      PutAllFresh(d, e[..n]);
      forall j | 0 <= j < |d + e[..n]|
        ensures (d + e[..n])[j].0 != e[n].0
      {
        assert (d + e[..n])[j] == (d + e)[j];
        assert e[n] == (d + e)[|d| + n];
      }
      PutFresh(d + e[..n], e[n].0, e[n].1);
      assert d + e[..n] + [e[n]] == d + e;
    }
  }

  /** Assigning entries never moves or removes an existing entry's key. */
  lemma {:induction false} PutAllKeepsOrder<V>(d: Dict<V>, e: Dict<V>)
    ensures |PutAll(d, e)| >= |d|
    ensures forall j :: 0 <= j < |d| ==> PutAll(d, e)[j].0 == d[j].0
  {
    if e != [] {
      PutAllKeepsOrder(d, e[..|e| - 1]);
    }
  }

  /** Every key of an assigned dict is a key of one of the two inputs. */
  lemma {:induction false} PutAllEntryKeys<V>(d: Dict<V>, e: Dict<V>)
    ensures forall j :: 0 <= j < |PutAll(d, e)| ==> PutAll(d, e)[j].0 in ToMap(d) || PutAll(d, e)[j].0 in ToMap(e)
  {
    forall j | 0 <= j < |d|
      ensures d[j].0 in ToMap(d)
    {
      ToMapKeys(d, d[j].0);
    }
    if e != [] {
      var n := |e| - 1;
      PutAllEntryKeys(d, e[..n]);
    }
  }

  /** Merging keeps every key of `b` with the caller's value from `b`, and every other
      key of `a` with its original value. */
  lemma MergeSpec<V>(a: Dict<V>, b: Dict<V>)
    requires IsDict(a)
    ensures IsDict(Merge(a, b))
    ensures ToMap(Merge(a, b)).Keys == ToMap(a).Keys + ToMap(b).Keys
    ensures forall k :: k in ToMap(b) ==> ToMap(Merge(a, b))[k] == ToMap(b)[k]
    ensures forall k :: k in ToMap(a) && k !in ToMap(b) ==> ToMap(Merge(a, b))[k] == ToMap(a)[k]
  {
    PutAllSpec(a, b);
  }
}
