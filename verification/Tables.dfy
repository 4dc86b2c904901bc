/** Fixed tables of keyed entries and the finite maps they stand for. */
module Tables {

  datatype Cell<K, V> = Cell(key: K, inUse: bool, value: V)

  /** The map that the first k entries of a table stand for. */
  function MapTo<K(==), V>(t: seq<Cell<K, V>>, k: nat): map<K, V>
    requires k <= |t|
  {
    if k == 0 then map[]
    else
      var m := MapTo(t, k - 1);
      if t[k - 1].inUse then m[t[k - 1].key := t[k - 1].value] else m
  }

  /** The map a table stands for. */
  function ToMap<K(==), V>(t: seq<Cell<K, V>>): map<K, V> { MapTo(t, |t|) }

  /** No two of the first k entries that are in use share a key. */
  predicate KeyedTo<K(==), V>(t: seq<Cell<K, V>>, k: nat)
    requires k <= |t|
  {
    k == 0 || (KeyedTo(t, k - 1) && (t[k - 1].inUse ==> t[k - 1].key !in MapTo(t, k - 1)))
  }

  predicate Keyed<K(==), V>(t: seq<Cell<K, V>>) { KeyedTo(t, |t|) }

  lemma {:induction false} MemberTo<K, V>(t: seq<Cell<K, V>>, i: nat, k: nat)
    requires i < k <= |t| && KeyedTo(t, k) && t[i].inUse
    ensures t[i].key in MapTo(t, k) && MapTo(t, k)[t[i].key] == t[i].value
  {
    if i < k - 1 { MemberTo(t, i, k - 1); }
  }

  lemma Member<K, V>(t: seq<Cell<K, V>>, i: nat)
    requires Keyed(t) && i < |t| && t[i].inUse
    ensures t[i].key in ToMap(t) && ToMap(t)[t[i].key] == t[i].value
  {
    MemberTo(t, i, |t|);
  }

  lemma {:induction false} MissingTo<K, V>(t: seq<Cell<K, V>>, key: K, k: nat)
    requires k <= |t| && forall i :: 0 <= i < k && t[i].inUse ==> t[i].key != key
    ensures key !in MapTo(t, k)
  {
    if k > 0 { MissingTo(t, key, k - 1); }
  }

  lemma Missing<K, V>(t: seq<Cell<K, V>>, key: K)
    requires forall i :: 0 <= i < |t| && t[i].inUse ==> t[i].key != key
    ensures key !in ToMap(t)
  {
    MissingTo(t, key, |t|);
  }

  /** Entries from k on do not matter to the first k. */
  lemma {:induction false} Beyond<K, V>(t: seq<Cell<K, V>>, i: nat, c: Cell<K, V>, k: nat)
    requires k <= i < |t|
    ensures MapTo(t[i := c], k) == MapTo(t, k) && KeyedTo(t[i := c], k) == KeyedTo(t, k)
  {
    if k > 0 { Beyond(t, i, c, k - 1); }
  }

  lemma {:induction false} OverwriteTo<K, V>(t: seq<Cell<K, V>>, i: nat, v: V, k: nat)
    requires i < k <= |t| && KeyedTo(t, k) && t[i].inUse
    ensures KeyedTo(t[i := t[i].(value := v)], k)
    ensures MapTo(t[i := t[i].(value := v)], k) == MapTo(t, k)[t[i].key := v]
  {
    if i == k - 1 {
      Beyond(t, i, t[i].(value := v), i);
    } else {
      OverwriteTo(t, i, v, k - 1);
      MemberTo(t, i, k - 1);
    }
  }

  /** Overwriting the value of an entry in use. */
  lemma Overwrite<K, V>(t: seq<Cell<K, V>>, i: nat, v: V)
    requires Keyed(t) && i < |t| && t[i].inUse
    ensures Keyed(t[i := t[i].(value := v)])
    ensures ToMap(t[i := t[i].(value := v)]) == ToMap(t)[t[i].key := v]
  {
    OverwriteTo(t, i, v, |t|);
  }

  lemma {:induction false} InsertTo<K, V>(t: seq<Cell<K, V>>, i: nat, key: K, v: V, k: nat)
    requires i < k <= |t| && KeyedTo(t, k) && !t[i].inUse && key !in MapTo(t, k)
    ensures KeyedTo(t[i := Cell(key, true, v)], k)
    ensures MapTo(t[i := Cell(key, true, v)], k) == MapTo(t, k)[key := v]
  {
    if i == k - 1 {
      Beyond(t, i, Cell(key, true, v), i);
    } else {
      InsertTo(t, i, key, v, k - 1);
    }
  }

  /** Taking a free entry for a key the table lacks. */
  lemma Insert<K, V>(t: seq<Cell<K, V>>, i: nat, key: K, v: V)
    requires Keyed(t) && i < |t| && !t[i].inUse && key !in ToMap(t)
    ensures Keyed(t[i := Cell(key, true, v)])
    ensures ToMap(t[i := Cell(key, true, v)]) == ToMap(t)[key := v]
  {
    InsertTo(t, i, key, v, |t|);
  }

  lemma {:induction false} DeleteTo<K, V>(t: seq<Cell<K, V>>, i: nat, c: Cell<K, V>, k: nat)
    requires i < k <= |t| && KeyedTo(t, k) && t[i].inUse && !c.inUse
    ensures KeyedTo(t[i := c], k) && MapTo(t[i := c], k) == Without(MapTo(t, k), t[i].key)
  {
    if i == k - 1 {
      Beyond(t, i, c, i);
      assert Without(MapTo(t, k), t[i].key) == MapTo(t, i);
    } else {
      DeleteTo(t, i, c, k - 1);
      MemberTo(t, i, k - 1);
    }
  }

  /** Freeing an entry. */
  lemma Delete<K, V>(t: seq<Cell<K, V>>, i: nat, c: Cell<K, V>)
    requires Keyed(t) && i < |t| && t[i].inUse && !c.inUse
    ensures Keyed(t[i := c]) && ToMap(t[i := c]) == Without(ToMap(t), t[i].key)
  {
    DeleteTo(t, i, c, |t|);
  }

  lemma {:induction false} FullTo<K, V>(t: seq<Cell<K, V>>, k: nat)
    requires k <= |t| && KeyedTo(t, k)
    ensures |MapTo(t, k)| <= k
    ensures |MapTo(t, k)| == k <==> forall i :: 0 <= i < k ==> t[i].inUse
  {
    if k > 0 {
      FullTo(t, k - 1);
      if t[k - 1].inUse { MapSizes(MapTo(t, k - 1), t[k - 1].key, t[k - 1].value); }
    }
  }

  /** A table is full exactly when its map has as many keys as it has entries. */
  lemma FullIffSize<K, V>(t: seq<Cell<K, V>>)
    requires Keyed(t)
    ensures |ToMap(t)| <= |t|
    ensures |ToMap(t)| == |t| <==> forall i :: 0 <= i < |t| ==> t[i].inUse
  {
    FullTo(t, |t|);
  }

  lemma {:induction false} BlankTo<K, V>(t: seq<Cell<K, V>>, k: nat)
    requires k <= |t| && forall i :: 0 <= i < k ==> !t[i].inUse
    ensures KeyedTo(t, k) && MapTo(t, k) == map[]
  {
    if k > 0 { BlankTo(t, k - 1); }
  }

  lemma Blank<K, V>(t: seq<Cell<K, V>>)
    requires forall i :: 0 <= i < |t| ==> !t[i].inUse
    ensures Keyed(t) && ToMap(t) == map[]
  {
    BlankTo(t, |t|);
  }

  /** The map without one key. */
  function Without<K(==), V>(m: map<K, V>, k: K): (r: map<K, V>)
    ensures k !in r
    ensures forall x :: x in r ==> x in m && r[x] == m[x]
    ensures forall x :: x in m && x != k ==> x in r
  {
    map x | x in m && x != k :: m[x]
  }

  lemma MapSizes<K, V>(m: map<K, V>, k: K, v: V)
    ensures |m[k := v]| == if k in m then |m| else |m| + 1
    ensures |Without(m, k)| == if k in m then |m| - 1 else |m|
  {
    assert m[k := v].Keys == m.Keys + {k};
    assert Without(m, k).Keys == m.Keys - {k};
    assert k in m ==> m.Keys == (m.Keys - {k}) + {k};
  }

  lemma WithoutOne<K, V>(m: map<K, V>, k: K)
    requires k in m
    ensures Without(m, k) == m - {k} && |m - {k}| == |m| - 1
  {
    MapSizes(m, k, m[k]);
    assert Without(m, k) == m - {k};
  }

  lemma UpdateTwice<K, V>(m: map<K, V>, k: K, a: V, b: V)
    ensures m[k := a][k := b] == m[k := b]
  {}

  /** Finds the first free entry, or -1 if the map has as many keys as the table entries. */
  method FindFree<K(==), V>(t: array<Cell<K, V>>) returns (i: int)
    requires Keyed(t[..])
    ensures -1 <= i < t.Length && |ToMap(t[..])| <= t.Length
    ensures i == -1 <==> |ToMap(t[..])| == t.Length
    ensures i != -1 ==> !t[i].inUse
  {
    FullIffSize(t[..]);
    for j := 0 to t.Length
      invariant forall k :: 0 <= k < j ==> t[..][k].inUse
    {
      if !t[j].inUse {
        assert !t[..][j].inUse;
        return j;
      }
    }
    return -1;
  }
}

