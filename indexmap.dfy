/** The insertion-ordered `IndexMap<String, V>` that the palette is built from:
    a sequence of key/value entries in insertion order. */
module IndexMaps {
  import opened Wrappers

  type IndexMap<V> = seq<(string, V)>

  /** The keys in insertion order. */
  function Keys<V>(m: IndexMap<V>): (ks: seq<string>)
    ensures |ks| == |m| && forall i :: 0 <= i < |m| ==> ks[i] == m[i].0
  {
    seq(|m|, i requires 0 <= i < |m| => m[i].0)
  }

  predicate DistinctKeys<V>(m: IndexMap<V>) {
    forall i, j :: 0 <= i < j < |m| ==> m[i].0 != m[j].0
  }

  /** The position of key `k`, or -1 when it is absent. */
  function IndexOf<V>(m: IndexMap<V>, k: string): (i: int)
    ensures -1 <= i < |m|
    ensures 0 <= i ==> m[i].0 == k && forall j :: 0 <= j < i ==> m[j].0 != k
    ensures i < 0 ==> forall j :: 0 <= j < |m| ==> m[j].0 != k
  {
    if m == [] then -1
    else if m[0].0 == k then 0
    else
      var j := IndexOf(m[1..], k);
      if j < 0 then -1 else j + 1
  }

  /** `IndexMap::get`. */
  function Get<V>(m: IndexMap<V>, k: string): (r: Option<V>)
    ensures r.None? <==> k !in Keys(m)
  {
    var i := IndexOf(m, k);
    if i < 0 then None else Some(m[i].1)
  }

  /** `IndexMap::insert`: a present key keeps its position and takes the new
      value; an absent key is appended at the end. */
  function Insert<V>(m: IndexMap<V>, k: string, v: V): IndexMap<V> {
    var i := IndexOf(m, k);
    if 0 <= i then m[i := (k, v)] else m + [(k, v)]
  }

  /** After an insertion the key maps to the new value and every other key to
      what it mapped to before. */
  lemma InsertGet<V>(m: IndexMap<V>, k: string, v: V)
    ensures Get(Insert(m, k, v), k) == Some(v)
    ensures forall k' :: k' != k ==> Get(Insert(m, k, v), k') == Get(m, k')
  {
    var i := IndexOf(m, k);
    var r := Insert(m, k, v);
    if 0 <= i {
      forall k' | k' != k ensures IndexOf(r, k') == IndexOf(m, k') {
        IndexOfUpdate(m, i, v, k');
      }
      IndexOfFirst(r, i, k);
    } else {
      forall k' | k' != k ensures IndexOf(r, k') == IndexOf(m, k') {
        IndexOfAppend(m, k, v, k');
      }
      AbsentKey(m, k);
      IndexOfAppend(m, k, v, k);
    }
  }

  /** An insertion keeps the key order and appends a key that was absent. */
  lemma InsertKeys<V>(m: IndexMap<V>, k: string, v: V)
    ensures Keys(Insert(m, k, v)) == if k in Keys(m) then Keys(m) else Keys(m) + [k]
    ensures DistinctKeys(m) ==> DistinctKeys(Insert(m, k, v))
  {
    var i := IndexOf(m, k);
    var r := Insert(m, k, v);
    if 0 <= i {
      assert Keys(m)[i] == k;
      assert Keys(r) == Keys(m);
    } else {
      AbsentKey(m, k);
      assert Keys(r) == Keys(m) + [k];
    }
  }

  /** The entries after an insertion are the new one and entries from before. */
  lemma InsertEntries<V>(m: IndexMap<V>, k: string, v: V)
    ensures forall e :: e in Insert(m, k, v) ==> e == (k, v) || e in m
  {
    var i := IndexOf(m, k);
    if 0 <= i {
      forall e | e in Insert(m, k, v) ensures e == (k, v) || e in m {
        var j :| 0 <= j < |m| && m[i := (k, v)][j] == e;
        if j != i { assert e == m[j]; }
      }
    }
  }

  lemma AbsentKey<V>(m: IndexMap<V>, k: string)
    requires IndexOf(m, k) < 0
    ensures k !in Keys(m)
  {
  }

  /** The first entry with a key is where `IndexOf` finds it. */
  lemma IndexOfFirst<V>(m: IndexMap<V>, i: nat, k: string)
    requires i < |m| && m[i].0 == k && forall j :: 0 <= j < i ==> m[j].0 != k
    ensures IndexOf(m, k) == i
  {
    var a := IndexOf(m, k);
    assert !(0 <= a < i);
  }

  /** Overwriting the value of an entry does not move any other key. */
  lemma IndexOfUpdate<V>(m: IndexMap<V>, i: nat, v: V, k': string)
    requires i < |m| && k' != m[i].0
    ensures IndexOf(m[i := (m[i].0, v)], k') == IndexOf(m, k')
  {
    var r := m[i := (m[i].0, v)];
    assert forall j :: 0 <= j < |m| ==> r[j].0 == m[j].0;
    var a, b := IndexOf(r, k'), IndexOf(m, k');
    if a >= 0 && b >= 0 {
      assert !(a < b) && !(b < a);
    }
  }

  /** Appending a fresh key does not move any key already present. */
  lemma IndexOfAppend<V>(m: IndexMap<V>, k: string, v: V, k': string)
    requires k !in Keys(m)
    ensures IndexOf(m + [(k, v)], k') == if k' == k then |m| else IndexOf(m, k')
  {
    var r := m + [(k, v)];
    var a, b := IndexOf(r, k'), IndexOf(m, k');
    assert forall j :: 0 <= j < |m| ==> r[j] == m[j];
    if k' == k {
      assert r[|m|].0 == k;
    } else if a >= 0 && b >= 0 {
      assert !(a < b) && !(b < a);
    }
  }
}
