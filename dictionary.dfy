/**
 * The children table of a directory is a C# `Dictionary<string, TreeNode>`.
 * Its enumeration order, as long as nothing is removed, is insertion order,
 * and assigning through the indexer replaces the value of an existing key
 * in place or appends a new key at the end. This module models such a
 * dictionary as an association list.
 */
module Dictionary {

  datatype Option<+T> = None | Some(value: T)

  /** One key/value pair of the dictionary. */
  datatype Entry<+V> = Entry(key: string, value: V)

  /** A dictionary with string keys, in enumeration order. */
  type Dict<V> = seq<Entry<V>>

  /** The keys, in enumeration order. */
  function Keys<V>(d: Dict<V>): seq<string>
  {
    seq(|d|, i requires 0 <= i < |d| => d[i].key)
  }

  /** The values, in enumeration order (the `Values` property). */
  function Values<V>(d: Dict<V>): seq<V>
  {
    seq(|d|, i requires 0 <= i < |d| => d[i].value)
  }

  /** No key occurs twice. */
  predicate UniqueKeys<V>(d: Dict<V>)
  {
    forall i, j :: 0 <= i < j < |d| ==> d[i].key != d[j].key
  }

  /** The position of the first entry with key `k`, if any. */
  function IndexOf<V>(d: Dict<V>, k: string): (r: Option<nat>)
    ensures r.None? <==> forall i :: 0 <= i < |d| ==> d[i].key != k
    ensures r.Some? ==> r.value < |d| && d[r.value].key == k
    ensures r.Some? ==> forall i :: 0 <= i < r.value ==> d[i].key != k
  {
    if d == [] then None
    else if d[0].key == k then Some(0)
    else match IndexOf(d[1..], k)
      case None => None
      case Some(i) => Some(i + 1)
  }

  /** Lookup by key (`TryGetValue`). */
  function Get<V>(d: Dict<V>, k: string): (r: Option<V>)
    ensures r.None? <==> k !in Keys(d)
    ensures r.Some? ==> Entry(k, r.value) in d
  {
    match IndexOf(d, k)
    case None => None
    case Some(i) => assert Keys(d)[i] == k; Some(d[i].value)
  }

  /** Assignment through the indexer, `d[k] = v`. */
  function Set<V>(d: Dict<V>, k: string, v: V): (r: Dict<V>)
    ensures Get(r, k) == Some(v)
    ensures forall k' :: k' != k ==> Get(r, k') == Get(d, k')
    ensures Keys(r) == if k in Keys(d) then Keys(d) else Keys(d) + [k]
    ensures UniqueKeys(d) ==> UniqueKeys(r)
    ensures forall e :: e in r ==> e == Entry(k, v) || e in d
    ensures forall e :: e in d && e.key != k ==> e in r
  {
    match IndexOf(d, k)
    case None =>
      assert Keys(d + [Entry(k, v)]) == Keys(d) + [k];
      AppendKeepsLookups(d, Entry(k, v));
      d + [Entry(k, v)]
    case Some(i) =>
      ReplaceKeepsLookups(d, i, v);
      d[i := Entry(k, v)]
  }

  /** Two dictionaries with the same keys in the same order find every key at the same position. */
  lemma SameKeysSameIndex<V>(a: Dict<V>, b: Dict<V>, k: string)
    requires Keys(a) == Keys(b)
    ensures IndexOf(a, k) == IndexOf(b, k)
  {
    assert |a| == |Keys(a)| == |Keys(b)| == |b|;
    assert forall i :: 0 <= i < |a| ==> a[i].key == Keys(a)[i] == Keys(b)[i] == b[i].key;
  }

  /** Appending an entry changes the lookup of its own key only. */
  lemma AppendKeepsLookups<V>(d: Dict<V>, e: Entry<V>)
    ensures forall k' :: k' != e.key ==> IndexOf(d + [e], k') == IndexOf(d, k')
  {
    forall k' | k' != e.key ensures IndexOf(d + [e], k') == IndexOf(d, k') {
      assert forall i :: 0 <= i < |d| ==> (d + [e])[i] == d[i];
    }
  }

  /** Replacing the value at the position of a key changes the lookup of that key only. */
  lemma ReplaceKeepsLookups<V>(d: Dict<V>, i: nat, v: V)
    requires i < |d|
    ensures var r := d[i := Entry(d[i].key, v)];
      && Keys(r) == Keys(d)
      && (forall k' :: Get(r, k') == if k' == d[i].key && IndexOf(d, k') == Some(i) then Some(v) else Get(d, k'))
      && (forall e :: e in d && e.key != d[i].key ==> e in r)
  {
    var r := d[i := Entry(d[i].key, v)];
    assert Keys(r) == Keys(d);
    forall k' ensures IndexOf(r, k') == IndexOf(d, k') {
      SameKeysSameIndex(r, d, k');
    }
    forall e | e in d && e.key != d[i].key ensures e in r {
      var j :| 0 <= j < |d| && d[j] == e;
      assert r[j] == e;
    }
  }
}
