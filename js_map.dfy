/** A JavaScript `Map` as the TypeScript example uses it: entries in insertion
    order, each key at most once. `set` on a present key replaces the value where
    the key already stands; on a new key it appends. Iteration visits entries in
    this order. */
module JsMap {
  import opened Wrappers

  predicate DistinctKeys<K(==, !new), V>(entries: seq<(K, V)>)
  {
    forall i, j :: 0 <= i < j < |entries| ==> entries[i].0 != entries[j].0
  }

  type Map<K(==, !new), V> = entries: seq<(K, V)> | DistinctKeys(entries) witness []

  /** The keys in iteration order (`[...m.keys()]`). */
  function Keys<K(==, !new), V>(entries: seq<(K, V)>): (keys: seq<K>)
    ensures |keys| == |entries|
    ensures forall i :: 0 <= i < |entries| ==> keys[i] == entries[i].0
  {
    seq(|entries|, i requires 0 <= i < |entries| => entries[i].0)
  }

  /** The position of the first entry with key `k` at or after `from`, or
      `|entries|` when there is none. */
  function IndexFrom<K(==), V>(entries: seq<(K, V)>, k: K, from: nat): (i: nat)
    requires from <= |entries|
    ensures from <= i <= |entries|
    ensures i < |entries| ==> entries[i].0 == k
    ensures forall j :: from <= j < i ==> entries[j].0 != k
    decreases |entries| - from
  {
    if from == |entries| || entries[from].0 == k then from else IndexFrom(entries, k, from + 1)
  }

  function IndexOf<K(==), V>(entries: seq<(K, V)>, k: K): nat
  {
    IndexFrom(entries, k, 0)
  }

  /** The search stops at `i` when no key before `i` is `k` and the key at `i`,
      if any, is. */
  lemma {:induction false} IndexFromIs<K, V>(entries: seq<(K, V)>, k: K, from: nat, i: nat)
    requires from <= i <= |entries|
    requires forall j :: from <= j < i ==> entries[j].0 != k
    requires i < |entries| ==> entries[i].0 == k
    ensures IndexFrom(entries, k, from) == i
    decreases i - from
  {
    if from < i {
      IndexFromIs(entries, k, from + 1, i);
    }
  }

  /** `m.get(k)`: the value stored under `k`, if any. */
  function Get<K(==, !new), V>(entries: seq<(K, V)>, k: K): (r: Option<V>)
    ensures r.None? <==> k !in Keys(entries)
  {
    var i := IndexOf(entries, k);
    if i < |entries| then
      assert Keys(entries)[i] == k;
      Some(entries[i].1)
    else
      None
  }

  /** The entry at position `i` is what `get` finds under its key. */
  lemma GetAt<K(!new), V>(m: Map<K, V>, i: nat)
    requires i < |m|
    ensures Get(m, m[i].0) == Some(m[i].1)
  {
    IndexFromIs(m, m[i].0, 0, i);
  }

  /** Replacing the value of the entry at `i` keeps the keys, and with them
      every other key's value. */
  lemma ReplaceAt<K(!new), V>(m: Map<K, V>, i: nat, v: V)
    requires i < |m|
    ensures DistinctKeys(m[i := (m[i].0, v)])
    ensures Keys(m[i := (m[i].0, v)]) == Keys(m)
    ensures Get(m[i := (m[i].0, v)], m[i].0) == Some(v)
    ensures forall k' :: k' != m[i].0 ==> Get(m[i := (m[i].0, v)], k') == Get(m, k')
  {
    var k := m[i].0;
    var r := m[i := (k, v)];
    assert forall j :: 0 <= j < |m| ==> r[j].0 == m[j].0;
    GetAt(r, i);
    forall k' | k' != k
      ensures Get(r, k') == Get(m, k')
    {
      var x := IndexOf(m, k');
      IndexFromIs(r, k', 0, x);
    }
  }

  /** Appending an entry under a new key keeps every other key's value. */
  lemma AppendNew<K(!new), V>(m: Map<K, V>, k: K, v: V)
    requires k !in Keys(m)
    ensures DistinctKeys(m + [(k, v)])
    ensures Get(m + [(k, v)], k) == Some(v)
    ensures forall k' :: k' != k ==> Get(m + [(k, v)], k') == Get(m, k')
  {
    var r := m + [(k, v)];
    assert forall j :: 0 <= j < |m| ==> m[j].0 != k by {
      forall j | 0 <= j < |m| ensures m[j].0 != k {
        assert Keys(m)[j] == m[j].0;
      }
    }
    IndexFromIs(r, k, 0, |m|);
    forall k' | k' != k
      ensures Get(r, k') == Get(m, k')
    {
      var x := IndexOf(m, k');
      if x < |m| {
        IndexFromIs(r, k', 0, x);
      } else {
        IndexFromIs(r, k', 0, |r|);
      }
    }
  }

  /** `m.set(k, v)`: replaces in place when `k` is present, appends otherwise;
      afterwards `k` maps to `v`, every other key to what it mapped to before. */
  function Set<K(==, !new), V>(m: Map<K, V>, k: K, v: V): (r: Map<K, V>)
    ensures k in Keys(m) ==> Keys(r) == Keys(m)
    ensures k !in Keys(m) ==> r == m + [(k, v)]
    ensures Get(r, k) == Some(v)
    ensures forall k' :: k' != k ==> Get(r, k') == Get(m, k')
  {
    var i := IndexOf(m, k);
    if i < |m| then
      ReplaceAt(m, i, v);
      m[i := (k, v)]
    else
      AppendNew(m, k, v);
      m + [(k, v)]
  }

  /** A map holding the entries `(k, f(k, v))` of `m`, in the same order: what a
      loop that iterates `m` and sets each key once builds. */
  function MapEntries<K(==, !new), V, W>(m: Map<K, V>, f: (K, V) -> W): (r: Map<K, W>)
    ensures Keys(r) == Keys(m)
    ensures forall i :: 0 <= i < |m| ==> r[i].1 == f(m[i].0, m[i].1)
  {
    assert forall i :: 0 <= i < |m| ==> Keys(m)[i] == m[i].0;
    seq(|m|, i requires 0 <= i < |m| => (m[i].0, f(m[i].0, m[i].1)))
  }

  /** Setting a key that is not yet present to `f` of an entry extends the image of
      a prefix by one entry: the step a set-each-entry loop takes. */
  lemma MapEntriesStep<K(!new), V, W>(m: Map<K, V>, i: nat, f: (K, V) -> W)
    requires i < |m|
    ensures DistinctKeys(m[..i]) && DistinctKeys(m[..i + 1])
    ensures m[i].0 !in Keys(MapEntries(m[..i], f))
    ensures Set(MapEntries(m[..i], f), m[i].0, f(m[i].0, m[i].1)) == MapEntries(m[..i + 1], f)
  {
    var prefix: Map<K, V> := m[..i];
    var image := MapEntries(prefix, f);
    assert forall j :: 0 <= j < i ==> Keys(image)[j] == m[j].0;
    assert m[..i + 1] == m[..i] + [m[i]];
  }
}
