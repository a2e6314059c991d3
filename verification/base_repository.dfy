/**
 * The repository interface every storage backend implements: `save`, `load`,
 * `delete`, `get_all` and `find_by`. Each operation's promise is stated as a
 * predicate over the abstract state, a map from identifier to item; a backend
 * meets the interface when its operations are proved to satisfy these
 * predicates on its own view of that map.
 */
module BaseRepository {
  import opened Wrappers

  /** `ks` lists every identifier of `store` exactly once, in the backend's own order. */
  predicate Enumerates<K(==), V>(store: map<K, V>, ks: seq<K>) {
    && (forall i, j :: 0 <= i < j < |ks| ==> ks[i] != ks[j])
    && (forall i :: 0 <= i < |ks| ==> ks[i] in store)
    && (forall k :: k in store ==> k in ks)
  }

  /** The items stored under `ks`, in that order. */
  function Values<K(==), V>(store: map<K, V>, ks: seq<K>): (r: seq<V>)
    requires forall i :: 0 <= i < |ks| ==> ks[i] in store
    ensures |r| == |ks|
    ensures forall i :: 0 <= i < |ks| ==> r[i] == store[ks[i]]
  {
    if |ks| == 0 then [] else [store[ks[0]]] + Values(store, ks[1..])
  }

  /** The items of `s` that satisfy `p`, in order. */
  function Filter<T>(s: seq<T>, p: T -> bool): (r: seq<T>)
    ensures |r| <= |s|
    ensures forall i :: 0 <= i < |r| ==> p(r[i])
  {
    if |s| == 0 then [] else (if p(s[0]) then [s[0]] else []) + Filter(s[1..], p)
  }

  /** An item is kept by the filter exactly when it occurs in the input and satisfies the predicate. */
  lemma {:induction false} FilterMembership<T>(s: seq<T>, p: T -> bool, x: T)
    ensures x in Filter(s, p) <==> x in s && p(x)
  {
    if |s| > 0 {
      FilterMembership(s[1..], p, x);
      assert s == [s[0]] + s[1..];
    }
  }

  /** A predicate that holds everywhere filters nothing out. */
  lemma {:induction false} FilterKeepsAll<T>(s: seq<T>, p: T -> bool)
    requires forall i :: 0 <= i < |s| ==> p(s[i])
    ensures Filter(s, p) == s
  {
    if |s| > 0 {
      FilterKeepsAll(s[1..], p);
      assert s == [s[0]] + s[1..];
    }
  }

  /** `save`: the item is stored under its identifier, replacing any earlier item, and nothing else changes. */
  ghost predicate SaveContract<K, V>(before: map<K, V>, key: K, item: V, after: map<K, V>) {
    after == before[key := item]
  }

  /** `load`: the item stored under the identifier, or `None` when there is none. */
  ghost predicate LoadContract<K, V>(store: map<K, V>, key: K, r: Option<V>) {
    r == if key in store then Some(store[key]) else None
  }

  /** `delete`: reports whether an item was stored, and afterwards none is. */
  ghost predicate DeleteContract<K, V>(before: map<K, V>, key: K, r: bool, after: map<K, V>) {
    r == (key in before) && after == before - {key}
  }

  /** `get_all`: every stored item once, in the order of some enumeration `ks`. */
  ghost predicate GetAllContract<K, V>(store: map<K, V>, ks: seq<K>, r: seq<V>) {
    Enumerates(store, ks) && r == Values(store, ks)
  }

  /** `find_by`: the stored items, in the order of `ks`, that the criteria accept. */
  ghost predicate FindByContract<K, V>(store: map<K, V>, ks: seq<K>, accepts: V -> bool, r: seq<V>) {
    Enumerates(store, ks) && r == Filter(Values(store, ks), accepts)
  }
}
