/**
 * `NormalizedPathMap` and `NormalizedPathSet`: a `Map` and a `Set` keyed by paths that
 * pass every key through `path.normalize` before use, so that two spellings of one path
 * address one entry. Both keep JavaScript's insertion order.
 */
module PathMaps {
  import opened Wrappers
  import opened Ordered
  import opened Paths

  /**
   * A `Map<string, T>` whose `has`, `get` and `set` normalise the key first: the stored
   * keys in insertion order, and the entry of each.
   */
  datatype PathMap<T> = PathMap(keys: seq<string>, entries: map<string, T>) {
    ghost predicate Valid() {
      && Distinct(keys)
      && (forall k :: k in entries <==> k in keys)
      && AllNormal(keys)
    }

    predicate Has(key: string) {
      Normalize(key) in entries
    }

    function Get(key: string): (r: Option<T>)
      ensures r.Some? <==> Has(key)
    {
      if Has(key) then Some(entries[Normalize(key)]) else None
    }

    function Set(key: string, value: T): (r: PathMap<T>)
      ensures Valid() ==> r.Valid()
    {
      NormalizeIdempotent(key);
      AllNormalAddOnce(keys, Normalize(key));
      PathMap(AddOnce(keys, Normalize(key)), entries[Normalize(key) := value])
    }
  }

  function EmptyPathMap<T>(): (r: PathMap<T>)
    ensures r.Valid() && r.keys == []
  {
    PathMap([], map[])
  }

  /** A `NormalizedPathSet`: its normalised members in insertion order. */
  type PathSet = seq<string>

  function SetAdd(s: PathSet, key: string): (r: PathSet)
    ensures Distinct(s) ==> Distinct(r)
    ensures AllNormal(s) ==> AllNormal(r)
  {
    NormalizeIdempotent(key);
    AllNormalAddOnce(s, Normalize(key));
    AddOnce(s, Normalize(key))
  }

  predicate SetHas(s: PathSet, key: string) {
    Normalize(key) in s
  }

  /** Every path of `s` is in normal form. */
  ghost predicate AllNormal(s: seq<string>) {
    s == [] || (Normalize(s[0]) == s[0] && AllNormal(s[1..]))
  }

  lemma {:induction false} AllNormalIn(s: seq<string>, x: string)
    requires AllNormal(s) && x in s
    ensures Normalize(x) == x
  {
    if s[0] != x {
      AllNormalIn(s[1..], x);
    }
  }

  lemma {:induction false} AllNormalAppend(s: seq<string>, x: string)
    requires AllNormal(s) && Normalize(x) == x
    ensures AllNormal(s + [x])
  {
    if s != [] {
      AllNormalAppend(s[1..], x);
      assert (s + [x])[1..] == s[1..] + [x];
    } else {
      assert ([] + [x])[1..] == [];
    }
  }

  lemma AllNormalAddOnce(s: seq<string>, x: string)
    ensures AllNormal(s) && Normalize(x) == x ==> AllNormal(AddOnce(s, x))
  {
    if AllNormal(s) && Normalize(x) == x && x !in s {
      AllNormalAppend(s, x);
    }
  }

  /** Two keys with the same normal form address the same entry, for every operation. */
  lemma SameNormalFormSameEntry<T>(m: PathMap<T>, s: PathSet, k1: string, k2: string, value: T)
    requires Normalize(k1) == Normalize(k2)
    ensures m.Has(k1) == m.Has(k2) && m.Get(k1) == m.Get(k2) && m.Set(k1, value) == m.Set(k2, value)
    ensures SetHas(s, k1) == SetHas(s, k2) && SetAdd(s, k1) == SetAdd(s, k2)
  {
  }

  /**
   * After `set(key, value)`, every key with the normal form of `key` reads `value`, every
   * other key reads what it read before, and `key`'s normal form is stored once, at the end
   * when it is new and in its old place otherwise.
   */
  lemma {:induction false} SetThenGet<T>(m: PathMap<T>, key: string, value: T, other: string)
    requires m.Valid()
    ensures m.Set(key, value).Get(other) == if Normalize(other) == Normalize(key) then Some(value) else m.Get(other)
    ensures m.Set(key, value).keys == if m.Has(key) then m.keys else m.keys + [Normalize(key)]
  {
  }

  /** A stored key reads its own entry back, although `get` normalises it again. */
  lemma StoredKeyReadsBack<T>(m: PathMap<T>, k: string)
    requires m.Valid() && k in m.keys
    ensures m.Get(k) == Some(m.entries[k])
  {
    AllNormalIn(m.keys, k);
  }

  /** A normalised member is found again by `has`, although `has` normalises it again. */
  lemma StoredMemberFound(s: PathSet, x: string)
    requires AllNormal(s) && x in s
    ensures SetHas(s, x)
  {
    AllNormalIn(s, x);
  }

  /** Setting the same key twice keeps only the second value, in the first one's place. */
  lemma SetTwice<T>(m: PathMap<T>, key: string, v1: T, v2: T)
    ensures m.Set(key, v1).Set(key, v2) == m.Set(key, v2)
  {
    NormalizeIdempotent(key);
  }
}
