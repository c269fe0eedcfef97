/** Python dictionaries: a finite map whose iteration order (insertion
    order) is observable, because the tools report entries in that order. */
module Dicts {
  import opened Common

  datatype RawDict<K(==,!new), V> = RawDict(order: seq<K>, entries: map<K, V>)

  /** The keys in insertion order, each once, and exactly the keys of the map. */
  type Dict<K(==,!new), V> = d: RawDict<K, V> | Distinct(d.order) && d.entries.Keys == set k | k in d.order
    witness RawDict([], map[])

  function Empty<K(==,!new), V>(): (d: Dict<K, V>)
    ensures |d.order| == 0
  {
    RawDict([], map[])
  }

  /** `d[k] = v`: an existing key keeps its place, a new key goes last. */
  function Put<K(==,!new), V>(d: Dict<K, V>, k: K, v: V): (r: Dict<K, V>)
    ensures r.entries == d.entries[k := v]
    ensures k in d.entries ==> r.order == d.order
    ensures k !in d.entries ==> r.order == d.order + [k]
  {
    if k in d.entries then RawDict(d.order, d.entries[k := v])
    else
      assert k !in d.order;
      RawDict(d.order + [k], d.entries[k := v])
  }

  /** A dictionary from a sequence of distinct keys and a value for each. */
  function FromSeq<K(==,!new), V>(keys: seq<K>, f: K -> V): (r: Dict<K, V>)
    requires Distinct(keys)
    ensures r.order == keys
    ensures forall k :: k in r.entries ==> r.entries[k] == f(k)
  {
    RawDict(keys, map k | k in keys :: f(k))
  }

  /** The values in iteration order (Python `d.values()`). */
  function Values<K(==,!new), V>(d: Dict<K, V>): (r: seq<V>)
    ensures |r| == |d.order|
    ensures forall i :: 0 <= i < |d.order| ==> d.order[i] in d.entries && r[i] == d.entries[d.order[i]]
  {
    seq(|d.order|, i requires 0 <= i < |d.order| => d.entries[d.order[i]])
  }

  /** The keys of `b` that `a` lacks, in `b`'s order. */
  function NewKeys<K(==,!new)>(a: set<K>, order: seq<K>): (r: seq<K>)
    ensures forall k :: k in r <==> k in order && k !in a
    ensures Distinct(order) ==> Distinct(r)
  {
    if |order| == 0 then []
    else if order[0] in a then NewKeys(a, order[1..])
    else [order[0]] + NewKeys(a, order[1..])
  }

  /** `{**a, **b}`: keys of `a` first, then the new keys of `b`; `b` wins on shared keys. */
  function Merge<K(==,!new), V>(a: Dict<K, V>, b: Dict<K, V>): (r: Dict<K, V>)
    ensures r.entries.Keys == a.entries.Keys + b.entries.Keys
    ensures forall k :: k in r.entries ==> r.entries[k] == (if k in b.entries then b.entries[k] else a.entries[k])
    ensures a.order <= r.order
  {
    var extra := NewKeys(a.entries.Keys, b.order);
    var order := a.order + extra;
    assert Distinct(order) by {
      forall i, j | 0 <= i < j < |order| ensures order[i] != order[j] {
        if j >= |a.order| && i < |a.order| {
          assert order[j] in extra;
          assert order[i] in a.order;
        }
      }
    }
    RawDict(order, a.entries + b.entries)
  }

  /** The same keys in the same order, each value passed through `f`. */
  function MapValues<K(==,!new), V>(d: Dict<K, V>, f: V -> V): (r: Dict<K, V>)
    ensures r.order == d.order
    ensures r.entries.Keys == d.entries.Keys
    ensures forall k :: k in r.entries ==> r.entries[k] == f(d.entries[k])
  {
    RawDict(d.order, map k | k in d.entries :: f(d.entries[k]))
  }

  /** Mapping twice with a function that is idempotent on the values is mapping once. */
  lemma MapValuesTwice<K(!new), V>(d: Dict<K, V>, f: V -> V)
    requires forall k :: k in d.entries ==> f(f(d.entries[k])) == f(d.entries[k])
    ensures MapValues(MapValues(d, f), f) == MapValues(d, f)
  {
    var once := MapValues(d, f);
    assert MapValues(once, f).entries == once.entries;
  }

  /** `[make(k, v) for k, v in d.items() if keep(k, v)]` over the keys `keys`. */
  function Collect<K(==,!new), V, R(!new)>(d: Dict<K, V>, keys: seq<K>, keep: (K, V) -> bool, make: (K, V) -> R): (r: seq<R>)
    requires forall k :: k in keys ==> k in d.entries
    ensures |r| <= |keys|
    ensures forall x :: x in r <==> exists k :: k in keys && keep(k, d.entries[k]) && x == make(k, d.entries[k])
  {
    if |keys| == 0 then []
    else
      assert forall k :: k in keys <==> k == keys[0] || k in keys[1..] by {
        assert keys == [keys[0]] + keys[1..];
      }
      var k := keys[0];
      (if keep(k, d.entries[k]) then [make(k, d.entries[k])] else []) + Collect(d, keys[1..], keep, make)
  }

  /** The sum of the values, in iteration order. */
  function SumValues<K(==,!new)>(d: Dict<K, nat>): nat {
    SumOver(d.order, d.entries)
  }

  function SumOver<K>(order: seq<K>, m: map<K, nat>): nat
    requires forall k :: k in order ==> k in m
  {
    if |order| == 0 then 0 else SumOver(order[..|order| - 1], m) + m[order[|order| - 1]]
  }

  /** The number of times `k` occurs in `s`. */
  function Occurrences<K(==)>(s: seq<K>, k: K): (n: nat)
    ensures n == 0 <==> k !in s
  {
    assert |s| > 0 ==> s == s[..|s| - 1] + [s[|s| - 1]];
    if |s| == 0 then 0 else Occurrences(s[..|s| - 1], k) + (if s[|s| - 1] == k then 1 else 0)
  }

  /** `for k in keys: counts[k] = counts.get(k, 0) + 1`. */
  function Tally<K(==,!new)>(keys: seq<K>): (r: Dict<K, nat>)
    ensures forall k :: k in r.entries <==> k in keys
    ensures forall k :: k in r.entries ==> r.entries[k] == Occurrences(keys, k)
  {
    if |keys| == 0 then Empty()
    else
      var init, k := keys[..|keys| - 1], keys[|keys| - 1];
      assert forall x :: x in keys <==> x in init || x == k by {
        assert keys == init + [k];
      }
      assert forall x :: Occurrences(keys, x) == Occurrences(init, x) + (if k == x then 1 else 0);
      Bump(Tally(init), k)
  }

  /** `counts[k] = counts.get(k, 0) + 1`. */
  function Bump<K(==,!new)>(d: Dict<K, nat>, k: K): (r: Dict<K, nat>)
    ensures k in d.entries ==> r.order == d.order && r.entries == d.entries[k := d.entries[k] + 1]
    ensures k !in d.entries ==> r.order == d.order + [k] && r.entries == d.entries[k := 1]
  {
    Put(d, k, if k in d.entries then d.entries[k] + 1 else 1)
  }

  /** The counts add up to the number of keys tallied. */
  lemma {:induction false} TallySum<K(!new)>(keys: seq<K>)
    ensures SumValues(Tally(keys)) == |keys|
    decreases |keys|
  {
    if |keys| > 0 {
      var init, k := keys[..|keys| - 1], keys[|keys| - 1];
      var d := Tally(init);
      TallySum(init);
      assert Tally(keys) == Bump(d, k);
      BumpSum(d, k);
    }
  }

  lemma BumpSum<K(!new)>(d: Dict<K, nat>, k: K)
    ensures SumValues(Bump(d, k)) == SumValues(d) + 1
  {
    if k in d.entries {
      SumBump(d.order, d.entries, k);
    } else {
      SumSnoc(d.order, d.entries, k, 1);
    }
  }

  /** Adding one to a key that occurs once adds one to the sum. */
  lemma {:induction false} SumBump<K>(order: seq<K>, m: map<K, nat>, k: K)
    requires Distinct(order) && k in order
    requires forall x :: x in order ==> x in m
    ensures SumOver(order, m[k := m[k] + 1]) == SumOver(order, m) + 1
    decreases |order|
  {
    var init, x := order[..|order| - 1], order[|order| - 1];
    assert order == init + [x];
    var m2 := m[k := m[k] + 1];
    assert Distinct(init) by {
      forall i, j | 0 <= i < j < |init| ensures init[i] != init[j] {
        assert init[i] == order[i] && init[j] == order[j];
      }
    }
    if x == k {
      assert k !in init;
      SumFrame(init, m, m2);
    } else {
      assert k in init;
      SumBump(init, m, k);
    }
  }

  /** A new key with value `v` adds `v` to the sum. */
  lemma SumSnoc<K>(order: seq<K>, m: map<K, nat>, k: K, v: nat)
    requires k !in order
    requires forall x :: x in order ==> x in m
    ensures SumOver(order + [k], m[k := v]) == SumOver(order, m) + v
  {
    assert (order + [k])[..|order|] == order;
    SumFrame(order, m, m[k := v]);
  }

  /** The sum reads only the listed keys. */
  lemma {:induction false} SumFrame<K>(order: seq<K>, m: map<K, nat>, m2: map<K, nat>)
    requires forall x :: x in order ==> x in m && x in m2 && m[x] == m2[x]
    ensures SumOver(order, m) == SumOver(order, m2)
    decreases |order|
  {
    if |order| > 0 {
      var init := order[..|order| - 1];
      assert forall x :: x in init ==> x in order;
      SumFrame(init, m, m2);
    }
  }
}
