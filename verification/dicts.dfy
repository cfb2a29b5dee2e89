/** Python's dict with text keys: a finite map that remembers the order in
    which its keys were first inserted. */
module Dicts {
  import opened Base
  import opened Seqs

  datatype DictRep<V> = DictRep(keys: seq<Text>, m: map<Text, V>)

  /** Every key is listed once, and the listed keys are exactly the map's keys. */
  predicate WellFormed<V>(d: DictRep<V>) {
    Distinct(d.keys) && (forall k | k in d.m :: k in d.keys) && (forall k | k in d.keys :: k in d.m)
  }

  type Dict<V> = d: DictRep<V> | WellFormed(d) witness DictRep([], map[])

  function EmptyDict<V>(): Dict<V> {
    DictRep([], map[])
  }

  /** `d[k] = v`: a present key keeps its position and gets the new value,
      a new key goes to the end. */
  function Put<V>(d: Dict<V>, k: Text, v: V): Dict<V> {
    if k in d.m then DictRep(d.keys, d.m[k := v]) else DictRep(d.keys + [k], d.m[k := v])
  }

  /** `d.items()`: the key/value pairs in insertion order. */
  function Items<V>(d: Dict<V>): seq<(Text, V)> {
    seq(|d.keys|, i requires 0 <= i < |d.keys| => (d.keys[i], d.m[d.keys[i]]))
  }

  predicate DistinctFirsts<V>(items: seq<(Text, V)>) {
    forall i, j | 0 <= i < j < |items| :: items[i].0 != items[j].0
  }

  /** The value paired with `k` by the first pair that carries it. */
  function Lookup<V>(items: seq<(Text, V)>, k: Text): Option<V> {
    if |items| == 0 then None
    else if items[0].0 == k then Some(items[0].1)
    else Lookup(items[1..], k)
  }

  /** In a list of pairs with distinct keys, looking a key up finds the pair that carries it. */
  lemma {:induction false} LookupFinds<V>(items: seq<(Text, V)>, k: Text)
    requires DistinctFirsts(items)
    ensures Lookup(items, k).None? <==> forall i | 0 <= i < |items| :: items[i].0 != k
    ensures forall i | 0 <= i < |items| && items[i].0 == k :: Lookup(items, k) == Some(items[i].1)
  {
    if |items| > 0 {
      LookupFinds(items[1..], k);
      forall i | 0 < i < |items| ensures items[i] == items[1..][i - 1] { }
    }
  }

  /** Looking a key up among a dict's items gives the dict's own value for it. */
  lemma ItemsLookup<V>(d: Dict<V>, k: Text)
    ensures DistinctFirsts(Items(d))
    ensures Lookup(Items(d), k) == if k in d.m then Some(d.m[k]) else None
  {
    var items := Items(d);
    LookupFinds(items, k);
    if k in d.m {
      var i :| 0 <= i < |d.keys| && d.keys[i] == k;
      assert items[i].0 == k;
    }
  }

  /** The keys of `keys` all occur in `s`, and appear in `keys` in the order of their first occurrence in `s`. */
  predicate FirstAppearanceOrder(keys: seq<Text>, s: seq<Text>) {
    (forall k | k in keys :: k in s) &&
    forall a, b | 0 <= a < b < |keys| :: FirstIndex(s, keys[a]) < FirstIndex(s, keys[b])
  }

  /** Extending `s` keeps the order of first appearance of keys already in it. */
  lemma AppearanceOrderExtend(keys: seq<Text>, s: seq<Text>, y: Text)
    requires FirstAppearanceOrder(keys, s)
    ensures FirstAppearanceOrder(keys, s + [y])
    ensures forall x | x in keys :: FirstIndex(s + [y], x) < |s|
  {
    forall x | x in keys ensures FirstIndex(s + [y], x) == FirstIndex(s, x) < |s| {
      FirstIndexAppend(s, y, x);
    }
  }

  /** A key met for the first time goes after all the others. */
  lemma AppearanceOrderAppendNew(keys: seq<Text>, s: seq<Text>, k: Text)
    requires FirstAppearanceOrder(keys, s) && k !in s
    ensures FirstAppearanceOrder(keys + [k], s + [k])
  {
    AppearanceOrderExtend(keys, s, k);
    FirstIndexAppend(s, k, k);
    var ks := keys + [k];
    forall a, b | 0 <= a < b < |ks| ensures FirstIndex(s + [k], ks[a]) < FirstIndex(s + [k], ks[b]) {
      assert ks[a] == keys[a];
      if b < |keys| {
        assert ks[b] == keys[b];
      }
    }
  }

  /** Storing the next key of `s` keeps a dict's keys in order of first appearance. */
  lemma PutKeepsAppearanceOrder<V>(d: Dict<V>, s: seq<Text>, k: Text, v: V)
    requires FirstAppearanceOrder(d.keys, s) && forall x | x in s :: x in d.m
    ensures FirstAppearanceOrder(Put(d, k, v).keys, s + [k])
  {
    if k in d.m {
      AppearanceOrderExtend(d.keys, s, k);
    } else {
      AppearanceOrderAppendNew(d.keys, s, k);
    }
  }
}
