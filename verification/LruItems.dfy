/** Association lists in insertion order: the abstract value of an ordered dictionary.
    The front of the list is the oldest entry, the back the newest. */
module LruItems {
  import opened Wrappers
  import opened Sequences

  type Items<K, V> = seq<(K, V)>

  function Keys<K, V>(items: Items<K, V>): (ks: seq<K>)
    ensures |ks| == |items|
    ensures forall i :: 0 <= i < |items| ==> ks[i] == items[i].0
  {
    seq(|items|, i requires 0 <= i < |items| => items[i].0)
  }

  predicate HasKey<K(==), V>(items: Items<K, V>, k: K) {
    k in Keys(items)
  }

  /** Drops the entry of `k`, keeping the order of the others. */
  function Without<K(==), V>(items: Items<K, V>, k: K): Items<K, V> {
    if items == [] then []
    else if items[0].0 == k then Without(items[1..], k)
    else [items[0]] + Without(items[1..], k)
  }

  function Lookup<K(==), V>(items: Items<K, V>, k: K): Option<V> {
    if items == [] then None
    else if items[0].0 == k then Some(items[0].1)
    else Lookup(items[1..], k)
  }

  lemma KeysConcat<K, V>(a: Items<K, V>, b: Items<K, V>)
    ensures Keys(a + b) == Keys(a) + Keys(b)
  {
  }

  lemma {:induction false} LookupIffKey<K, V>(items: Items<K, V>, k: K)
    ensures Lookup(items, k).Some? <==> HasKey(items, k)
  {
    if items == [] {
    } else {
      assert Keys(items) == [items[0].0] + Keys(items[1..]);
      LookupIffKey(items[1..], k);
    }
  }

  lemma {:induction false} LookupAt<K, V>(items: Items<K, V>, i: nat)
    requires i < |items| && Distinct(Keys(items))
    ensures Lookup(items, items[i].0) == Some(items[i].1)
  {
    assert Keys(items) == [items[0].0] + Keys(items[1..]);
    if i > 0 {
      assert Keys(items)[0] != Keys(items)[i];
      DistinctTail(Keys(items));
      LookupAt(items[1..], i - 1);
    }
  }

  lemma {:induction false} WithoutAbsent<K, V>(items: Items<K, V>, k: K)
    requires !HasKey(items, k)
    ensures Without(items, k) == items
  {
    if items == [] {
    } else {
      assert Keys(items) == [items[0].0] + Keys(items[1..]);
      WithoutAbsent(items[1..], k);
    }
  }

  lemma {:induction false} WithoutConcat<K, V>(a: Items<K, V>, b: Items<K, V>, k: K)
    ensures Without(a + b, k) == Without(a, k) + Without(b, k)
  {
    if a == [] {
      assert a + b == b;
    } else {
      assert (a + b)[1..] == a[1..] + b;
      WithoutConcat(a[1..], b, k);
    }
  }

  /** In a list with distinct keys, the key at `i` occurs neither before nor after `i`. */
  lemma KeyOnlyAt<K, V>(items: Items<K, V>, i: nat)
    requires i < |items| && Distinct(Keys(items))
    ensures !HasKey(items[..i], items[i].0) && !HasKey(items[i + 1..], items[i].0)
  {
    var ks := Keys(items);
    assert Keys(items[..i]) == ks[..i] && Keys(items[i + 1..]) == ks[i + 1..];
  }

  /** With distinct keys, dropping a key cuts out exactly its position. */
  lemma {:induction false} WithoutCuts<K, V>(items: Items<K, V>, i: nat)
    requires i < |items| && Distinct(Keys(items))
    ensures Without(items, items[i].0) == items[..i] + items[i + 1..]
  {
    KeyOnlyAt(items, i);
    CutAround(items[..i], items[i], items[i + 1..]);
    assert items == items[..i] + ([items[i]] + items[i + 1..]);
  }

  lemma CutAround<K, V>(a: Items<K, V>, e: (K, V), b: Items<K, V>)
    requires !HasKey(a, e.0) && !HasKey(b, e.0)
    ensures Without(a + ([e] + b), e.0) == a + b
  {
    WithoutConcat(a, [e] + b, e.0);
    WithoutAbsent(a, e.0);
    WithoutAbsent(b, e.0);
    assert ([e] + b)[1..] == b;
  }

  /** A present key has a position. */
  lemma Position<K, V>(items: Items<K, V>, k: K) returns (i: nat)
    requires HasKey(items, k)
    ensures i < |items| && items[i].0 == k
  {
    i :| 0 <= i < |items| && Keys(items)[i] == k;
  }

  /** What dropping a key leaves behind. */
  lemma WithoutFacts<K, V>(items: Items<K, V>, k: K)
    requires Distinct(Keys(items))
    ensures Distinct(Keys(Without(items, k)))
    ensures !HasKey(Without(items, k), k)
    ensures |Without(items, k)| == |items| - (if HasKey(items, k) then 1 else 0)
    ensures forall x :: x in Keys(Without(items, k)) <==> x in Keys(items) && x != k
  {
    if HasKey(items, k) {
      var i := Position(items, k);
      WithoutCuts(items, i);
      KeysConcat(items[..i], items[i + 1..]);
      var ks := Keys(items);
      assert Keys(Without(items, k)) == ks[..i] + ks[i + 1..];
      assert ks == ks[..i] + [ks[i]] + ks[i + 1..];
    } else {
      WithoutAbsent(items, k);
    }
  }

  lemma WithoutTail<K, V>(items: Items<K, V>, k: K)
    requires !HasKey(items, k)
    ensures items != [] ==> !HasKey(items[1..], k)
  {
    if items != [] {
      assert Keys(items) == [items[0].0] + Keys(items[1..]);
    }
  }
}
