/** The stack property: a smaller cache is always contained, in order and with the same
    values, in a larger one that has seen the same calls. */
module LruInclusion {
  import opened Sequences
  import opened LruItems
  import opened LruCaches
  import opened LruRuns

  /** `a` is obtained from `b` by leaving entries out. */
  predicate Subsequence<T(==)>(a: seq<T>, b: seq<T>) {
    a == [] || (b != [] && ((a[0] == b[0] && Subsequence(a[1..], b[1..])) || Subsequence(a, b[1..])))
  }

  lemma {:induction false} SubsequenceMember<T>(a: seq<T>, b: seq<T>, x: T)
    requires Subsequence(a, b) && x in a
    ensures x in b
  {
    if a[0] == b[0] && Subsequence(a[1..], b[1..]) {
      if x != a[0] {
        SubsequenceMember(a[1..], b[1..], x);
      }
    } else {
      SubsequenceMember(a, b[1..], x);
    }
  }

  lemma {:induction false} SubsequenceShorter<T>(a: seq<T>, b: seq<T>)
    requires Subsequence(a, b)
    ensures |a| <= |b| && (|a| == |b| ==> a == b)
  {
    if a == [] {
    } else {
      if a[0] == b[0] && Subsequence(a[1..], b[1..]) {
        SubsequenceShorter(a[1..], b[1..]);
      } else {
        SubsequenceShorter(a, b[1..]);
      }
    }
  }

  lemma {:induction false} SubsequenceTails<T>(a: seq<T>, b: seq<T>)
    requires Subsequence(a, b) && a != []
    ensures Subsequence(a[1..], b[1..])
  {
    if !(a[0] == b[0] && Subsequence(a[1..], b[1..])) {
      SubsequenceTails(a, b[1..]);
    }
  }

  lemma SubsequenceDrop<T>(a: seq<T>, b: seq<T>)
    requires Subsequence(a, b) && a != []
    ensures Subsequence(a[1..], b)
  {
    SubsequenceTails(a, b);
  }

  lemma {:induction false} SubsequenceAppend<T>(a: seq<T>, b: seq<T>, x: T)
    requires Subsequence(a, b)
    ensures Subsequence(a + [x], b + [x]) && Subsequence(a, b + [x])
  {
    if b == [] {
      assert a + [x] == [x] && b + [x] == [x];
    } else if a == [] {
      SubsequenceAppend(a, b[1..], x);
      assert (b + [x])[1..] == b[1..] + [x];
    } else {
      assert (a + [x])[1..] == a[1..] + [x] && (b + [x])[1..] == b[1..] + [x];
      if a[0] == b[0] && Subsequence(a[1..], b[1..]) {
        SubsequenceAppend(a[1..], b[1..], x);
      } else {
        SubsequenceAppend(a, b[1..], x);
      }
    }
  }

  lemma {:induction false} SubsequenceWithout<K, V>(a: Items<K, V>, b: Items<K, V>, k: K)
    requires Subsequence(a, b)
    ensures Subsequence(Without(a, k), Without(b, k))
  {
    if a == [] {
    } else {
      if a[0] == b[0] && Subsequence(a[1..], b[1..]) {
        SubsequenceWithout(a[1..], b[1..], k);
      } else {
        SubsequenceWithout(a, b[1..], k);
      }
    }
  }

  /** The entries of a subsequence answer lookups as the whole does. */
  lemma SubsequenceLookup<K, V>(a: Items<K, V>, b: Items<K, V>, k: K)
    requires Subsequence(a, b) && Distinct(Keys(b)) && HasKey(a, k)
    ensures HasKey(b, k) && Lookup(a, k) == Lookup(b, k)
  {
    LookupIffKey(a, k);
    LookupMember(a, k);
    var e := (k, Lookup(a, k).value);
    SubsequenceMember(a, b, e);
    var i :| 0 <= i < |b| && b[i] == e;
    LookupAt(b, i);
    LookupIffKey(b, k);
  }

  /** The invariant that carries inclusion through a run: the small cache is part of the large
      one, and differs from it only once it is full. */
  ghost predicate Included<K, V>(j: int, small: Items<K, V>, large: Items<K, V>) {
    && Subsequence(small, large)
    && (|small| >= j || small == large)
  }

  lemma GetKeepsInclusion<K, V>(j: int, small: Items<K, V>, large: Items<K, V>, k: K)
    requires Included(j, small, large)
    requires Distinct(Keys(small)) && Distinct(Keys(large))
    ensures Included(j, AfterGet(small, k), AfterGet(large, k))
  {
    LookupIffKey(small, k);
    LookupIffKey(large, k);
    WithoutFacts(small, k);
    SubsequenceWithout(small, large, k);
    if HasKey(small, k) {
      SubsequenceLookup(small, large, k);
      var v := Lookup(small, k).value;
      SubsequenceAppend(Without(small, k), Without(large, k), (k, v));
    } else if HasKey(large, k) {
      WithoutAbsent(small, k);
      SubsequenceAppend(small, Without(large, k), (k, Lookup(large, k).value));
    }
  }

  lemma SetKeepsInclusion<K, V>(j: int, k': int, small: Items<K, V>, large: Items<K, V>, k: K, v: V)
    requires 1 <= j <= k' && Included(j, small, large) && |small| <= j && |large| <= k'
    requires Distinct(Keys(small)) && Distinct(Keys(large))
    ensures Included(j, AfterSet(j, small, k, v), AfterSet(k', large, k, v))
  {
    WithoutFacts(small, k);
    SubsequenceWithout(small, large, k);
    if HasKey(small, k) {
      LookupIffKey(small, k);
      SubsequenceLookup(small, large, k);
      SubsequenceAppend(Without(small, k), Without(large, k), (k, v));
    } else {
      WithoutAbsent(small, k);
      var wide := if HasKey(large, k) then Without(large, k) else Room(k', large);
      assert Subsequence(Room(j, small), wide) by {
        RoomKeepsInclusion(j, k', small, large, wide);
      }
      SubsequenceAppend(Room(j, small), wide, (k, v));
    }
  }

  lemma RoomKeepsInclusion<K, V>(j: int, k': int, small: Items<K, V>, large: Items<K, V>, wide: Items<K, V>)
    requires 1 <= j <= k' && Included(j, small, large) && |small| <= j
    requires Subsequence(small, wide) || wide == Room(k', large)
    ensures Subsequence(Room(j, small), wide)
  {
    if Subsequence(small, wide) {
      if small != [] {
        SubsequenceDrop(small, wide);
      }
    } else {
      SubsequenceShorter(small, large);
      if small != [] {
        SubsequenceTails(small, large);
      }
    }
  }

  /** For capacities j <= k the j-cache is at every moment a subsequence of the k-cache: the
      same order and the same values, although a `get` may hit in one and miss in the other. */
  lemma {:induction false} Inclusion<K, V>(j: int, k: int, trace: seq<Op<K, V>>)
    requires 1 <= j <= k
    ensures Subsequence(Run(j, trace), Run(k, trace))
    ensures Included(j, Run(j, trace), Run(k, trace))
  {
    if trace == [] {
    } else {
      var before, op := trace[..|trace| - 1], trace[|trace| - 1];
      Inclusion(j, k, before);
      RunShape(j, before);
      RunShape(k, before);
      match op
      case Get(key) => GetKeepsInclusion(j, Run(j, before), Run(k, before), key);
      case Set(key, v) => SetKeepsInclusion(j, k, Run(j, before), Run(k, before), key, v);
    }
  }

  /** Hence a hit in the small cache is a hit in the large one, with the same value. */
  lemma HitsCarryOver<K, V>(j: int, k: int, trace: seq<Op<K, V>>, key: K)
    requires 1 <= j <= k && Lookup(Run(j, trace), key).Some?
    ensures Lookup(Run(k, trace), key) == Lookup(Run(j, trace), key)
  {
    Inclusion(j, k, trace);
    RunShape(k, trace);
    LookupIffKey(Run(j, trace), key);
    SubsequenceLookup(Run(j, trace), Run(k, trace), key);
  }
}
