/** How many misses the cache takes, compared with any other way of managing a cache. */
module LruCompetitive {
  import opened Wrappers
  import opened Sequences
  import opened LruItems
  import opened LruCaches
  import opened LruRuns

  /** One request: `get`, and on a miss `set` with the value `v` loaded for the key. */
  function Serve<K(==), V>(capacity: int, items: Items<K, V>, k: K, v: V): Items<K, V> {
    if HasKey(items, k) then AfterGet(items, k) else AfterSet(capacity, AfterGet(items, k), k, v)
  }

  /** Serving a sequence of requests, each a key with the value a miss would load for it. */
  function ServeAll<K(==), V>(capacity: int, requests: Items<K, V>): Items<K, V> {
    if requests == [] then []
    else
      var (k, v) := requests[|requests| - 1];
      Serve(capacity, ServeAll(capacity, requests[..|requests| - 1]), k, v)
  }

  function Misses<K(==), V>(capacity: int, requests: Items<K, V>): nat {
    if requests == [] then 0
    else
      var before := requests[..|requests| - 1];
      Misses(capacity, before) + if HasKey(ServeAll(capacity, before), requests[|requests| - 1].0) then 0 else 1
  }

  /** The resolver has an answer in its cache; the empty string stands for none. */
  predicate Cached<K(==)>(items: Items<K, string>, k: K) {
    Lookup(items, k).Some? && Lookup(items, k).value != ""
  }

  predicate NoEmptyValue<K(==)>(items: Items<K, string>) {
    forall e :: e in items ==> e.1 != ""
  }

  /** How the resolver of marathon-lb uses the cache: a request served as above, as long as no
      empty string has been stored; only a successful resolution is stored. */
  method ResolveIp(ipCache: LruCache<string, string>, host: string, answer: Option<string>) returns (ip: string, raised: bool)
    requires ipCache.Valid()
    modifies ipCache.cache, ipCache.cache.nodes
    ensures ipCache.Valid()
    ensures
      var was, now := old(ipCache.cache.items), ipCache.cache.items;
      && raised == (!Cached(was, host) && answer.Some? && SetRaises(ipCache.capacity, AfterGet(was, host), host))
      && (!raised ==> ip == if Cached(was, host) then Lookup(was, host).value else if answer.Some? then answer.value else "")
      && (NoEmptyValue(was) && answer.Some? ==> now == Serve(ipCache.capacity, was, host, answer.value))
      && (answer.None? || Cached(was, host) ==> now == AfterGet(was, host))
      && (answer.Some? && !Cached(was, host) ==> now == AfterSet(ipCache.capacity, AfterGet(was, host), host, answer.value))
  {
    ghost var items := ipCache.cache.items;
    LookupIffKey(items, host);
    if Lookup(items, host).Some? {
      LookupMember(items, host);
    }
    var cached := ipCache.Get(host, "");
    if cached != "" {
      return cached, false;
    }
    match answer {
      case None =>
        return "", false;
      case Some(resolved) =>
        raised := ipCache.Set(host, resolved);
        ip := resolved;
    }
  }

  // ---- Other policies -------------------------------------------------------------------------

  /** A policy is what it holds before each request and after the last: it starts empty, never
      holds more than `slots` keys, and holds each requested key after serving it. It may load
      and drop other keys at any time. */
  ghost predicate IsPolicy<K>(slots: nat, requests: seq<K>, held: seq<set<K>>) {
    && |held| == |requests| + 1
    && held[0] == {}
    && (forall i :: 0 <= i < |held| ==> |held[i]| <= slots)
    && (forall i :: 0 <= i < |requests| ==> requests[i] in held[i + 1])
  }

  /** Keys loaded while serving the first `n` requests. */
  ghost function Loads<K>(held: seq<set<K>>, n: nat): nat
    requires n < |held|
  {
    if n == 0 then 0 else Loads(held, n - 1) + |held[n] - held[n - 1]|
  }

  /** Keys dropped while serving the first `n` requests. */
  ghost function Drops<K>(held: seq<set<K>>, n: nat): nat
    requires n < |held|
  {
    if n == 0 then 0 else Drops(held, n - 1) + |held[n - 1] - held[n]|
  }

  lemma SplitSize<T>(a: set<T>, b: set<T>)
    ensures |a| == |a * b| + |a - b|
  {
    assert a == a * b + (a - b);
  }

  /** What was loaded and not dropped is still held. */
  lemma {:induction false} LoadsMinusDrops<K>(held: seq<set<K>>, n: nat)
    requires n < |held| && held[0] == {}
    ensures Loads(held, n) - Drops(held, n) == |held[n]|
  {
    if n == 0 {
    } else {
      LoadsMinusDrops(held, n - 1);
      var a, b := held[n - 1], held[n];
      SplitSize(a, b);
      SplitSize(b, a);
      assert a * b == b * a;
    }
  }

  // ---- The potential --------------------------------------------------------------------------

  /** The weight of the cached keys that the other policy does not hold: the i-th oldest
      counts i. */
  ghost function Potential<K>(keys: seq<K>, held: set<K>): nat {
    if keys == [] then 0
    else
      var n := |keys|;
      Potential(keys[..n - 1], held) + if keys[n - 1] in held then 0 else n
  }

  ghost function Unheld<K>(keys: seq<K>, held: set<K>): nat {
    if keys == [] then 0
    else Unheld(keys[..|keys| - 1], held) + if keys[|keys| - 1] in held then 0 else 1
  }

  /** Evicting the front makes every other key one lighter. */
  lemma {:induction false} EvictionLowers<K>(keys: seq<K>, held: set<K>)
    requires keys != []
    ensures Potential(keys[1..], held) == Potential(keys, held) - Unheld(keys, held)
  {
    var n := |keys|;
    if n == 1 {
      assert keys[..0] == [] && keys[1..] == [];
    } else {
      EvictionLowers(keys[..n - 1], held);
      assert keys[1..][..n - 2] == keys[..n - 1][1..];
    }
  }

  /** A cache of distinct keys shares at most `held`'s size with it. */
  lemma {:induction false} ManyUnheld<K>(keys: seq<K>, held: set<K>)
    requires Distinct(keys)
    ensures Unheld(keys, held) >= |keys| - |held|
  {
    if keys == [] {
    } else {
      var rest, x := keys[..|keys| - 1], keys[|keys| - 1];
      ManyUnheld(rest, held - {x});
      UnheldIgnores(rest, held, x);
    }
  }

  lemma {:induction false} UnheldIgnores<K>(keys: seq<K>, held: set<K>, x: K)
    requires x !in keys
    ensures Unheld(keys, held) == Unheld(keys, held - {x})
  {
    if keys == [] {
    } else {
      UnheldIgnores(keys[..|keys| - 1], held, x);
    }
  }

  /** When the other policy drops keys, each adds at most the capacity to the potential. */
  lemma {:induction false} DropsRaise<K>(keys: seq<K>, capacity: nat, was: set<K>, now: set<K>)
    requires Distinct(keys) && |keys| <= capacity
    ensures Potential(keys, now) <= Potential(keys, was) + Times(capacity, |was - now|)
  {
    if keys == [] {
      TimesIsProduct(capacity, |was - now|);
    } else {
      var n := |keys|;
      var rest, x := keys[..n - 1], keys[n - 1];
      if x in was - now {
        DropsRaise(rest, capacity, was - {x}, now);
        PotentialIgnores(rest, was, x);
        assert was - {x} - now == (was - now) - {x};
        TimesSum(capacity, |was - {x} - now|, 1);
        TimesIsProduct(capacity, 1);
      } else {
        DropsRaise(rest, capacity, was, now);
      }
    }
  }

  lemma {:induction false} PotentialIgnores<K>(keys: seq<K>, held: set<K>, x: K)
    requires x !in keys
    ensures Potential(keys, held) == Potential(keys, held - {x})
  {
    if keys == [] {
    } else {
      PotentialIgnores(keys[..|keys| - 1], held, x);
    }
  }

  /** Moving a held key to the back does not raise the potential. */
  lemma MoveLowers<K>(keys: seq<K>, i: nat, held: set<K>)
    requires i < |keys| && keys[i] in held
    ensures Potential(keys[..i] + keys[i + 1..] + [keys[i]], held) <= Potential(keys, held)
  {
    var moved := keys[..i] + keys[i + 1..];
    CutLowers(keys, i, held);
    assert (moved + [keys[i]])[..|moved|] == moved;
  }

  lemma {:induction false} CutLowers<K>(keys: seq<K>, i: nat, held: set<K>)
    requires i < |keys|
    ensures Potential(keys[..i] + keys[i + 1..], held) <= Potential(keys, held)
  {
    var n := |keys|;
    var cut := keys[..i] + keys[i + 1..];
    if i == n - 1 {
      assert cut == keys[..n - 1];
    } else {
      CutLowers(keys[..n - 1], i, held);
      assert cut[..n - 2] == keys[..n - 1][..i] + keys[..n - 1][i + 1..];
      assert cut[n - 2] == keys[n - 1];
    }
  }

  lemma PotentialAppend<K>(keys: seq<K>, x: K, held: set<K>)
    requires x in held
    ensures Potential(keys + [x], held) == Potential(keys, held)
  {
    assert (keys + [x])[..|keys|] == keys;
  }

  // ---- The bound ------------------------------------------------------------------------------

  lemma {:induction false} ServeShape<K, V>(capacity: int, requests: Items<K, V>)
    requires capacity >= 1
    ensures Distinct(Keys(ServeAll(capacity, requests))) && |ServeAll(capacity, requests)| <= capacity
  {
    if requests == [] {
    } else {
      var before := requests[..|requests| - 1];
      var (k, v) := requests[|requests| - 1];
      var items := ServeAll(capacity, before);
      ServeShape(capacity, before);
      LookupIffKey(items, k);
      StepShape(capacity, items, Op<K, V>.Get(k));
      StepShape(capacity, items, Op.Set(k, v));
    }
  }

  /** What one miss of the full k-cache takes out of the potential against h slots: k-h+1. */
  function Price(capacity: nat, slots: nat): nat
    requires slots <= capacity
  {
    capacity - slots + 1
  }

  /** One request, after the other policy has already moved to `held`: a miss with a full cache
      pays for itself out of the potential. */
  lemma ServePays<K, V>(capacity: nat, slots: nat, items: Items<K, V>, k: K, v: V, held: set<K>)
    requires 1 <= slots <= capacity && Distinct(Keys(items)) && |items| <= capacity
    requires k in held && |held| <= slots
    ensures
      var later := Serve(capacity, items, k, v);
      var paid := if HasKey(items, k) || |items| < capacity then 0 else Price(capacity, slots);
      Potential(Keys(later), held) + paid <= Potential(Keys(items), held)
  {
    var ks := Keys(items);
    LookupIffKey(items, k);
    if HasKey(items, k) {
      var i := Position(items, k);
      WithoutCuts(items, i);
      var v := Lookup(items, k).value;
      assert Keys(Without(items, k) + [(k, v)]) == ks[..i] + ks[i + 1..] + [ks[i]];
      MoveLowers(ks, i, held);
    } else {
      assert Keys(items + [(k, v)]) == ks + [k];
      PotentialAppend(ks, k, held);
      if |items| == capacity {
        assert Keys(items[1..] + [(k, v)]) == ks[1..] + [k];
        PotentialAppend(ks[1..], k, held);
        EvictionLowers(ks, held);
        ManyUnheld(ks, held - {k});
        UnheldIgnores(ks, held, k);
      }
    }
  }

  /** Multiplication as repeated addition: keeps products out of the amortised proof. */
  ghost function Times(n: nat, x: int): int {
    if n == 0 then 0 else Times(n - 1, x) + x
  }

  lemma {:induction false} TimesIsProduct(n: nat, x: int)
    ensures Times(n, x) == n * x
  {
    if n == 0 {
    } else {
      TimesIsProduct(n - 1, x);
    }
  }

  lemma {:induction false} TimesSum(n: nat, x: int, y: int)
    ensures Times(n, x + y) == Times(n, x) + Times(n, y)
    ensures x <= y ==> Times(n, x) <= Times(n, y)
  {
    if n == 0 {
    } else {
      TimesSum(n - 1, x, y);
    }
  }

  /** Which of the requests evict: the misses that find the cache full. */
  ghost function Evictions<K, V>(capacity: int, requests: Items<K, V>): (evicts: seq<bool>)
    ensures |evicts| == |requests|
  {
    if requests == [] then []
    else
      var before := requests[..|requests| - 1];
      var items := ServeAll(capacity, before);
      Evictions(capacity, before) + [!HasKey(items, requests[|requests| - 1].0) && |items| >= capacity]
  }

  ghost function Count(evicts: seq<bool>): nat {
    if evicts == [] then 0 else Count(evicts[..|evicts| - 1]) + if evicts[|evicts| - 1] then 1 else 0
  }

  /** Every other miss leaves one more entry behind. */
  lemma {:induction false} MissesSplit<K, V>(capacity: nat, requests: Items<K, V>)
    requires capacity >= 1
    ensures Misses(capacity, requests) == Count(Evictions(capacity, requests)) + |ServeAll(capacity, requests)|
  {
    if requests == [] {
    } else {
      var before := requests[..|requests| - 1];
      var (k, v) := requests[|requests| - 1];
      MissesSplit(capacity, before);
      ServeShape(capacity, before);
      ServeSize(capacity, ServeAll(capacity, before), k, v);
      assert Evictions(capacity, requests)[..|requests| - 1] == Evictions(capacity, before);
    }
  }

  lemma ServeSize<K, V>(capacity: nat, items: Items<K, V>, k: K, v: V)
    requires capacity >= 1 && Distinct(Keys(items)) && |items| <= capacity
    ensures |Serve(capacity, items, k, v)| == |items| + if HasKey(items, k) || |items| == capacity then 0 else 1
  {
    WithoutFacts(items, k);
    LookupIffKey(items, k);
  }

  /** The account after `n` requests: each drop pays in the capacity, each eviction pays out
      its price. */
  ghost function Account<K>(capacity: nat, price: nat, evicts: seq<bool>, held: seq<set<K>>): int
    requires |held| == |evicts| + 1
  {
    if evicts == [] then 0
    else
      var n := |evicts|;
      Account(capacity, price, evicts[..n - 1], held[..n])
        + Times(capacity, |held[n - 1] - held[n]|) - if evicts[n - 1] then price else 0
  }

  /** What the account comes to. */
  lemma {:induction false} AccountTotal<K>(capacity: nat, price: nat, evicts: seq<bool>, held: seq<set<K>>)
    requires |held| == |evicts| + 1
    ensures Account(capacity, price, evicts, held) == Times(capacity, Drops(held, |evicts|)) - Times(price, Count(evicts))
  {
    if evicts == [] {
      TimesIsProduct(capacity, 0);
      TimesIsProduct(price, 0);
    } else {
      var n := |evicts|;
      AccountTotal(capacity, price, evicts[..n - 1], held[..n]);
      DropsPrefix(held, n, n - 1);
      TimesSum(capacity, Drops(held, n - 1), |held[n - 1] - held[n]|);
      TimesSum(price, Count(evicts[..n - 1]), if evicts[n - 1] then 1 else 0);
      TimesIsProduct(price, if evicts[n - 1] then 1 else 0);
    }
  }

  lemma {:induction false} DropsPrefix<K>(held: seq<set<K>>, m: nat, n: nat)
    requires n < m <= |held|
    ensures Drops(held[..m], n) == Drops(held, n)
  {
    if n == 0 {
    } else {
      DropsPrefix(held, m, n - 1);
    }
  }

  lemma PolicyPrefix<K>(slots: nat, requests: seq<K>, held: seq<set<K>>)
    requires IsPolicy(slots, requests, held) && requests != []
    ensures IsPolicy(slots, requests[..|requests| - 1], held[..|requests|])
  {
  }

  /** The amortised invariant: the account always covers the potential. */
  lemma {:induction false} AccountCoversPotential<K, V>(capacity: nat, slots: nat, requests: Items<K, V>, held: seq<set<K>>)
    requires 1 <= slots <= capacity && IsPolicy(slots, Keys(requests), held)
    ensures Potential(Keys(ServeAll(capacity, requests)), held[|requests|])
            <= Account(capacity, Price(capacity, slots), Evictions(capacity, requests), held)
  {
    if requests == [] {
      assert Keys(ServeAll(capacity, requests)) == [];
    } else {
      var n := |requests|;
      var before := requests[..n - 1];
      var (k, v) := requests[n - 1];
      assert Keys(requests)[..n - 1] == Keys(before) && Keys(requests)[n - 1] == k;
      PolicyPrefix(slots, Keys(requests), held);
      AccountCoversPotential(capacity, slots, before, held[..n]);
      var items := ServeAll(capacity, before);
      ServeShape(capacity, before);
      DropsRaise(Keys(items), capacity, held[n - 1], held[n]);
      ServePays(capacity, slots, items, k, v, held[n]);
      assert Evictions(capacity, requests)[..n - 1] == Evictions(capacity, before);
    }
  }

  /** The drops pay for the evictions. */
  lemma DropsPayForEvictions<K, V>(capacity: nat, slots: nat, requests: Items<K, V>, held: seq<set<K>>)
    requires 1 <= slots <= capacity && IsPolicy(slots, Keys(requests), held)
    ensures Times(Price(capacity, slots), Count(Evictions(capacity, requests))) <= Times(capacity, Drops(held, |requests|))
  {
    AccountCoversPotential(capacity, slots, requests, held);
    AccountTotal(capacity, Price(capacity, slots), Evictions(capacity, requests), held);
  }

  lemma Conclude(price: nat, misses: nat, evictions: nat, size: nat, c: nat, drops: nat, loads: nat)
    requires misses == evictions + size && Times(price, evictions) <= Times(c, drops)
    requires drops <= loads && size <= c
    ensures price * misses <= c * drops + price * size
    ensures price * misses <= c * loads + price * c
  {
    TimesSum(price, evictions, size);
    TimesSum(c, drops, loads);
    TimesSum(price, size, c);
    TimesIsProduct(price, misses);
    TimesIsProduct(price, size);
    TimesIsProduct(price, c);
    TimesIsProduct(c, drops);
    TimesIsProduct(c, loads);
  }

  /** The competitive bound. Against any policy with h <= k slots the k-cache satisfies
      (k-h+1) * misses <= k * drops + (k-h+1) * (entries held at the end), and therefore
      (k-h+1) * misses <= k * loads + (k-h+1) * k. */
  lemma CompetitiveBound<K, V>(capacity: nat, slots: nat, requests: Items<K, V>, held: seq<set<K>>)
    requires 1 <= slots <= capacity && IsPolicy(slots, Keys(requests), held)
    ensures
      var price, misses := Price(capacity, slots), Misses(capacity, requests);
      && price * misses <= capacity * Drops(held, |requests|) + price * |ServeAll(capacity, requests)|
      && price * misses <= capacity * Loads(held, |requests|) + price * capacity
  {
    var n := |requests|;
    DropsPayForEvictions(capacity, slots, requests, held);
    MissesSplit(capacity, requests);
    LoadsMinusDrops(held, n);
    ServeShape(capacity, requests);
    Conclude(Price(capacity, slots), Misses(capacity, requests), Count(Evictions(capacity, requests)),
             |ServeAll(capacity, requests)|, capacity, Drops(held, n), Loads(held, n));
  }

  /** A policy that loads only what is requested, and only then. */
  ghost predicate OnDemand<K>(requests: seq<K>, held: seq<set<K>>) {
    && |held| == |requests| + 1
    && forall i :: 0 <= i < |requests| ==> held[i + 1] <= held[i] + {requests[i]}
  }

  /** How many of the first `n` requests the policy did not hold. */
  ghost function PolicyMisses<K>(requests: seq<K>, held: seq<set<K>>, n: nat): nat
    requires n <= |requests| < |held|
  {
    if n == 0 then 0
    else PolicyMisses(requests, held, n - 1) + if requests[n - 1] in held[n - 1] then 0 else 1
  }

  lemma {:induction false} OnDemandLoadsAreMisses<K>(slots: nat, requests: seq<K>, held: seq<set<K>>, n: nat)
    requires IsPolicy(slots, requests, held) && OnDemand(requests, held) && n <= |requests|
    ensures Loads(held, n) == PolicyMisses(requests, held, n)
  {
    if n == 0 {
    } else {
      OnDemandLoadsAreMisses(slots, requests, held, n - 1);
      var k := requests[n - 1];
      assert k in held[n] && held[n] <= held[n - 1] + {k};
      assert held[n] - held[n - 1] == if k in held[n - 1] then {} else {k};
    }
  }

  /** With equal sizes: at most k times the misses of any on-demand policy, plus k. */
  lemma AtMostKTimesOptimal<K, V>(capacity: nat, requests: Items<K, V>, held: seq<set<K>>)
    requires capacity >= 1 && IsPolicy(capacity, Keys(requests), held) && OnDemand(Keys(requests), held)
    ensures Misses(capacity, requests) <= capacity * PolicyMisses(Keys(requests), held, |requests|) + capacity
  {
    CompetitiveBound(capacity, capacity, requests, held);
    OnDemandLoadsAreMisses(capacity, Keys(requests), held, |requests|);
  }
}
