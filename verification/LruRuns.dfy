/** Whole runs of the cache: which keys it holds, in which order and with which values. */
module LruRuns {
  import opened Wrappers
  import opened Sequences
  import opened LruItems
  import opened LruCaches

  datatype Op<K, V> = Get(key: K) | Set(key: K, value: V)

  function Step<K(==), V>(capacity: int, items: Items<K, V>, op: Op<K, V>): Items<K, V> {
    match op
    case Get(k) => AfterGet(items, k)
    case Set(k, v) => AfterSet(capacity, items, k, v)
  }

  /** The cache after a trace of calls on a new cache. */
  function Run<K(==), V>(capacity: int, trace: seq<Op<K, V>>): Items<K, V> {
    if trace == [] then []
    else Step(capacity, Run(capacity, trace[..|trace| - 1]), trace[|trace| - 1])
  }

  /** Keys never repeat, and a cache of positive capacity never exceeds it. */
  lemma {:induction false} RunShape<K, V>(capacity: int, trace: seq<Op<K, V>>)
    requires capacity >= 1
    ensures Distinct(Keys(Run(capacity, trace))) && |Run(capacity, trace)| <= capacity
  {
    if trace == [] {
    } else {
      var before, op := Run(capacity, trace[..|trace| - 1]), trace[|trace| - 1];
      RunShape(capacity, trace[..|trace| - 1]);
      StepShape(capacity, before, op);
    }
  }

  lemma StepShape<K, V>(capacity: int, items: Items<K, V>, op: Op<K, V>)
    requires capacity >= 1 && Distinct(Keys(items)) && |items| <= capacity
    ensures Distinct(Keys(Step(capacity, items, op))) && |Step(capacity, items, op)| <= capacity
  {
    WithoutFacts(items, op.key);
    LookupIffKey(items, op.key);
    if HasKey(items, op.key) {
      MoveShape(items, op.key, Step(capacity, items, op)[|Step(capacity, items, op)| - 1].1);
    } else if op.Set? {
      var room := Room(capacity, items);
      WithoutTail(items, op.key);
      RoomShape(capacity, items);
      KeysConcat(room, [(op.key, op.value)]);
    }
  }

  lemma MoveShape<K, V>(items: Items<K, V>, k: K, v: V)
    requires Distinct(Keys(items))
    ensures Distinct(Keys(Without(items, k) + [(k, v)]))
  {
    WithoutFacts(items, k);
    KeysConcat(Without(items, k), [(k, v)]);
  }

  lemma RoomShape<K, V>(capacity: int, items: Items<K, V>)
    requires Distinct(Keys(items))
    ensures Distinct(Keys(Room(capacity, items)))
  {
    if items != [] {
      assert Keys(items)[1..] == Keys(items[1..]);
      DistinctTail(Keys(items));
    }
  }

  /** With a capacity of zero or less the cache stays empty and every `set` raises. */
  lemma {:induction false} NoCapacity<K, V>(capacity: int, trace: seq<Op<K, V>>, k: K)
    requires capacity <= 0
    ensures Run(capacity, trace) == [] && SetRaises(capacity, Run(capacity, trace), k)
  {
    if trace == [] {
    } else {
      NoCapacity(capacity, trace[..|trace| - 1], k);
    }
  }

  // ---- Recency ----------------------------------------------------------------------------

  /** The keys touched, in order: every `set`, and every `get` that hit. */
  function Touches<K(==), V>(capacity: int, trace: seq<Op<K, V>>): seq<K> {
    if trace == [] then []
    else
      var before, op := trace[..|trace| - 1], trace[|trace| - 1];
      if op.Set? || HasKey(Run(capacity, before), op.key)
      then Touches(capacity, before) + [op.key]
      else Touches(capacity, before)
  }

  /** The position of the last occurrence of `x`, or -1. */
  function LastIndex<T(==)>(s: seq<T>, x: T): (i: int)
    ensures -1 <= i < |s|
    ensures i >= 0 ==> s[i] == x
    ensures forall j :: i < j < |s| ==> s[j] != x
  {
    if s == [] then -1
    else if s[|s| - 1] == x then |s| - 1
    else LastIndex(s[..|s| - 1], x)
  }

  /** `order` is sorted by last touch. */
  ghost predicate ByLastTouch<K>(order: seq<K>, touches: seq<K>) {
    forall i, j :: 0 <= i < j < |order| ==> LastIndex(touches, order[i]) < LastIndex(touches, order[j])
  }

  /** `order` lists every touched key once, from the one touched longest ago to the latest. */
  ghost predicate IsRecencyOrder<K(!new)>(order: seq<K>, touches: seq<K>) {
    && Distinct(order)
    && (forall k :: k in order <==> k in touches)
    && ByLastTouch(order, touches)
  }

  /** Everything the cache has ever held, in order of last touch: a cache that never evicts. */
  function History<K(==), V>(capacity: int, trace: seq<Op<K, V>>): Items<K, V> {
    if trace == [] then []
    else
      var before, op := trace[..|trace| - 1], trace[|trace| - 1];
      match op
      case Set(k, v) => Without(History(capacity, before), k) + [(k, v)]
      case Get(k) =>
        match Lookup(Run(capacity, before), k)
        case Some(v) => Without(History(capacity, before), k) + [(k, v)]
        case None => History(capacity, before)
  }

  function Suffix<T>(s: seq<T>, n: nat): seq<T>
    requires n <= |s|
  {
    s[|s| - n..]
  }

  function Min(a: int, b: int): int {
    if a <= b then a else b
  }

  /** The history moves a touched key to the back exactly as recency order does. */
  lemma TouchKeepsOrder<K(!new), V>(items: Items<K, V>, touches: seq<K>, k: K, v: V)
    requires IsRecencyOrder(Keys(items), touches)
    ensures IsRecencyOrder(Keys(Without(items, k) + [(k, v)]), touches + [k])
  {
    var rest := Without(items, k);
    var order := Keys(rest + [(k, v)]);
    WithoutFacts(items, k);
    MoveShape(items, k, v);
    KeysConcat(rest, [(k, v)]);
    assert order == Keys(rest) + [k];
    forall x
      ensures x in order <==> x in touches + [k]
    {
      assert x in order <==> x in Keys(rest) || x == k;
    }
    forall i, j | 0 <= i < j < |order|
      ensures LastIndex(touches + [k], order[i]) < LastIndex(touches + [k], order[j])
    {
      LastIndexAppend(touches, k, order[i]);
      LastIndexAppend(touches, k, order[j]);
      if j < |rest| {
        var a, b := WithoutKeepsOrder(items, k, i, j);
        assert Keys(items)[a] == order[i] && Keys(items)[b] == order[j];
      }
    }
  }

  lemma LastIndexAppend<T>(s: seq<T>, x: T, y: T)
    ensures LastIndex(s + [x], y) == if x == y then |s| else LastIndex(s, y)
  {
    assert (s + [x])[..|s|] == s;
  }

  /** Two entries that survive a removal come from two positions in the same order. */
  lemma WithoutKeepsOrder<K, V>(items: Items<K, V>, k: K, i: nat, j: nat) returns (a: nat, b: nat)
    requires Distinct(Keys(items)) && i < j < |Without(items, k)|
    ensures a < b < |items| && Without(items, k)[i] == items[a] && Without(items, k)[j] == items[b]
  {
    if HasKey(items, k) {
      var p := Position(items, k);
      WithoutCuts(items, p);
      assert |Without(items, k)| == |items| - 1;
      a, b := if i < p then i else i + 1, if j < p then j else j + 1;
    } else {
      WithoutAbsent(items, k);
      a, b := i, j;
    }
  }

  lemma MoveInCache<K, V>(capacity: int, older: Items<K, V>, kept: Items<K, V>, e: (K, V))
    requires capacity >= 1 && |kept| + 1 == Min(capacity, |older| + |kept| + 1)
    ensures kept + [e] == Suffix(older + kept + [e], Min(capacity, |older + kept + [e]|))
  {
  }

  lemma MoveIntoCache<K, V>(capacity: int, older: Items<K, V>, older': Items<K, V>, cache: Items<K, V>, e: (K, V))
    requires capacity >= 1 && |cache| == Min(capacity, |older| + |cache|)
    requires |older| - 1 <= |older'| <= |older|
    ensures Room(capacity, cache) + [e] == Suffix(older' + cache + [e], Min(capacity, |older' + cache + [e]|))
  {
    var later := older' + cache + [e];
    if |cache| == capacity {
      assert Min(capacity, |later|) == capacity && |later| - capacity == |older'| + 1;
      assert later[|older'| + 1..] == cache[1..] + [e];
    } else {
      assert older' == [] && Room(capacity, cache) == cache;
    }
  }

  /** A key occurs on one side only of a split list with distinct keys. */
  lemma SplitDistinct<K, V>(older: Items<K, V>, cache: Items<K, V>, k: K)
    requires Distinct(Keys(older + cache))
    ensures Distinct(Keys(older)) && Distinct(Keys(cache)) && !(HasKey(older, k) && HasKey(cache, k))
  {
    var ks := Keys(older + cache);
    assert ks[..|older|] == Keys(older) && ks[|older|..] == Keys(cache);
  }

  /** One step keeps the bounded cache a suffix of the history. */
  lemma TouchKeepsSuffix<K, V>(capacity: int, history: Items<K, V>, n: nat, k: K, v: V)
    requires capacity >= 1 && Distinct(Keys(history)) && n == Min(capacity, |history|)
    ensures
      var cache, later := Suffix(history, n), Without(history, k) + [(k, v)];
      AfterSet(capacity, cache, k, v) == Suffix(later, Min(capacity, |later|))
  {
    var older, cache := history[..|history| - n], Suffix(history, n);
    assert history == older + cache;
    SplitDistinct(older, cache, k);
    WithoutConcat(older, cache, k);
    if HasKey(cache, k) {
      WithoutAbsent(older, k);
      WithoutFacts(cache, k);
      MoveInCache(capacity, older, Without(cache, k), (k, v));
    } else {
      WithoutAbsent(cache, k);
      WithoutFacts(older, k);
      MoveIntoCache(capacity, older, Without(older, k), cache, (k, v));
    }
  }

  /** The invariant of every run: recency order, and the cache is the end of it. */
  lemma {:induction false} HistoryInvariant<K(!new), V>(capacity: int, trace: seq<Op<K, V>>)
    requires capacity >= 1
    ensures IsRecencyOrder(Keys(History(capacity, trace)), Touches(capacity, trace))
    ensures
      var h := History(capacity, trace);
      Run(capacity, trace) == Suffix(h, Min(capacity, |h|))
  {
    if trace == [] {
    } else {
      var before, op := trace[..|trace| - 1], trace[|trace| - 1];
      HistoryInvariant(capacity, before);
      var h, items := History(capacity, before), Run(capacity, before);
      LookupIffKey(items, op.key);
      if op.Set? || HasKey(items, op.key) {
        var v := if op.Set? then op.value else Lookup(items, op.key).value;
        TouchKeepsOrder(h, Touches(capacity, before), op.key, v);
        TouchKeepsSuffix(capacity, h, Min(capacity, |h|), op.key, v);
      }
    }
  }

  lemma AllButLast<K>(s: seq<K>)
    requires s != [] && Distinct(s)
    ensures Distinct(s[..|s| - 1])
    ensures forall k :: k in s[..|s| - 1] <==> k in s && k != s[|s| - 1]
  {
    var n := |s| - 1;
    assert s == s[..n] + [s[n]];
  }

  /** Two orders of the same keys end in the same, latest key. */
  lemma SameLatest<K>(p: seq<K>, q: seq<K>, touches: seq<K>)
    requires p != [] && q != [] && ByLastTouch(p, touches) && ByLastTouch(q, touches)
    requires p[|p| - 1] in q && q[|q| - 1] in p
    ensures p[|p| - 1] == q[|q| - 1]
  {
    var i :| 0 <= i < |q| && q[i] == p[|p| - 1];
    var j :| 0 <= j < |p| && p[j] == q[|q| - 1];
  }

  lemma SameButLast<K>(p: seq<K>, q: seq<K>, x: K)
    requires Distinct(p + [x]) && Distinct(q + [x]) && forall k :: k in p + [x] <==> k in q + [x]
    ensures Distinct(p) && Distinct(q) && forall k :: k in p <==> k in q
  {
    AllButLast(p + [x]);
    AllButLast(q + [x]);
    assert (p + [x])[..|p|] == p && (q + [x])[..|q|] == q;
    forall k
      ensures k in p <==> k in q
    {
      assert k in p <==> k in p + [x] && k != x;
      assert k in q <==> k in q + [x] && k != x;
    }
  }

  /** The recency order of a sequence of touches is unique. */
  lemma {:induction false} RecencyOrderUnique<K(!new)>(p: seq<K>, q: seq<K>, touches: seq<K>)
    requires Distinct(p) && Distinct(q) && forall k :: k in p <==> k in q
    requires ByLastTouch(p, touches) && ByLastTouch(q, touches)
    ensures p == q
  {
    assert q != [] ==> q[0] in p;
    assert p != [] ==> p[0] in q;
    if p == [] {
    } else {
      var p', q', x := p[..|p| - 1], q[..|q| - 1], p[|p| - 1];
      assert x in p && q[|q| - 1] in q;
      SameLatest(p, q, touches);
      assert p == p' + [x];
      assert q == q' + [x];
      SameButLast(p', q', x);
      RecencyOrderUnique(p', q', touches);
    }
  }

  /** After any trace the cache holds the min(capacity, d) most recently touched of the d
      touched keys, in order of last touch. */
  lemma RecencyCharacterisation<K(!new), V>(capacity: int, trace: seq<Op<K, V>>, order: seq<K>)
    requires capacity >= 1 && IsRecencyOrder(order, Touches(capacity, trace))
    ensures Keys(Run(capacity, trace)) == Suffix(order, Min(capacity, |order|))
  {
    HistoryInvariant(capacity, trace);
    var h := History(capacity, trace);
    forall k
      ensures k in Keys(h) <==> k in order
    {
      assert k in Keys(h) <==> k in Touches(capacity, trace);
    }
    RecencyOrderUnique(Keys(h), order, Touches(capacity, trace));
    var n := Min(capacity, |h|);
    assert Keys(Suffix(h, n)) == Suffix(Keys(h), n);
  }

  /** Such an order exists for every trace. */
  lemma RecencyOrderExists<K(!new), V>(capacity: int, trace: seq<Op<K, V>>)
    requires capacity >= 1
    ensures exists order :: IsRecencyOrder(order, Touches(capacity, trace))
  {
    HistoryInvariant(capacity, trace);
  }

  // ---- Agreement with a plain dictionary ------------------------------------------------------

  /** The dictionary that only ever executes the `set`s. */
  function Dictionary<K(==), V>(trace: seq<Op<K, V>>): map<K, V> {
    if trace == [] then map[]
    else
      var op := trace[|trace| - 1];
      var before := Dictionary(trace[..|trace| - 1]);
      if op.Set? then before[op.key := op.value] else before
  }

  /** `items` and `d` hold the same keys, with the same values. */
  ghost predicate SameEntries<K(!new), V>(items: Items<K, V>, d: map<K, V>) {
    && (forall k :: k in Keys(items) <==> k in d)
    && (forall e :: e in items ==> e.0 in d && d[e.0] == e.1)
  }

  lemma {:induction false} TouchKeepsEntries<K(!new), V>(items: Items<K, V>, d: map<K, V>, k: K, v: V)
    requires Distinct(Keys(items)) && SameEntries(items, d)
    ensures SameEntries(Without(items, k) + [(k, v)], d[k := v])
  {
    WithoutFacts(items, k);
    KeysConcat(Without(items, k), [(k, v)]);
    var later, d' := Without(items, k) + [(k, v)], d[k := v];
    assert Keys(later) == Keys(Without(items, k)) + [k];
    forall x
      ensures x in Keys(later) <==> x in d'
    {
      assert x in Keys(later) <==> x in Keys(Without(items, k)) || x == k;
    }
    forall e | e in later
      ensures e.0 in d' && d'[e.0] == e.1
    {
      if e in Without(items, k) {
        WithoutMember(items, k, e);
      }
    }
  }

  /** The keys of the history are the keys ever set, with the values last set. */
  lemma {:induction false} HistoryIsDictionary<K(!new), V>(capacity: int, trace: seq<Op<K, V>>)
    requires capacity >= 1
    ensures SameEntries(History(capacity, trace), Dictionary(trace))
  {
    if trace == [] {
    } else {
      var before, op := trace[..|trace| - 1], trace[|trace| - 1];
      HistoryIsDictionary(capacity, before);
      HistoryInvariant(capacity, before);
      var h, items, d := History(capacity, before), Run(capacity, before), Dictionary(before);
      match op
      case Set(k, v) =>
        TouchKeepsEntries(h, d, k, v);
      case Get(k) =>
        match Lookup(items, k)
        case None =>
        case Some(v) =>
          LookupMember(items, k);
          assert (k, v) in h;
          assert d == d[k := v];
          TouchKeepsEntries(h, d, k, v);
    }
  }

  lemma {:induction false} WithoutMember<K, V>(items: Items<K, V>, k: K, e: (K, V))
    requires e in Without(items, k)
    ensures e in items && e.0 != k
  {
    if items == [] {
    } else {
      if e in Without(items[1..], k) {
        WithoutMember(items[1..], k, e);
      }
    }
  }

  lemma {:induction false} LookupMember<K, V>(items: Items<K, V>, k: K)
    requires Lookup(items, k).Some?
    ensures (k, Lookup(items, k).value) in items
  {
    if items[0].0 == k {
    } else {
      LookupMember(items[1..], k);
    }
  }

  /** A hit returns the latest value set for the key. */
  lemma HitIsLatest<K(!new), V>(capacity: int, trace: seq<Op<K, V>>, k: K)
    requires capacity >= 1 && Lookup(Run(capacity, trace), k).Some?
    ensures k in Dictionary(trace) && Lookup(Run(capacity, trace), k) == Some(Dictionary(trace)[k])
  {
    var items := Run(capacity, trace);
    HistoryInvariant(capacity, trace);
    HistoryIsDictionary(capacity, trace);
    LookupMember(items, k);
    assert (k, Lookup(items, k).value) in History(capacity, trace);
  }

  /** The cache holds min(capacity, number of distinct keys ever set) entries. */
  lemma SizeIsMin<K(!new), V>(capacity: int, trace: seq<Op<K, V>>)
    requires capacity >= 1
    ensures |Run(capacity, trace)| == Min(capacity, |Dictionary(trace).Keys|)
    ensures |History(capacity, trace)| == |Dictionary(trace).Keys|
  {
    HistoryInvariant(capacity, trace);
    HistoryIsDictionary(capacity, trace);
    var ks := Keys(History(capacity, trace));
    CountDistinct(ks, Dictionary(trace).Keys);
  }

  function DictionaryAnswer<K(==), V>(d: map<K, V>, k: K): Option<V> {
    if k in d then Some(d[k]) else None
  }

  /** The cache answers every key as the unbounded dictionary does exactly when no more keys
      were ever set than it has room for. */
  lemma AgreesIffItFits<K(!new), V>(capacity: int, trace: seq<Op<K, V>>)
    requires capacity >= 1
    ensures (forall k :: Lookup(Run(capacity, trace), k) == DictionaryAnswer(Dictionary(trace), k))
            <==> |Dictionary(trace).Keys| <= capacity
  {
    var items, d := Run(capacity, trace), Dictionary(trace);
    HistoryInvariant(capacity, trace);
    HistoryIsDictionary(capacity, trace);
    SizeIsMin(capacity, trace);
    if |d.Keys| <= capacity {
      assert items == History(capacity, trace);
      forall k
        ensures Lookup(items, k) == DictionaryAnswer(d, k)
      {
        LookupIffKey(items, k);
        if k in d {
          HitIsLatest(capacity, trace, k);
        }
      }
    } else if forall k :: Lookup(items, k) == DictionaryAnswer(d, k) {
      forall k
        ensures k in d.Keys <==> k in Keys(items)
      {
        LookupIffKey(items, k);
      }
      RunShape(capacity, trace);
      CountDistinct(Keys(items), d.Keys);
      assert false;
    }
  }

  /** The results of the `get`s of a trace, in order. */
  function Answers<K(==), V>(capacity: int, trace: seq<Op<K, V>>): seq<Option<V>> {
    if trace == [] then []
    else
      var before, op := trace[..|trace| - 1], trace[|trace| - 1];
      if op.Get? then Answers(capacity, before) + [Lookup(Run(capacity, before), op.key)]
      else Answers(capacity, before)
  }

  function DictionaryAnswers<K(==), V>(trace: seq<Op<K, V>>): seq<Option<V>> {
    if trace == [] then []
    else
      var before, op := trace[..|trace| - 1], trace[|trace| - 1];
      if op.Get? then DictionaryAnswers(before) + [DictionaryAnswer(Dictionary(before), op.key)]
      else DictionaryAnswers(before)
  }

  /** A trace that sets at most `capacity` distinct keys cannot tell the cache from a dictionary. */
  lemma {:induction false} SmallTracesSeeADictionary<K(!new), V>(capacity: int, trace: seq<Op<K, V>>)
    requires capacity >= 1 && |Dictionary(trace).Keys| <= capacity
    ensures Answers(capacity, trace) == DictionaryAnswers(trace)
  {
    if trace == [] {
    } else {
      var before := trace[..|trace| - 1];
      DictionaryGrows(trace);
      SmallTracesSeeADictionary(capacity, before);
      AgreesIffItFits(capacity, before);
    }
  }

  lemma DictionaryGrows<K, V>(trace: seq<Op<K, V>>)
    requires trace != []
    ensures |Dictionary(trace[..|trace| - 1]).Keys| <= |Dictionary(trace).Keys|
  {
    var before, op := Dictionary(trace[..|trace| - 1]), trace[|trace| - 1];
    assert before.Keys <= Dictionary(trace).Keys;
    SubsetSize(before.Keys, Dictionary(trace).Keys);
  }
}
