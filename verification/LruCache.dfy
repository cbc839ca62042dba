/** The cache of marathon-lb: an ordered dictionary in which a hit or an update moves the
    entry to the back and a full cache gives up its front. */
module LruCaches {
  import opened LruItems
  import opened OrderedDicts

  /** `get` on the abstract value. */
  function AfterGet<K(==), V>(items: Items<K, V>, k: K): Items<K, V> {
    match Lookup(items, k)
    case Some(v) => Without(items, k) + [(k, v)]
    case None => items
  }

  /** `set` on the abstract value; unchanged when `popitem` raises on the empty dictionary. */
  function AfterSet<K(==), V>(capacity: int, items: Items<K, V>, k: K, v: V): Items<K, V> {
    if SetRaises(capacity, items, k) then items
    else (if HasKey(items, k) then Without(items, k) else Room(capacity, items)) + [(k, v)]
  }

  /** A full list gives up its front. */
  function Room<K, V>(capacity: int, items: Items<K, V>): Items<K, V> {
    if items != [] && |items| >= capacity then items[1..] else items
  }

  predicate SetRaises<K(==), V>(capacity: int, items: Items<K, V>, k: K) {
    items == [] && capacity <= 0
  }

  class LruCache<K(==), V> {
    const capacity: int
    const cache: OrderedDict<K, V>

    ghost predicate Valid()
      reads this, cache, cache.nodes
    {
      cache.Valid()
    }

    constructor (capacity: int)
      ensures Valid() && fresh(cache) && cache.items == [] && cache.nodes == [] && this.capacity == capacity
    {
      this.capacity := capacity;
      cache := new OrderedDict();
    }

    method Get(key: K, default: V) returns (value: V)
      requires Valid()
      modifies cache, cache.nodes
      ensures Valid() && forall m :: m in cache.nodes ==> m in old(cache.nodes) || fresh(m)
      ensures value == match Lookup(old(cache.items), key) { case Some(v) => v case None => default }
      ensures cache.items == AfterGet(old(cache.items), key)
    {
      var popped := cache.Pop(key);
      match popped {
        case Some(v) =>
          cache.Assign(key, v);
          value := v;
        case None =>
          value := default;
      }
    }

    /** The eviction step of `set`: a full cache gives up its oldest entry. `raised` is true
        exactly when `KeyError` escapes from `popitem` on the empty dictionary. */
    method MakeRoom() returns (raised: bool)
      requires Valid()
      modifies cache, cache.nodes
      ensures Valid() && forall m :: m in cache.nodes ==> m in old(cache.nodes)
      ensures raised == (old(cache.items) == [] && capacity <= 0)
      ensures cache.items == Room(capacity, old(cache.items))
    {
      var n := cache.Length();
      if n >= capacity {
        var evicted := cache.PopFirst();
        return evicted.None?;
      }
      raised := false;
    }

    method Set(key: K, value: V) returns (raised: bool)
      requires Valid()
      modifies cache, cache.nodes
      ensures Valid() && forall m :: m in cache.nodes ==> m in old(cache.nodes) || fresh(m)
      ensures raised == SetRaises(capacity, old(cache.items), key)
      ensures cache.items == AfterSet(capacity, old(cache.items), key, value)
    {
      ghost var was := cache.items;
      var popped := cache.Pop(key);
      if popped.None? {
        WithoutTail(was, key);
        raised := MakeRoom();
        if raised {
          return;
        }
      }
      ghost var kept := cache.items;
      assert kept == if HasKey(was, key) then Without(was, key) else Room(capacity, was);
      cache.Assign(key, value);
      assert cache.items == kept + [(key, value)];
      raised := false;
    }
  }
}
