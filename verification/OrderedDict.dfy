/** The insertion-ordered dictionary that the cache is built on: a doubly linked list of
    entries threaded in insertion order, with an index from keys to entries. */
module OrderedDicts {
  import opened Wrappers
  import opened Sequences
  import opened LruItems

  class Node<K, V> {
    const key: K
    var value: V
    var prev: Node?<K, V>
    var next: Node?<K, V>

    constructor (key: K, value: V)
      ensures this.key == key && this.value == value && prev == null && next == null
    {
      this.key, this.value, prev, next := key, value, null, null;
    }
  }

  class OrderedDict<K(==), V> {
    /** The abstract value: key/value pairs in insertion order. */
    ghost var items: Items<K, V>
    /** The entries, in the same order. */
    ghost var nodes: seq<Node<K, V>>
    var index: map<K, Node<K, V>>
    var head: Node?<K, V>
    var tail: Node?<K, V>

    ghost predicate Valid()
      reads this, nodes
    {
      && Linked()
      && Indexed(nodes, index)
      && Carries()
    }

    /** `head`, `tail`, `prev` and `next` describe exactly the sequence `nodes`. */
    ghost predicate Linked()
      reads this`nodes, this`head, this`tail, nodes
    {
      && (nodes == [] ==> head == null && tail == null)
      && (nodes != [] ==>
            && head == nodes[0] && tail == nodes[|nodes| - 1]
            && head.prev == null && tail.next == null)
      && (forall i {:trigger nodes[i].prev} :: 1 <= i < |nodes| ==> nodes[i].prev == nodes[i - 1])
      && (forall i {:trigger nodes[i].next} :: 0 <= i < |nodes| - 1 ==> nodes[i].next == nodes[i + 1])
      && (forall i, j :: 0 <= i < j < |nodes| ==> nodes[i] != nodes[j])
    }

    /** `index` maps every key to the one entry that carries it. */
    static ghost predicate Indexed(nodes: seq<Node<K, V>>, index: map<K, Node<K, V>>) {
      && (forall i :: 0 <= i < |nodes| ==> nodes[i].key in index && index[nodes[i].key] == nodes[i])
      && (forall k :: k in index ==> index[k] in nodes && index[k].key == k)
    }

    /** The entries hold the pairs of the abstract value. */
    ghost predicate Carries()
      reads this`nodes, this`items, nodes
    {
      && |items| == |nodes|
      && forall i :: 0 <= i < |nodes| ==> items[i] == (nodes[i].key, nodes[i].value)
    }

    constructor ()
      ensures Valid() && items == [] && nodes == []
    {
      items, nodes, index, head, tail := [], [], map[], null, null;
    }

    /** Keys never repeat, and the index answers membership. */
    lemma IndexMatches()
      requires Valid()
      ensures Distinct(Keys(items))
      ensures forall k :: k in index <==> HasKey(items, k)
    {
      var ks := Keys(items);
      forall i, j | 0 <= i < j < |ks|
        ensures ks[i] != ks[j]
      {
        assert nodes[i] != nodes[j];
      }
      forall k
        ensures k in index <==> k in ks
      {
        if k in index {
          var i :| 0 <= i < |nodes| && nodes[i] == index[k];
          assert ks[i] == k;
        }
      }
    }

    method Length() returns (n: nat)
      requires Valid()
      ensures n == |items|
    {
      IndexMatches();
      CountDistinct(Keys(items), index.Keys);
      n := |index|;
    }

    /** Cuts entry `n` out of the list; the index is left to the caller. */
    method Unlink(n: Node<K, V>, ghost i: nat)
      requires Linked() && Carries() && i < |nodes| && nodes[i] == n
      modifies this`items, this`nodes, this`head, this`tail, nodes
      ensures Linked() && Carries()
      ensures nodes == old(nodes)[..i] + old(nodes)[i + 1..]
      ensures items == old(items)[..i] + old(items)[i + 1..]
    {
      if n.prev == null {
        head := n.next;
      } else {
        n.prev.next := n.next;
      }
      if n.next == null {
        tail := n.prev;
      } else {
        n.next.prev := n.prev;
      }
      nodes := nodes[..i] + nodes[i + 1..];
      items := items[..i] + items[i + 1..];
    }

    /** Installs an index that agrees with the list. */
    method Reindex(index: map<K, Node<K, V>>)
      requires Linked() && Carries() && Indexed(nodes, index)
      modifies this`index
      ensures Valid() && this.index == index
    {
      this.index := index;
    }

    static function IndexWithout(index: map<K, Node<K, V>>, k: K): map<K, Node<K, V>> {
      map x | x in index && x != k :: index[x]
    }

    /** Removes entry `n` from both the list and the index. */
    method Remove(n: Node<K, V>, ghost i: nat)
      requires Valid() && i < |nodes| && nodes[i] == n
      modifies this, nodes
      ensures Valid() && nodes == old(nodes)[..i] + old(nodes)[i + 1..]
      ensures items == old(items)[..i] + old(items)[i + 1..]
    {
      CutIndexed(nodes, i, index);
      Unlink(n, i);
      Reindex(IndexWithout(index, n.key));
    }

    /** Cutting one entry out of the list and its key out of the index keeps them in step. */
    static lemma CutIndexed(nodes: seq<Node<K, V>>, i: nat, index: map<K, Node<K, V>>)
      requires i < |nodes| && Indexed(nodes, index)
      requires forall a, b :: 0 <= a < b < |nodes| ==> nodes[a] != nodes[b]
      ensures Indexed(nodes[..i] + nodes[i + 1..], IndexWithout(index, nodes[i].key))
    {
      var rest, left := nodes[..i] + nodes[i + 1..], IndexWithout(index, nodes[i].key);
      forall a | 0 <= a < |rest|
        ensures rest[a].key in left && left[rest[a].key] == rest[a]
      {
        assert rest[a] == if a < i then nodes[a] else nodes[a + 1];
      }
      forall x | x in left
        ensures left[x] in rest && left[x].key == x
      {
        var a :| 0 <= a < |nodes| && nodes[a] == index[x];
        assert a != i;
        assert rest[if a < i then a else a - 1] == nodes[a];
      }
    }

    /** What the entry at `i` means for the abstract value. */
    lemma EntryAt(i: nat)
      requires Valid() && i < |nodes|
      ensures HasKey(items, nodes[i].key) && Lookup(items, nodes[i].key) == Some(nodes[i].value)
      ensures Without(items, nodes[i].key) == items[..i] + items[i + 1..]
      ensures !HasKey(Without(items, nodes[i].key), nodes[i].key)
    {
      IndexMatches();
      LookupAt(items, i);
      WithoutCuts(items, i);
      WithoutFacts(items, nodes[i].key);
      assert Keys(items)[i] == nodes[i].key;
    }

    lemma AbsentKey(k: K)
      requires Valid() && k !in index
      ensures !HasKey(items, k) && Lookup(items, k) == None && Without(items, k) == items
    {
      IndexMatches();
      LookupIffKey(items, k);
      WithoutAbsent(items, k);
    }

    /** `pop(key)`: removes the entry and returns its value; `None` stands for `KeyError`. */
    method Pop(k: K) returns (r: Option<V>)
      requires Valid()
      modifies this, nodes
      ensures Valid() && forall m :: m in nodes ==> m in old(nodes)
      ensures r == Lookup(old(items), k) && (r.Some? <==> HasKey(old(items), k))
      ensures items == Without(old(items), k) && !HasKey(items, k)
      ensures r.None? ==> items == old(items)
    {
      if k !in index {
        AbsentKey(k);
        return None;
      }
      var n := index[k];
      ghost var i: nat :| i < |nodes| && nodes[i] == n;
      EntryAt(i);
      r := Some(n.value);
      Remove(n, i);
    }

    /** `popitem(last=False)`: removes the oldest entry; `None` stands for `KeyError`. */
    method PopFirst() returns (r: Option<(K, V)>)
      requires Valid()
      modifies this, nodes
      ensures Valid() && forall m :: m in nodes ==> m in old(nodes)
      ensures old(items) == [] ==> r == None && items == []
      ensures old(items) != [] ==> r == Some(old(items)[0]) && items == old(items)[1..]
    {
      if head == null {
        return None;
      }
      r := Some((head.key, head.value));
      Remove(head, 0);
    }

    /** Links a new entry in at the back of the list; the index is left to the caller. */
    method Link(n: Node<K, V>)
      requires Linked() && Carries() && n !in nodes && n.prev == null && n.next == null
      modifies this`items, this`nodes, this`head, this`tail, nodes, n
      ensures Linked() && Carries()
      ensures nodes == old(nodes) + [n]
      ensures items == old(items) + [(n.key, old(n.value))]
    {
      if tail == null {
        head := n;
      } else {
        tail.next := n;
        n.prev := tail;
      }
      tail := n;
      items := items + [(n.key, n.value)];
      nodes := nodes + [n];
    }

    static lemma GrownIndexed(nodes: seq<Node<K, V>>, n: Node<K, V>, index: map<K, Node<K, V>>)
      requires Indexed(nodes, index) && n.key !in index
      ensures Indexed(nodes + [n], index[n.key := n])
    {
      var more, grown := nodes + [n], index[n.key := n];
      assert more[|nodes|] == n;
      forall x | x in grown
        ensures grown[x] in more && grown[x].key == x
      {
        if x != n.key {
          var a :| 0 <= a < |nodes| && nodes[a] == index[x];
          assert more[a] == index[x];
        }
      }
    }

    /** Overwrites the value of entry `n` in place. */
    method Overwrite(n: Node<K, V>, ghost i: nat, v: V)
      requires Valid() && i < |nodes| && nodes[i] == n
      modifies this`items, nodes
      ensures Valid()
      ensures items == old(items)[i := (n.key, v)]
    {
      n.value := v;
      items := items[i := (n.key, v)];
    }

    lemma KnownKey(k: K)
      requires Valid()
      ensures k in index <==> HasKey(items, k)
    {
      IndexMatches();
    }

    /** Adds an entry for a new key at the back. */
    method Append(k: K, v: V)
      requires Valid() && k !in index
      modifies this, nodes
      ensures Valid() && forall m :: m in nodes ==> m in old(nodes) || fresh(m)
      ensures items == old(items) + [(k, v)]
    {
      var n := new Node(k, v);
      GrownIndexed(nodes, n, index);
      Link(n);
      Reindex(index[k := n]);
    }

    /** `now` is `was` with the value under `k` replaced in place. */
    static ghost predicate Replaced(was: Items<K, V>, now: Items<K, V>, k: K, v: V) {
      exists i :: 0 <= i < |was| && was[i].0 == k && now == was[i := (k, v)]
    }

    /** `self[key] = value`: a present key keeps its place, a new one goes to the back. */
    method Assign(k: K, v: V)
      requires Valid()
      modifies this, nodes
      ensures Valid() && forall m :: m in nodes ==> m in old(nodes) || fresh(m)
      ensures !HasKey(old(items), k) ==> items == old(items) + [(k, v)]
      ensures HasKey(old(items), k) ==> Replaced(old(items), items, k, v)
    {
      KnownKey(k);
      if k in index {
        ghost var i: nat :| i < |nodes| && nodes[i] == index[k];
        Overwrite(index[k], i, v);
        assert items == old(items)[i := (k, v)];
      } else {
        Append(k, v);
      }
    }
  }
}
