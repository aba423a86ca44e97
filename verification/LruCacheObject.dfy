/**
 LRUCache as the source keeps it: list nodes with identities that survive splicing, and a map from keys to
 nodes (include/darwincore/foundation/container/LRUCache.h).
 */
module LruCacheObject {
  import opened LruCache

  type Nodes<K, V> = map<nat, Entry<K, V>>

  ghost function EntriesOf<K, V>(order: seq<nat>, nodes: Nodes<K, V>): (es: seq<Entry<K, V>>)
    requires forall n :: n in order ==> n in nodes
    ensures |es| == |order| && forall i :: 0 <= i < |es| ==> es[i] == nodes[order[i]]
  {
    seq(|order|, i requires 0 <= i < |order| => nodes[order[i]])
  }

  /** The list and the map agree. */
  ghost predicate Agree<K, V>(order: seq<nat>, nodes: Nodes<K, V>, index: map<K, nat>) {
    && Distinct(order)
    && (forall n :: n in order ==> n in nodes && nodes[n].key in index && index[nodes[n].key] == n)
    && (forall k :: k in index ==> index[k] in order && nodes[index[k]].key == k)
  }

  lemma {:induction false} RemovedNone<K, V>(es: seq<Entry<K, V>>, k: K)
    requires forall j :: 0 <= j < |es| ==> es[j].key != k
    ensures Removed(es, k) == es && Lookup(es, k) == None
  {
    if es != [] { RemovedNone(es[1..], k); }
  }

  lemma {:induction false} RemovedConcat<K, V>(a: seq<Entry<K, V>>, b: seq<Entry<K, V>>, k: K)
    ensures Removed(a + b, k) == Removed(a, k) + Removed(b, k)
  {
    if a == [] {
      assert a + b == b;
    } else {
      assert (a + b)[1..] == a[1..] + b;
      RemovedConcat(a[1..], b, k);
    }
  }

  lemma {:induction false} LookupSkips<K, V>(a: seq<Entry<K, V>>, b: seq<Entry<K, V>>, k: K)
    requires forall j :: 0 <= j < |a| ==> a[j].key != k
    ensures Lookup(a + b, k) == Lookup(b, k)
  {
    if a == [] {
      assert a + b == b;
    } else {
      assert (a + b)[1..] == a[1..] + b;
      LookupSkips(a[1..], b, k);
    }
  }

  lemma FoundBetween<K, V>(a: seq<Entry<K, V>>, e: Entry<K, V>, b: seq<Entry<K, V>>)
    requires (forall j :: 0 <= j < |a| ==> a[j].key != e.key) && (forall j :: 0 <= j < |b| ==> b[j].key != e.key)
    ensures Lookup(a + ([e] + b), e.key) == Some(e.value) && Removed(a + ([e] + b), e.key) == a + b
  {
    FirstFound(e, b);
    assert Lookup(a + ([e] + b), e.key) == Some(e.value) by { LookupSkips(a, [e] + b, e.key); }
    assert Removed(a + ([e] + b), e.key) == a + b by {
      RemovedConcat(a, [e] + b, e.key);
      RemovedNone(a, e.key);
    }
  }

  lemma FirstFound<K, V>(e: Entry<K, V>, b: seq<Entry<K, V>>)
    requires forall j :: 0 <= j < |b| ==> b[j].key != e.key
    ensures Lookup([e] + b, e.key) == Some(e.value) && Removed([e] + b, e.key) == b
  {
    assert ([e] + b)[1..] == b;
    RemovedNone(b, e.key);
  }

  lemma SplitAt<T>(s: seq<T>, i: nat) returns (a: seq<T>, b: seq<T>)
    requires i < |s|
    ensures s == a + ([s[i]] + b) && a == s[..i] && b == s[i + 1..]
  {
    a, b := s[..i], s[i + 1..];
  }

  /** In a list without repeated keys, one entry is found and taken out by its place. */
  lemma FoundAt<K, V>(es: seq<Entry<K, V>>, i: nat)
    requires i < |es| && forall j :: 0 <= j < |es| && j != i ==> es[j].key != es[i].key
    ensures Lookup(es, es[i].key) == Some(es[i].value) && Removed(es, es[i].key) == es[..i] + es[i + 1..]
  {
    var a, b := SplitAt(es, i);
    FoundBetween(a, es[i], b);
  }

  lemma WithoutMiddle(order: seq<nat>, a: seq<nat>, n: nat, b: seq<nat>)
    requires n !in a && n !in b && order == a + ([n] + b)
    ensures Without(order, n) == a + b
  {
    WithoutConcat(a, [n] + b, n);
    assert Without(a, n) == a by { WithoutIn(a, n); }
    assert Without([n] + b, n) == b by { WithoutHead(n, b); }
  }

  lemma WithoutHead(n: nat, b: seq<nat>)
    requires n !in b
    ensures Without([n] + b, n) == b
  {
    assert ([n] + b)[1..] == b;
    WithoutIn(b, n);
  }

  lemma WithoutAt(order: seq<nat>, i: nat, n: nat, left: seq<nat>)
    requires Distinct(order) && i < |order| && n == order[i] && left == order[..i] + order[i + 1..]
    ensures Without(order, n) == left
  {
    ElsewhereNot(order, i);
    WithoutMiddle(order, order[..i], n, order[i + 1..]);
  }

  lemma ElsewhereNot(order: seq<nat>, i: nat)
    requires Distinct(order) && i < |order|
    ensures order[i] !in order[..i] && order[i] !in order[i + 1..]
    ensures order == order[..i] + ([order[i]] + order[i + 1..])
  {}

  /** Where a key's node stands, and what taking it out of the list leaves. */
  lemma NodeAt<K, V>(order: seq<nat>, nodes: Nodes<K, V>, index: map<K, nat>, k: K) returns (i: nat)
    requires Agree(order, nodes, index) && k in index
    ensures i < |order| && order[i] == index[k] && Without(order, index[k]) == order[..i] + order[i + 1..]
    ensures EntriesOf(order, nodes)[i].key == k
    ensures Lookup(EntriesOf(order, nodes), k) == Some(EntriesOf(order, nodes)[i].value)
    ensures Removed(EntriesOf(order, nodes), k) == EntriesOf(order, nodes)[..i] + EntriesOf(order, nodes)[i + 1..]
  {
    assert index[k] in order;
    i :| 0 <= i < |order| && order[i] == index[k];
    WithoutAt(order, i, index[k], order[..i] + order[i + 1..]);
    OneEntry(order, nodes, index, i, EntriesOf(order, nodes));
  }

  lemma OneEntry<K, V>(order: seq<nat>, nodes: Nodes<K, V>, index: map<K, nat>, i: nat, es: seq<Entry<K, V>>)
    requires Agree(order, nodes, index) && i < |order| && es == EntriesOf(order, nodes)
    ensures Lookup(es, es[i].key) == Some(es[i].value) && Removed(es, es[i].key) == es[..i] + es[i + 1..]
  {
    forall j | 0 <= j < |es| && j != i ensures es[j].key != es[i].key { assert order[j] in order && order[i] in order; }
    FoundAt(es, i);
  }

  /** Moving a node to the front, with a value written to it. */
  lemma Spliced<K, V>(order: seq<nat>, nodes: Nodes<K, V>, index: map<K, nat>, k: K, v: V, order': seq<nat>, nodes': Nodes<K, V>)
    requires Agree(order, nodes, index) && k in index
    requires order' == [index[k]] + Without(order, index[k]) && nodes' == nodes[index[k] := Entry(k, v)]
    ensures Agree(order', nodes', index) && |order'| == |order|
    ensures EntriesOf(order', nodes') == [Entry(k, v)] + Removed(EntriesOf(order, nodes), k)
  {
    var i := NodeAt(order, nodes, index, k);
    SplicedAgree(order, nodes, index, k, v, order', nodes');
    SplicedEntries(order, nodes, i, Entry(k, v), order', nodes');
  }

  lemma SplicedAgree<K, V>(order: seq<nat>, nodes: Nodes<K, V>, index: map<K, nat>, k: K, v: V, order': seq<nat>, nodes': Nodes<K, V>)
    requires Agree(order, nodes, index) && k in index
    requires order' == [index[k]] + Without(order, index[k]) && nodes' == nodes[index[k] := Entry(k, v)]
    ensures Agree(order', nodes', index)
  {
    WithoutIn(order, index[k]);
    SplicedDistinct(order, index[k]);
    assert forall m :: m in order' <==> m in order;
  }

  lemma SplicedEntries<K, V>(order: seq<nat>, nodes: Nodes<K, V>, i: nat, e: Entry<K, V>, order': seq<nat>, nodes': Nodes<K, V>)
    requires Distinct(order) && (forall n :: n in order ==> n in nodes) && i < |order|
    requires order' == [order[i]] + (order[..i] + order[i + 1..]) && nodes' == nodes[order[i] := e]
    ensures forall n :: n in order' ==> n in nodes'
    ensures EntriesOf(order', nodes') == [e] + (EntriesOf(order, nodes)[..i] + EntriesOf(order, nodes)[i + 1..])
  {
    var es := EntriesOf(order, nodes);
    var want := [e] + (es[..i] + es[i + 1..]);
    forall j | 0 <= j < |order'| ensures order'[j] in nodes' && nodes'[order'[j]] == want[j] {
      if j > 0 { assert order'[j] == if j <= i then order[j - 1] else order[j]; }
    }
  }

  lemma SplicedDistinct(order: seq<nat>, n: nat)
    requires Distinct(order)
    ensures Distinct([n] + Without(order, n))
  {
    WithoutDistinct(order, n);
    WithoutIn(order, n);
  }

  lemma Missing<K, V>(order: seq<nat>, nodes: Nodes<K, V>, index: map<K, nat>, k: K)
    requires Agree(order, nodes, index) && k !in index
    ensures Removed(EntriesOf(order, nodes), k) == EntriesOf(order, nodes) && Lookup(EntriesOf(order, nodes), k) == None
  {
    var es := EntriesOf(order, nodes);
    forall j | 0 <= j < |es| ensures es[j].key != k { assert order[j] in order; }
    RemovedNone(es, k);
  }

  lemma DropKey<K>(index: map<K, nat>, k: K)
    requires k in index
    ensures |index - {k}| == |index| - 1
  {
    assert (index - {k}).Keys == index.Keys - {k};
  }

  lemma NewKey<K>(index: map<K, nat>, k: K, n: nat)
    requires k !in index
    ensures |index[k := n]| == |index| + 1
  {
    assert index[k := n].Keys == index.Keys + {k};
  }

  /** What is left of a list without its i-th node. */
  lemma LeftOut(order: seq<nat>, i: nat, order': seq<nat>)
    requires Distinct(order) && i < |order| && order' == order[..i] + order[i + 1..]
    ensures Distinct(order') && forall m :: m in order' <==> m in order && m != order[i]
  {
    assert forall j :: 0 <= j < |order'| ==> order'[j] == if j < i then order[j] else order[j + 1];
    forall m | m in order && m != order[i] ensures m in order' {
      var j :| 0 <= j < |order| && order[j] == m;
      assert m == order'[if j < i then j else j - 1];
    }
  }

  /** Taking one node out of list, store and map. */
  lemma TakenOut<K, V>(order: seq<nat>, nodes: Nodes<K, V>, index: map<K, nat>, i: nat, order': seq<nat>)
    requires Agree(order, nodes, index) && i < |order| && order' == order[..i] + order[i + 1..]
    ensures Agree(order', nodes - {order[i]}, index - {nodes[order[i]].key})
    ensures EntriesOf(order', nodes - {order[i]}) == EntriesOf(order, nodes)[..i] + EntriesOf(order, nodes)[i + 1..]
  {
    LeftOut(order, i, order');
    assert order[i] in order;
    TakenOutEntries(order, nodes, i, order', nodes - {order[i]});
  }

  lemma TakenOutEntries<K, V>(order: seq<nat>, nodes: Nodes<K, V>, i: nat, order': seq<nat>, nodes': Nodes<K, V>)
    requires (forall n :: n in order ==> n in nodes) && i < |order| && order' == order[..i] + order[i + 1..]
    requires forall n :: n in order' ==> n in nodes' && n in nodes && nodes'[n] == nodes[n]
    ensures EntriesOf(order', nodes') == EntriesOf(order, nodes)[..i] + EntriesOf(order, nodes)[i + 1..]
  {
    var es, es' := EntriesOf(order, nodes), EntriesOf(order', nodes');
    var want := es[..i] + es[i + 1..];
    forall j | 0 <= j < |es'| ensures es'[j] == want[j] {
      var at := if j < i then j else j + 1;
      assert order'[j] == order[at] && order'[j] in order' && want[j] == es[at];
    }
  }

  ghost predicate Below(order: seq<nat>, bound: nat) {
    forall n :: n in order ==> n < bound
  }

  /** What the cache keeps: list and map agree, within the capacity, with node numbers to spare. */
  ghost predicate Whole<K, V>(capacity: nat, order: seq<nat>, nodes: Nodes<K, V>, index: map<K, nat>, nextNode: nat) {
    capacity > 0 && |order| <= capacity && |index| == |order| && Agree(order, nodes, index) && Below(order, nextNode)
  }

  lemma PoppedWhole<K, V>(capacity: nat, order: seq<nat>, nodes: Nodes<K, V>, index: map<K, nat>, nextNode: nat)
    returns (es: seq<Entry<K, V>>)
    requires Whole(capacity, order, nodes, index, nextNode) && order != []
    ensures var rest, last := order[..|order| - 1], order[|order| - 1];
            && Whole(capacity, rest, nodes - {last}, index - {nodes[last].key}, nextNode)
            && es == EntriesOf(rest, nodes - {last}) && es + [nodes[last]] == EntriesOf(order, nodes)
            && (index - {nodes[last].key}).Keys <= index.Keys
  {
    var rest, last := order[..|order| - 1], order[|order| - 1];
    SplitLast(order, rest, last, nextNode);
    LastTakenOut(order, nodes, index, rest, last, nodes[last]);
    es := EntriesOf(rest, nodes - {last});
  }

  lemma SplitLast(order: seq<nat>, rest: seq<nat>, last: nat, bound: nat)
    requires order != [] && rest == order[..|order| - 1] && last == order[|order| - 1] && Below(order, bound)
    ensures order == rest + [last] && Below(rest, bound)
  {
    forall n | n in rest ensures n in order {
      var i :| 0 <= i < |rest| && rest[i] == n;
      assert order[i] == n;
    }
  }

  /** The last node taken out. */
  lemma LastTakenOut<K, V>(order: seq<nat>, nodes: Nodes<K, V>, index: map<K, nat>, order': seq<nat>, last: nat, back: Entry<K, V>)
    requires Agree(order, nodes, index) && order == order' + [last] && back == nodes[last]
    ensures Agree(order', nodes - {last}, index - {back.key}) && |index - {back.key}| == |index| - 1
    ensures (index - {back.key}).Keys <= index.Keys
    ensures EntriesOf(order', nodes - {last}) + [back] == EntriesOf(order, nodes)
  {
    var i, es := |order'|, EntriesOf(order, nodes);
    assert order[..i] + order[i + 1..] == order';
    assert es[..i] + es[i + 1..] == es[..i];
    TakenOut(order, nodes, index, i, order');
    DropKey(index, back.key);
  }

  /** A key's node taken out. */
  lemma KeyTakenOut<K, V>(order: seq<nat>, nodes: Nodes<K, V>, index: map<K, nat>, k: K)
    requires Agree(order, nodes, index) && k in index
    ensures Agree(Without(order, index[k]), nodes - {index[k]}, index - {k}) && |index - {k}| == |index| - 1
    ensures |Without(order, index[k])| == |order| - 1 && Lookup(EntriesOf(order, nodes), k).Some?
    ensures EntriesOf(Without(order, index[k]), nodes - {index[k]}) == Removed(EntriesOf(order, nodes), k)
  {
    var i := NodeAt(order, nodes, index, k);
    TakenOut(order, nodes, index, i, Without(order, index[k]));
    DropKey(index, k);
  }

  /** A new node at the front. */
  lemma PutInFront<K, V>(order: seq<nat>, nodes: Nodes<K, V>, index: map<K, nat>, n: nat, e: Entry<K, V>)
    requires Agree(order, nodes, index) && n !in order && e.key !in index
    ensures Agree([n] + order, nodes[n := e], index[e.key := n])
    ensures EntriesOf([n] + order, nodes[n := e]) == [e] + EntriesOf(order, nodes)
  {}

  /** The callback has been given exactly the entries of `all` that are not kept. */
  ghost predicate Told<K, V>(before: seq<Entry<K, V>>, evicted: seq<Entry<K, V>>, kept: seq<Entry<K, V>>, all: seq<Entry<K, V>>) {
    before <= evicted && kept + evicted[|before|..] == all
  }

  lemma ToldMore<K, V>(before: seq<Entry<K, V>>, evicted: seq<Entry<K, V>>, kept: seq<Entry<K, V>>, all: seq<Entry<K, V>>, e: Entry<K, V>)
    requires Told(before, evicted, kept, all)
    ensures Told(before, evicted, [e] + kept, [e] + all)
  {
    var told := evicted[|before|..];
    assert ([e] + kept) + told == [e] + (kept + told);
  }

  lemma ToldOne<K, V>(before: seq<Entry<K, V>>, kept: seq<Entry<K, V>>, e: Entry<K, V>)
    ensures Told(before, before + [e], kept, kept + [e])
  {
    assert (before + [e])[|before|..] == [e];
  }

  ghost function Reversed<T>(s: seq<T>): seq<T> {
    if s == [] then [] else Reversed(s[1..]) + [s[0]]
  }

  /** Entries have been dropped from the back, one at a time, down to no fewer than `capacity`. */
  ghost predicate Shrunk<K, V>(es: seq<Entry<K, V>>, now: seq<Entry<K, V>>, capacity: nat, before: seq<Entry<K, V>>, told: seq<Entry<K, V>>) {
    now <= es && (now == es || |now| >= capacity) && told == before + Reversed(es[|now|..])
  }

  lemma ShrunkEnough<K, V>(es: seq<Entry<K, V>>, now: seq<Entry<K, V>>, capacity: nat, before: seq<Entry<K, V>>, told: seq<Entry<K, V>>)
    requires Shrunk(es, now, capacity, before, told) && |now| <= capacity
    ensures now == Front(es, capacity)
  {}

  lemma ShrunkOn<K, V>(es: seq<Entry<K, V>>, now: seq<Entry<K, V>>, now': seq<Entry<K, V>>, capacity: nat,
                       before: seq<Entry<K, V>>, told: seq<Entry<K, V>>, told': seq<Entry<K, V>>)
    requires Shrunk(es, now, capacity, before, told) && |now| > capacity
    requires |told'| == |told| + 1 && Told(told, told', now', now)
    ensures Shrunk(es, now', capacity, before, told')
  {
    var n, last := |now'|, told'[|told|];
    assert told' == told + [last] && now == now' + [last];
    assert es[n..] == [last] + es[n + 1..];
    assert Reversed(es[n..]) == Reversed(es[n + 1..]) + [last] by { assert es[n..][1..] == es[n + 1..]; }
  }

  class Cache<K(==), V> {
    var capacity: nat
    var order: seq<nat>
    var nodes: Nodes<K, V>
    var index: map<K, nat>
    var nextNode: nat
    /** What the eviction callback has been given, in order. */
    var evicted: seq<Entry<K, V>>

    ghost predicate Valid()
      reads this
    {
      Whole(capacity, order, nodes, index, nextNode)
    }

    ghost function Entries(): seq<Entry<K, V>>
      reads this
      requires Valid()
    {
      EntriesOf(order, nodes)
    }

    constructor (capacity: nat)
      requires capacity > 0
      ensures Valid() && Entries() == [] && this.capacity == capacity && evicted == []
    {
      this.capacity := capacity;
      order, nodes, index, nextNode, evicted := [], map[], map[], 0, [];
    }

    /** The public way in: a capacity of zero is refused. */
    static method Create(capacity: nat) returns (cache: Cache?<K, V>)
      ensures cache == null <==> capacity == 0
      ensures cache != null ==> fresh(cache) && cache.Valid() && cache.Entries() == [] && cache.capacity == capacity
    {
      if capacity == 0 { return null; }
      cache := new Cache(capacity);
    }

    method Contains(k: K) returns (found: bool)
      requires Valid()
      ensures found == Lookup(Entries(), k).Some?
    {
      found := k in index;
      if found { ghost var i := NodeAt(order, nodes, index, k); } else { Missing(order, nodes, index, k); }
    }

    method Get(k: K) returns (value: Option<V>)
      requires Valid()
      modifies this`order
      ensures Valid() && value == Lookup(old(Entries()), k) && Entries() == AfterGet(old(Entries()), k)
    {
      if k !in index {
        Missing(order, nodes, index, k);
        return None;
      }
      var n := index[k];
      ghost var i := NodeAt(order, nodes, index, k);
      ghost var order' := [n] + Without(order, n);
      assert nodes == nodes[n := Entry(k, nodes[n].value)];
      Spliced(order, nodes, index, k, nodes[n].value, order', nodes);
      order := [n] + Without(order, n);
      return Some(nodes[n].value);
    }

    /** The last entry goes, and the callback is told. */
    method Evict()
      requires Valid()
      modifies this`order, this`nodes, this`index, this`evicted
      ensures Valid() && index.Keys <= old(index.Keys)
      ensures old(order) == [] ==> Entries() == [] && evicted == old(evicted)
      ensures old(order) != [] ==> |evicted| == |old(evicted)| + 1 && Told(old(evicted), evicted, Entries(), old(Entries()))
    {
      if order == [] { return; }
      var back := PopBack();
      ToldOne(evicted, Entries(), back);
      evicted := evicted + [back];
    }

    method PopBack() returns (back: Entry<K, V>)
      requires Valid() && order != []
      modifies this`order, this`nodes, this`index
      ensures Valid() && index.Keys <= old(index.Keys) && Entries() + [back] == old(Entries())
    {
      var last := order[|order| - 1];
      back := nodes[last];
      var rest := order[..|order| - 1];
      ghost var es := PoppedWhole(capacity, order, nodes, index, nextNode);
      index, nodes, order := index - {back.key}, nodes - {last}, rest;
      assert Entries() == es;
    }

    /** A new entry at the front of a list with room for it. */
    method EmplaceFront(k: K, v: V)
      requires Valid() && k !in index && |order| < capacity
      modifies this`order, this`nodes, this`index, this`nextNode
      ensures Valid() && Entries() == [Entry(k, v)] + old(Entries())
    {
      PutInFront(order, nodes, index, nextNode, Entry(k, v));
      NewKey(index, k, nextNode);
      order := [nextNode] + order;
      nodes := nodes[nextNode := Entry(k, v)];
      index := index[k := nextNode];
      nextNode := nextNode + 1;
    }

    method Insert(k: K, v: V)
      requires Valid() && k !in index
      modifies this
      ensures Valid() && capacity == old(capacity)
      ensures Entries() == [Entry(k, v)] + Front(old(Entries()), capacity - 1)
      ensures Told(old(evicted), evicted, Entries(), [Entry(k, v)] + old(Entries()))
    {
      if |index| >= capacity { Evict(); }
      ghost var es := Entries();
      assert Told(old(evicted), evicted, es, old(Entries())) && es == Front(old(Entries()), capacity - 1);
      EmplaceFront(k, v);
      ToldMore(old(evicted), evicted, es, old(Entries()), Entry(k, v));
    }

    method Put(k: K, v: V)
      requires Valid()
      modifies this
      ensures Valid() && capacity == old(capacity)
      ensures Entries() == AfterPut(old(Entries()), capacity, k, v)
      ensures if k in old(index) then evicted == old(evicted) else Told(old(evicted), evicted, Entries(), [Entry(k, v)] + old(Entries()))
    {
      if k in index {
        var n := index[k];
        Spliced(order, nodes, index, k, v, [n] + Without(order, n), nodes[n := Entry(k, v)]);
        ghost var i := NodeAt(order, nodes, index, k);
        LookupFinds(Entries(), k);
        nodes := nodes[n := Entry(k, v)];
        order := [n] + Without(order, n);
      } else {
        Missing(order, nodes, index, k);
        LookupFinds(Entries(), k);
        Insert(k, v);
      }
    }

    /** `v` is what the factory would make. */
    method GetOrInsert(k: K, v: V) returns (value: V)
      requires Valid()
      modifies this
      ensures Valid() && capacity == old(capacity)
      ensures Entries() == AfterGetOrInsert(old(Entries()), capacity, k, v) && value == Entries()[0].value
    {
      if k in index {
        var n := index[k];
        ghost var i := NodeAt(order, nodes, index, k);
        assert nodes == nodes[n := Entry(k, nodes[n].value)];
        Spliced(order, nodes, index, k, nodes[n].value, [n] + Without(order, n), nodes);
        order := [n] + Without(order, n);
        value := nodes[n].value;
      } else {
        Missing(order, nodes, index, k);
        Insert(k, v);
        value := v;
      }
    }

    method Erase(k: K) returns (found: bool)
      requires Valid()
      modifies this`order, this`nodes, this`index
      ensures Valid() && found == Lookup(old(Entries()), k).Some?
      ensures Entries() == Removed(old(Entries()), k)
    {
      if k !in index {
        Missing(order, nodes, index, k);
        return false;
      }
      var n := index[k];
      KeyTakenOut(order, nodes, index, k);
      order, nodes, index := Without(order, n), nodes - {n}, index - {k};
      return true;
    }

    method Clear()
      requires Valid()
      modifies this`order, this`nodes, this`index
      ensures Valid() && Entries() == []
    {
      order, nodes, index := [], map[], map[];
    }

    /** False stands for the exception thrown on a capacity of zero. */
    method Resize(newCapacity: nat) returns (ok: bool)
      requires Valid()
      modifies this
      ensures Valid() && ok == (newCapacity > 0)
      ensures !ok ==> Entries() == old(Entries()) && capacity == old(capacity)
      ensures ok ==> capacity == newCapacity && Entries() == Front(old(Entries()), newCapacity)
      ensures evicted == old(evicted) + Reversed(old(Entries())[|Entries()|..])
    {
      if newCapacity == 0 { return false; }
      ghost var es := Entries();
      while |index| > newCapacity
        invariant Valid() && Shrunk(es, Entries(), newCapacity, old(evicted), evicted)
        decreases |order|
      {
        ghost var now, told := Entries(), evicted;
        Evict();
        ShrunkOn(es, now, Entries(), newCapacity, old(evicted), told, evicted);
      }
      ShrunkEnough(es, Entries(), newCapacity, old(evicted), evicted);
      capacity := newCapacity;
      return true;
    }
  }
}
