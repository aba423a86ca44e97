/**
 LRUCache (include/darwincore/foundation/container/LRUCache.h): a linked list in order of use, most recent
 first, and a map from keys to list nodes.
 */
module LruCache {

  datatype Entry<K, V> = Entry(key: K, value: V)

  datatype Option<+T> = None | Some(value: T)

  // ---------------------------------------------------------------- the cache as a list of entries

  ghost function Keys<K, V>(es: seq<Entry<K, V>>): seq<K> {
    if es == [] then [] else [es[0].key] + Keys(es[1..])
  }

  ghost predicate Distinct<T>(s: seq<T>) {
    forall i, j :: 0 <= i < j < |s| ==> s[i] != s[j]
  }

  /** The entries other than a key's. */
  ghost function Removed<K, V>(es: seq<Entry<K, V>>, k: K): seq<Entry<K, V>> {
    if es == [] then [] else (if es[0].key == k then [] else [es[0]]) + Removed(es[1..], k)
  }

  ghost function Lookup<K, V>(es: seq<Entry<K, V>>, k: K): Option<V> {
    if es == [] then None else if es[0].key == k then Some(es[0].value) else Lookup(es[1..], k)
  }

  ghost function Front<T>(s: seq<T>, n: nat): seq<T> {
    if |s| <= n then s else s[..n]
  }

  /** A use of a key puts its entry in front; a full cache loses its last entry to a new key. */
  ghost function AfterPut<K, V>(es: seq<Entry<K, V>>, capacity: nat, k: K, v: V): seq<Entry<K, V>>
    requires capacity > 0
  {
    if k in Keys(es) then [Entry(k, v)] + Removed(es, k) else [Entry(k, v)] + Front(es, capacity - 1)
  }

  ghost function AfterGet<K, V>(es: seq<Entry<K, V>>, k: K): seq<Entry<K, V>> {
    match Lookup(es, k)
    case None => es
    case Some(v) => [Entry(k, v)] + Removed(es, k)
  }

  ghost function AfterGetOrInsert<K, V>(es: seq<Entry<K, V>>, capacity: nat, k: K, v: V): seq<Entry<K, V>>
    requires capacity > 0
  {
    match Lookup(es, k)
    case None => [Entry(k, v)] + Front(es, capacity - 1)
    case Some(kept) => [Entry(k, kept)] + Removed(es, k)
  }

  // ---------------------------------------------------------------- the same on keys alone

  function Without<T(==)>(s: seq<T>, x: T): seq<T> {
    if s == [] then [] else (if s[0] == x then [] else [s[0]]) + Without(s[1..], x)
  }

  ghost function Used<K>(ks: seq<K>, capacity: nat, k: K): seq<K>
    requires capacity > 0
  {
    if k in ks then [k] + Without(ks, k) else [k] + Front(ks, capacity - 1)
  }

  lemma {:induction false} KeysOfRemoved<K, V>(es: seq<Entry<K, V>>, k: K)
    ensures Keys(Removed(es, k)) == Without(Keys(es), k)
  {
    if es != [] {
      KeysOfRemoved(es[1..], k);
      assert Keys(es)[1..] == Keys(es[1..]);
      if es[0].key == k {
        assert Removed(es, k) == Removed(es[1..], k) && Without(Keys(es), k) == Without(Keys(es)[1..], k);
      } else {
        assert Removed(es, k)[1..] == Removed(es[1..], k);
      }
    }
  }

  lemma {:induction false} KeysOfFront<K, V>(es: seq<Entry<K, V>>, n: nat)
    ensures |Keys(es)| == |es| && Keys(Front(es, n)) == Front(Keys(es), n)
  {
    if es != [] {
      if n > 0 {
        KeysOfFront(es[1..], n - 1);
        assert |es| > n ==> Front(es, n)[1..] == Front(es[1..], n - 1);
      } else {
        KeysOfFront(es[1..], 0);
      }
    }
  }

  lemma {:induction false} LookupFinds<K, V>(es: seq<Entry<K, V>>, k: K)
    ensures Lookup(es, k).Some? <==> k in Keys(es)
  {
    if es != [] { LookupFinds(es[1..], k); }
  }

  lemma KeysOfCons<K, V>(e: Entry<K, V>, es: seq<Entry<K, V>>)
    ensures Keys([e] + es) == [e.key] + Keys(es)
  {
    assert ([e] + es)[1..] == es;
  }

  lemma KeysAfterPut<K, V>(es: seq<Entry<K, V>>, capacity: nat, k: K, v: V)
    requires capacity > 0
    ensures Keys(AfterPut(es, capacity, k, v)) == Used(Keys(es), capacity, k)
    ensures Keys(AfterGetOrInsert(es, capacity, k, v)) == Used(Keys(es), capacity, k)
  {
    KeysOfRemoved(es, k);
    KeysOfFront(es, capacity - 1);
    LookupFinds(es, k);
    KeysOfCons(Entry(k, v), Removed(es, k));
    KeysOfCons(Entry(k, v), Front(es, capacity - 1));
    if k in Keys(es) { KeysOfCons(Entry(k, Lookup(es, k).value), Removed(es, k)); }
  }

  // ---------------------------------------------------------------- most recently used

  /** The distinct keys of a run, most recently used first. */
  ghost function Recent<K>(uses: seq<K>): seq<K> {
    if uses == [] then []
    else [uses[|uses| - 1]] + Without(Recent(uses[..|uses| - 1]), uses[|uses| - 1])
  }

  /** The keys of a cache after a run of put and getOrInsert. */
  ghost function KeysAfter<K>(uses: seq<K>, capacity: nat): seq<K>
    requires capacity > 0
  {
    if uses == [] then [] else Used(KeysAfter(uses[..|uses| - 1], capacity), capacity, uses[|uses| - 1])
  }

  lemma {:induction false} WithoutIn<T>(s: seq<T>, x: T)
    ensures forall y :: y in Without(s, x) <==> y in s && y != x
    ensures x !in s ==> Without(s, x) == s
    ensures |Without(s, x)| <= |s|
  {
    if s != [] { WithoutIn(s[1..], x); }
  }

  lemma {:induction false} WithoutDistinct<T>(s: seq<T>, x: T)
    requires Distinct(s)
    ensures Distinct(Without(s, x))
    ensures x in s ==> |Without(s, x)| == |s| - 1
  {
    if s != [] {
      WithoutDistinct(s[1..], x);
      WithoutIn(s[1..], x);
      assert s[0] !in s[1..];
    }
  }

  lemma {:induction false} WithoutConcat<T>(a: seq<T>, b: seq<T>, x: T)
    ensures Without(a + b, x) == Without(a, x) + Without(b, x)
  {
    if a == [] {
      assert a + b == b;
    } else {
      assert (a + b)[1..] == a[1..] + b;
      WithoutConcat(a[1..], b, x);
    }
  }

  /** Taking a key out of a list and of its first part. */
  lemma WithoutSplit<T>(a: seq<T>, b: seq<T>, x: T)
    requires Distinct(a + b)
    ensures Distinct(a) && Distinct(b) && Without(a + b, x) == Without(a, x) + Without(b, x)
    ensures x in a ==> |Without(a, x)| == |a| - 1 && Without(b, x) == b
    ensures x !in a ==> Without(a, x) == a
  {
    assert forall i :: 0 <= i < |a| ==> a[i] == (a + b)[i];
    assert forall i :: 0 <= i < |b| ==> b[i] == (a + b)[|a| + i];
    WithoutConcat(a, b, x);
    WithoutDistinct(a, x);
    WithoutIn(a, x);
    WithoutIn(b, x);
  }

  lemma WithoutFront<T>(s: seq<T>, x: T, n: nat)
    requires Distinct(s)
    ensures x in Front(s, n) ==> n > 0 && Without(Front(s, n), x) == Front(Without(s, x), n - 1)
    ensures x !in Front(s, n) ==> Front(s, n) == Front(Without(s, x), n)
  {
    var a, b := Front(s, n), s[|Front(s, n)|..];
    assert s == a + b;
    WithoutSplit(a, b, x);
  }

  lemma FrontOfCons<T>(x: T, s: seq<T>, n: nat)
    requires n > 0
    ensures Front([x] + s, n) == [x] + Front(s, n - 1)
  {}

  lemma {:induction false} RecentDistinct<K>(uses: seq<K>)
    ensures Distinct(Recent(uses))
  {
    if uses != [] {
      var last, before := uses[|uses| - 1], uses[..|uses| - 1];
      RecentDistinct(before);
      WithoutDistinct(Recent(before), last);
      WithoutIn(Recent(before), last);
    }
  }

  /** Using a key moves it to the front of the most recently used ones, within the capacity. */
  lemma UsedIsFront<K>(recent: seq<K>, capacity: nat, k: K)
    requires capacity > 0 && Distinct(recent)
    ensures Used(Front(recent, capacity), capacity, k) == Front([k] + Without(recent, k), capacity)
  {
    WithoutFront(recent, k, capacity);
    FrontOfCons(k, Without(recent, k), capacity);
    if k !in Front(recent, capacity) {
      assert Front(Front(recent, capacity), capacity - 1) == Front(Front(Without(recent, k), capacity), capacity - 1);
      assert Front(Front(Without(recent, k), capacity), capacity - 1) == Front(Without(recent, k), capacity - 1);
    }
  }

  /** The cache holds the most recently used distinct keys, in order, as many as fit. */
  lemma {:induction false} HoldsMostRecent<K>(uses: seq<K>, capacity: nat)
    requires capacity > 0
    ensures KeysAfter(uses, capacity) == Front(Recent(uses), capacity)
  {
    if uses != [] {
      var last, before := uses[|uses| - 1], uses[..|uses| - 1];
      HoldsMostRecent(before, capacity);
      RecentDistinct(before);
      UsedIsFront(Recent(before), capacity, last);
    }
  }

  // ---------------------------------------------------------------- whole runs, and what recency means

  /** The value of a getOrInsert is what its factory would make. */
  datatype Call<K, V> = Put(key: K, value: V) | GetOrInsert(key: K, value: V)

  ghost function EntriesAfter<K, V>(calls: seq<Call<K, V>>, capacity: nat): seq<Entry<K, V>>
    requires capacity > 0
  {
    if calls == [] then []
    else
      var es := EntriesAfter(calls[..|calls| - 1], capacity);
      match calls[|calls| - 1]
      case Put(k, v) => AfterPut(es, capacity, k, v)
      case GetOrInsert(k, v) => AfterGetOrInsert(es, capacity, k, v)
  }

  ghost function Uses<K, V>(calls: seq<Call<K, V>>): seq<K> {
    if calls == [] then [] else Uses(calls[..|calls| - 1]) + [calls[|calls| - 1].key]
  }

  /** After any run of put and getOrInsert the entries are those of the most recently used keys, in order. */
  lemma {:induction false} RunHoldsMostRecent<K, V>(calls: seq<Call<K, V>>, capacity: nat)
    requires capacity > 0
    ensures Keys(EntriesAfter(calls, capacity)) == Front(Recent(Uses(calls)), capacity)
  {
    RunKeys(calls, capacity);
    HoldsMostRecent(Uses(calls), capacity);
  }

  lemma {:induction false} RunKeys<K, V>(calls: seq<Call<K, V>>, capacity: nat)
    requires capacity > 0
    ensures Keys(EntriesAfter(calls, capacity)) == KeysAfter(Uses(calls), capacity)
  {
    if calls != [] {
      var before, last := calls[..|calls| - 1], calls[|calls| - 1];
      RunKeys(before, capacity);
      KeysAfterPut(EntriesAfter(before, capacity), capacity, last.key, last.value);
      assert Uses(calls)[..|Uses(before)|] == Uses(before);
    }
  }

  /** When a key was last used. */
  ghost function LastUse<K>(uses: seq<K>, k: K): (i: nat)
    requires k in uses
    ensures i < |uses| && uses[i] == k && k !in uses[i + 1..]
  {
    if uses[|uses| - 1] == k then |uses| - 1
    else
      var before := uses[..|uses| - 1];
      var i := LastUse(before, k);
      assert uses[i + 1..] == before[i + 1..] + [uses[|uses| - 1]];
      i
  }

  /** A measure strictly falls along a list. */
  ghost predicate Falls<K>(at: K -> int, ks: seq<K>) {
    forall i, j :: 0 <= i < j < |ks| ==> at(ks[i]) > at(ks[j])
  }

  lemma FallsFrom<K>(at: K -> int, k: K, ks: seq<K>)
    requires Falls(at, ks) && forall x :: x in ks ==> at(k) > at(x)
    ensures Falls(at, [k] + ks)
  {
    forall i, j | 0 <= i < j < |[k] + ks| ensures at(([k] + ks)[i]) > at(([k] + ks)[j]) {
      assert ([k] + ks)[j] == ks[j - 1] && ks[j - 1] in ks;
    }
  }

  lemma FallsRest<K>(at: K -> int, ks: seq<K>)
    requires Falls(at, ks) && ks != []
    ensures Falls(at, ks[1..]) && forall x :: x in ks[1..] ==> at(ks[0]) > at(x)
  {
    var rest := ks[1..];
    assert forall i :: 0 <= i < |rest| ==> rest[i] == ks[i + 1];
  }

  lemma {:induction false} WithoutHas<T>(s: seq<T>, x: T, y: T)
    requires y in Without(s, x)
    ensures y in s && y != x
  {
    if s != [] && y in Without(s[1..], x) { WithoutHas(s[1..], x, y); }
  }

  lemma {:induction false} WithoutFalls<K>(at: K -> int, ks: seq<K>, x: K)
    requires Falls(at, ks)
    ensures Falls(at, Without(ks, x))
  {
    if ks != [] {
      FallsRest(at, ks);
      WithoutFalls(at, ks[1..], x);
      var rest := Without(ks[1..], x);
      forall y | y in rest ensures at(ks[0]) > at(y) {
        WithoutHas(ks[1..], x, y);
      }
      if ks[0] != x { FallsFrom(at, ks[0], rest); } else { assert Without(ks, x) == rest; }
    }
  }

  lemma FallsAlike<K>(at: K -> int, at': K -> int, ks: seq<K>)
    requires Falls(at, ks) && forall k :: k in ks ==> at'(k) == at(k)
    ensures Falls(at', ks)
  {
    forall i, j | 0 <= i < j < |ks| ensures at'(ks[i]) > at'(ks[j]) { assert ks[i] in ks && ks[j] in ks; }
  }

  /** When a key was last used, as a measure. */
  ghost function UsedAt<K>(uses: seq<K>): K -> int {
    (k: K) => if k in uses then LastUse(uses, k) else -1
  }

  lemma UsedBefore<K>(uses: seq<K>, k: K)
    requires uses != [] && k != uses[|uses| - 1]
    ensures UsedAt(uses)(k) == UsedAt(uses[..|uses| - 1])(k) < |uses| - 1
  {
    assert uses == uses[..|uses| - 1] + [uses[|uses| - 1]];
  }

  /** The recency list has exactly the keys used, and their last uses strictly decrease along it. */
  lemma {:induction false} RecentByLastUse<K>(uses: seq<K>)
    ensures forall k :: k in Recent(uses) <==> k in uses
    ensures Falls(UsedAt(uses), Recent(uses))
  {
    if uses != [] {
      var last, before := uses[|uses| - 1], uses[..|uses| - 1];
      var rest := Without(Recent(before), last);
      assert uses == before + [last];
      RecentByLastUse(before);
      WithoutIn(Recent(before), last);
      WithoutFalls(UsedAt(before), Recent(before), last);
      forall k | k in rest ensures UsedAt(uses)(k) == UsedAt(before)(k) < |uses| - 1 { UsedBefore(uses, k); }
      FallsAlike(UsedAt(before), UsedAt(uses), rest);
      FallsFrom(UsedAt(uses), last, rest);
    }
  }

  // ---------------------------------------------------------------- values

  lemma {:induction false} LookupRemoved<K, V>(es: seq<Entry<K, V>>, k: K, x: K)
    ensures Lookup(Removed(es, k), x) == if x == k then None else Lookup(es, x)
  {
    if es != [] {
      LookupRemoved(es[1..], k, x);
      if es[0].key == k {
        assert Removed(es, k) == Removed(es[1..], k);
      } else {
        assert Removed(es, k)[1..] == Removed(es[1..], k);
      }
    }
  }

  lemma LookupCons<K, V>(e: Entry<K, V>, es: seq<Entry<K, V>>, x: K)
    ensures Lookup([e] + es, x) == if x == e.key then Some(e.value) else Lookup(es, x)
  {
    assert ([e] + es)[1..] == es;
  }

  /** Cutting a list at the back loses keys but changes no value. */
  lemma {:induction false} LookupFront<K, V>(es: seq<Entry<K, V>>, n: nat, x: K)
    ensures Lookup(Front(es, n), x) == if x in Keys(Front(es, n)) then Lookup(es, x) else None
  {
    LookupFinds(Front(es, n), x);
    if es != [] && n > 0 && |es| > n {
      assert Front(es, n)[1..] == Front(es[1..], n - 1) && Front(es, n)[0] == es[0];
      LookupFront(es[1..], n - 1, x);
    }
  }

  /** The keys that a full cache gives up for a new one. */
  ghost predicate Kept<K, V>(es: seq<Entry<K, V>>, capacity: nat, k: K, x: K)
    requires capacity > 0
  {
    x in Keys(es) && (k in Keys(es) || x in Front(Keys(es), capacity - 1))
  }

  /** A put stores its value; every other key still held keeps its own. */
  lemma PutStores<K, V>(es: seq<Entry<K, V>>, capacity: nat, k: K, v: V, x: K)
    requires capacity > 0
    ensures Lookup(AfterPut(es, capacity, k, v), k) == Some(v)
    ensures x != k ==> Lookup(AfterPut(es, capacity, k, v), x) == if Kept(es, capacity, k, x) then Lookup(es, x) else None
  {
    if k in Keys(es) {
      LookupCons(Entry(k, v), Removed(es, k), k);
      LookupCons(Entry(k, v), Removed(es, k), x);
      LookupRemoved(es, k, x);
      LookupFinds(es, x);
    } else {
      LookupCons(Entry(k, v), Front(es, capacity - 1), k);
      LookupCons(Entry(k, v), Front(es, capacity - 1), x);
      LookupFront(es, capacity - 1, x);
      KeysOfFront(es, capacity - 1);
    }
  }

  /** A getOrInsert keeps the value of a key held and stores the new one otherwise; other keys as with a put. */
  lemma GetOrInsertStores<K, V>(es: seq<Entry<K, V>>, capacity: nat, k: K, v: V, x: K)
    requires capacity > 0
    ensures Lookup(AfterGetOrInsert(es, capacity, k, v), k) == if k in Keys(es) then Lookup(es, k) else Some(v)
    ensures x != k ==> Lookup(AfterGetOrInsert(es, capacity, k, v), x) == if Kept(es, capacity, k, x) then Lookup(es, x) else None
  {
    LookupFinds(es, k);
    var w := if k in Keys(es) then Lookup(es, k).value else v;
    assert AfterGetOrInsert(es, capacity, k, v) == AfterPut(es, capacity, k, w);
    PutStores(es, capacity, k, w, x);
  }

  /** A get changes no value, and finds what is stored. */
  lemma GetChangesNothing<K, V>(es: seq<Entry<K, V>>, k: K, x: K)
    ensures Lookup(AfterGet(es, k), x) == Lookup(es, x)
  {
    if Lookup(es, k).Some? {
      LookupCons(Entry(k, Lookup(es, k).value), Removed(es, k), x);
      LookupRemoved(es, k, x);
    }
  }

  // ---- over runs

  /** Is a key held after a run? */
  ghost predicate HeldAfter<K, V>(calls: seq<Call<K, V>>, capacity: nat, x: K)
    requires capacity > 0
  {
    x in Keys(EntriesAfter(calls, capacity))
  }

  /**
   The call whose value a key has: its last put, or the getOrInsert that inserted it if there was no put since.
   A getOrInsert inserts exactly if the key is not held when it is made.
   */
  ghost predicate GivesValue<K, V>(calls: seq<Call<K, V>>, capacity: nat, x: K, i: nat)
    requires capacity > 0 && i < |calls|
  {
    && calls[i].key == x && (calls[i].Put? || !HeldAfter(calls[..i], capacity, x))
    && forall j :: i < j < |calls| && calls[j].key == x ==> calls[j].GetOrInsert? && HeldAfter(calls[..j], capacity, x)
  }

  lemma GivesValueBefore<K, V>(calls: seq<Call<K, V>>, capacity: nat, x: K, i: nat)
    requires capacity > 0 && i + 1 < |calls| && GivesValue(calls[..|calls| - 1], capacity, x, i)
    requires var last := calls[|calls| - 1]; last.key == x ==> last.GetOrInsert? && HeldAfter(calls[..|calls| - 1], capacity, x)
    ensures GivesValue(calls, capacity, x, i)
  {
    var before := calls[..|calls| - 1];
    assert before[..i] == calls[..i];
    forall j | i < j < |calls| && calls[j].key == x ensures calls[j].GetOrInsert? && HeldAfter(calls[..j], capacity, x) {
      if j < |before| { assert before[j] == calls[j] && before[..j] == calls[..j]; }
    }
  }

  /** After any run, each key held has the value of its last put, or of the getOrInsert that inserted it since. */
  lemma {:induction false} HoldsLastValue<K, V>(calls: seq<Call<K, V>>, capacity: nat, x: K) returns (i: nat)
    requires capacity > 0 && HeldAfter(calls, capacity, x)
    ensures i < |calls| && GivesValue(calls, capacity, x, i)
    ensures Lookup(EntriesAfter(calls, capacity), x) == Some(calls[i].value)
  {
    var n := |calls| - 1;
    var before, last := calls[..n], calls[n];
    var es := EntriesAfter(before, capacity);
    PutStores(es, capacity, last.key, last.value, x);
    GetOrInsertStores(es, capacity, last.key, last.value, x);
    LookupFinds(EntriesAfter(calls, capacity), x);
    if last.key == x && (last.Put? || x !in Keys(es)) {
      i := n;
    } else {
      assert x in Keys(es);
      i := HoldsLastValue(before, capacity, x);
      GivesValueBefore(calls, capacity, x, i);
    }
  }

  // ---------------------------------------------------------------- inclusion

  /** One list of keys begins another. */
  ghost predicate Begins<K>(small: seq<K>, large: seq<K>) {
    Distinct(large) && small <= large
  }

  datatype Op<K> = Use(key: K) | Erase(key: K)

  ghost function Applied<K>(ks: seq<K>, capacity: nat, op: Op<K>): seq<K>
    requires capacity > 0
  {
    match op
    case Use(k) => Used(ks, capacity, k)
    case Erase(k) => Without(ks, k)
  }

  ghost function Run<K>(ops: seq<Op<K>>, capacity: nat): seq<K>
    requires capacity > 0
  {
    if ops == [] then [] else Applied(Run(ops[..|ops| - 1], capacity), capacity, ops[|ops| - 1])
  }

  lemma AppliedBegins<K>(small: seq<K>, large: seq<K>, c: nat, d: nat, op: Op<K>)
    requires 0 < c <= d && |small| <= c && |large| <= d && Begins(small, large)
    ensures Begins(Applied(small, c, op), Applied(large, d, op))
    ensures |Applied(small, c, op)| <= c && |Applied(large, d, op)| <= d
  {
    var k, rest := op.key, large[|small|..];
    assert large == small + rest;
    WithoutSplit(small, rest, k);
    WithoutDistinct(large, k);
    WithoutIn(large, k);
    match op {
      case Use(_) => UsedBegins(small, rest, c, d, k);
      case Erase(_) => assert Without(small, k) <= Without(large, k); WithoutIn(small, k);
    }
  }

  lemma UsedBegins<K>(small: seq<K>, rest: seq<K>, c: nat, d: nat, k: K)
    requires 0 < c <= d && |small| <= c && |small + rest| <= d && Distinct(small + rest)
    ensures Begins(Used(small, c, k), Used(small + rest, d, k))
    ensures |Used(small, c, k)| <= c && |Used(small + rest, d, k)| <= d
  {
    var large := small + rest;
    WithoutSplit(small, rest, k);
    WithoutDistinct(large, k);
    WithoutIn(large, k);
    UsedDistinct(large, d, k);
    if k !in large {
      assert Front(small, c - 1) <= Front(large, d - 1);
    } else if k !in small {
      assert Front(small, c - 1) <= small <= Without(large, k);
    }
  }

  lemma UsedDistinct<K>(ks: seq<K>, capacity: nat, k: K)
    requires capacity > 0 && Distinct(ks)
    ensures Distinct(Used(ks, capacity, k))
  {
    WithoutDistinct(ks, k);
    WithoutIn(ks, k);
  }

  /** Over any run, what a smaller cache holds is the beginning of what a larger one holds. */
  lemma {:induction false} SmallerBeginsLarger<K>(ops: seq<Op<K>>, c: nat, d: nat)
    requires 0 < c <= d
    ensures Begins(Run(ops, c), Run(ops, d)) && |Run(ops, c)| <= c && |Run(ops, d)| <= d
  {
    if ops != [] {
      SmallerBeginsLarger(ops[..|ops| - 1], c, d);
      AppliedBegins(Run(ops[..|ops| - 1], c), Run(ops[..|ops| - 1], d), c, d, ops[|ops| - 1]);
    }
  }

  ghost function Got<K>(ks: seq<K>, k: K): seq<K> {
    if k in ks then [k] + Without(ks, k) else ks
  }

  lemma KeysAfterGet<K, V>(es: seq<Entry<K, V>>, k: K)
    ensures Keys(AfterGet(es, k)) == Got(Keys(es), k)
  {
    LookupFinds(es, k);
    KeysOfRemoved(es, k);
    if k in Keys(es) { KeysOfCons(Entry(k, Lookup(es, k).value), Removed(es, k)); }
  }

  /** A plain get keeps the inclusion exactly unless it hits in the larger cache and misses in a smaller, non-empty one. */
  lemma GetKeepsInclusionExactly<K>(small: seq<K>, large: seq<K>, k: K)
    requires Begins(small, large)
    ensures Begins(Got(small, k), Got(large, k)) <==> (k in large ==> k in small || small == [])
  {
    var n := |small|;
    assert small == Front(large, n);
    WithoutFront(large, k, n);
    WithoutDistinct(large, k);
    WithoutIn(large, k);
  }

  /** The same of the caches' entries. */
  lemma EntriesKeepInclusionExactly<K, V>(small: seq<Entry<K, V>>, large: seq<Entry<K, V>>, k: K)
    requires Begins(Keys(small), Keys(large))
    ensures Begins(Keys(AfterGet(small, k)), Keys(AfterGet(large, k))) <==> (k in Keys(large) ==> k in Keys(small) || small == [])
  {
    KeysAfterGet(small, k);
    KeysAfterGet(large, k);
    GetKeepsInclusionExactly(Keys(small), Keys(large), k);
  }

  /** Two caches, of one and of two entries: a get of the older key separates them. */
  lemma GetBreaksInclusion()
    ensures var ops := [Use(1), Use(2)]; Begins(Run(ops, 1), Run(ops, 2)) && !Begins(Got(Run(ops, 1), 1), Got(Run(ops, 2), 1))
  {
    var ops := [Use(1), Use(2)];
    assert ops[..1] == [Use(1)] && ops[..1][..0] == [];
    assert Run(ops[..1], 1) == [1] && Run(ops[..1], 2) == [1];
    assert Run(ops, 1) == [2] && Run(ops, 2) == [2, 1];
    GetKeepsInclusionExactly([2], [2, 1], 1);
  }
}
