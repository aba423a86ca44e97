/**
 MemoryPool (src/darwincore/foundation/memory/MemoryAllocator.cpp): segregated free lists for blocks of up
 to 128 bytes.

 Addresses are positive numbers and 0 is the null pointer.  `links` is the word at the start of each block,
 which the client owns while the block is live: it may overwrite it.  What the system allocator returns is a
 parameter, required not to overlap any memory already held.
 */
module MemoryPool {

  const ALIGN: nat := 8
  const MAX_BLOCK: nat := 128
  const CLASSES: nat := 16
  const BATCH: nat := 10

  type Links = map<int, int>
  type Regions = map<int, nat>

  /** The index of the free list for a size: the source's rounding up to a multiple of eight, minus one. */
  function ClassOf(size: nat): nat
    requires size > 0
  {
    (size + ALIGN - 1) / ALIGN - 1
  }

  function BlockSize(index: nat): nat {
    (index + 1) * ALIGN
  }

  /** The memory handed out for a request. */
  function Room(size: nat): nat
    requires size > 0
  {
    if size > MAX_BLOCK then size else BlockSize(ClassOf(size))
  }

  /** Enough, with less than a word to spare, and a multiple of the word from a list. */
  lemma RoomFits(size: nat)
    requires size > 0
    ensures size <= Room(size) < size + 8 && (size <= MAX_BLOCK ==> Room(size) % 8 == 0)
    ensures (size <= MAX_BLOCK ==> ClassOf(size) < CLASSES && Room(size) <= MAX_BLOCK)
  {}

  // ---------------------------------------------------------------- state and invariant

  /**
   The pool as its history determines it: `lists` are the free lists as sequences, `held` all memory obtained
   from the system with its length, `live` the blocks handed out with the size asked for, `carved` how many
   blocks each class has been given.
   */
  datatype Pool = Pool(heads: seq<int>, links: Links, lists: seq<seq<int>>, held: Regions, live: Regions, carved: seq<nat>)

  /** A null-terminated chain of links from `head` spells `list`. */
  ghost predicate Spells(head: int, links: Links, list: seq<int>)
    decreases |list|
  {
    if list == [] then head == 0
    else head == list[0] && head != 0 && head in links && Spells(links[head], links, list[1..])
  }

  ghost predicate Distinct(s: seq<int>) {
    forall i, j :: 0 <= i < j < |s| ==> s[i] != s[j]
  }

  ghost predicate Apart(a: int, n: nat, b: int, m: nat) {
    a + n <= b || b + m <= a
  }

  ghost predicate Disjoint(held: Regions) {
    forall a, b :: a in held && b in held && a != b ==> Apart(a, held[a], b, held[b])
  }

  /** A free block: in no other use, and of its list's size. */
  ghost predicate Free(p: Pool, i: nat, x: int) {
    x in p.held && p.held[x] == BlockSize(i) && x !in p.live && x > 0
  }

  /** Live blocks are what was asked for. */
  ghost predicate Fits(p: Pool, x: int)
    requires x in p.live
  {
    p.live[x] > 0 && x > 0 && x in p.held && p.held[x] == Room(p.live[x])
  }

  ghost predicate Accounted(p: Pool, x: int)
    requires x in p.held && |p.lists| == CLASSES
  {
    p.held[x] > 0 && (x in p.live || exists i :: 0 <= i < CLASSES && x in p.lists[i])
  }

  ghost function LiveOf(p: Pool, i: nat): set<int> {
    set x | x in p.live && x in p.held && p.held[x] == BlockSize(i)
  }

  ghost predicate ClassInv(p: Pool, i: nat)
    requires i < |p.heads| == |p.lists| == |p.carved|
  {
    && Spells(p.heads[i], p.links, p.lists[i])
    && Distinct(p.lists[i])
    && (forall x :: x in p.lists[i] ==> Free(p, i, x))
    && |p.lists[i]| + |LiveOf(p, i)| == p.carved[i]
  }

  ghost predicate Shaped(p: Pool) {
    |p.heads| == |p.lists| == |p.carved| == CLASSES
  }

  ghost predicate Inv(p: Pool) {
    && Shaped(p)
    && (forall i :: 0 <= i < CLASSES ==> ClassInv(p, i))
    && Disjoint(p.held)
    && (forall x :: x in p.live ==> Fits(p, x))
    && (forall x :: x in p.held ==> Accounted(p, x))
  }

  // ---------------------------------------------------------------- what the invariant means

  /** Live blocks do not overlap and are large enough. */
  lemma LiveBlocksApart(p: Pool, x: int, y: int)
    requires Inv(p) && x in p.live && y in p.live && x != y
    ensures Apart(x, p.live[x], y, p.live[y])
  {
    assert Fits(p, x) && Fits(p, y);
    RoomFits(p.live[x]);
    RoomFits(p.live[y]);
  }

  /** Each list holds exactly the blocks of its class that are not live. */
  lemma ListsHoldTheFree(p: Pool, i: nat, x: int)
    requires Inv(p) && i < CLASSES
    ensures x in p.lists[i] <==> x in p.held && p.held[x] == BlockSize(i) && x !in p.live
  {
    assert ClassInv(p, i);
    if x in p.lists[i] { assert Free(p, i, x); }
    if x in p.held && p.held[x] == BlockSize(i) && x !in p.live {
      assert Accounted(p, x);
      var j :| 0 <= j < CLASSES && x in p.lists[j];
      assert ClassInv(p, j);
      assert Free(p, j, x);
    }
  }

  // ---------------------------------------------------------------- pushing and popping

  /** Links outside a chain do not matter to it. */
  lemma {:induction false} SpellsSame(head: int, links: Links, links': Links, list: seq<int>)
    requires Spells(head, links, list) && forall x :: x in list ==> x in links' && (x in links ==> links'[x] == links[x])
    ensures Spells(head, links', list)
    decreases |list|
  {
    if list != [] { SpellsSame(links[head], links, links', list[1..]); }
  }

  /** A block becomes the head of its list, linked to the former head. */
  ghost function Pushed(p: Pool, i: nat, x: int): Pool
    requires Shaped(p) && i < CLASSES
  {
    p.(heads := p.heads[i := x], links := p.links[x := p.heads[i]], lists := p.lists[i := [x] + p.lists[i]])
  }

  /** The first block of a list is handed out. */
  ghost function Popped(p: Pool, i: nat, size: nat): Pool
    requires Shaped(p) && i < CLASSES && p.lists[i] != [] && p.lists[i][0] in p.links
  {
    var x := p.lists[i][0];
    p.(heads := p.heads[i := p.links[x]], lists := p.lists[i := p.lists[i][1..]], live := p.live[x := size])
  }

  /** A new block of memory joins a list. */
  ghost function Carved(p: Pool, i: nat, x: int): Pool
    requires Shaped(p) && i < CLASSES
  {
    Pushed(p, i, x).(held := p.held[x := BlockSize(i)], carved := p.carved[i := p.carved[i] + 1])
  }

  /** A live block comes back. */
  ghost function Returned(p: Pool, x: int): Pool
    requires Shaped(p) && x in p.live && 0 < p.live[x] <= MAX_BLOCK
  {
    RoomFits(p.live[x]);
    Pushed(p, ClassOf(p.live[x]), x).(live := p.live - {x})
  }

  /** The client writes to the first word of a block it owns. */
  ghost function Scribbled(p: Pool, x: int, word: int): Pool {
    p.(links := p.links[x := word])
  }

  /** Requests over the limit go to the system and come from it. */
  ghost function TakenWhole(p: Pool, x: int, size: nat): Pool {
    p.(held := p.held[x := size], live := p.live[x := size])
  }

  ghost function ReturnedWhole(p: Pool, x: int): Pool {
    p.(held := p.held - {x}, live := p.live - {x})
  }

  ghost predicate Clear(held: Regions, x: int, n: nat) {
    x > 0 && n > 0 && Untouched(held, x, n)
  }

  ghost predicate Untouched(held: Regions, x: int, n: nat) {
    forall a :: a in held ==> Apart(a, held[a], x, n)
  }

  // ---------------------------------------------------------------- every step keeps the invariant

  /** Classes that a step does not concern: their blocks, and the links of their free blocks, stay. */
  lemma OtherClass(p: Pool, p': Pool, j: nat)
    requires Shaped(p) && Shaped(p') && j < CLASSES && ClassInv(p, j)
    requires p'.heads[j] == p.heads[j] && p'.lists[j] == p.lists[j] && p'.carved[j] == p.carved[j] && LiveOf(p', j) == LiveOf(p, j)
    requires forall x :: x in p.lists[j] ==> x in p'.links && (x in p.links ==> p'.links[x] == p.links[x]) && Free(p', j, x)
    ensures ClassInv(p', j)
  {
    SpellsSame(p.heads[j], p.links, p'.links, p.lists[j]);
  }

  lemma {:induction false} SpellsLinked(head: int, links: Links, list: seq<int>)
    requires Spells(head, links, list)
    ensures forall x :: x in list ==> x in links
    decreases |list|
  {
    if list != [] { SpellsLinked(links[head], links, list[1..]); }
  }

  lemma PushedSpells(p: Pool, i: nat, x: int)
    requires Shaped(p) && i < CLASSES && Spells(p.heads[i], p.links, p.lists[i]) && x !in p.lists[i] && x > 0
    ensures Spells(x, p.links[x := p.heads[i]], [x] + p.lists[i])
  {
    SpellsLinked(p.heads[i], p.links, p.lists[i]);
    SpellsSame(p.heads[i], p.links, p.links[x := p.heads[i]], p.lists[i]);
    assert ([x] + p.lists[i])[1..] == p.lists[i];
  }

  /** A new block. */
  lemma CarvedInv(p: Pool, i: nat, x: int)
    requires Inv(p) && i < CLASSES && Clear(p.held, x, BlockSize(i))
    ensures Inv(Carved(p, i, x))
  {
    var p' := Carved(p, i, x);
    CarvedIsNew(p, i, x);
    forall j | 0 <= j < CLASSES ensures ClassInv(p', j) {
      assert ClassInv(p, j);
      SpellsLinked(p.heads[j], p.links, p.lists[j]);
      assert LiveOf(p', j) == LiveOf(p, j);
      if j == i { CarvedClass(p, i, x); } else { OtherClass(p, p', j); }
    }
    forall y | y in p'.live ensures Fits(p', y) { assert Fits(p, y); }
    forall y | y in p'.held ensures Accounted(p', y) { CarvedAccounted(p, i, x, y); }
  }

  lemma CarvedIsNew(p: Pool, i: nat, x: int)
    requires Inv(p) && i < CLASSES && Clear(p.held, x, BlockSize(i))
    ensures x !in p.held && x !in p.live && forall j :: 0 <= j < CLASSES ==> x !in p.lists[j]
  {
    assert x in p.held ==> Accounted(p, x) && Apart(x, p.held[x], x, BlockSize(i));
    assert x in p.live ==> Fits(p, x);
    forall j | 0 <= j < CLASSES ensures x !in p.lists[j] { assert ClassInv(p, j); }
  }

  lemma CarvedClass(p: Pool, i: nat, x: int)
    requires Shaped(p) && i < CLASSES && ClassInv(p, i) && x !in p.held && x !in p.live && x > 0
    requires LiveOf(Carved(p, i, x), i) == LiveOf(p, i)
    ensures ClassInv(Carved(p, i, x), i)
  {
    var p' := Carved(p, i, x);
    PushedSpells(p, i, x);
    assert p'.lists[i] == [x] + p.lists[i];
    forall y | y in p'.lists[i] ensures Free(p', i, y) { assert y != x ==> Free(p, i, y); }
  }

  lemma CarvedAccounted(p: Pool, i: nat, x: int, y: int)
    requires Shaped(p) && i < CLASSES && x !in p.held && y in Carved(p, i, x).held && (y in p.held ==> Accounted(p, y))
    ensures Accounted(Carved(p, i, x), y)
  {
    var p' := Carved(p, i, x);
    if y == x {
      assert x in p'.lists[i];
    } else if y !in p.live {
      var j :| 0 <= j < CLASSES && y in p.lists[j];
      assert y in p'.lists[j];
    }
  }

  /** A block handed out. */
  lemma PoppedInv(p: Pool, i: nat, size: nat)
    requires Inv(p) && i < CLASSES && p.lists[i] != [] && 0 < size <= MAX_BLOCK && ClassOf(size) == i
    ensures p.lists[i][0] in p.links && p.heads[i] == p.lists[i][0] && p.lists[i][0] !in p.live
    ensures Inv(Popped(p, i, size))
  {
    assert ClassInv(p, i);
    var x := p.lists[i][0];
    assert Free(p, i, x);
    var p' := Popped(p, i, size);
    forall j | 0 <= j < CLASSES ensures ClassInv(p', j) {
      assert ClassInv(p, j);
      if j == i { PoppedClass(p, i, size); } else { PoppedOther(p, i, size, j); }
    }
    forall y | y in p'.live ensures Fits(p', y) { assert y != x ==> Fits(p, y); }
    forall y | y in p'.held ensures Accounted(p', y) {
      assert Accounted(p, y);
      PoppedAccounted(p, i, size, y);
    }
  }

  lemma PoppedClass(p: Pool, i: nat, size: nat)
    requires Shaped(p) && i < CLASSES && ClassInv(p, i) && p.lists[i] != [] && p.lists[i][0] in p.links
    ensures ClassInv(Popped(p, i, size), i)
  {
    var x, p' := p.lists[i][0], Popped(p, i, size);
    assert Free(p, i, x);
    assert LiveOf(p', i) == LiveOf(p, i) + {x};
    assert p'.lists[i] == p.lists[i][1..];
    forall y | y in p'.lists[i] ensures Free(p', i, y) { assert Free(p, i, y) && x !in p.lists[i][1..]; }
  }

  lemma PoppedOther(p: Pool, i: nat, size: nat, j: nat)
    requires Shaped(p) && i < CLASSES && j < CLASSES && j != i && ClassInv(p, j)
    requires p.lists[i] != [] && p.lists[i][0] in p.links && Free(p, i, p.lists[i][0])
    ensures ClassInv(Popped(p, i, size), j)
  {
    var x, p' := p.lists[i][0], Popped(p, i, size);
    assert LiveOf(p', j) == LiveOf(p, j);
    SpellsLinked(p.heads[j], p.links, p.lists[j]);
    forall y | y in p.lists[j] ensures Free(p', j, y) { assert Free(p, j, y); }
    OtherClass(p, p', j);
  }

  lemma PoppedAccounted(p: Pool, i: nat, size: nat, y: int)
    requires Shaped(p) && i < CLASSES && p.lists[i] != [] && p.lists[i][0] in p.links && y in p.held && Accounted(p, y)
    ensures Accounted(Popped(p, i, size), y)
  {
    var p' := Popped(p, i, size);
    if y !in p'.live {
      var j :| 0 <= j < CLASSES && y in p.lists[j];
      assert y in p'.lists[j];
    }
  }

  /** A block given back. */
  lemma ReturnedInv(p: Pool, x: int)
    requires Inv(p) && x in p.live && 0 < p.live[x] <= MAX_BLOCK
    ensures Inv(Returned(p, x))
  {
    var i, p' := ClassOf(p.live[x]), Returned(p, x);
    RoomFits(p.live[x]);
    assert Fits(p, x);
    forall j | 0 <= j < CLASSES ensures ClassInv(p', j) {
      assert ClassInv(p, j);
      if j == i { ReturnedClass(p, x, i); } else { ReturnedOther(p, x, i, j); }
    }
    forall y | y in p'.live ensures Fits(p', y) { assert Fits(p, y); }
    forall y | y in p'.held ensures Accounted(p', y) {
      assert Accounted(p, y);
      ReturnedAccounted(p, x, i, y);
    }
  }

  lemma ReturnedClass(p: Pool, x: int, i: nat)
    requires Shaped(p) && i < CLASSES && ClassInv(p, i) && x in p.live && 0 < p.live[x] <= MAX_BLOCK && i == ClassOf(p.live[x]) && Fits(p, x)
    ensures ClassInv(Returned(p, x), i)
  {
    var p' := Returned(p, x);
    assert forall y :: y in p.lists[i] ==> Free(p, i, y);
    PushedSpells(p, i, x);
    assert p'.lists[i] == [x] + p.lists[i];
    assert LiveOf(p, i) == LiveOf(p', i) + {x};
    forall y | y in p'.lists[i] ensures Free(p', i, y) { assert y != x ==> Free(p, i, y); }
  }

  lemma ReturnedOther(p: Pool, x: int, i: nat, j: nat)
    requires Shaped(p) && i < CLASSES && j < CLASSES && j != i && ClassInv(p, j)
    requires x in p.live && 0 < p.live[x] <= MAX_BLOCK && i == ClassOf(p.live[x]) && Fits(p, x)
    ensures ClassInv(Returned(p, x), j)
  {
    var p' := Returned(p, x);
    assert LiveOf(p', j) == LiveOf(p, j);
    SpellsLinked(p.heads[j], p.links, p.lists[j]);
    forall y | y in p.lists[j] ensures Free(p', j, y) && y != x { assert Free(p, j, y); }
    OtherClass(p, p', j);
  }

  lemma ReturnedAccounted(p: Pool, x: int, i: nat, y: int)
    requires Shaped(p) && x in p.live && 0 < p.live[x] <= MAX_BLOCK && i == ClassOf(p.live[x]) && i < CLASSES
    requires y in p.held && Accounted(p, y)
    ensures Accounted(Returned(p, x), y)
  {
    var p' := Returned(p, x);
    if y == x {
      assert x in p'.lists[i];
    } else if y !in p.live {
      var j :| 0 <= j < CLASSES && y in p.lists[j];
      assert y in p'.lists[j];
    }
  }

  /** Whatever clients write into their blocks, the free lists stay intact. */
  lemma ScribbledInv(p: Pool, x: int, word: int)
    requires Inv(p) && x in p.live
    ensures Inv(Scribbled(p, x, word))
  {
    var p' := Scribbled(p, x, word);
    forall j | 0 <= j < CLASSES ensures ClassInv(p', j) {
      assert ClassInv(p, j);
      SpellsLinked(p.heads[j], p.links, p.lists[j]);
      assert LiveOf(p', j) == LiveOf(p, j);
      forall y | y in p.lists[j] ensures Free(p', j, y) && y != x { assert Free(p, j, y); }
      OtherClass(p, p', j);
    }
    forall y | y in p'.live ensures Fits(p', y) { assert Fits(p, y); }
    forall y | y in p'.held ensures Accounted(p', y) { assert Accounted(p, y); }
  }

  lemma TakenWholeInv(p: Pool, x: int, size: nat)
    requires Inv(p) && size > MAX_BLOCK && Clear(p.held, x, size)
    ensures x !in p.live && Inv(TakenWhole(p, x, size))
  {
    var p' := TakenWhole(p, x, size);
    assert x in p.held ==> Accounted(p, x) && Apart(x, p.held[x], x, size);
    assert x in p.live ==> Fits(p, x);
    forall j | 0 <= j < CLASSES ensures ClassInv(p', j) {
      assert ClassInv(p, j);
      SpellsLinked(p.heads[j], p.links, p.lists[j]);
      assert LiveOf(p', j) == LiveOf(p, j);
      forall y | y in p.lists[j] ensures Free(p', j, y) { assert Free(p, j, y); }
      OtherClass(p, p', j);
    }
    forall y | y in p'.live ensures Fits(p', y) { assert y != x ==> Fits(p, y); }
    forall y | y in p'.held ensures Accounted(p', y) { assert y != x ==> Accounted(p, y); }
  }

  lemma ReturnedWholeInv(p: Pool, x: int)
    requires Inv(p) && x in p.live && p.live[x] > MAX_BLOCK
    ensures Inv(ReturnedWhole(p, x))
  {
    var p' := ReturnedWhole(p, x);
    assert Fits(p, x);
    forall j | 0 <= j < CLASSES ensures ClassInv(p', j) {
      assert ClassInv(p, j);
      SpellsLinked(p.heads[j], p.links, p.lists[j]);
      assert LiveOf(p', j) == LiveOf(p, j);
      forall y | y in p.lists[j] ensures Free(p', j, y) { assert Free(p, j, y); }
      OtherClass(p, p', j);
    }
    forall y | y in p'.live ensures Fits(p', y) { assert Fits(p, y); }
    forall y | y in p'.held ensures Accounted(p', y) { assert Accounted(p, y); }
  }

  // ---------------------------------------------------------------- refilling a list

  /** The first `n` blocks of a chunk cut up and pushed. */
  ghost function Batch(p: Pool, i: nat, chunk: int, n: nat): Pool
    requires Shaped(p) && i < CLASSES
    ensures Shaped(Batch(p, i, chunk, n))
  {
    if n == 0 then p else Carved(Batch(p, i, chunk, n - 1), i, chunk + (n - 1) * BlockSize(i))
  }

  lemma Cut(n: nat, bs: nat)
    requires 0 < n <= BATCH
    ensures (n - 1) * bs >= 0 && n * bs == (n - 1) * bs + bs
    ensures (BATCH - n) * bs >= 0 && (BATCH - (n - 1)) * bs == bs + (BATCH - n) * bs
  {}

  ghost predicate BatchOf(p: Pool, i: nat, chunk: int, n: nat, p': Pool)
    requires Shaped(p) && i < CLASSES && n <= BATCH && (BATCH - n) * BlockSize(i) >= 0
  {
    && Inv(p') && p'.live == p.live && p'.carved == p.carved[i := p.carved[i] + n]
    && Untouched(p'.held, chunk + n * BlockSize(i), (BATCH - n) * BlockSize(i))
  }

  /** The part of the chunk not cut yet overlaps nothing. */
  lemma {:induction false} BatchInv(p: Pool, i: nat, chunk: int, n: nat)
    requires Inv(p) && i < CLASSES && n <= BATCH && Clear(p.held, chunk, BATCH * BlockSize(i))
    ensures (BATCH - n) * BlockSize(i) >= 0 && BatchOf(p, i, chunk, n, Batch(p, i, chunk, n))
  {
    if n > 0 {
      var bs := BlockSize(i);
      Cut(n, bs);
      BatchInv(p, i, chunk, n - 1);
      BatchStep(p, i, chunk, n, Batch(p, i, chunk, n - 1), chunk + (n - 1) * bs, (BATCH - n) * bs);
    }
  }

  lemma BatchStep(p: Pool, i: nat, chunk: int, n: nat, before: Pool, x: int, rest: nat)
    requires Shaped(p) && i < CLASSES && 0 < n <= BATCH && Inv(before) && before.live == p.live
    requires before.carved == p.carved[i := p.carved[i] + (n - 1)] && Untouched(before.held, x, BlockSize(i) + rest) && x > 0
    ensures Inv(Carved(before, i, x)) && Carved(before, i, x).live == p.live
    ensures Carved(before, i, x).carved == p.carved[i := p.carved[i] + n]
    ensures Untouched(Carved(before, i, x).held, x + BlockSize(i), rest)
  {
    NextBlockClear(before.held, x, BlockSize(i), rest);
    CarvedInv(before, i, x);
  }

  lemma NextBlockClear(held: Regions, x: int, bs: nat, rest: nat)
    requires x > 0 && bs > 0 && Untouched(held, x, bs + rest)
    ensures Clear(held, x, bs) && Untouched(held[x := bs], x + bs, rest)
  {
    forall a | a in held ensures Apart(a, held[a], x, bs) && Apart(a, held[a], x + bs, rest) {
      assert Apart(a, held[a], x, bs + rest);
    }
  }

  // ---------------------------------------------------------------- the operations

  ghost predicate SystemReady(p: Pool, size: nat, chunk: int)
    requires Shaped(p) && size > 0
  {
    RoomFits(size);
    if size > MAX_BLOCK then Clear(p.held, chunk, size)
    else p.lists[ClassOf(size)] == [] ==> Clear(p.held, chunk, BATCH * BlockSize(ClassOf(size)))
  }

  /** The pool with at least one free block of a class. */
  ghost function Stocked(p: Pool, i: nat, chunk: int): Pool
    requires Shaped(p) && i < CLASSES
  {
    if p.lists[i] == [] then Batch(p, i, chunk, BATCH) else p
  }

  lemma StockedInv(p: Pool, size: nat, chunk: int)
    requires Inv(p) && 0 < size <= MAX_BLOCK && ClassOf(size) < CLASSES && SystemReady(p, size, chunk)
    ensures var i, p' := ClassOf(size), Stocked(p, ClassOf(size), chunk);
            Inv(p') && p'.lists[i] != [] && p'.live == p.live
  {
    var i := ClassOf(size);
    if p.lists[i] == [] {
      BatchInv(p, i, chunk, BATCH);
      assert Batch(p, i, chunk, BATCH) == Carved(Batch(p, i, chunk, BATCH - 1), i, chunk + (BATCH - 1) * BlockSize(i));
    }
  }

  ghost function Allocated(p: Pool, size: nat, chunk: int): Pool
    requires Inv(p) && size > 0 && SystemReady(p, size, chunk)
  {
    if size > MAX_BLOCK then TakenWhole(p, chunk, size)
    else
      RoomFits(size);
      StockedInv(p, size, chunk);
      PoppedInv(Stocked(p, ClassOf(size), chunk), ClassOf(size), size);
      Popped(Stocked(p, ClassOf(size), chunk), ClassOf(size), size)
  }

  /** Giving a block straight back undoes taking it, down to the links. */
  lemma TakeThenReturn(p: Pool, i: nat, size: nat)
    requires Inv(p) && i < CLASSES && p.lists[i] != [] && 0 < size <= MAX_BLOCK && ClassOf(size) == i
    requires p.lists[i][0] in p.links
    ensures Returned(Popped(p, i, size), p.lists[i][0]) == p
  {
    var x := p.lists[i][0];
    assert ClassInv(p, i) && Free(p, i, x);
    assert p.lists[i] == [x] + p.lists[i][1..];
    var p' := Returned(Popped(p, i, size), x);
    assert p'.heads == p.heads && p'.lists == p.lists;
    assert p'.links == p.links && p'.live == p.live;
  }

  class Allocator {
    const heads: array<int>
    var links: Links
    ghost var lists: seq<seq<int>>
    ghost var held: Regions
    ghost var live: Regions
    ghost var carved: seq<nat>
    ghost var refills: seq<nat>

    ghost function View(): Pool
      reads this, heads
    {
      Pool(heads[..], links, lists, held, live, carved)
    }

    /** Free and live blocks of a class number ten times its refills. */
    ghost predicate Valid()
      reads this, heads
    {
      && heads.Length == CLASSES && Inv(View())
      && |refills| == CLASSES && forall i :: 0 <= i < CLASSES ==> carved[i] == BATCH * refills[i]
    }

    constructor ()
      ensures Valid() && fresh(heads) && live == map[] && held == map[]
    {
      heads := new int[CLASSES](_ => 0);
      links, held, live := map[], map[], map[];
      lists := seq(CLASSES, _ => []);
      carved, refills := seq(CLASSES, _ => 0), seq(CLASSES, _ => 0);
      new;
      forall i | 0 <= i < CLASSES ensures ClassInv(View(), i) {
        assert View().lists[i] == [] && View().heads[i] == 0;
        assert LiveOf(View(), i) == {};
      }
    }

    /** One block is carved from a chunk and pushed. */
    method Carve(index: nat, x: int)
      requires heads.Length == CLASSES && Shaped(View()) && index < CLASSES
      modifies this`links, this`lists, this`held, this`carved, heads
      ensures View() == Carved(old(View()), index, x)
    {
      links := links[x := heads[index]];
      heads[index] := x;
      lists := lists[index := [x] + lists[index]];
      held, carved := held[x := BlockSize(index)], carved[index := carved[index] + 1];
    }

    method Refill(index: nat, chunk: int)
      requires Valid() && index < CLASSES && Clear(held, chunk, BATCH * BlockSize(index))
      modifies this`links, this`lists, this`held, this`carved, this`refills, heads
      ensures Valid() && View() == Batch(old(View()), index, chunk, BATCH)
      ensures refills == old(refills)[index := old(refills)[index] + 1]
    {
      var blockSize := BlockSize(index);
      ghost var p := View();
      for i := 0 to BATCH
        invariant heads.Length == CLASSES && Shaped(View()) && View() == Batch(p, index, chunk, i)
        invariant refills == old(refills)
      {
        Carve(index, chunk + i * blockSize);
      }
      BatchInv(p, index, chunk, BATCH);
      refills := refills[index := refills[index] + 1];
    }

    method Allocate(size: nat, chunk: int) returns (p: int)
      requires Valid() && size > 0 && SystemReady(View(), size, chunk)
      modifies this, heads
      ensures Valid()
      ensures p !in old(live) && live == old(live)[p := size] && p in held && held[p] >= size
      ensures View() == Allocated(old(View()), size, chunk)
    {
      if size > MAX_BLOCK {
        TakenWholeInv(View(), chunk, size);
        held, live := held[chunk := size], live[chunk := size];
        return chunk;
      }
      RoomFits(size);
      var index := (size + ALIGN - 1) / ALIGN - 1;
      StockedInv(View(), size, chunk);
      if heads[index] == 0 {
        assert lists[index] == [] by { assert ClassInv(View(), index); }
        Refill(index, chunk);
      } else {
        assert lists[index] != [] by { assert ClassInv(View(), index); }
      }
      PoppedInv(View(), index, size);
      p := heads[index];
      heads[index] := links[p];
      lists, live := lists[index := lists[index][1..]], live[p := size];
      assert Fits(View(), p);
    }

    method Deallocate(p: int, size: nat)
      requires Valid() && p in live && live[p] == size
      modifies this, heads
      ensures Valid() && live == old(live) - {p}
      ensures View() == if size > MAX_BLOCK then ReturnedWhole(old(View()), p) else Returned(old(View()), p)
    {
      assert Fits(View(), p);
      if size > MAX_BLOCK {
        ReturnedWholeInv(View(), p);
        held, live := held - {p}, live - {p};
        return;
      }
      ReturnedInv(View(), p);
      RoomFits(size);
      var index := (size + ALIGN - 1) / ALIGN - 1;
      links := links[p := heads[index]];
      heads[index] := p;
      lists, live := lists[index := [p] + lists[index]], live - {p};
    }

    /** A client writes over the first word of its block. */
    method Write(p: int, word: int)
      requires Valid() && p in live
      modifies this`links
      ensures Valid() && View() == Scribbled(old(View()), p, word)
    {
      ScribbledInv(View(), p, word);
      links := links[p := word];
    }
  }
}
