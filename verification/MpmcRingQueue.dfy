/**
 MPMCRingQueue (include/darwincore/foundation/container/RingQueue.h): the bounded
 multi-producer multi-consumer queue with one sequence number per cell.

 Every atomic access of push() and pop() is one step of a thread; a run is any
 legal interleaving of the steps of any number of threads.  The memory model is
 sequential consistency and positions are unbounded naturals.
 */
module MpmcRingQueue {

  datatype Option<+T> = None | Some(value: T)

  /** One slot of buffer_; None is a default-constructed or moved-from element. */
  datatype Cell<T> = Cell(sequence: nat, data: Option<T>)

  /** Where a thread is inside push() or pop(); `pos` is the local variable of that name. */
  datatype Pc<T> =
    | PushLoad(value: T, pos: nat)      // about to load cell->sequence
    | PushCas(value: T, pos: nat)       // saw diff == 0, about to CAS tail_
    | PushReload(value: T)              // saw diff > 0, about to reload tail_
    | PushWrite(value: T, pos: nat)     // owns pos, about to write cell->data
    | PushPublish(value: T, pos: nat)   // about to store sequence = pos + 1
    | PopLoad(pos: nat)                 // about to load cell->sequence
    | PopCas(pos: nat)                  // saw diff == 0, about to CAS head_
    | PopReload                         // saw diff > 0, about to reload head_
    | PopMove(pos: nat)                 // owns pos, about to move cell->data out
    | PopRelease(pos: nat, data: Option<T>) // about to store sequence = pos + mask_ + 1

  datatype Returned<T> = Returned(pos: nat, data: Option<T>)

  /**
   cells/head/tail/threads are the program's state.  The other fields are history:
   `pushed[p]` is the value whose push claimed tail position p, `writing` and
   `reading` name the thread between its CAS and its sequence store, and `popped`
   logs what each successful pop returned, in return order.
   */
  datatype State<T> = State(
    cells: seq<Cell<T>>,
    head: nat,
    tail: nat,
    threads: map<nat, Pc<T>>,
    pushed: seq<T>,
    writing: map<nat, nat>,
    reading: map<nat, nat>,
    popped: seq<Returned<T>>)

  /** A scheduling choice: which thread moves, with the arguments a call brings. */
  datatype Step<T> =
    | CallPush(t: nat, v: T)
    | CallPop(t: nat)
    | Advance(t: nat)
    | CasFailsSpuriously(t: nat)   // compare_exchange_weak may fail on equality

  /** Cell index of a position: pos modulo the capacity, which is `pos & mask_` for a power of two. */
  function Wrap(n: nat, pos: nat): (i: nat)
    requires n > 0
    ensures i < n
  {
    if pos < n then pos else Wrap(n, pos - n)
  }

  function Slot<T>(s: State<T>, pos: nat): nat
    requires |s.cells| > 0
  {
    Wrap(|s.cells|, pos)
  }

  function Init<T>(capacity: nat): (s: State<T>)
    requires capacity > 0
  {
    State(seq(capacity, i requires 0 <= i => Cell(i, None)), 0, 0, map[], [], map[], map[], [])
  }

  predicate Enabled<T>(s: State<T>, step: Step<T>)
  {
    match step
    case CallPush(t, _) => t !in s.threads
    case CallPop(t) => t !in s.threads
    case Advance(t) => t in s.threads
    case CasFailsSpuriously(t) => t in s.threads && (s.threads[t].PushCas? || s.threads[t].PopCas?)
  }

  function Goto<T>(s: State<T>, t: nat, pc: Pc<T>): State<T> {
    s.(threads := s.threads[t := pc])
  }

  /** The call returns: the thread is free to make another one. */
  function Return<T>(s: State<T>, t: nat): State<T> {
    s.(threads := s.threads - {t})
  }

  function SetCell<T>(s: State<T>, pos: nat, c: Cell<T>): State<T>
    requires |s.cells| > 0
  {
    s.(cells := s.cells[Slot(s, pos) := c])
  }

  function AdvancePush<T>(s: State<T>, t: nat): State<T>
    requires |s.cells| > 0 && t in s.threads
  {
    match s.threads[t]
    case PushLoad(v, pos) =>
      var sequence := s.cells[Slot(s, pos)].sequence;
      if sequence == pos then Goto(s, t, PushCas(v, pos))
      else if sequence < pos then Return(s, t)          // push returns false
      else Goto(s, t, PushReload(v))
    case PushCas(v, pos) =>
      if s.tail == pos then
        Goto(s, t, PushWrite(v, pos)).(tail := pos + 1, pushed := s.pushed + [v], writing := s.writing[pos := t])
      else Goto(s, t, PushLoad(v, s.tail))
    case PushReload(v) => Goto(s, t, PushLoad(v, s.tail))
    case PushWrite(v, pos) =>
      Goto(SetCell(s, pos, s.cells[Slot(s, pos)].(data := Some(v))), t, PushPublish(v, pos))
    case PushPublish(_, pos) =>
      Return(SetCell(s, pos, s.cells[Slot(s, pos)].(sequence := pos + 1)), t).(writing := s.writing - {pos})
    case _ => s
  }

  function AdvancePop<T>(s: State<T>, t: nat): State<T>
    requires |s.cells| > 0 && t in s.threads
  {
    match s.threads[t]
    case PopLoad(pos) =>
      var sequence := s.cells[Slot(s, pos)].sequence;
      if sequence == pos + 1 then Goto(s, t, PopCas(pos))
      else if sequence < pos + 1 then Return(s, t)      // pop returns nullopt
      else Goto(s, t, PopReload)
    case PopCas(pos) =>
      if s.head == pos then
        Goto(s, t, PopMove(pos)).(head := pos + 1, reading := s.reading[pos := t])
      else Goto(s, t, PopLoad(s.head))
    case PopReload => Goto(s, t, PopLoad(s.head))
    case PopMove(pos) =>
      var c := s.cells[Slot(s, pos)];
      Goto(SetCell(s, pos, c.(data := None)), t, PopRelease(pos, c.data))
    case PopRelease(pos, d) =>
      var mask := |s.cells| - 1;
      Return(SetCell(s, pos, s.cells[Slot(s, pos)].(sequence := pos + mask + 1)), t)
        .(reading := s.reading - {pos}, popped := s.popped + [Returned(pos, d)])
    case _ => s
  }

  predicate IsPush<T>(pc: Pc<T>) {
    pc.PushLoad? || pc.PushCas? || pc.PushReload? || pc.PushWrite? || pc.PushPublish?
  }

  function Next<T>(s: State<T>, step: Step<T>): State<T>
    requires |s.cells| > 0 && Enabled(s, step)
  {
    match step
    case CallPush(t, v) => Goto(s, t, PushLoad(v, s.tail))
    case CallPop(t) => Goto(s, t, PopLoad(s.head))
    case Advance(t) => if IsPush(s.threads[t]) then AdvancePush(s, t) else AdvancePop(s, t)
    case CasFailsSpuriously(t) =>
      if s.threads[t].PushCas? then Goto(s, t, PushLoad(s.threads[t].value, s.tail))
      else Goto(s, t, PopLoad(s.head))
  }

  // ---------------------------------------------------------------- runs

  ghost predicate Legal<T>(s: State<T>, steps: seq<Step<T>>)
    requires |s.cells| > 0
    decreases |steps|
  {
    steps == [] || (Enabled(s, steps[0]) && |Next(s, steps[0]).cells| > 0 && Legal(Next(s, steps[0]), steps[1..]))
  }

  ghost function Final<T>(s: State<T>, steps: seq<Step<T>>): State<T>
    requires |s.cells| > 0 && Legal(s, steps)
    decreases |steps|
  {
    if steps == [] then s else Final(Next(s, steps[0]), steps[1..])
  }

  // ---------------------------------------------------------------- invariant

  /** The cell that position p >= tail will use: free, or still busy with position p - capacity. */
  ghost predicate SlotOk<T>(s: State<T>, p: nat)
    requires |s.cells| > 0 && |s.pushed| == s.tail
  {
    var n := |s.cells|;
    var c := s.cells[Slot(s, p)];
    || (c.sequence == p && (n <= p ==> p - n < s.head && p - n !in s.reading && p - n !in s.writing))
    || (n <= p && c.sequence == p - n && p - n in s.writing && s.head <= p - n)
    || (n <= p && c.sequence == p - n + 1 && p - n !in s.writing && p - n < s.tail &&
        (if p - n in s.reading then p - n < s.head else s.head <= p - n && c.data == Some(s.pushed[p - n])))
  }

  ghost predicate WriterOk<T>(s: State<T>, q: nat)
    requires |s.cells| > 0 && |s.pushed| == s.tail && q in s.writing
  {
    var t := s.writing[q];
    var c := s.cells[Slot(s, q)];
    && s.head <= q < s.tail <= q + |s.cells|
    && t in s.threads
    && c.sequence == q
    && match s.threads[t] {
         case PushWrite(v, pos) => pos == q && v == s.pushed[q]
         case PushPublish(v, pos) => pos == q && v == s.pushed[q] && c.data == Some(v)
         case _ => false
       }
  }

  ghost predicate ReaderOk<T>(s: State<T>, q: nat)
    requires |s.cells| > 0 && |s.pushed| == s.tail && q in s.reading
  {
    var t := s.reading[q];
    var c := s.cells[Slot(s, q)];
    && q < s.head <= s.tail <= q + |s.cells|
    && t in s.threads
    && c.sequence == q + 1
    && match s.threads[t] {
         case PopMove(pos) => pos == q && c.data == Some(s.pushed[q])
         case PopRelease(pos, d) => pos == q && d == Some(s.pushed[q])
         case _ => false
       }
  }

  ghost predicate ThreadOk<T>(s: State<T>, t: nat)
    requires |s.cells| > 0 && |s.pushed| == s.tail && t in s.threads
  {
    match s.threads[t]
    case PushLoad(_, pos) => pos <= s.tail
    case PushCas(_, pos) => pos <= s.tail && (pos == s.tail ==> s.cells[Slot(s, pos)].sequence == pos)
    case PushReload(_) => true
    case PushWrite(_, pos) => pos in s.writing && s.writing[pos] == t
    case PushPublish(_, pos) => pos in s.writing && s.writing[pos] == t
    case PopLoad(pos) => pos <= s.head
    case PopCas(pos) => pos <= s.head && (pos == s.head ==> s.cells[Slot(s, pos)].sequence == pos + 1)
    case PopReload => true
    case PopMove(pos) => pos in s.reading && s.reading[pos] == t
    case PopRelease(pos, _) => pos in s.reading && s.reading[pos] == t
  }

  /** What callers of pop got: each position once, with the value pushed there. */
  ghost predicate PoppedOk<T>(s: State<T>)
    requires |s.pushed| == s.tail
  {
    PopsOk(s.popped, s.pushed, s.head, s.tail, s.reading)
  }

  ghost predicate Shape<T>(s: State<T>) {
    |s.cells| >= 2 && |s.pushed| == s.tail && s.head <= s.tail <= s.head + |s.cells|
  }

  ghost predicate SlotsOk<T>(s: State<T>) requires Shape(s) {
    forall p :: s.tail <= p < s.tail + |s.cells| ==> SlotOk(s, p)
  }

  ghost predicate WritersOk<T>(s: State<T>) requires Shape(s) {
    forall q :: q in s.writing ==> WriterOk(s, q)
  }

  ghost predicate ReadersOk<T>(s: State<T>) requires Shape(s) {
    forall q :: q in s.reading ==> ReaderOk(s, q)
  }

  ghost predicate ThreadsOk<T>(s: State<T>) requires Shape(s) {
    forall t :: t in s.threads ==> ThreadOk(s, t)
  }

  ghost predicate Inv<T>(s: State<T>) {
    Shape(s) && SlotsOk(s) && WritersOk(s) && ReadersOk(s) && ThreadsOk(s) && PoppedOk(s)
  }

  // ---------------------------------------------------------------- slot arithmetic

  lemma {:induction false} WrapDistinct(n: nat, p: nat, q: nat)
    requires n > 0 && p < q < p + n
    ensures Wrap(n, p) != Wrap(n, q)
    decreases q
  {
    if n <= p { WrapDistinct(n, p - n, q - n); }
  }

  // ---------------------------------------------------------------- every step keeps the invariant

  lemma InitInv<T>(capacity: nat)
    requires capacity >= 2
    ensures Inv(Init<T>(capacity))
  {
    var s := Init<T>(capacity);
    forall p | s.tail <= p < s.tail + capacity ensures SlotOk(s, p) {
      assert Wrap(capacity, p) == p;
    }
  }

  /** A step that changes no shared variable keeps what is said about them. */
  lemma SharedKept<T>(s: State<T>, s': State<T>)
    requires Shape(s) && SlotsOk(s) && PoppedOk(s) && s' == s.(threads := s'.threads)
    ensures Shape(s') && SlotsOk(s') && PoppedOk(s')
  {
    forall p | s'.tail <= p < s'.tail + |s'.cells| ensures SlotOk(s', p) { assert SlotOk(s, p); }
  }

  /** The other threads' steps are not theirs to notice. */
  lemma OthersKept<T>(s: State<T>, s': State<T>, t: nat)
    requires Shape(s) && ThreadsOk(s) && s' == s.(threads := s'.threads)
    requires forall u :: u in s'.threads && u != t ==> u in s.threads && s'.threads[u] == s.threads[u]
    requires t in s'.threads ==> ThreadOk(s', t)
    ensures ThreadsOk(s')
  {
    forall u | u in s'.threads ensures ThreadOk(s', u) { if u != t { assert ThreadOk(s, u); } }
  }

  /** A thread that is not between its CAS and its sequence store holds no cell. */
  lemma HoldersKept<T>(s: State<T>, s': State<T>, t: nat)
    requires Shape(s) && WritersOk(s) && ReadersOk(s) && s' == s.(threads := s'.threads)
    requires t in s.threads ==> !InSection(s.threads[t])
    requires forall u :: u in s.threads && u != t ==> u in s'.threads && s'.threads[u] == s.threads[u]
    ensures WritersOk(s') && ReadersOk(s')
  {
    forall q | q in s'.writing ensures WriterOk(s', q) {
      assert WriterOk(s, q);
      HolderKept(s, s', t, q);
    }
    forall q | q in s'.reading ensures ReaderOk(s', q) {
      assert ReaderOk(s, q);
      HolderKept(s, s', t, q);
    }
  }

  lemma HolderKept<T>(s: State<T>, s': State<T>, t: nat, q: nat)
    requires Shape(s) && s' == s.(threads := s'.threads) && (t in s.threads ==> !InSection(s.threads[t]))
    requires forall u :: u in s.threads && u != t ==> u in s'.threads && s'.threads[u] == s.threads[u]
    ensures q in s.writing && WriterOk(s, q) ==> WriterOk(s', q)
    ensures q in s.reading && ReaderOk(s, q) ==> ReaderOk(s', q)
  {
  }

  /** A thread's move inside its retry loop touches no shared variable. */
  lemma LocalMoveInv<T>(s: State<T>, t: nat, pc: Pc<T>)
    requires Inv(s) && (t in s.threads ==> !InSection(s.threads[t])) && !InSection(pc) && ThreadOk(Goto(s, t, pc), t)
    ensures Inv(Goto(s, t, pc))
  {
    var s' := Goto(s, t, pc);
    SharedKept(s, s');
    OthersKept(s, s', t);
    HoldersKept(s, s', t);
  }

  lemma FailedReturnInv<T>(s: State<T>, t: nat)
    requires Inv(s) && t in s.threads && !InSection(s.threads[t])
    ensures Inv(Return(s, t))
  {
    var s' := Return(s, t);
    SharedKept(s, s');
    OthersKept(s, s', t);
    HoldersKept(s, s', t);
  }

  /** A cell is free for position tail only when the previous lap is over with it. */
  lemma FreeSlot<T>(s: State<T>, q: nat)
    requires Inv(s) && s.cells[Slot(s, s.tail)].sequence == s.tail
    requires q in s.writing || q in s.reading
    ensures s.tail < q + |s.cells|
  {
    assert SlotOk(s, s.tail);
    if q in s.writing { assert WriterOk(s, q); } else { assert ReaderOk(s, q); }
  }

  ghost predicate Claiming<T>(s: State<T>, t: nat) {
    Inv(s) && t in s.threads && s.threads[t].PushCas? && s.threads[t].pos == s.tail
  }

  lemma PushClaimSlot<T>(s: State<T>, t: nat, p: nat)
    requires Claiming(s, t) && s.tail < p <= s.tail + |s.cells|
    ensures var s' := AdvancePush(s, t); Shape(s') && SlotOk(s', p)
  {
    assert ThreadOk(s, t) && SlotOk(s, s.tail);
    if p == s.tail + |s.cells| {
      assert Slot(s, p) == Slot(s, s.tail);
      ClaimedSlot(s, t, p);
    } else {
      assert SlotOk(s, p);
      UnclaimedSlot(s, t, p);
    }
  }

  /** The thread's next step is to claim the tail. */
  ghost predicate Wins<T>(s: State<T>, t: nat) {
    t in s.threads && s.threads[t].PushCas? && s.threads[t].pos == s.tail
  }

  lemma ClaimedSlot<T>(s: State<T>, t: nat, p: nat)
    requires Shape(s) && Wins(s, t) && p == s.tail + |s.cells| && Slot(s, p) == Slot(s, s.tail)
    requires s.cells[Slot(s, s.tail)].sequence == s.tail && s.tail < s.head + |s.cells|
    ensures var s' := AdvancePush(s, t); Shape(s') && SlotOk(s', p)
  {
  }

  lemma UnclaimedSlot<T>(s: State<T>, t: nat, p: nat)
    requires Shape(s) && Wins(s, t) && s.tail < p < s.tail + |s.cells| && SlotOk(s, p) && s.tail < s.head + |s.cells|
    ensures var s' := AdvancePush(s, t); Shape(s') && SlotOk(s', p)
  {
  }

  lemma PushClaimHolder<T>(s: State<T>, t: nat, q: nat)
    requires Claiming(s, t)
    ensures var s' := AdvancePush(s, t); Shape(s') && (q in s'.writing ==> WriterOk(s', q)) && (q in s'.reading ==> ReaderOk(s', q))
  {
    assert ThreadOk(s, t) && SlotOk(s, s.tail);
    if q in s.writing { assert WriterOk(s, q); FreeSlot(s, q); }
    if q in s.reading { assert ReaderOk(s, q); FreeSlot(s, q); }
  }

  lemma PushClaimInv<T>(s: State<T>, t: nat)
    requires Claiming(s, t)
    ensures Inv(AdvancePush(s, t))
  {
    var s' := AdvancePush(s, t);
    PushClaimHolder(s, t, s.tail);
    forall p | s'.tail <= p < s'.tail + |s'.cells| ensures SlotOk(s', p) { PushClaimSlot(s, t, p); }
    forall q | q in s'.writing ensures WriterOk(s', q) { PushClaimHolder(s, t, q); }
    forall q | q in s'.reading ensures ReaderOk(s', q) { PushClaimHolder(s, t, q); }
    forall u | u in s'.threads ensures ThreadOk(s', u) { if u != t { assert ThreadOk(s, u); } }
  }

  // ---- pop claims a position

  ghost predicate Taking<T>(s: State<T>, t: nat) {
    Inv(s) && t in s.threads && s.threads[t].PopCas? && s.threads[t].pos == s.head
  }

  /** Seeing sequence == head + 1 means position head is published and nobody holds it. */
  lemma HeadPublished<T>(s: State<T>)
    requires Inv(s) && s.cells[Slot(s, s.head)].sequence == s.head + 1
    ensures s.head < s.tail && s.head !in s.writing && s.head !in s.reading
    ensures s.cells[Slot(s, s.head)].data == Some(s.pushed[s.head])
  {
    var p := if s.head == s.tail then s.head else s.head + |s.cells|;
    assert Slot(s, p) == Slot(s, s.head) && SlotOk(s, p);
    assert forall q :: q in s.reading ==> q < s.head by {
      forall q | q in s.reading ensures q < s.head { assert ReaderOk(s, q); }
    }
  }

  lemma PopClaimHolder<T>(s: State<T>, t: nat, q: nat)
    requires Shape(s) && t in s.threads && s.threads[t] == PopCas(s.head) && s.head < s.tail
    requires s.head !in s.writing && s.head !in s.reading
    requires s.cells[Slot(s, s.head)] == Cell(s.head + 1, Some(s.pushed[s.head]))
    requires (q in s.writing ==> WriterOk(s, q)) && (q in s.reading ==> ReaderOk(s, q))
    ensures var s' := AdvancePop(s, t); Shape(s') && (q in s'.writing ==> WriterOk(s', q)) && (q in s'.reading ==> ReaderOk(s', q))
  {
  }

  lemma PopClaimSlot<T>(s: State<T>, t: nat, p: nat)
    requires Shape(s) && t in s.threads && s.threads[t] == PopCas(s.head) && s.head < s.tail
    requires s.head !in s.writing && SlotOk(s, p)
    ensures var s' := AdvancePop(s, t); Shape(s') && SlotOk(s', p)
  {
  }

  lemma PopClaimPopped<T>(s: State<T>, t: nat)
    requires Shape(s) && t in s.threads && s.threads[t] == PopCas(s.head) && s.head < s.tail
    requires s.head !in s.reading && PoppedOk(s)
    ensures var s' := AdvancePop(s, t); Shape(s') && PoppedOk(s')
  {
    assert s.reading[s.head := t].Keys == s.reading.Keys + {s.head};
  }

  lemma PopClaimThread<T>(s: State<T>, t: nat, u: nat)
    requires Shape(s) && t in s.threads && s.threads[t] == PopCas(s.head) && s.head < s.tail
    requires s.head !in s.reading
    requires u in s.threads && ThreadOk(s, u)
    ensures var s' := AdvancePop(s, t); Shape(s') && ThreadOk(s', u)
  {
  }

  lemma PopClaimInv<T>(s: State<T>, t: nat)
    requires Taking(s, t)
    ensures Inv(AdvancePop(s, t))
  {
    var s' := AdvancePop(s, t);
    assert ThreadOk(s, t);
    HeadPublished(s);
    PopClaimPopped(s, t);
    forall p | s'.tail <= p < s'.tail + |s'.cells| ensures SlotOk(s', p) { PopClaimSlot(s, t, p); }
    forall q | q in s'.writing ensures WriterOk(s', q) { PopClaimHolder(s, t, q); }
    forall q | q in s'.reading ensures ReaderOk(s', q) { PopClaimHolder(s, t, q); }
    forall u | u in s'.threads ensures ThreadOk(s', u) { PopClaimThread(s, t, u); }
  }

  // ---- the owner of a position works on its cell

  /** The cell of a held position serves no other position of the current laps. */
  lemma OwnCell<T>(s: State<T>, pos: nat, p: nat)
    requires |s.cells| > 0 && pos < s.tail <= pos + |s.cells|
    requires s.tail <= p + |s.cells| && p < s.tail + |s.cells|
    ensures Slot(s, pos) == Slot(s, p) <==> p == pos || p == pos + |s.cells|
  {
    var n := |s.cells|;
    assert Wrap(n, pos + n) == Wrap(n, pos);
    if p < pos { WrapDistinct(n, p, pos); }
    else if pos < p < pos + n { WrapDistinct(n, pos, p); }
    else if pos + n < p { WrapDistinct(n, pos + n, p); }
  }

  /** Thread t is between its CAS and its sequence store, with the invariant's facts about its position. */
  ghost predicate Owns<T>(s: State<T>, t: nat)
    requires Shape(s)
  {
    && t in s.threads
    && match s.threads[t] {
         case PushWrite(_, pos) => pos in s.writing && pos !in s.reading && WriterOk(s, pos) && s.writing[pos] == t
         case PushPublish(_, pos) => pos in s.writing && pos !in s.reading && WriterOk(s, pos) && s.writing[pos] == t
         case PopMove(pos) => pos in s.reading && pos !in s.writing && ReaderOk(s, pos) && s.reading[pos] == t
         case PopRelease(pos, _) => pos in s.reading && pos !in s.writing && ReaderOk(s, pos) && s.reading[pos] == t
         case _ => false
       }
  }

  ghost predicate InSection<T>(pc: Pc<T>) {
    pc.PushWrite? || pc.PushPublish? || pc.PopMove? || pc.PopRelease?
  }

  lemma OwnerFacts<T>(s: State<T>, t: nat)
    requires Inv(s) && t in s.threads && InSection(s.threads[t])
    ensures Owns(s, t)
  {
    assert ThreadOk(s, t);
    var pos := s.threads[t].pos;
    assert pos in s.writing ==> WriterOk(s, pos);
    assert pos in s.reading ==> ReaderOk(s, pos);
  }

  lemma OwnerSlot<T>(s: State<T>, t: nat, p: nat)
    requires Shape(s) && Owns(s, t) && s.tail <= p < s.tail + |s.cells| && SlotOk(s, p)
    ensures var s' := Next(s, Advance(t)); Shape(s') && SlotOk(s', p)
  {
    OwnCell(s, s.threads[t].pos, p);
  }

  lemma OwnerHolder<T>(s: State<T>, t: nat, q: nat)
    requires Shape(s) && Owns(s, t)
    requires (q in s.writing ==> WriterOk(s, q)) && (q in s.reading ==> ReaderOk(s, q))
    ensures var s' := Next(s, Advance(t)); Shape(s') && (q in s'.writing ==> WriterOk(s', q)) && (q in s'.reading ==> ReaderOk(s', q))
  {
    if q in s.writing || q in s.reading { OwnCell(s, s.threads[t].pos, q); }
  }

  lemma OwnerThread<T>(s: State<T>, t: nat, u: nat)
    requires Shape(s) && Owns(s, t) && u in s.threads && ThreadOk(s, u)
    ensures var s' := Next(s, Advance(t)); Shape(s') && (u in s'.threads ==> ThreadOk(s', u))
  {
    OwnCell(s, s.threads[t].pos, s.tail);
    OwnCell(s, s.threads[t].pos, s.head);
  }

  lemma OwnerPopped<T>(s: State<T>, t: nat)
    requires Shape(s) && Owns(s, t) && PoppedOk(s)
    ensures var s' := Next(s, Advance(t)); Shape(s') && PoppedOk(s')
  {
    if s.threads[t].PopRelease? {
      PoppedMore(s.popped, s.pushed, s.head, s.tail, s.reading, s.threads[t].pos, s.threads[t].data);
    }
  }

  ghost predicate PopsOk<T>(popped: seq<Returned<T>>, pushed: seq<T>, head: nat, tail: nat, reading: map<nat, nat>)
    requires |pushed| == tail
  {
    && (forall i :: 0 <= i < |popped| ==>
          popped[i].pos < head <= tail && popped[i].pos !in reading && popped[i].data == Some(pushed[popped[i].pos]))
    && (forall i, j :: 0 <= i < j < |popped| ==> popped[i].pos != popped[j].pos)
    && |popped| + |reading| == head
  }

  lemma PoppedMore<T>(popped: seq<Returned<T>>, pushed: seq<T>, head: nat, tail: nat, reading: map<nat, nat>, pos: nat, data: Option<T>)
    requires |pushed| == tail && PopsOk(popped, pushed, head, tail, reading)
    requires pos in reading && pos < head <= tail && data == Some(pushed[pos])
    ensures PopsOk(popped + [Returned(pos, data)], pushed, head, tail, reading - {pos})
  {
    assert reading.Keys == (reading - {pos}).Keys + {pos};
  }

  lemma OwnerInv<T>(s: State<T>, t: nat)
    requires Inv(s) && t in s.threads && InSection(s.threads[t])
    ensures Inv(Next(s, Advance(t)))
  {
    var s' := Next(s, Advance(t));
    OwnerFacts(s, t);
    OwnerPopped(s, t);
    forall p | s'.tail <= p < s'.tail + |s'.cells| ensures SlotOk(s', p) { OwnerSlot(s, t, p); }
    forall q | q in s'.writing ensures WriterOk(s', q) { OwnerHolder(s, t, q); }
    forall q | q in s'.reading ensures ReaderOk(s', q) { OwnerHolder(s, t, q); }
    forall u | u in s'.threads ensures ThreadOk(s', u) { OwnerThread(s, t, u); }
  }

  lemma StepInv<T>(s: State<T>, step: Step<T>)
    requires Inv(s) && Enabled(s, step)
    ensures Inv(Next(s, step))
  {
    match step
    case CallPush(t, v) => LocalMoveInv(s, t, PushLoad(v, s.tail));
    case CallPop(t) => LocalMoveInv(s, t, PopLoad(s.head));
    case CasFailsSpuriously(t) =>
      if s.threads[t].PushCas? { LocalMoveInv(s, t, PushLoad(s.threads[t].value, s.tail)); }
      else { LocalMoveInv(s, t, PopLoad(s.head)); }
    case Advance(t) =>
      if s.threads[t].PushPublish? || s.threads[t].PushWrite? || s.threads[t].PopMove? || s.threads[t].PopRelease? { OwnerInv(s, t); }
      else if IsPush(s.threads[t]) { PushStepInv(s, t); }
      else { PopStepInv(s, t); }
  }

  lemma PushStepInv<T>(s: State<T>, t: nat)
    requires Inv(s) && t in s.threads && (s.threads[t].PushLoad? || s.threads[t].PushCas? || s.threads[t].PushReload?)
    ensures Inv(AdvancePush(s, t))
  {
    assert ThreadOk(s, t);
    match s.threads[t]
    case PushLoad(v, pos) =>
      var sequence := s.cells[Slot(s, pos)].sequence;
      if sequence == pos { LocalMoveInv(s, t, PushCas(v, pos)); }
      else if sequence < pos { FailedReturnInv(s, t); }
      else { LocalMoveInv(s, t, PushReload(v)); }
    case PushCas(v, pos) =>
      if s.tail == pos { PushClaimInv(s, t); } else { LocalMoveInv(s, t, PushLoad(v, s.tail)); }
    case PushReload(v) => LocalMoveInv(s, t, PushLoad(v, s.tail));
  }

  lemma PopStepInv<T>(s: State<T>, t: nat)
    requires Inv(s) && t in s.threads && (s.threads[t].PopLoad? || s.threads[t].PopCas? || s.threads[t].PopReload?)
    ensures Inv(AdvancePop(s, t))
  {
    assert ThreadOk(s, t);
    match s.threads[t]
    case PopLoad(pos) =>
      var sequence := s.cells[Slot(s, pos)].sequence;
      if sequence == pos + 1 { LocalMoveInv(s, t, PopCas(pos)); }
      else if sequence < pos + 1 { FailedReturnInv(s, t); }
      else { LocalMoveInv(s, t, PopReload); }
    case PopCas(pos) =>
      if s.head == pos { PopClaimInv(s, t); } else { LocalMoveInv(s, t, PopLoad(s.head)); }
    case PopReload => LocalMoveInv(s, t, PopLoad(s.head));
  }

  lemma CellsStay<T>(s: State<T>, step: Step<T>)
    requires |s.cells| > 0 && Enabled(s, step)
    ensures |Next(s, step).cells| == |s.cells|
  {
  }

  lemma {:induction false} RunInv<T>(s: State<T>, steps: seq<Step<T>>)
    requires Inv(s) && Legal(s, steps)
    ensures Inv(Final(s, steps)) && |Final(s, steps).cells| == |s.cells|
    decreases |steps|
  {
    if steps != [] {
      StepInv(s, steps[0]);
      CellsStay(s, steps[0]);
      RunInv(Next(s, steps[0]), steps[1..]);
    }
  }

  // ---------------------------------------------------------------- main results

  /** Has the pop of position q not yet handed its cell on to the next lap? */
  ghost predicate Unreleased<T>(s: State<T>, q: int) {
    q >= 0 && (s.head <= q || q in s.reading)
  }

  /** Has some push stored sequence = q + 1 for position q? */
  ghost predicate Published<T>(s: State<T>, q: nat) {
    q < s.tail && q !in s.writing
  }

  /** The contents in FIFO order: claimed by a push, not yet claimed by a pop. */
  ghost function Queue<T>(s: State<T>): seq<T>
    requires s.head <= s.tail == |s.pushed|
  {
    s.pushed[s.head..]
  }

  /** What a run has delivered is right: the safety statement about a reachable state. */
  ghost predicate Fifo<T>(s: State<T>) {
    && |s.pushed| == s.tail
    && s.head <= s.tail <= s.head + |s.cells|
    && (forall i :: 0 <= i < |s.popped| ==>
          s.popped[i].pos < s.head && s.popped[i].data == Some(s.pushed[s.popped[i].pos]))
    && (forall i, j :: 0 <= i < j < |s.popped| ==> s.popped[i].pos != s.popped[j].pos)
    && |s.popped| + |s.reading| == s.head
  }

  ghost predicate Reachable<T(!new)>(capacity: nat, s: State<T>)
    requires capacity > 0
  {
    exists steps: seq<Step<T>> :: Legal(Init<T>(capacity), steps) && Final(Init<T>(capacity), steps) == s
  }

  lemma ReachableInv<T(!new)>(capacity: nat, s: State<T>)
    requires capacity >= 2 && Reachable(capacity, s)
    ensures Inv(s) && |s.cells| == capacity
  {
    var steps: seq<Step<T>> :| Legal(Init<T>(capacity), steps) && Final(Init<T>(capacity), steps) == s;
    InitInv<T>(capacity);
    RunInv(Init<T>(capacity), steps);
  }

  /** Every interleaving delivers each pushed value at most once, at its own position, within capacity. */
  lemma DeliversFifo<T(!new)>(capacity: nat, s: State<T>)
    requires capacity >= 2 && Reachable(capacity, s)
    ensures Fifo(s) && |s.cells| == capacity
  {
    ReachableInv(capacity, s);
  }

  lemma HoldersInFlight<T>(s: State<T>)
    requires Inv(s)
    ensures forall q :: q in s.reading ==> s.reading[q] in s.threads
    ensures forall q :: q in s.writing ==> s.writing[q] in s.threads
  {
    forall q | q in s.reading ensures s.reading[q] in s.threads { assert ReaderOk(s, q); }
    forall q | q in s.writing ensures s.writing[q] in s.threads { assert WriterOk(s, q); }
  }

  /** When no call is in flight nothing is lost: the rest of the queue lies published in its cells. */
  lemma QuiescentNothingLost<T(!new)>(capacity: nat, s: State<T>)
    requires capacity >= 2 && Reachable(capacity, s) && s.threads == map[]
    ensures Fifo(s) && |s.popped| == s.head
    ensures |s.cells| == capacity && forall q :: s.head <= q < s.tail ==> s.cells[Slot(s, q)] == Cell(q + 1, Some(s.pushed[q]))
  {
    ReachableInv(capacity, s);
    HoldersInFlight(s);
    assert s.reading == map[] && s.writing == map[];
    forall q | s.head <= q < s.tail ensures s.cells[Slot(s, q)] == Cell(q + 1, Some(s.pushed[q])) {
      assert Slot(s, q + |s.cells|) == Slot(s, q) && SlotOk(s, q + |s.cells|);
    }
  }

  ghost predicate WinsPush<T>(s: State<T>, step: Step<T>) requires Enabled(s, step) {
    step.Advance? && s.threads[step.t].PushCas? && s.threads[step.t].pos == s.tail
  }

  ghost predicate WinsPop<T>(s: State<T>, step: Step<T>) requires Enabled(s, step) {
    step.Advance? && s.threads[step.t].PopCas? && s.threads[step.t].pos == s.head
  }

  lemma WinningCas<T>(s: State<T>, step: Step<T>)
    requires Inv(s) && Enabled(s, step)
    ensures WinsPush(s, step) ==> s.tail < s.head + |s.cells|
    ensures WinsPop(s, step) ==> s.head < s.tail
  {
    if step.Advance? {
      assert ThreadOk(s, step.t);
      if WinsPush(s, step) { assert SlotOk(s, s.tail); }
      if WinsPop(s, step) { HeadPublished(s); }
    }
  }

  lemma PositionsAfter<T>(s: State<T>, step: Step<T>)
    requires |s.cells| > 0 && Enabled(s, step)
    ensures var s' := Next(s, step);
            (s'.head == if WinsPop(s, step) then s.head + 1 else s.head) &&
            (s'.tail == if WinsPush(s, step) then s.tail + 1 else s.tail) &&
            (s'.pushed == if WinsPush(s, step) then s.pushed + [s.threads[step.t].value] else s.pushed)
  {
    if step.Advance? {
      PositionsAfterPush(s, step.t);
      PositionsAfterPop(s, step.t);
    }
  }

  lemma PositionsAfterPush<T>(s: State<T>, t: nat)
    requires |s.cells| > 0 && t in s.threads
    ensures var s', wins := AdvancePush(s, t), s.threads[t].PushCas? && s.threads[t].pos == s.tail;
            s'.head == s.head && (s'.tail == if wins then s.tail + 1 else s.tail) &&
            (s'.pushed == if wins then s.pushed + [s.threads[t].value] else s.pushed)
  {
  }

  lemma PositionsAfterPop<T>(s: State<T>, t: nat)
    requires |s.cells| > 0 && t in s.threads
    ensures var s' := AdvancePop(s, t);
            s'.tail == s.tail && s'.pushed == s.pushed &&
            (s'.head == if s.threads[t].PopCas? && s.threads[t].pos == s.head then s.head + 1 else s.head)
  {
  }

  lemma QueueAfter<T>(s: State<T>, step: Step<T>)
    requires Shape(s) && Enabled(s, step)
    requires WinsPop(s, step) ==> s.head < s.tail
    ensures var s' := Next(s, step);
            s'.head <= s'.tail == |s'.pushed| &&
            Queue(s') == if WinsPush(s, step) then Queue(s) + [s.threads[step.t].value]
            else if WinsPop(s, step) then Queue(s)[1..] else Queue(s)
  {
    PositionsAfter(s, step);
  }

  /** A winning push CAS appends to a queue that has room, a winning pop CAS takes the front; nothing else changes it. */
  lemma RefinesBoundedQueue<T(!new)>(capacity: nat, s: State<T>, step: Step<T>)
    requires capacity >= 2 && Reachable(capacity, s) && |s.cells| > 0 && Enabled(s, step)
    ensures Fifo(s) && Fifo(Next(s, step))
    ensures var s' := Next(s, step);
            (WinsPush(s, step) ==> |Queue(s)| < capacity && Queue(s') == Queue(s) + [s.threads[step.t].value]) &&
            (WinsPop(s, step) ==> |Queue(s)| > 0 && Queue(s') == Queue(s)[1..] && s.pushed[s.head] == Queue(s)[0]) &&
            (!WinsPush(s, step) && !WinsPop(s, step) ==> Queue(s') == Queue(s))
  {
    ReachableInv(capacity, s);
    WinningCas(s, step);
    QueueAfter(s, step);
    assert Fifo(Next(s, step)) by { StepInv(s, step); }
  }

  /** What a successful pop hands back is the front it took at its CAS, and it logs that position for the first time. */
  lemma PopReturnsItsValue<T(!new)>(capacity: nat, s: State<T>, t: nat)
    requires capacity >= 2 && Reachable(capacity, s) && t in s.threads && s.threads[t].PopRelease?
    ensures |s.cells| == capacity && s.threads[t].pos < |s.pushed|
    ensures Next(s, Advance(t)).popped == s.popped + [Returned(s.threads[t].pos, Some(s.pushed[s.threads[t].pos]))]
    ensures forall i :: 0 <= i < |s.popped| ==> s.popped[i].pos != s.threads[t].pos
  {
    ReachableInv(capacity, s);
    OwnerFacts(s, t);
  }

  /** push gives up exactly when its position is still the tail and the previous lap's pop has not released the cell. */
  lemma PushFailsExactlyWhenFull<T(!new)>(capacity: nat, s: State<T>, t: nat)
    requires capacity >= 2 && Reachable(capacity, s) && t in s.threads && s.threads[t].PushLoad?
    ensures |s.cells| == capacity
    ensures t !in Next(s, Advance(t)).threads <==>
            s.threads[t].pos == s.tail && Unreleased(s, s.tail - capacity)
  {
    assert |s.cells| == capacity by { ReachableInv(capacity, s); }
    var pos := s.threads[t].pos;
    assert s.cells[Slot(s, pos)].sequence < pos <==> pos == s.tail && Unreleased(s, s.tail - capacity) by {
      ReachableInv(capacity, s);
      PushBehind(s, t);
    }
    PushGivesUp(s, t);
  }

  lemma PushBehind<T>(s: State<T>, t: nat)
    requires Inv(s) && t in s.threads && s.threads[t].PushLoad?
    ensures var pos := s.threads[t].pos;
            s.cells[Slot(s, pos)].sequence < pos <==> pos == s.tail && Unreleased(s, s.tail - |s.cells|)
  {
    assert ThreadOk(s, t);
    SequenceAtLeast(s, s.threads[t].pos);
    TailSlot(s);
  }

  lemma PopBehind<T>(s: State<T>, t: nat)
    requires Inv(s) && t in s.threads && s.threads[t].PopLoad?
    ensures var pos := s.threads[t].pos;
            s.cells[Slot(s, pos)].sequence < pos + 1 <==> pos == s.head && !Published(s, s.head)
  {
    assert ThreadOk(s, t);
    SequenceAtLeast(s, s.threads[t].pos);
    HeadSlot(s);
  }

  /** The cell at the tail is behind exactly when the pop of the previous lap has not released it. */
  lemma TailSlot<T>(s: State<T>)
    requires Inv(s)
    ensures s.cells[Slot(s, s.tail)].sequence < s.tail <==> Unreleased(s, s.tail - |s.cells|)
  {
    assert SlotOk(s, s.tail);
  }

  lemma PushGivesUp<T>(s: State<T>, t: nat)
    requires |s.cells| > 0 && t in s.threads && s.threads[t].PushLoad?
    ensures t !in Next(s, Advance(t)).threads <==> s.cells[Slot(s, s.threads[t].pos)].sequence < s.threads[t].pos
  {
  }

  lemma PopGivesUp<T>(s: State<T>, t: nat)
    requires |s.cells| > 0 && t in s.threads && s.threads[t].PopLoad?
    ensures t !in Next(s, Advance(t)).threads <==> s.cells[Slot(s, s.threads[t].pos)].sequence < s.threads[t].pos + 1
  {
  }

  /** pop gives up exactly when its position is still the head and that position is unpublished. */
  lemma PopFailsExactlyWhenEmpty<T(!new)>(capacity: nat, s: State<T>, t: nat)
    requires capacity >= 2 && Reachable(capacity, s) && t in s.threads && s.threads[t].PopLoad?
    ensures |s.cells| == capacity
    ensures t !in Next(s, Advance(t)).threads <==> s.threads[t].pos == s.head && !Published(s, s.head)
  {
    assert |s.cells| == capacity by { ReachableInv(capacity, s); }
    var pos := s.threads[t].pos;
    assert s.cells[Slot(s, pos)].sequence < pos + 1 <==> pos == s.head && !Published(s, s.head) by {
      ReachableInv(capacity, s);
      PopBehind(s, t);
    }
    PopGivesUp(s, t);
  }

  /** The cell at the head is behind exactly when its position is not published. */
  lemma HeadSlot<T>(s: State<T>)
    requires Inv(s)
    ensures s.cells[Slot(s, s.head)].sequence < s.head + 1 <==> !Published(s, s.head)
  {
    var p := if s.head == s.tail then s.head else s.head + |s.cells|;
    assert Slot(s, p) == Slot(s, s.head) && SlotOk(s, p);
  }

  lemma OwnersApart<T>(s: State<T>, t: nat, q: nat)
    requires Shape(s) && Owns(s, t)
    requires (q in s.writing && s.writing[q] != t && WriterOk(s, q)) || (q in s.reading && s.reading[q] != t && ReaderOk(s, q))
    ensures Slot(s, s.threads[t].pos) != Slot(s, q)
  {
    OwnCell(s, s.threads[t].pos, q);
  }

  /** Between a thread's CAS and its sequence store no other thread touches its cell. */
  lemma OnlyOwnerTouchesCell<T(!new)>(capacity: nat, s: State<T>, step: Step<T>, q: nat)
    requires capacity >= 2 && Reachable(capacity, s) && |s.cells| > 0 && Enabled(s, step)
    requires (q in s.writing && s.writing[q] != step.t) || (q in s.reading && s.reading[q] != step.t)
    ensures Next(s, step).cells[Slot(s, q)] == s.cells[Slot(s, q)]
  {
    ReachableInv(capacity, s);
    if step.Advance? && InSection(s.threads[step.t]) {
      OwnerFacts(s, step.t);
      OwnersApart(s, step.t, q);
    }
    CellsKept(s, step, Slot(s, q));
  }

  /** A step changes no cell but that of a thread between its CAS and its sequence store. */
  lemma CellsKept<T>(s: State<T>, step: Step<T>, i: nat)
    requires |s.cells| > 0 && Enabled(s, step) && i < |s.cells|
    requires step.Advance? && InSection(s.threads[step.t]) ==> Slot(s, s.threads[step.t].pos) != i
    ensures |Next(s, step).cells| == |s.cells| && Next(s, step).cells[i] == s.cells[i]
  {
  }

  /** A cell's sequence never falls behind a position already claimed by a push (or, by one more, by a pop). */
  lemma SequenceAtLeast<T>(s: State<T>, pos: nat)
    requires Inv(s)
    ensures pos < s.tail ==> pos <= s.cells[Slot(s, pos)].sequence
    ensures pos < s.head ==> pos < s.cells[Slot(s, pos)].sequence
  {
    if pos < s.tail {
      var p := NextUse(|s.cells|, pos, s.tail);
      assert SlotOk(s, p);
    }
  }

  /** The position at or above `bound`, within one lap, that uses the same cell as pos. */
  lemma {:induction false} NextUse(n: nat, pos: nat, bound: nat) returns (p: nat)
    requires n > 0 && pos < bound
    ensures bound <= p < bound + n && pos + n <= p && Wrap(n, p) == Wrap(n, pos)
    decreases bound - pos
  {
    assert Wrap(n, pos + n) == Wrap(n, pos);
    if bound <= pos + n { p := pos + n; } else { p := NextUse(n, pos + n, bound); }
  }

  // ---------------------------------------------------------------- the smallest capacity

  lemma {:induction false} AppendStep<T>(s: State<T>, steps: seq<Step<T>>, step: Step<T>)
    requires |s.cells| > 0 && Legal(s, steps)
    requires |Final(s, steps).cells| > 0 && Enabled(Final(s, steps), step)
    ensures Legal(s, steps + [step]) && Final(s, steps + [step]) == Next(Final(s, steps), step)
    decreases |steps|
  {
    if steps == [] {
      assert [step][1..] == [];
    } else {
      AppendStep(Next(s, steps[0]), steps[1..], step);
      assert (steps + [step])[1..] == steps[1..] + [step];
    }
  }

  /** The reachable states are closed under every enabled step. */
  lemma ReachableStep<T(!new)>(capacity: nat, s: State<T>, step: Step<T>)
    requires capacity > 0 && Reachable(capacity, s) && |s.cells| > 0 && Enabled(s, step)
    ensures Reachable(capacity, Next(s, step))
  {
    var steps: seq<Step<T>> :| Legal(Init<T>(capacity), steps) && Final(Init<T>(capacity), steps) == s;
    AppendStep(Init<T>(capacity), steps, step);
    assert Final(Init<T>(capacity), steps + [step]) == Next(s, step);
  }

  ghost predicate OneCellIdle<T>(s: State<T>) {
    |s.cells| == 1 && s.head == 0 && s.cells[0].sequence == s.tail && s.threads == map[]
  }

  lemma OneCellClaims<T(!new)>(s: State<T>, v: T) returns (s': State<T>)
    requires Reachable(1, s) && OneCellIdle(s)
    ensures Reachable(1, s') && s'.threads == map[0 := PushWrite(v, s.tail)]
    ensures s'.cells == s.cells && s'.head == 0 && s'.tail == s.tail + 1
  {
    s' := OneCellTries(s, v);
    ReachableStep(1, s', Advance(0));
    s' := Next(s', Advance(0));
  }

  /** The same thread up to its CAS. */
  lemma OneCellTries<T(!new)>(s: State<T>, v: T) returns (s': State<T>)
    requires Reachable(1, s) && OneCellIdle(s)
    ensures Reachable(1, s') && s' == s.(threads := map[0 := PushCas(v, s.tail)])
  {
    assert Slot(s, s.tail) == 0;
    ReachableStep(1, s, CallPush(0, v));
    s' := Next(s, CallPush(0, v));
    assert s' == s.(threads := map[0 := PushLoad(v, s.tail)]);
    ReachableStep(1, s', Advance(0));
    s' := Next(s', Advance(0));
  }

  lemma OneCellPublishes<T(!new)>(s: State<T>, v: T, pos: nat) returns (s': State<T>)
    requires Reachable(1, s) && |s.cells| == 1 && s.head == 0 && s.tail == pos + 1
    requires s.threads == map[0 := PushWrite(v, pos)]
    ensures Reachable(1, s') && OneCellIdle(s') && s'.tail == s.tail
  {
    ReachableStep(1, s, Advance(0));
    s' := Next(s, Advance(0));
    assert s'.threads == map[0 := PushPublish(v, pos)];
    ReachableStep(1, s', Advance(0));
    s' := Next(s', Advance(0));
  }

  /**
   With one cell "published" and "free for the next lap" are the same sequence number, so a
   second push overwrites the first.  nextPowerOfTwo yields one cell for requests 0 and 1.
   */
  lemma OneCellOverfills<T(!new)>(v: T)
    ensures exists s: State<T> :: Reachable(1, s) && !Fifo(s)
  {
    var s := Init<T>(1);
    assert Legal(s, []) && Final(s, []) == s;
    var s1 := OneCellClaims(s, v);
    var s2 := OneCellPublishes(s1, v, 0);
    var s3 := OneCellClaims(s2, v);
    assert !Fifo(s3);
  }

  /** The queue is a bounded FIFO in all its runs exactly when it has at least two cells. */
  lemma SafeExactlyFromTwoCells<T(!new)>(capacity: nat, v: T)
    requires capacity > 0
    ensures (forall s: State<T> :: Reachable(capacity, s) ==> Fifo(s)) <==> capacity >= 2
  {
    if capacity >= 2 {
      forall s: State<T> | Reachable(capacity, s) ensures Fifo(s) { DeliversFifo(capacity, s); }
    } else {
      OneCellOverfills(v);
    }
  }
}
