/**
 Progress of MPMCRingQueue (include/darwincore/foundation/container/RingQueue.h): whatever the other threads are
 in the middle of, a call that runs alone for six steps returns, and what it has done by then is one push or one pop.
 */
module RingProgress {
  import opened MpmcRingQueue

  /** The next k steps of a thread, until its call returns. */
  ghost function Alone<T>(s: State<T>, t: nat, k: nat): State<T>
    decreases k
  {
    if k == 0 || s.cells == [] || t !in s.threads then s else Alone(Next(s, Advance(t)), t, k - 1)
  }

  lemma {:induction false} AloneReachable<T(!new)>(capacity: nat, s: State<T>, t: nat, k: nat)
    requires capacity > 0 && Reachable(capacity, s)
    ensures Reachable(capacity, Alone(s, t, k))
    decreases k
  {
    if k > 0 && s.cells != [] && t in s.threads {
      ReachableStep(capacity, s, Advance(t));
      AloneReachable(capacity, Next(s, Advance(t)), t, k - 1);
    }
  }

  lemma StepOn<T>(s: State<T>, t: nat, k: nat, next: State<T>)
    requires s.cells != [] && t in s.threads && Next(s, Advance(t)) == next && k > 0
    ensures Alone(s, t, k) == Alone(next, t, k - 1)
  {
  }

  lemma Stays<T>(s: State<T>, t: nat, k: nat)
    requires t !in s.threads
    ensures Alone(s, t, k) == s
  {
  }

  /** The thread at another place, and nothing else changed. */
  lemma GotoTwice<T>(s: State<T>, t: nat, pc: Pc<T>, pc': Pc<T>)
    ensures Goto(Goto(s, t, pc), t, pc') == Goto(s, t, pc') && Return(Goto(s, t, pc), t) == Return(s, t)
  {
    assert s.threads[t := pc][t := pc'] == s.threads[t := pc'];
    assert s.threads[t := pc] - {t} == s.threads - {t};
  }

  // ---------------------------------------------------------------- push

  /** A push on its own: appended and published at the tail, unless the cell there is still in use. */
  ghost function Pushed<T>(s: State<T>, t: nat, v: T): State<T>
    requires s.cells != []
  {
    if Unreleased(s, s.tail - |s.cells|) then Return(s, t)
    else Return(SetCell(s, s.tail, Cell(s.tail + 1, Some(v))), t).(tail := s.tail + 1, pushed := s.pushed + [v])
  }

  /** The end of a push that has already claimed its position. */
  ghost function PublishedAt<T>(s: State<T>, t: nat, v: T, pos: nat): State<T>
    requires s.cells != []
  {
    Return(SetCell(s, pos, Cell(pos + 1, Some(v))), t).(writing := s.writing - {pos})
  }

  lemma PublishEnds<T>(s: State<T>, t: nat, v: T, pos: nat, k: nat)
    requires s.cells != [] && t in s.threads && s.threads[t] == PushPublish(v, pos) && s.cells[Slot(s, pos)].data == Some(v) && k >= 1
    ensures Alone(s, t, k) == PublishedAt(s, t, v, pos)
  {
    var end := PublishedAt(s, t, v, pos);
    StepOn(s, t, k, end);
    Stays(end, t, k - 1);
  }

  lemma Written<T>(s: State<T>, t: nat, v: T, pos: nat)
    requires s.cells != [] && t in s.threads && s.threads[t] == PushWrite(v, pos)
    ensures var w := Next(s, Advance(t)); |w.cells| == |s.cells| && PublishedAt(w, t, v, pos) == PublishedAt(s, t, v, pos)
  {
    var w := Next(s, Advance(t));
    assert w.cells[Slot(s, pos) := Cell(pos + 1, Some(v))] == s.cells[Slot(s, pos) := Cell(pos + 1, Some(v))];
    assert w.threads - {t} == s.threads - {t};
  }

  lemma WriteEnds<T>(s: State<T>, t: nat, v: T, pos: nat, k: nat)
    requires s.cells != [] && t in s.threads && s.threads[t] == PushWrite(v, pos) && k >= 2
    ensures Alone(s, t, k) == PublishedAt(s, t, v, pos)
  {
    var w := Next(s, Advance(t));
    StepOn(s, t, k, w);
    PublishEnds(w, t, v, pos, k - 1);
    Written(s, t, v, pos);
  }

  lemma WonPush<T>(s: State<T>, t: nat, v: T)
    requires s.cells != [] && t in s.threads && s.threads[t] == PushCas(v, s.tail)
    requires s.tail !in s.writing && !Unreleased(s, s.tail - |s.cells|)
    ensures var won := Next(s, Advance(t)); won.cells == s.cells && PublishedAt(won, t, v, s.tail) == Pushed(s, t, v)
  {
    assert s.writing[s.tail := t] - {s.tail} == s.writing;
    assert s.threads[t := PushWrite(v, s.tail)] - {t} == s.threads - {t};
  }

  lemma PushCasEnds<T>(s: State<T>, t: nat, v: T, k: nat)
    requires s.cells != [] && t in s.threads && s.threads[t] == PushCas(v, s.tail) && k >= 3
    requires s.tail !in s.writing && !Unreleased(s, s.tail - |s.cells|)
    ensures Alone(s, t, k) == Pushed(s, t, v)
  {
    var won := Next(s, Advance(t));
    StepOn(s, t, k, won);
    WriteEnds(won, t, v, s.tail, k - 1);
    WonPush(s, t, v);
  }

  /** What the cell at the tail says, and that nobody has claimed the tail. */
  ghost predicate TailTold<T>(s: State<T>) {
    && s.cells != [] && s.tail !in s.writing && s.cells[Slot(s, s.tail)].sequence <= s.tail
    && (!Unreleased(s, s.tail - |s.cells|) <==> s.cells[Slot(s, s.tail)].sequence == s.tail)
  }

  lemma TailUnclaimed<T>(s: State<T>)
    requires Inv(s)
    ensures s.tail !in s.writing
  {
    assert forall q :: q in s.writing ==> WriterOk(s, q);
  }

  lemma TailFree<T>(s: State<T>)
    requires Inv(s)
    ensures TailTold(s)
  {
    assert s.tail !in s.writing by { TailUnclaimed(s); }
    assert SlotOk(s, s.tail);
    TailSlot(s);
  }

  lemma PushLoadEnds<T>(s: State<T>, t: nat, v: T, k: nat)
    requires TailTold(s) && t in s.threads && s.threads[t] == PushLoad(v, s.tail) && k >= 4
    ensures Alone(s, t, k) == Pushed(s, t, v)
  {
    if Unreleased(s, s.tail - |s.cells|) {
      var end := Return(s, t);
      StepOn(s, t, k, end);
      Stays(end, t, k - 1);
    } else {
      var mid := Goto(s, t, PushCas(v, s.tail));
      StepOn(s, t, k, mid);
      PushCasEnds(mid, t, v, k - 1);
      PushedFrom(s, t, v, PushCas(v, s.tail));
    }
  }

  lemma PushedFrom<T>(s: State<T>, t: nat, v: T, pc: Pc<T>)
    requires s.cells != []
    ensures Pushed(Goto(s, t, pc), t, v) == Pushed(s, t, v)
  {
    assert s.threads[t := pc] - {t} == s.threads - {t};
  }

  /** The value that a push has not yet claimed a position for. */
  ghost predicate Seeks<T>(pc: Pc<T>, v: T) {
    (pc.PushLoad? || pc.PushCas? || pc.PushReload?) && pc.value == v
  }

  /** What a seeking push knows of its position. */
  ghost predicate SeekTold<T>(s: State<T>, t: nat)
    requires s.cells != [] && t in s.threads
  {
    match s.threads[t]
    case PushLoad(_, pos) => pos != s.tail ==> pos <= s.cells[Slot(s, pos)].sequence
    case PushCas(_, pos) => pos == s.tail ==> s.cells[Slot(s, pos)].sequence == pos
    case _ => true
  }

  lemma SeekFacts<T>(s: State<T>, t: nat)
    requires Inv(s) && t in s.threads
    ensures SeekTold(s, t)
  {
    assert ThreadOk(s, t);
    if s.threads[t].PushLoad? { SequenceAtLeast(s, s.threads[t].pos); }
  }

  /** Behind the tail, a push comes back to it in one or two steps. */
  lemma PushCatchesUp<T>(s: State<T>, t: nat, v: T, k: nat, end: State<T>)
    requires s.cells != [] && t in s.threads && Seeks(s.threads[t], v) && (s.threads[t].PushReload? || s.threads[t].pos != s.tail) && k >= 2
    requires SeekTold(s, t)
    requires var back := Goto(s, t, PushLoad(v, s.tail)); Alone(back, t, k - 1) == end && Alone(back, t, k - 2) == end
    ensures Alone(s, t, k) == end
  {
    var back := Goto(s, t, PushLoad(v, s.tail));
    if !s.threads[t].PushLoad? {
      StepOn(s, t, k, back);
    } else {
      var pos := s.threads[t].pos;
      var pc := if s.cells[Slot(s, pos)].sequence == pos then PushCas(v, pos) else PushReload(v);
      LoadLags(s, t, v, pos, pc);
      StepOn(s, t, k, Goto(s, t, pc));
      StepOn(Goto(s, t, pc), t, k - 1, back);
    }
  }

  /** The two steps of a push that loads a cell behind the tail. */
  lemma LoadLags<T>(s: State<T>, t: nat, v: T, pos: nat, pc: Pc<T>)
    requires s.cells != [] && t in s.threads && s.threads[t] == PushLoad(v, pos) && pos != s.tail && pos <= s.cells[Slot(s, pos)].sequence
    requires pc == if s.cells[Slot(s, pos)].sequence == pos then PushCas(v, pos) else PushReload(v)
    ensures Next(s, Advance(t)) == Goto(s, t, pc)
    ensures Next(Goto(s, t, pc), Advance(t)) == Goto(s, t, PushLoad(v, s.tail))
  {
    GotoTwice(s, t, pc, PushLoad(v, s.tail));
  }

  /**
   Obstruction freedom of push: from every reachable state a push that has not yet claimed a position returns
   within six steps of its own.  It fails, and changes nothing, exactly if the cell at the tail is still in use; otherwise its
   value is the last of the queue and published.
   */
  lemma SoloPush<T(!new)>(capacity: nat, s: State<T>, t: nat, v: T, k: nat)
    requires capacity >= 2 && Reachable(capacity, s) && t in s.threads && Seeks(s.threads[t], v) && k >= 6
    ensures |s.cells| == capacity && Alone(s, t, k) == Pushed(s, t, v)
  {
    ReachableInv(capacity, s);
    TailFree(s);
    SeekFacts(s, t);
    PushEnds(s, t, v, k);
  }

  lemma PushEnds<T>(s: State<T>, t: nat, v: T, k: nat)
    requires TailTold(s) && t in s.threads && SeekTold(s, t) && Seeks(s.threads[t], v) && k >= 6
    ensures Alone(s, t, k) == Pushed(s, t, v)
  {
    if s.threads[t] == PushLoad(v, s.tail) {
      PushLoadEnds(s, t, v, k);
    } else if s.threads[t] == PushCas(v, s.tail) {
      PushCasEnds(s, t, v, k);
    } else {
      PushLagsEnds(s, t, v, k);
    }
  }

  lemma PushLagsEnds<T>(s: State<T>, t: nat, v: T, k: nat)
    requires TailTold(s) && t in s.threads && SeekTold(s, t) && Seeks(s.threads[t], v) && k >= 6
    requires s.threads[t].PushReload? || s.threads[t].pos != s.tail
    ensures Alone(s, t, k) == Pushed(s, t, v)
  {
    PushFromTail(s, t, v, k - 1);
    PushFromTail(s, t, v, k - 2);
    PushCatchesUp(s, t, v, k, Pushed(s, t, v));
  }

  lemma PushFromTail<T>(s: State<T>, t: nat, v: T, k: nat)
    requires TailTold(s) && k >= 4
    ensures Alone(Goto(s, t, PushLoad(v, s.tail)), t, k) == Pushed(s, t, v)
  {
    PushLoadEnds(Goto(s, t, PushLoad(v, s.tail)), t, v, k);
    PushedFrom(s, t, v, PushLoad(v, s.tail));
  }

  /** A push that has claimed its position publishes its value there in two steps. */
  lemma SoloPublish<T(!new)>(capacity: nat, s: State<T>, t: nat, k: nat)
    requires capacity >= 2 && Reachable(capacity, s) && t in s.threads && (s.threads[t].PushWrite? || s.threads[t].PushPublish?) && k >= 2
    ensures |s.cells| == capacity && s.threads[t].pos < |s.pushed| && s.pushed[s.threads[t].pos] == s.threads[t].value
    ensures Alone(s, t, k) == PublishedAt(s, t, s.threads[t].value, s.threads[t].pos)
  {
    ReachableInv(capacity, s);
    var v, pos := s.threads[t].value, s.threads[t].pos;
    assert ThreadOk(s, t) && WriterOk(s, pos);
    if s.threads[t].PushWrite? { WriteEnds(s, t, v, pos, k); } else { PublishEnds(s, t, v, pos, k); }
  }

  // ---------------------------------------------------------------- pop

  /** A pop on its own: the front returned and its cell free for the next lap, unless the front is not published. */
  ghost function Popped<T>(s: State<T>, t: nat): State<T>
    requires s.cells != [] && |s.pushed| == s.tail
  {
    if !Published(s, s.head) then Return(s, t)
    else Return(SetCell(s, s.head, Cell(s.head + |s.cells|, None)), t)
           .(head := s.head + 1, popped := s.popped + [Returned(s.head, Some(s.pushed[s.head]))])
  }

  /** The end of a pop that has already claimed its position. */
  ghost function ReleasedAt<T>(s: State<T>, t: nat, pos: nat, data: Option<T>): State<T>
    requires s.cells != []
  {
    Return(SetCell(s, pos, Cell(pos + |s.cells|, None)), t)
      .(reading := s.reading - {pos}, popped := s.popped + [Returned(pos, data)])
  }

  lemma ReleaseEnds<T>(s: State<T>, t: nat, pos: nat, data: Option<T>, k: nat)
    requires s.cells != [] && t in s.threads && s.threads[t] == PopRelease(pos, data) && s.cells[Slot(s, pos)].data == None && k >= 1
    ensures Alone(s, t, k) == ReleasedAt(s, t, pos, data)
  {
    var end := ReleasedAt(s, t, pos, data);
    StepOn(s, t, k, end);
    Stays(end, t, k - 1);
  }

  lemma Moved<T>(s: State<T>, t: nat, pos: nat, data: Option<T>)
    requires s.cells != [] && t in s.threads && s.threads[t] == PopMove(pos)
    ensures var m := Next(s, Advance(t)); |m.cells| == |s.cells| && ReleasedAt(m, t, pos, data) == ReleasedAt(s, t, pos, data)
  {
    var m := Next(s, Advance(t));
    assert m.cells[Slot(s, pos) := Cell(pos + |s.cells|, None)] == s.cells[Slot(s, pos) := Cell(pos + |s.cells|, None)];
    assert m.threads - {t} == s.threads - {t};
  }

  lemma MoveEnds<T>(s: State<T>, t: nat, pos: nat, k: nat)
    requires s.cells != [] && t in s.threads && s.threads[t] == PopMove(pos) && k >= 2
    ensures Alone(s, t, k) == ReleasedAt(s, t, pos, s.cells[Slot(s, pos)].data)
  {
    var m, data := Next(s, Advance(t)), s.cells[Slot(s, pos)].data;
    StepOn(s, t, k, m);
    ReleaseEnds(m, t, pos, data, k - 1);
    Moved(s, t, pos, data);
  }

  lemma WonPop<T>(s: State<T>, t: nat)
    requires s.cells != [] && |s.pushed| == s.tail && t in s.threads && s.threads[t] == PopCas(s.head)
    requires s.head !in s.reading && Published(s, s.head)
    ensures var won := Next(s, Advance(t)); won.cells == s.cells && ReleasedAt(won, t, s.head, Some(s.pushed[s.head])) == Popped(s, t)
  {
    assert s.reading[s.head := t] - {s.head} == s.reading;
    assert s.threads[t := PopMove(s.head)] - {t} == s.threads - {t};
  }

  lemma PopCasEnds<T>(s: State<T>, t: nat, k: nat)
    requires s.cells != [] && |s.pushed| == s.tail && t in s.threads && s.threads[t] == PopCas(s.head) && k >= 3
    requires s.head !in s.reading && Published(s, s.head) && s.cells[Slot(s, s.head)].data == Some(s.pushed[s.head])
    ensures Alone(s, t, k) == Popped(s, t)
  {
    var won := Next(s, Advance(t));
    StepOn(s, t, k, won);
    MoveEnds(won, t, s.head, k - 1);
    WonPop(s, t);
  }

  /** What the cell at the head says, and that nobody has claimed the head. */
  ghost predicate HeadTold<T>(s: State<T>) {
    && s.cells != [] && |s.pushed| == s.tail && s.head !in s.reading && s.cells[Slot(s, s.head)].sequence <= s.head + 1
    && (Published(s, s.head) <==> s.cells[Slot(s, s.head)].sequence == s.head + 1)
    && (Published(s, s.head) ==> s.cells[Slot(s, s.head)].data == Some(s.pushed[s.head]))
  }

  lemma HeadUnclaimed<T>(s: State<T>)
    requires Inv(s)
    ensures s.head !in s.reading
  {
    assert forall q :: q in s.reading ==> ReaderOk(s, q);
  }

  lemma HeadFull<T>(s: State<T>)
    requires Inv(s)
    ensures HeadTold(s)
  {
    assert s.head !in s.reading by { HeadUnclaimed(s); }
    var p := if s.head == s.tail then s.head else s.head + |s.cells|;
    assert Slot(s, p) == Slot(s, s.head) && SlotOk(s, p);
  }

  lemma PopLoadEnds<T>(s: State<T>, t: nat, k: nat)
    requires HeadTold(s) && t in s.threads && s.threads[t] == PopLoad(s.head) && k >= 4
    ensures Alone(s, t, k) == Popped(s, t)
  {
    if !Published(s, s.head) {
      var end := Return(s, t);
      StepOn(s, t, k, end);
      Stays(end, t, k - 1);
    } else {
      var mid := Goto(s, t, PopCas(s.head));
      StepOn(s, t, k, mid);
      PopCasEnds(mid, t, k - 1);
      PoppedFrom(s, t, PopCas(s.head));
    }
  }

  lemma PoppedFrom<T>(s: State<T>, t: nat, pc: Pc<T>)
    requires s.cells != [] && |s.pushed| == s.tail
    ensures Popped(Goto(s, t, pc), t) == Popped(s, t)
  {
    assert s.threads[t := pc] - {t} == s.threads - {t};
  }

  /** A pop that has not yet claimed a position. */
  ghost predicate Looks<T>(pc: Pc<T>) {
    pc.PopLoad? || pc.PopCas? || pc.PopReload?
  }

  /** What a looking pop knows of its position. */
  ghost predicate LookTold<T>(s: State<T>, t: nat)
    requires s.cells != [] && t in s.threads
  {
    match s.threads[t]
    case PopLoad(pos) => pos != s.head ==> pos < s.cells[Slot(s, pos)].sequence
    case PopCas(pos) => pos == s.head ==> s.cells[Slot(s, pos)].sequence == pos + 1
    case _ => true
  }

  lemma LookFacts<T>(s: State<T>, t: nat)
    requires Inv(s) && t in s.threads
    ensures LookTold(s, t)
  {
    assert ThreadOk(s, t);
    if s.threads[t].PopLoad? { SequenceAtLeast(s, s.threads[t].pos); }
  }

  lemma PopCatchesUp<T>(s: State<T>, t: nat, k: nat, end: State<T>)
    requires s.cells != [] && t in s.threads && Looks(s.threads[t]) && (s.threads[t].PopReload? || s.threads[t].pos != s.head) && k >= 2
    requires LookTold(s, t)
    requires var back := Goto(s, t, PopLoad(s.head)); Alone(back, t, k - 1) == end && Alone(back, t, k - 2) == end
    ensures Alone(s, t, k) == end
  {
    var back := Goto(s, t, PopLoad(s.head));
    if !s.threads[t].PopLoad? {
      StepOn(s, t, k, back);
    } else {
      var pos := s.threads[t].pos;
      var pc := if s.cells[Slot(s, pos)].sequence == pos + 1 then PopCas(pos) else PopReload;
      LookLags(s, t, pos, pc);
      StepOn(s, t, k, Goto(s, t, pc));
      StepOn(Goto(s, t, pc), t, k - 1, back);
    }
  }

  /** The two steps of a pop that loads a cell behind the head. */
  lemma LookLags<T>(s: State<T>, t: nat, pos: nat, pc: Pc<T>)
    requires s.cells != [] && t in s.threads && s.threads[t] == PopLoad(pos) && pos != s.head && pos < s.cells[Slot(s, pos)].sequence
    requires pc == if s.cells[Slot(s, pos)].sequence == pos + 1 then PopCas(pos) else PopReload
    ensures Next(s, Advance(t)) == Goto(s, t, pc)
    ensures Next(Goto(s, t, pc), Advance(t)) == Goto(s, t, PopLoad(s.head))
  {
    GotoTwice(s, t, pc, PopLoad(s.head));
  }

  /**
   Obstruction freedom of pop: from every reachable state a pop that has not yet claimed a position returns within
   six steps of its own.  It fails, and changes nothing, exactly if the front is not published; otherwise it returns the front.
   */
  lemma SoloPop<T(!new)>(capacity: nat, s: State<T>, t: nat, k: nat)
    requires capacity >= 2 && Reachable(capacity, s) && t in s.threads && Looks(s.threads[t]) && k >= 6
    ensures |s.cells| == capacity && |s.pushed| == s.tail && Alone(s, t, k) == Popped(s, t)
  {
    ReachableInv(capacity, s);
    HeadFull(s);
    LookFacts(s, t);
    PopEnds(s, t, k);
  }

  lemma PopEnds<T>(s: State<T>, t: nat, k: nat)
    requires HeadTold(s) && t in s.threads && LookTold(s, t) && Looks(s.threads[t]) && k >= 6
    ensures Alone(s, t, k) == Popped(s, t)
  {
    if s.threads[t] == PopLoad(s.head) {
      PopLoadEnds(s, t, k);
    } else if s.threads[t] == PopCas(s.head) {
      PopCasEnds(s, t, k);
    } else {
      PopLagsEnds(s, t, k);
    }
  }

  lemma PopLagsEnds<T>(s: State<T>, t: nat, k: nat)
    requires HeadTold(s) && t in s.threads && LookTold(s, t) && Looks(s.threads[t]) && k >= 6
    requires s.threads[t].PopReload? || s.threads[t].pos != s.head
    ensures Alone(s, t, k) == Popped(s, t)
  {
    PopFromHead(s, t, k - 1);
    PopFromHead(s, t, k - 2);
    PopCatchesUp(s, t, k, Popped(s, t));
  }

  lemma PopFromHead<T>(s: State<T>, t: nat, k: nat)
    requires HeadTold(s) && k >= 4
    ensures Alone(Goto(s, t, PopLoad(s.head)), t, k) == Popped(s, t)
  {
    PopLoadEnds(Goto(s, t, PopLoad(s.head)), t, k);
    PoppedFrom(s, t, PopLoad(s.head));
  }

  /** A pop that has claimed its position returns the value pushed there in two steps. */
  lemma SoloRelease<T(!new)>(capacity: nat, s: State<T>, t: nat, k: nat)
    requires capacity >= 2 && Reachable(capacity, s) && t in s.threads && s.threads[t].PopMove? && k >= 2
    ensures |s.cells| == capacity && s.threads[t].pos < |s.pushed|
    ensures Alone(s, t, k) == ReleasedAt(s, t, s.threads[t].pos, Some(s.pushed[s.threads[t].pos]))
  {
    ReachableInv(capacity, s);
    var pos := s.threads[t].pos;
    assert ThreadOk(s, t) && ReaderOk(s, pos);
    MoveEnds(s, t, pos, k);
  }

  // ---------------------------------------------------------------- whole calls

  /** In a queue with room a push made alone appends its value and publishes it. */
  lemma PushCall<T(!new)>(capacity: nat, s: State<T>, t: nat, v: T, k: nat)
    requires capacity >= 2 && Reachable(capacity, s) && t !in s.threads && k >= 6
    ensures |s.cells| == capacity && Alone(Next(s, CallPush(t, v)), t, k) == Pushed(s, t, v)
  {
    ReachableInv(capacity, s);
    ReachableStep(capacity, s, CallPush(t, v));
    SoloPush(capacity, Next(s, CallPush(t, v)), t, v, k);
    PushedFrom(s, t, v, PushLoad(v, s.tail));
  }

  /** And a pop made alone takes a published front. */
  lemma PopCall<T(!new)>(capacity: nat, s: State<T>, t: nat, k: nat)
    requires capacity >= 2 && Reachable(capacity, s) && t !in s.threads && k >= 6
    ensures |s.cells| == capacity && |s.pushed| == s.tail && Alone(Next(s, CallPop(t)), t, k) == Popped(s, t)
  {
    ReachableInv(capacity, s);
    ReachableStep(capacity, s, CallPop(t));
    SoloPop(capacity, Next(s, CallPop(t)), t, k);
    PoppedFrom(s, t, PopLoad(s.head));
  }
}
