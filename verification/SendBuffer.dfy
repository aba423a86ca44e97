/**
 SendBuffer (src/darwincore/network/send_buffer.cpp): a linear buffer with a read and a write
 position that compacts and grows, proved to be a byte FIFO of at most MAX_CAPACITY bytes.
 */
module SendBuffer {
  import opened Bytes

  const INITIAL_CAPACITY := 4096
  const HIGH_WATER_MARK := 8388608
  const LOW_WATER_MARK := 4194304
  const MAX_CAPACITY := 33554432

  // ---------------------------------------------------------------- the FIFO it stands for

  /** What send() answers to an attempt to send some bytes. */
  datatype Answer = Accepted(n: nat) | WouldBlock | Interrupted | NothingSent | Failed

  /** The kernel takes a non-empty prefix of what it is offered, or nothing. */
  predicate Possible(answer: Answer, offered: nat) {
    answer.Accepted? ==> 1 <= answer.n <= offered
  }

  /** A Write is accepted exactly if it is not empty and fits. */
  predicate Accepts(contents: seq<byte>, data: seq<byte>) {
    data != [] && |contents| + |data| <= MAX_CAPACITY
  }

  function AfterWrite(contents: seq<byte>, data: seq<byte>): seq<byte> {
    if Accepts(contents, data) then contents + data else contents
  }

  function AfterSend(contents: seq<byte>, answer: Answer): seq<byte>
    requires contents != [] ==> Possible(answer, |contents|)
  {
    if contents != [] && answer.Accepted? then contents[answer.n..] else contents
  }

  /** The bytes that left with an answer: the first n of what was offered, and none from an empty buffer. */
  function Taken(contents: seq<byte>, answer: Answer): seq<byte>
    requires contents != [] ==> Possible(answer, |contents|)
  {
    if contents != [] && answer.Accepted? then contents[..answer.n] else []
  }

  /** The capacities that doubling reaches from INITIAL_CAPACITY up to MAX_CAPACITY. */
  predicate IsCapacity(c: int) {
    || c == 4096 || c == 8192 || c == 16384 || c == 32768 || c == 65536 || c == 131072 || c == 262144
    || c == 524288 || c == 1048576 || c == 2097152 || c == 4194304 || c == 8388608 || c == 16777216 || c == 33554432
  }

  datatype Op = Write(data: seq<byte>) | Send(answer: Answer)

  /** Contents, all bytes sent and all bytes accepted so far. */
  datatype Flow = Flow(contents: seq<byte>, sent: seq<byte>, accepted: seq<byte>)

  predicate PossibleOp(flow: Flow, op: Op) {
    op.Send? && flow.contents != [] ==> Possible(op.answer, |flow.contents|)
  }

  function AfterOp(flow: Flow, op: Op): Flow
    requires PossibleOp(flow, op)
  {
    match op
    case Write(data) =>
      flow.(contents := AfterWrite(flow.contents, data), accepted := if Accepts(flow.contents, data) then flow.accepted + data else flow.accepted)
    case Send(answer) =>
      flow.(contents := AfterSend(flow.contents, answer), sent := flow.sent + Taken(flow.contents, answer))
  }

  ghost predicate PossibleRun(flow: Flow, ops: seq<Op>)
    decreases |ops|
  {
    ops == [] || (PossibleOp(flow, ops[0]) && PossibleRun(AfterOp(flow, ops[0]), ops[1..]))
  }

  ghost function AfterRun(flow: Flow, ops: seq<Op>): Flow
    requires PossibleRun(flow, ops)
    decreases |ops|
  {
    if ops == [] then flow else AfterRun(AfterOp(flow, ops[0]), ops[1..])
  }

  /** First in, first out: over any run of writes and partial sends, what left and what is left is what was accepted. */
  lemma {:induction false} FifoOverRuns(flow: Flow, ops: seq<Op>)
    requires PossibleRun(flow, ops)
    requires flow.sent + flow.contents == flow.accepted && |flow.contents| <= MAX_CAPACITY
    ensures var end := AfterRun(flow, ops); end.sent + end.contents == end.accepted && |end.contents| <= MAX_CAPACITY
    decreases |ops|
  {
    if ops != [] {
      var next := AfterOp(flow, ops[0]);
      match ops[0] {
        case Write(data) =>
          assert flow.sent + (flow.contents + data) == (flow.sent + flow.contents) + data;
        case Send(answer) =>
          assert next.contents == flow.contents[|Taken(flow.contents, answer)|..];
          assert (flow.sent + Taken(flow.contents, answer)) + next.contents == flow.sent + flow.contents;
      }
      FifoOverRuns(next, ops[1..]);
    }
  }

  /** All bytes accepted so far, and how many of them the socket has taken. */
  datatype Tally = Tally(accepted: seq<byte>, taken: nat)

  /** A write is accepted if it is not empty and at most 32 MiB are then waiting; a send moves the position by the answer. */
  function Tallied(t: Tally, op: Op): Tally {
    match op
    case Write(data) =>
      if 0 < |data| && |t.accepted| - t.taken + |data| <= 33554432 then t.(accepted := t.accepted + data) else t
    case Send(Accepted(n)) => if t.taken < |t.accepted| then t.(taken := t.taken + n) else t
    case Send(_) => t
  }

  ghost function TalliedAll(t: Tally, ops: seq<Op>): Tally
    decreases |ops|
  {
    if ops == [] then t else TalliedAll(Tallied(t, ops[0]), ops[1..])
  }

  /** The flow is the accepted bytes, cut at the position. */
  ghost predicate CutAt(flow: Flow, t: Tally) {
    && flow.accepted == t.accepted && t.taken <= |t.accepted|
    && flow.sent == t.accepted[..t.taken] && flow.contents == t.accepted[t.taken..]
  }

  lemma CutAtOp(flow: Flow, t: Tally, op: Op)
    requires CutAt(flow, t) && PossibleOp(flow, op)
    ensures CutAt(AfterOp(flow, op), Tallied(t, op))
  {
    match op {
      case Write(data) =>
        var all := t.accepted + data;
        assert all[..t.taken] == flow.sent && all[t.taken..] == flow.contents + data;
      case Send(answer) =>
        if answer.Accepted? && flow.contents != [] {
          var k := t.taken + answer.n;
          assert t.accepted[..k] == flow.sent + flow.contents[..answer.n];
          assert t.accepted[k..] == flow.contents[answer.n..];
        }
    }
  }

  /** Over any run, the accepted bytes are those of the writes that fitted, and the socket's answers add up to the position between what left and what is held. */
  lemma {:induction false} PositionOverRuns(flow: Flow, t: Tally, ops: seq<Op>)
    requires CutAt(flow, t) && PossibleRun(flow, ops)
    ensures CutAt(AfterRun(flow, ops), TalliedAll(t, ops))
    decreases |ops|
  {
    if ops != [] {
      CutAtOp(flow, t, ops[0]);
      PositionOverRuns(AfterOp(flow, ops[0]), Tallied(t, ops[0]), ops[1..]);
    }
  }

  // ---------------------------------------------------------------- the buffer

  class Buffer {
    var buffer: array<byte>
    var readPos: nat
    var writePos: nat

    ghost predicate Valid()
      reads this
    {
      IsCapacity(buffer.Length) && readPos <= writePos <= buffer.Length
    }

    ghost function Contents(): seq<byte>
      reads this, buffer
      requires Valid()
    {
      buffer[readPos..writePos]
    }

    constructor ()
      ensures Valid() && fresh(buffer) && Contents() == []
    {
      buffer := new byte[INITIAL_CAPACITY];
      readPos, writePos := 0, 0;
    }

    method Size() returns (n: nat)
      requires Valid()
      ensures n == |Contents()|
    {
      n := writePos - readPos;
    }

    method IsEmpty() returns (b: bool)
      requires Valid()
      ensures b <==> Contents() == []
    {
      b := readPos == writePos;
    }

    method IsHighWaterMark() returns (b: bool)
      requires Valid()
      ensures b <==> |Contents()| >= HIGH_WATER_MARK
    {
      b := writePos - readPos >= HIGH_WATER_MARK;
    }

    method IsLowWaterMark() returns (b: bool)
      requires Valid()
      ensures b <==> |Contents()| < LOW_WATER_MARK
    {
      b := writePos - readPos < LOW_WATER_MARK;
    }

    /** Moves what is left to the start. */
    method Compact()
      requires Valid()
      modifies this`readPos, this`writePos, buffer
      ensures Valid() && buffer == old(buffer)
      ensures Contents() == old(Contents()) && readPos == 0
    {
      if readPos == 0 { return; }
      var readable := writePos - readPos;
      forall i | 0 <= i < readable {
        buffer[i] := buffer[readPos + i];
      }
      assert buffer[..readable] == old(buffer[readPos..writePos]);
      readPos, writePos := 0, readable;
    }

    /** Reallocates to a larger capacity, keeping the bytes. */
    method Resize(newCapacity: nat)
      requires Valid() && IsCapacity(newCapacity) && buffer.Length <= newCapacity
      modifies this`buffer
      ensures Valid() && fresh(buffer) && buffer.Length == newCapacity
      ensures Contents() == old(Contents())
    {
      var larger := new byte[newCapacity];
      forall i | 0 <= i < buffer.Length {
        larger[i] := buffer[i];
      }
      assert larger[readPos..writePos] == buffer[readPos..writePos];
      buffer := larger;
    }

    /** Doubles until the required size fits. */
    method GrowTo(requiredSize: nat)
      requires Valid() && requiredSize <= MAX_CAPACITY
      modifies this`buffer
      ensures Valid() && fresh(buffer) && requiredSize <= buffer.Length
      ensures Contents() == old(Contents())
    {
      var newCapacity := buffer.Length;
      while newCapacity < requiredSize && newCapacity < MAX_CAPACITY
        invariant IsCapacity(newCapacity) && buffer.Length <= newCapacity
        decreases MAX_CAPACITY - newCapacity
      {
        newCapacity := newCapacity * 2;
      }
      if newCapacity > MAX_CAPACITY {
        newCapacity := MAX_CAPACITY;
      }
      Resize(newCapacity);
    }

    /** Makes room for `size` more bytes by compacting, then by growing; never touches the contents. */
    method EnsureWritableSpace(size: nat) returns (ok: bool)
      requires Valid() && size > 0
      modifies this, buffer
      ensures Valid() && (buffer == old(buffer) || fresh(buffer))
      ensures Contents() == old(Contents())
      ensures ok <==> |Contents()| + size <= MAX_CAPACITY
      ensures ok ==> writePos + size <= buffer.Length
    {
      if buffer.Length - writePos >= size { return true; }
      if readPos > 0 {
        Compact();
        if buffer.Length - writePos >= size { return true; }
      }
      var requiredSize := writePos + size;
      // The buffer is compact here, so the source's second attempt to compact is never made.
      assert readPos == 0;
      if requiredSize > MAX_CAPACITY { return false; }
      GrowTo(requiredSize);
      return true;
    }

    /** Write: appends, or changes nothing. */
    method Write(data: seq<byte>) returns (ok: bool)
      requires Valid()
      modifies this, buffer
      ensures Valid() && (buffer == old(buffer) || fresh(buffer))
      ensures ok <==> Accepts(old(Contents()), data)
      ensures Contents() == AfterWrite(old(Contents()), data)
    {
      if data == [] { return false; }
      ok := EnsureWritableSpace(|data|);
      if !ok { return; }
      CopyIn(data);
    }

    /** The memcpy of Write. */
    method CopyIn(data: seq<byte>)
      requires Valid() && writePos + |data| <= buffer.Length
      modifies this`writePos, buffer
      ensures Valid() && Contents() == old(Contents()) + data
    {
      forall i | 0 <= i < |data| {
        buffer[writePos + i] := data[i];
      }
      assert buffer[writePos..writePos + |data|] == data;
      assert buffer[readPos..writePos] == old(buffer[readPos..writePos]);
      assert buffer[readPos..writePos + |data|] == buffer[readPos..writePos] + buffer[writePos..writePos + |data|];
      writePos := writePos + |data|;
    }

    /** SendToSocket: hands a prefix to the socket; `answer` is what send() answers if it is called. */
    method SendToSocket(fd: int, answer: Answer) returns (sent: int)
      requires Valid()
      requires fd >= 0 && Contents() != [] ==> Possible(answer, |Contents()|)
      modifies this, buffer
      ensures Valid() && buffer == old(buffer)
      ensures fd < 0 ==> sent == -1 && Contents() == old(Contents())
      ensures fd >= 0 ==> Contents() == AfterSend(old(Contents()), answer)
      ensures fd >= 0 ==> sent == if old(Contents()) == [] then 0
                                  else match answer { case Accepted(n) => n case Failed => -1 case _ => 0 }
    {
      if fd < 0 { return -1; }
      var readable := Size();
      if readable == 0 { return 0; }
      match answer {
        case Accepted(n) =>
          ghost var before := Contents();
          readPos := readPos + n;
          assert Contents() == before[n..];
          if readPos == writePos {
            readPos, writePos := 0, 0;
          } else if readPos > buffer.Length / 2 {
            Compact();
          }
          return n;
        case WouldBlock => return 0;
        case Interrupted => return 0;
        case Failed => return -1;
        case NothingSent => return 0;
      }
    }
  }
}
