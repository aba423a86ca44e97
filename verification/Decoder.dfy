/**
 The Decoder (src/darwincore/network/protocol.cpp): incremental parsing of a byte stream into
 frames, checksum verification and reassembly of sliced messages.
 */
module Decoder {
  import opened Bytes
  import opened Frames

  datatype Assembly = Assembly(total: nat, slices: seq<seq<byte>>, received: nat)

  datatype Message = Message(id: nat, data: seq<byte>)

  datatype StreamEvent = StreamEvent(frameType: byte, streamId: nat, offset: nat, totalSize: nat, crc32: nat, data: seq<byte>)

  /** Everything but the receive buffer: what frames, once cut out of the stream, act on. */
  datatype Core = Core(
    messages: map<nat, Assembly>,
    completed: seq<Message>,
    events: seq<StreamEvent>,
    framesReceived: nat,
    messagesCompleted: nat,
    streamEvents: nat,
    crcErrors: nat)

  const EMPTY := Core(map[], [], [], 0, 0, 0, 0)

  /** The effect of one complete frame; Undefined stands for the source's out-of-bounds accesses. */
  datatype Handled = Handled(core: Core) | Rejects(error: Error, core: Core) | Undefined

  // ---------------------------------------------------------------- one frame

  function HasCrc(flags: nat, payload: seq<byte>): bool {
    flags % 2 == 1 && |payload| >= 4
  }

  function BlankSlices(n: nat): (s: seq<seq<byte>>)
    ensures |s| == n && forall i :: 0 <= i < n ==> s[i] == []
  {
    seq(n, _ => [])
  }

  /** messages_[id], created and sized on its first slice. */
  function Opened(core: Core, id: nat, total: nat): Assembly {
    var m := if id in core.messages then core.messages[id] else Assembly(0, [], 0);
    if m.slices == [] then Assembly(total, BlankSlices(total), m.received) else m
  }

  /** Stores a slice unless its slot is already filled; `received` is a uint16_t. */
  function Stored(m: Assembly, i: nat, slice: seq<byte>): Assembly
    requires i < |m.slices|
  {
    if m.slices[i] == [] then m.(slices := m.slices[i := slice], received := (m.received + 1) % 0x1_0000) else m
  }

  /** Keeps the assembly, or completes the message when every slice has been counted. */
  function Settled(core: Core, id: nat, m: Assembly): Core {
    if m.received == m.total then
      core.(completed := core.completed + [Message(id, Join(m.slices))],
            messages := core.messages - {id},
            messagesCompleted := core.messagesCompleted + 1)
    else core.(messages := core.messages[id := m])
  }

  function TakeSlice(core: Core, id: nat, total: nat, i: nat, slice: seq<byte>): Handled {
    if i >= total then Rejects(BadSliceIndex, core)
    else
      var m := Opened(core, id, total);
      if i >= |m.slices| then Undefined    // a slot past the vector of an earlier, shorter claim
      else Handled(Settled(core, id, Stored(m, i, slice)))
  }

  function HandleMessage(core: Core, data: seq<byte>): Handled {
    if |data| < MESSAGE_HEADER_SIZE then Undefined
    else TakeSlice(core, Value(data[..8]), Value(data[8..10]), Value(data[10..12]), data[12..])
  }

  function HandleStream(core: Core, frameType: byte, payload: seq<byte>, data: seq<byte>): Handled {
    var core1 := core.(streamEvents := core.streamEvents + 1);
    if frameType == STREAM_CHUNK then
      if |data| < 16 then Undefined
      else Handled(Emit(core1, StreamEvent(frameType, Value(data[..8]), Value(data[8..16]), 0, 0, data[16..])))
    else if frameType == STREAM_START then
      if |payload| < 16 then Undefined
      else Handled(Emit(core1, StreamEvent(frameType, Value(payload[..8]), 0, Value(payload[8..16]), 0, [])))
    else if frameType == STREAM_END then
      if |payload| < 12 then Undefined
      else Handled(Emit(core1, StreamEvent(frameType, Value(payload[..8]), 0, 0, Value(payload[8..12]), [])))
    else Handled(Emit(core1, StreamEvent(frameType, 0, 0, 0, 0, [])))
  }

  function Emit(core: Core, e: StreamEvent): Core {
    core.(events := core.events + [e])
  }

  function HandleFrame(sum: Sum, core: Core, frameType: byte, flags: nat, payload: seq<byte>): Handled {
    var core1 := core.(framesReceived := core.framesReceived + 1);
    var n := if HasCrc(flags, payload) then |payload| - 4 else |payload|;
    if HasCrc(flags, payload) && payload[n..] != sum(payload[..n]) then
      Handled(core1.(crcErrors := core1.crcErrors + 1))
    else HandleBody(core1, frameType, payload, payload[..n])
  }

  /** The dispatch on the frame type; `data` is the payload without its checksum. */
  function HandleBody(core: Core, frameType: byte, payload: seq<byte>, data: seq<byte>): Handled {
    if frameType == MESSAGE then HandleMessage(core, data) else HandleStream(core, frameType, payload, data)
  }

  // ---------------------------------------------------------------- the decoding loop

  /** What to do with a frame of a given type, flags and payload. */
  type Handler = (Core, byte, nat, seq<byte>) -> Handled

  function FrameHandler(sum: Sum): Handler {
    (core: Core, frameType: byte, flags: nat, payload: seq<byte>) => HandleFrame(sum, core, frameType, flags, payload)
  }

  /** One round of TryDecode's loop. */
  datatype Outcome = NeedMore | Progress(rest: seq<byte>, core: Core) | Throws(error: Error, core: Core) | Crashes

  function AsOutcome(h: Handled, rest: seq<byte>): Outcome {
    match h
    case Handled(c) => Progress(rest, c)
    case Rejects(e, c) => Throws(e, c)
    case Undefined => Crashes
  }

  function Round(handle: Handler, buffer: seq<byte>, core: Core): (o: Outcome)
    ensures o.Progress? ==> |o.rest| + HEADER_SIZE <= |buffer|
  {
    if |buffer| < HEADER_SIZE then NeedMore
    else
      var h := ParseHeader(buffer);
      if h.magic1 != MAGIC1 || h.magic2 != MAGIC2 then Throws(BadMagic, core)
      else if h.version != VERSION then Throws(BadVersion, core)
      else if h.payloadLen > MAX_FRAME_PAYLOAD then Throws(PayloadTooLarge, core)
      else
        var size := HEADER_SIZE + h.payloadLen;
        if |buffer| < size then NeedMore
        else AsOutcome(handle(core, h.frameType, h.flags, buffer[HEADER_SIZE..size]), buffer[size..])
  }

  /** How a Feed call ends: with the leftover bytes, with an exception, or in undefined behaviour. */
  datatype Fed = Fed(buffer: seq<byte>, core: Core) | Thrown(error: Error, buffer: seq<byte>, core: Core) | Crashed

  function Run(handle: Handler, buffer: seq<byte>, core: Core): Fed
    decreases |buffer|
  {
    match Round(handle, buffer, core)
    case NeedMore => Fed(buffer, core)
    case Progress(rest, c) => Run(handle, rest, c)
    case Throws(e, c) => Thrown(e, buffer, c)
    case Crashes => Crashed
  }

  // ---------------------------------------------------------------- how a stream is cut does not matter

  /** A round that does not ask for more ignores the bytes behind its frame. */
  lemma RoundExtends(handle: Handler, buffer: seq<byte>, core: Core, more: seq<byte>)
    requires !Round(handle, buffer, core).NeedMore?
    ensures Round(handle, buffer + more, core) ==
            match Round(handle, buffer, core) {
              case Progress(rest, c) => Progress(rest + more, c)
              case o => o
            }
  {
    var all := buffer + more;
    var h := ParseHeader(buffer);
    assert all[4..6] == buffer[4..6] && all[6..10] == buffer[6..10] && all[10..14] == buffer[10..14] && all[14..16] == buffer[14..16];
    assert ParseHeader(all) == h;
    var size := HEADER_SIZE + h.payloadLen;
    if |buffer| >= size {
      assert all[HEADER_SIZE..size] == buffer[HEADER_SIZE..size];
      assert all[size..] == buffer[size..] + more;
    }
  }

  /** Bytes behind an exception stay in the buffer unread. */
  function WithRest(fed: Fed, more: seq<byte>): Fed {
    match fed
    case Fed(rest, c) => Fed(rest + more, c)
    case Thrown(e, rest, c) => Thrown(e, rest + more, c)
    case Crashed => Crashed
  }

  /** Going on with more bytes after a Feed. */
  function Resume(handle: Handler, fed: Fed, more: seq<byte>): Fed {
    if fed.Fed? then Run(handle, fed.buffer + more, fed.core) else WithRest(fed, more)
  }

  /** Decoding what has arrived, and then the rest with what was left over, is decoding it all at once. */
  lemma {:induction false} RunExtends(handle: Handler, buffer: seq<byte>, core: Core, more: seq<byte>)
    ensures Run(handle, buffer + more, core) == Resume(handle, Run(handle, buffer, core), more)
    decreases |buffer|
  {
    var o := Round(handle, buffer, core);
    if !o.NeedMore? {
      RoundExtends(handle, buffer, core, more);
      if o.Progress? { RunExtends(handle, o.rest, o.core, more); }
    }
  }

  function Flatten(chunks: seq<seq<byte>>): seq<byte>
    decreases |chunks|
  {
    if chunks == [] then [] else chunks[0] + Flatten(chunks[1..])
  }

  /** A sequence of Feed calls; the caller stops feeding at the first exception. */
  function FeedAll(handle: Handler, fed: Fed, chunks: seq<seq<byte>>): Fed
    decreases |chunks|
  {
    if chunks == [] || !fed.Fed? then fed
    else FeedAll(handle, Resume(handle, fed, chunks[0]), chunks[1..])
  }

  /** The bytes that the calls of FeedAll never reached. */
  function Unfed(handle: Handler, fed: Fed, chunks: seq<seq<byte>>): seq<byte>
    decreases |chunks|
  {
    if chunks == [] then [] else if !fed.Fed? then Flatten(chunks)
    else Unfed(handle, Resume(handle, fed, chunks[0]), chunks[1..])
  }

  /** No complete frame is waiting, or the stream has failed: the state between two Feed calls. */
  ghost predicate AtRest(handle: Handler, fed: Fed) {
    fed.Fed? ==> Run(handle, fed.buffer, fed.core) == fed
  }

  lemma ResumeTwice(handle: Handler, fed: Fed, a: seq<byte>, b: seq<byte>)
    ensures Resume(handle, fed, a + b) == Resume(handle, Resume(handle, fed, a), b)
    ensures AtRest(handle, Resume(handle, fed, a))
  {
    if fed.Fed? {
      assert fed.buffer + (a + b) == (fed.buffer + a) + b;
      RunExtends(handle, fed.buffer + a, fed.core, b);
      if Run(handle, fed.buffer + a, fed.core).Fed? { RunRests(handle, fed.buffer + a, fed.core); }
    } else if fed.Thrown? {
      assert fed.buffer + (a + b) == (fed.buffer + a) + b;
    }
  }

  /**
   For every byte stream that the model decodes, that is, without a frame shorter than its own header (which
   the source overreads into whatever follows, ending here as Crashed), and every way of cutting it into Feed calls, the decoder ends with the
   messages, events, assemblies, counters and leftover bytes (or with the exception) of one whole Feed.
   */
  lemma {:induction false} CuttingIsInvisible(handle: Handler, fed: Fed, chunks: seq<seq<byte>>)
    requires AtRest(handle, fed)
    ensures Resume(handle, fed, Flatten(chunks)) == WithRest(FeedAll(handle, fed, chunks), Unfed(handle, fed, chunks))
    ensures FeedAll(handle, fed, chunks).Fed? ==> Unfed(handle, fed, chunks) == []
    decreases |chunks|
  {
    if chunks == [] {
      assert fed.Fed? ==> fed.buffer + [] == fed.buffer;
    } else if fed.Fed? {
      ResumeTwice(handle, fed, chunks[0], Flatten(chunks[1..]));
      CuttingIsInvisible(handle, Resume(handle, fed, chunks[0]), chunks[1..]);
    }
  }

  /** What a Feed leaves behind holds no complete frame. */
  lemma {:induction false} RunRests(handle: Handler, buffer: seq<byte>, core: Core)
    requires Run(handle, buffer, core).Fed?
    ensures var fed := Run(handle, buffer, core); Run(handle, fed.buffer, fed.core) == fed && Round(handle, fed.buffer, fed.core) == NeedMore
    decreases |buffer|
  {
    var o := Round(handle, buffer, core);
    if o.Progress? { RunRests(handle, o.rest, o.core); }
  }
}
