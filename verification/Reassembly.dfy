/**
 Encoder against Decoder: any number of sliced messages and stream frames, sent in any order and
 interleaving, with slices repeated at will until their message is complete.
 */
module Reassembly {
  import opened Bytes
  import opened Frames
  import opened Decoder

  /** A message handed to EncodeMessage; messages are told apart by their ids. */
  datatype Outgoing = Outgoing(data: seq<byte>, crc: bool)

  type Mail = map<nat, Outgoing>

  /** One frame on its way: a slice of a message, or a stream frame. */
  datatype Item =
    | Slice(id: nat, i: nat)
    | Start(streamId: nat, totalSize: nat)
    | Chunk(streamId: nat, offset: nat, data: seq<byte>)
    | End(streamId: nat, crc32: nat)

  const LIMIT64 := 0x1_0000_0000_0000_0000
  const LIMIT32 := 0x1_0000_0000

  /** Within EncodeMessage's domain, see Frames.SlicingExactlyWithinLimit. */
  predicate Sendable(id: nat, m: Outgoing) {
    id < LIMIT64 && 1 <= |m.data| <= Offset(m.crc, MAX_MESSAGE_SLICES)
  }

  ghost predicate AllSendable(mail: Mail) {
    forall id :: id in mail ==> Sendable(id, mail[id])
  }

  function Count(m: Outgoing): nat {
    TotalSlices(|m.data|, m.crc)
  }

  lemma CountFacts(id: nat, m: Outgoing, i: nat)
    requires Sendable(id, m)
    ensures 1 <= Count(m) <= MAX_MESSAGE_SLICES && AllStart(|m.data|, m.crc, Count(m))
    ensures i < Count(m) ==> Offset(m.crc, i) < |m.data| && SliceData(m.data, m.crc, i) != []
    ensures Join(Slices(m.data, m.crc, Count(m))) == m.data
  {
    SlicingExactlyWithinLimit(m.data, m.crc);
    LimitExactly(|m.data|, m.crc);
    if i < Count(m) { SliceNotEmpty(m.data, m.crc, i); }
  }

  predicate ItemOk(mail: Mail, item: Item) {
    match item
    case Slice(id, i) => id in mail && Sendable(id, mail[id]) && i < Count(mail[id])
    case Start(s, n) => s < LIMIT64 && n < LIMIT64
    case Chunk(s, o, d) => s < LIMIT64 && o < LIMIT64 && |d| + 16 <= MAX_FRAME_PAYLOAD
    case End(s, c) => s < LIMIT64 && c < LIMIT32
  }

  // ---------------------------------------------------------------- frames of items

  /** The frames the encoder builds: EncodeMessage's i-th, EncodeStreamStart, EncodeStreamChunk, EncodeStreamEnd. */
  function ItemFrame(sum: Sum, mail: Mail, item: Item): Result<Frame>
    requires ItemOk(mail, item)
  {
    match item
    case Slice(id, i) =>
      CountFacts(id, mail[id], i);
      MessageFrame(sum, id, mail[id].data, mail[id].crc, i)
    case Start(s, n) => MakeFrame(sum, STREAM_START, LittleEndian(s, 8) + LittleEndian(n, 8), false)
    case Chunk(s, o, d) =>
      if |d| + 16 > MAX_FRAME_PAYLOAD then Err(ChunkTooLarge)
      else MakeFrame(sum, STREAM_CHUNK, LittleEndian(s, 8) + LittleEndian(o, 8) + d, false)
    case End(s, c) => MakeFrame(sum, STREAM_END, LittleEndian(s, 8) + LittleEndian(c, 4), false)
  }

  function ItemEvent(item: Item): StreamEvent
    requires !item.Slice?
  {
    match item
    case Start(s, n) => StreamEvent(STREAM_START, s, 0, n, 0, [])
    case Chunk(s, o, d) => StreamEvent(STREAM_CHUNK, s, o, 0, 0, d)
    case End(s, c) => StreamEvent(STREAM_END, s, 0, 0, c, [])
  }

  /** A well-formed frame is cut out of any stream as it was built. */
  lemma RoundOnFrame(handle: Handler, core: Core, f: Frame, rest: seq<byte>)
    requires WellFormed(f) && |f.payload| <= MAX_FRAME_PAYLOAD
    ensures Round(handle, Serialize(f) + rest, core) ==
            AsOutcome(handle(core, f.header.frameType, f.header.flags, f.payload), rest)
  {
    var buffer := Serialize(f) + rest;
    assert buffer == HeaderBytes(f.header) + (f.payload + rest);
    ParseHeaderBytes(f.header, f.payload + rest);
    var size := HEADER_SIZE + |f.payload|;
    assert buffer[HEADER_SIZE..size] == f.payload && buffer[size..] == rest;
  }

  /** Its checksum, if it has one, is right, and only the payload proper is looked at. */
  lemma HandleMade(sum: Sum, core: Core, frameType: byte, payload: seq<byte>, crc: bool)
    requires |payload| <= MAX_FRAME_PAYLOAD && (crc ==> frameType == MESSAGE)
    ensures var f := MakeFrame(sum, frameType, payload, crc).value;
            var core1 := core.(framesReceived := core.framesReceived + 1);
            HandleFrame(sum, core, frameType, f.header.flags, f.payload) ==
            if frameType == MESSAGE then HandleMessage(core1, payload) else HandleStream(core1, frameType, payload, payload)
  {
    var f := MakeFrame(sum, frameType, payload, crc).value;
    var n := |payload|;
    assert f.payload[..n] == payload;
    if crc { assert f.payload[n..] == sum(payload); }
  }

  lemma HandleSlice(core: Core, id: nat, total: nat, i: nat, slice: seq<byte>)
    requires id < LIMIT64 && total < 0x1_0000 && i < 0x1_0000
    ensures HandleMessage(core, MessagePayload(id, total, i, slice)) == TakeSlice(core, id, total, i, slice)
  {
    var p := MessagePayload(id, total, i, slice);
    assert p[..8] == LittleEndian(id, 8) && p[8..10] == LittleEndian(total, 2) && p[10..12] == LittleEndian(i, 2) && p[12..] == slice;
    Fields64(id);
    Fields16(total);
    Fields16(i);
  }

  lemma HandleStart(core: Core, s: nat, n: nat)
    requires s < LIMIT64 && n < LIMIT64
    ensures var p := LittleEndian(s, 8) + LittleEndian(n, 8);
            HandleStream(core, STREAM_START, p, p) ==
            Handled(Emit(core.(streamEvents := core.streamEvents + 1), StreamEvent(STREAM_START, s, 0, n, 0, [])))
  {
    var p := LittleEndian(s, 8) + LittleEndian(n, 8);
    assert p[..8] == LittleEndian(s, 8) && p[8..16] == LittleEndian(n, 8);
    Fields64(s);
    Fields64(n);
  }

  lemma HandleChunk(core: Core, s: nat, o: nat, d: seq<byte>)
    requires s < LIMIT64 && o < LIMIT64
    ensures var p := LittleEndian(s, 8) + LittleEndian(o, 8) + d;
            HandleStream(core, STREAM_CHUNK, p, p) ==
            Handled(Emit(core.(streamEvents := core.streamEvents + 1), StreamEvent(STREAM_CHUNK, s, o, 0, 0, d)))
  {
    var p := LittleEndian(s, 8) + LittleEndian(o, 8) + d;
    assert p[..8] == LittleEndian(s, 8) && p[8..16] == LittleEndian(o, 8) && p[16..] == d;
    Fields64(s);
    Fields64(o);
  }

  lemma HandleEnd(core: Core, s: nat, c: nat)
    requires s < LIMIT64 && c < LIMIT32
    ensures var p := LittleEndian(s, 8) + LittleEndian(c, 4);
            HandleStream(core, STREAM_END, p, p) ==
            Handled(Emit(core.(streamEvents := core.streamEvents + 1), StreamEvent(STREAM_END, s, 0, 0, c, [])))
  {
    var p := LittleEndian(s, 8) + LittleEndian(c, 4);
    assert p[..8] == LittleEndian(s, 8) && p[8..12] == LittleEndian(c, 4);
    Fields64(s);
    Fields32(c);
  }

  function StreamEffect(core: Core, e: StreamEvent): Handled {
    Handled(core.(framesReceived := core.framesReceived + 1, streamEvents := core.streamEvents + 1, events := core.events + [e]))
  }

  /** The frame of an item is one the decoder accepts. */
  lemma ItemFrameOk(sum: Sum, mail: Mail, item: Item)
    requires ItemOk(mail, item)
    ensures ItemFrame(sum, mail, item).Ok?
    ensures var f := ItemFrame(sum, mail, item).value; WellFormed(f) && |f.payload| <= MAX_FRAME_PAYLOAD
  {
    if item.Slice? { CountFacts(item.id, mail[item.id], item.i); }
  }

  lemma MadeSlice(sum: Sum, core: Core, id: nat, m: Outgoing, i: nat)
    requires Sendable(id, m) && i < Count(m)
    ensures Offset(m.crc, i) <= |m.data| && MessageFrame(sum, id, m.data, m.crc, i).Ok?
    ensures var f := MessageFrame(sum, id, m.data, m.crc, i).value;
            HandleFrame(sum, core, f.header.frameType, f.header.flags, f.payload) ==
            TakeSlice(core.(framesReceived := core.framesReceived + 1), id, Count(m), i, SliceData(m.data, m.crc, i))
  {
    var core1 := core.(framesReceived := core.framesReceived + 1);
    CountFacts(id, m, i);
    var slice := SliceData(m.data, m.crc, i);
    HandleSlice(core1, id, Count(m), i, slice);
    HandleMade(sum, core, MESSAGE, MessagePayload(id, Count(m), i, slice), m.crc);
  }

  lemma MadeStart(sum: Sum, core: Core, s: nat, n: nat)
    requires s < LIMIT64 && n < LIMIT64
    ensures var f := MakeFrame(sum, STREAM_START, LittleEndian(s, 8) + LittleEndian(n, 8), false).value;
            HandleFrame(sum, core, f.header.frameType, f.header.flags, f.payload) ==
            StreamEffect(core, StreamEvent(STREAM_START, s, 0, n, 0, []))
  {
    HandleStart(core.(framesReceived := core.framesReceived + 1), s, n);
    HandleMade(sum, core, STREAM_START, LittleEndian(s, 8) + LittleEndian(n, 8), false);
  }

  lemma MadeChunk(sum: Sum, core: Core, s: nat, o: nat, d: seq<byte>)
    requires s < LIMIT64 && o < LIMIT64 && |d| + 16 <= MAX_FRAME_PAYLOAD
    ensures var f := MakeFrame(sum, STREAM_CHUNK, LittleEndian(s, 8) + LittleEndian(o, 8) + d, false).value;
            HandleFrame(sum, core, f.header.frameType, f.header.flags, f.payload) ==
            StreamEffect(core, StreamEvent(STREAM_CHUNK, s, o, 0, 0, d))
  {
    HandleChunk(core.(framesReceived := core.framesReceived + 1), s, o, d);
    HandleMade(sum, core, STREAM_CHUNK, LittleEndian(s, 8) + LittleEndian(o, 8) + d, false);
  }

  lemma MadeEnd(sum: Sum, core: Core, s: nat, c: nat)
    requires s < LIMIT64 && c < LIMIT32
    ensures var f := MakeFrame(sum, STREAM_END, LittleEndian(s, 8) + LittleEndian(c, 4), false).value;
            HandleFrame(sum, core, f.header.frameType, f.header.flags, f.payload) ==
            StreamEffect(core, StreamEvent(STREAM_END, s, 0, 0, c, []))
  {
    HandleEnd(core.(framesReceived := core.framesReceived + 1), s, c);
    HandleMade(sum, core, STREAM_END, LittleEndian(s, 8) + LittleEndian(c, 4), false);
  }

  /** The handler, as a value whose definition does not get in the way. */
  ghost predicate Handles(handle: Handler, core: Core, f: Frame, h: Handled) {
    handle(core, f.header.frameType, f.header.flags, f.payload) == h
  }

  lemma HandlerApplied(sum: Sum, core: Core, f: Frame, h: Handled)
    requires HandleFrame(sum, core, f.header.frameType, f.header.flags, f.payload) == h
    ensures Handles(FrameHandler(sum), core, f, h)
  {
  }

  lemma HandleStreamItem(sum: Sum, mail: Mail, core: Core, item: Item, f: Frame, h: Handled)
    requires ItemOk(mail, item) && !item.Slice?
    requires ItemFrame(sum, mail, item) == Ok(f) && h == StreamEffect(core, ItemEvent(item))
    ensures Handles(FrameHandler(sum), core, f, h)
  {
    match item
    case Start(s, n) => MadeStart(sum, core, s, n);
    case Chunk(s, o, d) => MadeChunk(sum, core, s, o, d);
    case End(s, c) => MadeEnd(sum, core, s, c);
    HandlerApplied(sum, core, f, h);
  }

  lemma HandleSliceItem(sum: Sum, core: Core, id: nat, m: Outgoing, i: nat, f: Frame, h: Handled)
    requires Sendable(id, m) && i < Count(m) && Offset(m.crc, i) <= |m.data|
    requires MessageFrame(sum, id, m.data, m.crc, i) == Ok(f)
    requires h == TakeSlice(core.(framesReceived := core.framesReceived + 1), id, Count(m), i, SliceData(m.data, m.crc, i))
    ensures Handles(FrameHandler(sum), core, f, h)
  {
    MadeSlice(sum, core, id, m, i);
    HandlerApplied(sum, core, f, h);
  }

  // ---------------------------------------------------------------- a stream of frames

  function Wire(frames: seq<Frame>): seq<byte>
    decreases |frames|
  {
    if frames == [] then [] else Wire(frames[..|frames| - 1]) + Serialize(frames[|frames| - 1])
  }

  /** `cores` are the decoder's states before and after each of the frames. */
  ghost predicate Trace(handle: Handler, frames: seq<Frame>, cores: seq<Core>) {
    && |cores| == |frames| + 1
    && forall k :: 0 <= k < |frames| ==>
         && WellFormed(frames[k]) && |frames[k].payload| <= MAX_FRAME_PAYLOAD
         && Handles(handle, cores[k], frames[k], Handled(cores[k + 1]))
  }

  lemma TracePrefix(handle: Handler, frames: seq<Frame>, cores: seq<Core>)
    requires frames != [] && Trace(handle, frames, cores)
    ensures Trace(handle, frames[..|frames| - 1], cores[..|frames|])
  {
  }

  lemma {:induction false} RunWire(handle: Handler, frames: seq<Frame>, cores: seq<Core>)
    requires Trace(handle, frames, cores)
    ensures Run(handle, Wire(frames), cores[0]) == Fed([], cores[|frames|])
    decreases |frames|
  {
    if frames != [] {
      var n := |frames| - 1;
      TracePrefix(handle, frames, cores);
      RunWire(handle, frames[..n], cores[..n + 1]);
      RunExtends(handle, Wire(frames[..n]), cores[0], Serialize(frames[n]));
      RunOne(handle, frames[n], cores[n], cores[n + 1]);
    }
  }

  lemma RunOne(handle: Handler, f: Frame, core: Core, core': Core)
    requires WellFormed(f) && |f.payload| <= MAX_FRAME_PAYLOAD
    requires Handles(handle, core, f, Handled(core'))
    ensures Run(handle, [] + Serialize(f), core) == Fed([], core')
  {
    assert [] + Serialize(f) == Serialize(f) + [];
    RoundOnFrame(handle, core, f, []);
    assert Run(handle, [], core') == Fed([], core');
  }

  // ---------------------------------------------------------------- schedules

  /** Frames of the mail's messages and of streams, in any order and repeated at will. */
  ghost predicate Items(mail: Mail, sched: seq<Item>) {
    forall k :: 0 <= k < |sched| ==> ItemOk(mail, sched[k])
  }

  /** The slices of message `id` among the frames sent. */
  ghost function Seen(sched: seq<Item>, id: nat): set<nat>
    decreases |sched|
  {
    if sched == [] then {} else
      var before := Seen(sched[..|sched| - 1], id);
      var last := sched[|sched| - 1];
      if last.Slice? && last.id == id then before + {last.i} else before
  }

  /** Have all slices of a message been sent? */
  ghost predicate Complete(mail: Mail, sched: seq<Item>, id: nat)
    requires id in mail
  {
    |Seen(sched, id)| == Count(mail[id])
  }

  /** Frames of the mail's messages and of streams, in any order; no slice of an already complete message. */
  ghost predicate Schedule(mail: Mail, sched: seq<Item>)
    decreases |sched|
  {
    sched == [] ||
    (var before, item := sched[..|sched| - 1], sched[|sched| - 1];
     Schedule(mail, before) && ItemOk(mail, item) && (item.Slice? ==> !Complete(mail, before, item.id)))
  }

  lemma {:induction false} SeenBounded(mail: Mail, sched: seq<Item>, id: nat)
    requires Schedule(mail, sched) && id in mail
    ensures forall i :: i in Seen(sched, id) ==> i < Count(mail[id])
    ensures |Seen(sched, id)| <= Count(mail[id])
    decreases |sched|
  {
    if sched != [] {
      SeenBounded(mail, sched[..|sched| - 1], id);
    }
  }

  // ---------------------------------------------------------------- what the decoder knows after a schedule

  /** The slices of a message that EncodeMessage accepts. */
  function Pieces(m: Outgoing): seq<seq<byte>> {
    if AllStart(|m.data|, m.crc, Count(m)) then Slices(m.data, m.crc, Count(m)) else []
  }

  lemma PieceFacts(id: nat, m: Outgoing, i: nat)
    requires Sendable(id, m)
    ensures |Pieces(m)| == Count(m) && 1 <= Count(m) <= MAX_MESSAGE_SLICES && Join(Pieces(m)) == m.data
    ensures i < Count(m) ==> Offset(m.crc, i) <= |m.data| && Pieces(m)[i] == SliceData(m.data, m.crc, i) && Pieces(m)[i] != []
  {
    CountFacts(id, m, i);
  }

  /** An assembly that holds exactly the slices seen. */
  ghost predicate Holds(pieces: seq<seq<byte>>, seen: set<nat>, a: Assembly) {
    && a.total == |pieces| == |a.slices| && a.received == |seen|
    && forall i :: 0 <= i < |pieces| ==> a.slices[i] == if i in seen then pieces[i] else []
  }

  ghost predicate TrackOne(mail: Mail, seen: set<nat>, core: Core, id: nat) {
    && (id in core.messages <==> id in mail && 0 < |seen| < Count(mail[id]))
    && (id in core.messages ==> Holds(Pieces(mail[id]), seen, core.messages[id]))
  }

  /** The messages in the order in which their last slice arrived. */
  ghost function Completions(mail: Mail, sched: seq<Item>): seq<Message>
    requires Schedule(mail, sched)
    decreases |sched|
  {
    if sched == [] then [] else
      var item := sched[|sched| - 1];
      var before := Completions(mail, sched[..|sched| - 1]);
      if item.Slice? && Complete(mail, sched, item.id) then before + [Message(item.id, mail[item.id].data)] else before
  }

  ghost function StreamEvents(sched: seq<Item>): seq<StreamEvent>
    decreases |sched|
  {
    if sched == [] then [] else
      var before := StreamEvents(sched[..|sched| - 1]);
      if sched[|sched| - 1].Slice? then before else before + [ItemEvent(sched[|sched| - 1])]
  }

  ghost predicate Track(mail: Mail, sched: seq<Item>, core: Core)
    requires Schedule(mail, sched)
  {
    && (forall id :: TrackOne(mail, Seen(sched, id), core, id))
    && core.completed == Completions(mail, sched)
    && core.events == StreamEvents(sched)
    && core.framesReceived == |sched| && core.crcErrors == 0
    && core.messagesCompleted == |core.completed| && core.streamEvents == |core.events|
  }

  /** A slice lands in its slot, whether it is new or a repetition. */
  lemma SliceLands(pieces: seq<seq<byte>>, seen: set<nat>, a: Assembly, i: nat)
    requires Holds(pieces, seen, a) && i < |pieces| <= MAX_MESSAGE_SLICES && |seen| < |pieces| && pieces[i] != []
    ensures Holds(pieces, seen + {i}, Stored(a, i, pieces[i]))
  {
    if i in seen { assert seen + {i} == seen; }
  }

  lemma BlankHolds(pieces: seq<seq<byte>>)
    ensures Holds(pieces, {}, Assembly(|pieces|, BlankSlices(|pieces|), 0))
  {
  }

  lemma {:induction false} Cardinality(n: nat, seen: set<nat>)
    requires forall i :: i in seen ==> i < n
    ensures |seen| <= n && (|seen| == n ==> forall i :: 0 <= i < n ==> i in seen)
    decreases n
  {
    if n > 0 {
      Cardinality(n - 1, seen - {n - 1});
      if n - 1 !in seen {
        assert seen - {n - 1} == seen;
      } else {
        assert |seen - {n - 1}| == |seen| - 1;
        assert forall i :: 0 <= i < n - 1 && i in seen - {n - 1} ==> i in seen;
      }
    } else {
      assert seen == {};
    }
  }

  /** With every slice seen, the joined slots are the message. */
  lemma AllSeenIsMessage(pieces: seq<seq<byte>>, seen: set<nat>, a: Assembly)
    requires Holds(pieces, seen, a) && |seen| == |pieces| && forall i :: i in seen ==> i < |pieces|
    ensures a.slices == pieces && a.received == a.total
  {
    Cardinality(|pieces|, seen);
  }

  /** The assembly a slice finds: the one under way, or a blank one for a message nothing has been seen of. */
  lemma OpenedHolds(mail: Mail, seen: set<nat>, core: Core, id: nat)
    requires id in mail && Sendable(id, mail[id]) && TrackOne(mail, seen, core, id) && |seen| < Count(mail[id])
    ensures Holds(Pieces(mail[id]), seen, Opened(core, id, Count(mail[id])))
  {
    PieceFacts(id, mail[id], 0);
    if id !in core.messages {
      assert seen == {};
      BlankHolds(Pieces(mail[id]));
    }
  }

  /** The step from core to core' concerns message id only, and delivers it when `all`. */
  ghost predicate Delivers(core: Core, core': Core, id: nat, data: seq<byte>, all: bool) {
    && core' == core.(messages := core'.messages, completed := core'.completed, messagesCompleted := core'.messagesCompleted)
    && (forall other :: other != id ==> (other in core'.messages <==> other in core.messages))
    && (forall other :: other != id && other in core.messages ==> core'.messages[other] == core.messages[other])
    && core'.completed == (if all then core.completed + [Message(id, data)] else core.completed)
    && core'.messagesCompleted == (if all then core.messagesCompleted + 1 else core.messagesCompleted)
  }

  lemma SettledTracked(mail: Mail, seen: set<nat>, core: Core, id: nat, a: Assembly)
    requires id in mail && Sendable(id, mail[id]) && seen != {}
    requires Holds(Pieces(mail[id]), seen, a) && forall k :: k in seen ==> k < Count(mail[id])
    ensures TrackOne(mail, seen, Settled(core, id, a), id)
    ensures Delivers(core, Settled(core, id, a), id, mail[id].data, |seen| == Count(mail[id]))
  {
    var pieces := Pieces(mail[id]);
    PieceFacts(id, mail[id], 0);
    Cardinality(|pieces|, seen);
    if |seen| == |pieces| { AllSeenIsMessage(pieces, seen, a); }
  }

  /** One slice more: the assembly grows, or the message is delivered and its assembly goes away. */
  lemma SliceTracked(mail: Mail, seen: set<nat>, core: Core, id: nat, i: nat)
    requires id in mail && Sendable(id, mail[id]) && i < Count(mail[id])
    requires TrackOne(mail, seen, core, id) && |seen| < Count(mail[id])
    requires forall k :: k in seen ==> k < Count(mail[id])
    ensures Offset(mail[id].crc, i) <= |mail[id].data|
    ensures var h := TakeSlice(core, id, Count(mail[id]), i, SliceData(mail[id].data, mail[id].crc, i));
            && h.Handled? && TrackOne(mail, seen + {i}, h.core, id)
            && Delivers(core, h.core, id, mail[id].data, |seen + {i}| == Count(mail[id]))
  {
    SliceSettles(mail, seen, core, id, i);
    SliceTaken(core, id, Count(mail[id]), i, SliceData(mail[id].data, mail[id].crc, i));
  }

  lemma SliceSettles(mail: Mail, seen: set<nat>, core: Core, id: nat, i: nat)
    requires id in mail && Sendable(id, mail[id]) && i < Count(mail[id])
    requires TrackOne(mail, seen, core, id) && |seen| < Count(mail[id])
    requires forall k :: k in seen ==> k < Count(mail[id])
    ensures Offset(mail[id].crc, i) <= |mail[id].data| && i < |Opened(core, id, Count(mail[id])).slices|
    ensures var b := Stored(Opened(core, id, Count(mail[id])), i, SliceData(mail[id].data, mail[id].crc, i));
            && TrackOne(mail, seen + {i}, Settled(core, id, b), id)
            && Delivers(core, Settled(core, id, b), id, mail[id].data, |seen + {i}| == Count(mail[id]))
  {
    var pieces, a := Pieces(mail[id]), Opened(core, id, Count(mail[id]));
    PieceFacts(id, mail[id], i);
    assert Holds(pieces, seen, a) by { OpenedHolds(mail, seen, core, id); }
    assert Holds(pieces, seen + {i}, Stored(a, i, pieces[i])) by { SliceLands(pieces, seen, a, i); }
    SettledTracked(mail, seen + {i}, core, id, Stored(a, i, pieces[i]));
  }

  lemma SliceTaken(core: Core, id: nat, total: nat, i: nat, slice: seq<byte>)
    requires i < total && i < |Opened(core, id, total).slices|
    ensures TakeSlice(core, id, total, i, slice) == Handled(Settled(core, id, Stored(Opened(core, id, total), i, slice)))
  {
  }

  // ---------------------------------------------------------------- whole schedules

  lemma TrackDelivered(mail: Mail, sched: seq<Item>, core: Core, item: Item, core': Core)
    requires Schedule(mail, sched) && Track(mail, sched, core) && Schedule(mail, sched + [item]) && item.Slice?
    requires (sched + [item])[..|sched|] == sched
    requires TrackOne(mail, Seen(sched, item.id) + {item.i}, core', item.id)
    requires Delivers(core.(framesReceived := core.framesReceived + 1), core', item.id, mail[item.id].data,
                      |Seen(sched, item.id) + {item.i}| == Count(mail[item.id]))
    ensures Track(mail, sched + [item], core')
  {
    var id, sched' := item.id, sched + [item];
    assert Seen(sched', id) == Seen(sched, id) + {item.i};
    forall other ensures TrackOne(mail, Seen(sched', other), core', other) {
      if other != id {
        assert Seen(sched', other) == Seen(sched, other);
        assert TrackOne(mail, Seen(sched, other), core, other);
      }
    }
  }

  lemma TrackSlice(mail: Mail, sched: seq<Item>, core: Core, item: Item) returns (core': Core)
    requires Schedule(mail, sched) && Track(mail, sched, core) && Schedule(mail, sched + [item]) && item.Slice?
    requires (sched + [item])[..|sched|] == sched
    ensures Offset(mail[item.id].crc, item.i) <= |mail[item.id].data|
    ensures TakeSlice(core.(framesReceived := core.framesReceived + 1), item.id, Count(mail[item.id]), item.i,
                      SliceData(mail[item.id].data, mail[item.id].crc, item.i)) == Handled(core')
    ensures Track(mail, sched + [item], core')
  {
    var id, i := item.id, item.i;
    var core1 := core.(framesReceived := core.framesReceived + 1);
    SeenBounded(mail, sched, id);
    assert TrackOne(mail, Seen(sched, id), core, id);
    SliceTracked(mail, Seen(sched, id), core1, id, i);
    core' := TakeSlice(core1, id, Count(mail[id]), i, SliceData(mail[id].data, mail[id].crc, i)).core;
    TrackDelivered(mail, sched, core, item, core');
  }

  lemma TrackStream(mail: Mail, sched: seq<Item>, core: Core, item: Item) returns (core': Core)
    requires Schedule(mail, sched) && Track(mail, sched, core) && Schedule(mail, sched + [item]) && !item.Slice?
    requires (sched + [item])[..|sched|] == sched
    ensures StreamEffect(core, ItemEvent(item)) == Handled(core')
    ensures Track(mail, sched + [item], core')
  {
    core' := StreamEffect(core, ItemEvent(item)).core;
    forall other ensures TrackOne(mail, Seen(sched + [item], other), core', other) {
      assert Seen(sched + [item], other) == Seen(sched, other);
      assert TrackOne(mail, Seen(sched, other), core, other);
    }
  }

  ghost predicate IsItemFrame(sum: Sum, mail: Mail, item: Item, f: Frame) {
    ItemOk(mail, item) && ItemFrame(sum, mail, item) == Ok(f) && WellFormed(f) && |f.payload| <= MAX_FRAME_PAYLOAD
  }

  /** The encoded frames of a schedule, in its order. */
  ghost predicate Encodes(sum: Sum, mail: Mail, sched: seq<Item>, frames: seq<Frame>) {
    |frames| == |sched| && forall k :: 0 <= k < |sched| ==> IsItemFrame(sum, mail, sched[k], frames[k])
  }

  /** Every sequence of items can be encoded. */
  lemma {:induction false} CanEncode(sum: Sum, mail: Mail, sched: seq<Item>) returns (frames: seq<Frame>)
    requires Items(mail, sched)
    ensures Encodes(sum, mail, sched, frames)
    decreases |sched|
  {
    if sched == [] {
      frames := [];
    } else {
      var n := |sched| - 1;
      assert forall k :: 0 <= k < n ==> sched[..n][k] == sched[k];
      var before := CanEncode(sum, mail, sched[..n]);
      var f := CanFrame(sum, mail, sched[n]);
      EncodesMore(sum, mail, sched[..n], before, sched[n], f);
      frames := before + [f];
      assert sched == sched[..n] + [sched[n]];
    }
  }

  lemma CanFrame(sum: Sum, mail: Mail, item: Item) returns (f: Frame)
    requires ItemOk(mail, item)
    ensures IsItemFrame(sum, mail, item, f)
  {
    ItemFrameOk(sum, mail, item);
    f := ItemFrame(sum, mail, item).value;
  }

  lemma EncodesMore(sum: Sum, mail: Mail, sched: seq<Item>, frames: seq<Frame>, item: Item, f: Frame)
    requires Encodes(sum, mail, sched, frames) && IsItemFrame(sum, mail, item, f)
    ensures Encodes(sum, mail, sched + [item], frames + [f])
  {
  }

  lemma SliceStep(sum: Sum, mail: Mail, sched: seq<Item>, core: Core, item: Item, f: Frame) returns (core': Core)
    requires Schedule(mail, sched) && Track(mail, sched, core) && Schedule(mail, sched + [item]) && item.Slice?
    requires (sched + [item])[..|sched|] == sched && ItemOk(mail, item) && ItemFrame(sum, mail, item) == Ok(f)
    ensures Handles(FrameHandler(sum), core, f, Handled(core')) && Track(mail, sched + [item], core')
  {
    core' := TrackSlice(mail, sched, core, item);
    HandleSliceItem(sum, core, item.id, mail[item.id], item.i, f, Handled(core'));
  }

  lemma StreamStep(sum: Sum, mail: Mail, sched: seq<Item>, core: Core, item: Item, f: Frame) returns (core': Core)
    requires Schedule(mail, sched) && Track(mail, sched, core) && Schedule(mail, sched + [item]) && !item.Slice?
    requires (sched + [item])[..|sched|] == sched && ItemOk(mail, item) && ItemFrame(sum, mail, item) == Ok(f)
    ensures Handles(FrameHandler(sum), core, f, Handled(core')) && Track(mail, sched + [item], core')
  {
    core' := TrackStream(mail, sched, core, item);
    HandleStreamItem(sum, mail, core, item, f, Handled(core'));
  }

  lemma ItemStep(sum: Sum, mail: Mail, sched: seq<Item>, core: Core, item: Item, f: Frame) returns (core': Core)
    requires Schedule(mail, sched) && Track(mail, sched, core) && Schedule(mail, sched + [item])
    requires IsItemFrame(sum, mail, item, f)
    ensures Handles(FrameHandler(sum), core, f, Handled(core')) && Track(mail, sched + [item], core')
  {
    assert (sched + [item])[..|sched|] == sched;
    if item.Slice? { core' := SliceStep(sum, mail, sched, core, item, f); }
    else { core' := StreamStep(sum, mail, sched, core, item, f); }
  }

  lemma EncodesFront(sum: Sum, mail: Mail, sched: seq<Item>, frames: seq<Frame>, n: nat)
    requires Encodes(sum, mail, sched, frames) && n + 1 == |sched|
    ensures Encodes(sum, mail, sched[..n], frames[..n]) && IsItemFrame(sum, mail, sched[n], frames[n])
    ensures sched == sched[..n] + [sched[n]] && frames == frames[..n] + [frames[n]]
  {
    PairsFront((item: Item, f: Frame) => IsItemFrame(sum, mail, item, f), sched, frames, n);
  }

  lemma PairsFront<A, B>(p: (A, B) -> bool, a: seq<A>, b: seq<B>, n: nat)
    requires |a| == |b| == n + 1 && forall k :: 0 <= k < |a| ==> p(a[k], b[k])
    ensures forall k :: 0 <= k < n ==> p(a[..n][k], b[..n][k])
    ensures p(a[n], b[n]) && a == a[..n] + [a[n]] && b == b[..n] + [b[n]]
  {
  }

  lemma TrackNothing(mail: Mail)
    ensures Track(mail, [], EMPTY)
  {
  }

  /** The decoder's states along a schedule. */
  lemma {:induction false} TraceOf(sum: Sum, mail: Mail, sched: seq<Item>, frames: seq<Frame>) returns (cores: seq<Core>)
    requires Schedule(mail, sched) && Encodes(sum, mail, sched, frames)
    ensures Trace(FrameHandler(sum), frames, cores) && cores[0] == EMPTY
    ensures Track(mail, sched, cores[|sched|])
    decreases |sched|
  {
    if sched == [] {
      cores := [EMPTY];
      TrackNothing(mail);
    } else {
      var n := |sched| - 1;
      var before, item, f := sched[..n], sched[n], frames[n];
      EncodesFront(sum, mail, sched, frames, n);
      cores := TraceOf(sum, mail, before, frames[..n]);
      var core' := ItemStep(sum, mail, before, cores[n], item, f);
      TraceGrows(FrameHandler(sum), frames[..n], cores, f, core');
      cores := cores + [core'];
    }
  }

  lemma TraceGrows(handle: Handler, frames: seq<Frame>, cores: seq<Core>, f: Frame, core': Core)
    requires Trace(handle, frames, cores) && WellFormed(f) && |f.payload| <= MAX_FRAME_PAYLOAD
    requires Handles(handle, cores[|frames|], f, Handled(core'))
    ensures Trace(handle, frames + [f], cores + [core'])
  {
  }

  // ---------------------------------------------------------------- main results

  /** Each complete message exactly once with its bytes, and an assembly exactly for each message under way. */
  ghost predicate Exact(mail: Mail, sched: seq<Item>, core: Core) {
    && (forall j, k :: 0 <= j < k < |core.completed| ==> core.completed[j].id != core.completed[k].id)
    && (forall k :: 0 <= k < |core.completed| ==>
          var m := core.completed[k]; m.id in mail && m.data == mail[m.id].data && Complete(mail, sched, m.id))
    && (forall id :: id in mail && Complete(mail, sched, id) ==> Message(id, mail[id].data) in core.completed)
    && (forall id :: id in core.messages <==> id in mail && Seen(sched, id) != {} && !Complete(mail, sched, id))
  }

  ghost predicate Distinct(ms: seq<Message>) {
    forall j, k :: 0 <= j < k < |ms| ==> ms[j].id != ms[k].id
  }

  ghost predicate FromMail(mail: Mail, sched: seq<Item>, ms: seq<Message>) {
    forall k :: 0 <= k < |ms| ==> ms[k].id in mail && ms[k].data == mail[ms[k].id].data && Complete(mail, sched, ms[k].id)
  }

  /** Completeness only grows, and only by the last item's message. */
  lemma CompleteGrows(mail: Mail, sched: seq<Item>, id: nat)
    requires sched != [] && Schedule(mail, sched) && id in mail
    ensures var before, item := sched[..|sched| - 1], sched[|sched| - 1];
            Complete(mail, sched, id) <==> Complete(mail, before, id) || (item.Slice? && item.id == id && Complete(mail, sched, id))
  {
    var before, item := sched[..|sched| - 1], sched[|sched| - 1];
    if item.Slice? && item.id == id {
      SeenBounded(mail, sched, id);
    }
  }

  lemma {:induction false} CompletionsExact(mail: Mail, sched: seq<Item>)
    requires Schedule(mail, sched) && AllSendable(mail)
    ensures Distinct(Completions(mail, sched)) && FromMail(mail, sched, Completions(mail, sched))
    ensures forall id :: id in mail && Complete(mail, sched, id) ==> Message(id, mail[id].data) in Completions(mail, sched)
    decreases |sched|
  {
    if sched == [] {
      forall id | id in mail ensures !Complete(mail, sched, id) { CountFacts(id, mail[id], 0); }
    } else {
      var before, item := sched[..|sched| - 1], sched[|sched| - 1];
      CompletionsExact(mail, before);
      var was, now := Completions(mail, before), Completions(mail, sched);
      forall id | id in mail
        ensures Complete(mail, sched, id) <==> Complete(mail, before, id) || (item.Slice? && item.id == id && Complete(mail, sched, id))
      {
        CompleteGrows(mail, sched, id);
      }
      forall id | id in mail && Complete(mail, sched, id) ensures Message(id, mail[id].data) in now {
        if Complete(mail, before, id) { assert Message(id, mail[id].data) in was; }
      }
    }
  }

  lemma TrackIsExact(mail: Mail, sched: seq<Item>, core: Core)
    requires Schedule(mail, sched) && AllSendable(mail) && Track(mail, sched, core)
    ensures Exact(mail, sched, core)
  {
    CompletionsExact(mail, sched);
    forall id ensures id in core.messages <==> id in mail && Seen(sched, id) != {} && !Complete(mail, sched, id) {
      assert TrackOne(mail, Seen(sched, id), core, id);
      if id in mail { SeenBounded(mail, sched, id); }
    }
  }

  /**
   Whatever the messages, checksummed or not, whatever the order and interleaving of their frames with
   each other and with stream frames, however often a slice is repeated before its message is complete,
   and however the bytes are cut into Feed calls: nothing is left in the buffer, every complete message
   has come out exactly once with its bytes, and the stream events have come out in order.
   */
  lemma EveryMessageArrivesOnce(sum: Sum, mail: Mail, sched: seq<Item>, frames: seq<Frame>, chunks: seq<seq<byte>>)
    requires AllSendable(mail) && Schedule(mail, sched) && Encodes(sum, mail, sched, frames)
    requires Flatten(chunks) == Wire(frames)
    ensures var fed := FeedAll(FrameHandler(sum), Fed([], EMPTY), chunks);
            fed.Fed? && fed.buffer == [] && Exact(mail, sched, fed.core) && fed.core.events == StreamEvents(sched)
  {
    var handle := FrameHandler(sum);
    var cores := TraceOf(sum, mail, sched, frames);
    RunWire(handle, frames, cores);
    TrackIsExact(mail, sched, cores[|sched|]);
    FeedsLikeRun(handle, Wire(frames), chunks);
  }

  lemma FeedsLikeRun(handle: Handler, bytes: seq<byte>, chunks: seq<seq<byte>>)
    requires Flatten(chunks) == bytes && Run(handle, bytes, EMPTY).Fed?
    ensures FeedAll(handle, Fed([], EMPTY), chunks) == Run(handle, bytes, EMPTY)
  {
    assert [] + bytes == bytes;
    assert Run(handle, [], EMPTY) == Fed([], EMPTY);
    CuttingIsInvisible(handle, Fed([], EMPTY), chunks);
    var fed := FeedAll(handle, Fed([], EMPTY), chunks);
    assert fed.Fed? ==> fed.buffer + [] == fed.buffer;
  }

  /** When every slice of every message has been sent, all have been delivered and no assembly is pending. */
  lemma NothingIsPending(mail: Mail, sched: seq<Item>, core: Core)
    requires Exact(mail, sched, core) && forall id :: id in mail ==> Complete(mail, sched, id)
    ensures core.messages == map[] && |core.completed| == |mail|
    ensures forall id :: id in mail ==> Message(id, mail[id].data) in core.completed
  {
    assert forall id :: id !in core.messages;
    var ids := set k | 0 <= k < |core.completed| :: core.completed[k].id;
    assert ids == mail.Keys by {
      forall id | id in mail ensures id in ids {
        assert Message(id, mail[id].data) in core.completed;
      }
    }
    DistinctCount(core.completed);
  }

  lemma {:induction false} DistinctCount(ms: seq<Message>)
    requires Distinct(ms)
    ensures |set k | 0 <= k < |ms| :: ms[k].id| == |ms|
    decreases |ms|
  {
    var ids := set k | 0 <= k < |ms| :: ms[k].id;
    if ms == [] {
      assert ids == {};
    } else {
      var n := |ms| - 1;
      var before := set k | 0 <= k < n :: ms[..n][k].id;
      DistinctCount(ms[..n]);
      assert before == set k | 0 <= k < |ms[..n]| :: ms[..n][k].id;
      assert ids == before + {ms[n].id};
      assert ms[n].id !in before;
    }
  }

  lemma SeenAgain(mail: Mail, sched: seq<Item>, id: nat, i: nat)
    requires Schedule(mail, sched) && id in mail && i < Count(mail[id]) && Complete(mail, sched, id)
    ensures Complete(mail, sched + [Slice(id, i)], id)
  {
    SeenBounded(mail, sched, id);
    Cardinality(Count(mail[id]), Seen(sched, id));
    assert (sched + [Slice(id, i)])[..|sched|] == sched;
    assert Seen(sched, id) + {i} == Seen(sched, id);
  }

  lemma TwiceOrPending(mail: Mail, sched: seq<Item>, core: Core, core': Core, id: nat, seen: set<nat>)
    requires id in mail && Complete(mail, sched, id) && Message(id, mail[id].data) in core.completed
    requires TrackOne(mail, seen, core', id) && Delivers(core, core', id, mail[id].data, |seen| == Count(mail[id]))
    requires 0 < |seen| <= Count(mail[id])
    ensures !Exact(mail, sched, core')
  {
    if |seen| == Count(mail[id]) {
      var k :| 0 <= k < |core.completed| && core.completed[k] == Message(id, mail[id].data);
      assert core'.completed[k].id == core'.completed[|core.completed|].id;
    } else {
      assert id in core'.messages;
    }
  }

  /** The decoder has forgotten a delivered message. */
  lemma DeliveredIsForgotten(mail: Mail, seen: set<nat>, core: Core, id: nat)
    requires id in mail && TrackOne(mail, seen, core, id) && |seen| == Count(mail[id])
    ensures TrackOne(mail, {}, core, id)
  {
  }

  /** One slice of a complete message more, and the message is delivered twice or lingers half assembled. */
  lemma LateSliceBreaksIt(mail: Mail, sched: seq<Item>, core: Core, id: nat, i: nat, slice: seq<byte>)
    requires Schedule(mail, sched) && AllSendable(mail) && Track(mail, sched, core)
    requires id in mail && i < Count(mail[id]) && Complete(mail, sched, id)
    requires Offset(mail[id].crc, i) <= |mail[id].data| && slice == SliceData(mail[id].data, mail[id].crc, i)
    ensures var h := TakeSlice(core, id, Count(mail[id]), i, slice);
            h.Handled? && !Exact(mail, sched + [Slice(id, i)], h.core)
  {
    assert TrackOne(mail, Seen(sched, id), core, id);
    DeliveredIsForgotten(mail, Seen(sched, id), core, id);
    SliceTracked(mail, {}, core, id, i);
    SeenAgain(mail, sched, id, i);
    assert Message(id, mail[id].data) in core.completed by { CompletionsExact(mail, sched); }
    var h := TakeSlice(core, id, Count(mail[id]), i, slice);
    TwiceOrPending(mail, sched + [Slice(id, i)], core, h.core, id, {} + {i});
  }
}
