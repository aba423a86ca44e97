/**
 What the Decoder accepts (src/darwincore/network/protocol.cpp): which byte strings are frames, and how every
 byte stream ends.  The converse of Reassembly.dfy, which starts from frames that an encoder has built.
 */
module Acceptance {
  import opened Bytes
  import opened Frames
  import opened Decoder
  import opened Reassembly

  // ---------------------------------------------------------------- frames

  /** Every sixteen bytes are the header that they parse to. */
  lemma HeaderParsed(b: seq<byte>)
    requires |b| >= HEADER_SIZE
    ensures Fits(ParseHeader(b)) && HeaderBytes(ParseHeader(b)) == b[..HEADER_SIZE]
  {
    Loaded16(b[4..6]);
    Loaded32(b[6..10]);
    Loaded32(b[10..14]);
    Loaded16(b[14..16]);
    HeaderJoined(b, ParseHeader(b));
  }

  lemma HeaderJoined(b: seq<byte>, h: Header)
    requires |b| >= HEADER_SIZE && h.magic1 == b[0] && h.magic2 == b[1] && h.version == b[2] && h.frameType == b[3]
    requires LittleEndian(h.flags, 2) == b[4..6] && LittleEndian(h.payloadLen, 4) == b[6..10]
    requires LittleEndian(h.reserved, 4) == b[10..14] && LittleEndian(h.reserved2, 2) == b[14..16]
    ensures HeaderBytes(h) == b[..HEADER_SIZE]
  {
    assert b[..HEADER_SIZE] == [b[0], b[1], b[2], b[3]] + b[4..6] + b[6..10] + b[10..14] + b[14..16];
  }

  lemma Loaded16(s: seq<byte>)
    requires |s| == 2
    ensures Value(s) < 0x1_0000 && LittleEndian(Value(s), 2) == s
  {
    Widths();
    StoreLoaded(s);
  }

  lemma Loaded32(s: seq<byte>)
    requires |s| == 4
    ensures Value(s) < 0x1_0000_0000 && LittleEndian(Value(s), 4) == s
  {
    Widths();
    StoreLoaded(s);
  }

  /** A string that starts with a header and its payload is that frame, followed by something. */
  lemma FrameParsed(b: seq<byte>)
    requires |b| >= HEADER_SIZE && |b| >= HEADER_SIZE + ParseHeader(b).payloadLen
    ensures var h := ParseHeader(b); var size := HEADER_SIZE + h.payloadLen;
            b == Serialize(Frame(h, b[HEADER_SIZE..size])) + b[size..]
  {
    HeaderParsed(b);
    var size := HEADER_SIZE + ParseHeader(b).payloadLen;
    assert b == b[..HEADER_SIZE] + b[HEADER_SIZE..size] + b[size..];
  }

  /** Deserialize accepts exactly the strings that begin with the serialization of a well-formed frame, as that frame. */
  lemma DeserializesExactly(data: seq<byte>, f: Frame)
    ensures Deserialize(data) == Some(f) <==> WellFormed(f) && Serialize(f) <= data
  {
    if WellFormed(f) && Serialize(f) <= data {
      DeserializeSerialized(f, data[|Serialize(f)|..]);
      assert data == Serialize(f) + data[|Serialize(f)|..];
    }
    if Deserialize(data) == Some(f) {
      HeaderParsed(data);
      FrameParsed(data);
    }
  }

  // ---------------------------------------------------------------- streams

  /** What is wrong with the header at the start of a stream, byte by byte. */
  function Fault(b: seq<byte>): Option<Error> {
    if |b| < 16 then None
    else if b[0] != 0x5A || b[1] != 0x5C then Some(BadMagic)
    else if b[2] != 0x01 then Some(BadVersion)
    else if Value(b[6..10]) > 262144 then Some(PayloadTooLarge)
    else None
  }

  /** A strict part of a frame: of its header, or of its payload behind a header without fault. */
  predicate Part(b: seq<byte>) {
    |b| < 16 || (Fault(b).None? && |b| < 16 + Value(b[6..10]))
  }

  /** A frame that the decoder cuts out of the stream. */
  predicate Sized(f: Frame) {
    WellFormed(f) && |f.payload| <= 262144
  }

  /** The start of a stream is a part, has a fault, or is a whole frame; never two of these. */
  lemma Starts(b: seq<byte>) returns (f: Frame)
    ensures !Part(b) && Fault(b).None? ==> Sized(f) && Serialize(f) <= b
    ensures Part(b) ==> Fault(b).None?
  {
    f := Frame(Header(0, 0, 0, 0, 0, 0, 0, 0), []);
    if !Part(b) && Fault(b).None? {
      f := Frame(ParseHeader(b), b[HEADER_SIZE..HEADER_SIZE + ParseHeader(b).payloadLen]);
      HeaderParsed(b);
      FrameParsed(b);
    }
  }

  /** One round waits for the rest of a part, throws the fault, and handles a whole frame. */
  lemma RoundStarts(handle: Handler, b: seq<byte>, core: Core, f: Frame)
    ensures Part(b) ==> Round(handle, b, core) == NeedMore
    ensures Fault(b).Some? ==> Round(handle, b, core) == Throws(Fault(b).value, core)
    ensures Sized(f) && Serialize(f) <= b ==>
              Round(handle, b, core) ==
              AsOutcome(handle(core, f.header.frameType, f.header.flags, f.payload), b[|Serialize(f)|..])
  {
    if Sized(f) && Serialize(f) <= b {
      var rest := b[|Serialize(f)|..];
      assert b == Serialize(f) + rest;
      RoundOnFrame(handle, core, f, rest);
    }
  }

  /** The stream is these frames, handled one after another from one state to another, and then the rest. */
  ghost predicate Reads(handle: Handler, b: seq<byte>, core: Core, frames: seq<Frame>, cores: seq<Core>, rest: seq<byte>, end: Core) {
    Trace(handle, frames, cores) && cores[0] == core && cores[|frames|] == end && b == Wire(frames) + rest
  }

  ghost predicate ReadsTo(handle: Handler, b: seq<byte>, core: Core, rest: seq<byte>, end: Core) {
    exists frames: seq<Frame>, cores: seq<Core> :: Reads(handle, b, core, frames, cores, rest, end)
  }

  lemma ReadsNothing(handle: Handler, b: seq<byte>, core: Core)
    ensures ReadsTo(handle, b, core, b, core)
  {
    assert b == Wire([]) + b;
    assert Reads(handle, b, core, [], [core], b, core);
  }

  /** The strings of some items, one after another. */
  ghost function Chain<F>(text: F -> seq<byte>, items: seq<F>): seq<byte>
    decreases |items|
  {
    if items == [] then [] else Chain(text, items[..|items| - 1]) + text(items[|items| - 1])
  }

  lemma {:induction false} ChainCons<F>(text: F -> seq<byte>, f: F, items: seq<F>)
    ensures Chain(text, [f] + items) == text(f) + Chain(text, items)
    decreases |items|
  {
    var all, n := [f] + items, |items|;
    if n == 0 {
      assert all[..0] == [] && all[0] == f;
    } else {
      assert all[..n] == [f] + items[..n - 1] && all[n] == items[n - 1];
      ChainCons(text, f, items[..n - 1]);
      Regroup(text(f), Chain(text, items[..n - 1]), text(items[n - 1]));
    }
  }

  lemma {:induction false} WireIsChain(frames: seq<Frame>)
    ensures Wire(frames) == Chain(Serialize, frames)
    decreases |frames|
  {
    if frames != [] { WireIsChain(frames[..|frames| - 1]); }
  }

  lemma WireCons(f: Frame, frames: seq<Frame>)
    ensures Wire([f] + frames) == Serialize(f) + Wire(frames)
  {
    WireIsChain([f] + frames);
    WireIsChain(frames);
    ChainCons(Serialize, f, frames);
  }

  lemma Regroup<T>(a: seq<T>, b: seq<T>, c: seq<T>)
    ensures (a + b) + c == a + (b + c)
  {
  }

  lemma TraceCons(handle: Handler, f: Frame, core: Core, frames: seq<Frame>, cores: seq<Core>)
    requires Trace(handle, frames, cores) && Sized(f) && Handles(handle, core, f, Handled(cores[0]))
    ensures Trace(handle, [f] + frames, [core] + cores)
  {
    var fs, cs := [f] + frames, [core] + cores;
    forall k | 0 <= k < |fs|
      ensures WellFormed(fs[k]) && |fs[k].payload| <= MAX_FRAME_PAYLOAD && Handles(handle, cs[k], fs[k], Handled(cs[k + 1]))
    {
      if k > 0 { assert fs[k] == frames[k - 1]; }
    }
  }

  /** A frame in front of a stream that reads. */
  lemma ReadsFrame(handle: Handler, f: Frame, b: seq<byte>, core: Core, core': Core, rest: seq<byte>, end: Core)
    requires Sized(f) && Handles(handle, core, f, Handled(core')) && ReadsTo(handle, b, core', rest, end)
    ensures ReadsTo(handle, Serialize(f) + b, core, rest, end)
  {
    var frames, cores :| Reads(handle, b, core', frames, cores, rest, end);
    assert Trace(handle, [f] + frames, [core] + cores) by { TraceCons(handle, f, core, frames, cores); }
    assert Serialize(f) + b == Wire([f] + frames) + rest by {
      WireCons(f, frames);
      Regroup(Serialize(f), Wire(frames), rest);
    }
    assert Reads(handle, Serialize(f) + b, core, [f] + frames, [core] + cores, rest, end);
  }

  /** A stream that reads ends like its rest. */
  lemma ReadsOn(handle: Handler, b: seq<byte>, core: Core, rest: seq<byte>, end: Core)
    requires ReadsTo(handle, b, core, rest, end)
    ensures Run(handle, b, core) == Run(handle, rest, end)
  {
    var frames, cores :| Reads(handle, b, core, frames, cores, rest, end);
    RunWire(handle, frames, cores);
    RunExtends(handle, Wire(frames), core, rest);
    assert [] + rest == rest;
  }

  /** Every stream reads up to a place where a round does not go on. */
  lemma {:induction false} ReadsFar(handle: Handler, b: seq<byte>, core: Core) returns (rest: seq<byte>, end: Core)
    ensures ReadsTo(handle, b, core, rest, end) && !Round(handle, rest, end).Progress?
    decreases |b|
  {
    var o := Round(handle, b, core);
    var f := Starts(b);
    RoundStarts(handle, b, core, f);
    if o.Progress? {
      rest, end := ReadsFar(handle, o.rest, o.core);
      ReadsFrame(handle, f, o.rest, core, o.core, rest, end);
      assert b == Serialize(f) + o.rest;
    } else {
      rest, end := b, core;
      ReadsNothing(handle, b, core);
    }
  }

  /**
   For every byte stream: the decoder ends waiting with a leftover exactly if the stream is a number of well-formed
   frames, each of which was handled, and then that leftover, which is a strict part of a frame.
   */
  lemma WaitsExactly(handle: Handler, b: seq<byte>, core: Core, rest: seq<byte>, end: Core)
    ensures Run(handle, b, core) == Fed(rest, end) <==> ReadsTo(handle, b, core, rest, end) && Part(rest)
  {
    if ReadsTo(handle, b, core, rest, end) && Part(rest) {
      WaitsOn(handle, b, core, rest, end);
    }
    if Run(handle, b, core) == Fed(rest, end) {
      var r, e := ReadsFar(handle, b, core);
      Stopped(handle, b, core, r, e);
    }
  }

  lemma WaitsOn(handle: Handler, b: seq<byte>, core: Core, rest: seq<byte>, end: Core)
    requires ReadsTo(handle, b, core, rest, end) && Part(rest)
    ensures Run(handle, b, core) == Fed(rest, end)
  {
    ReadsOn(handle, b, core, rest, end);
    var f := Starts(rest);
    RoundStarts(handle, rest, end, f);
  }

  /** Where reading stops, the run ends: with a part, a fault, or a frame that is not handled. */
  lemma Stopped(handle: Handler, b: seq<byte>, core: Core, rest: seq<byte>, end: Core)
    requires ReadsTo(handle, b, core, rest, end) && !Round(handle, rest, end).Progress?
    ensures Run(handle, b, core).Fed? ==> Run(handle, b, core) == Fed(rest, end) && Part(rest)
    ensures Fault(rest).Some? ==> Run(handle, b, core) == Thrown(Fault(rest).value, rest, end)
    ensures !Part(rest) && Fault(rest).None? ==>
              exists f :: Sized(f) && Run(handle, b, core) == match handle(end, f.header.frameType, f.header.flags, f.payload) {
                case Rejects(e, c) => Thrown(e, rest, c)
                case _ => Crashed
              }
  {
    ReadsOn(handle, b, core, rest, end);
    var f := Starts(rest);
    RoundStarts(handle, rest, end, f);
  }

  /** The only exception that the frames themselves raise is that of a slice index. */
  lemma FramesRaise(sum: Sum, core: Core, frameType: byte, flags: nat, payload: seq<byte>)
    ensures var h := HandleFrame(sum, core, frameType, flags, payload); h.Rejects? ==> h.error == BadSliceIndex
  {
  }

  /** A slice whose index is not below its count is refused; its frame has been counted. */
  lemma BadSliceRejected(sum: Sum, core: Core, id: nat, total: nat, i: nat, slice: seq<byte>, crc: bool)
    requires id < LIMIT64 && total <= i < 0x1_0000
    requires MakeFrame(sum, MESSAGE, MessagePayload(id, total, i, slice), crc).Ok?
    ensures var f := MakeFrame(sum, MESSAGE, MessagePayload(id, total, i, slice), crc).value;
            HandleFrame(sum, core, f.header.frameType, f.header.flags, f.payload) ==
            Rejects(BadSliceIndex, core.(framesReceived := core.framesReceived + 1))
  {
    HandleMade(sum, core, MESSAGE, MessagePayload(id, total, i, slice), crc);
    HandleSlice(core.(framesReceived := core.framesReceived + 1), id, total, i, slice);
  }

  /**
   And it throws BadMagic, BadVersion or PayloadTooLarge exactly if the stream is a number of well-formed frames and
   then a header with that fault; the faulty bytes stay in the buffer and the state is that after the frames.
   */
  lemma ThrowsExactly(sum: Sum, b: seq<byte>, core: Core, error: Error, rest: seq<byte>, end: Core)
    requires error != BadSliceIndex
    ensures Run(FrameHandler(sum), b, core) == Thrown(error, rest, end) <==>
            ReadsTo(FrameHandler(sum), b, core, rest, end) && Fault(rest) == Some(error)
  {
    var handle := FrameHandler(sum);
    if ReadsTo(handle, b, core, rest, end) && Fault(rest) == Some(error) {
      ReadsOn(handle, b, core, rest, end);
      var f := Starts(rest);
      RoundStarts(handle, rest, end, f);
    }
    if Run(handle, b, core) == Thrown(error, rest, end) {
      var r, e := ReadsFar(handle, b, core);
      Stopped(handle, b, core, r, e);
      if Part(r) {
        WaitsOn(handle, b, core, r, e);
      } else if Fault(r).None? {
        RaisedBySlice(sum, b, core, r, e);
      }
    }
  }

  lemma RaisedBySlice(sum: Sum, b: seq<byte>, core: Core, rest: seq<byte>, end: Core)
    requires ReadsTo(FrameHandler(sum), b, core, rest, end) && !Round(FrameHandler(sum), rest, end).Progress?
    requires !Part(rest) && Fault(rest).None?
    ensures var fed := Run(FrameHandler(sum), b, core); fed.Thrown? ==> fed.error == BadSliceIndex
  {
    Stopped(FrameHandler(sum), b, core, rest, end);
    forall f: Frame ensures var h := HandleFrame(sum, end, f.header.frameType, f.header.flags, f.payload); h.Rejects? ==> h.error == BadSliceIndex {
      FramesRaise(sum, end, f.header.frameType, f.header.flags, f.payload);
    }
  }

  // ---------------------------------------------------------------- the statistics

  /** A checksummed frame whose last four bytes are not the checksum of the others. */
  ghost predicate Damaged(sum: Sum, f: Frame) {
    && f.header.flags % 2 == 1 && |f.payload| >= 4
    && f.payload[|f.payload| - 4..] != sum(f.payload[..|f.payload| - 4])
  }

  /** Any other frame that is not a slice. */
  ghost predicate Streams(sum: Sum, f: Frame) {
    !Damaged(sum, f) && f.header.frameType != 0x01
  }

  ghost function HowMany(p: Frame -> bool, frames: seq<Frame>): nat
    decreases |frames|
  {
    if frames == [] then 0
    else HowMany(p, frames[..|frames| - 1]) + if p(frames[|frames| - 1]) then 1 else 0
  }

  /** So many frames, damaged ones and stream events; messages and events are only added, and each is counted. */
  ghost predicate Counted(c: Core, c': Core, frames: nat, damaged: nat, streams: nat) {
    && c'.framesReceived == c.framesReceived + frames && c'.crcErrors == c.crcErrors + damaged
    && c'.streamEvents == c.streamEvents + streams && |c'.events| == |c.events| + streams && c.events <= c'.events
    && c'.messagesCompleted - c.messagesCompleted == |c'.completed| - |c.completed| && c.completed <= c'.completed
  }

  lemma FrameCounted(sum: Sum, core: Core, f: Frame, core': Core)
    requires HandleFrame(sum, core, f.header.frameType, f.header.flags, f.payload) == Handled(core')
    ensures Counted(core, core', 1, if Damaged(sum, f) then 1 else 0, if Streams(sum, f) then 1 else 0)
    ensures |core'.completed| <= |core.completed| + if Damaged(sum, f) || Streams(sum, f) then 0 else 1
  {
  }

  lemma CountedOn(a: Core, b: Core, c: Core, n: nat, d: nat, e: nat, n': nat, d': nat, e': nat)
    requires Counted(a, b, n, d, e) && Counted(b, c, n', d', e')
    ensures Counted(a, c, n + n', d + d', e + e')
  {
  }

  /** Over every stream the decoder has read: the statistics count the frames, the damaged ones, the stream events and the messages. */
  lemma {:induction false} StatisticsCount(sum: Sum, frames: seq<Frame>, cores: seq<Core>)
    requires Trace(FrameHandler(sum), frames, cores)
    ensures Counted(cores[0], cores[|frames|], |frames|, HowMany(f => Damaged(sum, f), frames), HowMany(f => Streams(sum, f), frames))
    decreases |frames|
  {
    if frames != [] {
      var n := |frames| - 1;
      var f := frames[n];
      TracePrefix(FrameHandler(sum), frames, cores);
      StatisticsCount(sum, frames[..n], cores[..n + 1]);
      assert Handles(FrameHandler(sum), cores[n], f, Handled(cores[n + 1]));
      FrameCounted(sum, cores[n], f, cores[n + 1]);
      CountedOn(cores[0], cores[n], cores[n + 1], n, HowMany(f => Damaged(sum, f), frames[..n]), HowMany(f => Streams(sum, f), frames[..n]),
                1, if Damaged(sum, f) then 1 else 0, if Streams(sum, f) then 1 else 0);
    }
  }
}
