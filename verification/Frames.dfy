/**
 Frames and the Encoder (src/darwincore/network/protocol.cpp): packed little-endian headers,
 checksummed payloads and the slicing of messages.

 The checksum is a parameter `sum` here; the theorems hold for any four-byte checksum, and
 Protocol.dfy instantiates it with the CRC of Crc32.dfy.
 */
module Frames {
  import opened Bytes

  datatype Option<+T> = None | Some(value: T)

  /** The ProtocolErrors that the encoder and the decoder throw. */
  datatype Error = PayloadTooLarge | MessageTooLarge | ChunkTooLarge | BadMagic | BadVersion | BadSliceIndex

  datatype Result<+T> = Ok(value: T) | Err(error: Error)

  type Sum = f: seq<byte> -> seq<byte> | forall s :: |f(s)| == 4 witness (_ => [0, 0, 0, 0])

  const MAGIC1: byte := 0x5A
  const MAGIC2: byte := 0x5C
  const VERSION: byte := 0x01
  const MAX_FRAME_PAYLOAD := 262144
  const MAX_MESSAGE_SLICES := 65535
  const FLAG_CRC32 := 1

  const MESSAGE: byte := 1
  const STREAM_START: byte := 2
  const STREAM_CHUNK: byte := 3
  const STREAM_END: byte := 4

  const HEADER_SIZE := 16
  const MESSAGE_HEADER_SIZE := 12

  // ---------------------------------------------------------------- frame headers

  datatype Header = Header(magic1: byte, magic2: byte, version: byte, frameType: byte,
                           flags: nat, payloadLen: nat, reserved: nat, reserved2: nat)

  /** The fields fit their declared widths. */
  predicate Fits(h: Header) {
    h.flags < 0x1_0000 && h.payloadLen < 0x1_0000_0000 && h.reserved < 0x1_0000_0000 && h.reserved2 < 0x1_0000
  }

  function HeaderBytes(h: Header): (b: seq<byte>)
    ensures |b| == HEADER_SIZE
  {
    [h.magic1, h.magic2, h.version, h.frameType] + LittleEndian(h.flags, 2) + LittleEndian(h.payloadLen, 4) +
    LittleEndian(h.reserved, 4) + LittleEndian(h.reserved2, 2)
  }

  function ParseHeader(b: seq<byte>): Header
    requires |b| >= HEADER_SIZE
  {
    Header(b[0], b[1], b[2], b[3], Value(b[4..6]), Value(b[6..10]), Value(b[10..14]), Value(b[14..16]))
  }

  lemma ParseHeaderBytes(h: Header, rest: seq<byte>)
    requires Fits(h)
    ensures ParseHeader(HeaderBytes(h) + rest) == h
  {
    var b := HeaderBytes(h) + rest;
    assert b[4..6] == LittleEndian(h.flags, 2);
    assert b[6..10] == LittleEndian(h.payloadLen, 4);
    assert b[10..14] == LittleEndian(h.reserved, 4);
    assert b[14..16] == LittleEndian(h.reserved2, 2);
    Fields16(h.flags);
    Fields32(h.payloadLen);
    Fields32(h.reserved);
    Fields16(h.reserved2);
  }

  // ---------------------------------------------------------------- frames

  datatype Frame = Frame(header: Header, payload: seq<byte>)

  function Serialize(f: Frame): (b: seq<byte>)
    ensures |b| == HEADER_SIZE + |f.payload|
  {
    HeaderBytes(f.header) + f.payload
  }

  function Deserialize(data: seq<byte>): Option<Frame> {
    if |data| < HEADER_SIZE then None
    else
      var h := ParseHeader(data);
      if h.magic1 != MAGIC1 || h.magic2 != MAGIC2 then None
      else if h.version != VERSION then None
      else if |data| < HEADER_SIZE + h.payloadLen then None
      else Some(Frame(h, data[HEADER_SIZE..HEADER_SIZE + h.payloadLen]))
  }

  /** A frame the encoder may build: its header describes its payload. */
  predicate WellFormed(f: Frame) {
    && Fits(f.header)
    && f.header.magic1 == MAGIC1 && f.header.magic2 == MAGIC2 && f.header.version == VERSION
    && f.header.payloadLen == |f.payload|
  }

  /** Deserialize undoes Serialize, whatever bytes follow. */
  lemma DeserializeSerialized(f: Frame, rest: seq<byte>)
    requires WellFormed(f)
    ensures Deserialize(Serialize(f) + rest) == Some(f)
  {
    var data := Serialize(f) + rest;
    assert data == HeaderBytes(f.header) + (f.payload + rest);
    ParseHeaderBytes(f.header, f.payload + rest);
    assert data[HEADER_SIZE..HEADER_SIZE + |f.payload|] == f.payload;
  }

  // ---------------------------------------------------------------- the encoder

  function MakeFrame(sum: Sum, frameType: byte, payload: seq<byte>, crc: bool): Result<Frame> {
    if |payload| > MAX_FRAME_PAYLOAD then Err(PayloadTooLarge)
    else
      var body := if crc then payload + sum(payload) else payload;
      Ok(Frame(Header(MAGIC1, MAGIC2, VERSION, frameType, if crc then FLAG_CRC32 else 0, |body|, 0, 0), body))
  }

  /** Data bytes a message frame can carry: MAX_FRAME_PAYLOAD less the message header and the CRC. */
  function SlicePayload(crc: bool): nat {
    if crc then 262128 else 262132
  }

  /** i * slice_payload. */
  function Offset(crc: bool, i: nat): nat {
    if crc then 262128 * i else 262132 * i
  }

  /** How many slices the data needs. */
  function Needed(length: nat, crc: bool): nat {
    if crc then (length + 262127) / 262128 else (length + 262131) / 262132
  }

  /** The slice count the encoder uses: the need, cast to uint16_t. */
  function TotalSlices(length: nat, crc: bool): nat {
    Needed(length, crc) % 0x1_0000
  }

  function SliceData(data: seq<byte>, crc: bool, i: nat): (s: seq<byte>)
    requires Offset(crc, i) <= |data|
    ensures |s| <= SlicePayload(crc)
  {
    var offset := Offset(crc, i);
    if SlicePayload(crc) < |data| - offset then data[offset..offset + SlicePayload(crc)] else data[offset..]
  }

  function MessagePayload(id: nat, total: nat, i: nat, data: seq<byte>): seq<byte> {
    LittleEndian(id, 8) + LittleEndian(total, 2) + LittleEndian(i, 2) + data
  }

  function MessageFrame(sum: Sum, id: nat, data: seq<byte>, crc: bool, i: nat): Result<Frame>
    requires Offset(crc, i) <= |data|
  {
    MakeFrame(sum, MESSAGE, MessagePayload(id, TotalSlices(|data|, crc), i, SliceData(data, crc, i)), crc)
  }

  /** Every slice index below the count addresses a part of the data. */
  lemma SliceInRange(length: nat, crc: bool, i: nat)
    requires i < TotalSlices(length, crc)
    ensures Offset(crc, i) < length
  {
  }

  /** No slice is too large for a frame. */
  lemma SliceFits(sum: Sum, id: nat, data: seq<byte>, crc: bool, i: nat)
    requires Offset(crc, i) <= |data|
    ensures MessageFrame(sum, id, data, crc, i).Ok?
  {
  }

  ghost predicate IsSlice(sum: Sum, id: nat, data: seq<byte>, crc: bool, i: nat, f: Frame) {
    Offset(crc, i) <= |data| && MessageFrame(sum, id, data, crc, i) == Ok(f)
  }

  /** The body of EncodeMessage's loop. */
  method EncodeSlice(sum: Sum, id: nat, data: seq<byte>, crc: bool, i: nat) returns (frame: Frame)
    requires i < TotalSlices(|data|, crc)
    ensures IsSlice(sum, id, data, crc, i, frame)
  {
    SliceInRange(|data|, crc, i);
    var total := TotalSlices(|data|, crc);
    var offset := Offset(crc, i);
    var chunk := if SlicePayload(crc) < |data| - offset then SlicePayload(crc) else |data| - offset;
    assert data[offset..offset + chunk] == SliceData(data, crc, i);
    var payload := LittleEndian(id, 8) + LittleEndian(total, 2) + LittleEndian(i, 2) + data[offset..offset + chunk];
    SliceFits(sum, id, data, crc, i);
    frame := MakeFrame(sum, MESSAGE, payload, crc).value;
  }

  /** A property of each element and its index. */
  ghost predicate Each<T>(p: (nat, T) -> bool, s: seq<T>) {
    forall i :: 0 <= i < |s| ==> p(i, s[i])
  }

  lemma EachMore<T>(p: (nat, T) -> bool, s: seq<T>, x: T)
    requires Each(p, s) && p(|s|, x)
    ensures Each(p, s + [x])
  {
  }

  ghost function SliceTest(sum: Sum, id: nat, data: seq<byte>, crc: bool): (nat, Frame) -> bool {
    (i: nat, f: Frame) => IsSlice(sum, id, data, crc, i, f)
  }

  /** Frame by frame, the slices of the data in order. */
  ghost predicate AreSlices(sum: Sum, id: nat, data: seq<byte>, crc: bool, frames: seq<Frame>) {
    Each(SliceTest(sum, id, data, crc), frames)
  }

  /** EncodeMessage: one frame per slice, or an error when the uint16_t count comes out as zero. */
  method EncodeMessage(sum: Sum, id: nat, data: seq<byte>, crc: bool) returns (r: Result<seq<Frame>>)
    ensures TotalSlices(|data|, crc) == 0 ==> r == Err(MessageTooLarge)
    ensures TotalSlices(|data|, crc) != 0 ==> r.Ok? && |r.value| == TotalSlices(|data|, crc)
    ensures r.Ok? ==> AreSlices(sum, id, data, crc, r.value)
  {
    var total := TotalSlices(|data|, crc);
    if total == 0 || total > MAX_MESSAGE_SLICES { return Err(MessageTooLarge); }
    var frames: seq<Frame> := [];
    for i := 0 to total
      invariant |frames| == i && AreSlices(sum, id, data, crc, frames)
    {
      var frame := EncodeSlice(sum, id, data, crc, i);
      EachMore(SliceTest(sum, id, data, crc), frames, frame);
      frames := frames + [frame];
    }
    return Ok(frames);
  }

  // ---------------------------------------------------------------- what slicing keeps

  /** All slices one after another. */
  function Join(ss: seq<seq<byte>>): seq<byte>
    decreases |ss|
  {
    if ss == [] then [] else Join(ss[..|ss| - 1]) + ss[|ss| - 1]
  }

  /** Do the first n slices all start inside the data? (Equivalently n <= Needed, see NeededExactly.) */
  predicate AllStart(length: nat, crc: bool, n: nat) {
    n == 0 || Offset(crc, n - 1) < length
  }

  /** The data of the first n slices. */
  function Slices(data: seq<byte>, crc: bool, n: nat): (ss: seq<seq<byte>>)
    requires AllStart(|data|, crc, n)
    ensures |ss| == n
    ensures forall i :: 0 <= i < n ==> Offset(crc, i) <= |data| && ss[i] == SliceData(data, crc, i)
    decreases n
  {
    if n == 0 then [] else Slices(data, crc, n - 1) + [SliceData(data, crc, n - 1)]
  }

  /** Slice n is needed exactly when it starts inside the data. */
  lemma NeededExactly(length: nat, crc: bool, n: nat)
    ensures n < Needed(length, crc) <==> AllStart(length, crc, n + 1)
    ensures Offset(crc, n + 1) == Offset(crc, n) + SlicePayload(crc)
  {
  }

  lemma JoinAppend(ss: seq<seq<byte>>, s: seq<byte>)
    ensures Join(ss + [s]) == Join(ss) + s
  {
    assert (ss + [s])[..|ss|] == ss;
  }

  /** The data up to a position, or all of it. */
  function UpTo(data: seq<byte>, n: nat): seq<byte> {
    if n <= |data| then data[..n] else data
  }

  lemma UpToNext(data: seq<byte>, a: nat, b: nat, s: seq<byte>)
    requires a <= |data| && a <= b && s == if b < |data| then data[a..b] else data[a..]
    ensures UpTo(data, a) + s == UpTo(data, b)
  {
  }

  lemma LastSlice(data: seq<byte>, crc: bool, i: nat)
    requires Offset(crc, i) < |data|
    ensures UpTo(data, Offset(crc, i)) + SliceData(data, crc, i) == UpTo(data, Offset(crc, i + 1))
  {
    var a, b := Offset(crc, i), Offset(crc, i + 1);
    assert b == a + SlicePayload(crc);
    UpToNext(data, a, b, SliceData(data, crc, i));
  }

  lemma {:induction false} JoinSlices(data: seq<byte>, crc: bool, n: nat)
    requires AllStart(|data|, crc, n)
    ensures Join(Slices(data, crc, n)) == UpTo(data, Offset(crc, n))
    decreases n
  {
    if n > 0 {
      var ss, s := Slices(data, crc, n - 1), SliceData(data, crc, n - 1);
      var a, b := Offset(crc, n - 1), Offset(crc, n);
      assert Join(ss) == UpTo(data, a) by { JoinSlices(data, crc, n - 1); }
      assert UpTo(data, a) + s == UpTo(data, b) by { LastSlice(data, crc, n - 1); }
      assert Join(ss + [s]) == UpTo(data, b) by { JoinNext(ss, s, data, a, b); }
    }
  }

  lemma JoinNext(ss: seq<seq<byte>>, s: seq<byte>, data: seq<byte>, a: nat, b: nat)
    requires Join(ss) == UpTo(data, a) && UpTo(data, a) + s == UpTo(data, b)
    ensures Join(ss + [s]) == UpTo(data, b)
  {
    JoinAppend(ss, s);
  }

  /**
   The slices of a message carry exactly its bytes if and only if its length is between one byte
   and 65535 full slices.  Beyond that the uint16_t cast drops whole laps of 65536 slices.
   */
  lemma SlicingExactlyWithinLimit(data: seq<byte>, crc: bool)
    ensures AllStart(|data|, crc, TotalSlices(|data|, crc))
    ensures TotalSlices(|data|, crc) != 0 && Join(Slices(data, crc, TotalSlices(|data|, crc))) == data
       <==> 1 <= |data| <= Offset(crc, MAX_MESSAGE_SLICES)
  {
    var total, needed := TotalSlices(|data|, crc), Needed(|data|, crc);
    LimitExactly(|data|, crc);
    if total > 0 {
      NeededExactly(|data|, crc, total - 1);
      NeededExactly(|data|, crc, total);
      CompleteExactly(data, crc, total);
    }
  }

  /** n slices make up the data exactly when slice n is not needed. */
  lemma CompleteExactly(data: seq<byte>, crc: bool, n: nat)
    requires n > 0 && AllStart(|data|, crc, n)
    ensures Join(Slices(data, crc, n)) == data <==> |data| <= Offset(crc, n)
  {
    JoinSlices(data, crc, n);
  }

  lemma LimitExactly(length: nat, crc: bool)
    ensures var total, needed := TotalSlices(length, crc), Needed(length, crc);
            total <= needed && (total != 0 && total == needed <==> 1 <= length <= Offset(crc, MAX_MESSAGE_SLICES))
  {
  }

  /** One byte over 65536 full slices: the encoder reports success with a single slice of the data. */
  lemma OversizedMessageIsTruncated(sum: Sum, id: nat, data: seq<byte>, crc: bool)
    requires |data| == Offset(crc, 0x1_0000) + 1
    ensures TotalSlices(|data|, crc) == 1
    ensures SliceData(data, crc, 0) == data[..SlicePayload(crc)] != data
  {
  }

  /** A slice within the limit is never empty, so an assembly can tell it from a missing one. */
  lemma SliceNotEmpty(data: seq<byte>, crc: bool, i: nat)
    requires i < Needed(|data|, crc)
    ensures Offset(crc, i) < |data| && SliceData(data, crc, i) != []
  {
  }
}
