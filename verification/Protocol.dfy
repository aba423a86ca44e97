/** The protocol of src/darwincore/network/protocol.cpp: the codec of Frames and Decoder with the CRC of Crc32. */
module Protocol {
  import opened Bytes
  import opened Frames
  import opened Decoder
  import opened Reassembly
  import Crc32
  import Redelivery

  /** Does the payload end in the checksum of what precedes it? */
  predicate Carries(sum: Sum, payload: seq<byte>) {
    |payload| >= 4 && payload[|payload| - 4..] == sum(payload[..|payload| - 4])
  }

  /** No damage within four consecutive bytes, be it of the data or of the checksum, goes unnoticed. */
  ghost predicate DetectsBursts(sum: Sum) {
    forall sent, received :: Carries(sum, sent) && Crc32.DifferInBurst(sent, received) ==> !Carries(sum, received)
  }

  // ---------------------------------------------------------------- the CRC as the codec's checksum

  /** What MakeFrame appends and TryDecode compares: the CRC, little-endian. */
  function Checksum(data: seq<byte>): (s: seq<byte>)
    ensures |s| == 4
  {
    Crc32.Trailer(Crc32.Crc(data))
  }

  lemma CarriesIsMatch(payload: seq<byte>)
    requires |payload| >= 4
    ensures Crc32.TrailerMatches(payload) <==> Carries(Checksum, payload)
  {
  }

  /** The CRC detects every burst. */
  lemma CrcDetectsBursts()
    ensures DetectsBursts(Checksum)
  {
    forall sent, received | Carries(Checksum, sent) && Crc32.DifferInBurst(sent, received)
      ensures !Carries(Checksum, received)
    {
      CarriesIsMatch(sent);
      CarriesIsMatch(received);
      Crc32.BurstIsDetected(sent, received);
    }
  }

  // ---------------------------------------------------------------- damaged frames

  /** A frame that carries a checksum. */
  predicate Checksummed(f: Frame) {
    WellFormed(f) && f.header.flags % 2 == 1 && 4 <= |f.payload| <= MAX_FRAME_PAYLOAD
  }

  /** The frame was sent with the right checksum and arrived with up to four consecutive payload bytes damaged. */
  ghost predicate Damaged(sum: Sum, sent: Frame, received: Frame) {
    Checksummed(sent) && Carries(sum, sent.payload) && received.header == sent.header &&
    Crc32.DifferInBurst(sent.payload, received.payload)
  }

  /** What MakeFrame builds with crc on carries its checksum. */
  lemma MadeFrameCarriesChecksum(sum: Sum, frameType: byte, payload: seq<byte>)
    requires |payload| + 4 <= MAX_FRAME_PAYLOAD
    ensures var f := MakeFrame(sum, frameType, payload, true).value; Checksummed(f) && Carries(sum, f.payload)
  {
    var f := MakeFrame(sum, frameType, payload, true).value;
    assert f.payload[..|payload|] == payload && f.payload[|payload|..] == sum(payload);
  }

  lemma ChecksumFails(sum: Sum, core: Core, f: Frame)
    requires Checksummed(f) && !Carries(sum, f.payload)
    ensures HandleFrame(sum, core, f.header.frameType, f.header.flags, f.payload) ==
            Handled(core.(framesReceived := core.framesReceived + 1, crcErrors := core.crcErrors + 1))
  {
  }

  lemma RunSkips(handle: Handler, core: Core, f: Frame, core': Core, rest: seq<byte>)
    requires WellFormed(f) && |f.payload| <= MAX_FRAME_PAYLOAD && Handles(handle, core, f, Handled(core'))
    ensures Run(handle, Serialize(f) + rest, core) == Run(handle, rest, core')
  {
    RoundOnFrame(handle, core, f, rest);
  }

  /**
   A checksummed frame whose payload (data or checksum) is damaged within four consecutive bytes is
   always skipped and counted, and nothing else happens: no message, no event, no change to any assembly.
   */
  lemma DamagedFrameIsSkipped(sum: Sum, core: Core, sent: Frame, received: Frame, rest: seq<byte>)
    requires DetectsBursts(sum) && Damaged(sum, sent, received)
    ensures Run(FrameHandler(sum), Serialize(received) + rest, core) ==
            Run(FrameHandler(sum), rest, core.(framesReceived := core.framesReceived + 1, crcErrors := core.crcErrors + 1))
  {
    var core' := core.(framesReceived := core.framesReceived + 1, crcErrors := core.crcErrors + 1);
    assert !Carries(sum, received.payload);
    ChecksumFails(sum, core, received);
    HandlerApplied(sum, core, received, Handled(core'));
    RunSkips(FrameHandler(sum), core, received, core', rest);
  }

  // ---------------------------------------------------------------- the codec with its own checksum

  /** A decoder that skips and counts every checksummed frame damaged within four consecutive bytes. */
  ghost predicate SkipsDamage(sum: Sum) {
    forall core, sent, received, rest :: Damaged(sum, sent, received) ==> IsSkipped(sum, core, received, rest)
  }

  /** Decoding goes on behind the frame, with one frame and one error counted. */
  ghost predicate IsSkipped(sum: Sum, core: Core, f: Frame, rest: seq<byte>) {
    Run(FrameHandler(sum), Serialize(f) + rest, core) ==
    Run(FrameHandler(sum), rest, core.(framesReceived := core.framesReceived + 1, crcErrors := core.crcErrors + 1))
  }

  lemma DetectionSkips(sum: Sum)
    requires DetectsBursts(sum)
    ensures SkipsDamage(sum)
  {
    forall core, sent, received, rest | Damaged(sum, sent, received) ensures IsSkipped(sum, core, received, rest) {
      DamagedFrameIsSkipped(sum, core, sent, received, rest);
    }
  }

  /** The decoder with the CRC is one. */
  lemma CrcSkipsDamage()
    ensures SkipsDamage(Checksum)
  {
    CrcDetectsBursts();
    DetectionSkips(Checksum);
  }

  /** A codec that delivers each complete message once exactly when no slice comes late, however the bytes are cut. */
  ghost predicate DeliversExactly(sum: Sum) {
    forall mail, sched, frames, chunks ::
      AllSendable(mail) && Encodes(sum, mail, sched, frames) && Flatten(chunks) == Wire(frames) ==>
        DeliveredBy(FeedAll(FrameHandler(sum), Fed([], EMPTY), chunks), mail, sched)
  }

  ghost predicate DeliveredBy(fed: Fed, mail: Mail, sched: seq<Item>) {
    fed.Fed? && fed.buffer == [] && fed.core.events == StreamEvents(sched) && (Exact(mail, sched, fed.core) <==> Schedule(mail, sched))
  }

  lemma AnySumDelivers(sum: Sum)
    ensures DeliversExactly(sum)
  {
    forall mail, sched, frames, chunks | AllSendable(mail) && Encodes(sum, mail, sched, frames) && Flatten(chunks) == Wire(frames)
      ensures DeliveredBy(FeedAll(FrameHandler(sum), Fed([], EMPTY), chunks), mail, sched)
    {
      Redelivery.ExactlySchedules(sum, mail, sched, frames, chunks);
    }
  }

  /** The codec with the CRC is one. */
  lemma CrcMailArrivesOnce()
    ensures DeliversExactly(Checksum)
  {
    AnySumDelivers(Checksum);
  }
}
