/** The Decoder object: its mutable fields and the TryDecode loop, proved against Decoder.Run. */
module DecoderObject {
  import opened Bytes
  import opened Frames
  import opened Decoder

  /** How a member function comes back. */
  datatype Ending = Returns | Raises(error: Error) | GoesWrong

  class StreamDecoder {
    const sum: Sum
    var buffer: seq<byte>
    var messages: map<nat, Assembly>
    var completed: seq<Message>
    var events: seq<StreamEvent>
    var framesReceived: nat
    var messagesCompleted: nat
    var streamEvents: nat
    var crcErrors: nat
    var bytesReceived: nat

    ghost function State(): Core
      reads this
    {
      Core(messages, completed, events, framesReceived, messagesCompleted, streamEvents, crcErrors)
    }

    constructor (sum: Sum)
      ensures this.sum == sum && buffer == [] && State() == EMPTY && bytesReceived == 0
    {
      this.sum := sum;
      buffer, messages, completed, events := [], map[], [], [];
      framesReceived, messagesCompleted, streamEvents, crcErrors, bytesReceived := 0, 0, 0, 0, 0;
    }

    ghost predicate HandledAs(h: Handled, e: Ending)
      reads this
    {
      match h
      case Handled(c) => e == Returns && State() == c
      case Rejects(err, c) => e == Raises(err) && State() == c
      case Undefined => e == GoesWrong
    }

    /** Appends the slices of a finished assembly one by one. */
    method Assemble(slices: seq<seq<byte>>) returns (data: seq<byte>)
      ensures data == Join(slices)
    {
      data := [];
      for i := 0 to |slices|
        invariant data == Join(slices[..i])
      {
        assert slices[..i + 1] == slices[..i] + [slices[i]];
        JoinAppend(slices[..i], slices[i]);
        data := data + slices[i];
      }
      assert slices[..|slices|] == slices;
    }

    /** The branch of TryDecode for FrameType::Message. */
    method OnMessage(data: seq<byte>) returns (e: Ending)
      modifies this`messages, this`completed, this`messagesCompleted
      ensures HandledAs(HandleMessage(old(State()), data), e)
    {
      if |data| < MESSAGE_HEADER_SIZE { return GoesWrong; }
      e := OnSlice(Value(data[..8]), Value(data[8..10]), Value(data[10..12]), data[12..]);
    }

    /** A slice with its header parsed. */
    method OnSlice(id: nat, total: nat, sequence: nat, slice: seq<byte>) returns (e: Ending)
      modifies this`messages, this`completed, this`messagesCompleted
      ensures HandledAs(TakeSlice(old(State()), id, total, sequence, slice), e)
    {
      if sequence >= total { return Raises(BadSliceIndex); }
      var m := if id in messages then messages[id] else Assembly(0, [], 0);
      if m.slices == [] {
        m := Assembly(total, BlankSlices(total), m.received);
      }
      if sequence >= |m.slices| { return GoesWrong; }
      if m.slices[sequence] == [] {
        m := m.(slices := m.slices[sequence := slice], received := (m.received + 1) % 0x1_0000);
      }
      if m.received == m.total {
        var all := Assemble(m.slices);
        completed := completed + [Message(id, all)];
        messages := messages - {id};
        messagesCompleted := messagesCompleted + 1;
      } else {
        messages := messages[id := m];
      }
      return Returns;
    }

    /** The branch of TryDecode for every other frame type. */
    method OnStream(frameType: byte, payload: seq<byte>, data: seq<byte>) returns (e: Ending)
      modifies this`events, this`streamEvents
      ensures HandledAs(HandleStream(old(State()), frameType, payload, data), e)
    {
      streamEvents := streamEvents + 1;
      var ev := StreamEvent(frameType, 0, 0, 0, 0, []);
      if frameType == STREAM_CHUNK {
        if |data| < 16 { return GoesWrong; }
        ev := ev.(streamId := Value(data[..8]), offset := Value(data[8..16]), data := data[16..]);
      } else if frameType == STREAM_START {
        if |payload| < 16 { return GoesWrong; }
        ev := ev.(streamId := Value(payload[..8]), totalSize := Value(payload[8..16]));
      } else if frameType == STREAM_END {
        if |payload| < 12 { return GoesWrong; }
        ev := ev.(streamId := Value(payload[..8]), crc32 := Value(payload[8..12]));
      }
      events := events + [ev];
      return Returns;
    }

    /** TryDecode past the header checks: counting, checksum verification and dispatch on the type. */
    method OnFrame(frameType: byte, flags: nat, payload: seq<byte>) returns (e: Ending)
      modifies this`messages, this`completed, this`messagesCompleted, this`events, this`streamEvents, this`framesReceived, this`crcErrors
      ensures HandledAs(HandleFrame(sum, old(State()), frameType, flags, payload), e)
    {
      ghost var core := State();
      framesReceived := framesReceived + 1;
      assert State() == core.(framesReceived := core.framesReceived + 1);
      var n := if HasCrc(flags, payload) then |payload| - 4 else |payload|;
      if HasCrc(flags, payload) && payload[n..] != sum(payload[..n]) {
        crcErrors := crcErrors + 1;
        return Returns;
      }
      assert HandleFrame(sum, core, frameType, flags, payload) == HandleBody(State(), frameType, payload, payload[..n]);
      e := OnBody(frameType, payload, payload[..n]);
    }

    method OnBody(frameType: byte, payload: seq<byte>, data: seq<byte>) returns (e: Ending)
      modifies this`messages, this`completed, this`messagesCompleted, this`events, this`streamEvents
      ensures HandledAs(HandleBody(old(State()), frameType, payload, data), e)
    {
      if frameType == MESSAGE {
        e := OnMessage(data);
      } else {
        e := OnStream(frameType, payload, data);
      }
    }

    ghost predicate EndsAs(fed: Fed, e: Ending)
      reads this
    {
      match fed
      case Fed(b, c) => e == Returns && buffer == b && State() == c
      case Thrown(err, b, c) => e == Raises(err) && buffer == b && State() == c
      case Crashed => e == GoesWrong
    }

    ghost predicate RoundAs(o: Outcome, was: seq<byte>, before: Core, again: bool, e: Ending)
      reads this
    {
      match o
      case NeedMore => !again && e == Returns && buffer == was && State() == before
      case Progress(rest, c) => again && buffer == rest && State() == c
      case Throws(err, c) => !again && e == Raises(err) && buffer == was && State() == c
      case Crashes => !again && e == GoesWrong
    }

    /** One round of TryDecode's loop; `again` when a frame was consumed. */
    method DecodeFrame() returns (again: bool, e: Ending)
      modifies this
      ensures RoundAs(Round(FrameHandler(sum), old(buffer), old(State())), old(buffer), old(State()), again, e)
      ensures bytesReceived == old(bytesReceived)
    {
      if |buffer| < HEADER_SIZE { return false, Returns; }
      var h := ParseHeader(buffer);
      if h.magic1 != MAGIC1 || h.magic2 != MAGIC2 { return false, Raises(BadMagic); }
      if h.version != VERSION { return false, Raises(BadVersion); }
      if h.payloadLen > MAX_FRAME_PAYLOAD { return false, Raises(PayloadTooLarge); }
      var size := HEADER_SIZE + h.payloadLen;
      if |buffer| < size { return false, Returns; }
      e := OnFrame(h.frameType, h.flags, buffer[HEADER_SIZE..size]);
      if e != Returns { return false, e; }
      buffer := buffer[size..];
      again := true;
    }

    /** TryDecode: rounds until the buffer holds no complete frame; each round consumes at least a header. */
    method TryDecode() returns (e: Ending)
      modifies this
      ensures EndsAs(Run(FrameHandler(sum), old(buffer), old(State())), e)
      ensures bytesReceived == old(bytesReceived)
    {
      ghost var whole := Run(FrameHandler(sum), buffer, State());
      var again := true;
      e := Returns;
      while again
        invariant again ==> Run(FrameHandler(sum), buffer, State()) == whole
        invariant !again ==> EndsAs(whole, e)
        invariant bytesReceived == old(bytesReceived)
        decreases again, |buffer|
      {
        again, e := DecodeFrame();
      }
    }

    /** Feed: append to what is left over and decode. */
    method Feed(data: seq<byte>) returns (e: Ending)
      modifies this
      ensures EndsAs(Run(FrameHandler(sum), old(buffer) + data, old(State())), e)
      ensures bytesReceived == old(bytesReceived) + |data|
    {
      bytesReceived := bytesReceived + |data|;
      buffer := buffer + data;
      e := TryDecode();
    }

    /** GetMessage: hands out completed messages first in, first out. */
    method GetMessage() returns (m: Option<Message>)
      modifies this`completed
      ensures old(completed) == [] ==> m == None && completed == []
      ensures old(completed) != [] ==> m == Some(old(completed)[0]) && completed == old(completed)[1..]
    {
      if completed == [] { return None; }
      m := Some(completed[0]);
      completed := completed[1..];
    }
  }
}
