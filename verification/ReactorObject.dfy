/** The Reactor object: the member functions that run on its event-loop thread, proved against Reactor.dfy. */
module ReactorObject {
  import opened Bytes
  import opened SendBuffer
  import opened Reactor
  import ConnectionId

  class EventLoop {
    const reactorId: nat
    var isRunning: bool
    var connections: map<nat, Conn>
    var fdToConnectionId: map<nat, nat>
    var connectionSeq: nat
    var activeConnections: int
    var totalConnections: nat
    var totalBytesSent: nat
    var totalBytesReceived: nat
    var dispatched: seq<Event>
    ghost var logs: map<nat, Log>
    var births: nat             // numbers the incarnations

    ghost function View(): State
      reads this
    {
      State(reactorId, isRunning, connections, fdToConnectionId, connectionSeq, activeConnections, totalConnections,
            totalBytesSent, totalBytesReceived, dispatched, logs, births)
    }

    constructor (reactorId: nat)
      ensures View() == Init(reactorId)
    {
      this.reactorId := reactorId;
      isRunning, connections, fdToConnectionId, connectionSeq := true, map[], map[], 0;
      activeConnections, totalConnections, totalBytesSent, totalBytesReceived := 0, 0, 0, 0;
      dispatched, logs, births := [], map[], 0;
    }

    method DispatchEvent(id: nat, kind: Kind)
      requires id in connections
      modifies this`dispatched
      ensures View() == Record(old(View()), id, kind)
    {
      dispatched := dispatched + [Event(id, kind, connections[id].life)];
    }

    method DoRemoveConnection(id: nat) returns (removed: bool)
      modifies this`connections, this`fdToConnectionId, this`activeConnections
      ensures removed <==> id in old(connections)
      ensures View() == Drop(old(View()), id)
    {
      if id !in connections { return false; }
      var fd := connections[id].fd;
      fdToConnectionId := fdToConnectionId - {fd};
      connections := connections - {id};
      activeConnections := activeConnections - 1;
      return true;
    }

    method HandleConnectionClose(id: nat)
      requires id in connections
      modifies this`dispatched, this`connections, this`fdToConnectionId, this`activeConnections
      ensures View() == Close(old(View()), id)
    {
      DispatchEvent(id, Disconnected);
      var _ := DoRemoveConnection(id);
    }

    /** w and d: what of the payload d had already gone out when the error was noticed. */
    method HandleConnectionError(id: nat, ghost w: seq<byte>, ghost d: seq<byte>)
      requires id in connections
      modifies this`dispatched, this`connections, this`fdToConnectionId, this`activeConnections, this`logs
      ensures View() == Fail(old(View()), id, w, d)
    {
      logs := Logged(View(), connections[id].life, w, d);
      assert connections == connections[id := connections[id]];
      DispatchEvent(id, Error);
      DispatchEvent(id, Disconnected);
      var _ := DoRemoveConnection(id);
    }

    /** Returns the new id, or 0. */
    method DoAddConnection(fd: int, date: nat, monitored: bool) returns (id: nat)
      modifies this
      ensures fd < 0 ==> id == 0 && View() == old(View())
      ensures fd >= 0 ==> View() == DoAdd(old(View()), fd, date, monitored)
      ensures births == old(births) + 1 ==> id in connections && connections[id].fd == fd
      ensures births != old(births) + 1 ==> id == 0
    {
      if fd < 0 || !isRunning { return 0; }
      var sequence := connectionSeq % 0x1_0000;
      connectionSeq := (connectionSeq + 1) % 0x1_0000;
      if sequence == 0 {
        sequence := 1;
        connectionSeq := 2;
      }
      var newId := ConnectionId.Generate(date, reactorId, fd, sequence);
      if newId in connections { return 0; }
      if !monitored { return 0; }
      Register(newId, fd);
      return newId;
    }

    method Register(id: nat, fd: nat)
      modifies this`connections, this`fdToConnectionId, this`totalConnections, this`activeConnections, this`dispatched, this`logs, this`births
      ensures View() == Begin(old(View()), id, fd)
    {
      connections := connections[id := Conn(fd, [], false, false, births)];
      fdToConnectionId := fdToConnectionId[fd := id];
      totalConnections := totalConnections + 1;
      activeConnections := activeConnections + 1;
      dispatched := dispatched + [Event(id, Connected, births)];
      logs := logs[births := Log(id, [], [])];
      births := births + 1;
    }

    method BufferAndMonitorWrite(id: nat, ghost w: seq<byte>, ghost d: seq<byte>, rest: seq<byte>) returns (ok: bool)
      requires id in connections
      modifies this`dispatched, this`connections, this`fdToConnectionId, this`activeConnections, this`logs
      ensures ok <==> Accepts(old(connections[id].sendBuffer), rest)
      ensures View() == BufferWrite(old(View()), id, w, d, rest)
    {
      var c := connections[id];
      if !Accepts(c.sendBuffer, rest) {
        HandleConnectionError(id, w, d);
        return false;
      }
      logs := Logged(View(), c.life, w, d);
      c := c.(sendBuffer := AfterWrite(c.sendBuffer, rest));
      if |c.sendBuffer| >= HIGH_WATER_MARK && !c.readPaused { c := c.(readPaused := true); }
      if !c.writePending { c := c.(writePending := true); }
      connections := connections[id := c];
      return true;
    }

    method DoSendData(id: nat, data: seq<byte>, answer: Answer) returns (ok: bool)
      requires data != [] && Possible(answer, |data|)
      modifies this
      ensures View() == DoSend(old(View()), id, data, answer)
      ensures ok ==> id in connections
    {
      if id !in connections { return false; }
      var c := connections[id];
      if c.sendBuffer != [] {
        ok := BufferAndMonitorWrite(id, [], data, data);
        return;
      }
      if answer.Failed? {
        HandleConnectionError(id, [], data);
        return false;
      }
      var sent := if answer.Accepted? then answer.n else 0;
      if sent < |data| {
        assert data[..0] == [] && data[0..] == data;
        ok := BufferAndMonitorWrite(id, data[..sent], data, data[sent..]);
        return;
      }
      assert connections == connections[id := c];
      logs := Logged(View(), c.life, data, data);
      totalBytesSent := totalBytesSent + sent;
      return true;
    }

    method HandleWriteEvent(fd: nat, answer: Answer)
      requires PossibleWrite(View(), fd, answer)
      modifies this
      ensures View() == OnWritable(old(View()), fd, answer)
    {
      if fd !in fdToConnectionId || fdToConnectionId[fd] !in connections { return; }
      var id := fdToConnectionId[fd];
      var c := connections[id];
      if c.sendBuffer != [] && answer.Failed? {
        HandleConnectionError(id, [], []);
        return;
      }
      var sent := if c.sendBuffer != [] && answer.Accepted? then answer.n else 0;
      assert c.sendBuffer[..0] == [] && c.sendBuffer[0..] == c.sendBuffer;
      logs := Logged(View(), c.life, c.sendBuffer[..sent], []);
      c := c.(sendBuffer := c.sendBuffer[sent..]);
      if sent > 0 {
        totalBytesSent := totalBytesSent + sent;
        if c.readPaused && |c.sendBuffer| < LOW_WATER_MARK { c := c.(readPaused := false); }
      }
      if c.sendBuffer == [] && c.writePending { c := c.(writePending := false); }
      connections := connections[id := c];
    }

    method HandleReadEvent(fd: nat, answers: seq<Received>)
      modifies this
      ensures View() == Next(old(View()), Readable(fd, answers))
    {
      if fd !in fdToConnectionId || fdToConnectionId[fd] !in connections { return; }
      var id := fdToConnectionId[fd];
      ghost var whole := ReadLoop(View(), id, answers);
      var i := 0;
      while i < |answers|
        invariant 0 <= i <= |answers| && id in connections
        invariant ReadLoop(View(), id, answers[i..]) == whole
      {
        match answers[i] {
          case Bytes(b) =>
            DispatchEvent(id, Data(b));
            totalBytesReceived := totalBytesReceived + |b|;
          case EndOfStream =>
            HandleConnectionClose(id);
            return;
          case Drained => return;
          case Retry =>
          case Broken =>
            HandleConnectionError(id, [], []);
            return;
        }
        assert answers[i..][1..] == answers[i + 1..];
        i := i + 1;
      }
    }

    /** `idle`: the connections that IsTimeout selected. */
    method CheckTimeouts(idle: seq<nat>)
      modifies this
      ensures View() == CloseAll(old(View()), idle)
    {
      ghost var whole := CloseAll(View(), idle);
      for i := 0 to |idle|
        invariant CloseAll(View(), idle[i..]) == whole
      {
        assert idle[i..][1..] == idle[i + 1..];
        if idle[i] in connections { HandleConnectionClose(idle[i]); }
      }
    }

    /** The first step of Stop; only the call that clears the flag goes on to join and clean up. */
    method ClearRunning() returns (first: bool)
      modifies this`isRunning
      ensures View() == Next(old(View()), Stop) && first == old(isRunning)
    {
      first := isRunning;
      isRunning := false;
    }

    /** The last step of Stop, after the event loop has ended. */
    method CleanupAllConnections()
      requires !isRunning
      modifies this`connections, this`fdToConnectionId
      ensures View() == Next(old(View()), Cleanup)
    {
      connections, fdToConnectionId := map[], map[];
    }
  }
}
