/**
 The Reactor (src/darwincore/network/reactor.cpp): everything its event-loop thread does to the
 connection tables, send buffers, flags and counters, and the events it dispatches.

 The socket is an oracle: what send() and recv() answer comes with the step.  Each connection
 incarnation ("life") has a number, stamped on its events and under which its log is kept: what
 its peer was sent (`wire`) and the payloads submitted for it while it was live (`submitted`).
 */
module Reactor {
  import opened Bytes
  import opened SendBuffer
  import ConnectionId

  datatype Conn = Conn(fd: nat, sendBuffer: seq<byte>, readPaused: bool, writePending: bool, life: nat)

  datatype Log = Log(id: nat, wire: seq<byte>, submitted: seq<byte>)

  datatype Kind = Connected | Data(bytes: seq<byte>) | Error | Disconnected

  datatype Event = Event(id: nat, kind: Kind, life: nat)

  datatype State = State(
    reactorId: nat,
    running: bool,
    connections: map<nat, Conn>,
    fdToId: map<nat, nat>,
    connectionSeq: nat,
    active: int,
    totalConnections: nat,
    bytesSent: nat,
    bytesReceived: nat,
    dispatched: seq<Event>,     // history
    logs: map<nat, Log>,        // history
    births: nat)                // history

  function Init(reactorId: nat): State {
    State(reactorId, true, map[], map[], 0, 0, 0, 0, 0, [], map[], 0)
  }

  /** What recv() answers in turn; the loop ends at Drained, EndOfStream or Broken. */
  datatype Received = Bytes(data: seq<byte>) | EndOfStream | Drained | Retry | Broken

  datatype Step =
    | Add(fd: nat, date: nat, monitored: bool)        // `monitored`: StartReadMonitor succeeded
    | Remove(id: nat)
    | Send(id: nat, data: seq<byte>, answer: Answer)
    | Readable(fd: nat, answers: seq<Received>)
    | Writable(fd: nat, answer: Answer)
    | PeerClosed(fd: nat)                             // EV_EOF
    | PeerFailed(fd: nat)                             // EV_ERROR
    | TimedOut(ids: seq<nat>)                         // CheckTimeouts, for connections idle too long
    | Stop                                            // clears is_running_; the loop finishes its iteration
    | Cleanup                                         // after the join: CleanupAllConnections

  // ---------------------------------------------------------------- what steps are made of

  function Logged(s: State, life: nat, w: seq<byte>, d: seq<byte>): map<nat, Log> {
    if life in s.logs then
      s.logs[life := s.logs[life].(wire := s.logs[life].wire + w, submitted := s.logs[life].submitted + d)]
    else s.logs
  }

  /** A live connection's buffer and flags change; w went to the peer and d was submitted. */
  function Touch(s: State, id: nat, c: Conn, w: seq<byte>, d: seq<byte>): State
    requires id in s.connections
  {
    s.(connections := s.connections[id := c], logs := Logged(s, s.connections[id].life, w, d))
  }

  /** DispatchEvent for a live connection. */
  function Record(s: State, id: nat, kind: Kind): State
    requires id in s.connections
  {
    s.(dispatched := s.dispatched + [Event(id, kind, s.connections[id].life)])
  }

  /** DoRemoveConnection. */
  function Drop(s: State, id: nat): State {
    if id !in s.connections then s
    else s.(connections := s.connections - {id}, fdToId := s.fdToId - {s.connections[id].fd}, active := s.active - 1)
  }

  /** HandleConnectionClose. */
  function Close(s: State, id: nat): State
    requires id in s.connections
  {
    Drop(Record(s, id, Disconnected), id)
  }

  /** HandleConnectionError, after w of the submitted d has gone out. */
  function Fail(s: State, id: nat, w: seq<byte>, d: seq<byte>): State
    requires id in s.connections
  {
    Drop(Record(Record(Touch(s, id, s.connections[id], w, d), id, Error), id, Disconnected), id)
  }

  // ---------------------------------------------------------------- the steps

  /** The sequence number for a new connection, skipping zero, and the counter afterwards (a uint16_t). */
  function NextSequence(counter: nat): (nat, nat) {
    if counter % 0x1_0000 == 0 then (1, 2)
    else (counter % 0x1_0000, (counter + 1) % 0x1_0000)
  }

  function Begin(s: State, id: nat, fd: nat): State {
    s.(connections := s.connections[id := Conn(fd, [], false, false, s.births)],
       fdToId := s.fdToId[fd := id],
       totalConnections := s.totalConnections + 1,
       active := s.active + 1,
       dispatched := s.dispatched + [Event(id, Connected, s.births)],
       logs := s.logs[s.births := Log(id, [], [])],
       births := s.births + 1)
  }

  /** DoAddConnection; a negative fd never gets past AddConnection. */
  function DoAdd(s: State, fd: nat, date: nat, monitored: bool): State {
    if !s.running then s
    else
      var (sequence, counter) := NextSequence(s.connectionSeq);
      var id := ConnectionId.Generate(date, s.reactorId, fd, sequence);
      var s1 := s.(connectionSeq := counter);
      if id in s.connections || !monitored then s1 else Begin(s1, id, fd)
  }

  /** BufferAndMonitorWrite, after w of the submitted d has gone out directly; `rest` is what remains of d. */
  function BufferWrite(s: State, id: nat, w: seq<byte>, d: seq<byte>, rest: seq<byte>): State
    requires id in s.connections
  {
    var c := s.connections[id];
    if !Accepts(c.sendBuffer, rest) then Fail(s, id, w, d)
    else
      var b := c.sendBuffer + rest;
      Touch(s, id, c.(sendBuffer := b, readPaused := c.readPaused || |b| >= HIGH_WATER_MARK, writePending := true), w, d)
  }

  /** TrySendDirect and what follows it; only a payload sent in full adds to the byte counter. */
  function SendDirect(s: State, id: nat, data: seq<byte>, answer: Answer): State
    requires id in s.connections && Possible(answer, |data|)
  {
    match answer
    case Accepted(n) =>
      if n == |data| then Touch(s, id, s.connections[id], data, data).(bytesSent := s.bytesSent + n)
      else BufferWrite(s, id, data[..n], data, data[n..])
    case Failed => Fail(s, id, [], data)
    case _ => BufferWrite(s, id, [], data, data)
  }

  /** DoSendData; SendData turns empty payloads away. */
  function DoSend(s: State, id: nat, data: seq<byte>, answer: Answer): State
    requires Possible(answer, |data|)
  {
    if id !in s.connections || data == [] then s
    else
      var c := s.connections[id];
      if c.sendBuffer != [] then BufferWrite(s, id, [], data, data) else SendDirect(s, id, data, answer)
  }

  /** The buffer and flags after HandleWriteEvent sent n bytes. */
  function Drained1(c: Conn, n: nat): Conn
    requires n <= |c.sendBuffer|
  {
    var b := c.sendBuffer[n..];
    c.(sendBuffer := b, readPaused := c.readPaused && !(n > 0 && |b| < LOW_WATER_MARK), writePending := c.writePending && b != [])
  }

  predicate PossibleWrite(s: State, fd: nat, answer: Answer) {
    fd in s.fdToId && s.fdToId[fd] in s.connections && s.connections[s.fdToId[fd]].sendBuffer != [] ==>
      Possible(answer, |s.connections[s.fdToId[fd]].sendBuffer|)
  }

  /** SendToSocket on a non-empty buffer, and what follows it. */
  function SentFrom(s: State, id: nat, answer: Answer): State
    requires id in s.connections && Possible(answer, |s.connections[id].sendBuffer|)
  {
    var c := s.connections[id];
    match answer
    case Accepted(n) => Touch(s, id, Drained1(c, n), c.sendBuffer[..n], []).(bytesSent := s.bytesSent + n)
    case Failed => Fail(s, id, [], [])
    case _ => Touch(s, id, Drained1(c, 0), [], [])
  }

  /** HandleWriteEvent. */
  function OnWritable(s: State, fd: nat, answer: Answer): State
    requires PossibleWrite(s, fd, answer)
  {
    if fd !in s.fdToId || s.fdToId[fd] !in s.connections then s
    else
      var id := s.fdToId[fd];
      var c := s.connections[id];
      if c.sendBuffer == [] then Touch(s, id, Drained1(c, 0), [], []) else SentFrom(s, id, answer)
  }

  /** HandleReadEvent's loop. */
  function ReadLoop(s: State, id: nat, answers: seq<Received>): State
    requires id in s.connections
    decreases |answers|
  {
    if answers == [] then s
    else
      match answers[0]
      case Bytes(b) => ReadLoop(ReadSome(s, id, b), id, answers[1..])
      case Retry => ReadLoop(s, id, answers[1..])
      case _ => ReadEnd(s, id, answers[0])
  }

  function ReadSome(s: State, id: nat, b: seq<byte>): State
    requires id in s.connections
  {
    Record(s, id, Data(b)).(bytesReceived := s.bytesReceived + |b|)
  }

  /** How the loop is left. */
  function ReadEnd(s: State, id: nat, answer: Received): State
    requires id in s.connections
  {
    match answer
    case EndOfStream => Close(s, id)
    case Broken => Fail(s, id, [], [])
    case _ => s
  }

  /** CheckTimeouts. */
  function CloseAll(s: State, ids: seq<nat>): State
    decreases |ids|
  {
    if ids == [] then s
    else CloseAll(if ids[0] in s.connections then Close(s, ids[0]) else s, ids[1..])
  }

  /** CleanupAllConnections: no events, and the active counter keeps its value. */
  function CleanUp(s: State): State {
    s.(connections := map[], fdToId := map[])
  }

  /** What the environment may do: the kernel reuses no open descriptor and numbers them below 65536. */
  predicate Enabled(s: State, step: Step) {
    match step
    case Add(fd, _, _) => fd !in s.fdToId && fd < 0x1_0000
    case Send(_, data, answer) => Possible(answer, |data|)
    case Writable(fd, answer) => PossibleWrite(s, fd, answer)
    case Cleanup => !s.running
    case _ => true
  }

  function Next(s: State, step: Step): State
    requires Enabled(s, step)
  {
    match step
    case Add(fd, date, monitored) => DoAdd(s, fd, date, monitored)
    case Remove(id) => Drop(s, id)
    case Send(id, data, answer) => DoSend(s, id, data, answer)
    case Readable(fd, answers) =>
      if fd in s.fdToId && s.fdToId[fd] in s.connections then ReadLoop(s, s.fdToId[fd], answers) else s
    case Writable(fd, answer) => OnWritable(s, fd, answer)
    case PeerClosed(fd) => if fd in s.fdToId && s.fdToId[fd] in s.connections then Close(s, s.fdToId[fd]) else s
    case PeerFailed(fd) => if fd in s.fdToId && s.fdToId[fd] in s.connections then Fail(s, s.fdToId[fd], [], []) else s
    case TimedOut(ids) => CloseAll(s, ids)
    case Stop => s.(running := false)
    case Cleanup => CleanUp(s)
  }

  // ---------------------------------------------------------------- invariants

  type Conns = map<nat, Conn>
  type Logs = map<nat, Log>

  ghost predicate IdOf(conns: Conns, fds: map<nat, nat>, id: nat)
    requires id in conns
  {
    conns[id].fd in fds && fds[conns[id].fd] == id
  }

  ghost predicate FdOf(conns: Conns, fds: map<nat, nat>, fd: nat)
    requires fd in fds
  {
    fds[fd] in conns && conns[fds[fd]].fd == fd
  }

  /** The two tables name each other's entries. */
  ghost predicate Inverse(conns: Conns, fds: map<nat, nat>) {
    (forall id :: id in conns ==> IdOf(conns, fds, id)) && (forall fd :: fd in fds ==> FdOf(conns, fds, fd))
  }

  ghost predicate IdOk(reactorId: nat, conns: Conns, id: nat)
    requires id in conns
  {
    && id != 0 && ConnectionId.ReactorOf(id) == reactorId % 0x100
    && conns[id].fd < 0x1_0000 && ConnectionId.FdOf(id) == conns[id].fd
  }

  ghost predicate IdsOk(reactorId: nat, conns: Conns) {
    forall id :: id in conns ==> IdOk(reactorId, conns, id)
  }

  /** The active counter is the size of the table until CleanupAllConnections empties it. */
  ghost predicate Tallied(running: bool, conns: Conns, active: int) {
    active == |conns| || (!running && conns == map[])
  }

  /** Writing is monitored exactly while bytes wait; reading pauses only with much waiting and never beyond the mark. */
  ghost predicate FlagsOk(c: Conn) {
    && (c.writePending <==> c.sendBuffer != [])
    && (c.readPaused ==> |c.sendBuffer| >= LOW_WATER_MARK)
    && (!c.readPaused ==> |c.sendBuffer| < HIGH_WATER_MARK)
    && |c.sendBuffer| <= MAX_CAPACITY
  }

  /** Every live connection has a log of its own, which its buffer completes. */
  ghost predicate LifeOk(conns: Conns, logs: Logs, id: nat)
    requires id in conns
  {
    var c := conns[id];
    FlagsOk(c) && c.life in logs && logs[c.life].id == id && logs[c.life].wire + c.sendBuffer == logs[c.life].submitted
  }

  ghost predicate Lives(conns: Conns, logs: Logs) {
    forall id :: id in conns ==> LifeOk(conns, logs, id)
  }

  ghost predicate InPart(log: Log) {
    log.wire <= log.submitted
  }

  /** Lives are numbered in order, and what went out is part of what was submitted. */
  ghost predicate Books(logs: Logs, births: nat) {
    (forall life: nat :: life in logs <==> life < births) && (forall life: nat :: life in logs ==> InPart(logs[life]))
  }

  /** How far a life's events have got. */
  datatype Phase = Unborn | Open | Failing | Closed | Wrong

  function Advance(p: Phase, kind: Kind): Phase {
    match (p, kind)
    case (Unborn, Connected) => Open
    case (Open, Data(_)) => Open
    case (Open, Error) => Failing
    case (Open, Disconnected) => Closed
    case (Failing, Disconnected) => Closed
    case _ => Wrong
  }

  function PhaseOf(events: seq<Event>, life: nat): Phase
    decreases |events|
  {
    if events == [] then Unborn else
      var before, last := PhaseOf(events[..|events| - 1], life), events[|events| - 1];
      if last.life == life then Advance(before, last.kind) else before
  }

  ghost predicate AllOpen(conns: Conns, events: seq<Event>) {
    forall id :: id in conns ==> PhaseOf(events, conns[id].life) == Open
  }

  ghost predicate Stories(events: seq<Event>, births: nat) {
    && (forall life: nat :: life < births ==> PhaseOf(events, life) == Open || PhaseOf(events, life) == Closed)
    && (forall life: nat :: births <= life ==> PhaseOf(events, life) == Unborn)
  }

  /** Every event bears the id of its life. */
  ghost predicate Named(events: seq<Event>, logs: Logs) {
    forall k :: 0 <= k < |events| ==> events[k].life in logs && logs[events[k].life].id == events[k].id
  }

  ghost predicate Inv(s: State) {
    && Inverse(s.connections, s.fdToId) && IdsOk(s.reactorId, s.connections) && Tallied(s.running, s.connections, s.active)
    && Lives(s.connections, s.logs) && Books(s.logs, s.births)
    && AllOpen(s.connections, s.dispatched) && Stories(s.dispatched, s.births) && Named(s.dispatched, s.logs)
  }

  // ---------------------------------------------------------------- a connection's buffer and flags change

  lemma PhaseAfter(events: seq<Event>, e: Event, life: nat)
    ensures PhaseOf(events + [e], life) ==
            if e.life == life then Advance(PhaseOf(events, life), e.kind) else PhaseOf(events, life)
  {
    assert (events + [e])[..|events|] == events;
  }

  /** A connection is replaced by one with the same descriptor and life. */
  ghost predicate SamePlace(conns: Conns, id: nat, c: Conn) {
    id in conns && c.fd == conns[id].fd && c.life == conns[id].life
  }

  lemma PlacedTables(reactorId: nat, running: bool, conns: Conns, fds: map<nat, nat>, active: int, id: nat, c: Conn)
    requires SamePlace(conns, id, c) && Inverse(conns, fds) && IdsOk(reactorId, conns) && Tallied(running, conns, active)
    ensures Inverse(conns[id := c], fds) && IdsOk(reactorId, conns[id := c]) && Tallied(running, conns[id := c], active)
  {
    var conns' := conns[id := c];
    assert conns'.Keys == conns.Keys;
    forall k | k in conns' ensures IdOf(conns', fds, k) { assert IdOf(conns, fds, k); }
    forall fd | fd in fds ensures FdOf(conns', fds, fd) { assert FdOf(conns, fds, fd); }
    forall k | k in conns' ensures IdOk(reactorId, conns', k) { assert IdOk(reactorId, conns, k); }
  }

  lemma PlacedOpen(conns: Conns, events: seq<Event>, id: nat, c: Conn)
    requires SamePlace(conns, id, c) && AllOpen(conns, events)
    ensures AllOpen(conns[id := c], events)
  {
    var conns' := conns[id := c];
    forall k | k in conns' ensures PhaseOf(events, conns'[k].life) == Open {
      assert PhaseOf(events, conns[k].life) == Open;
    }
  }

  /** What is added to one life's log. */
  ghost function Longer(logs: Logs, life: nat, w: seq<byte>, d: seq<byte>): Logs {
    if life in logs then logs[life := logs[life].(wire := logs[life].wire + w, submitted := logs[life].submitted + d)] else logs
  }

  lemma LongerNamed(events: seq<Event>, logs: Logs, life: nat, w: seq<byte>, d: seq<byte>)
    requires Named(events, logs)
    ensures Named(events, Longer(logs, life, w, d))
  {
    var logs' := Longer(logs, life, w, d);
    forall k | 0 <= k < |events| ensures events[k].life in logs' && logs'[events[k].life].id == events[k].id {
      assert events[k].life in logs && logs[events[k].life].id == events[k].id;
    }
  }

  lemma LongerBooks(logs: Logs, births: nat, life: nat, w: seq<byte>, d: seq<byte>)
    requires Books(logs, births) && (life in logs ==> logs[life].wire + w <= logs[life].submitted + d)
    ensures Books(Longer(logs, life, w, d), births)
  {
    var logs' := Longer(logs, life, w, d);
    assert logs'.Keys == logs.Keys;
    forall k: nat | k in logs' ensures InPart(logs'[k]) { assert InPart(logs[k]); }
  }

  lemma Regroup(a: seq<byte>, w: seq<byte>, b: seq<byte>, c: seq<byte>, d: seq<byte>)
    requires w + b == c + d
    ensures (a + w) + b == (a + c) + d
  {
    assert (a + w) + b == a + (w + b);
    assert (a + c) + d == a + (c + d);
  }

  /** Live connections have different lives. */
  lemma OtherLife(conns: Conns, logs: Logs, id: nat, k: nat)
    requires id in conns && k in conns && LifeOk(conns, logs, id) && LifeOk(conns, logs, k) && k != id
    ensures conns[k].life != conns[id].life
  {
  }

  lemma PlacedLives(conns: Conns, logs: Logs, id: nat, c: Conn, w: seq<byte>, d: seq<byte>)
    requires Lives(conns, logs) && SamePlace(conns, id, c) && FlagsOk(c) && w + c.sendBuffer == conns[id].sendBuffer + d
    ensures Lives(conns[id := c], Longer(logs, c.life, w, d))
    ensures c.life in logs && logs[c.life].wire + w <= logs[c.life].submitted + d
  {
    var conns', logs' := conns[id := c], Longer(logs, c.life, w, d);
    assert LifeOk(conns, logs, id);
    Regroup(logs[c.life].wire, w, c.sendBuffer, conns[id].sendBuffer, d);
    forall k | k in conns' ensures LifeOk(conns', logs', k) {
      assert LifeOk(conns, logs, k);
      if k != id { OtherLife(conns, logs, id, k); }
    }
  }

  lemma TouchInv(s: State, id: nat, c: Conn, w: seq<byte>, d: seq<byte>)
    requires Inv(s) && SamePlace(s.connections, id, c) && FlagsOk(c)
    requires w + c.sendBuffer == s.connections[id].sendBuffer + d
    ensures Inv(Touch(s, id, c, w, d))
  {
    PlacedTables(s.reactorId, s.running, s.connections, s.fdToId, s.active, id, c);
    PlacedLives(s.connections, s.logs, id, c, w, d);
    PlacedOpen(s.connections, s.dispatched, id, c);
    LongerBooks(s.logs, s.births, c.life, w, d);
    LongerNamed(s.dispatched, s.logs, c.life, w, d);
  }

  // ---------------------------------------------------------------- a connection goes

  lemma DroppedTables(reactorId: nat, running: bool, conns: Conns, fds: map<nat, nat>, active: int, id: nat)
    requires id in conns && Inverse(conns, fds) && IdsOk(reactorId, conns) && Tallied(running, conns, active)
    ensures Inverse(conns - {id}, fds - {conns[id].fd}) && IdsOk(reactorId, conns - {id}) && Tallied(running, conns - {id}, active - 1)
  {
    var conns', fds' := conns - {id}, fds - {conns[id].fd};
    assert conns.Keys == conns'.Keys + {id};
    assert IdOf(conns, fds, id);
    forall k | k in conns' ensures IdOf(conns', fds', k) { assert IdOf(conns, fds, k); }
    forall fd | fd in fds' ensures FdOf(conns', fds', fd) { assert FdOf(conns, fds, fd); }
    forall k | k in conns' ensures IdOk(reactorId, conns', k) { assert IdOk(reactorId, conns, k); }
  }

  lemma DroppedLives(conns: Conns, logs: Logs, id: nat, w: seq<byte>, d: seq<byte>)
    requires id in conns && Lives(conns, logs)
    ensures Lives(conns - {id}, Longer(logs, conns[id].life, w, d)) && Lives(conns - {id}, logs)
  {
    var conns', logs' := conns - {id}, Longer(logs, conns[id].life, w, d);
    assert LifeOk(conns, logs, id);
    forall k | k in conns' ensures LifeOk(conns', logs', k) && LifeOk(conns', logs, k) {
      assert LifeOk(conns, logs, k);
      OtherLife(conns, logs, id, k);
    }
  }

  lemma DropInv(s: State, id: nat)
    requires Inv(s)
    ensures Inv(Drop(s, id))
  {
    if id in s.connections {
      DroppedTables(s.reactorId, s.running, s.connections, s.fdToId, s.active, id);
      DroppedLives(s.connections, s.logs, id, [], []);
      var conns' := s.connections - {id};
      assert AllOpen(conns', s.dispatched) by {
        forall k | k in conns' ensures PhaseOf(s.dispatched, conns'[k].life) == Open {
          assert PhaseOf(s.dispatched, s.connections[k].life) == Open;
        }
      }
    }
  }

  // ---------------------------------------------------------------- events

  lemma RecordedNamed(events: seq<Event>, logs: Logs, e: Event)
    requires Named(events, logs) && e.life in logs && logs[e.life].id == e.id
    ensures Named(events + [e], logs)
  {
  }

  lemma RecordDataInv(s: State, id: nat, b: seq<byte>)
    requires Inv(s) && id in s.connections
    ensures Inv(Record(s, id, Data(b)))
  {
    var e := Event(id, Data(b), s.connections[id].life);
    assert LifeOk(s.connections, s.logs, id);
    RecordedNamed(s.dispatched, s.logs, e);
    DataStories(s.connections, s.dispatched, s.births, id, b);
  }

  lemma DataStories(conns: Conns, events: seq<Event>, births: nat, id: nat, b: seq<byte>)
    requires id in conns && AllOpen(conns, events) && Stories(events, births)
    ensures AllOpen(conns, events + [Event(id, Data(b), conns[id].life)]) && Stories(events + [Event(id, Data(b), conns[id].life)], births)
  {
    var e := Event(id, Data(b), conns[id].life);
    assert PhaseOf(events, e.life) == Open;
    forall life: nat ensures PhaseOf(events + [e], life) == PhaseOf(events, life) { PhaseAfter(events, e, life); }
  }

  /** A life's last events leave the other lives as they were. */
  ghost predicate EndsLife(events: seq<Event>, events': seq<Event>, life: nat) {
    forall other: nat :: PhaseOf(events', other) == if other == life then Closed else PhaseOf(events, other)
  }

  lemma EndedStories(conns: Conns, logs: Logs, events: seq<Event>, events': seq<Event>, births: nat, id: nat)
    requires id in conns && Lives(conns, logs) && Books(logs, births) && AllOpen(conns, events) && Stories(events, births)
    requires EndsLife(events, events', conns[id].life)
    ensures AllOpen(conns - {id}, events') && Stories(events', births)
  {
    assert LifeOk(conns, logs, id);
    var conns' := conns - {id};
    forall k | k in conns' ensures PhaseOf(events', conns'[k].life) == Open {
      assert LifeOk(conns, logs, k) && PhaseOf(events, conns[k].life) == Open;
      OtherLife(conns, logs, id, k);
    }
  }

  /** The last events of a connection together with its removal. */
  lemma CloseInv(s: State, id: nat)
    requires Inv(s) && id in s.connections
    ensures Inv(Close(s, id))
  {
    var e := Event(id, Disconnected, s.connections[id].life);
    assert LifeOk(s.connections, s.logs, id) && PhaseOf(s.dispatched, e.life) == Open;
    DroppedTables(s.reactorId, s.running, s.connections, s.fdToId, s.active, id);
    DroppedLives(s.connections, s.logs, id, [], []);
    RecordedNamed(s.dispatched, s.logs, e);
    forall other: nat ensures PhaseOf(s.dispatched + [e], other) == if other == e.life then Closed else PhaseOf(s.dispatched, other) {
      PhaseAfter(s.dispatched, e, other);
    }
    EndedStories(s.connections, s.logs, s.dispatched, s.dispatched + [e], s.births, id);
  }

  lemma PrefixGrows(a: seq<byte>, w: seq<byte>, b: seq<byte>, d: seq<byte>)
    requires w <= b + d
    ensures a + w <= (a + b) + d
  {
    assert (a + b) + d == a + (b + d);
  }

  /** What Fail makes of the state, part by part. */
  lemma FailIs(s: State, id: nat, w: seq<byte>, d: seq<byte>)
    requires id in s.connections
    ensures var life := s.connections[id].life;
            Fail(s, id, w, d) == s.(connections := s.connections - {id}, fdToId := s.fdToId - {s.connections[id].fd},
                                    active := s.active - 1, logs := Longer(s.logs, life, w, d),
                                    dispatched := (s.dispatched + [Event(id, Error, life)]) + [Event(id, Disconnected, life)])
  {
    assert s.connections[id := s.connections[id]] == s.connections;
  }

  lemma FailEvents(events: seq<Event>, id: nat, life: nat)
    requires PhaseOf(events, life) == Open
    ensures EndsLife(events, (events + [Event(id, Error, life)]) + [Event(id, Disconnected, life)], life)
  {
    var e1, e2 := Event(id, Error, life), Event(id, Disconnected, life);
    forall other: nat ensures PhaseOf((events + [e1]) + [e2], other) == if other == life then Closed else PhaseOf(events, other) {
      PhaseAfter(events, e1, other);
      PhaseAfter(events + [e1], e2, other);
    }
  }

  lemma FailNamed(events: seq<Event>, logs: Logs, id: nat, life: nat, w: seq<byte>, d: seq<byte>)
    requires Named(events, logs) && life in logs && logs[life].id == id
    ensures Named((events + [Event(id, Error, life)]) + [Event(id, Disconnected, life)], Longer(logs, life, w, d))
  {
    var e1, e2 := Event(id, Error, life), Event(id, Disconnected, life);
    RecordedNamed(events, logs, e1);
    RecordedNamed(events + [e1], logs, e2);
    LongerNamed((events + [e1]) + [e2], logs, life, w, d);
  }

  lemma FailInv(s: State, id: nat, w: seq<byte>, d: seq<byte>)
    requires Inv(s) && id in s.connections && w <= s.connections[id].sendBuffer + d
    ensures Inv(Fail(s, id, w, d))
  {
    var c := s.connections[id];
    assert LifeOk(s.connections, s.logs, id) && PhaseOf(s.dispatched, c.life) == Open;
    FailIs(s, id, w, d);
    DroppedTables(s.reactorId, s.running, s.connections, s.fdToId, s.active, id);
    DroppedLives(s.connections, s.logs, id, w, d);
    PrefixGrows(s.logs[c.life].wire, w, c.sendBuffer, d);
    LongerBooks(s.logs, s.births, c.life, w, d);
    FailEvents(s.dispatched, id, c.life);
    EndedStories(s.connections, s.logs, s.dispatched, Fail(s, id, w, d).dispatched, s.births, id);
    FailNamed(s.dispatched, s.logs, id, c.life, w, d);
  }

  // ---------------------------------------------------------------- a new connection

  /** With the open descriptors distinct and below 65536, no live connection has the new id. */
  lemma NoCollision(s: State, fd: nat, date: nat, sequence: nat)
    requires Inverse(s.connections, s.fdToId) && IdsOk(s.reactorId, s.connections) && fd !in s.fdToId && fd < 0x1_0000
    ensures ConnectionId.Generate(date, s.reactorId, fd, sequence) !in s.connections
  {
    var id := ConnectionId.Generate(date, s.reactorId, fd, sequence);
    assert ConnectionId.FdOf(id) == fd by { ConnectionId.ParseGenerated(date, s.reactorId, fd, sequence); }
    assert forall k :: k in s.connections ==> ConnectionId.FdOf(k) != fd by { NoSuchFd(s, fd); }
  }

  lemma NoSuchFd(s: State, fd: nat)
    requires Inverse(s.connections, s.fdToId) && IdsOk(s.reactorId, s.connections) && fd !in s.fdToId
    ensures forall k :: k in s.connections ==> ConnectionId.FdOf(k) != fd
  {
    forall k | k in s.connections ensures ConnectionId.FdOf(k) != fd {
      assert IdOk(s.reactorId, s.connections, k) && IdOf(s.connections, s.fdToId, k);
    }
  }

  lemma SequenceNotZero(counter: nat)
    ensures 0 < NextSequence(counter).0 < 0x1_0000 && NextSequence(counter).1 < 0x1_0000
  {
  }

  lemma BeginInverse(conns: Conns, fds: map<nat, nat>, id: nat, c: Conn)
    requires Inverse(conns, fds) && id !in conns && c.fd !in fds
    ensures Inverse(conns[id := c], fds[c.fd := id])
  {
    var conns', fds' := conns[id := c], fds[c.fd := id];
    forall k | k in conns' ensures IdOf(conns', fds', k) { assert k != id ==> IdOf(conns, fds, k); }
    forall fd | fd in fds' ensures FdOf(conns', fds', fd) { assert fd != c.fd ==> FdOf(conns, fds, fd); }
  }

  lemma BeginTables(reactorId: nat, running: bool, conns: Conns, active: int, id: nat, c: Conn)
    requires IdsOk(reactorId, conns) && Tallied(running, conns, active) && running && id !in conns && c.fd < 0x1_0000
    requires id != 0 && ConnectionId.ReactorOf(id) == reactorId % 0x100 && ConnectionId.FdOf(id) == c.fd
    ensures IdsOk(reactorId, conns[id := c]) && Tallied(running, conns[id := c], active + 1)
  {
    var conns' := conns[id := c];
    assert conns'.Keys == conns.Keys + {id};
    forall k | k in conns' ensures IdOk(reactorId, conns', k) { assert k != id ==> IdOk(reactorId, conns, k); }
  }

  lemma BeginLives(conns: Conns, logs: Logs, births: nat, id: nat, fd: nat)
    requires Lives(conns, logs) && Books(logs, births) && id !in conns
    ensures Lives(conns[id := Conn(fd, [], false, false, births)], logs[births := Log(id, [], [])])
    ensures Books(logs[births := Log(id, [], [])], births + 1)
  {
    var conns', logs' := conns[id := Conn(fd, [], false, false, births)], logs[births := Log(id, [], [])];
    forall k | k in conns' ensures LifeOk(conns', logs', k) { assert k != id ==> LifeOk(conns, logs, k); }
  }

  lemma BeginStories(conns: Conns, logs: Logs, events: seq<Event>, births: nat, id: nat, fd: nat)
    requires Lives(conns, logs) && Books(logs, births) && AllOpen(conns, events) && Stories(events, births) && id !in conns
    ensures AllOpen(conns[id := Conn(fd, [], false, false, births)], events + [Event(id, Connected, births)])
    ensures Stories(events + [Event(id, Connected, births)], births + 1)
  {
    var e := Event(id, Connected, births);
    forall life: nat ensures PhaseOf(events + [e], life) == if life == births then Open else PhaseOf(events, life) {
      PhaseAfter(events, e, life);
    }
    forall k | k in conns ensures conns[k].life != births && PhaseOf(events, conns[k].life) == Open {
      assert LifeOk(conns, logs, k);
    }
  }

  lemma BeginNamed(events: seq<Event>, logs: Logs, births: nat, id: nat)
    requires Named(events, logs) && births !in logs
    ensures Named(events + [Event(id, Connected, births)], logs[births := Log(id, [], [])])
  {
  }

  lemma BeginInv(s: State, id: nat, fd: nat)
    requires Inv(s) && s.running && id !in s.connections && fd !in s.fdToId && fd < 0x1_0000
    requires id != 0 && ConnectionId.ReactorOf(id) == s.reactorId % 0x100 && ConnectionId.FdOf(id) == fd
    ensures Inv(Begin(s, id, fd))
  {
    var c := Conn(fd, [], false, false, s.births);
    BeginInverse(s.connections, s.fdToId, id, c);
    BeginTables(s.reactorId, s.running, s.connections, s.active, id, c);
    BeginLives(s.connections, s.logs, s.births, id, fd);
    BeginStories(s.connections, s.logs, s.dispatched, s.births, id, fd);
    BeginNamed(s.dispatched, s.logs, s.births, id);
  }

  lemma AddInv(s: State, fd: nat, date: nat, monitored: bool)
    requires Inv(s) && fd !in s.fdToId && fd < 0x1_0000
    ensures Inv(DoAdd(s, fd, date, monitored))
  {
    if s.running {
      var (sequence, counter) := NextSequence(s.connectionSeq);
      NoCollision(s, fd, date, sequence);
      ConnectionId.ParseGenerated(date, s.reactorId, fd, sequence);
      SequenceNotZero(s.connectionSeq);
      var id := ConnectionId.Generate(date, s.reactorId, fd, sequence);
      if monitored { BeginInv(s.(connectionSeq := counter), id, fd); }
    }
  }

  // ---------------------------------------------------------------- every step keeps the invariants

  lemma BufferWriteInv(s: State, id: nat, w: seq<byte>, d: seq<byte>, rest: seq<byte>)
    requires Inv(s) && id in s.connections && rest != [] && d == w + rest
    requires w == [] || s.connections[id].sendBuffer == []
    ensures Inv(BufferWrite(s, id, w, d, rest))
  {
    var c := s.connections[id];
    assert LifeOk(s.connections, s.logs, id);
    assert w <= c.sendBuffer + d by { assert w == [] || c.sendBuffer + d == d; }
    if !Accepts(c.sendBuffer, rest) {
      FailInv(s, id, w, d);
    } else {
      var b := c.sendBuffer + rest;
      assert w + b == c.sendBuffer + d by { assert w == [] ==> w + b == b && d == rest; assert c.sendBuffer == [] ==> b == rest; }
      TouchInv(s, id, c.(sendBuffer := b, readPaused := c.readPaused || |b| >= HIGH_WATER_MARK, writePending := true), w, d);
    }
  }

  /** TrySendDirect took everything. */
  lemma SentAllInv(s: State, id: nat, data: seq<byte>, n: nat)
    requires Inv(s) && id in s.connections && s.connections[id].sendBuffer == []
    ensures Inv(Touch(s, id, s.connections[id], data, data).(bytesSent := n))
  {
    var c := s.connections[id];
    assert data + c.sendBuffer == c.sendBuffer + data;
    TouchInv(s, id, c, data, data);
  }

  lemma DirectAcceptedInv(s: State, id: nat, data: seq<byte>, n: nat)
    requires Inv(s) && id in s.connections && s.connections[id].sendBuffer == [] && data != [] && Possible(Accepted(n), |data|)
    ensures Inv(SendDirect(s, id, data, Accepted(n)))
  {
    if n == |data| {
      SentAllInv(s, id, data, s.bytesSent + n);
    } else {
      assert data == data[..n] + data[n..];
      BufferWriteInv(s, id, data[..n], data, data[n..]);
    }
  }

  lemma SendDirectInv(s: State, id: nat, data: seq<byte>, answer: Answer)
    requires Inv(s) && id in s.connections && s.connections[id].sendBuffer == [] && data != [] && Possible(answer, |data|)
    ensures Inv(SendDirect(s, id, data, answer))
  {
    match answer
    case Accepted(n) =>
      DirectAcceptedInv(s, id, data, n);
    case Failed => FailInv(s, id, [], data);
    case _ =>
      assert data == [] + data;
      BufferWriteInv(s, id, [], data, data);
  }

  lemma SendInv(s: State, id: nat, data: seq<byte>, answer: Answer)
    requires Inv(s) && Possible(answer, |data|)
    ensures Inv(DoSend(s, id, data, answer))
  {
    if id in s.connections && data != [] {
      if s.connections[id].sendBuffer != [] {
        assert data == [] + data;
        BufferWriteInv(s, id, [], data, data);
      } else {
        SendDirectInv(s, id, data, answer);
      }
    }
  }

  lemma DrainedFlags(c: Conn, n: nat)
    requires FlagsOk(c) && n <= |c.sendBuffer|
    ensures FlagsOk(Drained1(c, n))
  {
  }

  /** SendToSocket took n bytes. */
  lemma DrainInv(s: State, id: nat, n: nat)
    requires Inv(s) && id in s.connections && n <= |s.connections[id].sendBuffer|
    ensures var c := s.connections[id]; Inv(Touch(s, id, Drained1(c, n), c.sendBuffer[..n], []))
  {
    var c := s.connections[id];
    DrainedFlags(c, n);
    assert c.sendBuffer[..n] + c.sendBuffer[n..] == c.sendBuffer + [];
    TouchInv(s, id, Drained1(c, n), c.sendBuffer[..n], []);
  }

  lemma DrainSentInv(s: State, id: nat, n: nat, total: nat, s': State)
    requires Inv(s) && id in s.connections && n <= |s.connections[id].sendBuffer|
    requires var c := s.connections[id]; s' == Touch(s, id, Drained1(c, n), c.sendBuffer[..n], []).(bytesSent := total)
    ensures Inv(s')
  {
    DrainInv(s, id, n);
  }

  lemma DrainNothingInv(s: State, id: nat)
    requires Inv(s) && id in s.connections
    ensures Inv(Touch(s, id, Drained1(s.connections[id], 0), [], []))
  {
    DrainInv(s, id, 0);
    assert s.connections[id].sendBuffer[..0] == [];
  }

  lemma DrainAnyInv(s: State, id: nat, answer: Answer)
    requires Inv(s) && id in s.connections && s.connections[id].sendBuffer != [] && !answer.Failed?
    requires Possible(answer, |s.connections[id].sendBuffer|)
    ensures Inv(SentFrom(s, id, answer))
  {
    if answer.Accepted? { DrainAcceptedInv(s, id, answer.n); } else { DrainNothingInv(s, id); }
  }

  lemma DrainAcceptedInv(s: State, id: nat, n: nat)
    requires Inv(s) && id in s.connections && Possible(Accepted(n), |s.connections[id].sendBuffer|)
    ensures Inv(SentFrom(s, id, Accepted(n)))
  {
    DrainSentInv(s, id, n, s.bytesSent + n, SentFrom(s, id, Accepted(n)));
  }

  lemma WritableBusyInv(s: State, id: nat, answer: Answer)
    requires Inv(s) && id in s.connections && s.connections[id].sendBuffer != []
    requires Possible(answer, |s.connections[id].sendBuffer|)
    ensures Inv(SentFrom(s, id, answer))
  {
    if answer.Failed? { FailInv(s, id, [], []); } else { DrainAnyInv(s, id, answer); }
  }

  lemma WritableInv(s: State, fd: nat, answer: Answer)
    requires Inv(s) && PossibleWrite(s, fd, answer)
    ensures Inv(OnWritable(s, fd, answer))
  {
    if fd in s.fdToId && s.fdToId[fd] in s.connections {
      var id := s.fdToId[fd];
      var c := s.connections[id];
      if c.sendBuffer == [] {
        assert OnWritable(s, fd, answer) == Touch(s, id, Drained1(c, 0), [], []);
        DrainNothingInv(s, id);
      } else {
        WritableBusyInv(s, id, answer);
      }
    }
  }

  lemma ReadEndInv(s: State, id: nat, answer: Received)
    requires Inv(s) && id in s.connections
    ensures Inv(ReadEnd(s, id, answer))
  {
    CloseInv(s, id);
    FailInv(s, id, [], []);
    ReadEndKeeps((x: State) => Inv(x), s, id, answer);
  }

  lemma ReadEndKeeps(inv: State -> bool, s: State, id: nat, answer: Received)
    requires id in s.connections && inv(s) && inv(Close(s, id)) && inv(Fail(s, id, [], []))
    ensures inv(ReadEnd(s, id, answer))
  {
  }

  /** Whatever its parts keep, the receive loop keeps. */
  lemma {:induction false} ReadKeeps(inv: State -> bool, s: State, id: nat, answers: seq<Received>)
    requires inv(s) && id in s.connections
    requires forall x: State, b :: inv(x) && id in x.connections ==> inv(ReadSome(x, id, b))
    requires forall x: State, a :: inv(x) && id in x.connections ==> inv(ReadEnd(x, id, a))
    ensures inv(ReadLoop(s, id, answers))
    decreases |answers|
  {
    if answers != [] {
      match answers[0]
      case Bytes(b) => ReadKeeps(inv, ReadSome(s, id, b), id, answers[1..]);
      case Retry => ReadKeeps(inv, s, id, answers[1..]);
      case _ =>
    }
  }

  lemma ReadInv(s: State, id: nat, answers: seq<Received>)
    requires Inv(s) && id in s.connections
    ensures Inv(ReadLoop(s, id, answers))
  {
    forall x: State, b | Inv(x) && id in x.connections ensures Inv(ReadSome(x, id, b)) { RecordDataInv(x, id, b); }
    forall x: State, a | Inv(x) && id in x.connections ensures Inv(ReadEnd(x, id, a)) { ReadEndInv(x, id, a); }
    ReadKeeps((x: State) => Inv(x), s, id, answers);
  }

  lemma {:induction false} CloseAllInv(s: State, ids: seq<nat>)
    requires Inv(s)
    ensures Inv(CloseAll(s, ids))
    decreases |ids|
  {
    if ids != [] {
      if ids[0] in s.connections { CloseInv(s, ids[0]); }
      CloseAllInv(if ids[0] in s.connections then Close(s, ids[0]) else s, ids[1..]);
    }
  }

  lemma StepInv(s: State, step: Step)
    requires Inv(s) && Enabled(s, step)
    ensures Inv(Next(s, step))
  {
    match step
    case Add(fd, date, monitored) => AddInv(s, fd, date, monitored);
    case Remove(id) => DropInv(s, id);
    case Send(id, data, answer) => SendInv(s, id, data, answer);
    case Readable(fd, answers) =>
      if fd in s.fdToId && s.fdToId[fd] in s.connections { ReadInv(s, s.fdToId[fd], answers); }
    case Writable(fd, answer) => WritableInv(s, fd, answer);
    case PeerClosed(fd) => if fd in s.fdToId && s.fdToId[fd] in s.connections { CloseInv(s, s.fdToId[fd]); }
    case PeerFailed(fd) => if fd in s.fdToId && s.fdToId[fd] in s.connections { FailInv(s, s.fdToId[fd], [], []); }
    case TimedOut(ids) => CloseAllInv(s, ids);
    case Stop =>
    case Cleanup =>
  }

  // ---------------------------------------------------------------- runs

  ghost predicate Legal(s: State, steps: seq<Step>)
    decreases |steps|
  {
    steps == [] || (Enabled(s, steps[0]) && Legal(Next(s, steps[0]), steps[1..]))
  }

  ghost function Final(s: State, steps: seq<Step>): State
    requires Legal(s, steps)
    decreases |steps|
  {
    if steps == [] then s else Final(Next(s, steps[0]), steps[1..])
  }

  ghost predicate Reachable(s: State) {
    exists reactorId: nat, steps: seq<Step> :: Legal(Init(reactorId), steps) && Final(Init(reactorId), steps) == s
  }

  lemma {:induction false} RunInv(s: State, steps: seq<Step>)
    requires Inv(s) && Legal(s, steps)
    ensures Inv(Final(s, steps))
    decreases |steps|
  {
    if steps != [] {
      StepInv(s, steps[0]);
      RunInv(Next(s, steps[0]), steps[1..]);
    }
  }

  lemma InitInv(reactorId: nat)
    ensures Inv(Init(reactorId))
  {
    var s := Init(reactorId);
    assert forall life: nat :: life in s.logs <==> life < s.births;
  }

  lemma ReachableInv(s: State)
    requires Reachable(s)
    ensures Inv(s)
  {
    var reactorId: nat, steps: seq<Step> :| Legal(Init(reactorId), steps) && Final(Init(reactorId), steps) == s;
    InitInv(reactorId);
    RunInv(Init(reactorId), steps);
  }

  // ---------------------------------------------------------------- main results

  /**
   For every run and every partial answer of the socket: what the peer of a live connection was sent,
   followed by the send buffer, is all that was submitted, in order; after a close, a prefix of it.
   */
  lemma WireCarriesSubmissions(s: State)
    requires Reachable(s)
    ensures forall id :: id in s.connections ==>
              var c := s.connections[id];
              c.life in s.logs && s.logs[c.life].wire + c.sendBuffer == s.logs[c.life].submitted
    ensures forall life: nat :: life in s.logs ==> s.logs[life].wire <= s.logs[life].submitted
  {
    ReachableInv(s);
    forall id | id in s.connections ensures LifeOk(s.connections, s.logs, id) { }
  }

  /** A payload submitted to a live connection is on the wire or in the buffer afterwards, unless the connection failed. */
  lemma SendIsQueuedOrFails(s: State, id: nat, data: seq<byte>, answer: Answer)
    requires Reachable(s) && Possible(answer, |data|) && id in s.connections && data != []
    ensures var s' := DoSend(s, id, data, answer);
            var life := s.connections[id].life;
            life in s.logs && life in s'.logs && s'.logs[life].submitted == s.logs[life].submitted + data &&
            (id in s'.connections ==> s'.connections[id].life == life)
  {
    ReachableInv(s);
    assert LifeOk(s.connections, s.logs, id);
    SendIsLogged(s, id, data, answer);
  }

  lemma SendIsLogged(s: State, id: nat, data: seq<byte>, answer: Answer)
    requires Possible(answer, |data|) && id in s.connections && data != [] && s.connections[id].life in s.logs
    ensures var s' := DoSend(s, id, data, answer);
            var life := s.connections[id].life;
            life in s'.logs && s'.logs[life].submitted == s.logs[life].submitted + data &&
            (id in s'.connections ==> s'.connections[id].life == life)
  {
    if s.connections[id].sendBuffer != [] || answer != Accepted(|data|) {
      forall w, rest { BufferIsLogged(s, id, w, data, rest); }
    }
  }

  lemma BufferIsLogged(s: State, id: nat, w: seq<byte>, data: seq<byte>, rest: seq<byte>)
    requires id in s.connections && s.connections[id].life in s.logs
    ensures var s' := BufferWrite(s, id, w, data, rest);
            var life := s.connections[id].life;
            life in s'.logs && s'.logs[life].submitted == s.logs[life].submitted + data &&
            (id in s'.connections ==> s'.connections[id].life == life)
  {
  }

  /** A paused connection is always write-monitored, so that a writable event can resume it; the flags follow the marks. */
  lemma BackpressureIsSound(s: State, id: nat)
    requires Reachable(s) && id in s.connections
    ensures var c := s.connections[id];
            && (c.writePending <==> c.sendBuffer != [])
            && (c.readPaused ==> |c.sendBuffer| >= LOW_WATER_MARK && c.writePending)
            && (!c.readPaused ==> |c.sendBuffer| < HIGH_WATER_MARK)
            && |c.sendBuffer| <= MAX_CAPACITY
  {
    ReachableInv(s);
    assert FlagsOk(s.connections[id]);
  }

  /** The tables are mutually inverse, ids are non-zero and parse back, and the counter counts while the reactor runs. */
  lemma TablesAgree(s: State)
    requires Reachable(s)
    ensures Inverse(s.connections, s.fdToId) && (s.active == |s.connections| || (!s.running && s.connections == map[]))
    ensures forall id :: id in s.connections ==>
              id != 0 && ConnectionId.ReactorOf(id) == s.reactorId % 0x100 && ConnectionId.FdOf(id) == s.connections[id].fd
  {
    ReachableInv(s);
    forall id | id in s.connections ensures IdOk(s.reactorId, s.connections, id) { }
  }

  /** A running reactor never takes the id-collision branch: every monitored new descriptor gets a connection. */
  lemma AddNeverCollides(s: State, fd: nat, date: nat)
    requires Reachable(s) && Enabled(s, Add(fd, date, true)) && s.running
    ensures var s' := Next(s, Add(fd, date, true));
            fd in s'.fdToId && s'.births == s.births + 1 && |s'.connections| == |s.connections| + 1
  {
    ReachableInv(s);
    NoCollision(s, fd, date, NextSequence(s.connectionSeq).0);
    AddRegisters(s, fd, date);
  }

  lemma AddRegisters(s: State, fd: nat, date: nat)
    requires s.running && ConnectionId.Generate(date, s.reactorId, fd, NextSequence(s.connectionSeq).0) !in s.connections
    ensures var s' := DoAdd(s, fd, date, true);
            fd in s'.fdToId && s'.births == s.births + 1 && |s'.connections| == |s.connections| + 1
  {
    var id := ConnectionId.Generate(date, s.reactorId, fd, NextSequence(s.connectionSeq).0);
    assert DoAdd(s, fd, date, true).connections.Keys == s.connections.Keys + {id};
  }

  /** Registering a connection keeps the tables inverse exactly when its descriptor is not in the table yet. */
  lemma InverseExactlyIfFdFree(s: State, id: nat, fd: nat)
    requires Inverse(s.connections, s.fdToId) && id !in s.connections
    ensures Inverse(Begin(s, id, fd).connections, Begin(s, id, fd).fdToId) <==> fd !in s.fdToId
  {
    if fd in s.fdToId {
      var old' := s.fdToId[fd];
      assert FdOf(s.connections, s.fdToId, fd);
      assert !IdOf(Begin(s, id, fd).connections, Begin(s, id, fd).fdToId, old');
    } else {
      BeginInverse(s.connections, s.fdToId, id, Conn(fd, [], false, false, s.births));
    }
  }

  // ---- the events of a life

  function KindsOf(events: seq<Event>, life: nat): seq<Kind>
    decreases |events|
  {
    if events == [] then [] else
      var before, last := KindsOf(events[..|events| - 1], life), events[|events| - 1];
      if last.life == life then before + [last.kind] else before
  }

  /** Connected, any number of Data, optionally Error, then at most one Disconnected, or a prefix of that. */
  ghost predicate Story(kinds: seq<Kind>) {
    kinds == [] || exists n :: 1 <= n <= |kinds| && StoryUpTo(kinds, n)
  }

  ghost predicate StoryUpTo(kinds: seq<Kind>, n: nat)
    requires 1 <= n <= |kinds|
  {
    && kinds[0] == Connected && (forall i :: 1 <= i < n ==> kinds[i].Data?)
    && (kinds[n..] == [] || kinds[n..] == [Error] || kinds[n..] == [Disconnected] || kinds[n..] == [Error, Disconnected])
  }

  function PhaseOfKinds(kinds: seq<Kind>): Phase
    decreases |kinds|
  {
    if kinds == [] then Unborn else Advance(PhaseOfKinds(kinds[..|kinds| - 1]), kinds[|kinds| - 1])
  }

  lemma {:induction false} PhasesAgree(events: seq<Event>, life: nat)
    ensures PhaseOf(events, life) == PhaseOfKinds(KindsOf(events, life))
    decreases |events|
  {
    if events != [] {
      var before, last := events[..|events| - 1], events[|events| - 1];
      PhasesAgree(before, life);
      if last.life == life {
        var ks := KindsOf(before, life);
        assert (ks + [last.kind])[..|ks|] == ks;
      }
    }
  }

  /** The shape that a phase stands for; n is where the Data events end. */
  ghost predicate PhaseShape(kinds: seq<Kind>, p: Phase, n: nat) {
    match p
    case Unborn => kinds == []
    case Open => |kinds| == n && n >= 1 && StoryUpTo(kinds, n)
    case Failing => 1 <= n <= |kinds| && StoryUpTo(kinds, n) && kinds[n..] == [Error]
    case Closed => 1 <= n <= |kinds| && StoryUpTo(kinds, n) && (kinds[n..] == [Disconnected] || kinds[n..] == [Error, Disconnected])
    case Wrong => true
  }

  lemma {:induction false} ShapeOf(kinds: seq<Kind>) returns (n: nat)
    ensures PhaseShape(kinds, PhaseOfKinds(kinds), n)
    decreases |kinds|
  {
    if kinds == [] {
      n := 0;
    } else {
      var before, last := kinds[..|kinds| - 1], kinds[|kinds| - 1];
      var m := ShapeOf(before);
      var p := PhaseOfKinds(before);
      n := if p == Unborn then 1 else if p == Open && last.Data? then m + 1 else m;
      ShapeStep(before, last, p, m, n);
      assert kinds == before + [last];
    }
  }

  lemma ShapeStep(before: seq<Kind>, last: Kind, p: Phase, m: nat, n: nat)
    requires PhaseShape(before, p, m)
    requires n == if p == Unborn then 1 else if p == Open && last.Data? then m + 1 else m
    ensures PhaseShape(before + [last], Advance(p, last), n)
  {
    var kinds := before + [last];
    if p == Open && !last.Data? {
      assert kinds[m..] == [last];
    } else if p == Failing {
      assert kinds[m..] == before[m..] + [last];
    }
  }

  /** In every run, each connection incarnation's dispatched events tell a story. */
  lemma EveryLifeTellsAStory(s: State, life: nat)
    requires Reachable(s)
    ensures Story(KindsOf(s.dispatched, life))
  {
    ReachableInv(s);
    PhasesAgree(s.dispatched, life);
    var n := ShapeOf(KindsOf(s.dispatched, life));
  }

  /** A prefix of a story is a story. */
  lemma StoryPrefix(kinds: seq<Kind>, k: nat)
    requires Story(kinds) && k <= |kinds|
    ensures Story(kinds[..k])
  {
    if k > 0 {
      var n :| 1 <= n <= |kinds| && StoryUpTo(kinds, n);
      if k <= n {
        assert StoryUpTo(kinds[..k], k);
      } else {
        assert kinds[..k][n..] == kinds[n..][..k - n];
        assert StoryUpTo(kinds[..k], n);
      }
    }
  }
}
