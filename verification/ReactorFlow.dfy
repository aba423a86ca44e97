/**
 What each step of the reactor (src/darwincore/network/reactor.cpp) shows to the outside, said of the sockets'
 answers and of nothing the reactor computes: which connections stay, which events each incarnation gets, which
 bytes its peer was sent and which were submitted for it.
 */
module ReactorFlow {
  import opened Bytes
  import opened SendBuffer
  import opened Reactor

  // ---------------------------------------------------------------- reading recv()'s answers

  predicate EndsReading(a: Received) {
    a.EndOfStream? || a.Drained? || a.Broken?
  }

  /** The events that recv()'s answers call for, up to the first that ends the reading. */
  ghost function KindsRead(answers: seq<Received>): seq<Kind> {
    if answers == [] then []
    else
      match answers[0]
      case Bytes(b) => [Data(b)] + KindsRead(answers[1..])
      case Retry => KindsRead(answers[1..])
      case EndOfStream => [Disconnected]
      case Broken => [Error, Disconnected]
      case Drained => []
  }

  /** The bytes that recv() returned before that. */
  ghost function BytesRead(answers: seq<Received>): seq<byte> {
    if answers == [] || EndsReading(answers[0]) then []
    else (if answers[0].Bytes? then answers[0].data else []) + BytesRead(answers[1..])
  }

  /** Did the reading end with the peer gone? */
  ghost predicate ReadsToEnd(answers: seq<Received>) {
    answers != [] && (if EndsReading(answers[0]) then !answers[0].Drained? else ReadsToEnd(answers[1..]))
  }

  /** The payloads of a connection's Data events, joined. */
  ghost function Payload(kinds: seq<Kind>): seq<byte> {
    if kinds == [] then [] else (if kinds[0].Data? then kinds[0].bytes else []) + Payload(kinds[1..])
  }

  // ---------------------------------------------------------------- what a step does, seen from outside

  /** The live connection on a descriptor. */
  ghost predicate LiveOn(s: State, fd: nat) {
    fd in s.fdToId && s.fdToId[fd] in s.connections
  }

  /** A payload for a live connection that the step hands to it. */
  ghost predicate Submits(s: State, step: Step) {
    step.Send? && step.id in s.connections && step.data != []
  }

  /** Nothing is buffered, so the payload goes to the socket at once. */
  ghost predicate SendsAtOnce(s: State, step: Step)
    requires Submits(s, step)
  {
    s.connections[step.id].sendBuffer == []
  }

  /** How much of a submission the socket takes at once. */
  ghost function TakenAtOnce(s: State, step: Step): nat
    requires Submits(s, step)
  {
    if SendsAtOnce(s, step) && step.answer.Accepted? then step.answer.n else 0
  }

  /** The socket fails, or what it leaves does not fit the buffer. */
  ghost predicate SendFails(s: State, step: Step)
    requires Submits(s, step)
  {
    || (SendsAtOnce(s, step) && step.answer.Failed?)
    || |s.connections[step.id].sendBuffer| + |step.data| - TakenAtOnce(s, step) > MAX_CAPACITY
  }

  ghost predicate WriteFails(s: State, step: Step) {
    step.Writable? && LiveOn(s, step.fd) && s.connections[s.fdToId[step.fd]].sendBuffer != [] && step.answer.Failed?
  }

  /** The connections that a step ends. */
  ghost predicate Ends(s: State, step: Step, id: nat) {
    match step
    case Remove(x) => id == x
    case Send(x, _, _) => id == x && Submits(s, step) && SendFails(s, step)
    case Readable(fd, answers) => LiveOn(s, fd) && id == s.fdToId[fd] && ReadsToEnd(answers)
    case Writable(fd, _) => WriteFails(s, step) && id == s.fdToId[fd]
    case PeerClosed(fd) => LiveOn(s, fd) && id == s.fdToId[fd]
    case PeerFailed(fd) => LiveOn(s, fd) && id == s.fdToId[fd]
    case TimedOut(ids) => id in ids
    case Cleanup => true
    case _ => false
  }

  /** The events a step brings to a live connection. */
  ghost function KindsIn(s: State, step: Step, id: nat): seq<Kind> {
    match step
    case Send(_, _, _) => if Ends(s, step, id) then [Error, Disconnected] else []
    case Readable(fd, answers) => if LiveOn(s, fd) && id == s.fdToId[fd] then KindsRead(answers) else []
    case Writable(_, _) => if Ends(s, step, id) then [Error, Disconnected] else []
    case PeerClosed(_) => if Ends(s, step, id) then [Disconnected] else []
    case PeerFailed(_) => if Ends(s, step, id) then [Error, Disconnected] else []
    case TimedOut(_) => if Ends(s, step, id) then [Disconnected] else []
    case _ => []
  }

  /** The bytes that the socket of a live connection takes in a step. */
  ghost function Taken(s: State, step: Step, id: nat): seq<byte>
    requires Enabled(s, step) && id in s.connections
  {
    var b := s.connections[id].sendBuffer;
    if step.Send? && step.id == id && step.answer.Accepted? && b == [] then step.data[..step.answer.n]
    else if step.Writable? && LiveOn(s, step.fd) && s.fdToId[step.fd] == id && step.answer.Accepted? && b != [] then b[..step.answer.n]
    else []
  }

  /** The payload submitted for a live connection in a step. */
  ghost function Submitted(step: Step, id: nat): seq<byte> {
    if step.Send? && step.id == id then step.data else []
  }

  /** A step's effect on one live connection. */
  ghost predicate Effect(s: State, s': State, id: nat, ends: bool, kinds: seq<Kind>, w: seq<byte>, d: seq<byte>)
    requires id in s.connections
  {
    var c := s.connections[id];
    && (id in s'.connections <==> !ends)
    && (!ends ==> Carries(c, s'.connections[id], w, d))
    && KindsOf(s'.dispatched, c.life) == KindsOf(s.dispatched, c.life) + kinds
    && c.life in s.logs && c.life in s'.logs && Grows(s.logs[c.life], s'.logs[c.life], w, d)
  }

  /** The buffer has gained what was submitted and lost what was taken; reading pauses and resumes at the marks only. */
  ghost predicate Carries(c: Conn, c': Conn, w: seq<byte>, d: seq<byte>) {
    && c'.fd == c.fd && c'.life == c.life
    && |w| <= |c.sendBuffer + d| && c'.sendBuffer == (c.sendBuffer + d)[|w|..]
    && (!c.readPaused && c'.readPaused ==> |c'.sendBuffer| >= HIGH_WATER_MARK)
    && (c.readPaused && !c'.readPaused ==> |c'.sendBuffer| < LOW_WATER_MARK)
  }

  ghost predicate Grows(log: Log, log': Log, w: seq<byte>, d: seq<byte>) {
    log'.id == log.id && log'.wire == log.wire + w && log'.submitted == log.submitted + d
  }

  // ---------------------------------------------------------------- the parts of steps

  lemma KindsPlus(events: seq<Event>, e: Event, life: nat)
    ensures KindsOf(events + [e], life) == if e.life == life then KindsOf(events, life) + [e.kind] else KindsOf(events, life)
  {
    assert (events + [e])[..|events|] == events;
  }

  lemma NoEffect(s: State, s': State, id: nat)
    requires id in s.connections && s.connections[id].life in s.logs && s'.dispatched == s.dispatched
    requires id in s'.connections && s'.connections[id] == s.connections[id]
    requires s.connections[id].life in s'.logs && s'.logs[s.connections[id].life] == s.logs[s.connections[id].life]
    ensures Effect(s, s', id, false, [], [], [])
  {
    var c := s.connections[id];
    assert (c.sendBuffer + [])[0..] == c.sendBuffer;
    assert s.logs[c.life].wire + [] == s.logs[c.life].wire && s.logs[c.life].submitted + [] == s.logs[c.life].submitted;
    assert KindsOf(s.dispatched, c.life) + [] == KindsOf(s.dispatched, c.life);
  }

  /** Two live connections, each with its log. */
  ghost predicate Beside(s: State, x: nat, id: nat) {
    && x in s.connections && id in s.connections && x != id
    && LifeOk(s.connections, s.logs, x) && LifeOk(s.connections, s.logs, id)
  }

  lemma TouchOwn(s: State, id: nat, c': Conn, w: seq<byte>, d: seq<byte>)
    requires id in s.connections && s.connections[id].life in s.logs && Carries(s.connections[id], c', w, d)
    ensures Effect(s, Touch(s, id, c', w, d), id, false, [], w, d)
  {
    var c := s.connections[id];
    assert KindsOf(s.dispatched, c.life) + [] == KindsOf(s.dispatched, c.life);
  }

  lemma TouchOther(s: State, x: nat, c': Conn, w: seq<byte>, d: seq<byte>, id: nat)
    requires Beside(s, x, id)
    ensures Effect(s, Touch(s, x, c', w, d), id, false, [], [], [])
  {
    OtherLife(s.connections, s.logs, x, id);
    NoEffect(s, Touch(s, x, c', w, d), id);
  }

  lemma FailOwn(s: State, id: nat, w: seq<byte>, d: seq<byte>)
    requires id in s.connections && s.connections[id].life in s.logs
    ensures Effect(s, Fail(s, id, w, d), id, true, [Error, Disconnected], w, d)
  {
    var life := s.connections[id].life;
    FailIs(s, id, w, d);
    KindsPlus(s.dispatched, Event(id, Error, life), life);
    KindsPlus(s.dispatched + [Event(id, Error, life)], Event(id, Disconnected, life), life);
    assert (KindsOf(s.dispatched, life) + [Error]) + [Disconnected] == KindsOf(s.dispatched, life) + [Error, Disconnected];
  }

  lemma FailOther(s: State, x: nat, w: seq<byte>, d: seq<byte>, id: nat)
    requires Beside(s, x, id)
    ensures Effect(s, Fail(s, x, w, d), id, false, [], [], [])
  {
    var life := s.connections[x].life;
    OtherLife(s.connections, s.logs, x, id);
    FailIs(s, x, w, d);
    KindsPlus(s.dispatched, Event(x, Error, life), s.connections[id].life);
    KindsPlus(s.dispatched + [Event(x, Error, life)], Event(x, Disconnected, life), s.connections[id].life);
    NoEffect(s, Fail(s, x, w, d).(dispatched := s.dispatched), id);
  }

  lemma CloseOwn(s: State, id: nat)
    requires id in s.connections && s.connections[id].life in s.logs
    ensures Effect(s, Close(s, id), id, true, [Disconnected], [], [])
  {
    var c := s.connections[id];
    KindsPlus(s.dispatched, Event(id, Disconnected, c.life), c.life);
    assert s.logs[c.life].wire + [] == s.logs[c.life].wire && s.logs[c.life].submitted + [] == s.logs[c.life].submitted;
  }

  lemma CloseOther(s: State, x: nat, id: nat)
    requires Beside(s, x, id)
    ensures Effect(s, Close(s, x), id, false, [], [], [])
  {
    OtherLife(s.connections, s.logs, x, id);
    KindsPlus(s.dispatched, Event(x, Disconnected, s.connections[x].life), s.connections[id].life);
    NoEffect(s, Close(s, x).(dispatched := s.dispatched), id);
  }

  // ---------------------------------------------------------------- sending

  lemma BufferOwn(s: State, id: nat, w: seq<byte>, d: seq<byte>, rest: seq<byte>)
    requires id in s.connections && s.connections[id].life in s.logs && d == w + rest && rest != []
    requires w == [] || s.connections[id].sendBuffer == []
    ensures var fails := |s.connections[id].sendBuffer| + |rest| > MAX_CAPACITY;
            Effect(s, BufferWrite(s, id, w, d, rest), id, fails, if fails then [Error, Disconnected] else [], w, d)
  {
    var c := s.connections[id];
    if Accepts(c.sendBuffer, rest) {
      var b := c.sendBuffer + rest;
      assert (c.sendBuffer + d)[|w|..] == b;
      TouchOwn(s, id, c.(sendBuffer := b, readPaused := c.readPaused || |b| >= HIGH_WATER_MARK, writePending := true), w, d);
    } else {
      FailOwn(s, id, w, d);
    }
  }

  lemma BufferOther(s: State, x: nat, w: seq<byte>, d: seq<byte>, rest: seq<byte>, id: nat)
    requires Beside(s, x, id)
    ensures Effect(s, BufferWrite(s, x, w, d, rest), id, false, [], [], [])
  {
    var c := s.connections[x];
    if Accepts(c.sendBuffer, rest) {
      var b := c.sendBuffer + rest;
      TouchOther(s, x, c.(sendBuffer := b, readPaused := c.readPaused || |b| >= HIGH_WATER_MARK, writePending := true), w, d, id);
    } else {
      FailOther(s, x, w, d, id);
    }
  }

  lemma SentAllOwn(s: State, id: nat, data: seq<byte>, total: nat)
    requires id in s.connections && s.connections[id].life in s.logs && s.connections[id].sendBuffer == []
    ensures Effect(s, Touch(s, id, s.connections[id], data, data).(bytesSent := total), id, false, [], data, data)
  {
    assert ([] + data)[|data|..] == [];
    TouchOwn(s, id, s.connections[id], data, data);
  }

  lemma DirectOwn(s: State, id: nat, data: seq<byte>, answer: Answer)
    requires id in s.connections && s.connections[id].life in s.logs && s.connections[id].sendBuffer == []
    requires data != [] && Possible(answer, |data|)
    ensures var w := if answer.Accepted? then data[..answer.n] else [];
            var fails := answer.Failed? || |data| - |w| > MAX_CAPACITY;
            Effect(s, SendDirect(s, id, data, answer), id, fails, if fails then [Error, Disconnected] else [], w, data)
  {
    match answer
    case Accepted(n) =>
      if n == |data| {
        assert data[..n] == data;
        SentAllOwn(s, id, data, s.bytesSent + n);
      } else {
        assert data == data[..n] + data[n..];
        BufferOwn(s, id, data[..n], data, data[n..]);
      }
    case Failed => FailOwn(s, id, [], data);
    case _ =>
      assert data == [] + data;
      BufferOwn(s, id, [], data, data);
  }

  lemma DirectOther(s: State, x: nat, data: seq<byte>, answer: Answer, id: nat)
    requires Beside(s, x, id) && Possible(answer, |data|)
    ensures Effect(s, SendDirect(s, x, data, answer), id, false, [], [], [])
  {
    match answer
    case Accepted(n) =>
      if n == |data| { TouchOther(s, x, s.connections[x], data, data, id); } else { BufferOther(s, x, data[..n], data, data[n..], id); }
    case Failed => FailOther(s, x, [], data, id);
    case _ => BufferOther(s, x, [], data, data, id);
  }

  // ---------------------------------------------------------------- writing from the buffer

  lemma DrainOwn(s: State, id: nat, n: nat, total: nat)
    requires id in s.connections && s.connections[id].life in s.logs && n <= |s.connections[id].sendBuffer|
    ensures var c := s.connections[id];
            Effect(s, Touch(s, id, Drained1(c, n), c.sendBuffer[..n], []).(bytesSent := total), id, false, [], c.sendBuffer[..n], [])
  {
    var c := s.connections[id];
    assert (c.sendBuffer + [])[n..] == c.sendBuffer[n..];
    TouchOwn(s, id, Drained1(c, n), c.sendBuffer[..n], []);
  }

  lemma DrainNothingOwn(s: State, id: nat)
    requires id in s.connections && s.connections[id].life in s.logs
    ensures Effect(s, Touch(s, id, Drained1(s.connections[id], 0), [], []), id, false, [], [], [])
  {
    assert s.connections[id].sendBuffer[..0] == [];
    DrainOwn(s, id, 0, s.bytesSent);
  }

  lemma WriteOwn(s: State, id: nat, answer: Answer)
    requires id in s.connections && s.connections[id].life in s.logs && Possible(answer, |s.connections[id].sendBuffer|)
    ensures var w := if answer.Accepted? then s.connections[id].sendBuffer[..answer.n] else [];
            Effect(s, SentFrom(s, id, answer), id, answer.Failed?, if answer.Failed? then [Error, Disconnected] else [], w, [])
  {
    match answer
    case Accepted(n) => DrainOwn(s, id, n, s.bytesSent + n);
    case Failed => FailOwn(s, id, [], []);
    case _ => DrainNothingOwn(s, id);
  }

  lemma WriteOther(s: State, x: nat, answer: Answer, id: nat)
    requires Beside(s, x, id) && Possible(answer, |s.connections[x].sendBuffer|)
    ensures Effect(s, SentFrom(s, x, answer), id, false, [], [], [])
  {
    var c := s.connections[x];
    match answer
    case Accepted(n) => TouchOther(s, x, Drained1(c, n), c.sendBuffer[..n], [], id);
    case Failed => FailOther(s, x, [], [], id);
    case _ => TouchOther(s, x, Drained1(c, 0), [], [], id);
  }

  // ---------------------------------------------------------------- reading

  lemma ReadSomeFirst(s: State, id: nat, b: seq<byte>, s': State, ends: bool, kinds: seq<Kind>)
    requires id in s.connections && s.connections[id].life in s.logs && Effect(ReadSome(s, id, b), s', id, ends, kinds, [], [])
    ensures Effect(s, s', id, ends, [Data(b)] + kinds, [], [])
  {
    var life := s.connections[id].life;
    KindsPlus(s.dispatched, Event(id, Data(b), life), life);
    assert (KindsOf(s.dispatched, life) + [Data(b)]) + kinds == KindsOf(s.dispatched, life) + ([Data(b)] + kinds);
  }

  lemma {:induction false} ReadOwn(s: State, id: nat, answers: seq<Received>)
    requires id in s.connections && s.connections[id].life in s.logs
    ensures Effect(s, ReadLoop(s, id, answers), id, ReadsToEnd(answers), KindsRead(answers), [], [])
    ensures ReadLoop(s, id, answers).bytesReceived == s.bytesReceived + |BytesRead(answers)|
    decreases |answers|
  {
    if answers == [] {
      NoEffect(s, s, id);
    } else {
      match answers[0]
      case Bytes(b) =>
        ReadOwn(ReadSome(s, id, b), id, answers[1..]);
        ReadSomeFirst(s, id, b, ReadLoop(s, id, answers), ReadsToEnd(answers[1..]), KindsRead(answers[1..]));
      case Retry => ReadOwn(s, id, answers[1..]);
      case EndOfStream => CloseOwn(s, id);
      case Broken => FailOwn(s, id, [], []);
      case Drained => NoEffect(s, s, id);
    }
  }

  lemma ReadSomeOther(s: State, x: nat, b: seq<byte>, id: nat, s': State)
    requires Beside(s, x, id) && Effect(ReadSome(s, x, b), s', id, false, [], [], [])
    ensures Effect(s, s', id, false, [], [], [])
  {
    OtherLife(s.connections, s.logs, x, id);
    KindsPlus(s.dispatched, Event(x, Data(b), s.connections[x].life), s.connections[id].life);
  }

  lemma {:induction false} ReadOther(s: State, x: nat, answers: seq<Received>, id: nat)
    requires Beside(s, x, id)
    ensures Effect(s, ReadLoop(s, x, answers), id, false, [], [], [])
    decreases |answers|
  {
    if answers == [] {
      NoEffect(s, s, id);
    } else {
      match answers[0]
      case Bytes(b) =>
        ReadOther(ReadSome(s, x, b), x, answers[1..], id);
        ReadSomeOther(s, x, b, id, ReadLoop(s, x, answers));
      case Retry => ReadOther(s, x, answers[1..], id);
      case EndOfStream => CloseOther(s, x, id);
      case Broken => FailOther(s, x, [], [], id);
      case Drained => NoEffect(s, s, id);
    }
  }

  lemma PayloadOfFailure()
    ensures Payload([Error, Disconnected]) == []
  {
    assert [Error, Disconnected][1..] == [Disconnected];
    assert Payload([Disconnected]) == [];
  }

  /** The Data events carry what recv() returned. */
  lemma {:induction false} PayloadRead(answers: seq<Received>)
    ensures Payload(KindsRead(answers)) == BytesRead(answers)
  {
    if answers != [] {
      PayloadRead(answers[1..]);
      if answers[0].Bytes? { assert KindsRead(answers)[1..] == KindsRead(answers[1..]); }
      if answers[0].EndOfStream? { assert KindsRead(answers)[1..] == []; }
      if answers[0].Broken? { PayloadOfFailure(); }
    }
  }

  // ---------------------------------------------------------------- timeouts

  /** No live connection has this life. */
  ghost predicate NotLive(s: State, life: nat) {
    forall k :: k in s.connections ==> s.connections[k].life != life
  }

  /** A close of another connection first makes no difference. */
  lemma CloseOtherFirst(s: State, x: nat, id: nat, s': State, ends: bool, kinds: seq<Kind>)
    requires Beside(s, x, id) && Effect(Close(s, x), s', id, ends, kinds, [], [])
    ensures Effect(s, s', id, ends, kinds, [], [])
  {
    OtherLife(s.connections, s.logs, x, id);
    KindsPlus(s.dispatched, Event(x, Disconnected, s.connections[x].life), s.connections[id].life);
  }

  /** A life that has ended stays as it ended. */
  lemma {:induction false} GoneStays(s: State, ids: seq<nat>, life: nat)
    requires NotLive(s, life)
    ensures var s' := CloseAll(s, ids);
            KindsOf(s'.dispatched, life) == KindsOf(s.dispatched, life) && s'.logs == s.logs && s'.connections.Keys <= s.connections.Keys
    decreases |ids|
  {
    if ids != [] {
      var mid := if ids[0] in s.connections then Close(s, ids[0]) else s;
      if ids[0] in s.connections { KindsPlus(s.dispatched, Event(ids[0], Disconnected, s.connections[ids[0]].life), life); }
      GoneStays(mid, ids[1..], life);
    }
  }

  lemma {:induction false} TimeoutOwn(s: State, ids: seq<nat>, id: nat)
    requires id in s.connections && Lives(s.connections, s.logs)
    ensures Effect(s, CloseAll(s, ids), id, id in ids, if id in ids then [Disconnected] else [], [], [])
    decreases |ids|
  {
    assert LifeOk(s.connections, s.logs, id);
    if ids == [] {
      NoEffect(s, s, id);
    } else if ids[0] == id {
      CloseOwn(s, id);
      forall k | k in s.connections && k != id ensures s.connections[k].life != s.connections[id].life {
        assert LifeOk(s.connections, s.logs, k);
        OtherLife(s.connections, s.logs, id, k);
      }
      GoneStays(Close(s, id), ids[1..], s.connections[id].life);
    } else if ids[0] in s.connections {
      assert LifeOk(s.connections, s.logs, ids[0]);
      DroppedLives(s.connections, s.logs, ids[0], [], []);
      TimeoutOwn(Close(s, ids[0]), ids[1..], id);
      CloseOtherFirst(s, ids[0], id, CloseAll(s, ids), id in ids[1..], if id in ids[1..] then [Disconnected] else []);
    } else {
      TimeoutOwn(s, ids[1..], id);
    }
  }

  // ---------------------------------------------------------------- every step

  lemma SendShowsOwn(s: State, data: seq<byte>, answer: Answer, id: nat)
    requires Possible(answer, |data|) && id in s.connections && LifeOk(s.connections, s.logs, id) && data != []
    ensures var step := Step.Send(id, data, answer);
            Effect(s, DoSend(s, id, data, answer), id, Ends(s, step, id), KindsIn(s, step, id), Taken(s, step, id), Submitted(step, id))
  {
    if s.connections[id].sendBuffer == [] { DirectOwn(s, id, data, answer); } else { SendBuffered(s, data, answer, id); }
  }

  lemma SendBuffered(s: State, data: seq<byte>, answer: Answer, id: nat)
    requires Possible(answer, |data|) && id in s.connections && LifeOk(s.connections, s.logs, id) && data != []
    requires s.connections[id].sendBuffer != []
    ensures var step := Step.Send(id, data, answer);
            Effect(s, DoSend(s, id, data, answer), id, Ends(s, step, id), KindsIn(s, step, id), [], data)
  {
    var none: seq<byte> := [];
    assert data == none + data;
    BufferOwn(s, id, none, data, data);
  }

  lemma SendShowsOther(s: State, x: nat, data: seq<byte>, answer: Answer, id: nat)
    requires Possible(answer, |data|) && id in s.connections && x in s.connections && x != id && data != []
    requires LifeOk(s.connections, s.logs, id) && LifeOk(s.connections, s.logs, x)
    ensures Effect(s, DoSend(s, x, data, answer), id, false, [], [], [])
  {
    if s.connections[x].sendBuffer == [] { DirectOther(s, x, data, answer, id); } else { BufferOther(s, x, [], data, data, id); }
  }

  lemma SendShows(s: State, x: nat, data: seq<byte>, answer: Answer, id: nat)
    requires Lives(s.connections, s.logs) && Possible(answer, |data|) && id in s.connections
    ensures var step := Step.Send(x, data, answer);
            Effect(s, DoSend(s, x, data, answer), id, Ends(s, step, id), KindsIn(s, step, id), Taken(s, step, id), Submitted(step, id))
  {
    assert LifeOk(s.connections, s.logs, id);
    if x !in s.connections || data == [] {
      NoEffect(s, s, id);
    } else if x == id {
      SendShowsOwn(s, data, answer, id);
    } else {
      assert LifeOk(s.connections, s.logs, x);
      SendShowsOther(s, x, data, answer, id);
    }
  }

  lemma WritableShows(s: State, fd: nat, answer: Answer, id: nat)
    requires Lives(s.connections, s.logs) && PossibleWrite(s, fd, answer) && id in s.connections
    ensures var step := Writable(fd, answer);
            Effect(s, OnWritable(s, fd, answer), id, Ends(s, step, id), KindsIn(s, step, id), Taken(s, step, id), Submitted(step, id))
  {
    assert LifeOk(s.connections, s.logs, id);
    if !LiveOn(s, fd) {
      NoEffect(s, s, id);
    } else {
      var x := s.fdToId[fd];
      assert LifeOk(s.connections, s.logs, x);
      if x == id {
        if s.connections[id].sendBuffer == [] { DrainNothingOwn(s, id); } else { WriteOwn(s, id, answer); }
      } else if s.connections[x].sendBuffer == [] {
        TouchOther(s, x, Drained1(s.connections[x], 0), [], [], id);
      } else {
        WriteOther(s, x, answer, id);
      }
    }
  }

  lemma ReadableShows(s: State, fd: nat, answers: seq<Received>, id: nat)
    requires Lives(s.connections, s.logs) && id in s.connections
    ensures var step := Readable(fd, answers);
            Effect(s, Next(s, step), id, Ends(s, step, id), KindsIn(s, step, id), [], [])
  {
    assert LifeOk(s.connections, s.logs, id);
    if !LiveOn(s, fd) {
      NoEffect(s, s, id);
    } else if s.fdToId[fd] == id {
      ReadOwn(s, id, answers);
    } else {
      assert LifeOk(s.connections, s.logs, s.fdToId[fd]);
      ReadOther(s, s.fdToId[fd], answers, id);
    }
  }

  lemma PeerShows(s: State, fd: nat, step: Step, id: nat)
    requires Lives(s.connections, s.logs) && id in s.connections && (step == PeerClosed(fd) || step == PeerFailed(fd))
    ensures Effect(s, Next(s, step), id, Ends(s, step, id), KindsIn(s, step, id), [], [])
  {
    assert LifeOk(s.connections, s.logs, id);
    if !LiveOn(s, fd) {
      NoEffect(s, s, id);
    } else {
      var x := s.fdToId[fd];
      assert LifeOk(s.connections, s.logs, x);
      if step.PeerClosed? {
        if x == id { CloseOwn(s, id); } else { CloseOther(s, x, id); }
      } else {
        if x == id { FailOwn(s, id, [], []); } else { FailOther(s, x, [], [], id); }
      }
    }
  }

  lemma RemovedQuietly(s: State, s': State, id: nat)
    requires id in s.connections && s.connections[id].life in s.logs && id !in s'.connections
    requires s'.dispatched == s.dispatched && s'.logs == s.logs
    ensures Effect(s, s', id, true, [], [], [])
  {
    var c := s.connections[id];
    assert s.logs[c.life].wire + [] == s.logs[c.life].wire && s.logs[c.life].submitted + [] == s.logs[c.life].submitted;
    assert KindsOf(s.dispatched, c.life) + [] == KindsOf(s.dispatched, c.life);
  }

  lemma AddShows(s: State, fd: nat, date: nat, monitored: bool, id: nat)
    requires Lives(s.connections, s.logs) && Books(s.logs, s.births) && id in s.connections
    ensures Effect(s, DoAdd(s, fd, date, monitored), id, false, [], [], [])
  {
    assert LifeOk(s.connections, s.logs, id);
    var s' := DoAdd(s, fd, date, monitored);
    if s'.births == s.births {
      NoEffect(s, s', id);
    } else {
      var e := s'.dispatched[|s.dispatched|];
      assert s'.dispatched == s.dispatched + [e];
      KindsPlus(s.dispatched, e, s.connections[id].life);
      NoEffect(s, s'.(dispatched := s.dispatched), id);
    }
  }

  /** What every step does to every live connection is what the sockets' answers call for. */
  lemma StepShows(s: State, step: Step, id: nat)
    requires Inv(s) && Enabled(s, step) && id in s.connections
    ensures Effect(s, Next(s, step), id, Ends(s, step, id), KindsIn(s, step, id), Taken(s, step, id), Submitted(step, id))
  {
    assert LifeOk(s.connections, s.logs, id);
    match step
    case Add(fd, date, monitored) => AddShows(s, fd, date, monitored, id);
    case Remove(x) => if x == id { RemovedQuietly(s, Next(s, step), id); } else { NoEffect(s, Next(s, step), id); }
    case Send(x, data, answer) => SendShows(s, x, data, answer, id);
    case Readable(fd, answers) => ReadableShows(s, fd, answers, id);
    case Writable(fd, answer) => WritableShows(s, fd, answer, id);
    case PeerClosed(fd) => PeerShows(s, fd, step, id);
    case PeerFailed(fd) => PeerShows(s, fd, step, id);
    case TimedOut(ids) => TimeoutOwn(s, ids, id);
    case Stop => NoEffect(s, Next(s, step), id);
    case Cleanup => RemovedQuietly(s, Next(s, step), id);
  }

  // ---------------------------------------------------------------- lives that have ended or not begun

  /** A step that leaves a life's events and log alone. */
  ghost predicate LeavesAlone(s: State, s': State, life: nat) {
    KindsOf(s'.dispatched, life) == KindsOf(s.dispatched, life) &&
    (life in s'.logs <==> life in s.logs) && (life in s.logs ==> s'.logs[life] == s.logs[life])
  }

  lemma {:induction false} ReadLeavesAlone(s: State, id: nat, answers: seq<Received>, life: nat)
    requires id in s.connections && s.connections[id].life != life
    ensures LeavesAlone(s, ReadLoop(s, id, answers), life)
    decreases |answers|
  {
    if answers != [] {
      var l := s.connections[id].life;
      match answers[0]
      case Bytes(b) =>
        KindsPlus(s.dispatched, Event(id, Data(b), l), life);
        ReadLeavesAlone(ReadSome(s, id, b), id, answers[1..], life);
      case Retry => ReadLeavesAlone(s, id, answers[1..], life);
      case EndOfStream => KindsPlus(s.dispatched, Event(id, Disconnected, l), life);
      case Broken => FailLeavesAlone(s, id, [], [], life);
      case Drained =>
    }
  }

  lemma FailLeavesAlone(s: State, id: nat, w: seq<byte>, d: seq<byte>, life: nat)
    requires id in s.connections && s.connections[id].life != life
    ensures LeavesAlone(s, Fail(s, id, w, d), life)
  {
    var l := s.connections[id].life;
    FailIs(s, id, w, d);
    KindsPlus(s.dispatched, Event(id, Error, l), life);
    KindsPlus(s.dispatched + [Event(id, Error, l)], Event(id, Disconnected, l), life);
  }

  lemma BufferLeavesAlone(s: State, id: nat, w: seq<byte>, d: seq<byte>, rest: seq<byte>, life: nat)
    requires id in s.connections && s.connections[id].life != life
    ensures LeavesAlone(s, BufferWrite(s, id, w, d, rest), life)
  {
    if !Accepts(s.connections[id].sendBuffer, rest) { FailLeavesAlone(s, id, w, d, life); }
  }

  lemma SendLeavesAlone(s: State, id: nat, data: seq<byte>, answer: Answer, life: nat)
    requires NotLive(s, life) && Possible(answer, |data|)
    ensures LeavesAlone(s, DoSend(s, id, data, answer), life)
  {
    if id in s.connections && data != [] {
      if s.connections[id].sendBuffer != [] || answer.WouldBlock? || answer.Interrupted? || answer.NothingSent? {
        BufferLeavesAlone(s, id, [], data, data, life);
      } else if answer.Failed? {
        FailLeavesAlone(s, id, [], data, life);
      } else if answer.n < |data| {
        BufferLeavesAlone(s, id, data[..answer.n], data, data[answer.n..], life);
      }
    }
  }

  lemma WritableLeavesAlone(s: State, fd: nat, answer: Answer, life: nat)
    requires NotLive(s, life) && PossibleWrite(s, fd, answer)
    ensures LeavesAlone(s, OnWritable(s, fd, answer), life)
  {
    if LiveOn(s, fd) && answer.Failed? { FailLeavesAlone(s, s.fdToId[fd], [], [], life); }
  }

  lemma TimeoutLeavesAlone(s: State, ids: seq<nat>, life: nat)
    requires NotLive(s, life)
    ensures LeavesAlone(s, CloseAll(s, ids), life)
  {
    GoneStays(s, ids, life);
  }

  lemma PeerLeavesAlone(s: State, fd: nat, step: Step, life: nat)
    requires NotLive(s, life) && (step == PeerClosed(fd) || step == PeerFailed(fd))
    ensures LeavesAlone(s, Next(s, step), life)
  {
    if LiveOn(s, fd) {
      var id := s.fdToId[fd];
      if step.PeerClosed? { KindsPlus(s.dispatched, Event(id, Disconnected, s.connections[id].life), life); }
      else { FailLeavesAlone(s, id, [], [], life); }
    }
  }

  lemma DeadLeftAlone(s: State, step: Step, life: nat)
    requires Enabled(s, step) && NotLive(s, life) && !step.Add?
    ensures LeavesAlone(s, Next(s, step), life)
  {
    match step
    case Send(x, data, answer) => SendLeavesAlone(s, x, data, answer, life);
    case Readable(fd, answers) => if LiveOn(s, fd) { ReadLeavesAlone(s, s.fdToId[fd], answers, life); }
    case Writable(fd, answer) => WritableLeavesAlone(s, fd, answer, life);
    case PeerClosed(fd) => PeerLeavesAlone(s, fd, step, life);
    case PeerFailed(fd) => PeerLeavesAlone(s, fd, step, life);
    case TimedOut(ids) => TimeoutLeavesAlone(s, ids, life);
    case _ =>
  }

  // ---------------------------------------------------------------- a life over a run

  /** Does the step bring a new connection? */
  ghost predicate Births(s: State, step: Step) {
    step.Add? && step.monitored && s.running
  }

  lemma BirthTells(s: State, step: Step, life: nat)
    requires Inv(s) && Enabled(s, step) && step.Add? && NotLive(s, life)
    ensures var s' := Next(s, step);
            if Births(s, step) && life == s.births then
              life !in s.logs && KindsOf(s'.dispatched, life) == KindsOf(s.dispatched, life) + [Connected]
              && life in s'.logs && s'.logs[life].wire == s'.logs[life].submitted == []
            else LeavesAlone(s, s', life)
  {
    assert Books(s.logs, s.births);
    if Births(s, step) {
      var id := BornAs(s, step.fd, step.date);
      KindsPlus(s.dispatched, Event(id, Connected, s.births), life);
    } else {
      NotBorn(s, step.fd, step.date, step.monitored);
    }
  }

  /** A new connection: both tables, its event, an empty log; nothing else changes in them. */
  lemma BornAs(s: State, fd: nat, date: nat) returns (id: nat)
    requires Inv(s) && s.running && fd !in s.fdToId && fd < 0x1_0000
    ensures var s' := DoAdd(s, fd, date, true);
            && id !in s.connections && s'.connections == s.connections[id := Conn(fd, [], false, false, s.births)]
            && s'.fdToId == s.fdToId[fd := id] && s'.dispatched == s.dispatched + [Event(id, Connected, s.births)]
            && s'.logs == s.logs[s.births := Log(id, [], [])] && s'.births == s.births + 1
            && id == ConnectionId.Generate(date, s.reactorId, fd, NextSequence(s.connectionSeq).0)
            && s'.connectionSeq == NextSequence(s.connectionSeq).1
            && s'.totalConnections == s.totalConnections + 1 && s'.active == s.active + 1
  {
    id := ConnectionId.Generate(date, s.reactorId, fd, NextSequence(s.connectionSeq).0);
    assert id !in s.connections by { NoCollision(s, fd, date, NextSequence(s.connectionSeq).0); }
  }

  lemma NotBorn(s: State, fd: nat, date: nat, monitored: bool)
    requires !s.running || !monitored
    ensures var s' := DoAdd(s, fd, date, monitored);
            s'.connections == s.connections && s'.fdToId == s.fdToId && s'.dispatched == s.dispatched && s'.logs == s.logs && s'.births == s.births
  {
  }

  // ---------------------------------------------------------------- sequence numbers

  /** The sequence number of the j-th connection from now on. */
  ghost function SequenceAt(counter: nat, j: nat): nat
    decreases j
  {
    if j == 0 then NextSequence(counter).0 else SequenceAt(NextSequence(counter).1, j - 1)
  }

  /** Sequence numbers run from 1 to 65535 and start over. */
  lemma {:induction false} SequenceRuns(counter: nat, j: nat)
    ensures 1 <= SequenceAt(counter, j) <= 0xFFFF
    ensures SequenceAt(counter, j) == (NextSequence(counter).0 - 1 + j) % 0xFFFF + 1
    decreases j
  {
    SequenceFirst(counter);
    var q, next := NextSequence(counter).0, NextSequence(counter).1;
    if j == 0 {
      assert (q - 1) % 0xFFFF == q - 1;
    } else {
      SequenceRuns(next, j - 1);
      Lap(q, NextSequence(next).0, j);
    }
  }

  lemma SequenceFirst(counter: nat)
    ensures var q, next := NextSequence(counter).0, NextSequence(counter).1;
            1 <= q <= 0xFFFF && NextSequence(next).0 == if q == 0xFFFF then 1 else q + 1
  {
  }

  lemma Lap(q: nat, q': nat, j: nat)
    requires 1 <= q <= 0xFFFF && j > 0 && q' == if q == 0xFFFF then 1 else q + 1
    ensures (q' - 1 + (j - 1)) % 0xFFFF == (q - 1 + j) % 0xFFFF
  {
    if q == 0xFFFF { Around(q - 1 + j, j - 1); }
  }

  lemma Around(a: nat, b: nat)
    requires a == b + 0xFFFF
    ensures a % 0xFFFF == b % 0xFFFF
  {
  }

  /** A descriptor used again within 65535 connections gets another id, even on the same day. */
  lemma ReusedFdGetsNewId(counter: nat, i: nat, j: nat, date: nat, reactorId: nat, fd: nat)
    requires i < j < i + 0xFFFF
    ensures ConnectionId.Generate(date, reactorId, fd, SequenceAt(counter, i)) != ConnectionId.Generate(date, reactorId, fd, SequenceAt(counter, j))
  {
    SequencesDiffer(counter, i, j);
    IdsDiffer(date, reactorId, fd, SequenceAt(counter, i), SequenceAt(counter, j));
  }

  lemma SequencesDiffer(counter: nat, i: nat, j: nat)
    requires i < j < i + 0xFFFF
    ensures SequenceAt(counter, i) != SequenceAt(counter, j) && SequenceAt(counter, i) <= 0xFFFF && SequenceAt(counter, j) <= 0xFFFF
  {
    SequenceRuns(counter, i);
    SequenceRuns(counter, j);
    Distinct65535(NextSequence(counter).0 - 1 + i, NextSequence(counter).0 - 1 + j);
  }

  lemma IdsDiffer(date: nat, reactorId: nat, fd: nat, q: nat, q': nat)
    requires q != q' && q <= 0xFFFF && q' <= 0xFFFF
    ensures ConnectionId.Generate(date, reactorId, fd, q) != ConnectionId.Generate(date, reactorId, fd, q')
  {
    var id, id' := ConnectionId.Generate(date, reactorId, fd, q), ConnectionId.Generate(date, reactorId, fd, q');
    assert ConnectionId.SequenceOf(id) == q by { ConnectionId.ParseGenerated(date, reactorId, fd, q); }
    assert ConnectionId.SequenceOf(id') == q' by { ConnectionId.ParseGenerated(date, reactorId, fd, q'); }
  }

  lemma Distinct65535(a: int, b: int)
    requires a < b < a + 0xFFFF
    ensures a % 0xFFFF != b % 0xFFFF
  {
  }

  /** The live connection of a life. */
  ghost predicate LiveAs(s: State, life: nat) {
    life in s.logs && s.logs[life].id in s.connections && s.connections[s.logs[life].id].life == life
  }

  lemma LiveOrNot(s: State, life: nat)
    requires Lives(s.connections, s.logs) && !LiveAs(s, life)
    ensures NotLive(s, life)
  {
    forall k | k in s.connections ensures s.connections[k].life != life { assert LifeOk(s.connections, s.logs, k); }
  }

  /** The events a step brings to a life. */
  ghost function Tells(s: State, step: Step, life: nat): seq<Kind> {
    if LiveAs(s, life) then KindsIn(s, step, s.logs[life].id)
    else if Births(s, step) && life == s.births then [Connected] else []
  }

  ghost function Takes(s: State, step: Step, life: nat): seq<byte>
    requires Enabled(s, step)
  {
    if LiveAs(s, life) then Taken(s, step, s.logs[life].id) else []
  }

  ghost function Offers(s: State, step: Step, life: nat): seq<byte> {
    if LiveAs(s, life) then Submitted(step, s.logs[life].id) else []
  }

  ghost function WireOf(s: State, life: nat): seq<byte> { if life in s.logs then s.logs[life].wire else [] }

  ghost function SubmittedOf(s: State, life: nat): seq<byte> { if life in s.logs then s.logs[life].submitted else [] }

  lemma StepTells(s: State, step: Step, life: nat)
    requires Inv(s) && Enabled(s, step)
    ensures var s' := Next(s, step);
            && KindsOf(s'.dispatched, life) == KindsOf(s.dispatched, life) + Tells(s, step, life)
            && WireOf(s', life) == WireOf(s, life) + Takes(s, step, life)
            && SubmittedOf(s', life) == SubmittedOf(s, life) + Offers(s, step, life)
  {
    if LiveAs(s, life) {
      StepShows(s, step, s.logs[life].id);
    } else {
      LiveOrNot(s, life);
      if step.Add? { BirthTells(s, step, life); } else { DeadLeftAlone(s, step, life); }
    }
  }

  ghost function ToldOver(s: State, steps: seq<Step>, life: nat): seq<Kind>
    requires Legal(s, steps)
    decreases |steps|
  {
    if steps == [] then [] else Tells(s, steps[0], life) + ToldOver(Next(s, steps[0]), steps[1..], life)
  }

  ghost function TakenOver(s: State, steps: seq<Step>, life: nat): seq<byte>
    requires Legal(s, steps)
    decreases |steps|
  {
    if steps == [] then [] else Takes(s, steps[0], life) + TakenOver(Next(s, steps[0]), steps[1..], life)
  }

  ghost function OfferedOver(s: State, steps: seq<Step>, life: nat): seq<byte>
    requires Legal(s, steps)
    decreases |steps|
  {
    if steps == [] then [] else Offers(s, steps[0], life) + OfferedOver(Next(s, steps[0]), steps[1..], life)
  }

  /** What recv() returned for a life in a step, and over a run. */
  ghost function Reads(s: State, step: Step, life: nat): seq<byte> {
    if step.Readable? && LiveOn(s, step.fd) && LiveAs(s, life) && s.fdToId[step.fd] == s.logs[life].id then BytesRead(step.answers) else []
  }

  ghost function ReadOver(s: State, steps: seq<Step>, life: nat): seq<byte>
    requires Legal(s, steps)
    decreases |steps|
  {
    if steps == [] then [] else Reads(s, steps[0], life) + ReadOver(Next(s, steps[0]), steps[1..], life)
  }

  lemma Joined<T>(a: seq<T>, b: seq<T>, c: seq<T>)
    ensures (a + b) + c == a + (b + c)
  {
  }

  lemma {:induction false} RunTells(s: State, steps: seq<Step>, life: nat)
    requires Inv(s) && Legal(s, steps)
    ensures var s' := Final(s, steps);
            && KindsOf(s'.dispatched, life) == KindsOf(s.dispatched, life) + ToldOver(s, steps, life)
            && WireOf(s', life) == WireOf(s, life) + TakenOver(s, steps, life)
            && SubmittedOf(s', life) == SubmittedOf(s, life) + OfferedOver(s, steps, life)
    decreases |steps|
  {
    if steps != [] {
      var mid := Next(s, steps[0]);
      StepInv(s, steps[0]);
      StepTells(s, steps[0], life);
      RunTells(mid, steps[1..], life);
      Joined(KindsOf(s.dispatched, life), Tells(s, steps[0], life), ToldOver(mid, steps[1..], life));
      Joined(WireOf(s, life), Takes(s, steps[0], life), TakenOver(mid, steps[1..], life));
      Joined(SubmittedOf(s, life), Offers(s, steps[0], life), OfferedOver(mid, steps[1..], life));
    }
  }

  lemma {:induction false} PayloadJoined(a: seq<Kind>, b: seq<Kind>)
    ensures Payload(a + b) == Payload(a) + Payload(b)
  {
    if a == [] {
      assert a + b == b;
    } else {
      assert (a + b)[1..] == a[1..] + b;
      PayloadJoined(a[1..], b);
    }
  }

  lemma QuietPayload()
    ensures Payload([]) == [] && Payload([Disconnected]) == [] && Payload([Connected]) == []
  {
  }

  lemma PayloadTold(s: State, step: Step, life: nat)
    ensures Payload(Tells(s, step, life)) == Reads(s, step, life)
  {
    QuietPayload();
    PayloadOfFailure();
    if step.Readable? { PayloadRead(step.answers); }
  }

  lemma {:induction false} PayloadOver(s: State, steps: seq<Step>, life: nat)
    requires Legal(s, steps)
    ensures Payload(ToldOver(s, steps, life)) == ReadOver(s, steps, life)
    decreases |steps|
  {
    if steps != [] {
      PayloadTold(s, steps[0], life);
      PayloadOver(Next(s, steps[0]), steps[1..], life);
      PayloadJoined(Tells(s, steps[0], life), ToldOver(Next(s, steps[0]), steps[1..], life));
    }
  }

  /** In every run a life's Data events, joined, are what recv() returned for it. */
  lemma DataIsReceived(reactorId: nat, steps: seq<Step>, life: nat)
    requires Legal(Init(reactorId), steps)
    ensures Payload(KindsOf(Final(Init(reactorId), steps).dispatched, life)) == ReadOver(Init(reactorId), steps, life)
  {
    var s := Init(reactorId);
    InitInv(reactorId);
    RunTells(s, steps, life);
    PayloadOver(s, steps, life);
    assert KindsOf(s.dispatched, life) + ToldOver(s, steps, life) == ToldOver(s, steps, life);
  }

  /** In every run a life's wire is what its socket's answers took, and its log what was submitted while it lived. */
  lemma WireIsTaken(reactorId: nat, steps: seq<Step>, life: nat)
    requires Legal(Init(reactorId), steps)
    ensures var s := Final(Init(reactorId), steps);
            && WireOf(s, life) == TakenOver(Init(reactorId), steps, life)
            && SubmittedOf(s, life) == OfferedOver(Init(reactorId), steps, life)
            && KindsOf(s.dispatched, life) == ToldOver(Init(reactorId), steps, life)
  {
    var s := Init(reactorId);
    InitInv(reactorId);
    RunTells(s, steps, life);
    assert [] + TakenOver(s, steps, life) == TakenOver(s, steps, life);
    assert [] + OfferedOver(s, steps, life) == OfferedOver(s, steps, life);
    assert KindsOf(s.dispatched, life) + ToldOver(s, steps, life) == ToldOver(s, steps, life);
  }

  // ---------------------------------------------------------------- counters and membership

  /** How many bytes recv() returned in a step. */
  ghost function ReceivedIn(s: State, step: Step): nat {
    if step.Readable? && LiveOn(s, step.fd) then |BytesRead(step.answers)| else 0
  }

  /** Nothing new, and n bytes received. */
  ghost predicate OnlyReceives(s: State, s': State, n: nat) {
    && s'.bytesReceived == s.bytesReceived + n && s'.totalConnections == s.totalConnections && s'.births == s.births
    && s'.connections.Keys <= s.connections.Keys
    && s'.running == s.running && s'.connectionSeq == s.connectionSeq && s'.reactorId == s.reactorId
  }

  lemma {:induction false} CloseAllCounts(s: State, ids: seq<nat>)
    ensures OnlyReceives(s, CloseAll(s, ids), 0)
    decreases |ids|
  {
    if ids != [] { CloseAllCounts(if ids[0] in s.connections then Close(s, ids[0]) else s, ids[1..]); }
  }

  lemma {:induction false} ReadCounts(s: State, id: nat, answers: seq<Received>)
    requires id in s.connections
    ensures OnlyReceives(s, ReadLoop(s, id, answers), |BytesRead(answers)|)
    decreases |answers|
  {
    if answers != [] {
      match answers[0]
      case Bytes(b) => ReadCounts(ReadSome(s, id, b), id, answers[1..]);
      case Retry => ReadCounts(s, id, answers[1..]);
      case _ =>
    }
  }

  lemma BufferCounts(s: State, id: nat, w: seq<byte>, d: seq<byte>, rest: seq<byte>)
    requires id in s.connections
    ensures OnlyReceives(s, BufferWrite(s, id, w, d, rest), 0) && OnlyReceives(s, Fail(s, id, w, d), 0)
  {
  }

  lemma SendCounts(s: State, id: nat, data: seq<byte>, answer: Answer)
    requires Possible(answer, |data|)
    ensures OnlyReceives(s, DoSend(s, id, data, answer), 0)
  {
    if id in s.connections && data != [] {
      BufferCounts(s, id, [], data, data);
      if answer.Accepted? { BufferCounts(s, id, data[..answer.n], data, data[answer.n..]); }
    }
  }

  /** Steps other than Add count the bytes received and bring no connection; only Stop clears the flag. */
  lemma OtherStepCounts(s: State, step: Step)
    requires Enabled(s, step) && !step.Add?
    ensures OnlyReceives(s.(running := s.running && !step.Stop?), Next(s, step), ReceivedIn(s, step))
  {
    match step
    case Send(id, data, answer) => SendCounts(s, id, data, answer);
    case Readable(fd, answers) => if LiveOn(s, fd) { ReadCounts(s, s.fdToId[fd], answers); }
    case TimedOut(ids) => CloseAllCounts(s, ids);
    case PeerFailed(fd) => if LiveOn(s, fd) { BufferCounts(s, s.fdToId[fd], [], [], []); }
    case Writable(fd, answer) => if LiveOn(s, fd) { BufferCounts(s, s.fdToId[fd], [], [], []); }
    case _ =>
  }

  /** Every step counts the bytes received and the connections added, and brings no connection but a new one. */
  lemma StepCounts(s: State, step: Step)
    requires Inv(s) && Enabled(s, step)
    ensures var s' := Next(s, step);
            && s'.bytesReceived == s.bytesReceived + ReceivedIn(s, step)
            && s'.totalConnections - s'.births == s.totalConnections - s.births
            && s'.births == s.births + (if Births(s, step) then 1 else 0)
            && s'.running == (s.running && !step.Stop?)
            && s'.connectionSeq == (if step.Add? && s.running then NextSequence(s.connectionSeq).1 else s.connectionSeq)
  {
    if !step.Add? {
      OtherStepCounts(s, step);
    } else if Births(s, step) {
      var id := BornAs(s, step.fd, step.date);
    }
  }

  ghost function ReceivedOver(s: State, steps: seq<Step>): nat
    requires Legal(s, steps)
    decreases |steps|
  {
    if steps == [] then 0 else ReceivedIn(s, steps[0]) + ReceivedOver(Next(s, steps[0]), steps[1..])
  }

  lemma {:induction false} RunCounts(s: State, steps: seq<Step>)
    requires Inv(s) && Legal(s, steps)
    ensures Final(s, steps).bytesReceived == s.bytesReceived + ReceivedOver(s, steps)
    ensures Final(s, steps).totalConnections - Final(s, steps).births == s.totalConnections - s.births
    decreases |steps|
  {
    if steps != [] {
      StepInv(s, steps[0]);
      StepCounts(s, steps[0]);
      RunCounts(Next(s, steps[0]), steps[1..]);
    }
  }
}
