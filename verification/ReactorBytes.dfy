/**
 The reactor's byte counter (src/darwincore/network/reactor.cpp): total_bytes_sent_ against the bytes that
 really went to the peers.  A direct send that the socket takes only in part is not counted.
 */
module ReactorBytes {
  import opened Bytes
  import opened SendBuffer
  import opened Reactor

  /** The bytes sent to the peers of the first n connections. */
  ghost function OnWires(logs: map<nat, Log>, n: nat): nat {
    if n == 0 then 0 else OnWires(logs, n - 1) + if n - 1 in logs then |logs[n - 1].wire| else 0
  }

  /** What the counter misses. */
  ghost function Uncounted(s: State): int {
    OnWires(s.logs, s.births) - s.bytesSent
  }

  /** The bytes of a direct send that the socket takes in part. */
  function PartOf(s: State, step: Step): nat {
    if step.Send? && step.id in s.connections && s.connections[step.id].sendBuffer == [] && IsPart(step.data, step.answer)
    then step.answer.n else 0
  }

  predicate IsPart(data: seq<byte>, answer: Answer) {
    answer.Accepted? && 0 < answer.n < |data|
  }

  // ---------------------------------------------------------------- totals

  lemma {:induction false} OnWiresAlike(logs: map<nat, Log>, logs': map<nat, Log>, n: nat)
    requires forall k: nat :: k < n ==> (k in logs <==> k in logs') && (k in logs ==> logs'[k].wire == logs[k].wire)
    ensures OnWires(logs', n) == OnWires(logs, n)
  {
    if n > 0 { OnWiresAlike(logs, logs', n - 1); }
  }

  lemma {:induction false} OnWiresGrow(logs: map<nat, Log>, logs': map<nat, Log>, n: nat, life: nat, w: seq<byte>)
    requires life in logs && life < n && logs'.Keys == logs.Keys && logs'[life].wire == logs[life].wire + w
    requires forall k: nat :: k in logs && k != life ==> logs'[k] == logs[k]
    ensures OnWires(logs', n) == OnWires(logs, n) + |w|
  {
    if n - 1 == life { OnWiresAlike(logs, logs', n - 1); } else { OnWiresGrow(logs, logs', n - 1, life, w); }
  }

  /** A live connection's log is among those counted. */
  ghost predicate InBooks(s: State, id: nat) {
    id in s.connections && s.connections[id].life in s.logs && s.connections[id].life < s.births
  }

  lemma LiveLogs(s: State, id: nat)
    requires Lives(s.connections, s.logs) && Books(s.logs, s.births) && id in s.connections
    ensures InBooks(s, id)
  {
    assert LifeOk(s.connections, s.logs, id);
  }

  lemma LoggedGrows(s: State, id: nat, w: seq<byte>, d: seq<byte>)
    requires InBooks(s, id)
    ensures OnWires(Logged(s, s.connections[id].life, w, d), s.births) == OnWires(s.logs, s.births) + |w|
  {
    var life := s.connections[id].life;
    OnWiresGrow(s.logs, Logged(s, life, w, d), s.births, life, w);
  }

  // ---------------------------------------------------------------- the steps

  lemma FailUncounted(s: State, id: nat, w: seq<byte>, d: seq<byte>)
    requires InBooks(s, id)
    ensures Uncounted(Fail(s, id, w, d)) == Uncounted(s) + |w|
  {
    LoggedGrows(s, id, w, d);
    assert Fail(s, id, w, d).logs == Logged(s, s.connections[id].life, w, d);
  }

  lemma BufferUncounted(s: State, id: nat, w: seq<byte>, d: seq<byte>, rest: seq<byte>)
    requires InBooks(s, id)
    ensures Uncounted(BufferWrite(s, id, w, d, rest)) == Uncounted(s) + |w|
  {
    if Accepts(s.connections[id].sendBuffer, rest) { LoggedGrows(s, id, w, d); } else { FailUncounted(s, id, w, d); }
  }

  lemma DirectUncounted(s: State, id: nat, data: seq<byte>, answer: Answer)
    requires InBooks(s, id) && Possible(answer, |data|)
    ensures Uncounted(SendDirect(s, id, data, answer)) == Uncounted(s) + if IsPart(data, answer) then answer.n else 0
  {
    match answer
    case Accepted(n) =>
      if n == |data| { LoggedGrows(s, id, data, data); } else { BufferUncounted(s, id, data[..n], data, data[n..]); }
    case Failed => FailUncounted(s, id, [], data);
    case _ => BufferUncounted(s, id, [], data, data);
  }

  lemma SendUncounted(s: State, id: nat, data: seq<byte>, answer: Answer)
    requires Lives(s.connections, s.logs) && Books(s.logs, s.births) && Possible(answer, |data|)
    ensures Uncounted(DoSend(s, id, data, answer)) == Uncounted(s) + PartOf(s, Step.Send(id, data, answer))
  {
    if id in s.connections && data != [] {
      LiveLogs(s, id);
      if s.connections[id].sendBuffer != [] { BufferUncounted(s, id, [], data, data); } else { DirectUncounted(s, id, data, answer); }
    }
  }

  lemma WriteUncounted(s: State, id: nat, answer: Answer)
    requires InBooks(s, id) && Possible(answer, |s.connections[id].sendBuffer|)
    ensures Uncounted(SentFrom(s, id, answer)) == Uncounted(s)
  {
    match answer
    case Accepted(n) => LoggedGrows(s, id, s.connections[id].sendBuffer[..n], []);
    case Failed => FailUncounted(s, id, [], []);
    case _ => LoggedGrows(s, id, [], []);
  }

  lemma WritableUncounted(s: State, fd: nat, answer: Answer)
    requires Lives(s.connections, s.logs) && Books(s.logs, s.births) && PossibleWrite(s, fd, answer)
    ensures Uncounted(OnWritable(s, fd, answer)) == Uncounted(s)
  {
    if fd in s.fdToId && s.fdToId[fd] in s.connections {
      var id := s.fdToId[fd];
      LiveLogs(s, id);
      if s.connections[id].sendBuffer == [] { LoggedGrows(s, id, [], []); } else { WriteUncounted(s, id, answer); }
    }
  }

  lemma {:induction false} ReadUncounted(s: State, id: nat, answers: seq<Received>)
    requires InBooks(s, id)
    ensures Uncounted(ReadLoop(s, id, answers)) == Uncounted(s)
    decreases |answers|
  {
    if answers != [] {
      match answers[0]
      case Bytes(b) => ReadUncounted(ReadSome(s, id, b), id, answers[1..]);
      case Retry => ReadUncounted(s, id, answers[1..]);
      case Broken => FailUncounted(s, id, [], []);
      case _ =>
    }
  }

  lemma {:induction false} CloseAllUncounted(s: State, ids: seq<nat>)
    ensures Uncounted(CloseAll(s, ids)) == Uncounted(s)
    decreases |ids|
  {
    if ids != [] { CloseAllUncounted(if ids[0] in s.connections then Close(s, ids[0]) else s, ids[1..]); }
  }

  lemma AddUncounted(s: State, fd: nat, date: nat, monitored: bool)
    ensures Uncounted(DoAdd(s, fd, date, monitored)) == Uncounted(s)
  {
    var s' := DoAdd(s, fd, date, monitored);
    OnWiresAlike(s.logs, s'.logs, s.births);
  }

  lemma FdUncounted(s: State, fd: nat, step: Step)
    requires Inv(s) && Enabled(s, step) && (step == PeerFailed(fd) || (step.Readable? && step.fd == fd))
    ensures Uncounted(Next(s, step)) == Uncounted(s)
  {
    if fd in s.fdToId && s.fdToId[fd] in s.connections {
      LiveLogs(s, s.fdToId[fd]);
      if step.Readable? { ReadUncounted(s, s.fdToId[fd], step.answers); } else { FailUncounted(s, s.fdToId[fd], [], []); }
    }
  }

  /** Of all steps only a partial direct send sets the counter and the wires apart. */
  lemma StepUncounted(s: State, step: Step)
    requires Inv(s) && Enabled(s, step)
    ensures Uncounted(Next(s, step)) == Uncounted(s) + PartOf(s, step)
  {
    match step
    case Add(fd, date, monitored) => AddUncounted(s, fd, date, monitored);
    case Send(id, data, answer) => SendUncounted(s, id, data, answer);
    case Writable(fd, answer) => WritableUncounted(s, fd, answer);
    case Readable(fd, _) => FdUncounted(s, fd, step);
    case PeerFailed(fd) => FdUncounted(s, fd, step);
    case TimedOut(ids) => CloseAllUncounted(s, ids);
    case _ =>
  }

  // ---------------------------------------------------------------- runs

  /** The bytes of all partial direct sends of a run. */
  ghost function Parts(s: State, steps: seq<Step>): nat
    requires Legal(s, steps)
    decreases |steps|
  {
    if steps == [] then 0 else PartOf(s, steps[0]) + Parts(Next(s, steps[0]), steps[1..])
  }

  lemma {:induction false} RunUncounted(s: State, steps: seq<Step>)
    requires Inv(s) && Legal(s, steps)
    ensures Uncounted(Final(s, steps)) == Uncounted(s) + Parts(s, steps)
    decreases |steps|
  {
    if steps != [] {
      StepInv(s, steps[0]);
      StepUncounted(s, steps[0]);
      RunUncounted(Next(s, steps[0]), steps[1..]);
    }
  }

  /** In every run the counter plus the bytes of partial direct sends is the number of bytes on the wires. */
  lemma CounterMissesParts(reactorId: nat, steps: seq<Step>)
    requires Legal(Init(reactorId), steps)
    ensures var s := Final(Init(reactorId), steps);
            && s.bytesSent + Parts(Init(reactorId), steps) == OnWires(s.logs, s.births)
            && (s.bytesSent == OnWires(s.logs, s.births) <==> Parts(Init(reactorId), steps) == 0)
  {
    InitInv(reactorId);
    RunUncounted(Init(reactorId), steps);
  }
}
