/**
 ReadWriteLock (src/darwincore/foundation/thread/Lock.cpp): a writer-preferring lock over
 one mutex and two condition variables.

 Each mutex-protected section is one atomic step of a lock request.  A waiting request is
 asleep on its condition variable, or woken (notified, or spuriously) and about to re-check
 its condition; a run is any interleaving of the steps of any number of requests.
 */
module ReadWriteLock {

  datatype Option<+T> = None | Some(value: T)

  /** The three counters of the source, and where every pending or granted request is. */
  datatype State = State(
    readers: int,
    writers: int,
    waitWriters: int,
    cvWriter: set<nat>,       // asleep in _cv_writer.wait
    wokenWriters: set<nat>,   // out of the wait set, not yet holding the mutex again
    writing: set<nat>,        // returned from lockWrite, not yet in unlockWrite
    cvReader: set<nat>,
    wokenReaders: set<nat>,
    reading: set<nat>)

  datatype Step =
    | LockWrite(t: nat)
    | ResumeWrite(t: nat)                          // back from _cv_writer.wait
    | UnlockWrite(t: nat, notified: Option<nat>)   // whom notify_one picks, if it is called
    | LockRead(t: nat)
    | ResumeRead(t: nat)                           // back from _cv_reader.wait
    | UnlockRead(t: nat, notified: Option<nat>)
    | SpuriousWriter(t: nat)
    | SpuriousReader(t: nat)
    | StrayUnlockWrite                             // unlockWrite with nobody writing
    | StrayUnlockRead                              // unlockRead with nobody reading

  const Init := State(0, 0, 0, {}, {}, {}, {}, {}, {})

  function Requests(s: State): set<nat> {
    s.cvWriter + s.wokenWriters + s.writing + s.cvReader + s.wokenReaders + s.reading
  }

  /** notify_one wakes one sleeper, and is a no-op only when nobody sleeps. */
  predicate MayNotify(s: State, notified: Option<nat>) {
    match notified
    case Some(u) => u in s.cvWriter
    case None => s.cvWriter == {}
  }

  predicate Enabled(s: State, step: Step) {
    match step
    case LockWrite(t) => t !in Requests(s)
    case LockRead(t) => t !in Requests(s)
    case ResumeWrite(t) => t in s.wokenWriters
    case ResumeRead(t) => t in s.wokenReaders
    case UnlockWrite(t, notified) => t in s.writing && MayNotify(s, notified)
    case UnlockRead(t, notified) => t in s.reading && MayNotify(s, notified)
    case SpuriousWriter(t) => t in s.cvWriter
    case SpuriousReader(t) => t in s.cvReader
    case StrayUnlockWrite => s.writers == 0
    case StrayUnlockRead => s.readers == 0
  }

  /** One turn of the wait loop of lockWrite, with the mutex held by request t. */
  function TryWrite(s: State, t: nat): State {
    if s.readers > 0 || s.writers > 0 then s.(cvWriter := s.cvWriter + {t})
    else s.(writing := s.writing + {t}, writers := s.writers + 1, waitWriters := s.waitWriters - 1)
  }

  /** One turn of the wait loop of lockRead, with the mutex held by request t. */
  function TryRead(s: State, t: nat): State {
    if s.waitWriters > 0 || s.writers > 0 then s.(cvReader := s.cvReader + {t})
    else s.(reading := s.reading + {t}, readers := s.readers + 1)
  }

  function NotifyWriter(s: State, notified: Option<nat>): State {
    match notified
    case Some(u) => s.(cvWriter := s.cvWriter - {u}, wokenWriters := s.wokenWriters + {u})
    case None => s
  }

  function NotifyReaders(s: State): State {
    s.(cvReader := {}, wokenReaders := s.wokenReaders + s.cvReader)
  }

  function Next(s: State, step: Step): State {
    match step
    case LockWrite(t) => TryWrite(s.(waitWriters := s.waitWriters + 1), t)
    case ResumeWrite(t) => TryWrite(s.(wokenWriters := s.wokenWriters - {t}), t)
    case UnlockWrite(t, notified) =>
      var s1 := s.(writing := s.writing - {t}, writers := s.writers - 1);
      if s1.writers == 0 && s1.waitWriters == 0 then NotifyReaders(s1) else NotifyWriter(s1, notified)
    case LockRead(t) => TryRead(s, t)
    case ResumeRead(t) => TryRead(s.(wokenReaders := s.wokenReaders - {t}), t)
    case UnlockRead(t, notified) =>
      var s1 := s.(reading := s.reading - {t}, readers := s.readers - 1);
      if s1.readers == 0 then NotifyWriter(s1, notified) else s1
    case SpuriousWriter(t) => s.(cvWriter := s.cvWriter - {t}, wokenWriters := s.wokenWriters + {t})
    case SpuriousReader(t) => s.(cvReader := s.cvReader - {t}, wokenReaders := s.wokenReaders + {t})
    case StrayUnlockWrite => s
    case StrayUnlockRead => s
  }

  // ---------------------------------------------------------------- runs

  ghost predicate Legal(s: State, steps: seq<Step>)
    decreases |steps|
  {
    steps == [] || (Enabled(s, steps[0]) && Legal(Next(s, steps[0]), steps[1..]))
  }

  ghost function Final(s: State, steps: seq<Step>): State
    decreases |steps|
  {
    if steps == [] then s else Final(Next(s, steps[0]), steps[1..])
  }

  ghost predicate Reachable(s: State) {
    exists steps :: Legal(Init, steps) && Final(Init, steps) == s
  }

  // ---------------------------------------------------------------- invariant

  /** A request is in one place. */
  ghost predicate Apart(s: State) {
    && s.cvWriter !! s.wokenWriters && s.cvWriter !! s.writing && s.wokenWriters !! s.writing
    && s.cvReader !! s.wokenReaders && s.cvReader !! s.reading && s.wokenReaders !! s.reading
  }

  /** The three counters count what they say. */
  ghost predicate CountersOk(s: State) {
    && s.readers == |s.reading|
    && s.writers == |s.writing|
    && s.waitWriters == |s.cvWriter| + |s.wokenWriters|
  }

  ghost predicate Exclusive(s: State) {
    |s.writing| <= 1 && (s.writing == {} || s.reading == {})
  }

  /** A free lock that writers want has a woken writer; a reader sleeps only behind a writer. */
  ghost predicate NoLostWakeup(s: State) {
    && (s.writing == {} && s.reading == {} && s.cvWriter != {} ==> s.wokenWriters != {})
    && (s.cvReader != {} ==> s.writing + s.cvWriter + s.wokenWriters != {})
  }

  ghost predicate Inv(s: State) {
    Apart(s) && CountersOk(s) && Exclusive(s) && NoLostWakeup(s)
  }

  // ---------------------------------------------------------------- every step keeps it

  /** A writer's attempt: request t is counted in waitWriters and is in no set. */
  lemma TryWriteInv(s: State, t: nat)
    requires Apart(s) && t !in s.cvWriter + s.wokenWriters + s.writing && Exclusive(s)
    requires s.readers == |s.reading| && s.writers == |s.writing|
    requires s.waitWriters == |s.cvWriter| + |s.wokenWriters| + 1
    ensures Inv(TryWrite(s, t))
  {
  }

  lemma TryReadInv(s: State, t: nat)
    requires Inv(s) && t !in s.cvReader + s.wokenReaders + s.reading
    ensures Inv(TryRead(s, t))
  {
  }

  lemma UnlockWriteInv(s: State, t: nat, notified: Option<nat>)
    requires Inv(s) && Enabled(s, UnlockWrite(t, notified))
    ensures Inv(Next(s, UnlockWrite(t, notified)))
  {
    var s1 := s.(writing := s.writing - {t}, writers := s.writers - 1);
    assert |s.writing - {t}| == |s.writing| - 1;
    assert s1.writing == {} && Apart(s1) && CountersOk(s1) && Exclusive(s1);
    if s1.waitWriters > 0 { NotifyWriterInv(s1, notified); }
  }

  /** notify_one on a free or held lock that a writer waits for. */
  lemma NotifyWriterInv(s: State, notified: Option<nat>)
    requires Apart(s) && CountersOk(s) && Exclusive(s) && MayNotify(s, notified)
    requires s.cvReader == {} || s.cvWriter + s.wokenWriters + s.writing != {}
    ensures Inv(NotifyWriter(s, notified))
  {
  }

  lemma SpuriousInv(s: State, t: nat)
    requires Inv(s)
    ensures t in s.cvWriter ==> Inv(Next(s, SpuriousWriter(t)))
    ensures t in s.cvReader ==> Inv(Next(s, SpuriousReader(t)))
  {
  }

  lemma UnlockReadInv(s: State, t: nat, notified: Option<nat>)
    requires Inv(s) && Enabled(s, UnlockRead(t, notified))
    ensures Inv(Next(s, UnlockRead(t, notified)))
  {
    assert |s.reading - {t}| == |s.reading| - 1;
  }

  lemma StepInv(s: State, step: Step)
    requires Inv(s) && Enabled(s, step)
    ensures Inv(Next(s, step))
  {
    match step
    case LockWrite(t) => TryWriteInv(s.(waitWriters := s.waitWriters + 1), t);
    case ResumeWrite(t) => TryWriteInv(s.(wokenWriters := s.wokenWriters - {t}), t);
    case LockRead(t) => TryReadInv(s, t);
    case ResumeRead(t) => TryReadInv(s.(wokenReaders := s.wokenReaders - {t}), t);
    case UnlockWrite(t, notified) => UnlockWriteInv(s, t, notified);
    case UnlockRead(t, notified) => UnlockReadInv(s, t, notified);
    case SpuriousWriter(t) => SpuriousInv(s, t);
    case SpuriousReader(t) => SpuriousInv(s, t);
    case StrayUnlockWrite =>
    case StrayUnlockRead =>
  }

  lemma {:induction false} RunInv(s: State, steps: seq<Step>)
    requires Inv(s) && Legal(s, steps)
    ensures Inv(Final(s, steps))
    decreases |steps|
  {
    if steps != [] {
      StepInv(s, steps[0]);
      RunInv(Next(s, steps[0]), steps[1..]);
    }
  }

  lemma ReachableInv(s: State)
    requires Reachable(s)
    ensures Inv(s)
  {
    var steps :| Legal(Init, steps) && Final(Init, steps) == s;
    RunInv(Init, steps);
  }

  // ---------------------------------------------------------------- main results

  /** At most one writer, never with readers; the counters are exact, so a drained lock is as new. */
  lemma MutualExclusion(s: State)
    requires Reachable(s)
    ensures |s.writing| <= 1 && (s.writing == {} || s.reading == {})
    ensures CountersOk(s)
    ensures Requests(s) == {} ==> s == Init
  {
    ReachableInv(s);
  }

  /** A reader enters only when no writer is active, waiting or woken. */
  lemma WriterPreference(s: State, step: Step, t: nat)
    requires Reachable(s) && Enabled(s, step)
    requires t in Next(s, step).reading && t !in s.reading
    ensures s.writing == {} && s.cvWriter == {} && s.wokenWriters == {}
    ensures step == LockRead(t) || step == ResumeRead(t)
  {
    ReachableInv(s);
    ReaderEnters(s, step, t);
  }

  /** The only ways into `reading`. */
  lemma ReaderEnters(s: State, step: Step, t: nat)
    requires t in Next(s, step).reading && t !in s.reading
    ensures (step == LockRead(t) || step == ResumeRead(t)) && s.waitWriters <= 0 && s.writers <= 0
  {
  }

  /** A writer enters only when nobody holds the lock. */
  lemma WriterEntersAlone(s: State, step: Step, t: nat)
    requires Reachable(s) && Enabled(s, step)
    requires t in Next(s, step).writing && t !in s.writing
    ensures s.writing == {} && s.reading == {}
    ensures step == LockWrite(t) || step == ResumeWrite(t)
  {
    ReachableInv(s);
  }

  /** Would this request get the lock on its next turn with the mutex? */
  ghost predicate Succeeds(s: State, t: nat) {
    || (t in s.wokenWriters && t in Next(s, ResumeWrite(t)).writing)
    || (t in s.wokenReaders && t in Next(s, ResumeRead(t)).reading)
  }

  /** No wakeup is lost: when nobody holds the lock but somebody waits, a woken request will get it. */
  lemma NeverStuck(s: State)
    requires Reachable(s) && Requests(s) != {} && s.writing == {} && s.reading == {}
    ensures exists t :: Succeeds(s, t)
  {
    ReachableInv(s);
    if s.wokenWriters != {} {
      var t :| t in s.wokenWriters;
      assert Succeeds(s, t);
    } else {
      assert s.cvWriter == {} && s.cvReader == {};
      var t :| t in s.wokenReaders;
      assert Succeeds(s, t);
    }
  }

  /** A sleeper always sleeps behind someone: a writer behind a holder or a woken writer, a reader behind a writer. */
  lemma SleepersHaveCause(s: State)
    requires Reachable(s)
    ensures s.cvWriter != {} ==> s.writing + s.reading + s.wokenWriters != {}
    ensures s.cvReader != {} ==> s.writing + s.cvWriter + s.wokenWriters != {}
  {
    ReachableInv(s);
  }

  // ---------------------------------------------------------------- what becomes of a request

  /** Requests of writers and of readers. */
  function WriteRequests(s: State): set<nat> {
    s.cvWriter + s.wokenWriters + s.writing
  }

  function ReadRequests(s: State): set<nat> {
    s.cvReader + s.wokenReaders + s.reading
  }

  ghost function WritersThen(s: State, step: Step): set<nat> {
    match step
    case LockWrite(t) => WriteRequests(s) + {t}
    case UnlockWrite(t, _) => WriteRequests(s) - {t}
    case _ => WriteRequests(s)
  }

  ghost function ReadersThen(s: State, step: Step): set<nat> {
    match step
    case LockRead(t) => ReadRequests(s) + {t}
    case UnlockRead(t, _) => ReadRequests(s) - {t}
    case _ => ReadRequests(s)
  }

  predicate Writes(s: State, u: nat) {
    u in s.cvWriter || u in s.wokenWriters || u in s.writing
  }

  predicate ReadsIn(s: State, u: nat) {
    u in s.cvReader || u in s.wokenReaders || u in s.reading
  }

  lemma WriterAfter(s: State, step: Step, u: nat)
    requires Apart(s) && Enabled(s, step)
    ensures Writes(Next(s, step), u) <==>
            (Writes(s, u) || step == LockWrite(u)) && !(step.UnlockWrite? && step.t == u)
  {
  }

  lemma ReaderAfter(s: State, step: Step, u: nat)
    requires Apart(s) && Enabled(s, step)
    ensures ReadsIn(Next(s, step), u) <==>
            (ReadsIn(s, u) || step == LockRead(u)) && !(step.UnlockRead? && step.t == u)
  {
  }

  /** A call adds its request, an unlock ends it, and nothing else changes which requests there are. */
  lemma RequestsAfter(s: State, step: Step)
    requires Inv(s) && Enabled(s, step)
    ensures WriteRequests(Next(s, step)) == WritersThen(s, step) && ReadRequests(Next(s, step)) == ReadersThen(s, step)
  {
    var s' := Next(s, step);
    WritersFrom(s, step, s');
    ReadersFrom(s, step, s');
  }

  lemma WritersFrom(s: State, step: Step, s': State)
    requires Apart(s) && Enabled(s, step) && Next(s, step) == s'
    ensures WriteRequests(s') == WritersThen(s, step)
  {
    forall u ensures u in WriteRequests(s') <==> u in WritersThen(s, step) { WriterAfter(s, step, u); }
  }

  lemma ReadersFrom(s: State, step: Step, s': State)
    requires Apart(s) && Enabled(s, step) && Next(s, step) == s'
    ensures ReadRequests(s') == ReadersThen(s, step)
  {
    forall u ensures u in ReadRequests(s') <==> u in ReadersThen(s, step) { ReaderAfter(s, step, u); }
  }

  /** Nobody but the holder itself ends its hold, and an unlock does. */
  lemma HoldersAfter(s: State, step: Step, t: nat)
    requires Enabled(s, step)
    ensures t in s.writing ==> (t in Next(s, step).writing <==> !(step.UnlockWrite? && step.t == t))
    ensures t in s.reading ==> (t in Next(s, step).reading <==> !(step.UnlockRead? && step.t == t))
  {
  }

  /** Whom an unlock wakes: nobody while readers remain; else a sleeping writer; all readers if no writer waits. */
  lemma UnlockWakes(s: State, step: Step)
    requires Reachable(s) && Enabled(s, step) && (step.UnlockWrite? || step.UnlockRead?)
    ensures var s' := Next(s, step);
            if s'.reading != {} then s'.cvWriter == s.cvWriter && s'.cvReader == s.cvReader
            else if s.cvWriter + s.wokenWriters == {} then s'.cvReader == {} && s.cvReader <= s'.wokenReaders
            else s'.cvReader == s.cvReader &&
                 (s.cvWriter != {} ==> exists u :: u in s.cvWriter && s'.cvWriter == s.cvWriter - {u} && u in s'.wokenWriters)
  {
    ReachableInv(s);
    if step.UnlockWrite? { WriterWakes(s, step.t, step.notified); } else { ReaderWakes(s, step.t, step.notified); }
  }

  ghost predicate Woken(s: State, s': State) {
    && s'.cvReader == s.cvReader
    && (s.cvWriter != {} ==> exists u :: u in s.cvWriter && s'.cvWriter == s.cvWriter - {u} && u in s'.wokenWriters)
  }

  lemma NotifyWakes(s: State, s1: State, notified: Option<nat>)
    requires MayNotify(s, notified) && s1.cvWriter == s.cvWriter && s1.cvReader == s.cvReader
    ensures Woken(s, NotifyWriter(s1, notified))
  {
    if notified.Some? { assert notified.value in s.cvWriter; }
  }

  lemma WriterWakes(s: State, t: nat, notified: Option<nat>)
    requires Inv(s) && Enabled(s, UnlockWrite(t, notified))
    ensures var s' := Next(s, UnlockWrite(t, notified));
            s'.reading == {} && if s.cvWriter + s.wokenWriters == {} then s'.cvReader == {} && s.cvReader <= s'.wokenReaders else Woken(s, s')
  {
    NotifyWakes(s, s.(writing := s.writing - {t}, writers := s.writers - 1), notified);
    assert s.writing == {t} by { AtMostOne(s.writing, t); }
  }

  lemma AtMostOne(ts: set<nat>, t: nat)
    requires t in ts && |ts| <= 1
    ensures ts == {t}
  {
    assert |ts - {t}| == |ts| - 1;
  }

  lemma ReaderWakes(s: State, t: nat, notified: Option<nat>)
    requires Inv(s) && Enabled(s, UnlockRead(t, notified))
    ensures var s' := Next(s, UnlockRead(t, notified));
            if s'.reading != {} then s'.cvWriter == s.cvWriter && s'.cvReader == s.cvReader
            else if s.cvWriter + s.wokenWriters == {} then s'.cvReader == {} && s.cvReader == {} else Woken(s, s')
  {
    NotifyWakes(s, s.(reading := s.reading - {t}, readers := s.readers - 1), notified);
    assert |s.reading - {t}| == |s.reading| - 1;
  }

  // ---------------------------------------------------------------- the lock can always be drained

  /** A step of a request that is already there, without help from spurious wakeups. */
  predicate Ends(step: Step) {
    step.ResumeWrite? || step.ResumeRead? || step.UnlockWrite? || step.UnlockRead?
  }

  /** A run of such steps that leaves the lock as new. */
  ghost predicate Drain(s: State, steps: seq<Step>) {
    Legal(s, steps) && Final(s, steps) == Init && forall i :: 0 <= i < |steps| ==> Ends(steps[i])
  }

  ghost function Work(s: State): nat {
    2 * (|WriteRequests(s)| + |ReadRequests(s)|) + if s.writing + s.reading == {} then 1 else 0
  }

  /** Whom notify_one may pick. */
  lemma Picks(s: State) returns (notified: Option<nat>)
    ensures MayNotify(s, notified)
  {
    notified := None;
    if s.cvWriter != {} {
      var u :| u in s.cvWriter;
      notified := Some(u);
    }
  }

  lemma OneLess(ts: set<nat>, t: nat)
    requires t in ts
    ensures |ts - {t}| == |ts| - 1
  {
  }

  lemma Release(s: State) returns (step: Step)
    requires Inv(s) && s.writing + s.reading != {}
    ensures Ends(step) && Enabled(s, step) && Work(Next(s, step)) < Work(s)
  {
    var notified := Picks(s);
    if s.writing != {} {
      var t :| t in s.writing;
      step := UnlockWrite(t, notified);
      OneLess(WriteRequests(s), t);
    } else {
      var t :| t in s.reading;
      step := UnlockRead(t, notified);
      OneLess(ReadRequests(s), t);
    }
    LessWork(s, step);
  }

  lemma LessWork(s: State, step: Step)
    requires Inv(s) && Enabled(s, step) && s.writing + s.reading != {}
    requires |WritersThen(s, step)| + |ReadersThen(s, step)| < |WriteRequests(s)| + |ReadRequests(s)|
    ensures Work(Next(s, step)) < Work(s)
  {
    RequestsAfter(s, step);
  }

  lemma Acquire(s: State) returns (step: Step)
    requires Inv(s) && s.writing + s.reading == {} && WriteRequests(s) + ReadRequests(s) != {}
    ensures Ends(step) && Enabled(s, step) && Work(Next(s, step)) < Work(s)
  {
    if s.wokenWriters != {} {
      var t :| t in s.wokenWriters;
      step := ResumeWrite(t);
      assert t in Next(s, step).writing;
    } else {
      assert s.cvWriter == {} && s.cvReader == {};
      var t :| t in s.wokenReaders;
      step := ResumeRead(t);
      assert t in Next(s, step).reading;
    }
    RequestsAfter(s, step);
  }

  lemma {:induction false} DrainsFrom(s: State) returns (steps: seq<Step>)
    requires Inv(s)
    ensures Drain(s, steps)
    decreases Work(s)
  {
    if WriteRequests(s) + ReadRequests(s) == {} {
      NobodyLeft(s);
      steps := [];
    } else {
      var step, s' := Onward(s);
      var rest := DrainsFrom(s');
      steps := [step] + rest;
      DrainMore(s, step, s', rest);
    }
  }

  lemma DrainMore(s: State, step: Step, s': State, rest: seq<Step>)
    requires Ends(step) && Enabled(s, step) && Next(s, step) == s' && Drain(s', rest)
    ensures Drain(s, [step] + rest)
  {
    var steps := [step] + rest;
    assert steps[1..] == rest;
    assert Final(s, steps) == Final(s', rest);
  }

  /** Some request can do something, and is then nearer to its end. */
  lemma Onward(s: State) returns (step: Step, s': State)
    requires Inv(s) && WriteRequests(s) + ReadRequests(s) != {}
    ensures Ends(step) && Enabled(s, step) && s' == Next(s, step) && Work(s') < Work(s) && Inv(s')
  {
    if s.writing + s.reading != {} { step := Release(s); } else { step := Acquire(s); }
    StepInv(s, step);
    s' := Next(s, step);
  }

  lemma NobodyLeft(s: State)
    requires Inv(s) && WriteRequests(s) + ReadRequests(s) == {}
    ensures s == Init
  {
    assert s.cvWriter == {} && s.wokenWriters == {} && s.writing == {};
    assert s.cvReader == {} && s.wokenReaders == {} && s.reading == {};
  }

  /** From every reachable state the requests alone can finish: all get the lock, release it, and leave it as new. */
  lemma AlwaysDrains(s: State)
    requires Reachable(s)
    ensures exists steps :: Drain(s, steps)
  {
    ReachableInv(s);
    var steps := DrainsFrom(s);
  }
}
