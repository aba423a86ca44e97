/**
 WorkerPool and ConcurrentQueue (src/darwincore/network/worker_pool.cpp and concurrent_queue.h):
 reactor threads submit events, each event goes to the queue of one worker, workers call back.

 Every mutex-protected section and every access to is_running_ is one step; a run interleaves the
 steps of any number of reactors, of the workers and of Stop.  A reactor submits the events of its
 `script` one after the other, as Reactor.dfy's event loop dispatches them.
 */
module WorkerPool {
  import Reactor

  type Event = Reactor.Event

  datatype Option<+T> = None | Some(value: T)

  /** An event and the reactor that submitted it. */
  datatype Job = Job(reactor: nat, event: Event)

  datatype Queue = Queue(items: seq<Job>, stopped: bool)

  datatype Worker =
    | Looping                // about to test is_running_
    | Waiting                // in WaitDequeue
    | Calling(job: Job)      // about to call back, in the main loop
    | Draining               // in the final TryDequeue loop
    | DrainCalling(job: Job) // about to call back, in the final loop
    | Exited

  /** A reactor is between two SubmitEvent calls, or past the is_running_ test of one (in Enqueue). */
  datatype Submitter = Idle | Enqueuing

  datatype Stopper = Running | Notifying(k: nat) | Stopped

  /**
   `accepted[r]` counts r's submissions that returned true and `next[r]` all that returned.
   enqueued/delivered are, per worker, what entered its queue and what it called back, in order;
   atStop is what had been enqueued when Stop flipped is_running_.
   */
  datatype State = State(
    maxSize: nat,
    running: bool,
    stopper: Stopper,
    queues: seq<Queue>,
    workers: seq<Worker>,
    submitters: map<nat, Submitter>,
    next: map<nat, nat>,
    script: map<nat, seq<Event>>,
    accepted: map<nat, nat>,
    enqueued: seq<seq<Job>>,
    delivered: seq<seq<Job>>,
    atStop: Option<seq<seq<Job>>>)

  datatype Step =
    | Test(r: nat)         // SubmitEvent reads is_running_
    | Enqueue(r: nat)      // Enqueue returns
    | Wake(w: nat)         // the worker's next step
    | FlipRunning          // Stop's compare_exchange
    | Notify               // Stop's next NotifyStop

  /** connection_id % worker_count_. */
  function Route(n: nat, id: nat): (w: nat)
    requires n > 0
    ensures w < n
  {
    if id < n then id else Route(n, id - n)
  }

  function Init(workerCount: nat, maxSize: nat, script: map<nat, seq<Event>>): State
    requires workerCount > 0
  {
    State(maxSize, true, Running,
          seq(workerCount, _ => Queue([], false)), seq(workerCount, _ => Looping),
          map r | r in script :: Idle, map r | r in script :: 0, script, map r | r in script :: 0,
          seq(workerCount, _ => []), seq(workerCount, _ => []), None)
  }

  /** The sequences have one entry per worker and the maps one per reactor. */
  predicate Shape(s: State) {
    && |s.queues| > 0 && |s.workers| == |s.queues| && |s.enqueued| == |s.queues| && |s.delivered| == |s.queues|
    && s.submitters.Keys == s.script.Keys && s.next.Keys == s.script.Keys && s.accepted.Keys == s.script.Keys
    && (s.atStop.Some? ==> |s.atStop.value| == |s.queues|)
  }

  predicate HasNext(s: State, r: nat)
    requires Shape(s)
  {
    r in s.script && s.next[r] < |s.script[r]|
  }

  function Target(s: State, r: nat): (w: nat)
    requires Shape(s) && HasNext(s, r)
    ensures w < |s.queues|
  {
    Route(|s.queues|, s.script[r][s.next[r]].id)
  }

  predicate Enabled(s: State, step: Step)
    requires Shape(s)
  {
    match step
    case Test(r) => HasNext(s, r) && s.submitters[r] == Idle
    case Enqueue(r) =>
      HasNext(s, r) && s.submitters[r] == Enqueuing &&
      (var q := s.queues[Target(s, r)]; s.maxSize == 0 || |q.items| < s.maxSize || q.stopped)
    case Wake(w) => w < |s.workers| && s.workers[w] != Exited
    case FlipRunning => s.running
    case Notify => s.stopper.Notifying? && s.stopper.k < |s.queues|
  }

  function Return(s: State, r: nat, ok: bool): State
    requires Shape(s) && HasNext(s, r)
  {
    s.(submitters := s.submitters[r := Idle], next := s.next[r := s.next[r] + 1],
       accepted := if ok then s.accepted[r := s.accepted[r] + 1] else s.accepted)
  }

  function DoEnqueue(s: State, r: nat): State
    requires Shape(s) && HasNext(s, r)
  {
    var w, job := Target(s, r), Job(r, s.script[r][s.next[r]]);
    var q := s.queues[w];
    if q.stopped then Return(s, r, false)
    else Return(s, r, true).(queues := s.queues[w := q.(items := q.items + [job])], enqueued := s.enqueued[w := s.enqueued[w] + [job]])
  }

  function SetWorker(s: State, w: nat, pc: Worker): State
    requires w < |s.workers|
  {
    s.(workers := s.workers[w := pc])
  }

  /** The front of the queue moves into the worker's hand. */
  function Take(s: State, w: nat, pc: Worker): State
    requires Shape(s) && w < |s.workers| && s.queues[w].items != []
  {
    SetWorker(s, w, pc).(queues := s.queues[w := s.queues[w].(items := s.queues[w].items[1..])])
  }

  function CallBack(s: State, w: nat, job: Job, pc: Worker): State
    requires Shape(s) && w < |s.workers|
  {
    SetWorker(s, w, pc).(delivered := s.delivered[w := s.delivered[w] + [job]])
  }

  function DoWake(s: State, w: nat): State
    requires Shape(s) && w < |s.workers|
  {
    var q := s.queues[w];
    match s.workers[w]
    case Looping => SetWorker(s, w, if s.running then Waiting else Draining)
    case Waiting =>                        // a stopped or (after the timeout) empty queue yields nothing
      if q.stopped || q.items == [] then SetWorker(s, w, Looping) else Take(s, w, Calling(q.items[0]))
    case Calling(job) => CallBack(s, w, job, Looping)
    case Draining => if q.items == [] then SetWorker(s, w, Exited) else Take(s, w, DrainCalling(q.items[0]))
    case DrainCalling(job) => CallBack(s, w, job, Draining)
    case Exited => s
  }

  function Next(s: State, step: Step): State
    requires Shape(s) && Enabled(s, step)
  {
    match step
    case Test(r) => if s.running then s.(submitters := s.submitters[r := Enqueuing]) else Return(s, r, false)
    case Enqueue(r) => DoEnqueue(s, r)
    case Wake(w) => DoWake(s, w)
    case FlipRunning => s.(running := false, stopper := Notifying(0), atStop := Some(s.enqueued))
    case Notify =>
      var k := s.stopper.k;
      s.(queues := s.queues[k := s.queues[k].(stopped := true)],
         stopper := if k + 1 == |s.queues| then Stopped else Notifying(k + 1))
  }

  // ---------------------------------------------------------------- filters

  /** What reactor r submitted among some jobs. */
  function Mine(jobs: seq<Job>, r: nat): seq<Event>
    decreases |jobs|
  {
    if jobs == [] then [] else
      var before, last := Mine(jobs[..|jobs| - 1], r), jobs[|jobs| - 1];
      if last.reactor == r then before + [last.event] else before
  }

  /** The events that are routed to worker w. */
  function Routed(events: seq<Event>, n: nat, w: nat): seq<Event>
    requires n > 0
    decreases |events|
  {
    if events == [] then [] else
      var before, last := Routed(events[..|events| - 1], n, w), events[|events| - 1];
      if Route(n, last.id) == w then before + [last] else before
  }

  // ---------------------------------------------------------------- invariant

  function Hand(pc: Worker): seq<Job> {
    if pc.Calling? || pc.DrainCalling? then [pc.job] else []
  }

  /** Nothing is lost, doubled or reordered between queue and callback. */
  ghost predicate Conserved(s: State, w: nat)
    requires Shape(s) && w < |s.queues|
  {
    s.delivered[w] + Hand(s.workers[w]) + s.queues[w].items == s.enqueued[w]
  }

  ghost predicate WorkerOk(s: State, w: nat)
    requires Shape(s) && w < |s.queues|
  {
    && Conserved(s, w)
    && (s.queues[w].stopped ==> !s.running)
    && (s.workers[w].Draining? || s.workers[w].DrainCalling? || s.workers[w].Exited? ==> !s.running)
    && (s.atStop.Some? ==> s.atStop.value[w] <= s.enqueued[w] && (s.workers[w].Exited? ==> s.atStop.value[w] <= s.delivered[w]))
  }

  /** A reactor's accepted submissions are its first ones, and each is in the queue of its worker, in order. */
  ghost predicate ReactorOk(s: State, r: nat)
    requires Shape(s) && r in s.script
  {
    && s.accepted[r] <= s.next[r] <= |s.script[r]|
    && (s.accepted[r] < s.next[r] ==> !s.running && s.submitters[r] == Idle)
    && (s.submitters[r] == Enqueuing ==> s.next[r] < |s.script[r]|)
    && forall w :: 0 <= w < |s.queues| ==> Mine(s.enqueued[w], r) == Routed(s.script[r][..s.accepted[r]], |s.queues|, w)
  }

  ghost predicate Inv(s: State) {
    && Shape(s)
    && (s.atStop.Some? <==> !s.running) && (s.stopper.Running? <==> s.running)
    && (forall w :: 0 <= w < |s.queues| ==> WorkerOk(s, w))
    && (forall r :: r in s.script ==> ReactorOk(s, r))
  }

  // ---------------------------------------------------------------- every step keeps it

  lemma MineAfter(jobs: seq<Job>, job: Job, r: nat)
    ensures Mine(jobs + [job], r) == if job.reactor == r then Mine(jobs, r) + [job.event] else Mine(jobs, r)
  {
    assert (jobs + [job])[..|jobs|] == jobs;
  }

  lemma RoutedAfter(events: seq<Event>, k: nat, n: nat, w: nat)
    requires n > 0 && k < |events|
    ensures Routed(events[..k + 1], n, w) ==
            if Route(n, events[k].id) == w then Routed(events[..k], n, w) + [events[k]] else Routed(events[..k], n, w)
  {
    assert events[..k + 1][..k] == events[..k];
  }

  lemma InitInv(workerCount: nat, maxSize: nat, script: map<nat, seq<Event>>)
    requires workerCount > 0
    ensures Inv(Init(workerCount, maxSize, script))
  {
    var s := Init(workerCount, maxSize, script);
    assert Shape(s);
  }

  /** A submission that returns false. */
  lemma RefusedInv(s: State, r: nat)
    requires Inv(s) && HasNext(s, r) && !s.running
    ensures Inv(Return(s, r, false))
  {
    var s' := Return(s, r, false);
    forall w | 0 <= w < |s'.queues| ensures WorkerOk(s', w) { assert WorkerOk(s, w); }
    forall r' | r' in s'.script ensures ReactorOk(s', r') { assert ReactorOk(s, r'); }
  }

  lemma TestInv(s: State, r: nat)
    requires Inv(s) && Enabled(s, Test(r))
    ensures Inv(Next(s, Test(r)))
  {
    if s.running {
      var s' := Next(s, Test(r));
      forall w | 0 <= w < |s'.queues| ensures WorkerOk(s', w) { assert WorkerOk(s, w); }
      forall r' | r' in s'.script ensures ReactorOk(s', r') { assert ReactorOk(s, r'); }
    } else {
      RefusedInv(s, r);
    }
  }

  /** One more accepted event, in its own reactor's and its own worker's books. */
  lemma AcceptedBooks(s: State, r: nat, s': State, r': nat, w: nat)
    requires Shape(s) && HasNext(s, r) && r' in s.script && w < |s.queues|
    requires s.accepted[r] == s.next[r] && s.accepted[r'] <= |s.script[r']|
    requires Mine(s.enqueued[w], r') == Routed(s.script[r'][..s.accepted[r']], |s.queues|, w)
    requires s' == DoEnqueue(s, r) && !s.queues[Target(s, r)].stopped
    ensures Shape(s') && s'.accepted[r'] <= |s'.script[r']|
    ensures Mine(s'.enqueued[w], r') == Routed(s'.script[r'][..s'.accepted[r']], |s'.queues|, w)
  {
    MineAfter(s.enqueued[w], Job(r, s.script[r][s.next[r]]), r');
    if r' == r { RoutedAfter(s.script[r], s.accepted[r], |s.queues|, w); }
  }

  lemma AcceptedReactor(s: State, r: nat, s': State, r': nat)
    requires Shape(s) && HasNext(s, r) && r' in s.script && ReactorOk(s, r) && ReactorOk(s, r')
    requires s.submitters[r] == Enqueuing && s' == DoEnqueue(s, r) && !s.queues[Target(s, r)].stopped
    ensures Shape(s') && ReactorOk(s', r')
  {
    forall w | 0 <= w < |s.queues|
      ensures Shape(s') && s'.accepted[r'] <= |s'.script[r']| && Mine(s'.enqueued[w], r') == Routed(s'.script[r'][..s'.accepted[r']], |s'.queues|, w)
    {
      AcceptedBooks(s, r, s', r', w);
    }
  }

  lemma AcceptedWorker(s: State, r: nat, s': State, w: nat)
    requires Shape(s) && HasNext(s, r) && w < |s.queues| && WorkerOk(s, w) && !s.queues[Target(s, r)].stopped
    requires s' == DoEnqueue(s, r)
    ensures Shape(s') && WorkerOk(s', w)
  {
    var job := Job(r, s.script[r][s.next[r]]);
    if w == Target(s, r) {
      assert s.delivered[w] + Hand(s.workers[w]) + (s.queues[w].items + [job]) == (s.delivered[w] + Hand(s.workers[w]) + s.queues[w].items) + [job];
    }
  }

  lemma EnqueueInv(s: State, r: nat)
    requires Inv(s) && Enabled(s, Enqueue(r))
    ensures Inv(Next(s, Enqueue(r)))
  {
    assert WorkerOk(s, Target(s, r)) && ReactorOk(s, r);
    if s.queues[Target(s, r)].stopped {
      RefusedInv(s, r);
    } else {
      var s' := DoEnqueue(s, r);
      AcceptedWorker(s, r, s', 0);
      forall w | 0 <= w < |s'.queues| ensures WorkerOk(s', w) { AcceptedWorker(s, r, s', w); }
      forall r' | r' in s'.script ensures ReactorOk(s', r') { AcceptedReactor(s, r, s', r'); }
    }
  }

  // ---- the worker's own steps

  lemma MoveOk(s: State, w: nat, pc: Worker)
    requires Shape(s) && w < |s.queues| && WorkerOk(s, w) && Hand(s.workers[w]) == Hand(pc) == []
    requires pc.Looping? || pc.Waiting? || (!s.running && (pc.Draining? || (pc.Exited? && s.queues[w].items == [])))
    ensures WorkerOk(SetWorker(s, w, pc), w)
  {
  }

  lemma TakeOk(s: State, w: nat, pc: Worker)
    requires Shape(s) && w < |s.queues| && WorkerOk(s, w) && Hand(s.workers[w]) == [] && s.queues[w].items != []
    requires Hand(pc) == [s.queues[w].items[0]] && (pc.DrainCalling? ==> !s.running)
    ensures WorkerOk(Take(s, w, pc), w)
  {
    var items := s.queues[w].items;
    assert s.delivered[w] + [items[0]] + items[1..] == s.delivered[w] + [] + items;
  }

  lemma CallBackOk(s: State, w: nat, job: Job, pc: Worker)
    requires Shape(s) && w < |s.queues| && WorkerOk(s, w) && Hand(s.workers[w]) == [job]
    requires pc.Looping? || (pc.Draining? && !s.running)
    ensures WorkerOk(CallBack(s, w, job, pc), w)
  {
  }

  lemma WakeSelf(s: State, w: nat)
    requires Shape(s) && w < |s.queues| && WorkerOk(s, w)
    ensures var s' := DoWake(s, w); Shape(s') && WorkerOk(s', w)
  {
    var q := s.queues[w];
    match s.workers[w]
    case Looping => MoveOk(s, w, if s.running then Waiting else Draining);
    case Waiting => if q.stopped || q.items == [] { MoveOk(s, w, Looping); } else { TakeOk(s, w, Calling(q.items[0])); }
    case Calling(job) => CallBackOk(s, w, job, Looping);
    case Draining => if q.items == [] { MoveOk(s, w, Exited); } else { TakeOk(s, w, DrainCalling(q.items[0])); }
    case DrainCalling(job) => CallBackOk(s, w, job, Draining);
    case Exited =>
  }

  /** From s to s' only worker w, its queue and its deliveries may differ. */
  ghost predicate OnlyWorker(s: State, s': State, w: nat) {
    && s' == s.(workers := s'.workers, queues := s'.queues, delivered := s'.delivered)
    && |s'.workers| == |s.workers| && |s'.queues| == |s.queues| && |s'.delivered| == |s.delivered|
    && (forall v :: 0 <= v < |s.workers| && v != w ==> s'.workers[v] == s.workers[v])
    && (forall v :: 0 <= v < |s.queues| && v != w ==> s'.queues[v] == s.queues[v])
    && (forall v :: 0 <= v < |s.delivered| && v != w ==> s'.delivered[v] == s.delivered[v])
  }

  lemma PartsAreLocal(s: State, w: nat, pc: Worker, job: Job)
    requires Shape(s) && w < |s.queues|
    ensures OnlyWorker(s, SetWorker(s, w, pc), w) && OnlyWorker(s, CallBack(s, w, job, pc), w)
    ensures s.queues[w].items != [] ==> OnlyWorker(s, Take(s, w, pc), w)
  {
  }

  lemma WakeIsLocal(s: State, w: nat)
    requires Shape(s) && w < |s.queues|
    ensures OnlyWorker(s, DoWake(s, w), w)
  {
    var q := s.queues[w];
    var any := Job(0, Reactor.Event(0, Reactor.Error, 0));
    match s.workers[w]
    case Looping => PartsAreLocal(s, w, if s.running then Waiting else Draining, any);
    case Waiting =>
      if q.stopped || q.items == [] { PartsAreLocal(s, w, Looping, any); } else { PartsAreLocal(s, w, Calling(q.items[0]), any); }
    case Calling(job) => PartsAreLocal(s, w, Looping, job);
    case Draining =>
      if q.items == [] { PartsAreLocal(s, w, Exited, any); } else { PartsAreLocal(s, w, DrainCalling(q.items[0]), any); }
    case DrainCalling(job) => PartsAreLocal(s, w, Draining, job);
    case Exited =>
  }

  lemma OtherOk(s: State, s': State, w: nat, v: nat)
    requires Shape(s) && OnlyWorker(s, s', w) && v < |s.queues| && v != w && WorkerOk(s, v)
    ensures Shape(s') && WorkerOk(s', v)
  {
  }

  lemma WakeInv(s: State, w: nat)
    requires Inv(s) && Enabled(s, Wake(w))
    ensures Inv(Next(s, Wake(w)))
  {
    var s' := DoWake(s, w);
    WakeIsLocal(s, w);
    assert WorkerOk(s, w);
    WakeSelf(s, w);
    forall v | 0 <= v < |s'.queues| ensures WorkerOk(s', v) {
      if v != w { OtherOk(s, s', w, v); }
    }
    forall r | r in s'.script ensures ReactorOk(s', r) { assert ReactorOk(s, r); }
  }

  lemma StopInv(s: State, step: Step)
    requires Inv(s) && Enabled(s, step) && (step.FlipRunning? || step.Notify?)
    ensures Inv(Next(s, step))
  {
    var s' := Next(s, step);
    forall w | 0 <= w < |s'.queues| ensures WorkerOk(s', w) { assert WorkerOk(s, w); }
    forall r | r in s'.script ensures ReactorOk(s', r) { assert ReactorOk(s, r); }
  }

  lemma StepInv(s: State, step: Step)
    requires Inv(s) && Enabled(s, step)
    ensures Inv(Next(s, step))
  {
    match step
    case Test(r) => TestInv(s, r);
    case Enqueue(r) => EnqueueInv(s, r);
    case Wake(w) => WakeInv(s, w);
    case FlipRunning => StopInv(s, step);
    case Notify => StopInv(s, step);
  }

  // ---------------------------------------------------------------- runs

  /** Some steps lead from s to s'. */
  ghost predicate Leads(s: State, steps: seq<Step>, s': State)
    decreases |steps|
  {
    if steps == [] then s' == s
    else Shape(s) && Enabled(s, steps[0]) && Leads(Next(s, steps[0]), steps[1..], s')
  }

  ghost predicate Reachable(n: nat, maxSize: nat, script: map<nat, seq<Event>>, s: State)
    requires n > 0
  {
    exists steps :: Leads(Init(n, maxSize, script), steps, s)
  }

  lemma {:induction false} RunInv(s: State, steps: seq<Step>, s': State)
    requires Inv(s) && Leads(s, steps, s')
    ensures Inv(s') && s'.script == s.script && |s'.queues| == |s.queues|
    decreases |steps|
  {
    if steps != [] {
      StepInv(s, steps[0]);
      StepKeeps(s, steps[0]);
      RunInv(Next(s, steps[0]), steps[1..], s');
    }
  }

  lemma StepKeeps(s: State, step: Step)
    requires Shape(s) && Enabled(s, step)
    ensures Next(s, step).script == s.script && |Next(s, step).queues| == |s.queues|
  {
    if step.Wake? { WakeIsLocal(s, step.w); }
  }

  lemma ReachableInv(n: nat, maxSize: nat, script: map<nat, seq<Event>>, s: State)
    requires n > 0 && Reachable(n, maxSize, script, s)
    ensures Inv(s) && s.script == script && |s.queues| == n
  {
    var steps :| Leads(Init(n, maxSize, script), steps, s);
    InitInv(n, maxSize, script);
    RunInv(Init(n, maxSize, script), steps, s);
  }

  // ---------------------------------------------------------------- prefixes of filters

  lemma {:induction false} MinePrefix(a: seq<Job>, b: seq<Job>, r: nat)
    requires a <= b
    ensures Mine(a, r) <= Mine(b, r)
    decreases |b|
  {
    if |a| < |b| {
      var n := |b| - 1;
      assert a <= b[..n];
      MinePrefix(a, b[..n], r);
    } else {
      assert a == b;
    }
  }

  lemma {:induction false} KindsPrefix(a: seq<Event>, b: seq<Event>, life: nat)
    requires a <= b
    ensures Reactor.KindsOf(a, life) <= Reactor.KindsOf(b, life)
    decreases |b|
  {
    if |a| < |b| {
      assert a <= b[..|b| - 1];
      KindsPrefix(a, b[..|b| - 1], life);
    } else {
      assert a == b;
    }
  }

  /** Routing keeps all events of a life that is routed here, and none of one that is not. */
  lemma {:induction false} KindsRouted(events: seq<Event>, n: nat, w: nat, life: nat, id: nat)
    requires n > 0 && forall k :: 0 <= k < |events| && events[k].life == life ==> events[k].id == id
    ensures Reactor.KindsOf(Routed(events, n, w), life) == if Route(n, id) == w then Reactor.KindsOf(events, life) else []
    decreases |events|
  {
    if events != [] {
      var before, last := events[..|events| - 1], events[|events| - 1];
      KindsRouted(before, n, w, life, id);
      var routed := Routed(before, n, w);
      assert (routed + [last])[..|routed|] == routed;
    }
  }

  // ---------------------------------------------------------------- main results

  /** What a worker has called back for a reactor is, in order, a prefix of what that reactor dispatched for it. */
  lemma CallbacksInOrder(n: nat, maxSize: nat, script: map<nat, seq<Event>>, s: State, r: nat, w: nat)
    requires n > 0 && Reachable(n, maxSize, script, s) && r in script && w < n
    ensures w < |s.delivered| && r in s.accepted && s.accepted[r] <= |script[r]|
    ensures Mine(s.delivered[w], r) <= Routed(script[r][..s.accepted[r]], n, w)
  {
    ReachableInv(n, maxSize, script, s);
    assert WorkerOk(s, w) && ReactorOk(s, r);
    assert s.delivered[w] <= s.enqueued[w];
    MinePrefix(s.delivered[w], s.enqueued[w], r);
  }

  /**
   End to end: whatever the reactor does, and in every interleaving of reactors, workers and Stop, the
   callbacks for one connection incarnation all come from one worker and see a prefix of its story:
   Connected, Data*, optionally Error, then at most one Disconnected, and nothing after.
   */
  lemma CallbacksTellTheStory(n: nat, maxSize: nat, script: map<nat, seq<Event>>, s: State, r: nat, w: nat, rs: Reactor.State, life: nat)
    requires n > 0 && Reachable(n, maxSize, script, s) && r in script && w < n
    requires Reactor.Reachable(rs) && script[r] == rs.dispatched && life in rs.logs
    ensures w < |s.delivered| && var seen := Reactor.KindsOf(Mine(s.delivered[w], r), life);
            && Reactor.Story(seen)
            && seen <= Reactor.KindsOf(rs.dispatched, life)
            && (w != Route(n, rs.logs[life].id) ==> seen == [])
  {
    CallbacksInOrder(n, maxSize, script, s, r, w);
    Reactor.ReachableInv(rs);
    var id := rs.logs[life].id;
    var got := rs.dispatched[..s.accepted[r]];
    LifeHasOneId(rs, life);
    KindsRouted(got, n, w, life, id);
    KindsPrefix(Mine(s.delivered[w], r), Routed(got, n, w), life);
    KindsPrefix(got, rs.dispatched, life);
    Reactor.EveryLifeTellsAStory(rs, life);
    var seen := Reactor.KindsOf(Mine(s.delivered[w], r), life);
    assert seen == Reactor.KindsOf(rs.dispatched, life)[..|seen|];
    Reactor.StoryPrefix(Reactor.KindsOf(rs.dispatched, life), |seen|);
  }

  lemma LifeHasOneId(rs: Reactor.State, life: nat)
    requires Reactor.Named(rs.dispatched, rs.logs) && life in rs.logs
    ensures forall k :: 0 <= k < |rs.dispatched| && rs.dispatched[k].life == life ==> rs.dispatched[k].id == rs.logs[life].id
  {
  }

  /** Every event enqueued before Stop flips is_running_ is called back before its worker exits. */
  lemma StopDeliversTheRest(n: nat, maxSize: nat, script: map<nat, seq<Event>>, s: State, w: nat)
    requires n > 0 && Reachable(n, maxSize, script, s) && w < n && w < |s.workers| && s.workers[w] == Exited
    ensures s.atStop.Some? && w < |s.atStop.value| && w < |s.delivered| && s.atStop.value[w] <= s.delivered[w]
  {
    ReachableInv(n, maxSize, script, s);
    assert WorkerOk(s, w);
  }

  /** No SubmitEvent call is between its is_running_ test and its return. */
  ghost predicate Quiet(s: State) {
    forall r :: r in s.submitters ==> s.submitters[r] == Idle
  }

  lemma {:induction false} QuietStaysQuiet(s: State, steps: seq<Step>, s': State)
    requires Inv(s) && !s.running && Quiet(s) && Leads(s, steps, s')
    ensures s'.enqueued == s.enqueued && s'.atStop == s.atStop
    decreases |steps|
  {
    if steps != [] {
      var next := Next(s, steps[0]);
      StepInv(s, steps[0]);
      if steps[0].Wake? { WakeIsLocal(s, steps[0].w); }
      QuietStaysQuiet(next, steps[1..], s');
    }
  }

  /**
   If no submission is in flight when Stop begins (Server::Stop joins the reactors first), then every
   event whose SubmitEvent returned true has been called back when the workers have exited.
   */
  lemma OrderlyStopLosesNothing(n: nat, maxSize: nat, script: map<nat, seq<Event>>, s: State, steps: seq<Step>, s': State, w: nat)
    requires n > 0 && Reachable(n, maxSize, script, s) && s.running && Quiet(s)
    requires Shape(s) && Leads(Next(s, FlipRunning), steps, s') && w < n && w < |s'.workers| && s'.workers[w] == Exited
    ensures w < |s'.delivered| && w < |s'.enqueued| && s'.delivered[w] == s'.enqueued[w]
  {
    ReachableInv(n, maxSize, script, s);
    var flipped := Next(s, FlipRunning);
    StepInv(s, FlipRunning);
    QuietStaysQuiet(flipped, steps, s');
    RunInv(flipped, steps, s');
    assert WorkerOk(s', w);
  }

  lemma OneStep(s: State, step: Step, s1: State, steps: seq<Step>, s': State)
    requires Shape(s) && Enabled(s, step) && Next(s, step) == s1 && Leads(s1, steps, s')
    ensures Leads(s, [step] + steps, s')
  {
    assert ([step] + steps)[1..] == steps;
  }

  /** One worker, one reactor with one event, in flight while the worker finds the flag cleared and its queue empty. */
  function Missed(e: Event): State {
    State(0, false, Notifying(0), [Queue([], false)], [Exited], map[0 := Enqueuing], map[0 := 0], map[0 := [e]],
          map[0 := 0], [[]], [[]], Some([[]]))
  }

  lemma ReachMissed(e: Event)
    ensures exists steps :: Leads(Init(1, 0, map[0 := [e]]), steps, Missed(e))
  {
    InitOfOne(e);
    FlippedMisses(e);
    var s0, s1, s2 := Init(1, 0, map[0 := [e]]), OneInFlight(e), OneFlipped(e);
    var waking := [Wake(0)] + ([Wake(0)] + []);
    OneStep(s1, FlipRunning, s2, waking, Missed(e));
    OneStep(s0, Test(0), s1, [FlipRunning] + waking, Missed(e));
  }

  function OneInFlight(e: Event): State {
    State(0, true, Running, [Queue([], false)], [Looping], map[0 := Enqueuing], map[0 := 0], map[0 := [e]], map[0 := 0], [[]], [[]], None)
  }

  function OneFlipped(e: Event): State {
    OneInFlight(e).(running := false, stopper := Notifying(0), atStop := Some([[]]))
  }

  lemma InitOfOne(e: Event)
    ensures Init(1, 0, map[0 := [e]]) == OneInFlight(e).(submitters := map[0 := Idle])
  {
    var s0 := Init(1, 0, map[0 := [e]]);
    assert s0.queues == [Queue([], false)] && s0.workers == [Looping] && s0.enqueued == [[]] && s0.delivered == [[]];
    assert s0.submitters == map[0 := Idle] && s0.next == map[0 := 0] && s0.accepted == map[0 := 0];
  }

  lemma FlippedMisses(e: Event)
    ensures Leads(OneFlipped(e), [Wake(0)] + ([Wake(0)] + []), Missed(e))
  {
    var s2, s4 := OneFlipped(e), Missed(e);
    var s3 := s2.(workers := [Draining]);
    assert Leads(s4, [], s4);
    OneStep(s3, Wake(0), s4, [], s4);
    OneStep(s2, Wake(0), s3, [Wake(0)] + [], s4);
  }

  /** Then the event arrives, the queue is stopped, and nobody is left to take it. */
  function Lost(e: Event): State {
    Missed(e).(submitters := map[0 := Idle], next := map[0 := 1], accepted := map[0 := 1],
               queues := [Queue([Job(0, e)], true)], enqueued := [[Job(0, e)]], stopper := Stopped)
  }

  lemma ReachLost(e: Event)
    ensures Leads(Missed(e), [Enqueue(0)] + ([Notify] + []), Lost(e))
  {
    var s4, s6 := Missed(e), Lost(e);
    assert Target(s4, 0) == 0;
    var s5 := DoEnqueue(s4, 0);
    assert s5.submitters == map[0 := Idle] && s5.next == map[0 := 1] && s5.accepted == map[0 := 1];
    var none: seq<Job> := [];
    assert none + [Job(0, e)] == [Job(0, e)];
    assert s5.queues == [Queue([Job(0, e)], false)] && s5.enqueued == [[Job(0, e)]];
    assert s5 == s6.(queues := [Queue([Job(0, e)], false)], stopper := Notifying(0));
    assert Leads(s6, [], s6);
    OneStep(s5, Notify, s6, [], s6);
    OneStep(s4, Enqueue(0), s5, [Notify] + [], s6);
  }

  lemma {:induction false} LeadsOn(s: State, steps: seq<Step>, mid: State, more: seq<Step>, s': State)
    requires Leads(s, steps, mid) && Leads(mid, more, s')
    ensures Leads(s, steps + more, s')
    decreases |steps|
  {
    if steps == [] {
      assert steps + more == more;
    } else {
      assert (steps + more)[1..] == steps[1..] + more;
      LeadsOn(Next(s, steps[0]), steps[1..], mid, more, s');
    }
  }

  /**
   A submission in flight when Stop begins can be lost although SubmitEvent returns true: the worker sees
   the cleared flag, finds its queue empty and exits before the event arrives and before NotifyStop.
   */
  lemma SubmissionInFlightCanBeLost(e: Event)
    ensures exists s :: Reachable(1, 0, map[0 := [e]], s) && s.accepted == map[0 := 1] &&
              s.workers == [Exited] && s.stopper == Stopped && s.delivered == [[]]
  {
    ReachMissed(e);
    ReachLost(e);
    var script := map[0 := [e]];
    var before :| Leads(Init(1, 0, script), before, Missed(e));
    LeadsOn(Init(1, 0, script), before, Missed(e), [Enqueue(0)] + ([Notify] + []), Lost(e));
    assert Reachable(1, 0, script, Lost(e));
  }

  // ---------------------------------------------------------------- when Stop loses nothing

  /** How far a worker is from exiting once the flag is cleared. */
  function Stage(pc: Worker): nat {
    match pc
    case Exited => 0
    case Draining => 1
    case DrainCalling(_) => 2
    case Looping => 2
    case Waiting => 3
    case Calling(_) => 3
  }

  /** A worker whose queue is still open, and which has not exited before taking everything out of it. */
  ghost predicate Leaving(s: State, w: nat)
    requires Shape(s)
  {
    !s.running && w < |s.queues| && !s.queues[w].stopped && (s.workers[w] == Exited ==> s.queues[w].items == [])
  }

  lemma WakeLeaves(s: State, w: nat)
    requires Shape(s) && Leaving(s, w) && s.workers[w] != Exited
    ensures var s' := DoWake(s, w);
            && Shape(s') && Leaving(s', w)
            && 2 * |s'.queues[w].items| + Stage(s'.workers[w]) < 2 * |s.queues[w].items| + Stage(s.workers[w])
  {
  }

  lemma OnlyWorkerTwice(s: State, mid: State, s': State, w: nat)
    requires OnlyWorker(s, mid, w) && OnlyWorker(mid, s', w)
    ensures OnlyWorker(s, s', w)
  {
  }

  /** Such a worker can empty its queue and exit while everybody else stands still. */
  lemma {:induction false} CanExit(s: State, w: nat) returns (steps: seq<Step>, s': State)
    requires Inv(s) && Leaving(s, w)
    ensures Leads(s, steps, s') && Inv(s') && OnlyWorker(s, s', w)
    ensures s'.workers[w] == Exited && s'.queues[w] == Queue([], false)
    decreases 2 * |s.queues[w].items| + Stage(s.workers[w])
  {
    if s.workers[w] == Exited {
      steps, s' := [], s;
    } else {
      var mid := DoWake(s, w);
      StepInv(s, Wake(w));
      WakeLeaves(s, w);
      WakeIsLocal(s, w);
      steps, s' := CanExit(mid, w);
      OnlyWorkerTwice(s, mid, s', w);
      OneStep(s, Wake(w), mid, steps, s');
      steps := [Wake(w)] + steps;
    }
  }

  /** An event accepted into the queue of a worker that has exited is never called back. */
  lemma LateArrival(s: State, r: nat)
    requires Inv(s) && HasNext(s, r) && s.submitters[r] == Enqueuing
    requires s.workers[Target(s, r)] == Exited && s.queues[Target(s, r)] == Queue([], false)
    ensures Enabled(s, Enqueue(r))
    ensures var s', w := Next(s, Enqueue(r)), Target(s, r);
            && Shape(s') && |s'.queues| == |s.queues| && s'.workers[w] == Exited
            && s'.accepted == s.accepted[r := s.accepted[r] + 1] && s'.delivered[w] != s'.enqueued[w]
  {
    var w := Target(s, r);
    assert WorkerOk(s, w);
    assert s.delivered[w] == s.enqueued[w];
  }

  /** In every run from here on, whoever has exited has called back all that entered its queue. */
  ghost predicate LosesNothing(s: State) {
    forall steps, s', w: nat :: Leads(s, steps, s') && Shape(s') && w < |s'.workers| && s'.workers[w] == Exited ==>
      s'.delivered[w] == s'.enqueued[w]
  }

  /** Whatever the pool's size, bound and load, a submission in flight at the flip can be accepted and lost. */
  lemma InFlightCanBeLost(s: State, r: nat)
    requires Inv(s) && s.running && r in s.submitters && s.submitters[r] == Enqueuing
    ensures !LosesNothing(Next(s, FlipRunning))
  {
    var flipped := Next(s, FlipRunning);
    var w := FlipLeaves(s, r);
    var steps, gone := CanExit(flipped, w);
    var lost := LosesIt(flipped, gone, r, w);
    LeadsOn(flipped, steps, gone, [Enqueue(r)] + [], lost);
    Refutes(flipped, steps + ([Enqueue(r)] + []), lost, w);
  }

  lemma Refutes(s: State, steps: seq<Step>, lost: State, w: nat)
    requires Leads(s, steps, lost) && Shape(lost) && w < |lost.workers| && lost.workers[w] == Exited
    requires lost.delivered[w] != lost.enqueued[w]
    ensures !LosesNothing(s)
  {
  }

  /** The worker a submission in flight is bound for, when the flag is cleared. */
  lemma FlipLeaves(s: State, r: nat) returns (w: nat)
    requires Inv(s) && s.running && r in s.submitters && s.submitters[r] == Enqueuing
    ensures var flipped := Next(s, FlipRunning);
            && Inv(flipped) && HasNext(flipped, r) && w == Target(flipped, r) && Leaving(flipped, w)
            && flipped.submitters[r] == Enqueuing
  {
    StepInv(s, FlipRunning);
    assert ReactorOk(s, r);
    w := Target(s, r);
    assert WorkerOk(s, w);
  }

  /** The submission arrives after its worker has gone. */
  lemma LosesIt(s: State, gone: State, r: nat, w: nat) returns (lost: State)
    requires Inv(gone) && Shape(s) && HasNext(s, r) && w == Target(s, r) && s.submitters[r] == Enqueuing && OnlyWorker(s, gone, w)
    requires gone.workers[w] == Exited && gone.queues[w] == Queue([], false)
    ensures Leads(gone, [Enqueue(r)] + [], lost)
    ensures Shape(lost) && w < |lost.workers| && lost.workers[w] == Exited && lost.delivered[w] != lost.enqueued[w]
  {
    assert Target(gone, r) == w;
    LateArrival(gone, r);
    lost := Next(gone, Enqueue(r));
    assert Leads(lost, [], lost);
    OneStep(gone, Enqueue(r), lost, [], lost);
  }

  /**
   Stop loses no accepted event, in any continuation, if and only if no SubmitEvent call is between its
   test of is_running_ and its return when Stop clears the flag.
   */
  lemma StopLosesNothingExactly(n: nat, maxSize: nat, script: map<nat, seq<Event>>, s: State)
    requires n > 0 && Reachable(n, maxSize, script, s) && s.running && Shape(s)
    ensures LosesNothing(Next(s, FlipRunning)) <==> Quiet(s)
  {
    ReachableInv(n, maxSize, script, s);
    var flipped := Next(s, FlipRunning);
    StepInv(s, FlipRunning);
    if Quiet(s) {
      forall steps, s', w: nat | Leads(flipped, steps, s') && Shape(s') && w < |s'.workers| && s'.workers[w] == Exited
        ensures s'.delivered[w] == s'.enqueued[w]
      {
        RunInv(flipped, steps, s');
        OrderlyStopLosesNothing(n, maxSize, script, s, steps, s', w);
      }
    } else {
      var r :| r in s.submitters && s.submitters[r] != Idle;
      InFlightCanBeLost(s, r);
    }
  }

  // ---------------------------------------------------------------- a running worker makes progress

  /** A worker waiting at an open queue that is not empty takes the front job, and calls back that job next. */
  lemma WorkerTakesFront(n: nat, maxSize: nat, script: map<nat, seq<Event>>, s: State, w: nat)
    requires n > 0 && Reachable(n, maxSize, script, s) && w < n && Shape(s) && w < |s.queues|
    requires s.workers[w] == Waiting && !s.queues[w].stopped && s.queues[w].items != []
    ensures var s' := Next(s, Wake(w));
            && Shape(s') && |s'.queues| == |s.queues| && s'.queues[w].items == s.queues[w].items[1..]
            && s'.workers[w] == Calling(s.queues[w].items[0])
            && Next(s', Wake(w)).delivered[w] == s.delivered[w] + [s.queues[w].items[0]]
  {
  }

  /** How far a worker of a running pool is from having called back all it was given. */
  function Distance(pc: Worker, queued: nat): nat {
    3 * queued + match pc { case Waiting => 0 case Looping => 1 case _ => 2 }
  }

  ghost predicate OnlyWakes(steps: seq<Step>, w: nat) {
    forall i :: 0 <= i < |steps| ==> steps[i] == Wake(w)
  }

  /** In a running pool a worker is in its main loop and its queue is open. */
  ghost predicate AtWork(s: State, w: nat)
    requires Shape(s)
  {
    s.running && w < |s.queues| && !s.queues[w].stopped && (s.workers[w].Looping? || s.workers[w].Waiting? || s.workers[w].Calling?)
  }

  lemma WakeAtWork(s: State, w: nat)
    requires Shape(s) && AtWork(s, w) && (s.workers[w] != Waiting || s.queues[w].items != [])
    ensures var s' := DoWake(s, w);
            && Shape(s') && AtWork(s', w)
            && Distance(s'.workers[w], |s'.queues[w].items|) < Distance(s.workers[w], |s.queues[w].items|)
  {
  }

  lemma {:induction false} WorksOff(s: State, w: nat) returns (steps: seq<Step>, s': State)
    requires Inv(s) && AtWork(s, w)
    ensures Leads(s, steps, s') && OnlyWakes(steps, w) && Inv(s') && s'.running && OnlyWorker(s, s', w)
    ensures s'.delivered[w] == s'.enqueued[w] == s.enqueued[w]
    decreases Distance(s.workers[w], |s.queues[w].items|)
  {
    if s.workers[w] == Waiting && s.queues[w].items == [] {
      steps, s' := [], s;
      assert WorkerOk(s, w);
    } else {
      var mid := DoWake(s, w);
      StepInv(s, Wake(w));
      WakeAtWork(s, w);
      WakeIsLocal(s, w);
      steps, s' := WorksOff(mid, w);
      OnlyWorkerTwice(s, mid, s', w);
      OneStep(s, Wake(w), mid, steps, s');
      steps := [Wake(w)] + steps;
    }
  }

  /**
   A running pool needs no Stop to call back: from every reachable running state a worker's own steps alone
   lead to where all that entered its queue has been called back, with the pool still running.
   */
  lemma RunningWorkerDelivers(n: nat, maxSize: nat, script: map<nat, seq<Event>>, s: State, w: nat) returns (steps: seq<Step>, s': State)
    requires n > 0 && Reachable(n, maxSize, script, s) && s.running && w < n
    ensures Leads(s, steps, s') && OnlyWakes(steps, w) && s'.running
    ensures w < |s'.delivered| && w < |s'.enqueued| && w < |s.enqueued| && s'.delivered[w] == s'.enqueued[w] == s.enqueued[w]
  {
    ReachableInv(n, maxSize, script, s);
    assert WorkerOk(s, w);
    steps, s' := WorksOff(s, w);
  }

  // ---------------------------------------------------------------- stopping unblocks everybody

  /** NotifyStop has reached the first queues, in order. */
  ghost predicate Notified(s: State)
    requires Shape(s)
  {
    match s.stopper
    case Running => true
    case Notifying(k) => k < |s.queues| && forall w :: 0 <= w < k ==> s.queues[w].stopped
    case Stopped => forall w :: 0 <= w < |s.queues| ==> s.queues[w].stopped
  }

  lemma StepNotified(s: State, step: Step)
    requires Shape(s) && Notified(s) && Enabled(s, step)
    ensures Shape(Next(s, step)) && Notified(Next(s, step))
  {
    if step.Wake? { WakeNotified(s, step.w); } else { OtherNotified(s, step); }
  }

  lemma OtherNotified(s: State, step: Step)
    requires Shape(s) && Notified(s) && Enabled(s, step) && !step.Wake?
    ensures Shape(Next(s, step)) && Notified(Next(s, step))
  {
  }

  lemma WakeNotified(s: State, w: nat)
    requires Shape(s) && Notified(s) && w < |s.queues|
    ensures Shape(DoWake(s, w)) && Notified(DoWake(s, w))
  {
    WakeIsLocal(s, w);
    WakeKeepsStop(s, w);
  }

  lemma WakeKeepsStop(s: State, w: nat)
    requires Shape(s) && w < |s.queues|
    ensures Shape(DoWake(s, w)) && DoWake(s, w).queues[w].stopped == s.queues[w].stopped
  {
    var q, any := s.queues[w], Job(0, Reactor.Event(0, Reactor.Error, 0));
    match s.workers[w]
    case Looping => KeepsStop(s, w, if s.running then Waiting else Draining, any);
    case Waiting => KeepsStop(s, w, if q.stopped || q.items == [] then Looping else Calling(q.items[0]), any);
    case Calling(job) => KeepsStop(s, w, Looping, job);
    case Draining => KeepsStop(s, w, if q.items == [] then Exited else DrainCalling(q.items[0]), any);
    case DrainCalling(job) => KeepsStop(s, w, Draining, job);
    case Exited =>
  }

  lemma KeepsStop(s: State, w: nat, pc: Worker, job: Job)
    requires Shape(s) && w < |s.queues|
    ensures Shape(SetWorker(s, w, pc)) && SetWorker(s, w, pc).queues == s.queues
    ensures Shape(CallBack(s, w, job, pc)) && CallBack(s, w, job, pc).queues == s.queues
    ensures s.queues[w].items != [] ==> Shape(Take(s, w, pc)) && Take(s, w, pc).queues[w] == s.queues[w].(items := s.queues[w].items[1..])
  {
  }

  lemma {:induction false} RunNotified(s: State, steps: seq<Step>, s': State)
    requires Shape(s) && Notified(s) && Leads(s, steps, s')
    ensures Shape(s') && Notified(s')
    decreases |steps|
  {
    if steps != [] {
      StepNotified(s, steps[0]);
      RunNotified(Next(s, steps[0]), steps[1..], s');
    }
  }

  /** Once Stop has notified every queue, no submission blocks: each that is in flight returns false at once. */
  lemma StopUnblocks(n: nat, maxSize: nat, script: map<nat, seq<Event>>, s: State, r: nat)
    requires n > 0 && Reachable(n, maxSize, script, s) && s.stopper == Stopped && r in s.submitters && s.submitters[r] == Enqueuing
    ensures Shape(s) && HasNext(s, r) && Enabled(s, Enqueue(r))
    ensures var s' := Next(s, Enqueue(r)); s'.submitters[r] == Idle && s'.accepted == s.accepted && s'.next == s.next[r := s.next[r] + 1]
  {
    ReachableInv(n, maxSize, script, s);
    assert ReactorOk(s, r);
    var steps :| Leads(Init(n, maxSize, script), steps, s);
    InitInv(n, maxSize, script);
    RunNotified(Init(n, maxSize, script), steps, s);
  }

  /** The router is the remainder of the id by the number of workers. */
  lemma {:induction false} RouteIsRemainder(n: nat, id: nat)
    requires n > 0
    ensures exists k: nat :: id == k * n + Route(n, id)
    ensures Route(n, id) == id % n
    decreases id
  {
    if id < n {
      assert id == 0 * n + Route(n, id);
      SmallRemainder(id, n);
    } else {
      RouteIsRemainder(n, id - n);
      var k: nat :| id - n == k * n + Route(n, id - n);
      assert id == (k + 1) * n + Route(n, id);
      RemainderUnique(id, n, k + 1, Route(n, id));
    }
  }

  lemma SmallRemainder(id: nat, n: nat)
    requires id < n
    ensures id % n == id
  {
    RemainderUnique(id, n, 0, id);
  }

  lemma RemainderUnique(a: nat, n: nat, k: nat, r: nat)
    requires n > 0 && a == k * n + r && r < n
    ensures a % n == r
  {
    var q := a / n;
    assert a == q * n + a % n;
    FurtherMultiple(n, q, k);
    FurtherMultiple(n, k, q);
  }

  lemma FurtherMultiple(n: nat, a: nat, b: nat)
    requires n > 0
    ensures a < b ==> a * n + n <= b * n
  {
    if a < b {
      TimesSum(n, a, b - a);
      TimesPositive(n, b - a);
    }
  }

  lemma TimesSum(n: int, a: int, b: int)
    ensures (a + b) * n == a * n + b * n
  {
  }

  lemma TimesPositive(n: int, m: int)
    requires n > 0 && m > 0
    ensures m * n >= n
  {
  }

  // ---------------------------------------------------------------- bounded queues

  ghost predicate Bounded(s: State) {
    s.maxSize > 0 ==> forall w :: 0 <= w < |s.queues| ==> |s.queues[w].items| <= s.maxSize
  }

  lemma StepBounded(s: State, step: Step)
    requires Shape(s) && Bounded(s) && Enabled(s, step)
    ensures Bounded(Next(s, step)) && Next(s, step).maxSize == s.maxSize
  {
    if step.Wake? {
      WakeIsLocal(s, step.w);
      WakeTakesOnly(s, step.w);
    }
  }

  lemma WakeTakesOnly(s: State, w: nat)
    requires Shape(s) && w < |s.queues|
    ensures Shape(DoWake(s, w)) && |DoWake(s, w).queues[w].items| <= |s.queues[w].items|
  {
    var q, any := s.queues[w], Job(0, Reactor.Event(0, Reactor.Error, 0));
    match s.workers[w]
    case Looping => KeepsStop(s, w, if s.running then Waiting else Draining, any);
    case Waiting => KeepsStop(s, w, if q.stopped || q.items == [] then Looping else Calling(q.items[0]), any);
    case Calling(job) => KeepsStop(s, w, Looping, job);
    case Draining => KeepsStop(s, w, if q.items == [] then Exited else DrainCalling(q.items[0]), any);
    case DrainCalling(job) => KeepsStop(s, w, Draining, job);
    case Exited =>
  }

  lemma {:induction false} RunBounded(s: State, steps: seq<Step>, s': State)
    requires Inv(s) && Bounded(s) && Leads(s, steps, s')
    ensures Bounded(s') && s'.maxSize == s.maxSize
    decreases |steps|
  {
    if steps != [] {
      StepInv(s, steps[0]);
      StepBounded(s, steps[0]);
      RunBounded(Next(s, steps[0]), steps[1..], s');
    }
  }

  /** With a bound, no queue ever holds more events than it allows. */
  lemma QueuesStayBounded(n: nat, maxSize: nat, script: map<nat, seq<Event>>, s: State, w: nat)
    requires n > 0 && Reachable(n, maxSize, script, s) && maxSize > 0 && w < n
    ensures w < |s.queues| && |s.queues[w].items| <= maxSize
  {
    ReachableInv(n, maxSize, script, s);
    var steps :| Leads(Init(n, maxSize, script), steps, s);
    InitInv(n, maxSize, script);
    RunBounded(Init(n, maxSize, script), steps, s);
  }
}
