/**
 The federated search of agent/agent.go: one goroutine per Service, a counting semaphore, a
 one-slot channel per result, and a collector that drains the channels in directory order.

 The goroutines are a transition system. An `Action` is one step of one goroutine, of the
 collector, or of the caller's context; a schedule is any sequence of enabled actions, so a
 statement about every schedule is a statement about every interleaving. Where Go's `select`
 has several ready cases, each of them is an enabled action.
 */
module FederatedSearch {
  import opened Wrappers

  // ----- State -----

  datatype Event = Offering(service: nat, name: string) | Issue(service: nat, reason: string)

  /** The single event a worker reports when its context ends before it gets a slot. */
  function ContextIssue(service: nat): Event {
    Issue(service, "context ended")
  }

  datatype Worker =
    | Unspawned
    | Choosing                                  // in the first select
    | Searching                                 // holds a slot, searchService is running
    | Sending(events: seq<Event>, slot: bool)   // in the second select
    | Exiting(slot: bool)                       // the deferred release has not run yet
    | Ended

  datatype Ending = Drained | Stopped | Cancelled

  datatype Collector =
    | Spawning(next: nat)                       // in the loop that starts the goroutines
    | Waiting(next: nat)                        // in the select on result `next`
    | Yielding(next: nat, rest: seq<Event>)     // handing block `next` to the consumer
    | Leaving(how: Ending, next: nat, rest: seq<Event>)  // returning, deferred cancel pending
    | Left(how: Ending, next: nat, rest: seq<Event>)

  /** One call of the consumer. */
  datatype Yield = Found(event: Event) | ContextError

  datatype State = State(
    workers: seq<Worker>,
    channels: seq<Option<seq<Event>>>,  // results[index], capacity one
    held: nat,                          // tokens in the semaphore channel
    callerDone: bool,                   // ctx is done
    workCancelled: bool,                // cancel() has been called
    collector: Collector,
    out: seq<Yield>,                    // every call of the consumer, in order
    refused: bool,                      // the consumer has returned false
    found: seq<Option<seq<Event>>>,     // history: what searchService returned
    put: seq<Option<seq<Event>>>        // history: what was put in each channel
  )

  datatype Config = Config(services: nat, concurrency: nat)

  datatype Action =
    | Spawn
    | Acquire(worker: nat)
    | Abandon(worker: nat)
    | Finish(worker: nat, events: seq<Event>)
    | Send(worker: nat)
    | Drop(worker: nat)
    | Release(worker: nat)
    | Receive
    | SeeCancellation
    | Deliver(more: bool)
    | NextService
    | Drain
    | CancelWork
    | CallerCancels

  function Init(config: Config): State {
    State(seq(config.services, i => Unspawned), seq(config.services, i => None), 0, false, false,
          Spawning(0), [], false, seq(config.services, i => None), seq(config.services, i => None))
  }

  predicate WorkDone(s: State) {
    s.callerDone || s.workCancelled
  }

  predicate HoldsSlot(w: Worker) {
    w.Searching? || (w.Sending? && w.slot) || (w.Exiting? && w.slot)
  }

  // ----- Steps -----

  predicate Shaped(config: Config, s: State) {
    |s.workers| == |s.channels| == |s.found| == |s.put| == config.services
  }

  predicate Enabled(config: Config, s: State, a: Action)
    requires Shaped(config, s)
  {
    match a
    case Spawn => s.collector.Spawning?
    case Acquire(i) => i < config.services && s.workers[i].Choosing? && s.held < config.concurrency
    case Abandon(i) => i < config.services && s.workers[i].Choosing? && WorkDone(s)
    case Finish(i, _) => i < config.services && s.workers[i].Searching?
    case Send(i) => i < config.services && s.workers[i].Sending? && s.channels[i].None?
    case Drop(i) => i < config.services && s.workers[i].Sending? && WorkDone(s)
    case Release(i) => i < config.services && s.workers[i].Exiting? && (s.workers[i].slot ==> 0 < s.held)
    case Receive => s.collector.Waiting? && s.collector.next < config.services && s.channels[s.collector.next].Some?
    case SeeCancellation => s.collector.Waiting? && s.collector.next < config.services && s.callerDone
    case Deliver(_) => s.collector.Yielding? && s.collector.rest != []
    case NextService => s.collector.Yielding? && s.collector.rest == []
    case Drain => s.collector.Waiting? && config.services <= s.collector.next
    case CancelWork => s.collector.Leaving?
    case CallerCancels => !s.callerDone
  }

  function Step(config: Config, s: State, a: Action): (s': State)
    requires Shaped(config, s) && Enabled(config, s, a)
  {
    match a
    case Spawn =>
      var k := s.collector.next;
      if k < config.services
      then s.(workers := s.workers[k := Choosing], collector := Spawning(k + 1))
      else s.(collector := Waiting(0))
    case Acquire(i) => s.(workers := s.workers[i := Searching], held := s.held + 1)
    case Abandon(i) => s.(workers := s.workers[i := Sending([ContextIssue(i)], false)])
    case Finish(i, events) =>
      s.(workers := s.workers[i := Sending(events, true)], found := s.found[i := Some(events)])
    case Send(i) =>
      var block := Some(s.workers[i].events);
      s.(workers := s.workers[i := Exiting(s.workers[i].slot)],
         channels := s.channels[i := block], put := s.put[i := block])
    case Drop(i) => s.(workers := s.workers[i := Exiting(s.workers[i].slot)])
    case Release(i) =>
      s.(workers := s.workers[i := Ended], held := if s.workers[i].slot then s.held - 1 else s.held)
    case Receive =>
      var k := s.collector.next;
      s.(channels := s.channels[k := None], collector := Yielding(k, s.channels[k].value))
    case SeeCancellation =>
      s.(out := s.out + [ContextError], collector := Leaving(Cancelled, s.collector.next, []))
    case Deliver(more) =>
      var k, rest := s.collector.next, s.collector.rest;
      s.(out := s.out + [Found(rest[0])], refused := !more,
         collector := if more then Yielding(k, rest[1..]) else Leaving(Stopped, k, rest[1..]))
    case NextService => s.(collector := Waiting(s.collector.next + 1))
    case Drain => s.(collector := Leaving(Drained, s.collector.next, []))
    case CancelWork =>
      s.(workCancelled := true, collector := Left(s.collector.how, s.collector.next, s.collector.rest))
    case CallerCancels => s.(callerDone := true)
  }

  /** The schedule can be carried out from the initial state and ends in `s`. */
  ghost predicate Reaches(config: Config, schedule: seq<Action>, s: State)
    decreases |schedule|
  {
    if schedule == [] then s == Init(config)
    else
      var n := |schedule| - 1;
      exists before: State ::
        && Reaches(config, schedule[..n], before)
        && Shaped(config, before)
        && Enabled(config, before, schedule[n])
        && s == Step(config, before, schedule[n])
  }

  // ----- What the consumer should see -----

  function Flatten(blocks: seq<seq<Event>>): seq<Event> {
    if blocks == [] then [] else Flatten(blocks[..|blocks| - 1]) + blocks[|blocks| - 1]
  }

  function AsYields(events: seq<Event>): seq<Yield> {
    seq(|events|, i requires 0 <= i < |events| => Found(events[i]))
  }

  /** What the first `k` Services put in their channels. */
  function Blocks(put: seq<Option<seq<Event>>>, k: nat): (r: seq<seq<Event>>)
    requires k <= |put|
  {
    seq(k, i requires 0 <= i < k => if put[i].Some? then put[i].value else [])
  }

  function Holders(workers: seq<Worker>): set<nat> {
    set i: nat | i < |workers| && HoldsSlot(workers[i])
  }

  // ----- The invariant of every interleaving -----

  /** Results `0..Received(s)` have been taken from their channels. */
  function Received(s: State): nat {
    match s.collector
    case Spawning(_) => 0
    case Waiting(k) => k
    case Yielding(k, _) => k + 1
    case Leaving(how, k, _) => if how.Stopped? then k + 1 else k
    case Left(how, k, _) => if how.Stopped? then k + 1 else k
  }

  /** Events received from a channel and not yet handed to the consumer. */
  function Undelivered(s: State): seq<Event> {
    if s.collector.Spawning? || s.collector.Waiting? then [] else s.collector.rest
  }

  predicate CollectorOk(config: Config, s: State) {
    && Received(s) <= config.services
    && (s.collector.Spawning? ==> s.collector.next <= config.services)
    && (s.workCancelled <==> s.collector.Left?)
    && (Returning(s) ==>
          && (s.collector.how.Drained? ==> s.collector.next == config.services && s.collector.rest == [])
          && (s.collector.how.Cancelled? ==> s.callerDone && s.collector.rest == []))
    && (s.refused <==> Returning(s) && s.collector.how.Stopped?)
  }

  predicate Returning(s: State) {
    s.collector.Leaving? || s.collector.Left?
  }

  /** What one worker's part of the invariant reads. */
  datatype View = View(worker: Worker, channel: Option<seq<Event>>, found: Option<seq<Event>>,
                       put: Option<seq<Event>>, spawned: bool, received: bool,
                       callerDone: bool, workDone: bool)

  function ViewOf(config: Config, s: State, i: nat): View
    requires Shaped(config, s) && i < config.services
  {
    View(s.workers[i], s.channels[i], s.found[i], s.put[i],
         s.collector.Spawning? ==> i < s.collector.next, i < Received(s), s.callerDone, WorkDone(s))
  }

  predicate ViewOk(i: nat, v: View) {
    && (v.worker.Unspawned? <==> !v.spawned)
    && (v.worker.Sending? && v.worker.slot ==> v.found == Some(v.worker.events))
    && (v.worker.Sending? && !v.worker.slot ==>
          v.found.None? && v.worker.events == [ContextIssue(i)] && v.workDone)
    && (v.worker.Unspawned? || v.worker.Choosing? || v.worker.Searching? ==> v.found.None?)
    && (v.put.Some? ==> v.worker.Exiting? || v.worker.Ended?)
    && (v.worker.Exiting? || v.worker.Ended? ==> v.put.Some? || v.workDone)
    && (v.put.Some? ==> v.put == v.found || (v.found.None? && v.put.value == [ContextIssue(i)] && v.workDone))
    && (v.received ==> v.put.Some? && v.channel.None?)
    && (!v.received ==> v.channel == v.put)
    && (v.received && !v.callerDone ==> v.put == v.found)
  }

  predicate WorkerOk(config: Config, s: State, i: nat)
    requires Shaped(config, s) && i < config.services
  {
    ViewOk(i, ViewOf(config, s, i))
  }

  predicate OutputOk(config: Config, s: State)
    requires Shaped(config, s)
    requires Received(s) <= config.services
  {
    var blocks := Flatten(Blocks(s.put, Received(s)));
    if Returning(s) && s.collector.how.Cancelled?
    then s.out == AsYields(blocks) + [ContextError]
    else s.out + AsYields(Undelivered(s)) == AsYields(blocks)
  }

  predicate Inv(config: Config, s: State) {
    && Shaped(config, s)
    && CollectorOk(config, s)
    && (forall i :: 0 <= i < config.services ==> WorkerOk(config, s, i))
    && s.held == |Holders(s.workers)| <= config.concurrency
    && OutputOk(config, s)
  }

  lemma HoldersAfter(workers: seq<Worker>, i: nat, w: Worker)
    requires i < |workers|
    ensures Holders(workers[i := w]) == if HoldsSlot(w) then Holders(workers) + {i} else Holders(workers) - {i}
    ensures |Holders(workers[i := w])| ==
            |Holders(workers)| - (if HoldsSlot(workers[i]) then 1 else 0) + (if HoldsSlot(w) then 1 else 0)
  {
    var before, after := Holders(workers), Holders(workers[i := w]);
    assert after == if HoldsSlot(w) then before + {i} else before - {i};
  }

  lemma FlattenNext(put: seq<Option<seq<Event>>>, k: nat)
    requires k < |put|
    ensures Flatten(Blocks(put, k + 1)) ==
            Flatten(Blocks(put, k)) + (if put[k].Some? then put[k].value else [])
  {
    assert Blocks(put, k + 1)[..k] == Blocks(put, k);
  }

  lemma AsYieldsAppend(a: seq<Event>, b: seq<Event>)
    ensures AsYields(a + b) == AsYields(a) + AsYields(b)
  {
  }

  lemma InitInv(config: Config)
    ensures Inv(config, Init(config))
  {
    var s := Init(config);
    assert Holders(s.workers) == {};
    assert Blocks(s.put, 0) == [];
  }

  lemma CollectorStep(config: Config, s: State, a: Action)
    requires Shaped(config, s) && CollectorOk(config, s) && Enabled(config, s, a)
    ensures Shaped(config, Step(config, s, a)) && CollectorOk(config, Step(config, s, a))
  {
  }

  predicate OfWorker(a: Action) {
    a.Acquire? || a.Abandon? || a.Finish? || a.Send? || a.Drop? || a.Release?
  }

  lemma WorkerAfterOwnStep(config: Config, s: State, a: Action)
    requires Shaped(config, s) && CollectorOk(config, s) && Enabled(config, s, a) && OfWorker(a)
    requires WorkerOk(config, s, a.worker)
    ensures Shaped(config, Step(config, s, a)) && WorkerOk(config, Step(config, s, a), a.worker)
  {
  }

  lemma WorkerAfterOtherWorker(config: Config, s: State, a: Action, i: nat)
    requires Shaped(config, s) && Enabled(config, s, a) && OfWorker(a)
    requires i < config.services && i != a.worker
    ensures Shaped(config, Step(config, s, a)) && ViewOf(config, Step(config, s, a), i) == ViewOf(config, s, i)
  {
  }

  lemma WorkerAfterOtherStep(config: Config, s: State, a: Action, i: nat)
    requires Shaped(config, s) && CollectorOk(config, s) && Enabled(config, s, a) && !OfWorker(a)
    requires i < config.services && WorkerOk(config, s, i)
    ensures Shaped(config, Step(config, s, a)) && WorkerOk(config, Step(config, s, a), i)
  {
  }

  lemma WorkersStep(config: Config, s: State, a: Action)
    requires Inv(config, s) && Enabled(config, s, a)
    ensures Shaped(config, Step(config, s, a))
    ensures forall i :: 0 <= i < config.services ==> WorkerOk(config, Step(config, s, a), i)
  {
    forall i: nat | i < config.services
      ensures Shaped(config, Step(config, s, a)) && WorkerOk(config, Step(config, s, a), i)
    {
      assert WorkerOk(config, s, i);
      if OfWorker(a) && i == a.worker {
        WorkerAfterOwnStep(config, s, a);
      } else if OfWorker(a) {
        WorkerAfterOtherWorker(config, s, a, i);
      } else {
        WorkerAfterOtherStep(config, s, a, i);
      }
    }
  }

  lemma SlotsStep(config: Config, s: State, a: Action)
    requires Inv(config, s) && Enabled(config, s, a)
    ensures var s' := Step(config, s, a); s'.held == |Holders(s'.workers)| <= config.concurrency
  {
    var s' := Step(config, s, a);
    if OfWorker(a) {
      HoldersAfter(s.workers, a.worker, s'.workers[a.worker]);
    } else if a.Spawn? && s.collector.next < config.services {
      assert WorkerOk(config, s, s.collector.next);
      HoldersAfter(s.workers, s.collector.next, Choosing);
    }
  }

  lemma ReceiveOutput(config: Config, s: State)
    requires Inv(config, s) && Enabled(config, s, Receive)
    ensures Received(s) < config.services && OutputOk(config, Step(config, s, Receive))
  {
    var k := s.collector.next;
    assert WorkerOk(config, s, k);
    FlattenNext(s.put, k);
    AsYieldsAppend(Flatten(Blocks(s.put, k)), s.put[k].value);
  }

  lemma DeliverOne(out: seq<Yield>, rest: seq<Event>)
    requires rest != []
    ensures (out + [Found(rest[0])]) + AsYields(rest[1..]) == out + AsYields(rest)
  {
  }

  lemma DeliverOutput(config: Config, s: State, more: bool)
    requires Inv(config, s) && Enabled(config, s, Deliver(more))
    ensures OutputOk(config, Step(config, s, Deliver(more)))
  {
    DeliverOne(s.out, s.collector.rest);
  }

  lemma SendOutput(config: Config, s: State, i: nat)
    requires Inv(config, s) && Enabled(config, s, Send(i))
    ensures OutputOk(config, Step(config, s, Send(i)))
  {
    assert WorkerOk(config, s, i);
    assert Blocks(Step(config, s, Send(i)).put, Received(s)) == Blocks(s.put, Received(s));
  }

  lemma OutputStep(config: Config, s: State, a: Action)
    requires Inv(config, s) && Enabled(config, s, a)
    ensures var s' := Step(config, s, a);
            Shaped(config, s') && Received(s') <= config.services && OutputOk(config, s')
  {
    CollectorStep(config, s, a);
    if a.Receive? {
      ReceiveOutput(config, s);
    } else if a.Deliver? {
      DeliverOutput(config, s, a.more);
    } else if a.Send? {
      SendOutput(config, s, a.worker);
    }
  }

  lemma StepInv(config: Config, s: State, a: Action)
    requires Inv(config, s) && Enabled(config, s, a)
    ensures Inv(config, Step(config, s, a))
  {
    CollectorStep(config, s, a);
    WorkersStep(config, s, a);
    SlotsStep(config, s, a);
    OutputStep(config, s, a);
  }

  lemma {:induction false} ReachableInv(config: Config, schedule: seq<Action>, s: State)
    requires Reaches(config, schedule, s)
    ensures Inv(config, s)
    decreases |schedule|
  {
    if schedule == [] {
      InitInv(config);
    } else {
      var n := |schedule| - 1;
      var before :| Reaches(config, schedule[..n], before) && Shaped(config, before)
                    && Enabled(config, before, schedule[n]) && s == Step(config, before, schedule[n]);
      ReachableInv(config, schedule[..n], before);
      StepInv(config, before, schedule[n]);
    }
  }

  // ----- Safety of every schedule -----

  /** The events handed to the consumer, without the final context error. */
  function Delivered(out: seq<Yield>): seq<Yield> {
    if out != [] && out[|out| - 1].ContextError? then out[..|out| - 1] else out
  }

  /**
   Whatever the interleaving, the consumer sees a prefix of the blocks that the workers put in
   their own channels, Service by Service in directory order. The loop ends as drained only with
   the whole of every block delivered, and with a context error only when the caller's context
   is done.
   */
  lemma OutputIsInDirectoryOrder(config: Config, schedule: seq<Action>, s: State)
    requires Reaches(config, schedule, s)
    ensures Shaped(config, s) && Received(s) <= config.services
    ensures forall i :: 0 <= i < Received(s) ==> s.put[i].Some?
    ensures Delivered(s.out) <= AsYields(Flatten(Blocks(s.put, Received(s))))
    ensures s.collector.Left? && s.collector.how.Drained? ==>
              Received(s) == config.services && s.out == AsYields(Flatten(Blocks(s.put, config.services)))
    ensures ContextError in s.out <==>
              Returning(s) && s.collector.how.Cancelled?
    ensures ContextError in s.out ==> s.callerDone
  {
    ReachableInv(config, schedule, s);
    forall i | 0 <= i < Received(s) ensures s.put[i].Some? {
      assert WorkerOk(config, s, i);
    }
    var blocks := AsYields(Flatten(Blocks(s.put, Received(s))));
    if ContextError !in s.out && s.out != [] {
      assert s.out[|s.out| - 1] in s.out;
    }
    if !(Returning(s) && s.collector.how.Cancelled?) {
      forall i | 0 <= i < |s.out| ensures s.out[i] != ContextError {
        assert s.out[i] == (s.out + AsYields(Undelivered(s)))[i];
      }
    }
  }

  /** A worker puts in its channel what searchService returned, or the context issue in its place. */
  lemma BlocksAreSearchResults(config: Config, schedule: seq<Action>, s: State, i: nat)
    requires Reaches(config, schedule, s)
    requires i < config.services
    ensures Shaped(config, s)
    ensures s.put[i].Some? && s.put[i] != s.found[i] ==>
              WorkDone(s) && s.found[i].None? && s.put[i].value == [ContextIssue(i)]
    ensures i < Received(s) && !s.callerDone ==> s.put[i].Some? && s.put[i] == s.found[i]
  {
    ReachableInv(config, schedule, s);
    assert WorkerOk(config, s, i);
  }

  /** At no time do more than `concurrency` workers hold a slot. */
  lemma SlotBound(config: Config, schedule: seq<Action>, s: State)
    requires Reaches(config, schedule, s)
    ensures Shaped(config, s) && |Holders(s.workers)| == s.held <= config.concurrency
  {
    ReachableInv(config, schedule, s);
  }

  /** Once the consumer has refused an event, or the loop is returning, it is not called again. */
  lemma NoCallAfterReturn(config: Config, schedule: seq<Action>, s: State, a: Action)
    requires Reaches(config, schedule, s)
    requires Shaped(config, s) && Enabled(config, s, a)
    requires s.refused || Returning(s)
    ensures Step(config, s, a).out == s.out
    ensures s.refused ==> Step(config, s, a).refused
  {
    ReachableInv(config, schedule, s);
  }

  // ----- The output does not depend on the schedule -----

  /** Every searchService call of the schedule returns the Service's own answer. */
  predicate Answers(schedule: seq<Action>, answers: seq<seq<Event>>) {
    forall k :: 0 <= k < |schedule| && schedule[k].Finish? && schedule[k].worker < |answers| ==>
      schedule[k].events == answers[schedule[k].worker]
  }

  lemma FoundAfter(config: Config, s: State, a: Action)
    requires Shaped(config, s) && Enabled(config, s, a)
    ensures Shaped(config, Step(config, s, a))
    ensures Step(config, s, a).found == if a.Finish? then s.found[a.worker := Some(a.events)] else s.found
  {
  }

  lemma {:induction false} FoundIsAnswer(config: Config, schedule: seq<Action>, s: State, answers: seq<seq<Event>>)
    requires Reaches(config, schedule, s)
    requires |answers| == config.services && Answers(schedule, answers)
    ensures Shaped(config, s)
    ensures forall i :: 0 <= i < config.services && s.found[i].Some? ==> s.found[i].value == answers[i]
    decreases |schedule|
  {
    if schedule != [] {
      var n := |schedule| - 1;
      var before :| Reaches(config, schedule[..n], before) && Shaped(config, before)
                    && Enabled(config, before, schedule[n]) && s == Step(config, before, schedule[n]);
      FoundIsAnswer(config, schedule[..n], before, answers);
      FoundAfter(config, before, schedule[n]);
    }
  }

  /**
   With no cancellation and a consumer that never stops, every schedule, with any number of slots,
   hands over the concatenation of the Services' answers in directory order.
   */
  lemma DrainedOutput(config: Config, schedule: seq<Action>, s: State, answers: seq<seq<Event>>)
    requires Reaches(config, schedule, s)
    requires |answers| == config.services && Answers(schedule, answers)
    requires !s.callerDone && s.collector.Left? && !s.refused
    ensures s.out == AsYields(Flatten(answers))
  {
    ReachableInv(config, schedule, s);
    FoundIsAnswer(config, schedule, s, answers);
    forall i | 0 <= i < config.services
      ensures s.put[i] == Some(answers[i])
    {
      assert WorkerOk(config, s, i);
    }
    assert Blocks(s.put, config.services) == answers;
  }

  // ----- Progress -----

  /** The loop has returned, every goroutine has ended and every slot is free. */
  predicate Finished(s: State) {
    s.collector.Left? && s.held == 0 && forall w :: w in s.workers ==> w.Ended?
  }

  lemma EndedHoldNothing(workers: seq<Worker>)
    ensures (forall w :: w in workers ==> w.Ended?) ==> Holders(workers) == {}
  {
    if forall w :: w in workers ==> w.Ended? {
      forall i: nat | i < |workers| ensures i !in Holders(workers) {
        assert workers[i] in workers;
      }
    }
  }

  lemma WorkerCanMove(config: Config, s: State, i: nat) returns (a: Action)
    requires Inv(config, s) && 0 < config.concurrency
    requires i < config.services
    requires !s.workers[i].Ended? && !s.workers[i].Unspawned?
    ensures !a.CallerCancels? && Enabled(config, s, a)
  {
    assert WorkerOk(config, s, i);
    match s.workers[i] {
      case Choosing =>
        if s.held < config.concurrency {
          a := Acquire(i);
        } else {
          var j :| j in Holders(s.workers);
          assert WorkerOk(config, s, j);
          a := if s.workers[j].Searching? then Finish(j, [])
               else if s.workers[j].Sending? then Send(j) else Release(j);
        }
      case Searching => a := Finish(i, []);
      case Sending(_, _) => a := Send(i);
      case Exiting(slot) =>
        if slot {
          assert i in Holders(s.workers);
        }
        a := Release(i);
    }
  }

  /**
   No reachable state is stuck. Whether the consumer drains, stops early, or the caller cancels,
   until everything has finished some goroutine or the collector can move without any further
   help from the caller.
   */
  lemma Progress(config: Config, schedule: seq<Action>, s: State)
    requires Reaches(config, schedule, s) && 0 < config.concurrency
    ensures Shaped(config, s)
    ensures !Finished(s) ==> exists a: Action :: !a.CallerCancels? && Enabled(config, s, a)
  {
    ReachableInv(config, schedule, s);
    if !Finished(s) {
      var a: Action;
      match s.collector {
        case Spawning(_) => a := Spawn;
        case Yielding(_, rest) => a := if rest == [] then NextService else Deliver(true);
        case Leaving(_, _, _) => a := CancelWork;
        case Waiting(k) =>
          if k >= config.services {
            a := Drain;
          } else if s.channels[k].Some? {
            a := Receive;
          } else {
            assert WorkerOk(config, s, k);
            if s.workers[k].Ended? {
              a := SeeCancellation;
            } else {
              a := WorkerCanMove(config, s, k);
            }
          }
        case Left(_, _, _) =>
          EndedHoldNothing(s.workers);
          var i: nat :| i < config.services && !s.workers[i].Ended?;
          assert WorkerOk(config, s, i);
          a := WorkerCanMove(config, s, i);
      }
      assert Enabled(config, s, a);
    }
  }

  // ----- Termination -----

  function Stage(w: Worker): nat {
    match w
    case Unspawned => 5
    case Choosing => 4
    case Searching => 3
    case Sending(_, _) => 2
    case Exiting(_) => 1
    case Ended => 0
  }

  function Stages(workers: seq<Worker>): nat {
    if workers == [] then 0 else Stages(workers[..|workers| - 1]) + Stage(workers[|workers| - 1])
  }

  lemma {:induction false} StagesAfter(workers: seq<Worker>, i: nat, w: Worker)
    requires i < |workers|
    ensures Stages(workers[i := w]) == Stages(workers) - Stage(workers[i]) + Stage(w)
  {
    var n := |workers| - 1;
    if i < n {
      StagesAfter(workers[..n], i, w);
      assert workers[i := w][..n] == workers[..n][i := w];
    } else {
      assert workers[i := w][..n] == workers[..n];
    }
  }

  /** Goroutine steps and the one cancellation of the caller left. */
  function Work(s: State): nat {
    Stages(s.workers) + if s.callerDone then 0 else 1
  }

  /** Collector phases left; events left within a phase are counted by `Undelivered`. */
  function Phases(config: Config, s: State): int {
    match s.collector
    case Spawning(_) => 2 * config.services + 5
    case Waiting(k) => 2 * (config.services - k) + 4
    case Yielding(k, _) => 2 * (config.services - k) + 3
    case Leaving(_, _, _) => 1
    case Left(_, _, _) => 0
  }

  predicate Smaller(config: Config, s': State, s: State) {
    || Work(s') < Work(s)
    || (Work(s') == Work(s) && 0 <= Phases(config, s') < Phases(config, s))
    || (Work(s') == Work(s) && Phases(config, s') == Phases(config, s) && |Undelivered(s')| < |Undelivered(s)|)
  }

  lemma WorkerStepDescends(config: Config, s: State, a: Action)
    requires Shaped(config, s) && Enabled(config, s, a) && OfWorker(a)
    ensures Work(Step(config, s, a)) < Work(s)
  {
    StagesAfter(s.workers, a.worker, Step(config, s, a).workers[a.worker]);
  }

  lemma SpawnDescends(config: Config, s: State)
    requires Inv(config, s) && Enabled(config, s, Spawn)
    ensures Smaller(config, Step(config, s, Spawn), s)
  {
    if s.collector.next < config.services {
      assert WorkerOk(config, s, s.collector.next);
      StagesAfter(s.workers, s.collector.next, Choosing);
    }
  }

  /** Every action, the caller's cancellation included, makes the measure smaller. */
  lemma StepDescends(config: Config, s: State, a: Action)
    requires Inv(config, s) && Enabled(config, s, a)
    ensures Smaller(config, Step(config, s, a), s)
  {
    if OfWorker(a) {
      WorkerStepDescends(config, s, a);
    } else if a.Spawn? {
      SpawnDescends(config, s);
    } else {
      assert Step(config, s, a).workers == s.workers;
    }
  }

  /** An infinite execution: `trace(k + 1)` follows from `trace(k)` by `actions(k)`. */
  ghost predicate Executes(config: Config, trace: nat -> State, actions: nat -> Action) {
    && trace(0) == Init(config)
    && forall k: nat :: Shaped(config, trace(k)) && Enabled(config, trace(k), actions(k))
                     && trace(k + 1) == Step(config, trace(k), actions(k))
  }

  lemma NoDescentForever(config: Config, trace: nat -> State, actions: nat -> Action, k: nat)
    requires Inv(config, trace(k))
    ensures !Executes(config, trace, actions)
    decreases Work(trace(k)), Phases(config, trace(k)), |Undelivered(trace(k))|
  {
    if Executes(config, trace, actions) {
      StepInv(config, trace(k), actions(k));
      StepDescends(config, trace(k), actions(k));
      NoDescentForever(config, trace, actions, k + 1);
    }
  }

  /**
   No interleaving goes on forever. With `Progress`, every execution that is carried on as long as
   something can move ends with the loop returned, every worker ended and every slot released.
   */
  lemma NoInfiniteExecution(config: Config, trace: nat -> State, actions: nat -> Action)
    ensures !Executes(config, trace, actions)
  {
    if trace(0) == Init(config) {
      InitInv(config);
      NoDescentForever(config, trace, actions, 0);
    }
  }

  // ----- Request bounds -----

  /** The option bounds of the request: zero selects the fallback. */
  function Bounded(value: int, fallback: int, minimum: int, maximum: int): (r: Option<int>)
    requires minimum <= fallback <= maximum
    ensures r.Some? <==> value == 0 || minimum <= value <= maximum
    ensures r.Some? ==> minimum <= r.value <= maximum && (value != 0 ==> r.value == value)
  {
    var chosen := if value == 0 then fallback else value;
    if chosen < minimum || maximum < chosen then None else Some(chosen)
  }

  /**
   No request that passes the bounds can get stuck, whatever concurrency it asks for, and none has
   more than sixteen searches running at once.
   */
  lemma AcceptedRequestProgresses(concurrency: int, services: nat, schedule: seq<Action>, s: State)
    requires var slots := Bounded(concurrency, 4, 1, 16);
             slots.Some? && Reaches(Config(services, slots.value), schedule, s)
    ensures var config := Config(services, Bounded(concurrency, 4, 1, 16).value);
            && Shaped(config, s) && |Holders(s.workers)| <= 16
            && (!Finished(s) ==> exists a: Action :: !a.CallerCancels? && Enabled(config, s, a))
  {
    var config := Config(services, Bounded(concurrency, 4, 1, 16).value);
    SlotBound(config, schedule, s);
    Progress(config, schedule, s);
  }
}
