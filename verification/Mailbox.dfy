/** The mailbox for tasks of threads that are no workers: pushing into free slots, stealing by exchange, and a counter
    that follows both. Pusher p submits task p and waits until it is done; workers search the slots when the counter is
    positive. */
module Mailbox {

  datatype Slot = Empty | Holds(task: nat)

  datatype Pusher = Trying(slot: nat) | Stored | Waiting | Returned

  /** A worker between two atomic steps of its search for an external task. */
  datatype Worker =
    | Idle
    | Looking(slot: nat)   // about to look at a slot,
    | Taking(slot: nat)    // to exchange it for null,
    | Took(task: nat)      // to decrement the counter,
    | Started(task: nat)   // to run the task,
    | Ran(task: nat)       // and to announce that it is done

  /** Where a task is. */
  datatype Location = Unsent | InSlot(slot: nat) | AtWorker(worker: nat) | Finished

  /** The shared variables, the threads, and for each task how often it has run and where it is. */
  datatype State = State(slots: seq<Slot>, count: int, done: seq<bool>, pushers: seq<Pusher>, workers: seq<Worker>,
                         runs: seq<nat>, where: seq<Location>)

  function Initial(m: nat, tasks: nat, workers: nat): State {
    State(seq(m, _ => Empty), 0, seq(tasks, _ => false), seq(tasks, _ => Trying(0)), seq(workers, _ => Idle),
          seq(tasks, _ => 0), seq(tasks, _ => Unsent))
  }

  predicate Shape(s: State) {
    && |s.slots| > 0 && |s.done| == |s.pushers| == |s.runs| == |s.where|
    && (forall p | 0 <= p < |s.pushers| && s.pushers[p].Trying? :: s.pushers[p].slot < |s.slots|)
    && (forall w | 0 <= w < |s.workers| :: WorkerShape(s, s.workers[w]))
  }

  predicate WorkerShape(s: State, w: Worker) {
    match w
    case Idle => true
    case Looking(i) => i <= |s.slots|
    case Taking(i) => i < |s.slots|
    case Took(t) => t < |s.pushers|
    case Started(t) => t < |s.pushers|
    case Ran(t) => t < |s.pushers|
  }

  /** The next atomic step of a pusher. Its compare-exchange may fail although the slot is free. */
  function Push(s: State, p: nat, spurious: bool): State
    requires Shape(s) && p < |s.pushers|
  {
    match s.pushers[p]
    case Trying(i) =>
      if s.slots[i].Empty? && !spurious then
        s.(slots := s.slots[i := Holds(p)], pushers := s.pushers[p := Stored], where := s.where[p := InSlot(i)])
      else s.(pushers := s.pushers[p := Trying(if i + 1 == |s.slots| then 0 else i + 1)])
    case Stored => s.(count := s.count + 1, pushers := s.pushers[p := Waiting])
    case Waiting => if s.done[p] then s.(pushers := s.pushers[p := Returned]) else s
    case Returned => s
  }

  /** The next atomic step of a worker. */
  function Work(s: State, w: nat): State
    requires Shape(s) && w < |s.workers|
  {
    match s.workers[w]
    case Idle => if s.count > 0 then SetWorker(s, w, Looking(0)) else s
    case Looking(i) =>
      SetWorker(s, w, if i == |s.slots| then Idle else if s.slots[i].Empty? then Looking(i + 1) else Taking(i))
    case Taking(i) =>
      (match s.slots[i]
       case Empty => SetWorker(s, w, Looking(i + 1))
       case Holds(t) =>
         if t < |s.pushers| then
           SetWorker(s.(slots := s.slots[i := Empty], where := s.where[t := AtWorker(w)]), w, Took(t))
         else s)
    case Took(t) => SetWorker(s.(count := s.count - 1), w, Started(t))
    case Started(t) => SetWorker(s.(runs := s.runs[t := s.runs[t] + 1]), w, Ran(t))
    case Ran(t) => SetWorker(s.(done := s.done[t := true], where := s.where[t := Finished]), w, Idle)
  }

  function SetWorker(s: State, w: nat, pc: Worker): State
    requires w < |s.workers|
  {
    s.(workers := s.workers[w := pc])
  }

  // ---- The invariant ----------------------------------------------------------------------------

  predicate IsCarrier(w: Worker) { w.Took? || w.Started? || w.Ran? }

  predicate Carries(w: Worker, t: nat) { IsCarrier(w) && w.task == t }

  /** The task of a pusher: where it is, whether it has run, and what its pusher knows. */
  predicate TaskOk(s: State, t: nat)
    requires Shape(s) && t < |s.pushers|
  {
    && (s.where[t].Unsent? <==> s.pushers[t].Trying?)
    && (s.done[t] <==> s.where[t].Finished?)
    && (s.pushers[t].Returned? ==> s.done[t])
    && match s.where[t]
       case Unsent => s.runs[t] == 0
       case InSlot(i) => s.runs[t] == 0 && i < |s.slots| && s.slots[i] == Holds(t)
       case AtWorker(w) => w < |s.workers| && Carries(s.workers[w], t) && s.runs[t] == if s.workers[w].Ran? then 1 else 0
       case Finished => s.runs[t] == 1
  }

  predicate SlotOk(s: State, i: nat)
    requires Shape(s) && i < |s.slots|
  {
    s.slots[i].Holds? ==> s.slots[i].task < |s.where| && s.where[s.slots[i].task] == InSlot(i)
  }

  predicate WorkerOk(s: State, w: nat)
    requires Shape(s) && w < |s.workers|
  {
    IsCarrier(s.workers[w]) ==> s.where[s.workers[w].task] == AtWorker(w)
  }

  function Count(bs: seq<bool>): nat {
    if bs == [] then 0 else Count(bs[..|bs| - 1]) + if bs[|bs| - 1] then 1 else 0
  }

  function Occupied(slots: seq<Slot>): (bs: seq<bool>)
    ensures |bs| == |slots| && forall i | 0 <= i < |bs| :: bs[i] == slots[i].Holds?
  {
    seq(|slots|, i requires 0 <= i < |slots| => slots[i].Holds?)
  }

  function Uncounted(pushers: seq<Pusher>): (bs: seq<bool>)
    ensures |bs| == |pushers| && forall i | 0 <= i < |bs| :: bs[i] == pushers[i].Stored?
  {
    seq(|pushers|, i requires 0 <= i < |pushers| => pushers[i].Stored?)
  }

  function StillCounted(workers: seq<Worker>): (bs: seq<bool>)
    ensures |bs| == |workers| && forall i | 0 <= i < |bs| :: bs[i] == workers[i].Took?
  {
    seq(|workers|, i requires 0 <= i < |workers| => workers[i].Took?)
  }

  /** Occupied slots, less the pushers that have not counted theirs yet, plus the workers that have not uncounted what
      they took. */
  function ExactCount(s: State): int {
    Count(Occupied(s.slots)) - Count(Uncounted(s.pushers)) + Count(StillCounted(s.workers))
  }

  predicate Placed(s: State) {
    && Shape(s)
    && (forall t | 0 <= t < |s.pushers| :: TaskOk(s, t))
    && (forall i | 0 <= i < |s.slots| :: SlotOk(s, i))
    && (forall w | 0 <= w < |s.workers| :: WorkerOk(s, w))
  }

  predicate Inv(s: State) { Placed(s) && s.count == ExactCount(s) }

  // ---- Counting ------------------------------------------------------------------------------------

  lemma {:induction false} CountUpdate(bs: seq<bool>, i: nat, b: bool)
    requires i < |bs|
    ensures Count(bs[i := b]) == Count(bs) - (if bs[i] then 1 else 0) + (if b then 1 else 0)
  {
    var n := |bs| - 1;
    if i < n {
      CountUpdate(bs[..n], i, b);
      assert bs[i := b][..n] == bs[..n][i := b];
    } else {
      assert bs[i := b][..n] == bs[..n];
    }
  }

  lemma SlotCount(slots: seq<Slot>, i: nat, v: Slot)
    requires i < |slots|
    ensures Count(Occupied(slots[i := v])) ==
            Count(Occupied(slots)) - (if slots[i].Holds? then 1 else 0) + (if v.Holds? then 1 else 0)
  {
    hide Count;
    CountUpdate(Occupied(slots), i, v.Holds?);
    assert Occupied(slots[i := v]) == Occupied(slots)[i := v.Holds?];
  }

  lemma PusherCount(pushers: seq<Pusher>, p: nat, v: Pusher)
    requires p < |pushers|
    ensures Count(Uncounted(pushers[p := v])) ==
            Count(Uncounted(pushers)) - (if pushers[p].Stored? then 1 else 0) + (if v.Stored? then 1 else 0)
  {
    hide Count;
    CountUpdate(Uncounted(pushers), p, v.Stored?);
    assert Uncounted(pushers[p := v]) == Uncounted(pushers)[p := v.Stored?];
  }

  lemma WorkerCount(workers: seq<Worker>, w: nat, v: Worker)
    requires w < |workers|
    ensures Count(StillCounted(workers[w := v])) ==
            Count(StillCounted(workers)) - (if workers[w].Took? then 1 else 0) + (if v.Took? then 1 else 0)
  {
    hide Count;
    CountUpdate(StillCounted(workers), w, v.Took?);
    assert StillCounted(workers[w := v]) == StillCounted(workers)[w := v.Took?];
  }

  lemma {:induction false} NoneCounted(bs: seq<bool>)
    requires forall i | 0 <= i < |bs| :: !bs[i]
    ensures Count(bs) == 0
  {
    if bs != [] { NoneCounted(bs[..|bs| - 1]); }
  }

  // ---- Every step keeps the invariant ------------------------------------------------------------------

  lemma InitialHolds(m: nat, tasks: nat, workers: nat)
    requires m > 0
    ensures Inv(Initial(m, tasks, workers))
  {
    var s := Initial(m, tasks, workers);
    NoneCounted(Occupied(s.slots));
    NoneCounted(Uncounted(s.pushers));
    NoneCounted(StillCounted(s.workers));
  }

  /** A step of a pusher that stores nothing. */
  lemma PusherMoves(s: State, p: nat, pc: Pusher, count: int)
    requires Placed(s) && p < |s.pushers| && (pc.Trying? ==> pc.slot < |s.slots|)
    requires (pc.Trying? <==> s.pushers[p].Trying?) && (pc.Returned? ==> s.done[p])
    ensures Placed(s.(pushers := s.pushers[p := pc], count := count))
  {
    var s' := s.(pushers := s.pushers[p := pc], count := count);
    forall t | 0 <= t < |s.pushers| ensures TaskOk(s', t) { assert TaskOk(s, t); }
    forall j | 0 <= j < |s.slots| ensures SlotOk(s', j) { assert SlotOk(s, j); }
    forall w | 0 <= w < |s.workers| ensures WorkerOk(s', w) { assert WorkerOk(s, w); }
  }

  /** A pusher stores its task in an empty slot. */
  lemma StoreKeeps(s: State, p: nat, i: nat)
    requires Placed(s) && p < |s.pushers| && s.pushers[p] == Trying(i) && s.slots[i].Empty?
    ensures Placed(s.(slots := s.slots[i := Holds(p)], pushers := s.pushers[p := Stored], where := s.where[p := InSlot(i)]))
  {
    var s' := s.(slots := s.slots[i := Holds(p)], pushers := s.pushers[p := Stored], where := s.where[p := InSlot(i)]);
    assert TaskOk(s, p);
    forall t | 0 <= t < |s.pushers| ensures TaskOk(s', t) { assert TaskOk(s, t); }
    forall j | 0 <= j < |s.slots| ensures SlotOk(s', j) { assert SlotOk(s, j); }
    forall w | 0 <= w < |s.workers| ensures WorkerOk(s', w) { assert WorkerOk(s, w); }
  }

  lemma PushPlaces(s: State, p: nat, spurious: bool)
    requires Placed(s) && p < |s.pushers|
    ensures Placed(Push(s, p, spurious))
  {
    assert Shape(s) && TaskOk(s, p);
    hide Placed;
    match s.pushers[p] {
      case Trying(i) =>
        if s.slots[i].Empty? && !spurious {
          StoreKeeps(s, p, i);
        } else {
          PusherMoves(s, p, Trying(if i + 1 == |s.slots| then 0 else i + 1), s.count);
        }
      case Stored => PusherMoves(s, p, Waiting, s.count + 1);
      case Waiting => if s.done[p] { PusherMoves(s, p, Returned, s.count); }
      case Returned =>
    }
  }

  lemma PushCounts(s: State, p: nat, spurious: bool)
    requires Shape(s) && p < |s.pushers| && s.count == ExactCount(s)
    ensures var s' := Push(s, p, spurious); s'.count == ExactCount(s')
  {
    hide Count, Occupied, Uncounted, StillCounted;
    var s' := Push(s, p, spurious);
    PusherCount(s.pushers, p, s'.pushers[p]);
    if s.pushers[p].Trying? { SlotCount(s.slots, s.pushers[p].slot, Holds(p)); }
  }

  /** A step of a worker that carries no task before and after it. */
  lemma WorkerMoves(s: State, w: nat, pc: Worker)
    requires Placed(s) && w < |s.workers| && WorkerShape(s, pc)
    requires !IsCarrier(s.workers[w]) && !IsCarrier(pc)
    ensures Placed(SetWorker(s, w, pc))
  {
    var s' := SetWorker(s, w, pc);
    forall t | 0 <= t < |s.pushers| ensures TaskOk(s', t) { assert TaskOk(s, t); }
    forall j | 0 <= j < |s.slots| ensures SlotOk(s', j) { assert SlotOk(s, j); }
    forall v | 0 <= v < |s.workers| ensures WorkerOk(s', v) { assert WorkerOk(s, v); }
  }

  lemma TakeKeeps(s: State, w: nat, i: nat, t: nat)
    requires Placed(s) && w < |s.workers| && s.workers[w] == Taking(i) && s.slots[i] == Holds(t) && t < |s.pushers|
    ensures Placed(SetWorker(s.(slots := s.slots[i := Empty], where := s.where[t := AtWorker(w)]), w, Took(t)))
  {
    var s' := SetWorker(s.(slots := s.slots[i := Empty], where := s.where[t := AtWorker(w)]), w, Took(t));
    assert SlotOk(s, i) && TaskOk(s, t);
    forall u | 0 <= u < |s.pushers| ensures TaskOk(s', u) { assert TaskOk(s, u); }
    forall j | 0 <= j < |s.slots| ensures SlotOk(s', j) { assert SlotOk(s, j); }
    forall v | 0 <= v < |s.workers| ensures WorkerOk(s', v) { assert WorkerOk(s, v); }
  }

  /** A worker goes on with the task it carries: it uncounts it, runs it, or announces that it is done. */
  lemma CarrierKeeps(s: State, w: nat)
    requires Placed(s) && w < |s.workers| && IsCarrier(s.workers[w])
    ensures Placed(Work(s, w))
  {
    var s' := Work(s, w);
    var t := s.workers[w].task;
    assert WorkerOk(s, w) && TaskOk(s, t);
    forall u | 0 <= u < |s.pushers| ensures TaskOk(s', u) { assert TaskOk(s, u); }
    forall j | 0 <= j < |s.slots| ensures SlotOk(s', j) { assert SlotOk(s, j); }
    forall v | 0 <= v < |s.workers| ensures WorkerOk(s', v) { assert WorkerOk(s, v); }
  }

  lemma WorkPlaces(s: State, w: nat)
    requires Placed(s) && w < |s.workers|
    ensures Placed(Work(s, w))
  {
    assert Shape(s);
    hide Placed;
    match s.workers[w] {
      case Idle => if s.count > 0 { WorkerMoves(s, w, Looking(0)); }
      case Looking(i) =>
        WorkerMoves(s, w, if i == |s.slots| then Idle else if s.slots[i].Empty? then Looking(i + 1) else Taking(i));
      case Taking(i) =>
        if s.slots[i].Empty? {
          WorkerMoves(s, w, Looking(i + 1));
        } else if s.slots[i].task < |s.pushers| {
          TakeKeeps(s, w, i, s.slots[i].task);
        }
      case _ => CarrierKeeps(s, w);
    }
  }

  lemma WorkCounts(s: State, w: nat)
    requires Shape(s) && w < |s.workers| && s.count == ExactCount(s)
    ensures var s' := Work(s, w); s'.count == ExactCount(s')
  {
    hide Count, Occupied, Uncounted, StillCounted;
    var s' := Work(s, w);
    WorkerCount(s.workers, w, s'.workers[w]);
    if s.workers[w].Taking? { SlotCount(s.slots, s.workers[w].slot, Empty); }
    assert s'.workers == s.workers[w := s'.workers[w]];
  }

  // ---- Every interleaving ------------------------------------------------------------------------------

  datatype Event = PusherStep(pusher: nat, spurious: bool) | WorkerStep(worker: nat)

  predicate IsEvent(tasks: nat, workers: nat, e: Event) {
    match e
    case PusherStep(p, _) => p < tasks
    case WorkerStep(w) => w < workers
  }

  predicate AreEvents(tasks: nat, workers: nat, events: seq<Event>) {
    forall k | 0 <= k < |events| :: IsEvent(tasks, workers, events[k])
  }

  function Step(s: State, e: Event): State
    requires Shape(s) && IsEvent(|s.pushers|, |s.workers|, e)
  {
    match e
    case PusherStep(p, spurious) => Push(s, p, spurious)
    case WorkerStep(w) => Work(s, w)
  }

  lemma StepKeeps(s: State, e: Event)
    requires Inv(s) && IsEvent(|s.pushers|, |s.workers|, e)
    ensures Inv(Step(s, e))
  {
    assert Shape(s);
    hide Placed, ExactCount;
    match e {
      case PusherStep(p, spurious) => PushPlaces(s, p, spurious); PushCounts(s, p, spurious);
      case WorkerStep(w) => WorkPlaces(s, w); WorkCounts(s, w);
    }
  }

  lemma StepSize(s: State, e: Event)
    requires Shape(s) && IsEvent(|s.pushers|, |s.workers|, e)
    ensures var s' := Step(s, e);
            |s'.slots| == |s.slots| && |s'.pushers| == |s.pushers| && |s'.workers| == |s.workers|
  {}

  /** The state after some steps: in every reachable state every task is in its place and the counter is exact. */
  function Run(m: nat, tasks: nat, workers: nat, events: seq<Event>): (s: State)
    requires m > 0 && AreEvents(tasks, workers, events)
    ensures Inv(s) && |s.slots| == m && |s.pushers| == tasks && |s.workers| == workers
  {
    hide Inv, Step;
    if events == [] then
      InitialHolds(m, tasks, workers);
      Initial(m, tasks, workers)
    else
      var before := Run(m, tasks, workers, events[..|events| - 1]);
      var e := events[|events| - 1];
      assert IsEvent(tasks, workers, e);
      HasShape(before);
      StepKeeps(before, e);
      StepSize(before, e);
      Step(before, e)
  }

  lemma HasShape(s: State)
    requires Inv(s)
    ensures Shape(s)
  {}

  /** When no pusher and no worker is about to change it, the counter is the number of occupied slots. */
  lemma CounterAtRest(m: nat, tasks: nat, workers: nat, events: seq<Event>)
    requires m > 0 && AreEvents(tasks, workers, events)
    ensures var s := Run(m, tasks, workers, events);
            (forall p | 0 <= p < tasks :: !s.pushers[p].Stored?) && (forall w | 0 <= w < workers :: !s.workers[w].Took?) ==>
              s.count == Count(Occupied(s.slots))
  {
    var s := Run(m, tasks, workers, events);
    hide Run, Placed;
    if (forall p | 0 <= p < tasks :: !s.pushers[p].Stored?) && (forall w | 0 <= w < workers :: !s.workers[w].Took?) {
      NoneCounted(Uncounted(s.pushers));
      NoneCounted(StillCounted(s.workers));
    }
  }

  /** No task runs twice, one that was submitted is in exactly one slot, with exactly one worker, or finished, and a
      pusher returns only after its own task has run. */
  lemma RunsOnce(m: nat, tasks: nat, workers: nat, events: seq<Event>, t: nat)
    requires m > 0 && AreEvents(tasks, workers, events) && t < tasks
    ensures var s := Run(m, tasks, workers, events);
            && s.runs[t] <= 1
            && (s.pushers[t].Returned? ==> s.runs[t] == 1)
            && (forall i, j | 0 <= i < j < m :: s.slots[i] == Holds(t) ==> s.slots[j] != Holds(t))
            && (forall v, w | 0 <= v < w < workers :: Carries(s.workers[v], t) ==> !Carries(s.workers[w], t))
            && (!s.pushers[t].Trying? && !s.done[t] ==>
                  (exists i | 0 <= i < m :: s.slots[i] == Holds(t)) != (exists w | 0 <= w < workers :: Carries(s.workers[w], t)))
            && (s.done[t] ==> s.runs[t] == 1 && (forall i | 0 <= i < m :: s.slots[i] != Holds(t))
                              && forall w | 0 <= w < workers :: !Carries(s.workers[w], t))
  {
    var s := Run(m, tasks, workers, events);
    hide Run, ExactCount;
    assert TaskOk(s, t);
    forall i | 0 <= i < m && s.slots[i] == Holds(t) ensures s.where[t] == InSlot(i) { assert SlotOk(s, i); }
    forall w | 0 <= w < workers && Carries(s.workers[w], t) ensures s.where[t] == AtWorker(w) { assert WorkerOk(s, w); }
  }

  // ---- Every submitted task runs ----------------------------------------------------------------------------

  /** A worker that looks at an occupied slot goes on to exchange it, and its exchange of an occupied slot leaves the slot
      empty and the worker with the task. */
  lemma WhatIsSeenIsTaken(m: nat, tasks: nat, workers: nat, events: seq<Event>, w: nat, i: nat, t: nat)
    requires m > 0 && AreEvents(tasks, workers, events) && w < workers && i < m
    requires Run(m, tasks, workers, events).slots[i] == Holds(t)
    ensures var s, s' := Run(m, tasks, workers, events), Run(m, tasks, workers, events + [WorkerStep(w)]);
            && (s.workers[w] == Looking(i) ==> s'.workers[w] == Taking(i) && s'.slots == s.slots)
            && (s.workers[w] == Taking(i) ==> s'.workers[w] == Took(t) && s'.slots == s.slots[i := Empty])
  {
    var s := Run(m, tasks, workers, events);
    RunOne(m, tasks, workers, events, WorkerStep(w));
    hide Run, ExactCount;
    assert SlotOk(s, i);
  }

  /** A pusher's compare-exchange of an empty slot stores its task unless it fails spuriously; otherwise the pusher goes on to
      the next slot, and after the last one to the first. */
  lemma WhatIsFreeIsFilled(m: nat, tasks: nat, workers: nat, events: seq<Event>, p: nat, i: nat, spurious: bool)
    requires m > 0 && AreEvents(tasks, workers, events) && p < tasks && i < m
    requires Run(m, tasks, workers, events).pushers[p] == Trying(i)
    ensures var s, s' := Run(m, tasks, workers, events), Run(m, tasks, workers, events + [PusherStep(p, spurious)]);
            if s.slots[i] == Empty && !spurious then s'.slots == s.slots[i := Holds(p)] && s'.pushers[p] == Stored
            else s'.slots == s.slots && s'.pushers[p] == Trying(if i + 1 < m then i + 1 else 0)
  {
    RunOne(m, tasks, workers, events, PusherStep(p, spurious));
    hide Run, ExactCount;
  }

  lemma RunOne(m: nat, tasks: nat, workers: nat, events: seq<Event>, e: Event)
    requires m > 0 && AreEvents(tasks, workers, events) && IsEvent(tasks, workers, e)
    ensures AreEvents(tasks, workers, events + [e])
    ensures var s := Run(m, tasks, workers, events); Shape(s) && Run(m, tasks, workers, events + [e]) == Step(s, e)
  {
    hide Step, Inv;
    assert (events + [e])[..|events|] == events;
    HasShape(Run(m, tasks, workers, events));
  }

  /** Tasks that no worker has taken yet. */
  function Untaken(where: seq<Location>): nat {
    if where == [] then 0
    else Untaken(where[..|where| - 1]) + if where[|where| - 1].Unsent? || where[|where| - 1].InSlot? then 1 else 0
  }

  /** Steps of pushers until all have counted their tasks. */
  function ToCount(pushers: seq<Pusher>): nat {
    if pushers == [] then 0
    else ToCount(pushers[..|pushers| - 1]) + PusherSteps(pushers[|pushers| - 1])
  }

  function PusherSteps(p: Pusher): nat { if p.Trying? then 2 else if p.Stored? then 1 else 0 }

  function Weight(l: Location): nat { if l.Unsent? || l.InSlot? then 1 else 0 }

  lemma {:induction false} UntakenUpdated(where: seq<Location>, t: nat, l: Location)
    requires t < |where|
    ensures Untaken(where[t := l]) == Untaken(where) - Weight(where[t]) + Weight(l)
  {
    var n := |where| - 1;
    if t == n {
      assert where[t := l][..n] == where[..n];
    } else {
      UntakenUpdated(where[..n], t, l);
      assert where[t := l][..n] == where[..n][t := l];
    }
  }

  lemma {:induction false} ToCountUpdated(pushers: seq<Pusher>, p: nat, v: Pusher)
    requires p < |pushers|
    ensures ToCount(pushers[p := v]) == ToCount(pushers) - PusherSteps(pushers[p]) + PusherSteps(v)
  {
    var n := |pushers| - 1;
    if p == n {
      assert pushers[p := v][..n] == pushers[..n];
    } else {
      ToCountUpdated(pushers[..n], p, v);
      assert pushers[p := v][..n] == pushers[..n][p := v];
    }
  }

  lemma {:induction false} UntakenAtMost(where: seq<Location>)
    ensures Untaken(where) <= |where|
  {
    if where != [] { UntakenAtMost(where[..|where| - 1]); }
  }

  lemma {:induction false} ToCountAtMost(pushers: seq<Pusher>)
    ensures ToCount(pushers) <= 2 * |pushers|
  {
    if pushers != [] { ToCountAtMost(pushers[..|pushers| - 1]); }
  }

  /** The steps of a worker until it exchanges slot `i`, when it takes no other task before. */
  function Distance(w: Worker, i: nat, m: nat): nat
    requires i < m && (w.Looking? ==> w.slot <= m) && (w.Taking? ==> w.slot < m)
  {
    match w
    case Idle => 2 * i + 2
    case Looking(j) => if j <= i then 2 * (i - j) + 1 else 2 * (m - j) + 2 * i + 4
    case Taking(j) => if j <= i then 2 * (i - j) else 2 * (m - j) + 2 * i + 3
    case Took(_) => 2 * i + 5
    case Started(_) => 2 * i + 4
    case Ran(_) => 2 * i + 3
  }

  /** What lowers when a worker takes a task and when a pusher stores or counts one, and does not rise otherwise. */
  function Pending(s: State): nat { Untaken(s.where) + ToCount(s.pushers) }

  function Left(s: State, w: nat, t: nat): nat
    requires Placed(s) && w < |s.workers| && t < |s.pushers|
  {
    match s.where[t]
    case Unsent => 0
    case InSlot(i) =>
      assert TaskOk(s, t) && WorkerShape(s, s.workers[w]);
      6 + (4 * |s.slots| + 4) * Pending(s) + Distance(s.workers[w], i, |s.slots|)
    case AtWorker(v) =>
      assert TaskOk(s, t);
      LateSteps(s.workers[v])
    case Finished => if s.pushers[t].Returned? then 0 else if s.pushers[t].Waiting? then 1 else 2
  }

  predicate NoneStored(s: State) { forall p | 0 <= p < |s.pushers| :: !s.pushers[p].Stored? }

  /** The thread whose step brings a submitted task further. */
  predicate Drives(s: State, w: nat, t: nat, e: Event)
    requires t < |s.where| && IsEvent(|s.pushers|, |s.workers|, e)
  {
    match s.where[t]
    case Unsent => false
    case InSlot(_) => if e.PusherStep? then s.pushers[e.pusher].Stored? else e.worker == w && NoneStored(s)
    case AtWorker(v) => e == WorkerStep(v)
    case Finished => e.PusherStep? && e.pusher == t
  }

  predicate SameThread(e: Event, f: Event) {
    match e
    case PusherStep(p, _) => f.PusherStep? && f.pusher == p
    case WorkerStep(v) => f == WorkerStep(v)
  }

  lemma {:induction false} HasOne(bs: seq<bool>, i: nat)
    requires i < |bs| && bs[i]
    ensures Count(bs) > 0
  {
    if i < |bs| - 1 { HasOne(bs[..|bs| - 1], i); }
  }

  /** When every stored task is counted, the counter says that there is one. */
  lemma CountedTask(s: State, i: nat)
    requires Inv(s) && i < |s.slots| && s.slots[i].Holds? && NoneStored(s)
    ensures s.count > 0
  {
    NoneCounted(Uncounted(s.pushers));
    HasOne(Occupied(s.slots), i);
  }

  lemma PushEffect(s: State, p: nat, spurious: bool, t: nat)
    requires Placed(s) && p < |s.pushers| && t < |s.pushers| && !s.where[t].Unsent?
    ensures var s' := Push(s, p, spurious);
            && Placed(s') && s'.workers == s.workers && |s'.slots| == |s.slots| && s'.where[t] == s.where[t]
            && Pending(s') <= Pending(s) && (s.pushers[p].Stored? ==> Pending(s') < Pending(s))
            && (Pending(s') == Pending(s) ==>
                  forall q | 0 <= q < |s.pushers| :: s'.pushers[q].Stored? == s.pushers[q].Stored?)
            && (s.pushers[t].Returned? ==> s'.pushers[t].Returned?)
            && (!s.pushers[t].Stored? ==> !s'.pushers[t].Stored?)
  {
    PushPlaces(s, p, spurious);
    assert TaskOk(s, p) && TaskOk(s, t);
    var s' := Push(s, p, spurious);
    ToCountUpdated(s.pushers, p, s'.pushers[p]);
    UntakenUpdated(s.where, p, s'.where[p]);
    assert s'.pushers == s.pushers[p := s'.pushers[p]] && s'.where == s.where[p := s'.where[p]];
    hide Placed, ToCount, Untaken;
  }

  /** A step of another worker, or of one that finds another task, brings no task further away. */
  lemma WorkEffect(s: State, v: nat)
    requires Inv(s) && v < |s.workers|
    ensures var s' := Work(s, v);
            && Placed(s') && s'.pushers == s.pushers && |s'.slots| == |s.slots| && |s'.where| == |s.where|
            && (forall u | 0 <= u < |s.workers| && u != v :: s'.workers[u] == s.workers[u])
            && Pending(s') <= Pending(s)
            && (s'.workers[v].Took? ==> Pending(s') < Pending(s))
  {
    WorkPlaces(s, v);
    assert WorkerShape(s, s.workers[v]);
    var s' := Work(s, v);
    match s.workers[v] {
      case Taking(i) =>
        if s.slots[i].Holds? {
          assert SlotOk(s, i);
          var u := s.slots[i].task;
          UntakenUpdated(s.where, u, AtWorker(v));
        }
      case Ran(u) =>
        assert WorkerOk(s, v);
        UntakenUpdated(s.where, u, Finished);
      case _ =>
    }
    hide Placed, ToCount, Untaken;
  }

  /** What the step does to a task that is not its own. */
  lemma WorkSpares(s: State, v: nat, t: nat)
    requires Placed(s) && v < |s.workers| && t < |s.pushers| && !s.where[t].Unsent?
    ensures var s' := Work(s, v);
            match s.where[t]
            case Unsent => true
            case InSlot(i) => s'.where[t] == (if s.workers[v] == Taking(i) then AtWorker(v) else InSlot(i))
            case AtWorker(u) =>
              u < |s.workers| &&
              if u != v then s'.where[t] == AtWorker(u)
              else if s.workers[v].Took? then s'.where[t] == AtWorker(v) && s'.workers[v] == Started(t)
              else if s.workers[v].Started? then s'.where[t] == AtWorker(v) && s'.workers[v] == Ran(t)
              else s'.where[t].Finished?
            case Finished => s'.where[t].Finished?
  {
    assert TaskOk(s, t) && WorkerOk(s, v) && WorkerShape(s, s.workers[v]);
    if s.workers[v].Taking? { assert SlotOk(s, s.workers[v].slot); }
  }

  /** A worker that does not stall comes closer to the slot, or takes a task. */
  lemma WorkerCloses(s: State, w: nat, i: nat)
    requires Placed(s) && w < |s.workers| && i < |s.slots| && s.slots[i].Holds? && s.workers[w] != Taking(i)
    ensures var s' := Work(s, w);
            && WorkerShape(s', s'.workers[w]) && WorkerShape(s, s.workers[w]) && |s'.slots| == |s.slots|
            && Distance(s'.workers[w], i, |s.slots|) <= 4 * |s.slots| + 3
            && (s'.workers[w].Took? || (s.workers[w].Idle? && s.count <= 0 && s' == s)
                || Distance(s'.workers[w], i, |s.slots|) < Distance(s.workers[w], i, |s.slots|))
  {
    assert WorkerShape(s, s.workers[w]);
    if s.workers[w].Taking? && s.slots[s.workers[w].slot].Holds? { assert SlotOk(s, s.workers[w].slot); }
  }

  lemma Outweighs(k: nat, p: nat, p': nat, d: nat, d': nat)
    requires p' <= p && d' < k
    ensures p' < p ==> k * p' + d' < k * p + d
    ensures p' == p ==> k * p' == k * p
  {
    if p' < p { assert k * p >= k * (p' + 1) == k * p' + k; }
  }

  lemma SlotOf(s: State, t: nat, i: nat)
    requires Placed(s) && t < |s.pushers| && s.where[t] == InSlot(i)
    ensures i < |s.slots| && s.slots[i] == Holds(t)
  {
    assert TaskOk(s, t);
  }

  lemma DistanceAtMost(s: State, w: nat, i: nat)
    requires Placed(s) && w < |s.workers| && i < |s.slots|
    ensures WorkerShape(s, s.workers[w]) && Distance(s.workers[w], i, |s.slots|) <= 4 * |s.slots| + 3
  {
    assert WorkerShape(s, s.workers[w]);
  }

  lemma LeftInSlot(s: State, w: nat, t: nat, i: nat)
    requires Placed(s) && w < |s.workers| && t < |s.pushers| && s.where[t] == InSlot(i)
    ensures i < |s.slots| && s.slots[i] == Holds(t) && WorkerShape(s, s.workers[w])
    ensures Left(s, w, t) == 6 + (4 * |s.slots| + 4) * Pending(s) + Distance(s.workers[w], i, |s.slots|)
  {
    SlotOf(s, t, i);
    DistanceAtMost(s, w, i);
    hide Distance, Pending;
  }

  function LateSteps(w: Worker): nat { if w.Took? then 5 else if w.Started? then 4 else 3 }

  lemma LeftLate(s: State, w: nat, t: nat)
    requires Placed(s) && w < |s.workers| && t < |s.pushers|
    ensures s.where[t].AtWorker? ==>
              s.where[t].worker < |s.workers| && Left(s, w, t) == LateSteps(s.workers[s.where[t].worker])
    ensures s.where[t].Finished? ==>
              Left(s, w, t) == if s.pushers[t].Returned? then 0 else if s.pushers[t].Waiting? then 1 else 2
  {
    assert TaskOk(s, t);
  }

  /** No step of a pusher brings a submitted task further away, and the one that drives it brings it further. */
  lemma PushLowers(s: State, p: nat, spurious: bool, w: nat, t: nat)
    requires Inv(s) && p < |s.pushers| && w < |s.workers| && t < |s.pushers| && !s.where[t].Unsent?
    ensures var s' := Push(s, p, spurious); Placed(s') && Left(s', w, t) <= Left(s, w, t) && s'.where[t] == s.where[t]
    ensures var s' := Push(s, p, spurious);
            Drives(s, w, t, PusherStep(p, spurious)) ==> Left(s', w, t) < Left(s, w, t) || Left(s, w, t) == 0
    ensures var s' := Push(s, p, spurious);
            s.where[t].InSlot? && Left(s', w, t) == Left(s, w, t) ==>
              forall q | 0 <= q < |s.pushers| :: s'.pushers[q].Stored? == s.pushers[q].Stored?
  {
    PushEffect(s, p, spurious, t);
    var s' := Push(s, p, spurious);
    if s.where[t].InSlot? {
      hide Left, Distance, Pending, Placed, ExactCount, Push;
      var i := s.where[t].slot;
      LeftInSlot(s, w, t, i);
      LeftInSlot(s', w, t, i);
      DistanceAtMost(s, w, i);
      var d := Distance(s.workers[w], i, |s.slots|);
      Outweighs(4 * |s.slots| + 4, Pending(s), Pending(s'), d, d);
    } else {
      PushedLate(s, p, spurious, t);
      hide Left, Placed, Pending, Push;
      LeftLate(s, w, t);
      LeftLate(s', w, t);
    }
  }

  lemma PushedLate(s: State, p: nat, spurious: bool, t: nat)
    requires Placed(s) && p < |s.pushers| && t < |s.pushers| && (s.where[t].AtWorker? || s.where[t].Finished?)
    ensures var s' := Push(s, p, spurious);
            && s'.where[t] == s.where[t] && s'.workers == s.workers && |s'.pushers| == |s.pushers|
            && (p != t ==> s'.pushers[t] == s.pushers[t])
            && (s.where[t].Finished? && p == t ==>
                  if s.pushers[t].Stored? then s'.pushers[t].Waiting? else s'.pushers[t].Returned?)
            && !s.pushers[t].Trying?
  {
    assert TaskOk(s, t) && TaskOk(s, p);
  }

  lemma WorkLowers(s: State, v: nat, w: nat, t: nat)
    requires Inv(s) && v < |s.workers| && w < |s.workers| && t < |s.pushers| && !s.where[t].Unsent?
    ensures var s' := Work(s, v);
            && Placed(s') && |s'.pushers| == |s.pushers| && |s'.workers| == |s.workers|
            && !s'.where[t].Unsent? && Left(s', w, t) <= Left(s, w, t)
            && (Drives(s, w, t, WorkerStep(v)) ==> Left(s', w, t) < Left(s, w, t))
            && (Left(s', w, t) == Left(s, w, t) ==> s'.where[t] == s.where[t] && s'.pushers == s.pushers)
  {
    WorkEffect(s, v);
    WorkSpares(s, v, t);
    var s' := Work(s, v);
    hide *;
    if s.where[t].InSlot? && s.workers[v] != Taking(s.where[t].slot) {
      SlotOf(s, t, s.where[t].slot);
      WorkInSlot(s, v, w, t, s.where[t].slot);
    } else {
      WorkLate(s, s', v, w, t);
    }
  }

  /** A step of the worker that takes the task or carries it. */
  lemma WorkLate(s: State, s': State, v: nat, w: nat, t: nat)
    requires Placed(s) && Placed(s') && v < |s.workers| && w < |s.workers| && t < |s.pushers|
    requires s'.pushers == s.pushers && |s'.workers| == |s.workers|
    requires match s.where[t]
             case Unsent => false
             case InSlot(i) => s'.where[t] == AtWorker(v)
             case AtWorker(u) =>
               u < |s.workers| &&
               if u != v then s'.where[t] == AtWorker(u) && s'.workers[u] == s.workers[u]
               else if s.workers[v].Took? then s'.where[t] == AtWorker(v) && s'.workers[v] == Started(t)
               else if s.workers[v].Started? then s'.where[t] == AtWorker(v) && s'.workers[v] == Ran(t)
               else s'.where[t].Finished?
             case Finished => s'.where[t].Finished?
    ensures Left(s', w, t) <= Left(s, w, t)
    ensures Drives(s, w, t, WorkerStep(v)) || s'.where[t] != s.where[t] ==> Left(s', w, t) < Left(s, w, t)
  {
    assert t < |s.where| && t < |s'.where|;
    hide Left, Placed, Shape, Pending, Distance, NoneStored, TaskOk, SlotOk, WorkerOk, WorkerShape, Untaken, ToCount;
    LeftLate(s, w, t);
    LeftLate(s', w, t);
    if s.where[t].InSlot? { LeftInSlot(s, w, t, s.where[t].slot); }
  }

  lemma WorkInSlot(s: State, v: nat, w: nat, t: nat, i: nat)
    requires Inv(s) && v < |s.workers| && w < |s.workers| && t < |s.pushers| && s.where[t] == InSlot(i)
    requires i < |s.slots| && s.slots[i] == Holds(t) && s.workers[v] != Taking(i)
    ensures var s' := Work(s, v);
            && Placed(s') && |s'.pushers| == |s.pushers| && |s'.workers| == |s.workers| && Left(s', w, t) <= Left(s, w, t)
            && (v == w && NoneStored(s) ==> Left(s', w, t) < Left(s, w, t))
  {
    WorkEffect(s, v);
    WorkSpares(s, v, t);
    var s' := Work(s, v);
    LeftInSlot(s, w, t, i);
    LeftInSlot(s', w, t, i);
    DistanceAtMost(s', w, i);
    if v == w {
      WorkerCloses(s, w, i);
      if NoneStored(s) { CountedTask(s, i); }
    }
    hide Left, Distance, Pending, Placed, ExactCount, Work, NoneStored;
    Outweighs(4 * |s.slots| + 4, Pending(s), Pending(s'), Distance(s.workers[w], i, |s.slots|), Distance(s'.workers[w], i, |s.slots|));
  }

  lemma StepLowers(s: State, e: Event, w: nat, t: nat)
    requires Inv(s) && IsEvent(|s.pushers|, |s.workers|, e) && w < |s.workers| && t < |s.pushers| && !s.where[t].Unsent?
    ensures var s' := Step(s, e);
            && Inv(s') && Placed(s') && |s'.pushers| == |s.pushers| && |s'.workers| == |s.workers|
            && |s'.slots| == |s.slots| && !s'.where[t].Unsent? && Left(s', w, t) <= Left(s, w, t)
            && (Drives(s, w, t, e) ==> Left(s', w, t) < Left(s, w, t) || Left(s, w, t) == 0)
  {
    StepKeeps(s, e);
    StepSize(s, e);
    match e {
      case PusherStep(p, spurious) => PushLowers(s, p, spurious, w, t);
      case WorkerStep(v) => WorkLowers(s, v, w, t);
    }
    hide Left, Placed, Push, Work, ExactCount, Drives;
  }

  /** The thread that drives a task keeps doing so until the task has come further. */
  lemma StillDrives(s: State, e: Event, w: nat, t: nat, d: Event)
    requires Inv(s) && IsEvent(|s.pushers|, |s.workers|, e) && w < |s.workers| && t < |s.pushers| && !s.where[t].Unsent?
    requires IsEvent(|s.pushers|, |s.workers|, d) && Drives(s, w, t, d) && !SameThread(e, d)
    ensures var s' := Step(s, e);
            && Placed(s') && |s'.pushers| == |s.pushers| && |s'.workers| == |s.workers|
            && (Left(s', w, t) == Left(s, w, t) ==> Drives(s', w, t, d))
  {
    StepSize(s, e);
    match e {
      case PusherStep(p, spurious) =>
        PushLowers(s, p, spurious, w, t);
        hide Left, Placed, ExactCount, Push;
      case WorkerStep(v) =>
        WorkLowers(s, v, w, t);
        hide Left, Placed, ExactCount, Work;
    }
  }

  /** What is left to do for a task after a schedule. */
  ghost function LeftAfter(m: nat, tasks: nat, workers: nat, events: seq<Event>, w: nat, t: nat): nat
    requires m > 0 && AreEvents(tasks, workers, events) && w < workers && t < tasks
  {
    Left(Run(m, tasks, workers, events), w, t)
  }

  predicate IsSubmitted(s: State, t: nat)
    requires t < |s.pushers|
  {
    !s.pushers[t].Trying?
  }

  lemma SubmittedIsSent(s: State, t: nat)
    requires Inv(s) && t < |s.pushers|
    ensures t < |s.where| && (IsSubmitted(s, t) <==> !s.where[t].Unsent?)
  {
    assert TaskOk(s, t);
  }

  /** One more step of a schedule. */
  lemma StepAfter(m: nat, tasks: nat, workers: nat, events: seq<Event>, e: Event, w: nat, t: nat, d: Event)
    requires m > 0 && AreEvents(tasks, workers, events) && IsEvent(tasks, workers, e) && w < workers && t < tasks
    requires IsSubmitted(Run(m, tasks, workers, events), t) && IsEvent(tasks, workers, d)
    ensures AreEvents(tasks, workers, events + [e]) && IsSubmitted(Run(m, tasks, workers, events + [e]), t)
    ensures var s, s' := Run(m, tasks, workers, events), Run(m, tasks, workers, events + [e]);
            && Left(s', w, t) <= Left(s, w, t) && t < |s.where| && t < |s'.where|
            && (Drives(s, w, t, d) && SameThread(e, d) ==> Left(s', w, t) < Left(s, w, t) || Left(s, w, t) == 0)
            && (Drives(s, w, t, d) && !SameThread(e, d) && Left(s', w, t) == Left(s, w, t) ==> Drives(s', w, t, d))
  {
    RunOne(m, tasks, workers, events, e);
    var s := Run(m, tasks, workers, events);
    hide Run, Left, Step;
    SubmittedIsSent(s, t);
    StepLowers(s, e, w, t);
    SubmittedIsSent(Step(s, e), t);
    if Drives(s, w, t, d) && !SameThread(e, d) { StillDrives(s, e, w, t, d); }
    hide Inv, Placed;
  }

  lemma {:induction false} ScheduleLowers(m: nat, tasks: nat, workers: nat, events: seq<Event>, more: seq<Event>, w: nat,
                                          t: nat)
    requires m > 0 && AreEvents(tasks, workers, events) && AreEvents(tasks, workers, more) && w < workers && t < tasks
    requires IsSubmitted(Run(m, tasks, workers, events), t)
    ensures AreEvents(tasks, workers, events + more) && IsSubmitted(Run(m, tasks, workers, events + more), t)
    ensures LeftAfter(m, tasks, workers, events + more, w, t) <= LeftAfter(m, tasks, workers, events, w, t)
    decreases |more|
  {
    hide Run, Left, IsEvent, IsSubmitted;
    if more == [] {
      assert events + more == events;
    } else {
      StepAfter(m, tasks, workers, events, more[0], w, t, more[0]);
      ScheduleLowers(m, tasks, workers, events + [more[0]], more[1..], w, t);
      assert events + [more[0]] + more[1..] == events + more;
    }
  }

  /** Some steps, one of which is a step of the thread that drives the task. */
  lemma {:induction false} RoundLowers(m: nat, tasks: nat, workers: nat, events: seq<Event>, round: seq<Event>, w: nat, t: nat,
                                       d: Event)
    requires m > 0 && AreEvents(tasks, workers, events) && AreEvents(tasks, workers, round) && w < workers && t < tasks
    requires IsSubmitted(Run(m, tasks, workers, events), t) && IsEvent(tasks, workers, d)
    requires t < |Run(m, tasks, workers, events).where| && Drives(Run(m, tasks, workers, events), w, t, d)
    requires exists k | 0 <= k < |round| :: SameThread(round[k], d)
    ensures AreEvents(tasks, workers, events + round) && IsSubmitted(Run(m, tasks, workers, events + round), t)
    ensures var before, after := LeftAfter(m, tasks, workers, events, w, t), LeftAfter(m, tasks, workers, events + round, w, t);
            after < before || before == 0
    decreases |round|
  {
    hide Run, Left, IsEvent, IsSubmitted, Drives, SameThread;
    var e := round[0];
    StepAfter(m, tasks, workers, events, e, w, t, d);
    ScheduleLowers(m, tasks, workers, events + [e], round[1..], w, t);
    assert events + [e] + round[1..] == events + round;
    if !SameThread(e, d) && LeftAfter(m, tasks, workers, events + [e], w, t) == LeftAfter(m, tasks, workers, events, w, t) {
      var k :| 0 <= k < |round| && SameThread(round[k], d);
      assert round[1..][k - 1] == round[k];
      RoundLowers(m, tasks, workers, events + [e], round[1..], w, t, d);
    }
  }

  lemma Driver(s: State, w: nat, t: nat) returns (d: Event)
    requires Inv(s) && w < |s.workers| && t < |s.pushers| && IsSubmitted(s, t)
    ensures IsEvent(|s.pushers|, |s.workers|, d) && t < |s.where| && Drives(s, w, t, d)
  {
    SubmittedIsSent(s, t);
    assert TaskOk(s, t);
    match s.where[t] {
      case InSlot(_) =>
        d := WorkerStep(w);
        if p :| 0 <= p < |s.pushers| && s.pushers[p].Stored? { d := PusherStep(p, false); }
      case AtWorker(v) => d := WorkerStep(v);
      case Finished => d := PusherStep(t, false);
    }
  }

  /** Steps in which every pusher and every worker takes part. */
  ghost predicate IsRound(tasks: nat, workers: nat, round: seq<Event>) {
    && AreEvents(tasks, workers, round)
    && forall e | IsEvent(tasks, workers, e) :: exists k | 0 <= k < |round| :: SameThread(round[k], e)
  }

  ghost predicate AreRounds(tasks: nat, workers: nat, rounds: seq<seq<Event>>) {
    forall k | 0 <= k < |rounds| :: IsRound(tasks, workers, rounds[k])
  }

  function InOrder(rounds: seq<seq<Event>>): seq<Event> { if rounds == [] then [] else rounds[0] + InOrder(rounds[1..]) }

  lemma {:induction false} RoundsLower(m: nat, tasks: nat, workers: nat, events: seq<Event>, rounds: seq<seq<Event>>, w: nat,
                                       t: nat)
    requires m > 0 && AreEvents(tasks, workers, events) && AreRounds(tasks, workers, rounds) && w < workers && t < tasks
    requires IsSubmitted(Run(m, tasks, workers, events), t)
    ensures AreEvents(tasks, workers, events + InOrder(rounds))
    ensures IsSubmitted(Run(m, tasks, workers, events + InOrder(rounds)), t)
    ensures var after := LeftAfter(m, tasks, workers, events + InOrder(rounds), w, t);
            after == 0 || after + |rounds| <= LeftAfter(m, tasks, workers, events, w, t)
    decreases |rounds|
  {
    hide *;
    if rounds == [] {
      NoRounds(events);
    } else {
      FirstRound(tasks, workers, events, rounds);
      var d := Driver(Run(m, tasks, workers, events), w, t);
      HasThread(tasks, workers, rounds[0], d);
      ScheduleLowers(m, tasks, workers, events, rounds[0], w, t);
      RoundLowers(m, tasks, workers, events, rounds[0], w, t, d);
      RoundsLower(m, tasks, workers, events + rounds[0], rounds[1..], w, t);
    }
  }

  lemma NoRounds(events: seq<Event>)
    ensures events + InOrder([]) == events
  {}

  lemma FirstRound(tasks: nat, workers: nat, events: seq<Event>, rounds: seq<seq<Event>>)
    requires rounds != [] && AreRounds(tasks, workers, rounds)
    ensures IsRound(tasks, workers, rounds[0]) && AreEvents(tasks, workers, rounds[0])
    ensures AreRounds(tasks, workers, rounds[1..])
    ensures events + InOrder(rounds) == events + rounds[0] + InOrder(rounds[1..])
  {
    hide AreEvents;
    assert IsRound(tasks, workers, rounds[0]);
  }

  lemma HasThread(tasks: nat, workers: nat, round: seq<Event>, d: Event)
    requires IsRound(tasks, workers, round) && IsEvent(tasks, workers, d)
    ensures exists k | 0 <= k < |round| :: SameThread(round[k], d)
  {
    hide AreEvents, SameThread, IsEvent;
  }

  lemma LeftAtMost(s: State, w: nat, t: nat)
    requires Placed(s) && w < |s.workers| && t < |s.pushers|
    ensures Left(s, w, t) <= (4 * |s.slots| + 4) * (3 * |s.pushers| + 1) + 5
  {
    var k, n := 4 * |s.slots| + 4, 3 * |s.pushers|;
    UntakenAtMost(s.where);
    ToCountAtMost(s.pushers);
    TimesGrows(k, Pending(s), n);
    assert k * (n + 1) == k * n + k;
    if s.where[t].InSlot? {
      LeftInSlot(s, w, t, s.where[t].slot);
      DistanceAtMost(s, w, s.where[t].slot);
    }
    hide Pending, Distance;
  }

  lemma TimesGrows(k: nat, a: nat, b: nat)
    requires a <= b
    ensures k * a <= k * b
  {}

  /** Under a fair schedule every submitted task runs, and its pusher returns: after enough rounds in which every pusher and
      every worker takes a step, in any order and with any others between, whatever the other pushers submit. */
  lemma SubmittedTasksRun(m: nat, tasks: nat, workers: nat, events: seq<Event>, rounds: seq<seq<Event>>, t: nat)
    requires m > 0 && workers > 0 && AreEvents(tasks, workers, events) && AreRounds(tasks, workers, rounds) && t < tasks
    requires IsSubmitted(Run(m, tasks, workers, events), t) && |rounds| >= (4 * m + 4) * (3 * tasks + 1) + 6
    ensures AreEvents(tasks, workers, events + InOrder(rounds))
    ensures var s := Run(m, tasks, workers, events + InOrder(rounds)); s.runs[t] == 1 && s.done[t] && s.pushers[t].Returned?
  {
    hide *;
    RoundsLower(m, tasks, workers, events, rounds, 0, t);
    AfterAtMost(m, tasks, workers, events, 0, t);
    NothingLeftAfter(m, tasks, workers, events + InOrder(rounds), 0, t);
  }

  lemma AfterAtMost(m: nat, tasks: nat, workers: nat, events: seq<Event>, w: nat, t: nat)
    requires m > 0 && AreEvents(tasks, workers, events) && w < workers && t < tasks
    ensures LeftAfter(m, tasks, workers, events, w, t) <= (4 * m + 4) * (3 * tasks + 1) + 5
  {
    hide Run, Left;
    LeftAtMost(Run(m, tasks, workers, events), w, t);
  }

  lemma NothingLeftAfter(m: nat, tasks: nat, workers: nat, events: seq<Event>, w: nat, t: nat)
    requires m > 0 && AreEvents(tasks, workers, events) && w < workers && t < tasks
    requires IsSubmitted(Run(m, tasks, workers, events), t) && LeftAfter(m, tasks, workers, events, w, t) == 0
    ensures var s := Run(m, tasks, workers, events); s.runs[t] == 1 && s.done[t] && s.pushers[t].Returned?
  {
    hide Run, Left;
    NothingLeft(Run(m, tasks, workers, events), w, t);
  }

  lemma NothingLeft(s: State, w: nat, t: nat)
    requires Inv(s) && w < |s.workers| && t < |s.pushers| && IsSubmitted(s, t) && Left(s, w, t) == 0
    ensures s.runs[t] == 1 && s.done[t] && s.pushers[t].Returned?
  {
    assert TaskOk(s, t);
    MuchLeft(s, w, t);
  }

  lemma MuchLeft(s: State, w: nat, t: nat)
    requires Placed(s) && w < |s.workers| && t < |s.pushers|
    ensures s.where[t].InSlot? ==> Left(s, w, t) > 0
  {
    if s.where[t].InSlot? { LeftInSlot(s, w, t, s.where[t].slot); }
  }
}
