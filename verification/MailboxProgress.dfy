/** Progress of the mailbox: under fair schedules every pusher finds a free slot, so every task runs and every pusher
    returns. */
module MailboxProgress {
  import opened Mailbox

  function StillTrying(pushers: seq<Pusher>): (bs: seq<bool>)
    ensures |bs| == |pushers| && forall p | 0 <= p < |bs| :: bs[p] == pushers[p].Trying?
  {
    seq(|pushers|, p requires 0 <= p < |pushers| => pushers[p].Trying?)
  }

  /** The pushers that have not found a free slot yet. */
  function Unsent(s: State): nat { Count(StillTrying(s.pushers)) }

  ghost function UnsentAfter(m: nat, tasks: nat, workers: nat, events: seq<Event>): nat
    requires m > 0 && AreEvents(tasks, workers, events)
  {
    Unsent(Run(m, tasks, workers, events))
  }

  lemma PushersChange(pushers: seq<Pusher>, p: nat, pusher: Pusher)
    requires p < |pushers|
    ensures Count(StillTrying(pushers[p := pusher])) ==
            Count(StillTrying(pushers)) - (if pushers[p].Trying? then 1 else 0) + (if pusher.Trying? then 1 else 0)
  {
    CountUpdate(StillTrying(pushers), p, pusher.Trying?);
    assert StillTrying(pushers[p := pusher]) == StillTrying(pushers)[p := pusher.Trying?];
  }

  /** The same pushers are trying, and no slot has been filled. */
  predicate NothingSent(s: State, s': State) {
    && |s'.pushers| == |s.pushers| && |s'.slots| == |s.slots|
    && (forall p | 0 <= p < |s.pushers| :: s'.pushers[p].Trying? == s.pushers[p].Trying?)
    && forall i | 0 <= i < |s.slots| :: s'.slots[i].Holds? ==> s.slots[i].Holds?
  }

  /** A step fills no slot, or there is one pusher less that is trying. */
  lemma StepSends(s: State, e: Event)
    requires Shape(s) && IsEvent(|s.pushers|, |s.workers|, e)
    ensures var s' := Step(s, e); if Unsent(s') == Unsent(s) then NothingSent(s, s') else Unsent(s') < Unsent(s)
  {
    hide Count, StillTrying;
    match e {
      case PusherStep(p, spurious) => PushersChange(s.pushers, p, Push(s, p, spurious).pushers[p]);
      case WorkerStep(w) =>
    }
  }

  lemma {:induction false} ScheduleSends(m: nat, tasks: nat, workers: nat, events: seq<Event>, more: seq<Event>)
    requires m > 0 && AreEvents(tasks, workers, events) && AreEvents(tasks, workers, more)
    ensures AreEvents(tasks, workers, events + more)
    ensures var s, s' := Run(m, tasks, workers, events), Run(m, tasks, workers, events + more);
            Unsent(s') <= Unsent(s) && (Unsent(s') == Unsent(s) ==> NothingSent(s, s'))
    decreases |more|
  {
    hide Run, Unsent, IsEvent, Shape, Step;
    if more == [] {
      assert events + more == events;
    } else {
      RunOne(m, tasks, workers, events, more[0]);
      StepSends(Run(m, tasks, workers, events), more[0]);
      ScheduleSends(m, tasks, workers, events + [more[0]], more[1..]);
      assert events + [more[0]] + more[1..] == events + more;
    }
  }

  /** While all slots are empty a pusher that takes a step finds one. */
  lemma {:induction false} EmptySlotIsFound(m: nat, tasks: nat, workers: nat, events: seq<Event>, round: seq<Event>, p: nat)
    requires m > 0 && AreEvents(tasks, workers, events) && AreEvents(tasks, workers, round) && p < tasks
    requires PusherStep(p, false) in round && Run(m, tasks, workers, events).pushers[p].Trying?
    requires forall i | 0 <= i < m :: Run(m, tasks, workers, events).slots[i] == Empty
    ensures AreEvents(tasks, workers, events + round)
    ensures UnsentAfter(m, tasks, workers, events + round) < UnsentAfter(m, tasks, workers, events)
    decreases |round|
  {
    hide Run, Unsent, IsEvent, Shape, Step;
    var e, s := round[0], Run(m, tasks, workers, events);
    RunOne(m, tasks, workers, events, e);
    StepSends(s, e);
    ScheduleSends(m, tasks, workers, events + [e], round[1..]);
    assert events + [e] + round[1..] == events + round;
    if Unsent(Step(s, e)) == Unsent(s) {
      if e == PusherStep(p, false) { FindsEmpty(s, p); }
      EmptySlotIsFound(m, tasks, workers, events + [e], round[1..], p);
    }
  }

  lemma FindsEmpty(s: State, p: nat)
    requires Shape(s) && p < |s.pushers| && s.pushers[p].Trying? && forall i | 0 <= i < |s.slots| :: s.slots[i] == Empty
    ensures |Step(s, PusherStep(p, false)).pushers| == |s.pushers| && !Step(s, PusherStep(p, false)).pushers[p].Trying?
  {}

  // ---- Rounds -----------------------------------------------------------------------------------------

  /** The rounds after which the tasks submitted before have run. */
  function Enough(m: nat, tasks: nat): nat { (4 * m + 4) * (3 * tasks + 1) + 6 }

  /** Rounds of all threads, in which each pusher takes a step whose compare-exchange does not fail without a reason. */
  ghost predicate AreFairRounds(tasks: nat, workers: nat, rounds: seq<seq<Event>>) {
    && AreRounds(tasks, workers, rounds)
    && forall k, p: nat | 0 <= k < |rounds| && p < tasks :: PusherStep(p, false) in rounds[k]
  }

  lemma {:induction false} OrderOfBoth(a: seq<seq<Event>>, b: seq<seq<Event>>)
    ensures InOrder(a + b) == InOrder(a) + InOrder(b)
    decreases |a|
  {
    if a == [] {
      assert a + b == b;
    } else {
      OrderOfBoth(a[1..], b);
      assert (a + b)[1..] == a[1..] + b;
    }
  }

  lemma {:induction false} RoundsAreEvents(tasks: nat, workers: nat, rounds: seq<seq<Event>>)
    requires AreRounds(tasks, workers, rounds)
    ensures AreEvents(tasks, workers, InOrder(rounds))
    decreases |rounds|
  {
    if rounds != [] {
      assert IsRound(tasks, workers, rounds[0]);
      assert AreRounds(tasks, workers, rounds[1..]);
      RoundsAreEvents(tasks, workers, rounds[1..]);
    }
  }

  lemma BothAreEvents(tasks: nat, workers: nat, a: seq<Event>, b: seq<Event>)
    requires AreEvents(tasks, workers, a) && AreEvents(tasks, workers, b)
    ensures AreEvents(tasks, workers, a + b)
  {}

  /** A part of fair rounds is one. */
  lemma PartIsFair(tasks: nat, workers: nat, rounds: seq<seq<Event>>, i: nat, j: nat)
    requires AreFairRounds(tasks, workers, rounds) && i <= j <= |rounds|
    ensures AreFairRounds(tasks, workers, rounds[i..j])
  {
    var part := rounds[i..j];
    forall k | 0 <= k < |part| ensures IsRound(tasks, workers, part[k]) { assert part[k] == rounds[i + k]; }
    forall k, p: nat | 0 <= k < |part| && p < tasks ensures PusherStep(p, false) in part[k] {
      assert part[k] == rounds[i + k];
    }
  }

  lemma SplitRounds(tasks: nat, workers: nat, events: seq<Event>, rounds: seq<seq<Event>>, n: nat)
    requires AreEvents(tasks, workers, events) && AreFairRounds(tasks, workers, rounds) && n <= |rounds|
    ensures AreFairRounds(tasks, workers, rounds[..n]) && AreFairRounds(tasks, workers, rounds[n..])
    ensures AreRounds(tasks, workers, rounds[..n]) && AreRounds(tasks, workers, rounds[n..])
    ensures AreEvents(tasks, workers, InOrder(rounds[..n])) && AreEvents(tasks, workers, InOrder(rounds[n..]))
    ensures AreEvents(tasks, workers, events + InOrder(rounds[..n])) && AreEvents(tasks, workers, events + InOrder(rounds))
    ensures events + InOrder(rounds) == events + InOrder(rounds[..n]) + InOrder(rounds[n..])
  {
    hide *;
    var a, b := rounds[..n], rounds[n..];
    assert rounds[0..n] == a && rounds[n..|rounds|] == b && a + b == rounds;
    PartIsFair(tasks, workers, rounds, 0, n);
    PartIsFair(tasks, workers, rounds, n, |rounds|);
    FairAreRounds(tasks, workers, a);
    FairAreRounds(tasks, workers, b);
    FairAreRounds(tasks, workers, rounds);
    OrderOfBoth(a, b);
    BothAreEvents(tasks, workers, events, InOrder(a));
    BothAreEvents(tasks, workers, events, InOrder(rounds));
    Associate(events, InOrder(a), InOrder(b));
  }

  lemma FairAreRounds(tasks: nat, workers: nat, rounds: seq<seq<Event>>)
    requires AreFairRounds(tasks, workers, rounds)
    ensures AreRounds(tasks, workers, rounds) && AreEvents(tasks, workers, InOrder(rounds))
  {
    RoundsAreEvents(tasks, workers, rounds);
  }

  lemma Associate(a: seq<Event>, b: seq<Event>, c: seq<Event>)
    ensures a + (b + c) == a + b + c
  {}

  /** When no further task has been submitted in the meantime, all slots are empty. */
  lemma SlotsAreEmpty(m: nat, tasks: nat, workers: nat, events: seq<Event>, rounds: seq<seq<Event>>)
    requires m > 0 && workers > 0 && AreEvents(tasks, workers, events) && AreRounds(tasks, workers, rounds)
    requires |rounds| >= Enough(m, tasks) && AreEvents(tasks, workers, events + InOrder(rounds))
    requires NothingSent(Run(m, tasks, workers, events), Run(m, tasks, workers, events + InOrder(rounds)))
    ensures forall i | 0 <= i < m :: Run(m, tasks, workers, events + InOrder(rounds)).slots[i] == Empty
  {
    var s, s' := Run(m, tasks, workers, events), Run(m, tasks, workers, events + InOrder(rounds));
    hide Run, AreEvents, AreRounds, InOrder;
    forall i | 0 <= i < m ensures s'.slots[i] == Empty {
      if s'.slots[i].Holds? {
        var t := HeldIsSent(s', i);
        SubmittedTasksRun(m, tasks, workers, events, rounds, t);
        assert false;
      }
    }
  }

  lemma HeldIsSent(s: State, i: nat) returns (t: nat)
    requires Inv(s) && i < |s.slots| && s.slots[i].Holds?
    ensures t < |s.pushers| && !s.pushers[t].Trying? && !s.pushers[t].Returned? && t == s.slots[i].task
  {
    t := s.slots[i].task;
    assert SlotOk(s, i);
    assert TaskOk(s, t);
  }

  lemma OneRound(events: seq<Event>, round: seq<Event>)
    ensures events + InOrder([round]) == events + round
  {
    assert [round][1..] == [];
    assert InOrder([]) == [];
    assert InOrder([round]) == round + [];
  }

  /** After enough rounds and one more another task has been submitted, if there was one left. */
  lemma AnotherIsSent(m: nat, tasks: nat, workers: nat, events: seq<Event>, rounds: seq<seq<Event>>)
    requires m > 0 && workers > 0 && AreEvents(tasks, workers, events) && AreFairRounds(tasks, workers, rounds)
    requires |rounds| == Enough(m, tasks) + 1
    ensures AreEvents(tasks, workers, events + InOrder(rounds))
    ensures var before, after := UnsentAfter(m, tasks, workers, events), UnsentAfter(m, tasks, workers, events + InOrder(rounds));
            before == after == 0 || after < before
  {
    var n := Enough(m, tasks);
    var first, last := rounds[..n], rounds[n];
    LastRound(tasks, workers, rounds);
    assert rounds[n..] == [last];
    hide *;
    SplitRounds(tasks, workers, events, rounds, n);
    OneRound(events + InOrder(first), last);
    ScheduleSends(m, tasks, workers, events, InOrder(first));
    ScheduleSends(m, tasks, workers, events + InOrder(first), last);
    SentAfter(m, tasks, workers, events);
    SentAfter(m, tasks, workers, events + InOrder(first));
    SentAfter(m, tasks, workers, events + InOrder(rounds));
    var s, s1 := Run(m, tasks, workers, events), Run(m, tasks, workers, events + InOrder(first));
    if Unsent(s) > 0 && Unsent(s1) == Unsent(s) {
      SlotsAreEmpty(m, tasks, workers, events, first);
      var p := SomeTries(s1);
      EmptySlotIsFound(m, tasks, workers, events + InOrder(first), last, p);
    }
  }

  lemma SentAfter(m: nat, tasks: nat, workers: nat, events: seq<Event>)
    requires m > 0 && AreEvents(tasks, workers, events)
    ensures UnsentAfter(m, tasks, workers, events) == Unsent(Run(m, tasks, workers, events))
  {}

  lemma LastRound(tasks: nat, workers: nat, rounds: seq<seq<Event>>)
    requires AreFairRounds(tasks, workers, rounds) && rounds != []
    ensures var last := rounds[|rounds| - 1];
            AreEvents(tasks, workers, last) && forall p: nat | p < tasks :: PusherStep(p, false) in last
  {
    assert IsRound(tasks, workers, rounds[|rounds| - 1]);
  }

  lemma SomeTries(s: State) returns (p: nat)
    requires Unsent(s) > 0
    ensures p < |s.pushers| && s.pushers[p].Trying?
  {
    if forall q | 0 <= q < |s.pushers| :: !s.pushers[q].Trying? {
      NoneCounted(StillTrying(s.pushers));
      assert false;
    }
    p :| 0 <= p < |s.pushers| && s.pushers[p].Trying?;
  }

  lemma {:induction false} AllAreSent(m: nat, tasks: nat, workers: nat, events: seq<Event>, rounds: seq<seq<Event>>, k: nat)
    requires m > 0 && workers > 0 && AreEvents(tasks, workers, events) && AreFairRounds(tasks, workers, rounds)
    requires |rounds| == k * (Enough(m, tasks) + 1) && UnsentAfter(m, tasks, workers, events) <= k
    ensures AreEvents(tasks, workers, events + InOrder(rounds))
    ensures UnsentAfter(m, tasks, workers, events + InOrder(rounds)) == 0
    decreases k
  {
    hide *;
    if k == 0 {
      Nothing(Enough(m, tasks) + 1);
      assert rounds == [];
      NoRounds(events);
    } else {
      var n := Enough(m, tasks) + 1;
      OneLess(k, n);
      SplitRounds(tasks, workers, events, rounds, n);
      AnotherIsSent(m, tasks, workers, events, rounds[..n]);
      AllAreSent(m, tasks, workers, events + InOrder(rounds[..n]), rounds[n..], k - 1);
    }
  }

  lemma Nothing(n: nat)
    ensures 0 * n == 0
  {}

  lemma OneLess(k: nat, n: nat)
    requires k > 0
    ensures k * n == (k - 1) * n + n && (k - 1) * n >= 0
  {}

  lemma UnsentAtMost(s: State)
    ensures Unsent(s) <= |s.pushers|
  {
    CountAtMost(StillTrying(s.pushers));
  }

  lemma {:induction false} CountAtMost(bs: seq<bool>)
    ensures Count(bs) <= |bs|
    decreases |bs|
  {
    if bs != [] { CountAtMost(bs[..|bs| - 1]); }
  }

  lemma AllTrue(s: State, t: nat)
    requires Unsent(s) == 0 && t < |s.pushers|
    ensures IsSubmitted(s, t)
  {
    if s.pushers[t].Trying? { SomeCounted(StillTrying(s.pushers), t); }
  }

  lemma {:induction false} SomeCounted(bs: seq<bool>, k: nat)
    requires k < |bs| && bs[k]
    ensures Count(bs) > 0
    decreases |bs|
  {
    if k < |bs| - 1 { SomeCounted(bs[..|bs| - 1], k); }
  }

  /** Under a fair schedule without failures that have no reason, every task is submitted, runs exactly once and is announced,
      and every pusher returns. */
  lemma EveryPusherReturns(m: nat, tasks: nat, workers: nat, events: seq<Event>, rounds: seq<seq<Event>>, t: nat)
    requires m > 0 && workers > 0 && AreEvents(tasks, workers, events) && AreFairRounds(tasks, workers, rounds) && t < tasks
    requires |rounds| >= tasks * (Enough(m, tasks) + 1) + Enough(m, tasks)
    ensures AreEvents(tasks, workers, events + InOrder(rounds))
    ensures var s := Run(m, tasks, workers, events + InOrder(rounds)); s.runs[t] == 1 && s.done[t] && s.pushers[t].Returned?
  {
    hide *;
    var n := tasks * (Enough(m, tasks) + 1);
    Least(tasks, Enough(m, tasks) + 1);
    UnsentAtMost(Run(m, tasks, workers, events));
    SentAfter(m, tasks, workers, events);
    SplitRounds(tasks, workers, events, rounds, n);
    AllAreSent(m, tasks, workers, events, rounds[..n], tasks);
    SentAfter(m, tasks, workers, events + InOrder(rounds[..n]));
    AllTrue(Run(m, tasks, workers, events + InOrder(rounds[..n])), t);
    EnoughIs(m, tasks);
    SubmittedTasksRun(m, tasks, workers, events + InOrder(rounds[..n]), rounds[n..], t);
  }

  lemma Least(k: nat, n: nat)
    ensures k * n >= 0
  {}

  lemma EnoughIs(m: nat, tasks: nat)
    ensures Enough(m, tasks) == (4 * m + 4) * (3 * tasks + 1) + 6
  {}
}
