/** The sense-reversing barrier, as atomic steps of n threads that enter it again and again. */
module Barrier {

  /** Where a thread is between two atomic steps; `wait` is the sense it has read. */
  datatype Pc =
    | Outside
    | HasRead(wait: nat)
    | Spinning(wait: nat)
    | StoreCount      // the leader, before it stores 0 to count,
    | StoreLeaving    // before it stores n to leaving,
    | Flip            // and before it flips wait
    | Leaving

  /** `episode` counts the barriers that the thread has left. */
  datatype Thread = Thread(pc: Pc, episode: nat)

  /** The shared variables, and how often `wait` was flipped. */
  datatype State = State(count: int, leaving: int, wait: nat, threads: seq<Thread>, flips: nat)

  function Initial(n: nat): State { State(0, 0, 0, seq(n, _ => Thread(Outside, 0)), 0) }

  function SetPc(s: State, t: nat, pc: Pc): State
    requires t < |s.threads|
  {
    s.(threads := s.threads[t := s.threads[t].(pc := pc)])
  }

  /** The next atomic step of thread `t`. */
  function Step(s: State, t: nat): State
    requires t < |s.threads|
  {
    match s.threads[t].pc
    case Outside => SetPc(s, t, HasRead(s.wait))
    case HasRead(w) =>
      SetPc(s.(count := s.count + 1), t, if |s.threads| == 1 + s.count then StoreCount else Spinning(w))
    case StoreCount => SetPc(s.(count := 0), t, StoreLeaving)
    case StoreLeaving => SetPc(s.(leaving := |s.threads|), t, Flip)
    case Flip => SetPc(s.(wait := 1 - s.wait % 2, flips := s.flips + 1), t, Leaving)
    case Spinning(w) => if s.wait == w then s else SetPc(s, t, Leaving)
    case Leaving =>
      s.(leaving := s.leaving - 1, threads := s.threads[t := Thread(Outside, s.threads[t].episode + 1)])
  }

  predicate IsSchedule(n: nat, schedule: seq<nat>) { forall k | 0 <= k < |schedule| :: schedule[k] < n }

  /** The state after the threads have taken steps in the given order. */
  function Run(n: nat, schedule: seq<nat>): (s: State)
    requires IsSchedule(n, schedule)
    ensures |s.threads| == n
  {
    if schedule == [] then Initial(n)
    else Step(Run(n, schedule[..|schedule| - 1]), schedule[|schedule| - 1])
  }

  // ---- The invariant ------------------------------------------------------------------------

  predicate IsLeader(th: Thread) { th.pc.StoreCount? || th.pc.StoreLeaving? || th.pc.Flip? }

  /** It has arrived in the current episode, whose barrier is not flipped yet. */
  predicate HasArrived(th: Thread, flips: nat) { th.episode == flips && (th.pc.Spinning? || IsLeader(th)) }

  /** Its barrier is flipped, but it has not left yet. */
  predicate IsReleased(th: Thread, flips: nat) { th.episode + 1 == flips }

  function Arrived(ths: seq<Thread>, flips: nat): set<nat> { set t | 0 <= t < |ths| && HasArrived(ths[t], flips) }

  function Released(ths: seq<Thread>, flips: nat): set<nat> { set t | 0 <= t < |ths| && IsReleased(ths[t], flips) }

  function All(n: nat): set<nat> { if n == 0 then {} else All(n - 1) + {n - 1} }

  predicate ThreadOk(th: Thread, wait: nat, flips: nat) {
    if th.episode == flips then
      match th.pc
      case Outside | StoreCount | StoreLeaving | Flip => true
      case HasRead(w) => w == wait
      case Spinning(w) => w == wait
      case Leaving => false
    else
      th.episode + 1 == flips && ((th.pc.Spinning? && th.pc.wait != wait) || th.pc.Leaving?)
  }

  predicate HasLeader(s: State) { exists t | 0 <= t < |s.threads| :: IsLeader(s.threads[t]) }

  predicate Inv(s: State) {
    && s.wait == s.flips % 2
    && (forall t | 0 <= t < |s.threads| :: ThreadOk(s.threads[t], s.wait, s.flips))
    && (forall t | 0 <= t < |s.threads| && IsLeader(s.threads[t]) :: LeaderOk(s, t))
    && (!HasLeader(s) ==>
          && s.count == |Arrived(s.threads, s.flips)| && (s.threads != [] ==> s.count < |s.threads|)
          && s.leaving == |Released(s.threads, s.flips)|)
  }

  /** A leader is the only one, all threads have arrived, and the counters tell its progress. */
  predicate LeaderOk(s: State, t: nat)
    requires t < |s.threads|
  {
    && (forall u | 0 <= u < |s.threads| :: HasArrived(s.threads[u], s.flips) && (u != t ==> s.threads[u].pc.Spinning?))
    && match s.threads[t].pc
       case StoreCount => s.count == |s.threads| && s.leaving == 0
       case StoreLeaving => s.count == 0 && s.leaving == 0
       case Flip => s.count == 0 && s.leaving == |s.threads|
       case _ => true
  }

  // ---- Sets of threads ------------------------------------------------------------------------

  lemma {:induction false} AllHas(n: nat)
    ensures |All(n)| == n && forall t: nat :: t in All(n) <==> t < n
  {
    if n > 0 { AllHas(n - 1); }
  }

  /** What a change of one thread does to the sets. */
  lemma Updated(ths: seq<Thread>, t: nat, th: Thread, flips: nat)
    requires t < |ths|
    ensures Arrived(ths[t := th], flips) == if HasArrived(th, flips) then Arrived(ths, flips) + {t} else Arrived(ths, flips) - {t}
    ensures Released(ths[t := th], flips) == if IsReleased(th, flips) then Released(ths, flips) + {t} else Released(ths, flips) - {t}
    ensures t in Arrived(ths, flips) <==> HasArrived(ths[t], flips)
    ensures t in Released(ths, flips) <==> IsReleased(ths[t], flips)
    ensures HasArrived(th, flips) == HasArrived(ths[t], flips) ==> Arrived(ths[t := th], flips) == Arrived(ths, flips)
    ensures IsReleased(th, flips) == IsReleased(ths[t], flips) ==> Released(ths[t := th], flips) == Released(ths, flips)
  {
    hide HasArrived, IsReleased;
    var us := ths[t := th];
    assert forall u | 0 <= u < |us| && u != t :: us[u] == ths[u];
  }

  lemma Uniform(ths: seq<Thread>, flips: nat)
    ensures (forall t | 0 <= t < |ths| :: !HasArrived(ths[t], flips)) ==> Arrived(ths, flips) == {}
    ensures (forall t | 0 <= t < |ths| :: HasArrived(ths[t], flips)) ==> Arrived(ths, flips) == All(|ths|)
    ensures (forall t | 0 <= t < |ths| :: !IsReleased(ths[t], flips)) ==> Released(ths, flips) == {}
    ensures (forall t | 0 <= t < |ths| :: IsReleased(ths[t], flips)) ==> Released(ths, flips) == All(|ths|)
    ensures Arrived(ths, flips) == All(|ths|) ==> forall t | 0 <= t < |ths| :: HasArrived(ths[t], flips)
  {
    hide HasArrived, IsReleased, All;
    AllHas(|ths|);
    if Arrived(ths, flips) == All(|ths|) {
      forall t | 0 <= t < |ths| ensures HasArrived(ths[t], flips) { assert t in All(|ths|); }
    }
  }

  lemma {:induction false} SubsetSize(a: set<nat>, b: set<nat>)
    requires a <= b
    ensures |a| <= |b| && (|a| == |b| ==> a == b)
    decreases |b|
  {
    if b != {} {
      var x :| x in b;
      SubsetSize(a - {x}, b - {x});
      if x in a {
        assert a == a - {x} + {x} && b == b - {x} + {x};
      } else {
        assert a - {x} == a;
      }
    }
  }

  lemma InitialHolds(n: nat)
    ensures Inv(Initial(n))
  {
    Uniform(Initial(n).threads, 0);
  }

  // ---- Every step keeps the invariant -----------------------------------------------------------

  /** A step that changes only where one thread is, without it arriving or leaving. */
  lemma MoveKeeps(s: State, t: nat, pc: Pc)
    requires Inv(s) && t < |s.threads| && !IsLeader(s.threads[t]) && !IsLeader(Thread(pc, 0)) && !HasLeader(s)
    requires ThreadOk(Thread(pc, s.threads[t].episode), s.wait, s.flips)
    requires HasArrived(Thread(pc, s.threads[t].episode), s.flips) == HasArrived(s.threads[t], s.flips)
    ensures Inv(SetPc(s, t, pc))
  {
    hide Arrived, Released;
    Updated(s.threads, t, s.threads[t].(pc := pc), s.flips);
  }

  lemma NoLeaderWithout(s: State, t: nat)
    requires Inv(s) && t < |s.threads| && !HasArrived(s.threads[t], s.flips)
    ensures !HasLeader(s)
  {}

  lemma EnterKeeps(s: State, t: nat)
    requires Inv(s) && t < |s.threads| && s.threads[t].pc.Outside?
    ensures Inv(Step(s, t))
  {
    NoLeaderWithout(s, t);
    MoveKeeps(s, t, HasRead(s.wait));
  }

  lemma ArrivalCounts(s: State, t: nat)
    requires Inv(s) && t < |s.threads| && s.threads[t].pc.HasRead?
    ensures var s' := Step(s, t);
            && Released(s'.threads, s.flips) == Released(s.threads, s.flips)
            && |Arrived(s'.threads, s.flips)| == |Arrived(s.threads, s.flips)| + 1
  {
    hide Arrived, Released;
    assert ThreadOk(s.threads[t], s.wait, s.flips);
    Updated(s.threads, t, Step(s, t).threads[t], s.flips);
  }

  lemma ArriveKeeps(s: State, t: nat)
    requires Inv(s) && t < |s.threads| && s.threads[t].pc.HasRead?
    ensures Inv(Step(s, t))
  {
    hide Arrived, Released, All;
    NoLeaderWithout(s, t);
    ArrivalCounts(s, t);
    var s' := Step(s, t);
    ThreadsBelow(s'.threads, s.flips);
    SubsetSize(Arrived(s'.threads, s.flips), All(|s.threads|));
    if |s.threads| == 1 + s.count {
      AllArrived(s', t);
      assert IsLeader(s'.threads[t]);
    }
  }

  lemma ThreadsBelow(ths: seq<Thread>, flips: nat)
    ensures Arrived(ths, flips) <= All(|ths|) && Released(ths, flips) <= All(|ths|) && |All(|ths|)| == |ths|
  {
    hide All;
    AllHas(|ths|);
  }

  /** When all threads have arrived none is left to leave, and the last one leads. */
  lemma AllArrived(s: State, t: nat)
    requires t < |s.threads| && Arrived(s.threads, s.flips) == All(|s.threads|)
    requires s.leaving == |Released(s.threads, s.flips)| && s.count == |s.threads| && s.threads[t].pc.StoreCount?
    requires forall u | 0 <= u < |s.threads| && u != t :: !IsLeader(s.threads[u])
    ensures LeaderOk(s, t)
  {
    hide Arrived, Released, All;
    Uniform(s.threads, s.flips);
  }

  lemma LeadKeeps(s: State, t: nat)
    requires Inv(s) && t < |s.threads| && (s.threads[t].pc.StoreCount? || s.threads[t].pc.StoreLeaving?)
    ensures Inv(Step(s, t))
  {
    hide Arrived, Released;
    assert IsLeader(Step(s, t).threads[t]);
  }

  lemma FlipKeeps(s: State, t: nat)
    requires Inv(s) && t < |s.threads| && s.threads[t].pc.Flip?
    ensures Inv(Step(s, t))
  {
    hide Arrived, Released, All;
    var s' := Step(s, t);
    assert LeaderOk(s, t);
    AllHas(|s.threads|);
    Uniform(s'.threads, s'.flips);
  }

  lemma SpinKeeps(s: State, t: nat)
    requires Inv(s) && t < |s.threads| && s.threads[t].pc.Spinning?
    ensures Inv(Step(s, t))
  {
    hide Arrived, Released;
    if s.wait != s.threads[t].pc.wait {
      NoLeaderWithout(s, t);
      MoveKeeps(s, t, Leaving);
    }
  }

  lemma LeaveKeeps(s: State, t: nat)
    requires Inv(s) && t < |s.threads| && s.threads[t].pc.Leaving?
    ensures Inv(Step(s, t))
  {
    hide Arrived, Released;
    NoLeaderWithout(s, t);
    Updated(s.threads, t, Step(s, t).threads[t], s.flips);
  }

  lemma StepKeeps(s: State, t: nat)
    requires Inv(s) && t < |s.threads|
    ensures Inv(Step(s, t))
  {
    hide Inv, Step;
    match s.threads[t].pc {
      case Outside => EnterKeeps(s, t);
      case HasRead(_) => ArriveKeeps(s, t);
      case StoreCount => LeadKeeps(s, t);
      case StoreLeaving => LeadKeeps(s, t);
      case Flip => FlipKeeps(s, t);
      case Spinning(_) => SpinKeeps(s, t);
      case Leaving => LeaveKeeps(s, t);
    }
  }

  /** The invariant holds in every reachable state: after every interleaving of the threads' steps. */
  lemma {:induction false} RunKeeps(n: nat, schedule: seq<nat>)
    requires IsSchedule(n, schedule)
    ensures Inv(Run(n, schedule))
  {
    if schedule == [] {
      InitialHolds(n);
    } else {
      RunKeeps(n, schedule[..|schedule| - 1]);
      StepKeeps(Run(n, schedule[..|schedule| - 1]), schedule[|schedule| - 1]);
    }
  }

  // ---- What it says ---------------------------------------------------------------------------------

  /** Inside the barrier: it has arrived and not left. */
  predicate Inside(th: Thread) { !th.pc.Outside? && !th.pc.HasRead? }

  /** No thread leaves an episode before all have arrived in it, so two threads are at most one episode apart. */
  lemma NobodyLeavesEarly(n: nat, schedule: seq<nat>, t: nat, u: nat)
    requires IsSchedule(n, schedule) && t < n && u < n
    ensures var ths := Run(n, schedule).threads;
            && ths[t].episode <= ths[u].episode + 1
            && (ths[u].episode < ths[t].episode ==> Inside(ths[u]))
  {
    RunKeeps(n, schedule);
    var s := Run(n, schedule);
    assert ThreadOk(s.threads[t], s.wait, s.flips) && ThreadOk(s.threads[u], s.wait, s.flips);
  }

  /** The sense read before arriving is still the current one when the thread arrives, and after the flip a spinning
      thread sees the other one until it leaves: the flip cannot be missed. */
  lemma FlipIsSeen(n: nat, schedule: seq<nat>, t: nat)
    requires IsSchedule(n, schedule) && t < n
    ensures var s := Run(n, schedule);
            && (s.threads[t].pc.HasRead? ==> s.threads[t].pc.wait == s.wait)
            && (s.threads[t].pc.Spinning? ==> (s.threads[t].pc.wait != s.wait <==> IsReleased(s.threads[t], s.flips)))
  {
    RunKeeps(n, schedule);
    var s := Run(n, schedule);
    assert ThreadOk(s.threads[t], s.wait, s.flips);
  }

  /** The counters: `count` arrivals of the current episode and `leaving` threads to leave, unless the leader is
      changing them; when it stores n to `leaving`, the variable is 0, so no decrement is lost. */
  lemma CountersAreExact(n: nat, schedule: seq<nat>)
    requires IsSchedule(n, schedule)
    ensures var s := Run(n, schedule);
            && (!HasLeader(s) ==> s.count == |Arrived(s.threads, s.flips)| && s.leaving == |Released(s.threads, s.flips)|)
            && (forall t | 0 <= t < n && s.threads[t].pc.StoreCount? :: s.count == n && s.leaving == 0)
            && (forall t | 0 <= t < n && s.threads[t].pc.StoreLeaving? :: s.count == 0 && s.leaving == 0)
            && 0 <= s.count <= n && 0 <= s.leaving <= n
  {
    RunKeeps(n, schedule);
    var s := Run(n, schedule);
    ThreadsBelow(s.threads, s.flips);
    SubsetSize(Arrived(s.threads, s.flips), All(n));
    SubsetSize(Released(s.threads, s.flips), All(n));
    if HasLeader(s) {
      var t :| 0 <= t < |s.threads| && IsLeader(s.threads[t]);
      assert LeaderOk(s, t);
    }
  }

  /** Some thread can always take a step that changes something. */
  lemma NeverStuck(n: nat, schedule: seq<nat>) returns (t: nat)
    requires IsSchedule(n, schedule) && n > 0
    ensures t < n && Step(Run(n, schedule), t) != Run(n, schedule)
  {
    RunKeeps(n, schedule);
    var s := Run(n, schedule);
    if u :| 0 <= u < n && !HasArrived(s.threads[u], s.flips) {
      t := u;
      assert ThreadOk(s.threads[u], s.wait, s.flips);
    } else {
      AllHas(n);
      Uniform(s.threads, s.flips);
      assert HasLeader(s);
      t :| 0 <= t < |s.threads| && IsLeader(s.threads[t]);
    }
    assert Step(s, t).threads[t] != s.threads[t];
  }

  // ---- Fair schedules --------------------------------------------------------------------------------------

  /** How far a thread has come, in steps. */
  function Progress(th: Thread): nat {
    6 * th.episode + match th.pc
                     case Outside => 0
                     case HasRead(_) => 1
                     case Spinning(_) | StoreCount => 2
                     case StoreLeaving => 3
                     case Flip => 4
                     case Leaving => 5
  }

  function Total(ths: seq<Thread>): nat { if ths == [] then 0 else Total(ths[..|ths| - 1]) + Progress(ths[|ths| - 1]) }

  lemma {:induction false} TotalUpdated(ths: seq<Thread>, t: nat, th: Thread)
    requires t < |ths|
    ensures Total(ths[t := th]) == Total(ths) - Progress(ths[t]) + Progress(th)
  {
    hide Progress;
    var n := |ths| - 1;
    if t == n {
      assert ths[t := th][..n] == ths[..n];
    } else {
      TotalUpdated(ths[..n], t, th);
      assert ths[t := th][..n] == ths[..n][t := th];
    }
  }

  lemma {:induction false} TotalAtLeast(ths: seq<Thread>, low: int)
    requires forall t | 0 <= t < |ths| :: low <= Progress(ths[t])
    ensures |ths| * low <= Total(ths)
  {
    hide Progress;
    if ths != [] {
      TotalAtLeast(ths[..|ths| - 1], low);
      assert |ths| * low == (|ths| - 1) * low + low;
    }
  }

  lemma {:induction false} TotalAtMost(ths: seq<Thread>, high: int)
    requires forall t | 0 <= t < |ths| :: Progress(ths[t]) <= high
    ensures Total(ths) <= |ths| * high
  {
    hide Progress;
    if ths != [] {
      TotalAtMost(ths[..|ths| - 1], high);
      assert |ths| * high == (|ths| - 1) * high + high;
    }
  }

  /** A step that changes something is progress. */
  lemma StepRaises(s: State, t: nat)
    requires t < |s.threads|
    ensures |Step(s, t).threads| == |s.threads|
    ensures Step(s, t) == s || Total(Step(s, t).threads) > Total(s.threads)
  {
    TotalUpdated(s.threads, t, Step(s, t).threads[t]);
    assert Step(s, t).threads == s.threads[t := Step(s, t).threads[t]];
    hide Total;
  }

  lemma NobodyIsReleased(s: State, t: nat, u: nat)
    requires Inv(s) && t < |s.threads| && u < |s.threads| && s.threads[t].pc.Spinning? && s.threads[u].pc.Flip?
    ensures s.threads[t].pc.wait == s.wait
  {
    assert LeaderOk(s, u);
    assert ThreadOk(s.threads[t], s.wait, s.flips);
  }

  /** What can change something still can after steps of others: a flip that has not been seen does not go away. */
  lemma StaysEnabled(s: State, t: nat, u: nat)
    requires Inv(s) && t < |s.threads| && u < |s.threads| && u != t && Step(s, t) != s
    ensures |Step(s, u).threads| == |s.threads| && Step(Step(s, u), t) != Step(s, u)
  {
    var s' := Step(s, u);
    assert s'.threads[t] == s.threads[t];
    if s.threads[t].pc.Spinning? && s.threads[u].pc.Flip? {
      NobodyIsReleased(s, t, u);
    } else {
      hide Inv;
      assert s.threads[t].pc.Spinning? ==> s'.wait == s.wait;
      assert Step(s', t).threads[t] != s'.threads[t];
    }
  }

  lemma RunOne(n: nat, schedule: seq<nat>, t: nat)
    requires IsSchedule(n, schedule) && t < n
    ensures IsSchedule(n, schedule + [t]) && Run(n, schedule + [t]) == Step(Run(n, schedule), t)
  {
    hide Step;
    assert (schedule + [t])[..|schedule|] == schedule;
  }

  /** When every thread takes a step in some order, at least one of them makes progress. */
  lemma {:induction false} RoundRaises(n: nat, schedule: seq<nat>, round: seq<nat>, t: nat)
    requires IsSchedule(n, schedule) && IsSchedule(n, round) && t < n
    ensures IsSchedule(n, schedule + round)
    ensures Total(Run(n, schedule + round).threads) >= Total(Run(n, schedule).threads)
    ensures t in round && Step(Run(n, schedule), t) != Run(n, schedule) ==>
              Total(Run(n, schedule + round).threads) > Total(Run(n, schedule).threads)
    decreases |round|
  {
    hide Step, Total, Inv, Run;
    if round == [] {
      assert schedule + round == schedule;
    } else {
      var u := round[0];
      var s := Run(n, schedule);
      RunKeeps(n, schedule);
      RunOne(n, schedule, u);
      StepRaises(s, u);
      if u != t && Step(s, t) != s { StaysEnabled(s, t, u); }
      RoundRaises(n, schedule + [u], round[1..], t);
      assert schedule + [u] + round[1..] == schedule + round;
    }
  }

  predicate IsRound(n: nat, round: seq<nat>) { IsSchedule(n, round) && forall t: nat | t < n :: t in round }

  predicate AreRounds(n: nat, rounds: seq<seq<nat>>) { forall k | 0 <= k < |rounds| :: IsRound(n, rounds[k]) }

  function InOrder(rounds: seq<seq<nat>>): seq<nat> { if rounds == [] then [] else rounds[0] + InOrder(rounds[1..]) }

  lemma {:induction false} RoundsRaise(n: nat, schedule: seq<nat>, rounds: seq<seq<nat>>)
    requires IsSchedule(n, schedule) && n > 0 && AreRounds(n, rounds)
    ensures IsSchedule(n, schedule + InOrder(rounds))
    ensures Total(Run(n, schedule + InOrder(rounds)).threads) >= Total(Run(n, schedule).threads) + |rounds|
    decreases |rounds|
  {
    hide Step, Total, Run;
    if rounds == [] {
      assert schedule + InOrder(rounds) == schedule;
    } else {
      assert IsRound(n, rounds[0]);
      var t := NeverStuck(n, schedule);
      RoundRaises(n, schedule, rounds[0], t);
      RoundsRaise(n, schedule + rounds[0], rounds[1..]);
      assert schedule + rounds[0] + InOrder(rounds[1..]) == schedule + InOrder(rounds);
    }
  }

  /** Under a fair schedule nobody waits forever: when all threads have taken a step, in any order and with any others
      between, more than 17 n times, then every thread has left another barrier. */
  lemma EverybodyLeaves(n: nat, schedule: seq<nat>, rounds: seq<seq<nat>>, t: nat)
    requires IsSchedule(n, schedule) && AreRounds(n, rounds) && |rounds| > 17 * n && t < n
    ensures IsSchedule(n, schedule + InOrder(rounds))
    ensures Run(n, schedule + InOrder(rounds)).threads[t].episode > Run(n, schedule).threads[t].episode
  {
    hide Step, Run, Total;
    RoundsRaise(n, schedule, rounds);
    var s, s' := Run(n, schedule), Run(n, schedule + InOrder(rounds));
    var e: int := s.threads[t].episode;
    forall u | 0 <= u < n ensures Progress(s.threads[u]) >= 6 * e - 6 { NobodyLeavesEarly(n, schedule, t, u); }
    assert n * (6 * e + 11) == n * (6 * e - 6) + 17 * n;
    if s'.threads[t].episode <= e {
      forall u | 0 <= u < n ensures Progress(s'.threads[u]) <= 6 * e + 11 {
        NobodyLeavesEarly(n, schedule + InOrder(rounds), u, t);
      }
      TotalAtLeast(s.threads, 6 * e - 6);
      TotalAtMost(s'.threads, 6 * e + 11);
    }
  }

  // ---- The barrier as its users see it --------------------------------------------------------------------

  /** A user of the barrier: the barriers it has left, and whether it waits in the next one. */
  datatype User = User(episode: nat, waiting: bool)

  function AsUser(th: Thread): User { User(th.episode, Inside(th)) }

  function Users(ths: seq<Thread>): (us: seq<User>)
    ensures |us| == |ths| && forall t | 0 <= t < |ths| :: us[t] == AsUser(ths[t])
  {
    seq(|ths|, t requires 0 <= t < |ths| => AsUser(ths[t]))
  }

  predicate MayArrive(us: seq<User>, t: nat) { t < |us| && !us[t].waiting }

  function Arrive(us: seq<User>, t: nat): seq<User>
    requires MayArrive(us, t)
  {
    us[t := us[t].(waiting := true)]
  }

  /** A user may leave when all have arrived in its episode. */
  predicate MayLeave(us: seq<User>, t: nat) {
    && t < |us| && us[t].waiting
    && forall u | 0 <= u < |us| :: us[u].episode > us[t].episode || (us[u].episode == us[t].episode && us[u].waiting)
  }

  function Leave(us: seq<User>, t: nat): seq<User>
    requires MayLeave(us, t)
  {
    us[t := User(us[t].episode + 1, false)]
  }

  /** Every step of the implementation is an arrival, a departure that is allowed, or nothing to its users. */
  lemma Refines(n: nat, schedule: seq<nat>, t: nat)
    requires IsSchedule(n, schedule) && t < n
    ensures var us, us' := Users(Run(n, schedule).threads), Users(Step(Run(n, schedule), t).threads);
            || us' == us
            || (MayArrive(us, t) && us' == Arrive(us, t))
            || (MayLeave(us, t) && us' == Leave(us, t))
  {
    RunKeeps(n, schedule);
    var s := Run(n, schedule);
    var us, us' := Users(s.threads), Users(Step(s, t).threads);
    var th := s.threads[t];
    assert ThreadOk(th, s.wait, s.flips);
    match th.pc {
      case HasRead(_) => assert us' == Arrive(us, t);
      case Leaving =>
        forall u | 0 <= u < |us|
          ensures us[u].episode > us[t].episode || (us[u].episode == us[t].episode && us[u].waiting)
        {
          assert ThreadOk(s.threads[u], s.wait, s.flips);
        }
        assert us' == Leave(us, t);
      case _ => assert us' == us;
    }
  }
}
