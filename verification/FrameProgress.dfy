/** Progress of the frame protocol: once no new frames are started, every task in hand is published, every frame closes,
    and all workers come back, under every fair schedule. */
module FrameProgress {
  import opened Text
  import B = Barrier
  import opened Frame

  // ---- How much is left to do -------------------------------------------------------------------------

  function PendingIn(visits: seq<Visit>): nat {
    if visits == [] then 0
    else PendingIn(visits[..|visits| - 1]) + if visits[|visits| - 1].pending.Some? then 1 else 0
  }

  /** The tasks that a worker still has to publish. */
  function TasksOf(wk: Worker): nat { PendingIn(wk.visits) + if Held(wk.pc).Some? then 1 else 0 }

  /** A worker takes part in the frame of the task that is published. */
  predicate Joined(pc: Pc) { pc.Copying? || pc.BeforeFirst? || pc.AtFirst? }

  /** A task is published that not all workers have copied. */
  predicate Announced(g: Shared) { g.published.Some? && !g.phase.Inside? }

  /** The steps to the end of a worker's way into the frame and out of it; finishing the roots of a new frame counts. */
  function Way(pc: Pc, n: nat): nat {
    match pc
    case Copying(_, _) => n + 10
    case BeforeFirst(_) => n + 9
    case AtFirst(_) => n + 8
    case Clearing(_) => n + 7
    case BeforeSecond(_) => n + 6
    case AtSecond(_) => 5
    case Running => 1
    case Trying(_, _) => 1
    case _ => 0
  }

  function Weight(wk: Worker, n: nat, announced: bool): nat {
    (n + 10) * (n + 1) * TasksOf(wk) + Way(wk.pc, n) + 3 * |wk.visits| + if announced && !Joined(wk.pc) then n + 10 else 0
  }

  function Weights(ws: seq<Worker>, n: nat, announced: bool): nat {
    if ws == [] then 0 else Weights(ws[..|ws| - 1], n, announced) + Weight(ws[|ws| - 1], n, announced)
  }

  function Unfinished(open: seq<set<nat>>): nat {
    if open == [] then 0 else Unfinished(open[..|open| - 1]) + |open[|open| - 1]|
  }

  /** Every step of a schedule without new frames lowers it. */
  function Distance(s: State): nat { Weights(s.workers, |s.workers|, Announced(s.g)) + Unfinished(s.g.open) }

  lemma {:induction false} WeightsChange(ws: seq<Worker>, n: nat, announced: bool, w: nat, wk: Worker)
    requires w < |ws|
    ensures Weights(ws[w := wk], n, announced) == Weights(ws, n, announced) - Weight(ws[w], n, announced) + Weight(wk, n, announced)
    decreases |ws|
  {
    hide Weight;
    var m := |ws| - 1;
    var ws' := ws[w := wk];
    if w < m {
      WeightsChange(ws[..m], n, announced, w, wk);
      assert ws'[..m] == ws[..m][w := wk];
    } else {
      assert ws'[..m] == ws[..m];
    }
  }

  /** An announcement costs at most this much. */
  lemma {:induction false} AnnouncementCosts(ws: seq<Worker>, n: nat)
    ensures Weights(ws, n, false) <= Weights(ws, n, true) <= Weights(ws, n, false) + (n + 10) * |ws|
    decreases |ws|
  {
    if ws != [] {
      var m := |ws| - 1;
      AnnouncementCosts(ws[..m], n);
      OneAnnouncement(ws[m], n);
      hide Weight;
      assert (n + 10) * |ws| == (n + 10) * m + (n + 10);
    }
  }

  lemma OneAnnouncement(wk: Worker, n: nat)
    ensures Weight(wk, n, false) <= Weight(wk, n, true) <= Weight(wk, n, false) + (n + 10)
  {
    hide TasksOf, Way;
  }

  /** A step that only changes its own worker, when the announcement stays. */
  lemma OwnChange(s: State, s': State, w: nat)
    requires w < |s.workers| == |s'.workers| && s'.workers == s.workers[w := s'.workers[w]]
    requires Announced(s'.g) == Announced(s.g)
    ensures var n, a := |s.workers|, Announced(s.g);
            Distance(s') - Distance(s) ==
            Weight(s'.workers[w], n, a) - Weight(s.workers[w], n, a) + Unfinished(s'.g.open) - Unfinished(s.g.open)
  {
    WeightsChange(s.workers, |s.workers|, Announced(s.g), w, s'.workers[w]);
    hide Weight, Unfinished, Weights, Announced;
  }

  /** When the announcement ends the distance is not greater than that. */
  lemma AnnouncementEnds(s: State, s': State, w: nat)
    requires w < |s.workers| == |s'.workers| && s'.workers == s.workers[w := s'.workers[w]]
    requires !Announced(s'.g)
    ensures var n, a := |s.workers|, Announced(s.g);
            Distance(s') - Distance(s) <=
            Weight(s'.workers[w], n, a) - Weight(s.workers[w], n, a) + Unfinished(s'.g.open) - Unfinished(s.g.open)
  {
    WeightsChange(s.workers, |s.workers|, Announced(s.g), w, s'.workers[w]);
    AnnouncementCosts(s'.workers, |s.workers|);
    hide Weight, Unfinished, Weights, Announced;
  }

  // ---- Every step lowers it -------------------------------------------------------------------------------

  /** What a schedule without new frames does: no worker starts one, and no compare-exchange fails without a reason. */
  predicate IsQuiet(e: Event) { !e.action.Start? && !e.spurious }

  predicate Lowers(s: State, e: Event)
    requires e.worker < |s.workers|
  {
    var s' := Step(s, e.worker, e.action, e.spurious);
    s' == s || Distance(s') < Distance(s)
  }

  lemma SeeLowers(s: State, w: nat)
    requires Inv(s) && w < |s.workers| && s.workers[w].pc.Running?
    ensures Lowers(s, Event(w, See, false))
  {
    IsOk(s, w);
    var s' := Step(s, w, See, false);
    if s.g.published.Some? {
      assert Announced(s.g) && Announced(s'.g);
      OwnChange(s, s', w);
      assert TasksOf(s'.workers[w]) == TasksOf(s.workers[w]);
    }
    hide Inv, Distance, TasksOf;
  }

  lemma FinishLowers(s: State, w: nat)
    requires Inv(s) && w < |s.workers| && s.workers[w].pc.Running?
    ensures Lowers(s, Event(w, Finish, false))
  {
    IsOk(s, w);
    hide Core, Inv, NobodyWorksFor, WorkerOk;
    var s' := Step(s, w, Finish, false);
    var d := |s.workers[w].visits|;
    if s' != s {
      assert s'.workers == s.workers[w := s.workers[w]];
      OwnChange(s, s', w);
      UnfinishedChange(s.g.open, d - 1, s.g.open[d - 1] - {w});
    }
    hide Distance, Unfinished;
  }

  lemma {:induction false} UnfinishedChange(open: seq<set<nat>>, k: nat, roots: set<nat>)
    requires k < |open|
    ensures Unfinished(open[k := roots]) == Unfinished(open) - |open[k]| + |roots|
    decreases |open|
  {
    var m := |open| - 1;
    var open' := open[k := roots];
    if k < m {
      UnfinishedChange(open[..m], k, roots);
      assert open'[..m] == open[..m][k := roots];
    } else {
      assert open'[..m] == open[..m];
    }
  }

  lemma TryLowers(s: State, w: nat, a: Action)
    requires Inv(s) && w < |s.workers| && s.workers[w].pc.Trying?
    ensures Lowers(s, Event(w, a, false))
  {
    IsOk(s, w);
    var s', n := Step(s, w, a, false), |s.workers|;
    assert !s.g.phase.Inside?;
    hide Core, Inv, WorkerOk;
    if s.g.published.None? {
      PublishingPays(s.workers[w], n);
      WeightsChange(s.workers, n, false, w, s'.workers[w]);
      AnnouncementCosts(s'.workers, n);
    } else {
      OwnChange(s, s', w);
      assert TasksOf(s'.workers[w]) == TasksOf(s.workers[w]);
    }
    hide Weights, Weight, Unfinished;
  }

  lemma PublishingPays(wk: Worker, n: nat)
    requires wk.pc.Trying?
    ensures Weight(wk.(pc := BeforeFirst(Visit(wk.pc.task, true, None, Some(wk.pc.forRoot)))), n, false) + (n + 10) * n
            < Weight(wk, n, false)
  {
    var wk' := wk.(pc := BeforeFirst(Visit(wk.pc.task, true, None, Some(wk.pc.forRoot))));
    assert TasksOf(wk) == TasksOf(wk') + 1;
    Distribute(n, TasksOf(wk'));
    hide TasksOf;
  }

  lemma Distribute(n: nat, k: nat)
    ensures (n + 10) * (n + 1) * (k + 1) == (n + 10) * (n + 1) * k + (n + 10) * n + (n + 10)
  {}

  lemma CopyLowers(s: State, w: nat, a: Action)
    requires Inv(s) && w < |s.workers| && s.workers[w].pc.Copying? && s.g.published.Some?
    ensures Lowers(s, Event(w, a, false))
  {
    var s' := Step(s, w, a, false);
    OwnChange(s, s', w);
    assert TasksOf(s'.workers[w]) == TasksOf(s.workers[w]);
    hide Inv, Distance, TasksOf;
  }

  lemma ClearLowers(s: State, w: nat, a: Action)
    requires Inv(s) && w < |s.workers| && s.workers[w].pc.Clearing?
    ensures Lowers(s, Event(w, a, false))
  {
    var s' := Step(s, w, a, false);
    AnnouncementEnds(s, s', w);
    assert TasksOf(s'.workers[w]) == TasksOf(s.workers[w]);
    IsOk(s, w);
    assert s.g.phase.Inside?;
    hide Inv, Distance, TasksOf;
  }

  lemma LeaveFirstLowers(s: State, w: nat, a: Action)
    requires Inv(s) && w < |s.workers| && s.workers[w].pc.AtFirst?
    ensures Lowers(s, Event(w, a, false))
  {
    if B.MayLeave(Users(s.workers), w) {
      OnlyLateLeave(s, w);
      IsOk(s, w);
      assert s.g.phase.Inside?;
      var s' := Step(s, w, a, false);
      assert TasksOf(s'.workers[w]) == TasksOf(s.workers[w]);
      hide Inv, Core, TasksOf;
      OwnChange(s, s', w);
    }
    hide Inv, Distance, TasksOf;
  }

  lemma LeaveSecondLowers(s: State, w: nat, a: Action)
    requires Inv(s) && w < |s.workers| && s.workers[w].pc.AtSecond?
    ensures Lowers(s, Event(w, a, false))
  {
    if B.MayLeave(Users(s.workers), w) {
      var s', wk := Step(s, w, a, false), s.workers[w];
      assert (wk.visits + [wk.pc.v])[..|wk.visits|] == wk.visits;
      assert TasksOf(s'.workers[w]) == TasksOf(wk);
      hide Inv, Core, TasksOf;
      OwnChange(s, s', w);
    }
    hide Inv, Distance, TasksOf;
  }

  lemma LeaveThirdLowers(s: State, w: nat, a: Action)
    requires Inv(s) && w < |s.workers| && s.workers[w].pc.AtThird?
    ensures Lowers(s, Event(w, a, false))
  {
    var s' := Step(s, w, a, false);
    ThirdStep(s, w, a);
    hide Inv, Step, TasksOf;
    hide Distance, Weight;
    if s' != s {
      OwnChange(s, s', w);
      BackWeighs(s.workers[w], s'.workers[w], |s.workers|, Announced(s.g));
    }
  }

  lemma BackWeighs(wk: Worker, wk': Worker, n: nat, announced: bool)
    requires wk.pc.AtThird? && (wk'.pc.Running? || wk'.pc.Trying?)
    requires |wk'.visits| + 1 == |wk.visits| && TasksOf(wk') <= TasksOf(wk)
    ensures Weight(wk', n, announced) < Weight(wk, n, announced)
  {
    Times((n + 10) * (n + 1), TasksOf(wk'), TasksOf(wk));
    hide TasksOf;
  }

  lemma ThirdStep(s: State, w: nat, a: Action)
    requires w < |s.workers| && s.workers[w].pc.AtThird?
    ensures var s', wk := Step(s, w, a, false), s.workers[w];
            s' != s ==>
              && wk.visits != [] && s' == s.(workers := s.workers[w := s'.workers[w]]) && |s'.workers| == |s.workers|
              && s'.workers[w].visits == wk.visits[..|wk.visits| - 1]
              && (s'.workers[w].pc.Running? || s'.workers[w].pc.Trying?) && TasksOf(s'.workers[w]) <= TasksOf(wk)
  {
    hide B.MayLeave, Users;
  }

  lemma Times(k: nat, a: nat, b: nat)
    requires a <= b
    ensures k * a <= k * b
  {}

  lemma ArriveFirstLowers(s: State, w: nat, a: Action)
    requires Inv(s) && w < |s.workers| && s.workers[w].pc.BeforeFirst?
    ensures Lowers(s, Event(w, a, false))
  {
    var s', wk := Step(s, w, a, false), s.workers[w];
    assert s'.workers[w] == wk.(pc := AtFirst(wk.pc.v));
    assert TasksOf(s'.workers[w]) == TasksOf(wk);
    hide Inv, Core, TasksOf, AllWait;
    if Announced(s'.g) == Announced(s.g) { OwnChange(s, s', w); } else { AnnouncementEnds(s, s', w); }
    hide Distance;
  }

  lemma {:induction false} IndicesSize(n: nat)
    ensures |Indices(n)| <= n
  {
    if n > 0 { IndicesSize(n - 1); }
  }

  lemma ArriveSecondLowers(s: State, w: nat, a: Action)
    requires Inv(s) && w < |s.workers| && s.workers[w].pc.BeforeSecond?
    ensures Lowers(s, Event(w, a, false))
  {
    var s', wk, n := Step(s, w, a, false), s.workers[w], |s.workers|;
    assert s'.workers[w] == wk.(pc := AtSecond(wk.pc.v));
    assert TasksOf(s'.workers[w]) == TasksOf(wk);
    IsOk(s, w);
    assert s.g.phase.Inside? && wk.pc.v.copy == s.g.phase.task;
    SecondEnds(s, w, a);
    RootsSize(wk.pc.v.copy, n);
    hide Inv, Core, TasksOf, AllWait, Roots, WorkerOk;
    if s'.g.open != s.g.open { assert s'.g.open[..|s.g.open|] == s.g.open; }
    OwnChange(s, s', w);
    hide Distance;
  }

  lemma RootsSize(t: Task, n: nat)
    requires n > 0
    ensures |Roots(t, n)| <= n
  {
    IndicesSize(n);
  }

  /** The task is cleared when the second barrier completes. */
  lemma SecondEnds(s: State, w: nat, a: Action)
    requires Inv(s) && w < |s.workers| && s.workers[w].pc.BeforeSecond?
    ensures !Announced(Step(s, w, a, false).g)
  {
    IsOk(s, w);
    var b := SetPc(s, w, AtSecond(s.workers[w].pc.v));
    var t := s.g.phase.task;
    if AllWait(b) {
      IsOk(s, t.owner);
      assert Waiting(b.workers[t.owner].pc);
    }
    hide WorkerOk;
  }

  lemma DepartLowers(s: State, w: nat)
    requires Inv(s) && w < |s.workers| && s.workers[w].pc.Running?
    ensures Lowers(s, Event(w, Depart, false))
  {
    var s', wk, d := Step(s, w, Depart, false), s.workers[w], |s.workers[w].visits|;
    IsOk(s, w);
    assert !s.g.phase.Inside?;
    if 0 < d <= |s.g.open| && s.g.open[d - 1] == {} {
      assert s'.workers[w] == wk.(pc := AtThird);
      assert TasksOf(s'.workers[w]) == TasksOf(wk);
      hide Inv, Core, TasksOf, AllWait, WorkerOk;
      OwnChange(s, s', w);
      if s'.g.open != s.g.open { assert Unfinished(s'.g.open) <= Unfinished(s.g.open); }
    }
    hide Inv, Core, Distance, TasksOf, AllWait;
  }

  lemma StepLowers(s: State, e: Event)
    requires Inv(s) && NobodyMisses(s) && e.worker < |s.workers| && IsQuiet(e)
    ensures Lowers(s, e)
  {
    var w, a := e.worker, e.action;
    assert e == Event(w, a, false);
    assert s.workers[w].pc.Copying? ==> s.g.published.Some?;
    assert !s.workers[w].pc.Crashed?;
    hide *;
    match s.workers[w].pc {
      case Running =>
        match a { case See => SeeLowers(s, w); case Finish => FinishLowers(s, w); case Depart => DepartLowers(s, w); }
      case Trying(_, _) => TryLowers(s, w, a);
      case Copying(_, _) => CopyLowers(s, w, a);
      case BeforeFirst(_) => ArriveFirstLowers(s, w, a);
      case AtFirst(_) => LeaveFirstLowers(s, w, a);
      case Clearing(_) => ClearLowers(s, w, a);
      case BeforeSecond(_) => ArriveSecondLowers(s, w, a);
      case AtSecond(_) => LeaveSecondLowers(s, w, a);
      case AtThird => LeaveThirdLowers(s, w, a);
    }
  }

  // ---- Some worker can always go on ----------------------------------------------------------------------------

  /** All workers are back where they started, and nothing is published. */
  predicate AllBack(s: State) {
    && s.g.published.None? && s.g.frames == [] && s.g.open == []
    && forall w | 0 <= w < |s.workers| :: s.workers[w].pc.Running? && s.workers[w].visits == []
  }

  /** The roots of every frame are workers. */
  predicate RootsOk(s: State) {
    forall k | 0 <= k < |s.g.open| :: forall r | r in s.g.open[k] :: r < |s.workers|
  }

  lemma RootsAre(t: Task, n: nat)
    requires t.owner < n
    ensures forall r | r in Roots(t, n) :: r < n
  {
    IndicesAre(n);
  }

  lemma RootsStay(s: State, w: nat, a: Action, spurious: bool)
    requires Inv(s) && RootsOk(s) && w < |s.workers|
    ensures RootsOk(Step(s, w, a, spurious))
  {
    StepSize(s, w, a, spurious);
    if s.workers[w].pc.BeforeSecond? {
      IsOk(s, w);
      RootsAre(s.workers[w].pc.v.copy, |s.workers|);
    }
    hide Inv, Core, WorkerOk, AllWait, NobodyWorksFor, Users, B.MayLeave, Roots;
  }

  predicate Effective(s: State, w: nat, a: Action)
    requires w < |s.workers|
  {
    Step(s, w, a, false) != s
  }

  lemma AwakeGoesOn(s: State, w: nat)
    requires w < |s.workers| && !Waiting(s.workers[w].pc) && !s.workers[w].pc.Running? && !s.workers[w].pc.Crashed?
    ensures Effective(s, w, See)
  {
    var s' := Step(s, w, See, false);
    assert s'.workers[w].pc != s.workers[w].pc;
  }

  /** A worker that is late may leave the barrier. */
  lemma LateGoesOn(s: State, w: nat)
    requires Inv(s) && w < |s.workers| && s.workers[w].episode != s.g.full
    ensures Effective(s, w, See)
  {
    IsOk(s, w);
    var us := Users(s.workers);
    forall u | 0 <= u < |us| ensures us[u].episode > us[w].episode || (us[u].episode == us[w].episode && us[u].waiting) {
      IsOk(s, u);
    }
    assert B.MayLeave(us, w);
    hide Core, Inv, WorkerOk, B.MayLeave;
    assert Step(s, w, See, false).workers[w].episode == s.workers[w].episode + 1;
  }

  lemma RunnerSees(s: State, w: nat)
    requires w < |s.workers| && s.workers[w].pc.Running? && s.g.published.Some?
    ensures Effective(s, w, See)
  {
    assert Step(s, w, See, false).workers[w].pc.Copying?;
  }

  lemma RunnerDeparts(s: State, w: nat)
    requires w < |s.workers| && s.workers[w].pc.Running?
    requires var d := |s.workers[w].visits|; 0 < d <= |s.g.open| && s.g.open[d - 1] == {}
    ensures Effective(s, w, Depart)
  {
    assert Step(s, w, Depart, false).workers[w].pc.AtThird?;
  }

  lemma RunnerFinishes(s: State, w: nat)
    requires w < |s.workers| && s.workers[w].pc.Running? && 0 < |s.workers[w].visits| <= |s.g.open|
    requires w in s.g.open[|s.workers[w].visits| - 1]
    requires forall u | 0 <= u < |s.workers| :: s.workers[u].pc.Running? && |s.workers[u].visits| == |s.workers[w].visits|
    ensures Effective(s, w, Finish)
  {
    var d := |s.workers[w].visits|;
    assert NobodyWorksFor(s.workers, d, w);
    assert w !in Step(s, w, Finish, false).g.open[d - 1];
  }

  /** A worker that is neither late nor about to take a step that does not depend on the others. */
  predicate IsSettled(s: State, w: nat)
    requires w < |s.workers|
  {
    s.workers[w].episode == s.g.full && (Waiting(s.workers[w].pc) || s.workers[w].pc.Running?)
  }

  /** When all are like that, one is running and no frame is being entered. */
  lemma SomeRuns(s: State) returns (w: nat)
    requires Inv(s) && s.workers != [] && forall u | 0 <= u < |s.workers| :: IsSettled(s, u)
    ensures w < |s.workers| && s.workers[w].pc.Running? && !s.g.phase.Inside?
  {
    assert exists u :: 0 <= u < |s.workers| && !(s.workers[u].episode == s.g.full && Waiting(s.workers[u].pc));
    w :| 0 <= w < |s.workers| && !(s.workers[w].episode == s.g.full && Waiting(s.workers[w].pc));
    assert IsSettled(s, w);
    IsOk(s, w);
  }

  lemma SettledWorker(s: State, u: nat)
    requires Inv(s) && u < |s.workers| && IsSettled(s, u) && s.g.published.None? && !s.g.phase.Inside?
    ensures |s.workers[u].visits| == |s.g.frames| == |s.g.open|
    ensures s.workers[u].pc.Running? || (s.workers[u].pc.AtThird? && s.g.open != [] && s.g.open[|s.g.open| - 1] == {})
  {
    IsOk(s, u);
  }

  /** Unless all are back, some worker has a step that changes the state, and no new frame is needed for it. */
  lemma NeverStuck(s: State) returns (w: nat, a: Action)
    requires Inv(s) && NobodyMisses(s) && RootsOk(s) && s.workers != [] && !AllBack(s)
    ensures w < |s.workers| && !a.Start? && Effective(s, w, a)
  {
    if u: nat :| u < |s.workers| && !IsSettled(s, u) {
      w, a := u, See;
      assert !s.workers[u].pc.Crashed?;
      if s.workers[u].episode != s.g.full { LateGoesOn(s, u); } else { AwakeGoesOn(s, u); }
    } else {
      w := SomeRuns(s);
      if s.g.published.Some? {
        a := See;
        RunnerSees(s, w);
      } else {
        a, w := InFrame(s, w);
      }
    }
  }

  /** All are running or about to leave: the frame closes, or a root is finished. */
  lemma InFrame(s: State, first: nat) returns (a: Action, w: nat)
    requires Inv(s) && RootsOk(s) && !AllBack(s) && s.g.published.None? && !s.g.phase.Inside?
    requires forall u | 0 <= u < |s.workers| :: IsSettled(s, u)
    requires first < |s.workers| && s.workers[first].pc.Running?
    ensures w < |s.workers| && !a.Start? && Effective(s, w, a)
  {
    hide Inv, Effective, IsSettled;
    forall u | 0 <= u < |s.workers|
      ensures |s.workers[u].visits| == |s.g.frames| == |s.g.open|
      ensures s.workers[u].pc.Running? || (s.workers[u].pc.AtThird? && s.g.open != [] && s.g.open[|s.g.open| - 1] == {})
    {
      SettledWorker(s, u);
    }
    assert |s.workers[first].visits| == |s.g.open|;
    var d := |s.g.open|;
    assert d > 0;
    if s.g.open[d - 1] == {} {
      a, w := Depart, first;
      RunnerDeparts(s, first);
    } else {
      var r :| r in s.g.open[d - 1];
      a, w := Finish, r;
      RunnerFinishes(s, r);
    }
  }

  // ---- Rounds ------------------------------------------------------------------------------------------------------

  predicate WorkersExist(s: State, events: seq<Event>) { forall k | 0 <= k < |events| :: events[k].worker < |s.workers| }

  function After(s: State, events: seq<Event>): (s': State)
    requires WorkersExist(s, events)
    ensures |s'.workers| == |s.workers|
    decreases |events|
  {
    if events == [] then s
    else
      var e := events[0];
      StepSize(s, e.worker, e.action, e.spurious);
      After(Step(s, e.worker, e.action, e.spurious), events[1..])
  }

  predicate Good(s: State) { Inv(s) && NobodyMisses(s) && RootsOk(s) }

  lemma StepGood(s: State, e: Event)
    requires Good(s) && e.worker < |s.workers| && IsQuiet(e)
    ensures var s' := Step(s, e.worker, e.action, e.spurious);
            |s'.workers| == |s.workers| && Good(s') && (s' == s || Distance(s') < Distance(s))
  {
    assert Event(e.worker, e.action, e.spurious) == e;
    hide Inv, NobodyMisses, RootsOk, Step, Distance;
    StepSize(s, e.worker, e.action, e.spurious);
    StepKeeps(s, e.worker, e.action, e.spurious);
    NextMissesNobody(s, e.worker, e.action, e.spurious);
    RootsStay(s, e.worker, e.action, e.spurious);
    StepLowers(s, e);
  }

  predicate AllQuiet(events: seq<Event>) { forall k | 0 <= k < |events| :: IsQuiet(events[k]) }

  /** Steps never raise the distance, and they lower it when one of them would change the first state. */
  lemma {:induction false} GoesDown(s: State, events: seq<Event>)
    requires Good(s) && WorkersExist(s, events) && AllQuiet(events)
    ensures Good(After(s, events)) && Distance(After(s, events)) <= Distance(s)
    ensures (exists k :: 0 <= k < |events| && Effective(s, events[k].worker, events[k].action)) ==>
              Distance(After(s, events)) < Distance(s)
    decreases |events|
  {
    hide Good, Step, Distance;
    if events != [] {
      var e := events[0];
      assert IsQuiet(e) && e == Event(e.worker, e.action, false);
      StepGood(s, e);
      GoesDown(Step(s, e.worker, e.action, false), events[1..]);
      if !Effective(s, e.worker, e.action) {
        forall k | 0 <= k < |events| && Effective(s, events[k].worker, events[k].action)
          ensures k > 0 && Effective(s, events[1..][k - 1].worker, events[1..][k - 1].action)
        {
          assert events[1..][k - 1] == events[k];
        }
      }
    }
  }

  /** A round of `n` workers: each of them does everything that it can do in a frame, except for starting a new one, in any
      order and any number of times. */
  ghost predicate IsRound(n: nat, round: seq<Event>) {
    && AreEvents(n, round) && AllQuiet(round)
    && forall w: nat, a: Action | w < n && !a.Start? :: Event(w, a, false) in round
  }

  ghost predicate AreRounds(n: nat, rounds: seq<seq<Event>>) { forall k | 0 <= k < |rounds| :: IsRound(n, rounds[k]) }

  lemma RoundLowers(s: State, round: seq<Event>)
    requires Good(s) && s.workers != [] && IsRound(|s.workers|, round)
    ensures WorkersExist(s, round) && Good(After(s, round))
    ensures AllBack(s) || Distance(After(s, round)) < Distance(s)
    ensures Distance(After(s, round)) <= Distance(s)
  {
    GoesDown(s, round);
    if !AllBack(s) {
      var w, a := NeverStuck(s);
      assert Event(w, a, false) in round;
      var k :| 0 <= k < |round| && round[k] == Event(w, a, false);
      assert Effective(s, round[k].worker, round[k].action);
    }
    hide Distance, Step, Inv, NobodyMisses, RootsOk, AllBack;
  }

  lemma StaysBack(s: State, e: Event)
    requires AllBack(s) && e.worker < |s.workers| && IsQuiet(e)
    ensures Step(s, e.worker, e.action, e.spurious) == s
  {}

  lemma {:induction false} AllStayBack(s: State, events: seq<Event>)
    requires AllBack(s) && WorkersExist(s, events) && AllQuiet(events)
    ensures After(s, events) == s
    decreases |events|
  {
    hide AllBack, Step;
    if events != [] {
      StaysBack(s, events[0]);
      AllStayBack(s, events[1..]);
    }
  }

  function InOrder(rounds: seq<seq<Event>>): seq<Event> { if rounds == [] then [] else rounds[0] + InOrder(rounds[1..]) }

  lemma {:induction false} AfterBoth(s: State, a: seq<Event>, b: seq<Event>)
    requires WorkersExist(s, a) && WorkersExist(s, b)
    ensures WorkersExist(s, a + b) && After(s, a + b) == After(After(s, a), b)
    decreases |a|
  {
    hide Step;
    if a == [] {
      assert a + b == b;
    } else {
      var e := a[0];
      StepSize(s, e.worker, e.action, e.spurious);
      AfterBoth(Step(s, e.worker, e.action, e.spurious), a[1..], b);
      assert (a + b)[1..] == a[1..] + b && (a + b)[0] == e;
    }
  }

  lemma {:induction false} RoundsLower(s: State, rounds: seq<seq<Event>>)
    requires Good(s) && s.workers != [] && AreRounds(|s.workers|, rounds)
    ensures WorkersExist(s, InOrder(rounds)) && Good(After(s, InOrder(rounds)))
    ensures AllBack(After(s, InOrder(rounds))) || Distance(After(s, InOrder(rounds))) + |rounds| <= Distance(s)
    decreases |rounds|
  {
    hide Good, Distance, AllBack;
    if rounds != [] {
      var round, rest := rounds[0], rounds[1..];
      assert IsRound(|s.workers|, round);
      RoundLowers(s, round);
      var s' := After(s, round);
      RoundsLower(s', rest);
      AfterBoth(s, round, InOrder(rest));
      if AllBack(s) {
        AllAreQuiet(|s.workers|, rounds);
        AllStayBack(s, InOrder(rounds));
      }
    }
  }

  lemma {:induction false} AllAreQuiet(n: nat, rounds: seq<seq<Event>>)
    requires AreRounds(n, rounds)
    ensures AllQuiet(InOrder(rounds)) && AreEvents(n, InOrder(rounds))
    decreases |rounds|
  {
    if rounds != [] {
      assert IsRound(n, rounds[0]);
      AllAreQuiet(n, rounds[1..]);
    }
  }

  // ---- Every fair schedule -------------------------------------------------------------------------------------------

  lemma {:induction false} RunGoesOn(n: nat, events: seq<Event>, more: seq<Event>)
    requires AreEvents(n, events) && AreEvents(n, more)
    ensures AreEvents(n, events + more) && Run(n, events + more) == After(Run(n, events), more)
    decreases |more|
  {
    hide Step;
    if more == [] {
      assert events + more == events;
    } else {
      var e := more[0];
      assert (events + [e])[..|events|] == events;
      assert events + [e] + more[1..] == events + more;
      RunGoesOn(n, events + [e], more[1..]);
    }
  }

  lemma {:induction false} RunRootsOk(n: nat, events: seq<Event>)
    requires AreEvents(n, events)
    ensures RootsOk(Run(n, events))
    decreases |events|
  {
    hide Step;
    if events != [] {
      var before, e := events[..|events| - 1], events[|events| - 1];
      RunRootsOk(n, before);
      RunKeeps(n, before);
      hide RootsOk, Inv;
      RootsStay(Run(n, before), e.worker, e.action, e.spurious);
    }
  }

  lemma RunIsGood(n: nat, events: seq<Event>)
    requires AreEvents(n, events) && Harmless(n, events)
    ensures Good(Run(n, events))
  {
    hide RootsOk, Inv, NobodyMisses, Run, Harmless;
    RunKeeps(n, events);
    NobodyCrashes(n, events);
    RunRootsOk(n, events);
  }

  /** After any harmless schedule, once no new frames are started, all frames close and all workers come back: as soon as
      there have been more rounds than the distance of the state, whatever the order of the steps in each of them. */
  lemma EverybodyComesBack(n: nat, events: seq<Event>, rounds: seq<seq<Event>>)
    requires n > 0 && AreEvents(n, events) && Harmless(n, events) && AreRounds(n, rounds)
    requires |rounds| > Distance(Run(n, events))
    ensures AreEvents(n, events + InOrder(rounds))
    ensures var s := Run(n, events + InOrder(rounds));
            && s.g.published.None? && s.g.frames == []
            && forall w | 0 <= w < n :: s.workers[w].pc.Running? && s.workers[w].visits == []
  {
    hide Harmless, Run, Distance, AreEvents, Good;
    AllAreQuiet(n, rounds);
    RunIsGood(n, events);
    RunGoesOn(n, events, InOrder(rounds));
    RoundsLower(Run(n, events), rounds);
  }

  /** And every task that a worker has ever had to publish has been published by then. */
  lemma EveryTaskIsPublished(n: nat, events: seq<Event>, rounds: seq<seq<Event>>, k: nat, w: nat, t: Task)
    requires n > 0 && AreEvents(n, events) && Harmless(n, events) && AreRounds(n, rounds)
    requires |rounds| > Distance(Run(n, events))
    requires k <= |events| && w < n && HasInHand(Run(n, events[..k]).workers[w], t)
    ensures var all := events + InOrder(rounds);
            AreEvents(n, all) && exists j | k <= j <= |all| :: Run(n, all[..j]).g.published == Some(t)
  {
    hide Harmless, Distance, HasInHand, Run, AreRounds;
    var all := events + InOrder(rounds);
    EverybodyComesBack(n, events, rounds);
    assert all[..k] == events[..k];
    NoTaskIsLost(n, all, k, w, t);
    NothingInHand(Run(n, all).workers[w], t);
  }

  lemma NothingInHand(wk: Worker, t: Task)
    requires wk.pc.Running? && wk.visits == []
    ensures !HasInHand(wk, t)
  {}

  // ---- A published task becomes a frame ---------------------------------------------------------------------------------

  /** A task is published, or all have a copy of it and are on their way into its frame. */
  predicate IsComing(g: Shared, t: Task) { g.published == Some(t) || g.phase == Inside(t) }

  predicate IsInnermost(g: Shared, t: Task) { g.frames != [] && g.frames[|g.frames| - 1] == t }

  lemma PublishedInside(s: State, t: Task)
    requires Inv(s) && s.g.published == Some(t) && s.workers != []
    ensures s.g.phase.Inside? ==> s.g.phase.task == t
  {
    if s.g.phase.Inside? {
      var owner := s.g.phase.task.owner;
      IsOk(s, owner);
      assert s.g.published == None || s.g.published == Some(s.g.phase.task);
    }
  }

  /** A task that is coming stays so until its frame opens. */
  lemma ComesIn(s: State, w: nat, a: Action, spurious: bool, t: Task)
    requires Inv(s) && w < |s.workers| && IsComing(s.g, t)
    ensures var g' := Step(s, w, a, spurious).g; IsComing(g', t) || IsInnermost(g', t)
  {
    IsOk(s, w);
    if s.g.published == Some(t) { PublishedInside(s, t); }
    hide Core, Inv, EngagedOk, VisitsOk, NobodyWorksFor, AllWait, Users, B.MayLeave, Roots;
  }

  lemma {:induction false} OpensLater(n: nat, events: seq<Event>, k: nat, t: Task)
    requires AreEvents(n, events) && k <= |events| && IsComing(Run(n, events[..k]).g, t)
    ensures IsComing(Run(n, events).g, t) || exists j | k <= j <= |events| :: IsInnermost(Run(n, events[..j]).g, t)
    decreases |events|
  {
    hide Step, Inv, IsComing, IsInnermost;
    assert events[..|events|] == events;
    if k < |events| {
      var m := |events| - 1;
      var before, e := events[..m], events[m];
      assert before[..k] == events[..k];
      OpensLater(n, before, k, t);
      RunKeeps(n, before);
      if j :| k <= j <= m && IsInnermost(Run(n, before[..j]).g, t) {
        assert before[..j] == events[..j];
      } else {
        ComesIn(Run(n, before), e.worker, e.action, e.spurious, t);
      }
    }
  }

  lemma NothingComes(s: State, t: Task)
    requires Inv(s) && s.workers != [] && s.g.published.None? && s.workers[0].pc.Running?
    ensures !IsComing(s.g, t)
  {
    IsOk(s, 0);
  }

  /** Every task that a worker has ever had to publish becomes the task of a frame, which all workers enter and leave
      again. */
  lemma EveryTaskRuns(n: nat, events: seq<Event>, rounds: seq<seq<Event>>, k: nat, w: nat, t: Task)
    requires n > 0 && AreEvents(n, events) && Harmless(n, events) && AreRounds(n, rounds)
    requires |rounds| > Distance(Run(n, events))
    requires k <= |events| && w < n && HasInHand(Run(n, events[..k]).workers[w], t)
    ensures var all := events + InOrder(rounds);
            AreEvents(n, all) && exists j | k <= j <= |all| :: IsInnermost(Run(n, all[..j]).g, t)
  {
    hide Harmless, Distance, HasInHand, Run, AreRounds, IsInnermost, Inv;
    var all := events + InOrder(rounds);
    EverybodyComesBack(n, events, rounds);
    EveryTaskIsPublished(n, events, rounds, k, w, t);
    var i :| k <= i <= |all| && Run(n, all[..i]).g.published == Some(t);
    OpensLater(n, all, i, t);
    RunKeeps(n, all);
    NothingComes(Run(n, all), t);
  }
}
