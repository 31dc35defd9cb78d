/** The frame protocol: a worker publishes a task, all workers copy it between two barriers, run it as a frame of their
    own, and meet again in a third barrier. Frames nest. The barrier is the one that Barrier.dfy refines to. */
module Frame {
  import opened Text
  import B = Barrier

  /** A published task. With `together` every worker has a root to finish, else only the publisher. */
  datatype Task = Task(owner: nat, id: nat, together: bool)

  /** How a worker takes part in a frame: its copy of the task, whether it has published it, the task that it still has
      to publish afterwards, and the root of the current frame that waits for what it does. */
  datatype Visit = Visit(copy: Task, won: bool, pending: Option<Task>, root: Option<nat>)

  datatype Pc =
    | Running
    | Trying(task: Task, forRoot: nat)                       // about to publish a task,
    | Copying(pending: Option<Task>, root: Option<nat>)   // to copy the published one,
    | BeforeFirst(v: Visit)                               // to arrive at the first barrier,
    | AtFirst(v: Visit)
    | Clearing(v: Visit)                                  // to clear the published task,
    | BeforeSecond(v: Visit)                              // to arrive at the second barrier
    | AtSecond(v: Visit)
    | AtThird
    | Crashed                                             // has copied from null

  /** `visits` are the frames that the worker is in, `episode` the barriers it has left. */
  datatype Worker = Worker(pc: Pc, visits: seq<Visit>, episode: nat)

  /** Since the last barrier that all have arrived at: the first one of task's frame, the second one, or the third. */
  datatype Phase = Inside(task: Task) | Entered | Left(frame: Option<Task>)

  /** `open` are the unfinished roots of each frame. The rest is history: the frames, how many barriers all have
      arrived at, and what the last one was. */
  datatype Shared = Shared(published: Option<Task>, open: seq<set<nat>>, frames: seq<Task>, full: nat, phase: Phase)

  datatype State = State(workers: seq<Worker>, g: Shared)

  function Initial(n: nat): State { State(seq(n, _ => Worker(Running, [], 0)), Shared(None, [], [], 0, Left(None))) }

  function Indices(n: nat): set<nat> { if n == 0 then {} else Indices(n - 1) + {n - 1} }

  function Roots(t: Task, n: nat): set<nat> { if t.together then Indices(n) else {t.owner} }

  // ---- Steps ------------------------------------------------------------------------------------

  predicate Waiting(pc: Pc) { pc.AtFirst? || pc.AtSecond? || pc.AtThird? }

  function Users(ws: seq<Worker>): (us: seq<B.User>)
    ensures |us| == |ws| && forall w | 0 <= w < |ws| :: us[w] == B.User(ws[w].episode, Waiting(ws[w].pc))
  {
    seq(|ws|, w requires 0 <= w < |ws| => B.User(ws[w].episode, Waiting(ws[w].pc)))
  }

  function SetPc(s: State, w: nat, pc: Pc): State
    requires w < |s.workers|
  {
    s.(workers := s.workers[w := s.workers[w].(pc := pc)])
  }

  predicate AllWait(s: State) {
    forall w | 0 <= w < |s.workers| :: s.workers[w].episode == s.g.full && Waiting(s.workers[w].pc)
  }

  /** An arrival. The last one completes the barrier. */
  function Arrive(s: State, w: nat, pc: Pc): State
    requires w < |s.workers|
  {
    var a := SetPc(s, w, pc);
    if AllWait(a) then Complete(a, pc) else a
  }

  function Complete(s: State, pc: Pc): State { s.(g := Completed(s.g, |s.workers|, pc)) }

  function Completed(g: Shared, n: nat, pc: Pc): Shared {
    match pc
    case AtFirst(v) => g.(full := g.full + 1, phase := Inside(v.copy))
    case AtSecond(v) =>
      g.(full := g.full + 1, phase := Entered, frames := g.frames + [v.copy], open := g.open + [Roots(v.copy, n)])
    case _ =>
      if g.frames == [] || g.open == [] then g
      else
        g.(full := g.full + 1, phase := Left(Some(g.frames[|g.frames| - 1])),
           frames := g.frames[..|g.frames| - 1], open := g.open[..|g.open| - 1])
  }

  /** The root that waits for what a worker does in the frame at `level`. */
  function Engaged(w: Worker, level: nat): Option<nat> {
    if level < |w.visits| then w.visits[level].root
    else if level > |w.visits| then None
    else
      match w.pc
      case Trying(_, r) => Some(r)
      case Copying(_, r) => r
      case BeforeFirst(v) => v.root
      case AtFirst(v) => v.root
      case Clearing(v) => v.root
      case BeforeSecond(v) => v.root
      case AtSecond(v) => v.root
      case _ => None
  }

  /** What a running worker does next: start a frame on behalf of an unfinished root of its frame, see a published task,
      finish its root when nobody works for it any more, or leave the frame when all roots are finished. */
  datatype Action = Start(id: nat, together: bool, root: nat) | See | Finish | Depart

  predicate NobodyWorksFor(ws: seq<Worker>, level: nat, root: nat) {
    forall u | 0 <= u < |ws| :: Engaged(ws[u], level) != Some(root)
  }

  function Act(s: State, w: nat, a: Action): State
    requires w < |s.workers| && s.workers[w].pc.Running?
  {
    var d := |s.workers[w].visits|;
    match a
    case Start(id, together, r) =>
      if d == 0 || (d <= |s.g.open| && r in s.g.open[d - 1]) then SetPc(s, w, Trying(Task(w, id, together), r)) else s
    case See => if s.g.published.Some? then SetPc(s, w, Copying(None, None)) else s
    case Finish =>
      if 0 < d <= |s.g.open| && w in s.g.open[d - 1] && NobodyWorksFor(s.workers, d, w) then
        s.(g := s.g.(open := s.g.open[d - 1 := s.g.open[d - 1] - {w}]))
      else s
    case Depart => if 0 < d <= |s.g.open| && s.g.open[d - 1] == {} then Arrive(s, w, AtThird) else s
  }

  /** The next atomic step of a worker; `a` is what it does when it is running. Its compare-exchange may fail although
      nothing is published, and the worker takes every failure for a loss. */
  function Step(s: State, w: nat, a: Action, spurious: bool): State
    requires w < |s.workers|
  {
    var wk := s.workers[w];
    match wk.pc
    case Running => Act(s, w, a)
    case Trying(t, r) =>
      if s.g.published.None? && !spurious then
        SetPc(s.(g := s.g.(published := Some(t))), w, BeforeFirst(Visit(t, true, None, Some(r))))
      else SetPc(s, w, Copying(Some(t), Some(r)))
    case Copying(pending, r) =>
      if s.g.published.None? then SetPc(s, w, Crashed)
      else SetPc(s, w, BeforeFirst(Visit(s.g.published.value, false, pending, r)))
    case BeforeFirst(v) => Arrive(s, w, AtFirst(v))
    case AtFirst(v) => if B.MayLeave(Users(s.workers), w) then LeaveFirst(s, w, v) else s
    case Clearing(v) => SetPc(s.(g := s.g.(published := None)), w, BeforeSecond(v))
    case BeforeSecond(v) => Arrive(s, w, AtSecond(v))
    case AtSecond(v) => if B.MayLeave(Users(s.workers), w) then LeaveSecond(s, w, v) else s
    case AtThird => if B.MayLeave(Users(s.workers), w) then LeaveThird(s, w) else s
    case Crashed => s
  }

  function LeaveFirst(s: State, w: nat, v: Visit): State
    requires w < |s.workers|
  {
    var wk := s.workers[w];
    s.(workers := s.workers[w := Worker(if v.won then Clearing(v) else BeforeSecond(v), wk.visits, wk.episode + 1)])
  }

  function LeaveSecond(s: State, w: nat, v: Visit): State
    requires w < |s.workers|
  {
    var wk := s.workers[w];
    s.(workers := s.workers[w := Worker(Running, wk.visits + [v], wk.episode + 1)])
  }

  /** Back in the frame before: a loser tries again to publish its task. */
  function LeaveThird(s: State, w: nat): State
    requires w < |s.workers|
  {
    var wk := s.workers[w];
    var n := |wk.visits|;
    if n == 0 then s
    else
      var v := wk.visits[n - 1];
      var pc := if v.pending.Some? && v.root.Some? then Trying(v.pending.value, v.root.value) else Running;
      s.(workers := s.workers[w := Worker(pc, wk.visits[..n - 1], wk.episode + 1)])
  }

  // ---- The invariant -------------------------------------------------------------------------------

  predicate VisitOk(v: Visit, w: nat) {
    && (v.won <==> v.copy.owner == w)
    && (v.won ==> v.root.Some? && v.pending.None?)
    && (v.pending.Some? ==> v.root.Some? && v.pending.value.owner == w)
  }

  /** A worker that has left all barriers that all have arrived at. */
  predicate CurrentOk(g: Shared, w: nat, wk: Worker) {
    && |wk.visits| == |g.frames|
    && match g.phase
       case Inside(t) =>
         (match wk.pc
          case Clearing(v) => v.copy == t && VisitOk(v, w) && v.won && g.published == Some(t)
          case BeforeSecond(v) => v.copy == t && VisitOk(v, w) && (v.won ==> g.published.None?)
          case AtSecond(v) => v.copy == t && VisitOk(v, w) && (v.won ==> g.published.None?)
          case _ => false)
       case _ =>
         match wk.pc
         case Running => true
         case Trying(t, _) => t.owner == w
         case Copying(p, r) => p.Some? ==> r.Some? && p.value.owner == w
         case BeforeFirst(v) => VisitOk(v, w) && g.published == Some(v.copy)
         case AtFirst(v) => VisitOk(v, w) && g.published == Some(v.copy)
         case AtThird => g.frames != [] && |g.open| == |g.frames| && g.open[|g.open| - 1] == {}
         case Crashed => true
         case _ => false
  }

  /** A worker that all have met in a barrier that it has not left yet. */
  predicate LateOk(g: Shared, w: nat, wk: Worker) {
    match g.phase
    case Inside(t) =>
      && |wk.visits| == |g.frames| && wk.pc.AtFirst? && wk.pc.v.copy == t && VisitOk(wk.pc.v, w)
      && (wk.pc.v.won ==> g.published == Some(t))
    case Entered =>
      && |wk.visits| + 1 == |g.frames| && wk.pc.AtSecond? && VisitOk(wk.pc.v, w)
      && wk.pc.v.copy == g.frames[|g.frames| - 1]
    case Left(frame) =>
      && |wk.visits| == |g.frames| + 1 && wk.pc.AtThird?
      && frame == Some(wk.visits[|g.frames|].copy)
  }

  predicate VisitsOk(g: Shared, w: nat, wk: Worker) {
    && (forall k | 0 <= k < |wk.visits| :: VisitOk(wk.visits[k], w))
    && (forall k | 0 <= k < |wk.visits| && k < |g.frames| :: wk.visits[k].copy == g.frames[k])
  }

  /** What a worker does on behalf of a root is done while the root is unfinished. */
  predicate EngagedOk(g: Shared, wk: Worker) {
    forall level | 1 <= level <= |g.open| && Engaged(wk, level).Some? :: Engaged(wk, level).value in g.open[level - 1]
  }

  predicate WorkerOk(g: Shared, w: nat, wk: Worker) {
    && VisitsOk(g, w, wk) && EngagedOk(g, wk)
    && (if wk.episode == g.full then CurrentOk(g, w, wk) else wk.episode + 1 == g.full && LateOk(g, w, wk))
  }

  /** A task is published by its owner, who waits for the others to copy it. */
  predicate PublisherOk(ws: seq<Worker>, g: Shared) {
    match g.phase
    case Inside(t) => t.owner < |ws|
    case _ =>
      g.published.Some? ==>
        var t := g.published.value;
        && t.owner < |ws| && ws[t.owner].episode == g.full
        && (ws[t.owner].pc.BeforeFirst? || ws[t.owner].pc.AtFirst?)
        && ws[t.owner].pc.v.copy == t
  }

  predicate Core(s: State) {
    && |s.g.open| == |s.g.frames|
    && (forall w | 0 <= w < |s.workers| :: WorkerOk(s.g, w, s.workers[w]))
    && PublisherOk(s.workers, s.g)
  }

  predicate Inv(s: State) { Core(s) && (s.workers != [] ==> !AllWait(s)) }

  // ---- Steps of one worker ------------------------------------------------------------------------------

  /** If `w` has published the task, it still waits for the others to copy it. */
  predicate StillPublishes(g: Shared, w: nat, wk: Worker) {
    g.phase.Inside? || g.published.None? || g.published.value.owner != w ||
    (wk.episode == g.full && (wk.pc.BeforeFirst? || wk.pc.AtFirst?) && wk.pc.v.copy == g.published.value)
  }

  lemma Move(s: State, w: nat, wk: Worker)
    requires Core(s) && w < |s.workers| && WorkerOk(s.g, w, wk) && StillPublishes(s.g, w, wk)
    ensures Core(s.(workers := s.workers[w := wk]))
  {
    hide WorkerOk;
  }

  lemma MoveAwake(s: State, w: nat, wk: Worker)
    requires Core(s) && w < |s.workers| && WorkerOk(s.g, w, wk) && StillPublishes(s.g, w, wk) && !Waiting(wk.pc)
    ensures Inv(s.(workers := s.workers[w := wk]))
  {
    Move(s, w, wk);
    hide Core, WorkerOk;
    assert s.workers[w := wk][w] == wk;
  }

  lemma NotThePublisher(s: State, w: nat)
    requires Core(s) && w < |s.workers|
    requires s.workers[w].episode != s.g.full || !(s.workers[w].pc.BeforeFirst? || s.workers[w].pc.AtFirst?)
    ensures forall wk :: StillPublishes(s.g, w, wk)
  {
    hide WorkerOk;
  }

  lemma IsOk(s: State, w: nat)
    requires Core(s) && w < |s.workers|
    ensures WorkerOk(s.g, w, s.workers[w]) && |s.g.open| == |s.g.frames|
  {}

  /** At its own level a worker may change what it is engaged for, above and below nothing changes. */
  lemma EngagedStays(g: Shared, wk: Worker, pc: Pc)
    requires EngagedOk(g, wk)
    requires var r, d := Engaged(wk.(pc := pc), |wk.visits|), |wk.visits|;
             r.None? || r == Engaged(wk, d) || d == 0 || d > |g.open| || r.value in g.open[d - 1]
    ensures EngagedOk(g, wk.(pc := pc))
  {
    var wk' := wk.(pc := pc);
    forall level | 1 <= level <= |g.open| && Engaged(wk', level).Some?
      ensures Engaged(wk', level).value in g.open[level - 1]
    {
      if level != |wk.visits| { assert Engaged(wk', level) == Engaged(wk, level); }
    }
  }

  lemma StartKeeps(s: State, w: nat, id: nat, together: bool, r: nat, spurious: bool)
    requires Inv(s) && w < |s.workers| && s.workers[w].pc.Running?
    ensures Inv(Step(s, w, Start(id, together, r), spurious))
  {
    hide Core, AllWait, Arrive;
    IsOk(s, w);
    NotThePublisher(s, w);
    var wk := s.workers[w];
    var wk' := wk.(pc := Trying(Task(w, id, together), r));
    var d := |wk.visits|;
    if d == 0 || (d <= |s.g.open| && r in s.g.open[d - 1]) {
      EngagedStays(s.g, wk, wk'.pc);
      assert WorkerOk(s.g, w, wk');
      MoveAwake(s, w, wk');
    }
  }

  lemma SeeKeeps(s: State, w: nat, spurious: bool)
    requires Inv(s) && w < |s.workers| && s.workers[w].pc.Running?
    ensures Inv(Step(s, w, See, spurious))
  {
    hide Core, AllWait, Arrive;
    IsOk(s, w);
    NotThePublisher(s, w);
    var wk' := s.workers[w].(pc := Copying(None, None));
    if s.g.published.Some? {
      EngagedStays(s.g, s.workers[w], wk'.pc);
      assert WorkerOk(s.g, w, wk');
      MoveAwake(s, w, wk');
    }
  }

  lemma FinishKeepsWorker(g: Shared, u: nat, wk: Worker, w: nat)
    requires WorkerOk(g, u, wk) && g.open != [] && |g.open| == |g.frames| && w in g.open[|g.open| - 1]
    requires Engaged(wk, |g.open|) != Some(w)
    ensures WorkerOk(g.(open := g.open[|g.open| - 1 := g.open[|g.open| - 1] - {w}]), u, wk)
  {
    hide Engaged;
  }

  lemma FinishKeeps(s: State, w: nat, spurious: bool)
    requires Inv(s) && w < |s.workers| && s.workers[w].pc.Running?
    ensures Inv(Step(s, w, Finish, spurious))
  {
    hide AllWait, Arrive, Engaged;
    assert |s.workers[w].visits| == |s.g.open|;
    hide WorkerOk;
    var d := |s.g.open|;
    if d > 0 && w in s.g.open[d - 1] && NobodyWorksFor(s.workers, d, w) {
      forall u | 0 <= u < |s.workers| ensures WorkerOk(Step(s, w, Finish, spurious).g, u, s.workers[u]) {
        FinishKeepsWorker(s.g, u, s.workers[u], w);
      }
      assert AllWait(Step(s, w, Finish, spurious)) == AllWait(s) by { SameWait(s, Step(s, w, Finish, spurious)); }
    }
  }

  lemma SameWait(s: State, s': State)
    requires s'.workers == s.workers && s'.g.full == s.g.full
    ensures AllWait(s') == AllWait(s)
  {}

  lemma PublishKeepsWorker(g: Shared, u: nat, wk: Worker, t: Task)
    requires WorkerOk(g, u, wk) && g.published.None? && !g.phase.Inside?
    ensures WorkerOk(g.(published := Some(t)), u, wk)
  {
    hide Engaged;
  }

  lemma TryKeeps(s: State, w: nat, a: Action, spurious: bool)
    requires Inv(s) && w < |s.workers| && s.workers[w].pc.Trying?
    ensures Inv(Step(s, w, a, spurious))
  {
    hide Core, AllWait, Arrive;
    IsOk(s, w);
    var wk := s.workers[w];
    var t, r := wk.pc.task, wk.pc.forRoot;
    assert t.owner == w && wk.episode == s.g.full && !s.g.phase.Inside?;
    if s.g.published.None? && !spurious {
      PublishKeeps(s, w, t, r);
    } else {
      NotThePublisher(s, w);
      EngagedStays(s.g, wk, Copying(Some(t), Some(r)));
      assert WorkerOk(s.g, w, wk.(pc := Copying(Some(t), Some(r))));
      MoveAwake(s, w, wk.(pc := Copying(Some(t), Some(r))));
    }
  }

  lemma PublishKeeps(s: State, w: nat, t: Task, r: nat)
    requires Core(s) && w < |s.workers| && s.workers[w].pc == Trying(t, r) && t.owner == w && s.g.published.None?
    requires s.workers[w].episode == s.g.full && !s.g.phase.Inside?
    ensures Inv(SetPc(s.(g := s.g.(published := Some(t))), w, BeforeFirst(Visit(t, true, None, Some(r)))))
  {
    var s' := SetPc(s.(g := s.g.(published := Some(t))), w, BeforeFirst(Visit(t, true, None, Some(r))));
    PublisherWorker(s, w, t, r);
    hide WorkerOk;
    forall u | 0 <= u < |s.workers| && u != w ensures WorkerOk(s'.g, u, s.workers[u]) {
      PublishKeepsWorker(s.g, u, s.workers[u], t);
    }
    assert !Waiting(s'.workers[w].pc);
  }

  lemma PublisherWorker(s: State, w: nat, t: Task, r: nat)
    requires Core(s) && w < |s.workers| && s.workers[w].pc == Trying(t, r) && t.owner == w && s.g.published.None?
    ensures WorkerOk(s.g.(published := Some(t)), w, s.workers[w].(pc := BeforeFirst(Visit(t, true, None, Some(r)))))
  {
    IsOk(s, w);
    hide Core;
    EngagedStays(s.g.(published := Some(t)), s.workers[w], BeforeFirst(Visit(t, true, None, Some(r))));
  }

  lemma CopyKeeps(s: State, w: nat, a: Action, spurious: bool)
    requires Inv(s) && w < |s.workers| && s.workers[w].pc.Copying?
    ensures Inv(Step(s, w, a, spurious))
  {
    IsOk(s, w);
    NotThePublisher(s, w);
    var wk := s.workers[w];
    assert wk.episode == s.g.full;
    assert s.g.published.None? || s.g.published.value.owner != w;
    hide Core, AllWait, Arrive;
    var wk' := wk.(pc := if s.g.published.None? then Crashed
                         else BeforeFirst(Visit(s.g.published.value, false, wk.pc.pending, wk.pc.root)));
    EngagedStays(s.g, wk, wk'.pc);
    assert WorkerOk(s.g, w, wk');
    MoveAwake(s, w, wk');
  }

  lemma ClearKeepsWorker(g: Shared, u: nat, wk: Worker, w: nat)
    requires WorkerOk(g, u, wk) && g.phase.Inside? && g.phase.task.owner == w && u != w
    ensures WorkerOk(g.(published := None), u, wk)
  {
    hide Engaged;
  }

  lemma ClearKeeps(s: State, w: nat, a: Action, spurious: bool)
    requires Inv(s) && w < |s.workers| && s.workers[w].pc.Clearing?
    ensures Inv(Step(s, w, a, spurious))
  {
    IsOk(s, w);
    ClearedWorker(s.g, w, s.workers[w]);
    hide WorkerOk, Arrive;
    var s' := Step(s, w, a, spurious);
    forall u | 0 <= u < |s.workers| && u != w ensures WorkerOk(s'.g, u, s.workers[u]) {
      ClearKeepsWorker(s.g, u, s.workers[u], w);
    }
    assert !Waiting(s'.workers[w].pc);
  }

  lemma ClearedWorker(g: Shared, w: nat, wk: Worker)
    requires WorkerOk(g, w, wk) && wk.pc.Clearing?
    ensures g.phase.Inside? && g.phase.task.owner == w
    ensures WorkerOk(g.(published := None), w, wk.(pc := BeforeSecond(wk.pc.v)))
  {
    EngagedStays(g.(published := None), wk, BeforeSecond(wk.pc.v));
  }

  // ---- Arrivals ----------------------------------------------------------------------------------------

  /** While a task is published, its publisher works for an unfinished root, so nobody leaves the frame. */
  lemma NobodyLeavesWhilePublished(s: State, u: nat)
    requires Core(s) && u < |s.workers| && !s.g.phase.Inside? && s.g.published.Some?
    requires s.workers[u].episode == s.g.full
    ensures !s.workers[u].pc.AtThird?
  {
    var p := s.g.published.value.owner;
    IsOk(s, u);
    IsOk(s, p);
    assert Engaged(s.workers[p], |s.g.frames|) == s.workers[p].pc.v.root;
  }

  lemma FirstCompletesWorker(g: Shared, n: nat, u: nat, wk: Worker, v: Visit)
    requires WorkerOk(g, u, wk) && wk.episode == g.full && !g.phase.Inside? && wk.pc.AtFirst? && g.published == Some(v.copy)
    ensures WorkerOk(Completed(g, n, AtFirst(v)), u, wk)
  {
    hide Engaged;
  }

  lemma FirstCompletes(s: State, w: nat)
    requires Core(s) && w < |s.workers| && AllWait(s) && s.workers[w].pc.AtFirst?
    ensures Core(Complete(s, s.workers[w].pc))
  {
    var v := s.workers[w].pc.v;
    IsOk(s, w);
    assert !s.g.phase.Inside? && s.g.published == Some(v.copy);
    forall u | 0 <= u < |s.workers| ensures WorkerOk(Completed(s.g, |s.workers|, AtFirst(v)), u, s.workers[u]) {
      hide Core, Completed;
      IsOk(s, u);
      NobodyLeavesWhilePublished(s, u);
      FirstCompletesWorker(s.g, |s.workers|, u, s.workers[u], v);
    }
    hide WorkerOk;
  }

  lemma SecondCompletesWorker(g: Shared, n: nat, u: nat, wk: Worker, v: Visit)
    requires WorkerOk(g, u, wk) && wk.episode == g.full && wk.pc.AtSecond? && g.phase.Inside? && v.copy == g.phase.task
    requires |g.open| == |g.frames|
    ensures WorkerOk(Completed(g, n, AtSecond(v)), u, wk)
  {
    var g' := Completed(g, n, AtSecond(v));
    assert wk.pc.v.copy == v.copy && |wk.visits| == |g.frames|;
    forall level | 1 <= level <= |g'.open| && Engaged(wk, level).Some?
      ensures Engaged(wk, level).value in g'.open[level - 1]
    {
      assert level <= |g.open|;
      assert g'.open[level - 1] == g.open[level - 1];
    }
  }

  lemma SecondCompletes(s: State, w: nat)
    requires Core(s) && w < |s.workers| && AllWait(s) && s.workers[w].pc.AtSecond?
    ensures Core(Complete(s, s.workers[w].pc))
  {
    var v := s.workers[w].pc.v;
    IsOk(s, w);
    assert s.g.phase.Inside? && s.g.phase.task == v.copy;
    IsOk(s, v.copy.owner);
    assert s.g.published.None?;
    forall u | 0 <= u < |s.workers| ensures WorkerOk(Completed(s.g, |s.workers|, AtSecond(v)), u, s.workers[u]) {
      hide Core, Completed, Engaged;
      IsOk(s, u);
      SecondCompletesWorker(s.g, |s.workers|, u, s.workers[u], v);
    }
    hide WorkerOk;
  }

  lemma ThirdCompletesWorker(g: Shared, n: nat, u: nat, wk: Worker)
    requires WorkerOk(g, u, wk) && wk.episode == g.full && wk.pc.AtThird? && g.frames != [] && |g.open| == |g.frames|
    ensures WorkerOk(Completed(g, n, AtThird), u, wk)
  {
    hide Engaged;
  }

  lemma ThirdCompletes(s: State, w: nat)
    requires Core(s) && w < |s.workers| && AllWait(s) && s.workers[w].pc.AtThird?
    ensures Core(Complete(s, s.workers[w].pc))
  {
    IsOk(s, w);
    assert !s.g.phase.Inside? && s.g.frames != [];
    assert s.g.published.None? by { if s.g.published.Some? { NobodyLeavesWhilePublished(s, w); } }
    forall u | 0 <= u < |s.workers| ensures WorkerOk(Completed(s.g, |s.workers|, AtThird), u, s.workers[u]) {
      hide Core, Completed, Engaged;
      IsOk(s, u);
      ThirdCompletesWorker(s.g, |s.workers|, u, s.workers[u]);
    }
    hide WorkerOk;
  }

  lemma ArriveKeeps(s: State, w: nat, pc: Pc)
    requires Core(s) && w < |s.workers| && Waiting(pc) && s.workers[w].episode == s.g.full
    requires WorkerOk(s.g, w, s.workers[w].(pc := pc)) && StillPublishes(s.g, w, s.workers[w].(pc := pc))
    ensures Inv(Arrive(s, w, pc))
  {
    hide Core, WorkerOk, StillPublishes, Completed;
    Move(s, w, s.workers[w].(pc := pc));
    var a := SetPc(s, w, pc);
    if AllWait(a) {
      Advances(a, w, pc);
      match pc {
        case AtFirst(_) => FirstCompletes(a, w);
        case AtSecond(_) => SecondCompletes(a, w);
        case AtThird => ThirdCompletes(a, w);
      }
    }
  }

  lemma Advances(s: State, w: nat, pc: Pc)
    requires Core(s) && w < |s.workers| && s.workers[w].pc == pc && Waiting(pc) && AllWait(s)
    ensures !AllWait(Complete(s, pc))
  {
    IsOk(s, w);
    hide Core;
    assert Complete(s, pc).g.full == s.g.full + 1;
    assert s.workers[w].episode == s.g.full;
  }

  lemma ArriveFirstKeeps(s: State, w: nat, a: Action, spurious: bool)
    requires Inv(s) && w < |s.workers| && s.workers[w].pc.BeforeFirst?
    ensures Inv(Step(s, w, a, spurious))
  {
    hide Core, AllWait, Arrive;
    IsOk(s, w);
    EngagedStays(s.g, s.workers[w], AtFirst(s.workers[w].pc.v));
    ArriveKeeps(s, w, AtFirst(s.workers[w].pc.v));
  }

  lemma ArriveSecondKeeps(s: State, w: nat, a: Action, spurious: bool)
    requires Inv(s) && w < |s.workers| && s.workers[w].pc.BeforeSecond?
    ensures Inv(Step(s, w, a, spurious))
  {
    hide Core, AllWait, Arrive;
    IsOk(s, w);
    EngagedStays(s.g, s.workers[w], AtSecond(s.workers[w].pc.v));
    ArriveKeeps(s, w, AtSecond(s.workers[w].pc.v));
  }

  lemma DepartKeeps(s: State, w: nat, spurious: bool)
    requires Inv(s) && w < |s.workers| && s.workers[w].pc.Running?
    ensures Inv(Step(s, w, Depart, spurious))
  {
    hide Core, AllWait, Arrive;
    IsOk(s, w);
    NotThePublisher(s, w);
    var d := |s.workers[w].visits|;
    if 0 < d <= |s.g.open| && s.g.open[d - 1] == {} {
      EngagedStays(s.g, s.workers[w], AtThird);
      ArriveKeeps(s, w, AtThird);
    }
  }

  // ---- Departures -------------------------------------------------------------------------------------------

  /** The barrier lets only those leave who have all met already. */
  lemma OnlyLateLeave(s: State, w: nat)
    requires Inv(s) && w < |s.workers| && B.MayLeave(Users(s.workers), w)
    ensures s.workers[w].episode != s.g.full
  {
    if s.workers[w].episode == s.g.full {
      forall u | 0 <= u < |s.workers| ensures s.workers[u].episode == s.g.full && Waiting(s.workers[u].pc) {
        hide Core;
        IsOk(s, u);
        assert Users(s.workers)[u] == B.User(s.workers[u].episode, Waiting(s.workers[u].pc));
      }
    }
  }

  lemma LeaveFirstKeeps(s: State, w: nat, a: Action, spurious: bool)
    requires Inv(s) && w < |s.workers| && s.workers[w].pc.AtFirst?
    ensures Inv(Step(s, w, a, spurious))
  {
    if B.MayLeave(Users(s.workers), w) {
      OnlyLateLeave(s, w);
      hide Core, AllWait, Arrive, WorkerOk;
      IsOk(s, w);
      NotThePublisher(s, w);
      CopiedWorker(s.g, w, s.workers[w]);
      MoveAwake(s, w, LeaveFirst(s, w, s.workers[w].pc.v).workers[w]);
    }
  }

  lemma CopiedWorker(g: Shared, w: nat, wk: Worker)
    requires WorkerOk(g, w, wk) && wk.episode != g.full && wk.pc.AtFirst?
    ensures WorkerOk(g, w, Worker(if wk.pc.v.won then Clearing(wk.pc.v) else BeforeSecond(wk.pc.v), wk.visits, wk.episode + 1))
  {
    var pc := if wk.pc.v.won then Clearing(wk.pc.v) else BeforeSecond(wk.pc.v);
    EngagedStays(g, wk, pc);
    EngagedSame(g, wk.(pc := pc), wk.episode + 1);
  }

  lemma EngagedSame(g: Shared, wk: Worker, episode: nat)
    requires EngagedOk(g, wk)
    ensures EngagedOk(g, wk.(episode := episode))
  {
    forall level | 1 <= level <= |g.open| && Engaged(wk.(episode := episode), level).Some?
      ensures Engaged(wk.(episode := episode), level).value in g.open[level - 1]
    {
      assert Engaged(wk.(episode := episode), level) == Engaged(wk, level);
    }
  }

  lemma EnteredWorker(g: Shared, w: nat, wk: Worker)
    requires WorkerOk(g, w, wk) && wk.episode != g.full && wk.pc.AtSecond? && |g.open| == |g.frames|
    ensures WorkerOk(g, w, Worker(Running, wk.visits + [wk.pc.v], wk.episode + 1))
  {
    var wk' := Worker(Running, wk.visits + [wk.pc.v], wk.episode + 1);
    forall level | 1 <= level <= |g.open| && Engaged(wk', level).Some?
      ensures Engaged(wk', level).value in g.open[level - 1]
    {
      assert Engaged(wk', level) == Engaged(wk, level);
    }
  }

  lemma LeaveSecondKeeps(s: State, w: nat, a: Action, spurious: bool)
    requires Inv(s) && w < |s.workers| && s.workers[w].pc.AtSecond?
    ensures Inv(Step(s, w, a, spurious))
  {
    if B.MayLeave(Users(s.workers), w) {
      OnlyLateLeave(s, w);
      hide Core, AllWait, Arrive, WorkerOk;
      IsOk(s, w);
      NotThePublisher(s, w);
      var wk := s.workers[w];
      EnteredWorker(s.g, w, wk);
      MoveAwake(s, w, Worker(Running, wk.visits + [wk.pc.v], wk.episode + 1));
    }
  }

  lemma BackWorker(g: Shared, w: nat, wk: Worker)
    requires WorkerOk(g, w, wk) && wk.episode != g.full && wk.pc.AtThird? && |g.open| == |g.frames|
    ensures wk.visits != []
    ensures var v := wk.visits[|wk.visits| - 1];
            var pc := if v.pending.Some? && v.root.Some? then Trying(v.pending.value, v.root.value) else Running;
            WorkerOk(g, w, Worker(pc, wk.visits[..|wk.visits| - 1], wk.episode + 1))
  {
    var n := |wk.visits|;
    assert n == |g.frames| + 1;
    var v := wk.visits[n - 1];
    assert VisitOk(v, w);
    var pc := if v.pending.Some? && v.root.Some? then Trying(v.pending.value, v.root.value) else Running;
    var wk' := Worker(pc, wk.visits[..n - 1], wk.episode + 1);
    forall level | 1 <= level <= |g.open| && Engaged(wk', level).Some?
      ensures Engaged(wk', level).value in g.open[level - 1]
    {
      assert Engaged(wk', level) == Engaged(wk, level);
    }
  }

  lemma LeaveThirdKeeps(s: State, w: nat, a: Action, spurious: bool)
    requires Inv(s) && w < |s.workers| && s.workers[w].pc.AtThird?
    ensures Inv(Step(s, w, a, spurious))
  {
    if B.MayLeave(Users(s.workers), w) {
      OnlyLateLeave(s, w);
      hide Core, AllWait, Arrive, WorkerOk;
      IsOk(s, w);
      NotThePublisher(s, w);
      var wk := s.workers[w];
      BackWorker(s.g, w, wk);
      MoveAwake(s, w, LeaveThird(s, w).workers[w]);
    }
  }

  lemma StepKeeps(s: State, w: nat, a: Action, spurious: bool)
    requires Inv(s) && w < |s.workers|
    ensures Inv(Step(s, w, a, spurious))
  {
    hide Inv, Step;
    match s.workers[w].pc {
      case Running => ActKeeps(s, w, a, spurious);
      case Trying(_, _) => TryKeeps(s, w, a, spurious);
      case Copying(_, _) => CopyKeeps(s, w, a, spurious);
      case BeforeFirst(_) => ArriveFirstKeeps(s, w, a, spurious);
      case AtFirst(_) => LeaveFirstKeeps(s, w, a, spurious);
      case Clearing(_) => ClearKeeps(s, w, a, spurious);
      case BeforeSecond(_) => ArriveSecondKeeps(s, w, a, spurious);
      case AtSecond(_) => LeaveSecondKeeps(s, w, a, spurious);
      case AtThird => LeaveThirdKeeps(s, w, a, spurious);
      case Crashed => StaysCrashed(s, w, a, spurious);
    }
  }

  lemma StaysCrashed(s: State, w: nat, a: Action, spurious: bool)
    requires w < |s.workers| && s.workers[w].pc.Crashed?
    ensures Step(s, w, a, spurious) == s
  {}

  lemma ActKeeps(s: State, w: nat, a: Action, spurious: bool)
    requires Inv(s) && w < |s.workers| && s.workers[w].pc.Running?
    ensures Inv(Step(s, w, a, spurious))
  {
    hide Inv, Step;
    match a {
      case Start(id, together, r) => StartKeeps(s, w, id, together, r, spurious);
      case See => SeeKeeps(s, w, spurious);
      case Finish => FinishKeeps(s, w, spurious);
      case Depart => DepartKeeps(s, w, spurious);
    }
  }

  lemma InitialHolds(n: nat)
    ensures Inv(Initial(n))
  {
    var s := Initial(n);
    if n > 0 { assert !Waiting(s.workers[0].pc); }
  }

  // ---- Every interleaving -------------------------------------------------------------------------------------

  datatype Event = Event(worker: nat, action: Action, spurious: bool)

  predicate AreEvents(n: nat, events: seq<Event>) { forall k | 0 <= k < |events| :: events[k].worker < n }

  function Run(n: nat, events: seq<Event>): (s: State)
    requires AreEvents(n, events)
    ensures |s.workers| == n
  {
    if events == [] then Initial(n)
    else
      var e := events[|events| - 1];
      var before := Run(n, events[..|events| - 1]);
      StepSize(before, e.worker, e.action, e.spurious);
      Step(before, e.worker, e.action, e.spurious)
  }

  lemma StepSize(s: State, w: nat, a: Action, spurious: bool)
    requires w < |s.workers|
    ensures |Step(s, w, a, spurious).workers| == |s.workers|
  {}

  lemma {:induction false} RunKeeps(n: nat, events: seq<Event>)
    requires AreEvents(n, events)
    ensures Inv(Run(n, events))
  {
    hide Inv, Step;
    if events == [] {
      InitialHolds(n);
    } else {
      var e := events[|events| - 1];
      RunKeeps(n, events[..|events| - 1]);
      StepKeeps(Run(n, events[..|events| - 1]), e.worker, e.action, e.spurious);
    }
  }

  // ---- What it says --------------------------------------------------------------------------------------------

  /** Every worker that is about to copy finds a published task, and none has copied from null. */
  predicate NobodyMisses(s: State) {
    forall w | 0 <= w < |s.workers| ::
      !s.workers[w].pc.Crashed? && (s.workers[w].pc.Copying? ==> s.g.published.Some?)
  }

  /** A compare-exchange that fails although nothing is published. */
  predicate Harmful(s: State, e: Event)
    requires e.worker < |s.workers|
  {
    s.workers[e.worker].pc.Trying? && e.spurious && s.g.published.None?
  }

  /** In a harmless schedule a compare-exchange fails spuriously only while a task is published. */
  predicate Harmless(n: nat, events: seq<Event>)
    requires AreEvents(n, events)
  {
    events == [] ||
    var before := events[..|events| - 1];
    Harmless(n, before) && !Harmful(Run(n, before), events[|events| - 1])
  }

  lemma ClearingMissesNobody(s: State, w: nat, u: nat)
    requires Inv(s) && w < |s.workers| && u < |s.workers| && s.workers[w].pc.Clearing?
    ensures !s.workers[u].pc.Copying?
  {
    IsOk(s, w);
    IsOk(s, u);
  }

  lemma OthersStay(s: State, w: nat, a: Action, spurious: bool, u: nat)
    requires w < |s.workers| && u < |s.workers| && u != w
    ensures Step(s, w, a, spurious).workers[u] == s.workers[u]
  {}

  lemma PublishedStays(s: State, w: nat, a: Action, spurious: bool)
    requires w < |s.workers| && s.g.published.Some? && !s.workers[w].pc.Clearing?
    ensures Step(s, w, a, spurious).g.published.Some?
  {}

  lemma OwnStep(s: State, w: nat, a: Action, spurious: bool)
    requires w < |s.workers| && NobodyMisses(s) && !Harmful(s, Event(w, a, spurious))
    ensures var s' := Step(s, w, a, spurious);
            !s'.workers[w].pc.Crashed? && (s'.workers[w].pc.Copying? ==> s'.g.published.Some?)
  {}

  lemma NextMissesNobody(s: State, w: nat, a: Action, spurious: bool)
    requires Inv(s) && NobodyMisses(s) && w < |s.workers| && !Harmful(s, Event(w, a, spurious))
    ensures NobodyMisses(Step(s, w, a, spurious))
  {
    hide Inv;
    StepSize(s, w, a, spurious);
    OwnStep(s, w, a, spurious);
    hide Step, Harmful;
    var s' := Step(s, w, a, spurious);
    forall u | 0 <= u < |s'.workers|
      ensures !s'.workers[u].pc.Crashed? && (s'.workers[u].pc.Copying? ==> s'.g.published.Some?)
    {
      if u != w {
        OthersStay(s, w, a, spurious, u);
        if s.workers[w].pc.Clearing? {
          ClearingMissesNobody(s, w, u);
        } else if s.g.published.Some? {
          PublishedStays(s, w, a, spurious);
        }
      }
    }
  }

  /** In a harmless schedule a task stays published until everybody who has seen it has copied it: no worker ever copies
      from null. */
  lemma {:induction false} NobodyCrashes(n: nat, events: seq<Event>)
    requires AreEvents(n, events) && Harmless(n, events)
    ensures NobodyMisses(Run(n, events))
  {
    hide Inv, Step, Harmful;
    if events != [] {
      var e := events[|events| - 1];
      var before := Run(n, events[..|events| - 1]);
      NobodyCrashes(n, events[..|events| - 1]);
      RunKeeps(n, events[..|events| - 1]);
      assert Event(e.worker, e.action, e.spurious) == e;
      NextMissesNobody(before, e.worker, e.action, e.spurious);
    }
  }

  lemma RunOfTwo(n: nat, events: seq<Event>, e: Event, next: Event)
    requires AreEvents(n, events) && e.worker < n && next.worker < n
    ensures AreEvents(n, events + [e]) && AreEvents(n, events + [e, next])
    ensures Run(n, events + [e]) == Step(Run(n, events), e.worker, e.action, e.spurious)
    ensures Run(n, events + [e, next]) == Step(Run(n, events + [e]), next.worker, next.action, next.spurious)
    ensures Harmless(n, events + [e]) <==> Harmless(n, events) && !Harmful(Run(n, events), e)
  {
    hide Step, Harmful;
    assert (events + [e])[..|events|] == events;
    assert (events + [e, next])[..|events| + 1] == events + [e];
  }

  /** Whether a step leaves its worker with a copy from null. */
  predicate CrashesAt(s: State, e: Event)
    requires e.worker < |s.workers|
  {
    Step(s, e.worker, e.action, e.spurious).workers[e.worker].pc.Crashed?
  }

  lemma HarmfulNext(s: State, e: Event, next: Event)
    requires e.worker < |s.workers| && next.worker == e.worker && Harmful(s, e)
    ensures |Step(s, e.worker, e.action, e.spurious).workers| == |s.workers|
    ensures CrashesAt(Step(s, e.worker, e.action, e.spurious), next)
  {}

  /** A compare-exchange that fails although nothing is published is what makes a worker copy from null: when the worker
      goes on at once it does, and after a harmless schedule it does in no other case. */
  lemma CrashesExactly(n: nat, events: seq<Event>, e: Event, next: Event)
    requires AreEvents(n, events) && Harmless(n, events) && e.worker < n && next.worker == e.worker
    ensures AreEvents(n, events + [e, next])
    ensures Run(n, events + [e, next]).workers[e.worker].pc.Crashed? <==> Harmful(Run(n, events), e)
  {
    RunOfTwo(n, events, e, next);
    var s := Run(n, events);
    if Harmful(s, e) {
      hide Run;
      HarmfulNext(s, e, next);
    } else {
      NobodyCrashes(n, events + [e]);
      hide Run;
      OwnStep(Run(n, events + [e]), next.worker, next.action, false);
    }
  }

  lemma {:induction false} PartIsHarmless(n: nat, events: seq<Event>, k: nat)
    requires AreEvents(n, events) && Harmless(n, events) && k <= |events|
    ensures Harmless(n, events[..k])
  {
    if k < |events| {
      PartIsHarmless(n, events[..|events| - 1], k);
      assert events[..|events| - 1][..k] == events[..k];
    } else {
      assert events[..k] == events;
    }
  }

  /** The first harmful step of a schedule, and where its worker stands after it. */
  lemma {:induction false} FirstHarm(n: nat, events: seq<Event>) returns (k: nat, w: nat)
    requires AreEvents(n, events) && !Harmless(n, events)
    ensures 0 < k <= |events| && w < n && events[k - 1].worker == w
    ensures Harmless(n, events[..k - 1]) && Harmful(Run(n, events[..k - 1]), events[k - 1])
    ensures forall e: Event | e.worker == w :: CrashesAt(Run(n, events[..k]), e)
  {
    hide Step, Harmful, CrashesAt;
    var m := |events| - 1;
    if Harmless(n, events[..m]) {
      k, w := m + 1, events[m].worker;
      assert events[..k] == events;
      forall e: Event | e.worker == w ensures CrashesAt(Run(n, events[..k]), e) {
        HarmfulNext(Run(n, events[..m]), events[m], e);
      }
    } else {
      k, w := FirstHarm(n, events[..m]);
      assert events[..m][..k] == events[..k] && events[..m][..k - 1] == events[..k - 1];
    }
  }

  /** Exactly when no worker can copy from null: a schedule is harmless if and only if no part of it, followed by one
      more step of any worker, ends with that worker having done so. */
  lemma HarmlessExactly(n: nat, events: seq<Event>)
    requires AreEvents(n, events)
    ensures Harmless(n, events) <==>
            forall k: nat, e: Event | k <= |events| && e.worker < n ::
              !CrashesAt(Run(n, events[..k]), e)
  {
    hide CrashesAt, Harmful, Harmless, Run;
    if Harmless(n, events) {
      forall k: nat, e: Event | k <= |events| && e.worker < n
        ensures !CrashesAt(Run(n, events[..k]), e)
      {
        PartIsHarmless(n, events, k);
        NobodyCrashes(n, events[..k]);
        NotNext(Run(n, events[..k]), e);
      }
    } else {
      var k, w := FirstHarm(n, events);
      assert CrashesAt(Run(n, events[..k]), Event(w, See, false));
    }
  }

  lemma NotNext(s: State, e: Event)
    requires e.worker < |s.workers| && NobodyMisses(s)
    ensures !CrashesAt(s, e)
  {}

  /** The shortest schedule that ends with a copy from null: one worker, and one failure without a reason. */
  lemma SpuriousFailureCrashes()
    ensures var events := [Event(0, Start(0, true, 0), false), Event(0, See, true), Event(0, See, false)];
            Run(1, events).workers[0].pc.Crashed?
  {
    var start := Event(0, Start(0, true, 0), false);
    assert [start] == [] + [start] && [start] + [Event(0, See, true), Event(0, See, false)] ==
           [start, Event(0, See, true), Event(0, See, false)];
    RunOfTwo(1, [], start, start);
    CrashesExactly(1, [start], Event(0, See, true), Event(0, See, false));
  }

  /** A harmful failure need not crash: another worker may publish before the copy. */
  lemma LuckyFailure()
    ensures var events := [Event(0, Start(0, true, 0), false), Event(1, Start(1, true, 0), false), Event(0, See, true),
                           Event(1, See, false), Event(0, See, false)];
            && !Harmless(2, events)
            && Run(2, events).workers[0].pc ==
               BeforeFirst(Visit(Task(1, 1, true), false, Some(Task(0, 0, true)), Some(0)))
  {
    var e0, e1, e2 := Event(0, Start(0, true, 0), false), Event(1, Start(1, true, 0), false), Event(0, See, true);
    var e3, e4 := Event(1, See, false), Event(0, See, false);
    assert [e0, e1] == [] + [e0, e1];
    assert [e0, e1, e2, e3] == [e0, e1] + [e2, e3];
    assert [e0, e1, e2] == [e0, e1] + [e2];
    assert [e0, e1, e2, e3, e4] == [e0, e1, e2] + [e3, e4];
    RunOfTwo(2, [], e0, e1);
    RunOfTwo(2, [e0, e1], e2, e3);
    RunOfTwo(2, [e0, e1, e2], e3, e4);
    assert [e0, e1, e2] + [e3] == [e0, e1, e2, e3];
    RunOfTwo(2, [e0, e1, e2, e3], e4, e4);
    assert [e0, e1, e2, e3] + [e4] == [e0, e1, e2, e3, e4];
  }

  /** The task of the frame at `level`; a worker that is late may still be in the one that the others have left. */
  function FrameAt(g: Shared, level: nat): Option<Task> {
    if level < |g.frames| then Some(g.frames[level]) else if g.phase.Left? then g.phase.frame else None
  }

  lemma CopyOf(g: Shared, w: nat, wk: Worker, k: nat)
    requires WorkerOk(g, w, wk) && k < |wk.visits|
    ensures FrameAt(g, k) == Some(wk.visits[k].copy)
  {
    hide EngagedOk;
  }

  /** Workers in the same frame run copies of the same task. */
  lemma SameTask(n: nat, events: seq<Event>, u: nat, w: nat, k: nat)
    requires AreEvents(n, events) && u < n && w < n
    requires k < |Run(n, events).workers[u].visits| && k < |Run(n, events).workers[w].visits|
    ensures Run(n, events).workers[u].visits[k].copy == Run(n, events).workers[w].visits[k].copy
  {
    RunKeeps(n, events);
    hide Run, WorkerOk, FrameAt;
    var s := Run(n, events);
    IsOk(s, u);
    IsOk(s, w);
    CopyOf(s.g, u, s.workers[u], k);
    CopyOf(s.g, w, s.workers[w], k);
  }

  /** Whether a worker has its copy of the task, between the copying and the second barrier. */
  predicate HasCopy(pc: Pc, t: Task) {
    (pc.AtFirst? || pc.Clearing? || pc.BeforeSecond? || pc.AtSecond?) && pc.v.copy == t
  }

  /** When the publisher is about to clear the published task, every worker has a copy of it, and none runs it yet. */
  lemma ClearedInTime(n: nat, events: seq<Event>, w: nat)
    requires AreEvents(n, events) && w < n && Run(n, events).workers[w].pc.Clearing?
    ensures var s := Run(n, events);
            && s.g.published == Some(s.workers[w].pc.v.copy) && s.workers[w].pc.v.copy.owner == w
            && forall u | 0 <= u < n ::
                 HasCopy(s.workers[u].pc, s.workers[w].pc.v.copy) && |s.workers[u].visits| == |s.workers[w].visits|
  {
    RunKeeps(n, events);
    hide Run;
    var s := Run(n, events);
    IsOk(s, w);
    forall u | 0 <= u < n
      ensures HasCopy(s.workers[u].pc, s.workers[w].pc.v.copy) && |s.workers[u].visits| == |s.workers[w].visits|
    {
      IsOk(s, u);
    }
  }

  /** While a task is published its publisher has not entered the frame, and no running worker is deeper in frames than
      the publisher: nobody runs the frame yet. */
  lemma NobodyRunsWhilePublished(n: nat, events: seq<Event>, u: nat)
    requires AreEvents(n, events) && u < n && Run(n, events).g.published.Some?
    ensures var s := Run(n, events);
            var t := s.g.published.value;
            && t.owner < n
            && (s.workers[t.owner].pc.BeforeFirst? || s.workers[t.owner].pc.AtFirst? || s.workers[t.owner].pc.Clearing?)
            && s.workers[t.owner].pc.v.copy == t
            && (s.workers[u].pc.Running? ==> |s.workers[u].visits| <= |s.workers[t.owner].visits|)
  {
    RunKeeps(n, events);
    hide Run;
    var s := Run(n, events);
    if s.g.phase.Inside? { IsOk(s, s.g.phase.task.owner); }
    IsOk(s, u);
    IsOk(s, s.g.published.value.owner);
  }

  /** A publisher that loses joins the winner's frame before it tries again: the frame that it leaves when it does is
      that of another worker's task. */
  lemma LoserJoins(n: nat, events: seq<Event>, w: nat, a: Action, spurious: bool)
    requires AreEvents(n, events) && w < n
    ensures var s := Run(n, events);
            var wk, wk' := s.workers[w], Step(s, w, a, spurious).workers[w];
            && (wk.pc.Trying? && !wk'.pc.BeforeFirst? ==> wk'.pc == Copying(Some(wk.pc.task), Some(wk.pc.forRoot)))
            && (wk'.pc.Trying? && !wk.pc.Running? && !wk.pc.Trying? ==>
                  && wk.pc.AtThird? && wk.visits != []
                  && wk.visits[|wk.visits| - 1].pending == Some(wk'.pc.task)
                  && wk.visits[|wk.visits| - 1].copy.owner != w)
  {
    RunKeeps(n, events);
    hide Run;
    var s := Run(n, events);
    IsOk(s, w);
    StepOf(s, w, a, spurious);
    hide Step;
    if s.workers[w].pc.AtThird? && s.workers[w].visits != [] {
      assert VisitOk(s.workers[w].visits[|s.workers[w].visits| - 1], w);
    }
  }

  /** What a step does to the worker that takes it. */
  lemma StepOf(s: State, w: nat, a: Action, spurious: bool)
    requires w < |s.workers|
    ensures var wk, wk' := s.workers[w], Step(s, w, a, spurious).workers[w];
            && (wk.pc.Trying? ==> wk'.pc.BeforeFirst? || wk'.pc == Copying(Some(wk.pc.task), Some(wk.pc.forRoot)))
            && (wk'.pc.Trying? ==> wk.pc.Running? || wk.pc.AtThird?)
            && (wk'.pc.Trying? && wk.pc.AtThird? ==>
                  wk.visits != [] && wk.visits[|wk.visits| - 1].pending == Some(wk'.pc.task))
  {}

  /** A loser tries again: a worker that leaves the third barrier of a visit is back in the frame before, and has just a task
      that was pending in the visit to publish, on behalf of the same root. */
  lemma LoserTriesAgain(n: nat, events: seq<Event>, w: nat, a: Action, spurious: bool)
    requires AreEvents(n, events) && w < n && Run(n, events).workers[w].pc.AtThird?
    requires Step(Run(n, events), w, a, spurious).workers[w] != Run(n, events).workers[w]
    ensures var wk, wk' := Run(n, events).workers[w], Step(Run(n, events), w, a, spurious).workers[w];
            var m := |wk.visits|;
            && m > 0 && wk'.visits == wk.visits[..m - 1] && wk'.episode == wk.episode + 1
            && match wk.visits[m - 1].pending
               case Some(t) => wk.visits[m - 1].root.Some? && wk'.pc == Trying(t, wk.visits[m - 1].root.value)
               case None => wk'.pc == Running
  {
    RunKeeps(n, events);
    hide Run;
    var s := Run(n, events);
    IsOk(s, w);
    hide Core, Inv;
    var wk := s.workers[w];
    if wk.visits != [] { assert VisitOk(wk.visits[|wk.visits| - 1], w); }
  }

  /** The task that a worker still has to publish because of where it is. */
  function Held(pc: Pc): Option<Task> {
    match pc
    case Trying(task, _) => Some(task)
    case Copying(pending, _) => pending
    case BeforeFirst(v) => v.pending
    case AtFirst(v) => v.pending
    case Clearing(v) => v.pending
    case BeforeSecond(v) => v.pending
    case AtSecond(v) => v.pending
    case _ => None
  }

  /** A worker has a task that it still has to publish: now, or after the visits that it has lost to others. */
  predicate HasInHand(wk: Worker, t: Task) { Held(wk.pc) == Some(t) || HasPending(wk.visits, t) }

  predicate HasPending(visits: seq<Visit>, t: Task) { exists k | 0 <= k < |visits| :: visits[k].pending == Some(t) }

  lemma PendingBelow(visits: seq<Visit>, t: Task)
    requires visits != [] && HasPending(visits, t)
    ensures HasPending(visits[..|visits| - 1], t) || visits[|visits| - 1].pending == Some(t)
  {
    var k :| 0 <= k < |visits| && visits[k].pending == Some(t);
    if k < |visits| - 1 { assert visits[..|visits| - 1][k] == visits[k]; }
  }

  lemma PendingAbove(visits: seq<Visit>, v: Visit, t: Task)
    requires HasPending(visits, t) || v.pending == Some(t)
    ensures HasPending(visits + [v], t)
  {
    var all := visits + [v];
    if HasPending(visits, t) {
      var k :| 0 <= k < |visits| && visits[k].pending == Some(t);
      assert all[k] == visits[k];
    } else {
      assert all[|visits|] == v;
    }
  }

  /** What a step does to the visits of its worker and to the task it holds. */
  lemma HandAfter(s: State, w: nat, a: Action, spurious: bool)
    requires w < |s.workers|
    ensures var wk, s' := s.workers[w], Step(s, w, a, spurious);
            var wk' := s'.workers[w];
            if wk.pc.AtSecond? && wk' != wk then wk'.visits == wk.visits + [wk.pc.v]
            else if wk.pc.AtThird? && wk' != wk then
              && wk.visits != [] && wk'.visits == wk.visits[..|wk.visits| - 1]
              && (wk.visits[|wk.visits| - 1].root.Some? ==> Held(wk'.pc) == wk.visits[|wk.visits| - 1].pending)
            else
              && wk'.visits == wk.visits
              && (Held(wk.pc).Some? ==>
                    Held(wk'.pc) == Held(wk.pc) || s'.g.published == Held(wk.pc) || wk'.pc.Crashed?)
  {
    hide Completed;
  }

  /** A step loses no task that its worker has in hand, except by a copy from null. */
  lemma StepLosesNothing(s: State, w: nat, a: Action, spurious: bool, t: Task)
    requires Inv(s) && w < |s.workers| && HasInHand(s.workers[w], t)
    ensures var s' := Step(s, w, a, spurious);
            HasInHand(s'.workers[w], t) || s'.g.published == Some(t) || s'.workers[w].pc.Crashed?
  {
    LastVisitOk(s, w);
    HandAfter(s, w, a, spurious);
    hide HasPending, Core, Inv, Step;
    var wk := s.workers[w];
    if wk.visits != [] && HasPending(wk.visits, t) { PendingBelow(wk.visits, t); }
    if wk.pc.AtSecond? { PendingAbove(wk.visits, wk.pc.v, t); }
  }

  lemma LastVisitOk(s: State, w: nat)
    requires Inv(s) && w < |s.workers|
    ensures var vs := s.workers[w].visits; vs != [] ==> VisitOk(vs[|vs| - 1], w)
  {
    IsOk(s, w);
  }

  /** No task is lost: after every schedule, a task that a worker had to publish at some time has been published since, or
      the worker still has it in hand. */
  lemma {:induction false} NoTaskIsLost(n: nat, events: seq<Event>, k: nat, w: nat, t: Task)
    requires AreEvents(n, events) && k <= |events| && w < n && HasInHand(Run(n, events[..k]).workers[w], t)
    ensures || HasInHand(Run(n, events).workers[w], t)
            || (exists j | k <= j <= |events| :: Run(n, events[..j]).g.published == Some(t))
            || Run(n, events).workers[w].pc.Crashed?
    decreases |events|
  {
    hide Step, HasInHand, Inv;
    assert events[..|events|] == events;
    if k < |events| {
      var m := |events| - 1;
      var before, e := events[..m], events[m];
      assert before[..k] == events[..k];
      NoTaskIsLost(n, before, k, w, t);
      RunKeeps(n, before);
      var s := Run(n, before);
      if j :| k <= j <= m && Run(n, before[..j]).g.published == Some(t) {
        assert before[..j] == events[..j];
      } else if e.worker != w {
        OthersStay(s, e.worker, e.action, e.spurious, w);
      } else if HasInHand(s.workers[w], t) {
        StepLosesNothing(s, w, e.action, e.spurious, t);
      } else {
        StaysCrashed(s, w, e.action, e.spurious);
      }
    }
  }

  /** What a running worker takes up: a task of its own for a root of its frame that is not finished. */
  lemma StartTakesUp(s: State, w: nat, id: nat, together: bool, r: nat, spurious: bool)
    requires w < |s.workers| && s.workers[w].pc.Running?
    requires var d := |s.workers[w].visits|; d == 0 || (d <= |s.g.open| && r in s.g.open[d - 1])
    ensures Step(s, w, Start(id, together, r), spurious).workers[w].pc == Trying(Task(w, id, together), r)
    ensures HasInHand(Step(s, w, Start(id, together, r), spurious).workers[w], Task(w, id, together))
  {}

  lemma IndicesAre(n: nat)
    ensures forall u: nat :: u in Indices(n) <==> u < n
  {}

  /** How frames open and close. A frame opens with a root for every worker when its task is a TOGETHER, and with one for the
      owner otherwise; a worker finishes its own root only; and a frame closes when all its roots are finished. */
  lemma FramesOpenAndClose(n: nat, events: seq<Event>, w: nat, a: Action, spurious: bool)
    requires AreEvents(n, events) && w < n
    ensures var g, g' := Run(n, events).g, Step(Run(n, events), w, a, spurious).g;
            var d := |g.open|;
            && d == |g.frames| && |g'.open| == |g'.frames|
            && (|g'.open| > d ==>
                  && |g'.open| == d + 1 && g'.open[..d] == g.open && g'.frames[..d] == g.frames
                  && forall u: nat :: u in g'.open[d] <==> if g'.frames[d].together then u < n else u == g'.frames[d].owner)
            && (|g'.open| < d ==> d > 0 && g'.open == g.open[..d - 1] && g.open[d - 1] == {})
            && (|g'.open| == d && g'.open != g.open ==>
                  && a == Finish && Run(n, events).workers[w].pc.Running? && d > 0 && w in g.open[d - 1]
                  && g'.open == g.open[d - 1 := g.open[d - 1] - {w}])
  {
    RunKeeps(n, events);
    hide Run;
    var s := Run(n, events);
    Depths(s, w);
    hide Inv;
    StepOpens(s, w, a, spurious);
  }

  lemma Depths(s: State, w: nat)
    requires Inv(s) && w < |s.workers|
    ensures |s.g.open| == |s.g.frames|
    ensures s.workers[w].pc.Running? ==> |s.workers[w].visits| == |s.g.open|
  {
    IsOk(s, w);
  }

  lemma StepOpens(s: State, w: nat, a: Action, spurious: bool)
    requires w < |s.workers| && |s.g.open| == |s.g.frames|
    requires s.workers[w].pc.Running? ==> |s.workers[w].visits| == |s.g.open|
    ensures var g, g' := s.g, Step(s, w, a, spurious).g;
            var d := |g.open|;
            && |g'.open| == |g'.frames|
            && (|g'.open| > d ==>
                  && |g'.open| == d + 1 && g'.open[..d] == g.open && g'.frames[..d] == g.frames
                  && forall u: nat :: u in g'.open[d] <==> if g'.frames[d].together then u < |s.workers| else u == g'.frames[d].owner)
            && (|g'.open| < d ==> d > 0 && g'.open == g.open[..d - 1] && g.open[d - 1] == {})
            && (|g'.open| == d && g'.open != g.open ==>
                  && a == Finish && s.workers[w].pc.Running? && d > 0 && w in g.open[d - 1]
                  && g'.open == g.open[d - 1 := g.open[d - 1] - {w}])
  {
    IndicesAre(|s.workers|);
    hide Engaged, NobodyWorksFor, AllWait, Users;
  }
}
