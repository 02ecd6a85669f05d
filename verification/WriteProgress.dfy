/**
 Progress of the writer's queue: no wake-up is lost although a consumed chunk
 wakes one worker only, no state is stuck before everyone has returned, and a
 measure falls on every step that is not a spurious wake-up.

 Workers are counted by program point; every argument here is arithmetic over
 that tally.
 */
module WriteProgress {
  import opened Common
  import opened WriteQueue
  import opened WriteProtocol
  import opened WriteSafety

  /** Program points, as far as progress is concerned (`Lost`: exited with a task, `Quit`: without). */
  datatype Point = Look | Park | Encode | Record | WakeWs | WakeM | Quit | Lost

  function At(w: Worker): Point {
    match w
    case Looking => Point.Look
    case Parked => Point.Park
    case Encoding(_, _) => Point.Encode
    case Dying(p, _) => if p.Record? then Point.Record else if p.WakeWorkers? then Point.WakeWs else Point.WakeM
    case Exited(t) => if t.None? then Point.Quit else Point.Lost
  }

  function One(w: Worker, p: Point): nat {
    if At(w) == p then 1 else 0
  }

  /** How many workers are at `p`. */
  function Count(ws: seq<Worker>, p: Point): nat {
    if ws == [] then 0 else Count(ws[1..], p) + One(ws[0], p)
  }

  lemma {:induction false} CountUpdate(ws: seq<Worker>, w: nat, x: Worker, p: Point)
    requires w < |ws|
    ensures Count(ws[w := x], p) == Count(ws, p) - One(ws[w], p) + One(x, p)
  {
    if w == 0 {
      assert ws[w := x][1..] == ws[1..];
    } else {
      assert ws[w := x][1..] == ws[1..][w - 1 := x];
      CountUpdate(ws[1..], w - 1, x, p);
    }
  }

  lemma CountMoves(ws: seq<Worker>, w: nat, x: Worker)
    requires w < |ws|
    ensures forall p :: Count(ws[w := x], p) == Count(ws, p) - One(ws[w], p) + One(x, p)
  {
    forall p { CountUpdate(ws, w, x, p); }
  }

  lemma {:induction false} CountWoken(ws: seq<Worker>, p: Point)
    ensures Count(WakeAll(ws), p) ==
            if p.Park? then 0
            else if p.Look? then Count(ws, Point.Look) + Count(ws, Point.Park)
            else Count(ws, p)
  {
    if ws != [] {
      assert WakeAll(ws)[1..] == WakeAll(ws[1..]);
      CountWoken(ws[1..], p);
    }
  }

  lemma CountWakeAll(ws: seq<Worker>)
    ensures forall p :: Count(WakeAll(ws), p) ==
              if p.Park? then 0
              else if p.Look? then Count(ws, Point.Look) + Count(ws, Point.Park)
              else Count(ws, p)
  {
    forall p { CountWoken(ws, p); }
  }

  lemma {:induction false} FindAt(ws: seq<Worker>, p: Point) returns (w: nat)
    requires Count(ws, p) > 0
    ensures w < |ws| && At(ws[w]) == p
  {
    if At(ws[0]) == p {
      w := 0;
    } else {
      w := FindAt(ws[1..], p);
      w := w + 1;
    }
  }

  lemma {:induction false} CountStart(n: nat, p: Point)
    ensures Count(Start(n).ws, p) == if p.Look? then n else 0
  {
    if n > 0 {
      assert Start(n).ws[1..] == Start(n - 1).ws;
      CountStart(n - 1, p);
    }
  }

  // ---- the progress invariant ----

  ghost predicate MasterWaking(m: Master) {
    m.Failing? && m.phase.WakeWorkers?
  }

  /** Before the first error is recorded. */
  ghost predicate Healthy(k: Config, s: Sys) {
    s.q.err.None? ==>
      && Count(s.ws, Point.WakeWs) == 0 && Count(s.ws, Point.WakeM) == 0 && Count(s.ws, Point.Lost) == 0
      && (s.m.Failing? ==> s.m.phase.Record?)
      && (s.m.Returned? ==> s.m.r.Ok?)
      && (Count(s.ws, Point.Quit) > 0 ==> s.q.next == NTasks(k))
  }

  /** After it: whoever recorded it has not finished waking those still parked. */
  ghost predicate Alarmed(s: Sys) {
    s.q.err.Some? ==>
      && (Count(s.ws, Point.Park) > 0 ==> Count(s.ws, Point.WakeWs) > 0 || MasterWaking(s.m))
      && (s.m.Sleeping? ==> Count(s.ws, Point.WakeWs) + Count(s.ws, Point.WakeM) > 0)
  }

  /** Every free window slot has an awake worker to claim it. */
  ghost predicate SlotsServed(k: Config, s: Sys) {
    s.q.err.None? && s.q.next < NTasks(k) && Count(s.ws, Point.Record) == 0 && Count(s.ws, Point.Park) > 0 ==>
      Count(s.ws, Point.Look) >= s.q.head + k.window - s.q.next
  }

  ghost predicate Awake(k: Config, s: Sys) {
    && Healthy(k, s) && Alarmed(s) && SlotsServed(k, s)
    && (s.m.Sleeping? ==> s.q.head !in s.q.done)
    && (s.m.Returned? && s.m.r.Ok? ==> Count(s.ws, Point.Park) == 0)
  }

  lemma AwakeStart(k: Config, n: nat)
    requires ValidConfig(k)
    ensures Awake(k, Start(n))
  {
    forall p { CountStart(n, p); }
  }

  lemma AwakeLook(k: Config, s: Sys, w: nat, made: Option<string>)
    requires ValidConfig(k) && Inv(k, s) && Awake(k, s)
    requires w < |s.ws| && s.ws[w].Looking?
    ensures Awake(k, NextLook(k, s, w, made))
  {
    LookQKeeps(k, s.q, made);
    CountMoves(s.ws, w, NextLook(k, s, w, made).ws[w]);
    if s.m.Returned? && s.m.r.Ok? {
      assert s.q.next >= NTasks(k);
    }
  }

  lemma AwakeDeposit(k: Config, s: Sys, w: nat)
    requires ValidConfig(k) && Inv(k, s) && Awake(k, s)
    requires w < |s.ws| && s.ws[w].Encoding? && k.encode(s.ws[w].i).Encoded?
    ensures Awake(k, NextEncode(k, s, w))
  {
    CountMoves(s.ws, w, Looking);
  }

  lemma AwakeLoss(k: Config, s: Sys, w: nat)
    requires ValidConfig(k) && Inv(k, s) && Awake(k, s)
    requires w < |s.ws| && s.ws[w].Encoding? && !k.encode(s.ws[w].i).Encoded?
    ensures Awake(k, NextEncode(k, s, w))
  {
    CountMoves(s.ws, w, NextEncode(k, s, w).ws[w]);
  }

  lemma AwakeRecord(k: Config, s: Sys, w: nat)
    requires ValidConfig(k) && Inv(k, s) && Awake(k, s)
    requires w < |s.ws| && s.ws[w].Dying? && s.ws[w].phase.Record?
    ensures Awake(k, NextDie(s, w))
  {
    CountMoves(s.ws, w, Dying(WakeWorkers, s.ws[w].task));
  }

  lemma AwakeWaking(k: Config, s: Sys, w: nat)
    requires ValidConfig(k) && Inv(k, s) && Awake(k, s)
    requires w < |s.ws| && s.ws[w].Dying? && s.ws[w].phase.WakeWorkers?
    ensures Awake(k, NextDie(s, w))
  {
    var x := Dying(WakeMaster, s.ws[w].task);
    CountMoves(s.ws, w, x);
    CountWakeAll(s.ws[w := x]);
  }

  lemma AwakeDie(k: Config, s: Sys, w: nat)
    requires ValidConfig(k) && Inv(k, s) && Awake(k, s)
    requires w < |s.ws| && s.ws[w].Dying?
    ensures Awake(k, NextDie(s, w))
  {
    match s.ws[w].phase
    case Record(_) => AwakeRecord(k, s, w);
    case WakeWorkers => AwakeWaking(k, s, w);
    case WakeMaster => CountMoves(s.ws, w, Exited(s.ws[w].task));
  }

  lemma AwakeTake(k: Config, s: Sys, woken: Option<nat>)
    requires ValidConfig(k) && Inv(k, s) && Awake(k, s)
    requires s.m.Awaiting? && MayWake(s.ws, woken)
    ensures Awake(k, NextTake(k, s, woken))
  {
    if woken.Some? {
      CountMoves(s.ws, woken.value, Looking);
    } else if Count(s.ws, Point.Park) > 0 {
      var w := FindAt(s.ws, Point.Park);
      assert false;
    }
  }

  /** A step of the master alone that leaves the queue as it is. */
  lemma AwakeAlone(k: Config, s: Sys, s': Sys)
    requires ValidConfig(k) && Awake(k, s) && s'.q == s.q && s'.ws == s.ws
    requires !s'.m.Sleeping? && !s'.m.Returned? && (s'.m.Failing? ==> s'.m.phase.Record?)
    requires !s.m.Failing?
    ensures Awake(k, s')
  {}

  lemma AwakeMaster(k: Config, s: Sys, l: Label)
    requires ValidConfig(k) && Inv(k, s) && Awake(k, s) && Enabled(k, s, l)
    requires l.MasterOpen? || l.MasterAppend? || l.MasterClose? || l.MasterWakeSpuriously?
    ensures Awake(k, Next(k, s, l))
  {
    AwakeAlone(k, s, Next(k, s, l));
  }

  lemma AwakeMasterLeaves(k: Config, s: Sys, l: Label)
    requires ValidConfig(k) && Inv(k, s) && Awake(k, s) && Enabled(k, s, l)
    requires l.MasterDie? || l.MasterEnd?
    ensures Awake(k, Next(k, s, l))
  {
    CountWakeAll(s.ws);
  }

  lemma AwakeKept(k: Config, s: Sys, l: Label)
    requires ValidConfig(k) && Inv(k, s) && Awake(k, s) && Enabled(k, s, l)
    ensures Awake(k, Next(k, s, l))
  {
    match l {
      case Look(w, made) => AwakeLook(k, s, w, made);
      case Encode(w) => if k.encode(s.ws[w].i).Encoded? { AwakeDeposit(k, s, w); } else { AwakeLoss(k, s, w); }
      case Die(w) => AwakeDie(k, s, w);
      case WakeSpuriously(w) => CountMoves(s.ws, w, Looking);
      case MasterLook(woken) => AwakeTake(k, s, woken);
      case MasterDie => AwakeMasterLeaves(k, s, l);
      case MasterEnd => AwakeMasterLeaves(k, s, l);
      case _ => AwakeMaster(k, s, l);
    }
  }

  lemma {:induction false} RunAwake(k: Config, n: nat, ls: seq<Label>, ss: seq<Sys>, j: nat)
    requires ValidConfig(k) && IsRun(k, n, ls, ss) && j < |ss|
    ensures Awake(k, ss[j])
  {
    if j == 0 {
      AwakeStart(k, n);
    } else {
      RunAwake(k, n, ls, ss, j - 1);
      RunInv(k, n, ls, ss, j - 1);
      AwakeKept(k, ss[j - 1], ls[j - 1]);
    }
  }

  lemma {:induction false} RunSize(k: Config, n: nat, ls: seq<Label>, ss: seq<Sys>, j: nat)
    requires ValidConfig(k) && IsRun(k, n, ls, ss) && j < |ss|
    ensures |ss[j].ws| == n
  {
    if j > 0 {
      RunSize(k, n, ls, ss, j - 1);
    }
  }

  lemma ReachableAwake(k: Config, n: nat, s: Sys)
    requires ValidConfig(k) && Reachable(k, n, s)
    ensures Awake(k, s) && |s.ws| == n
  {
    var ls, ss :| IsRun(k, n, ls, ss) && ss[|ls|] == s;
    RunAwake(k, n, ls, ss, |ls|);
    RunSize(k, n, ls, ss, |ls|);
  }

  // ---- no lost wake-up ----

  /**
   A consumed chunk frees one slot and wakes one worker.  That is enough: while
   the queue is healthy, a parked worker is never needed, because there are at
   least as many workers on their way to the queue as there are free slots.
   */
  lemma NoLostWakeup(k: Config, n: nat, s: Sys)
    requires ValidConfig(k) && Reachable(k, n, s)
    requires s.q.err.None? && s.q.next < NTasks(k)
    requires forall w | 0 <= w < n && |s.ws| == n && s.ws[w].Dying? :: !s.ws[w].phase.Record?
    requires exists w :: 0 <= w < |s.ws| && s.ws[w].Parked?
    ensures Count(s.ws, Point.Look) >= s.q.head + k.window - s.q.next
  {
    ReachableAwake(k, n, s);
    var w :| 0 <= w < |s.ws| && s.ws[w].Parked?;
    CountPresent(s.ws, w);
    if Count(s.ws, Point.Record) > 0 {
      var v := FindAt(s.ws, Point.Record);
    }
  }

  lemma {:induction false} CountPresent(ws: seq<Worker>, w: nat)
    requires w < |ws|
    ensures Count(ws, At(ws[w])) > 0
  {
    if w > 0 {
      CountPresent(ws[1..], w - 1);
    }
  }

  /** Once an error is recorded, whoever is parked has a wake-up on its way. */
  lemma ErrorWakesEveryone(k: Config, n: nat, s: Sys)
    requires ValidConfig(k) && Reachable(k, n, s)
    requires s.q.err.Some?
    requires s.m.Sleeping? || exists w :: 0 <= w < |s.ws| && s.ws[w].Parked?
    ensures MasterWaking(s.m) || exists v :: 0 <= v < |s.ws| && s.ws[v].Dying? && !s.ws[v].phase.Record?
  {
    ReachableAwake(k, n, s);
    if w :| 0 <= w < |s.ws| && s.ws[w].Parked? {
      CountPresent(s.ws, w);
    }
    if !MasterWaking(s.m) {
      var v := FindAt(s.ws, if Count(s.ws, Point.WakeWs) > 0 then Point.WakeWs else Point.WakeM);
    }
  }

  // ---- no deadlock ----

  ghost predicate Spurious(l: Label) {
    l.WakeSpuriously? || l.MasterWakeSpuriously?
  }

  ghost predicate Finished(s: Sys) {
    s.m.Returned? && forall w | 0 <= w < |s.ws| :: s.ws[w].Exited?
  }

  /** With nobody at work and no error, the oldest unconsumed task cannot be missing. */
  lemma IdleMeansConsumed(k: Config, s: Sys)
    requires ValidConfig(k) && Inv(k, s) && Awake(k, s)
    requires s.q.err.None? && s.m.Sleeping?
    requires forall w | 0 <= w < |s.ws| :: s.ws[w].Parked? || s.ws[w].Exited?
    ensures s.q.next == s.q.head < NTasks(k)
  {
    TaskBound(k.nc, k.nrg, s.m.g, s.m.c);
    if s.q.head < s.q.next {
      var w :| 0 <= w < |s.ws| && Helds(s.ws)[w] == Some(s.q.head);
      CountPresent(s.ws, w);
      assert false;
    }
  }

  lemma IdleMeansFinished(k: Config, s: Sys)
    requires ValidConfig(k) && Inv(k, s) && Awake(k, s) && |s.ws| > 0
    requires forall w | 0 <= w < |s.ws| :: s.ws[w].Parked? || s.ws[w].Exited?
    requires s.m.Sleeping? || s.m.Returned?
    ensures Finished(s)
  {
    forall p: Point | p.Look? || p.Record? || p.WakeWs? || p.WakeM?
      ensures Count(s.ws, p) == 0
    {
      if Count(s.ws, p) > 0 {
        var w := FindAt(s.ws, p);
        assert false;
      }
    }
    if w :| 0 <= w < |s.ws| && s.ws[w].Parked? {
      CountPresent(s.ws, w);
      IdleMeansConsumed(k, s);
      assert false;
    } else if s.m.Sleeping? {
      CountPresent(s.ws, 0);
      IdleMeansConsumed(k, s);
      assert false;
    }
  }

  /** In every reachable state that is not the end, some thread can take a real step. */
  lemma NoDeadlock(k: Config, n: nat, s: Sys) returns (l: Label)
    requires ValidConfig(k) && n > 0 && Reachable(k, n, s) && !Finished(s)
    ensures Enabled(k, s, l) && !Spurious(l)
  {
    ReachableInv(k, n, s);
    ReachableAwake(k, n, s);
    if w: nat :| w < |s.ws| && !s.ws[w].Parked? && !s.ws[w].Exited? {
      l := match s.ws[w]
        case Looking => Label.Look(w, None)
        case Encoding(_, _) => Label.Encode(w)
        case Dying(_, _) => Label.Die(w);
    } else if s.m.Sleeping? || s.m.Returned? {
      IdleMeansFinished(k, s);
      assert false;
    } else {
      l := MasterMove(k, s);
    }
  }

  lemma MasterMove(k: Config, s: Sys) returns (l: Label)
    requires !s.m.Sleeping? && !s.m.Returned?
    ensures Enabled(k, s, l) && !Spurious(l)
  {
    match s.m
    case Opening(_) => l := MasterOpen(None);
    case Awaiting(_, _) =>
      if w: nat :| w < |s.ws| && s.ws[w].Parked? {
        l := MasterLook(Some(w));
      } else {
        l := MasterLook(None);
      }
    case Appending(_, _, _) => l := MasterAppend(None);
    case Closing(_) => l := MasterClose(None);
    case Failing(_, _) => l := MasterDie;
    case Ending => l := MasterEnd;
  }

  // ---- termination ----

  /** Threads that have not begun to leave. */
  ghost function Live(s: Sys): nat {
    Count(s.ws, Point.Look) + Count(s.ws, Point.Park) + Count(s.ws, Point.Encode)
    + if s.m.Failing? || s.m.Ending? || s.m.Returned? then 0 else 1
  }

  function PhaseRank(p: Phase): nat {
    match p
    case Record(_) => 3
    case WakeWorkers => 2
    case WakeMaster => 1
  }

  /** Steps the leaving threads still have to take. */
  ghost function Leaving(s: Sys): nat {
    3 * Count(s.ws, Point.Record) + 2 * Count(s.ws, Point.WakeWs) + Count(s.ws, Point.WakeM)
    + match s.m
      case Failing(p, _) => PhaseRank(p)
      case Ending => 1
      case _ => 0
  }

  ghost function MasterWork(k: Config, m: Master): int {
    match m
    case Opening(g) => 8 * (NTasks(k) - Task(k.nc, g, 0)) + 4 * (k.nrg - g)
    case Awaiting(g, c) => 8 * (NTasks(k) - Task(k.nc, g, c)) + 4 * (k.nrg - g) - 1
    case Sleeping(g, c) => 8 * (NTasks(k) - Task(k.nc, g, c)) + 4 * (k.nrg - g) - 2
    case Appending(g, c, _) => 8 * (NTasks(k) - Task(k.nc, g, c) - 1) + 4 * (k.nrg - g) + 2
    case Closing(g) => 8 * (NTasks(k) - Task(k.nc, g + 1, 0)) + 4 * (k.nrg - g) - 2
    case _ => 0
  }

  /** Work left for the live threads. */
  ghost function Work(k: Config, s: Sys): int {
    4 * (NTasks(k) - s.q.next) + Count(s.ws, Point.Look) + 3 * Count(s.ws, Point.Encode) + MasterWork(k, s.m)
  }

  ghost predicate Falls(k: Config, s: Sys, s': Sys) {
    || Live(s') < Live(s)
    || (Live(s') == Live(s) && Leaving(s') < Leaving(s))
    || (Live(s') == Live(s) && Leaving(s') == Leaving(s) && 0 <= Work(k, s') < Work(k, s))
  }

  lemma WorkNatural(k: Config, s: Sys)
    requires ValidConfig(k) && Inv(k, s)
    ensures Work(k, s) >= 0
  {
    match s.m {
      case Opening(g) => assert Task(k.nc, g, 0) <= NTasks(k);
      case Awaiting(g, c) => TaskBound(k.nc, k.nrg, g, c);
      case Sleeping(g, c) => TaskBound(k.nc, k.nrg, g, c);
      case Appending(g, c, _) => TaskBound(k.nc, k.nrg, g, c);
      case Closing(g) => TaskBound(k.nc, k.nrg, g, 0);
      case _ =>
    }
  }

  lemma LookFalls(k: Config, s: Sys, w: nat, made: Option<string>)
    requires ValidConfig(k) && WritersExact(k, s.q)
    requires w < |s.ws| && s.ws[w].Looking? && Work(k, NextLook(k, s, w, made)) >= 0
    ensures Falls(k, s, NextLook(k, s, w, made))
  {
    LookQKeeps(k, s.q, made);
    CountMoves(s.ws, w, NextLook(k, s, w, made).ws[w]);
  }

  lemma DepositFalls(k: Config, s: Sys, w: nat)
    requires ValidConfig(k) && w < |s.ws| && s.ws[w].Encoding? && k.encode(s.ws[w].i).Encoded?
    requires Work(k, NextEncode(k, s, w)) >= 0
    ensures Falls(k, s, NextEncode(k, s, w))
  {
    CountMoves(s.ws, w, Looking);
  }

  lemma LossFalls(k: Config, s: Sys, w: nat)
    requires ValidConfig(k) && w < |s.ws| && s.ws[w].Encoding? && !k.encode(s.ws[w].i).Encoded?
    ensures Falls(k, s, NextEncode(k, s, w))
  {
    CountMoves(s.ws, w, NextEncode(k, s, w).ws[w]);
  }

  lemma WakingFalls(k: Config, s: Sys, w: nat)
    requires ValidConfig(k) && w < |s.ws| && s.ws[w].Dying? && s.ws[w].phase.WakeWorkers?
    ensures Falls(k, s, NextDie(s, w))
  {
    var x := Dying(WakeMaster, s.ws[w].task);
    CountMoves(s.ws, w, x);
    CountWakeAll(s.ws[w := x]);
  }

  lemma RecordFalls(k: Config, s: Sys, w: nat)
    requires ValidConfig(k) && w < |s.ws| && s.ws[w].Dying? && s.ws[w].phase.Record?
    ensures Falls(k, s, NextDie(s, w))
  {
    CountMoves(s.ws, w, Dying(WakeWorkers, s.ws[w].task));
  }

  lemma DyingFalls(k: Config, s: Sys, w: nat)
    requires ValidConfig(k) && w < |s.ws| && s.ws[w].Dying?
    ensures Falls(k, s, NextDie(s, w))
  {
    match s.ws[w].phase
    case Record(_) => RecordFalls(k, s, w);
    case WakeWorkers => WakingFalls(k, s, w);
    case WakeMaster => CountMoves(s.ws, w, Exited(s.ws[w].task));
  }

  lemma TakeFalls(k: Config, s: Sys, woken: Option<nat>)
    requires ValidConfig(k) && s.m.Awaiting? && MayWake(s.ws, woken)
    requires Work(k, NextTake(k, s, woken)) >= 0
    ensures Falls(k, s, NextTake(k, s, woken))
  {
    if woken.Some? {
      CountMoves(s.ws, woken.value, Looking);
    }
  }

  lemma AppendFalls(k: Config, s: Sys, l: Label)
    requires ValidConfig(k) && MasterRight(k, s) && Enabled(k, s, l) && l.MasterAppend? && Work(k, Next(k, s, l)) >= 0
    ensures Falls(k, s, Next(k, s, l))
  {
    TaskBound(k.nc, k.nrg, s.m.g, s.m.c);
  }

  lemma MasterFalls(k: Config, s: Sys, l: Label)
    requires ValidConfig(k) && MasterRight(k, s) && Enabled(k, s, l) && Work(k, Next(k, s, l)) >= 0
    requires l.MasterOpen? || l.MasterAppend? || l.MasterClose?
    ensures Falls(k, s, Next(k, s, l))
  {
    if l.MasterAppend? {
      AppendFalls(k, s, l);
    }
  }

  lemma MasterLeaveFalls(k: Config, s: Sys, l: Label)
    requires ValidConfig(k) && Enabled(k, s, l)
    requires l.MasterDie? || l.MasterEnd?
    ensures Falls(k, s, Next(k, s, l))
  {
    CountWakeAll(s.ws);
  }

  /** Every step but a spurious wake-up brings the end nearer. */
  lemma MeasureFalls(k: Config, s: Sys, l: Label)
    requires ValidConfig(k) && Inv(k, s) && Enabled(k, s, l) && !Spurious(l)
    ensures Falls(k, s, Next(k, s, l))
  {
    InvKept(k, s, l);
    WorkNatural(k, Next(k, s, l));
    match l {
      case Look(w, made) => LookFalls(k, s, w, made);
      case Encode(w) => if k.encode(s.ws[w].i).Encoded? { DepositFalls(k, s, w); } else { LossFalls(k, s, w); }
      case Die(w) => DyingFalls(k, s, w);
      case MasterLook(woken) => TakeFalls(k, s, woken);
      case MasterDie => MasterLeaveFalls(k, s, l);
      case MasterEnd => MasterLeaveFalls(k, s, l);
      case _ => MasterFalls(k, s, l);
    }
  }

  /** No schedule, fair or not, runs for ever on real steps. */
  lemma {:induction false} NoEndlessRun(k: Config, ls: nat -> Label, ss: nat -> Sys, j: nat)
    requires ValidConfig(k) && Inv(k, ss(j))
    requires forall i: nat :: Enabled(k, ss(i), ls(i)) && !Spurious(ls(i)) && ss(i + 1) == Next(k, ss(i), ls(i))
    ensures false
    decreases Live(ss(j)), Leaving(ss(j)), Work(k, ss(j))
  {
    MeasureFalls(k, ss(j), ls(j));
    InvKept(k, ss(j), ls(j));
    NoEndlessRun(k, ls, ss, j + 1);
  }

  lemma RunGrows(k: Config, n: nat, ls: seq<Label>, ss: seq<Sys>, l: Label)
    requires ValidConfig(k) && IsRun(k, n, ls, ss) && Enabled(k, ss[|ls|], l)
    ensures IsRun(k, n, ls + [l], ss + [Next(k, ss[|ls|], l)])
  {}

  lemma OneMoreStep(k: Config, n: nat, ls: seq<Label>, ss: seq<Sys>) returns (l: Label, s: Sys)
    requires ValidConfig(k) && n > 0 && IsRun(k, n, ls, ss) && !Finished(ss[|ls|])
    ensures IsRun(k, n, ls + [l], ss + [s]) && !Spurious(l) && Falls(k, ss[|ls|], s)
  {
    var last := ss[|ls|];
    RunInv(k, n, ls, ss, |ls|);
    l := NoDeadlock(k, n, last);
    MeasureFalls(k, last, l);
    RunGrows(k, n, ls, ss, l);
    s := Next(k, last, l);
  }

  /** From every reachable state, real steps lead to the end: nobody is left behind, whatever failed. */
  lemma {:induction false} EveryRunCanFinish(k: Config, n: nat, ls: seq<Label>, ss: seq<Sys>)
    returns (more: seq<Label>, through: seq<Sys>)
    requires ValidConfig(k) && n > 0 && IsRun(k, n, ls, ss)
    ensures IsRun(k, n, ls + more, ss + through)
    ensures forall j | 0 <= j < |more| :: !Spurious(more[j])
    ensures |more| == |through| && Finished((ss + through)[|ls| + |more|])
    decreases Live(ss[|ls|]), Leaving(ss[|ls|]), Work(k, ss[|ls|])
  {
    if Finished(ss[|ls|]) {
      more, through := [], [];
      assert ls + more == ls && ss + through == ss;
    } else {
      var l, s := OneMoreStep(k, n, ls, ss);
      var more', through' := EveryRunCanFinish(k, n, ls + [l], ss + [s]);
      more, through := [l] + more', [s] + through';
      assert ls + more == ls + [l] + more' && ss + through == ss + [s] + through';
    }
  }
}
