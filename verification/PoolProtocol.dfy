/**
 Pool workers and any number of calling threads as one transition system.

 A caller that finds the pool busy, or not yet large enough, runs its job on
 threads of its own and never touches the pool (`Alone`).  A lender that unwinds
 drops the `busy` guard while panicking, which poisons the lock.  `runs`, `died` and
 `wants` are history: who started which generation, who panicked in it, and how
 many workers it wanted.
 */
module PoolProtocol {
  import opened Common
  import opened Pool

  datatype Worker =
    | Unborn
    | Looking(seen: nat)
    | Parked(seen: nat)
    | Running(seen: nat, job: nat)

  /** `f` is the lent job, `n` the workers asked for, `g` the generation dispatched. */
  datatype Caller =
    | Idle
    | Asking(f: nat, n: nat)
    | Trying(f: nat, n: nat)
    | Holding(f: nat, n: nat)
    | Lending(f: nat, n: nat, g: nat)
    | Waiting(f: nat, n: nat, g: nat, unwound: bool)
    | Sleeping(f: nat, n: nat, g: nat, unwound: bool)
    | Leaving(n: nat, g: nat, unwound: bool, bad: bool)
    | Returned(n: nat, g: nat, unwound: bool, bad: bool)
    | Alone(f: nat)

  datatype Sys = Sys(
    st: St, busy: Option<nat>, poisoned: bool, spawned: nat, ready: nat,
    ws: seq<Worker>, cs: seq<Caller>,
    runs: multiset<(nat, nat)>, died: set<(nat, nat)>, wants: seq<nat>)

  datatype Label =
    | Spawn
    | Begin(i: nat)
    | Look(i: nat)
    | Finish(i: nat, bad: bool)
    | WakeSpuriously(i: nat)
    | Call(c: nat, f: nat, n: nat)
    | Check(c: nat)
    | TryLock(c: nat)
    | Dispatch(c: nat)
    | MeDone(c: nat, unwound: bool)
    | Collect(c: nat)
    | Unlock(c: nat)
    | CallerWakesSpuriously(c: nat)

  function Start(workers: nat, callers: nat): Sys {
    Sys(IDLE, None, false, 0, 0, seq(workers, i => Unborn), seq(callers, c => Idle), multiset{}, {}, [0])
  }

  ghost predicate Enabled(s: Sys, l: Label) {
    match l
    case Spawn => s.spawned < |s.ws|
    case Begin(i) => i < |s.ws| && i < s.spawned && s.ws[i].Unborn?
    case Look(i) => i < |s.ws| && s.ws[i].Looking?
    case Finish(i, _) => i < |s.ws| && s.ws[i].Running? && s.st.left > 0
    case WakeSpuriously(i) => i < |s.ws| && s.ws[i].Parked?
    case Call(c, _, n) => c < |s.cs| && (s.cs[c].Idle? || s.cs[c].Returned? || s.cs[c].Alone?) && n > 0
    case Check(c) => c < |s.cs| && s.cs[c].Asking?
    case TryLock(c) => c < |s.cs| && s.cs[c].Trying?
    case Dispatch(c) => c < |s.cs| && s.cs[c].Holding?
    case MeDone(c, _) => c < |s.cs| && s.cs[c].Lending?
    case Collect(c) => c < |s.cs| && s.cs[c].Waiting?
    case Unlock(c) => c < |s.cs| && s.cs[c].Leaving?
    case CallerWakesSpuriously(c) => c < |s.cs| && s.cs[c].Sleeping?
  }

  function Woken(w: Worker): Worker {
    if w.Parked? then Looking(w.seen) else w
  }

  /** `work.notify_all` */
  function WakeWorkers(ws: seq<Worker>): seq<Worker> {
    seq(|ws|, i requires 0 <= i < |ws| => Woken(ws[i]))
  }

  function Roused(c: Caller): Caller {
    if c.Sleeping? then Waiting(c.f, c.n, c.g, c.unwound) else c
  }

  /** `done.notify_all` */
  function WakeCallers(cs: seq<Caller>): seq<Caller> {
    seq(|cs|, c requires 0 <= c < |cs| => Roused(cs[c]))
  }

  ghost function Next(s: Sys, l: Label): Sys
    requires Enabled(s, l)
  {
    match l
    case Spawn => s.(spawned := s.spawned + 1)
    case Begin(i) => s.(ws := s.ws[i := Looking(0)], ready := s.ready + 1)
    case Look(i) => NextLook(s, i)
    case Finish(i, bad) => NextFinish(s, i, bad)
    case WakeSpuriously(i) => s.(ws := s.ws[i := Looking(s.ws[i].seen)])
    case Call(c, f, n) => s.(cs := s.cs[c := Asking(f, n)])
    case Check(c) =>
      var f, n := s.cs[c].f, s.cs[c].n;
      s.(cs := s.cs[c := if s.ready >= n then Trying(f, n) else Alone(f)])
    case TryLock(c) =>
      var f, n := s.cs[c].f, s.cs[c].n;
      if s.busy.None? && !s.poisoned then s.(busy := Some(c), cs := s.cs[c := Holding(f, n)])
      else s.(cs := s.cs[c := Alone(f)])
    case Dispatch(c) => NextDispatch(s, c)
    case MeDone(c, unwound) => s.(cs := s.cs[c := Waiting(s.cs[c].f, s.cs[c].n, s.cs[c].g, unwound)])
    case Collect(c) => NextCollect(s, c)
    case Unlock(c) =>
      var x := s.cs[c];
      s.(busy := None, poisoned := s.poisoned || x.unwound, cs := s.cs[c := Returned(x.n, x.g, x.unwound, x.bad)])
    case CallerWakesSpuriously(c) => s.(cs := s.cs[c := Roused(s.cs[c])])
  }

  ghost function NextLook(s: Sys, i: nat): Sys
    requires i < |s.ws| && s.ws[i].Looking?
  {
    match PickSt(s.st, i, s.ws[i].seen)
    case Sleep => s.(ws := s.ws[i := Parked(s.ws[i].seen)])
    case Skip(g) => s.(ws := s.ws[i := Looking(g)])
    case Take(g, j) => s.(ws := s.ws[i := Running(g, j)], runs := s.runs + multiset{(g, i)})
  }

  /** The job's return and the countdown that follows it; a panic is caught and counted. */
  ghost function NextFinish(s: Sys, i: nat, bad: bool): Sys
    requires i < |s.ws| && s.ws[i].Running? && s.st.left > 0
  {
    var g := s.ws[i].seen;
    var st := FinishSt(s.st, bad);
    s.(st := st, ws := s.ws[i := Looking(g)],
       died := if bad then s.died + {(g, i)} else s.died,
       cs := if st.left == 0 then WakeCallers(s.cs) else s.cs)
  }

  /** More workers than there are is not an error: the number is cut. */
  ghost function NextDispatch(s: Sys, c: nat): Sys
    requires c < |s.cs| && s.cs[c].Holding?
  {
    var f, n := s.cs[c].f, s.cs[c].n;
    var m := Min(n, |s.ws|);
    s.(st := DispatchSt(s.st, f, m), wants := s.wants + [m],
       ws := WakeWorkers(s.ws), cs := s.cs[c := Lending(f, n, s.st.gen + 1)])
  }

  ghost function NextCollect(s: Sys, c: nat): Sys
    requires c < |s.cs| && s.cs[c].Waiting?
  {
    var x := s.cs[c];
    var (st, bad) := CollectSt(s.st);
    if bad.None? then s.(cs := s.cs[c := Sleeping(x.f, x.n, x.g, x.unwound)])
    else s.(st := st, cs := s.cs[c := Leaving(x.n, x.g, x.unwound, bad.value)])
  }

  ghost predicate IsRun(workers: nat, callers: nat, ls: seq<Label>, ss: seq<Sys>) {
    && |ss| == |ls| + 1
    && ss[0] == Start(workers, callers)
    && forall j | 0 <= j < |ls| :: Enabled(ss[j], ls[j]) && ss[j + 1] == Next(ss[j], ls[j])
  }

  ghost predicate Reachable(workers: nat, callers: nat, s: Sys) {
    exists ls, ss :: IsRun(workers, callers, ls, ss) && ss[|ls|] == s
  }

  // ---- the countdown ----

  ghost predicate Finished(w: Worker, gen: nat) {
    (w.Looking? || w.Parked?) && w.seen == gen
  }

  /** How many of workers 0..m-1 have not finished generation `gen`. */
  ghost function Unfinished(ws: seq<Worker>, gen: nat, m: nat): nat
    requires m <= |ws|
  {
    if m == 0 then 0
    else Unfinished(ws, gen, m - 1) + if Finished(ws[m - 1], gen) then 0 else 1
  }

  ghost function Born(ws: seq<Worker>, m: nat): nat
    requires m <= |ws|
  {
    if m == 0 then 0 else Born(ws, m - 1) + if ws[m - 1].Unborn? then 0 else 1
  }

  lemma {:induction false} UnfinishedUpdate(ws: seq<Worker>, gen: nat, m: nat, i: nat, x: Worker)
    requires m <= |ws| && i < |ws|
    ensures Unfinished(ws[i := x], gen, m) == Unfinished(ws, gen, m) +
            if i < m then (if Finished(x, gen) then 0 else 1) - (if Finished(ws[i], gen) then 0 else 1) else 0
  {
    if m > 0 {
      UnfinishedUpdate(ws, gen, m - 1, i, x);
    }
  }

  lemma {:induction false} UnfinishedSame(ws: seq<Worker>, vs: seq<Worker>, gen: nat, m: nat)
    requires m <= |ws| == |vs|
    requires forall i | 0 <= i < m :: Finished(ws[i], gen) == Finished(vs[i], gen)
    ensures Unfinished(ws, gen, m) == Unfinished(vs, gen, m)
  {
    if m > 0 {
      UnfinishedSame(ws, vs, gen, m - 1);
    }
  }

  lemma {:induction false} NobodyFinished(ws: seq<Worker>, gen: nat, m: nat)
    requires m <= |ws|
    requires forall i | 0 <= i < m :: !Finished(ws[i], gen)
    ensures Unfinished(ws, gen, m) == m
  {
    if m > 0 {
      NobodyFinished(ws, gen, m - 1);
    }
  }

  lemma {:induction false} FindUnfinished(ws: seq<Worker>, gen: nat, m: nat) returns (i: nat)
    requires m <= |ws| && Unfinished(ws, gen, m) > 0
    ensures i < m && !Finished(ws[i], gen)
  {
    if !Finished(ws[m - 1], gen) {
      i := m - 1;
    } else {
      i := FindUnfinished(ws, gen, m - 1);
    }
  }

  lemma {:induction false} OneUnfinished(ws: seq<Worker>, gen: nat, m: nat, i: nat)
    requires i < m <= |ws| && !Finished(ws[i], gen)
    ensures Unfinished(ws, gen, m) > 0
  {
    if i < m - 1 {
      OneUnfinished(ws, gen, m - 1, i);
    }
  }

  lemma {:induction false} BornUpdate(ws: seq<Worker>, m: nat, i: nat, x: Worker)
    requires m <= |ws| && i < |ws|
    ensures Born(ws[i := x], m) == Born(ws, m) +
            if i < m then (if x.Unborn? then 0 else 1) - (if ws[i].Unborn? then 0 else 1) else 0
  {
    if m > 0 {
      BornUpdate(ws, m - 1, i, x);
    }
  }

  lemma {:induction false} BornSame(ws: seq<Worker>, vs: seq<Worker>, m: nat)
    requires m <= |ws| == |vs|
    requires forall i | 0 <= i < m :: ws[i].Unborn? == vs[i].Unborn?
    ensures Born(ws, m) == Born(vs, m)
  {
    if m > 0 {
      BornSame(ws, vs, m - 1);
    }
  }

  /** Workers start only once spawned, and are spawned in order. */
  lemma {:induction false} BornAmongSpawned(ws: seq<Worker>, spawned: nat, m: nat)
    requires m <= |ws|
    requires forall i | 0 <= i < |ws| && !ws[i].Unborn? :: i < spawned
    ensures Born(ws, m) <= Min(spawned, m)
  {
    if m > 0 {
      BornAmongSpawned(ws, spawned, m - 1);
    }
  }

  // ---- the invariant ----

  /** Between taking `busy` and giving it back. */
  predicate InSection(c: Caller) {
    c.Holding? || InFlight(c) || c.Leaving?
  }

  /** Between dispatching a job and having collected it. */
  predicate InFlight(c: Caller) {
    c.Lending? || c.Waiting? || c.Sleeping?
  }

  ghost predicate Exclusive(s: Sys) {
    && (forall c | 0 <= c < |s.cs| :: InSection(s.cs[c]) <==> s.busy == Some(c))
    && (s.busy.Some? ==> s.busy.value < |s.cs| && !s.poisoned)
  }

  ghost predicate Lent(s: Sys) {
    s.busy.Some? && s.busy.value < |s.cs| && InFlight(s.cs[s.busy.value])
  }

  ghost predicate Births(s: Sys) {
    && s.spawned <= |s.ws|
    && (forall i | 0 <= i < |s.ws| && !s.ws[i].Unborn? :: i < s.spawned)
    && s.ready == Born(s.ws, |s.ws|)
    && (forall c | 0 <= c < |s.cs| && (s.cs[c].Trying? || s.cs[c].Holding?) :: s.cs[c].n <= s.ready)
    && (s.st.want <= s.ready)
  }

  ghost predicate WorkerRight(s: Sys, i: nat)
    requires i < |s.ws|
  {
    match s.ws[i]
    case Unborn => true
    case Looking(seen) => seen <= s.st.gen
    case Parked(seen) => seen == s.st.gen
    case Running(seen, j) => seen == s.st.gen && i < s.st.want && Lent(s) && s.st.job == Some(j)
  }

  ghost predicate JobRight(s: Sys) {
    if Lent(s) then
      var c := s.cs[s.busy.value];
      s.st.job == Some(c.f) && s.st.gen == c.g > 0 && s.st.want == c.n && (c.Sleeping? ==> s.st.left > 0)
    else
      s.st.job == None && s.st.left == 0
  }

  ghost predicate Inv(s: Sys) {
    && Births(s)
    && Exclusive(s)
    && JobRight(s)
    && s.st.want <= |s.ws|
    && (s.st.gen == 0 ==> s.st.want == 0)
    && s.st.left == Unfinished(s.ws, s.st.gen, s.st.want)
    && (forall i | 0 <= i < |s.ws| :: WorkerRight(s, i))
  }

  /** Did worker `w` start generation `gen`? */
  predicate Saw(w: Worker, gen: nat) {
    !w.Unborn? && w.seen == gen
  }

  /** How often worker `i` must have run generation `g` by now. */
  ghost function DueRuns(s: Sys, g: nat, i: nat): nat
    requires |s.wants| == s.st.gen + 1
  {
    if g == 0 || g > s.st.gen || i >= |s.ws| || i >= s.wants[g] then 0
    else if g < s.st.gen || Saw(s.ws[i], g) then 1
    else 0
  }

  ghost predicate History(s: Sys) {
    && |s.wants| == s.st.gen + 1
    && s.wants[s.st.gen] == s.st.want
    && (forall g | 0 <= g <= s.st.gen :: s.wants[g] <= |s.ws|)
    && (forall g: nat, i: nat :: s.runs[(g, i)] == DueRuns(s, g, i))
    && (forall x | x in s.died :: x.0 <= s.st.gen)
    && (s.st.panics > 0 <==> Died(s, s.st.gen))
    && (forall c | 0 <= c < |s.cs| && (s.cs[c].Leaving? || s.cs[c].Returned?) :: AnswerRight(s, s.cs[c]))
  }

  ghost predicate Died(s: Sys, g: nat) {
    exists i :: (g, i) in s.died
  }

  /** A caller on its way out answers for a generation nobody is still running. */
  ghost predicate AnswerRight(s: Sys, c: Caller)
    requires c.Leaving? || c.Returned?
  {
    && 0 < c.g <= s.st.gen && c.g < |s.wants| && s.wants[c.g] == c.n
    && (Lent(s) ==> c.g < s.st.gen)
    && (c.bad <==> Died(s, c.g))
  }
}
