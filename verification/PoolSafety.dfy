/**
 Safety of the pool: the countdown is exact, a borrowed job is only ever run
 while its lender waits for it, and each wanted worker runs it exactly once.
 */
module PoolSafety {
  import opened Common
  import opened Pool
  import opened PoolProtocol

  lemma {:induction false} StartBorn(workers: nat, callers: nat, m: nat)
    requires m <= workers
    ensures Born(Start(workers, callers).ws, m) == 0
  {
    if m > 0 {
      StartBorn(workers, callers, m - 1);
    }
  }

  lemma StartInv(workers: nat, callers: nat)
    ensures Inv(Start(workers, callers)) && History(Start(workers, callers))
  {
    StartBorn(workers, callers, workers);
  }

  /** A worker step that changes no caller and none of the shared counters. */
  lemma KeepLook(s: Sys, i: nat)
    requires Inv(s) && i < |s.ws| && s.ws[i].Looking?
    ensures Inv(NextLook(s, i))
  {
    var s' := NextLook(s, i);
    UnfinishedUpdate(s.ws, s.st.gen, s.st.want, i, s'.ws[i]);
    BornUpdate(s.ws, |s.ws|, i, s'.ws[i]);
    assert Lent(s') == Lent(s);
    forall k | 0 <= k < |s'.ws|
      ensures WorkerRight(s', k)
    {
      assert WorkerRight(s, k);
    }
  }

  lemma KeepFinish(s: Sys, i: nat, bad: bool)
    requires Inv(s) && i < |s.ws| && s.ws[i].Running? && s.st.left > 0
    ensures Inv(NextFinish(s, i, bad))
  {
    var s' := NextFinish(s, i, bad);
    assert WorkerRight(s, i);
    UnfinishedUpdate(s.ws, s.st.gen, s.st.want, i, s'.ws[i]);
    BornUpdate(s.ws, |s.ws|, i, s'.ws[i]);
    forall c | 0 <= c < |s'.cs|
      ensures InSection(s'.cs[c]) == InSection(s.cs[c]) && InFlight(s'.cs[c]) == InFlight(s.cs[c])
    {}
    assert Lent(s');
    forall k | 0 <= k < |s'.ws|
      ensures WorkerRight(s', k)
    {
      assert WorkerRight(s, k);
    }
  }

  lemma KeepBirth(s: Sys, l: Label)
    requires Inv(s) && Enabled(s, l)
    requires l.Spawn? || l.Begin? || l.WakeSpuriously?
    ensures Inv(Next(s, l))
  {
    var s' := Next(s, l);
    if !l.Spawn? {
      UnfinishedUpdate(s.ws, s.st.gen, s.st.want, l.i, s'.ws[l.i]);
      BornUpdate(s.ws, |s.ws|, l.i, s'.ws[l.i]);
    }
    assert Lent(s') == Lent(s);
    forall k | 0 <= k < |s'.ws|
      ensures WorkerRight(s', k)
    {
      assert WorkerRight(s, k);
    }
  }

  /** A caller step outside the pool's state, or leaving the section for good. */
  lemma KeepCaller(s: Sys, s': Sys, c: nat, x: Caller)
    requires Inv(s) && c < |s.cs|
    requires s' == s.(cs := s.cs[c := x], busy := s'.busy, poisoned := s'.poisoned)
    requires Exclusive(s') && Lent(s') == Lent(s) && JobRight(s')
    requires x.Trying? || x.Holding? ==> x.n <= s.ready
    ensures Inv(s')
  {
    forall k | 0 <= k < |s'.ws|
      ensures WorkerRight(s', k)
    {
      assert WorkerRight(s, k);
    }
  }

  lemma KeepDispatch(s: Sys, c: nat)
    requires Inv(s) && c < |s.cs| && s.cs[c].Holding?
    ensures Inv(NextDispatch(s, c))
  {
    var s' := NextDispatch(s, c);
    assert InSection(s.cs[c]);
    BornAmongSpawned(s.ws, s.spawned, |s.ws|);
    BornSame(s.ws, s'.ws, |s.ws|);
    forall k | 0 <= k < |s'.ws|
      ensures WorkerRight(s', k) && !Finished(s'.ws[k], s'.st.gen)
    {
      assert WorkerRight(s, k);
    }
    NobodyFinished(s'.ws, s'.st.gen, s'.st.want);
  }

  /** When the countdown is over nobody wanted is still running. */
  lemma CountdownOver(s: Sys)
    requires Inv(s) && s.st.left == 0
    ensures forall i | 0 <= i < |s.ws| :: !s.ws[i].Running?
    ensures forall i | 0 <= i < s.st.want :: Finished(s.ws[i], s.st.gen)
  {
    forall i | 0 <= i < |s.ws|
      ensures i < s.st.want ==> Finished(s.ws[i], s.st.gen)
      ensures !s.ws[i].Running?
    {
      assert WorkerRight(s, i);
      if i < s.st.want && !Finished(s.ws[i], s.st.gen) {
        OneUnfinished(s.ws, s.st.gen, s.st.want, i);
      }
    }
  }

  lemma KeepCollect(s: Sys, c: nat)
    requires Inv(s) && c < |s.cs| && s.cs[c].Waiting?
    ensures Inv(NextCollect(s, c))
  {
    var s' := NextCollect(s, c);
    assert InSection(s.cs[c]);
    if s.st.left > 0 {
      KeepCaller(s, s', c, s'.cs[c]);
    } else {
      CountdownOver(s);
      forall k | 0 <= k < |s'.ws|
        ensures WorkerRight(s', k)
      {
        assert WorkerRight(s, k);
      }
    }
  }

  lemma InvKept(s: Sys, l: Label)
    requires Inv(s) && Enabled(s, l)
    ensures Inv(Next(s, l))
  {
    match l {
      case Look(i) => KeepLook(s, i);
      case Finish(i, bad) => KeepFinish(s, i, bad);
      case Dispatch(c) => KeepDispatch(s, c);
      case Collect(c) => KeepCollect(s, c);
      case Spawn => KeepBirth(s, l);
      case Begin(_) => KeepBirth(s, l);
      case WakeSpuriously(_) => KeepBirth(s, l);
      case _ => KeepOtherCaller(s, l);
    }
  }

  lemma KeepOtherCaller(s: Sys, l: Label)
    requires Inv(s) && Enabled(s, l)
    requires l.Call? || l.Check? || l.TryLock? || l.MeDone? || l.Unlock? || l.CallerWakesSpuriously?
    ensures Inv(Next(s, l))
  {
    if l.TryLock? || l.Unlock? {
      KeepBusy(s, l);
    } else {
      var s' := Next(s, l);
      assert InSection(s.cs[l.c]) <==> s.busy == Some(l.c);
      KeepCaller(s, s', l.c, s'.cs[l.c]);
    }
  }

  /** The steps that take the `busy` lock and give it back. */
  lemma KeepBusy(s: Sys, l: Label)
    requires Inv(s) && Enabled(s, l) && (l.TryLock? || l.Unlock?)
    ensures Inv(Next(s, l))
  {
    var s' := Next(s, l);
    assert InSection(s.cs[l.c]) <==> s.busy == Some(l.c);
    KeepCaller(s, s', l.c, s'.cs[l.c]);
  }

  // ---- what has run ----

  /** A step that keeps what every worker saw, and the history with it. */
  lemma HistoryKeepsStill(s: Sys, s': Sys)
    requires History(s)
    requires s'.st.gen == s.st.gen && s'.st.want == s.st.want && s'.st.panics == s.st.panics
    requires s'.wants == s.wants && s'.runs == s.runs && s'.died == s.died
    requires |s'.ws| == |s.ws|
    requires forall i | 0 <= i < |s.ws| && i < s.st.want && s.st.gen > 0 :: Saw(s'.ws[i], s.st.gen) == Saw(s.ws[i], s.st.gen)
    requires forall c | 0 <= c < |s'.cs| && (s'.cs[c].Leaving? || s'.cs[c].Returned?) :: AnswerRight(s', s'.cs[c])
    ensures History(s')
  {
    forall g: nat, i: nat
      ensures s'.runs[(g, i)] == DueRuns(s', g, i)
    {
      assert s.runs[(g, i)] == DueRuns(s, g, i);
    }
    assert Died(s', s.st.gen) == Died(s, s.st.gen);
  }

  lemma HistoryKeepsLook(s: Sys, i: nat)
    requires Inv(s) && History(s) && i < |s.ws| && s.ws[i].Looking?
    ensures History(NextLook(s, i))
  {
    var s' := NextLook(s, i);
    var p := PickSt(s.st, i, s.ws[i].seen);
    if i < s.st.want && s.ws[i].seen != s.st.gen {
      OneUnfinished(s.ws, s.st.gen, s.st.want, i);
    }
    assert Lent(s') == Lent(s);
    forall c | 0 <= c < |s'.cs| && (s'.cs[c].Leaving? || s'.cs[c].Returned?)
      ensures AnswerRight(s', s'.cs[c])
    {
      assert AnswerRight(s, s.cs[c]);
      assert Died(s', s.cs[c].g) == Died(s, s.cs[c].g);
    }
    if p.Take? {
      forall g: nat, k: nat
        ensures s'.runs[(g, k)] == DueRuns(s', g, k)
      {
        assert s.runs[(g, k)] == DueRuns(s, g, k);
      }
      assert Died(s', s.st.gen) == Died(s, s.st.gen);
    } else {
      HistoryKeepsStill(s, s');
    }
  }

  lemma HistoryKeepsFinish(s: Sys, i: nat, bad: bool)
    requires Inv(s) && History(s) && i < |s.ws| && s.ws[i].Running? && s.st.left > 0
    ensures History(NextFinish(s, i, bad))
  {
    var s' := NextFinish(s, i, bad);
    assert WorkerRight(s, i);
    forall g: nat, k: nat
      ensures s'.runs[(g, k)] == DueRuns(s', g, k)
    {
      assert s.runs[(g, k)] == DueRuns(s, g, k);
    }
    if bad {
      assert (s.st.gen, i) in s'.died;
    }
    forall g: nat | g < s.st.gen || !bad
      ensures Died(s', g) == Died(s, g)
    {
      if k :| (g, k) in s.died {
        assert (g, k) in s'.died;
      }
    }
    forall c | 0 <= c < |s'.cs| && (s'.cs[c].Leaving? || s'.cs[c].Returned?)
      ensures AnswerRight(s', s'.cs[c])
    {
      assert s'.cs[c] == s.cs[c] && AnswerRight(s, s.cs[c]);
    }
  }

  lemma HistoryKeepsDispatch(s: Sys, c: nat)
    requires Inv(s) && History(s) && c < |s.cs| && s.cs[c].Holding?
    ensures History(NextDispatch(s, c))
  {
    var s' := NextDispatch(s, c);
    assert InSection(s.cs[c]);
    BornAmongSpawned(s.ws, s.spawned, |s.ws|);
    CountdownOver(s);
    forall g: nat, k: nat
      ensures s'.runs[(g, k)] == DueRuns(s', g, k)
    {
      assert s.runs[(g, k)] == DueRuns(s, g, k);
      if k < |s.ws| {
        assert WorkerRight(s, k);
      }
    }
    forall x | 0 <= x < |s'.cs| && (s'.cs[x].Leaving? || s'.cs[x].Returned?)
      ensures AnswerRight(s', s'.cs[x])
    {
      assert s'.cs[x] == s.cs[x] && AnswerRight(s, s.cs[x]);
      assert Died(s', s.cs[x].g) == Died(s, s.cs[x].g);
    }
  }

  lemma SameDeaths(s: Sys, s': Sys)
    requires s'.died == s.died
    ensures forall g: nat :: Died(s', g) == Died(s, g)
  {
    forall g: nat
      ensures Died(s', g) == Died(s, g)
    {
      if i :| (g, i) in s.died {
        assert (g, i) in s'.died;
      }
      if i :| (g, i) in s'.died {
        assert (g, i) in s.died;
      }
    }
  }

  lemma HistoryKeepsCollect(s: Sys, c: nat)
    requires Inv(s) && History(s) && c < |s.cs| && s.cs[c].Waiting?
    ensures History(NextCollect(s, c))
  {
    var s' := NextCollect(s, c);
    assert InSection(s.cs[c]);
    SameDeaths(s, s');
    forall x | 0 <= x < |s'.cs| && (s'.cs[x].Leaving? || s'.cs[x].Returned?)
      ensures AnswerRight(s', s'.cs[x])
    {
      if x != c {
        assert AnswerRight(s, s.cs[x]);
      }
    }
    HistoryKeepsStill(s, s');
  }

  lemma HistoryKeepsCaller(s: Sys, l: Label)
    requires Inv(s) && History(s) && Enabled(s, l)
    requires l.Call? || l.Check? || l.TryLock? || l.MeDone? || l.Unlock? || l.CallerWakesSpuriously?
    ensures History(Next(s, l))
  {
    var s' := Next(s, l);
    assert InSection(s.cs[l.c]) <==> s.busy == Some(l.c);
    SameDeaths(s, s');
    forall x | 0 <= x < |s'.cs| && (s'.cs[x].Leaving? || s'.cs[x].Returned?)
      ensures AnswerRight(s', s'.cs[x])
    {
      assert AnswerRight(s, s.cs[x]);
    }
    HistoryKeepsStill(s, s');
  }

  lemma HistoryKeepsBirth(s: Sys, l: Label)
    requires Inv(s) && History(s) && Enabled(s, l)
    requires l.Spawn? || l.Begin? || l.WakeSpuriously?
    ensures History(Next(s, l))
  {
    var s' := Next(s, l);
    assert Lent(s') == Lent(s);
    forall x | 0 <= x < |s'.cs| && (s'.cs[x].Leaving? || s'.cs[x].Returned?)
      ensures AnswerRight(s', s'.cs[x])
    {
      assert AnswerRight(s, s.cs[x]);
      assert Died(s', s.cs[x].g) == Died(s, s.cs[x].g);
    }
    HistoryKeepsStill(s, s');
  }

  lemma HistoryKept(s: Sys, l: Label)
    requires Inv(s) && History(s) && Enabled(s, l)
    ensures History(Next(s, l))
  {
    match l {
      case Look(i) => HistoryKeepsLook(s, i);
      case Finish(i, bad) => HistoryKeepsFinish(s, i, bad);
      case Dispatch(c) => HistoryKeepsDispatch(s, c);
      case Collect(c) => HistoryKeepsCollect(s, c);
      case Spawn => HistoryKeepsBirth(s, l);
      case Begin(_) => HistoryKeepsBirth(s, l);
      case WakeSpuriously(_) => HistoryKeepsBirth(s, l);
      case _ => HistoryKeepsCaller(s, l);
    }
  }

  lemma {:induction false} RunInv(workers: nat, callers: nat, ls: seq<Label>, ss: seq<Sys>, j: nat)
    requires IsRun(workers, callers, ls, ss) && j < |ss|
    ensures Inv(ss[j]) && History(ss[j])
  {
    if j == 0 {
      StartInv(workers, callers);
    } else {
      RunInv(workers, callers, ls, ss, j - 1);
      InvKept(ss[j - 1], ls[j - 1]);
      HistoryKept(ss[j - 1], ls[j - 1]);
    }
  }

  lemma ReachableInv(workers: nat, callers: nat, s: Sys)
    requires Reachable(workers, callers, s)
    ensures Inv(s) && History(s)
  {
    var ls, ss :| IsRun(workers, callers, ls, ss) && ss[|ls|] == s;
    RunInv(workers, callers, ls, ss, |ls|);
  }

  // ---- main results ----

  /**
   A worker runs a job only while the one caller that lent it is still between
   its dispatch and its collection, so the borrow never outlives the lender.
   */
  lemma JobOutlivesItsRuns(workers: nat, callers: nat, s: Sys, i: nat)
    requires Reachable(workers, callers, s)
    requires i < |s.ws| && s.ws[i].Running?
    ensures s.busy.Some? && s.busy.value < |s.cs|
    ensures var c := s.cs[s.busy.value];
            InFlight(c) && c.f == s.ws[i].job && c.g == s.ws[i].seen
    ensures forall c | 0 <= c < |s.cs| && c != s.busy.value :: !InSection(s.cs[c])
  {
    ReachableInv(workers, callers, s);
    assert WorkerRight(s, i);
  }

  /** The countdown is the number of wanted workers still to finish, and can never go below zero. */
  lemma CountdownExact(workers: nat, callers: nat, s: Sys)
    requires Reachable(workers, callers, s)
    ensures s.st.want <= |s.ws| && s.st.left == Unfinished(s.ws, s.st.gen, s.st.want)
    ensures forall i | 0 <= i < |s.ws| && s.ws[i].Running? :: s.st.left > 0
  {
    ReachableInv(workers, callers, s);
    if s.st.left == 0 {
      CountdownOver(s);
    }
  }

  /** When `run` answers: each of the n workers asked for ran the job once, nobody else did, and a panic is reported. */
  lemma EachWantedWorkerRanOnce(workers: nat, callers: nat, s: Sys, c: nat)
    requires Reachable(workers, callers, s)
    requires c < |s.cs| && (s.cs[c].Leaving? || s.cs[c].Returned?)
    ensures var g := s.cs[c].g;
            && (forall i: nat :: s.runs[(g, i)] == if i < s.cs[c].n then 1 else 0)
            && (s.cs[c].bad <==> Died(s, g))
            && (forall i | 0 <= i < |s.ws| :: s.ws[i].Running? ==> s.ws[i].seen != g)
  {
    ReachableInv(workers, callers, s);
    var g := s.cs[c].g;
    assert AnswerRight(s, s.cs[c]);
    forall i: nat
      ensures s.runs[(g, i)] == if i < s.cs[c].n then 1 else 0
    {
      assert s.runs[(g, i)] == DueRuns(s, g, i);
      if g == s.st.gen {
        CountdownOver(s);
      }
    }
    forall i | 0 <= i < |s.ws| && s.ws[i].Running?
      ensures s.ws[i].seen != g
    {
      assert WorkerRight(s, i);
    }
  }

  /** Seeing `ready >= n` is enough: workers 0..n-1 have been spawned, in whatever order they started. */
  lemma ReadyMeansSpawned(workers: nat, callers: nat, s: Sys, n: nat)
    requires Reachable(workers, callers, s) && s.ready >= n
    ensures s.spawned >= n
  {
    ReachableInv(workers, callers, s);
    BornAmongSpawned(s.ws, s.spawned, |s.ws|);
  }

  // ---- a call from its start to its answer ----

  /** Caller `c` makes no new call in steps [i, j). */
  ghost predicate SameCall(ls: seq<Label>, c: nat, i: nat, j: nat)
    requires i <= j <= |ls|
  {
    forall m | i <= m < j :: !(ls[m].Call? && ls[m].c == c)
  }

  /** The job and the number of workers a caller is busy with, and its own end once it has one. */
  predicate Busy(x: Caller, f: nat, n: nat) {
    match x
    case Asking(f', n') => f' == f && n' == n
    case Trying(f', n') => f' == f && n' == n
    case Holding(f', n') => f' == f && n' == n
    case Lending(f', n', _) => f' == f && n' == n
    case Waiting(f', n', _, _) => f' == f && n' == n
    case Sleeping(f', n', _, _) => f' == f && n' == n
    case Leaving(n', _, _, _) => n' == n
    case Returned(n', _, _, _) => n' == n
    case Alone(f') => f' == f
    case Idle => false
  }

  predicate Ended(x: Caller, u: bool) {
    match x
    case Waiting(_, _, _, v) => v == u
    case Sleeping(_, _, _, v) => v == u
    case Leaving(_, _, v, _) => v == u
    case Returned(_, _, v, _) => v == u
    case _ => false
  }

  /** What a caller asked for is what its call is about until it ends. */
  lemma {:induction false} CallKeepsItsJob(
    workers: nat, callers: nat, ls: seq<Label>, ss: seq<Sys>, c: nat, f: nat, n: nat, i: nat, j: nat)
    requires IsRun(workers, callers, ls, ss) && i < j <= |ls| && ls[i] == Call(c, f, n) && SameCall(ls, c, i + 1, j)
    ensures c < |ss[j].cs| && Busy(ss[j].cs[c], f, n)
  {
    if i + 1 < j {
      CallKeepsItsJob(workers, callers, ls, ss, c, f, n, i, j - 1);
      JobStays(ss[j - 1], ls[j - 1], c, f, n);
    }
  }

  lemma JobStays(s: Sys, l: Label, c: nat, f: nat, n: nat)
    requires Enabled(s, l) && c < |s.cs| && Busy(s.cs[c], f, n) && !(l.Call? && l.c == c)
    ensures |Next(s, l).cs| == |s.cs| && Busy(Next(s, l).cs[c], f, n)
  {}

  /** Whether a caller's own closure unwound is what its answer says, whatever the workers do meanwhile. */
  lemma {:induction false} UnwindReachesAnswer(
    workers: nat, callers: nat, ls: seq<Label>, ss: seq<Sys>, c: nat, u: bool, i: nat, j: nat)
    requires IsRun(workers, callers, ls, ss) && i < j <= |ls| && ls[i] == MeDone(c, u) && SameCall(ls, c, i + 1, j)
    ensures c < |ss[j].cs| && Ended(ss[j].cs[c], u)
  {
    if i + 1 < j {
      UnwindReachesAnswer(workers, callers, ls, ss, c, u, i, j - 1);
      EndStays(ss[j - 1], ls[j - 1], c, u);
    }
  }

  lemma EndStays(s: Sys, l: Label, c: nat, u: bool)
    requires Enabled(s, l) && c < |s.cs| && Ended(s.cs[c], u) && !(l.Call? && l.c == c)
    ensures |Next(s, l).cs| == |s.cs| && Ended(Next(s, l).cs[c], u)
  {}

  /** A call that finds its workers up and nobody inside an unpoisoned pool lends them its job. */
  lemma FreePoolIsUsed(s: Sys, c: nat)
    requires Inv(s) && c < |s.cs| && s.cs[c].Asking? && s.ready >= s.cs[c].n && s.busy.None? && !s.poisoned
    ensures Enabled(s, Check(c)) && Enabled(Next(s, Check(c)), TryLock(c))
    ensures var s' := Next(Next(s, Check(c)), TryLock(c));
            && Enabled(s', Dispatch(c))
            && var t := Next(s', Dispatch(c));
               && t.cs[c] == Lending(s.cs[c].f, s.cs[c].n, s.st.gen + 1)
               && t.st.job == Some(s.cs[c].f) && t.st.want == s.cs[c].n && t.st.gen == s.st.gen + 1
               && forall i | 0 <= i < |t.ws| :: !t.ws[i].Parked?
  {
    BornAmongSpawned(s.ws, s.spawned, |s.ws|);
  }

  lemma {:induction false} PoisonStays(workers: nat, callers: nat, ls: seq<Label>, ss: seq<Sys>, i: nat, j: nat)
    requires IsRun(workers, callers, ls, ss) && i <= j < |ss| && ss[i].poisoned
    ensures ss[j].poisoned
  {
    if i < j {
      PoisonStays(workers, callers, ls, ss, i, j - 1);
    }
  }

  /**
   Once a lender's own closure has unwound and it has left, nobody dispatches again:
   every later call runs on threads of its own.
   */
  lemma UnwindingEndsThePool(
    workers: nat, callers: nat, ls: seq<Label>, ss: seq<Sys>, c: nat, i: nat, m: nat, j: nat)
    requires IsRun(workers, callers, ls, ss) && i < m < j < |ls|
    requires ls[i] == MeDone(c, true) && ls[m] == Unlock(c) && SameCall(ls, c, i + 1, m)
    ensures !ls[j].Dispatch? && (ls[j].TryLock? ==> ss[j + 1].cs[ls[j].c].Alone?)
  {
    UnwindReachesAnswer(workers, callers, ls, ss, c, true, i, m);
    PoisonStays(workers, callers, ls, ss, m + 1, j);
    RunInv(workers, callers, ls, ss, j);
    assert ls[j].Dispatch? ==> InSection(ss[j].cs[ls[j].c]);
  }
}
