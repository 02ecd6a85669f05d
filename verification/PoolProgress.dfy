/**
 Progress of the pool: a caller that waits is never forgotten, and `run` returns
 once the lent job returns on every wanted worker.
 */
module PoolProgress {
  import opened Common
  import opened PoolProtocol
  import opened PoolSafety

  function WorkerWork(w: Worker, gen: nat): nat {
    match w
    case Unborn => 5
    case Looking(seen) => if seen == gen then 1 else 4
    case Parked(_) => 0
    case Running(_, _) => 3
  }

  function CallerWork(c: Caller): nat {
    match c
    case Asking(_, _) => 12
    case Trying(_, _) => 11
    case Holding(_, _) => 10
    case Lending(_, _, _) => 4
    case Waiting(_, _, _, _) => 3
    case Sleeping(_, _, _, _) => 2
    case Leaving(_, _, _, _) => 1
    case _ => 0
  }

  function WorkersWork(ws: seq<Worker>, gen: nat): nat {
    if ws == [] then 0 else WorkerWork(ws[0], gen) + WorkersWork(ws[1..], gen)
  }

  function CallersWork(cs: seq<Caller>): nat {
    if cs == [] then 0 else CallerWork(cs[0]) + CallersWork(cs[1..])
  }

  ghost function Work(s: Sys): int {
    |s.ws| - s.spawned + WorkersWork(s.ws, s.st.gen) + CallersWork(s.cs)
  }

  lemma {:induction false} WorkersUpdate(ws: seq<Worker>, gen: nat, i: nat, x: Worker)
    requires i < |ws|
    ensures WorkersWork(ws[i := x], gen) == WorkersWork(ws, gen) - WorkerWork(ws[i], gen) + WorkerWork(x, gen)
  {
    if i == 0 {
      assert ws[i := x][1..] == ws[1..];
    } else {
      assert ws[i := x][1..] == ws[1..][i - 1 := x];
      WorkersUpdate(ws[1..], gen, i - 1, x);
    }
  }

  lemma {:induction false} CallersUpdate(cs: seq<Caller>, c: nat, x: Caller)
    requires c < |cs|
    ensures CallersWork(cs[c := x]) == CallersWork(cs) - CallerWork(cs[c]) + CallerWork(x)
  {
    if c == 0 {
      assert cs[c := x][1..] == cs[1..];
    } else {
      assert cs[c := x][1..] == cs[1..][c - 1 := x];
      CallersUpdate(cs[1..], c - 1, x);
    }
  }

  /** A step of a job already lent, or of a thread arriving or leaving: no new job, no spurious wake-up. */
  predicate Settling(l: Label) {
    !l.Call? && !l.Dispatch? && !l.WakeSpuriously? && !l.CallerWakesSpuriously?
  }

  /** Only the caller inside can be asleep, so waking all wakes one. */
  lemma WakesTheOneInside(s: Sys, b: nat)
    requires Exclusive(s) && s.busy == Some(b)
    ensures WakeCallers(s.cs) == s.cs[b := Roused(s.cs[b])]
    ensures CallersWork(WakeCallers(s.cs)) <= CallersWork(s.cs) + 1
  {
    assert forall c | 0 <= c < |s.cs| && c != b :: !InSection(s.cs[c]);
    CallersUpdate(s.cs, b, Roused(s.cs[b]));
  }

  lemma FinishSettles(s: Sys, i: nat, bad: bool)
    requires Inv(s) && i < |s.ws| && s.ws[i].Running? && s.st.left > 0
    ensures Work(NextFinish(s, i, bad)) < Work(s)
  {
    assert WorkerRight(s, i);
    WorkersUpdate(s.ws, s.st.gen, i, Looking(s.ws[i].seen));
    WakesTheOneInside(s, s.busy.value);
  }

  lemma LookSettles(s: Sys, i: nat)
    requires i < |s.ws| && s.ws[i].Looking?
    ensures Work(NextLook(s, i)) < Work(s)
  {
    WorkersUpdate(s.ws, s.st.gen, i, NextLook(s, i).ws[i]);
  }

  lemma CallerSettles(s: Sys, l: Label)
    requires Enabled(s, l)
    requires l.Check? || l.TryLock? || l.MeDone? || l.Collect? || l.Unlock?
    ensures Work(Next(s, l)) < Work(s)
  {
    CallersUpdate(s.cs, l.c, Next(s, l).cs[l.c]);
  }

  /** Between two dispatches only finitely many real steps fit. */
  lemma WorkFalls(s: Sys, l: Label)
    requires Inv(s) && Enabled(s, l) && Settling(l)
    ensures 0 <= Work(Next(s, l)) < Work(s)
  {
    InvKept(s, l);
    match l {
      case Spawn =>
      case Begin(i) => WorkersUpdate(s.ws, s.st.gen, i, Looking(0));
      case Look(i) => LookSettles(s, i);
      case Finish(i, bad) => FinishSettles(s, i, bad);
      case _ => CallerSettles(s, l);
    }
  }

  predicate Answering(c: Caller) {
    InFlight(c) || c.Leaving?
  }

  /** While a caller has a job out, some thread can take a settling step. */
  lemma NobodyForgotten(s: Sys, c: nat) returns (l: Label)
    requires Inv(s) && c < |s.cs| && Answering(s.cs[c])
    ensures Enabled(s, l) && Settling(l)
  {
    assert InSection(s.cs[c]);
    match s.cs[c] {
      case Lending(_, _, _) => l := MeDone(c, false);
      case Waiting(_, _, _, _) => l := Collect(c);
      case Leaving(_, _, _, _) => l := Unlock(c);
      case Sleeping(_, _, _, _) =>
        var i := FindUnfinished(s.ws, s.st.gen, s.st.want);
        BornAmongSpawned(s.ws, s.spawned, |s.ws|);
        assert WorkerRight(s, i);
        l := match s.ws[i]
          case Unborn => Begin(i)
          case Looking(_) => Look(i)
          case Running(_, _) => Finish(i, false);
    }
  }

  /** A caller with a job out goes on until it has its answer, and nobody else can dispatch meanwhile. */
  lemma StillAnswering(s: Sys, l: Label, c: nat)
    requires Inv(s) && c < |s.cs| && Answering(s.cs[c]) && Enabled(s, l)
    ensures |Next(s, l).cs| == |s.cs| && !l.Dispatch?
    ensures Answering(Next(s, l).cs[c]) || Next(s, l).cs[c].Returned?
  {
    OneInside(s, c, if l.Dispatch? then l.c else c);
  }

  lemma OneInside(s: Sys, c: nat, d: nat)
    requires Exclusive(s) && c < |s.cs| && d < |s.cs| && InSection(s.cs[c]) && InSection(s.cs[d])
    ensures c == d
  {}

  lemma RunGrows(workers: nat, callers: nat, ls: seq<Label>, ss: seq<Sys>, l: Label)
    requires IsRun(workers, callers, ls, ss) && Enabled(ss[|ls|], l)
    ensures IsRun(workers, callers, ls + [l], ss + [Next(ss[|ls|], l)])
  {}

  lemma OneMoreStep(workers: nat, callers: nat, ls: seq<Label>, ss: seq<Sys>, c: nat) returns (l: Label, s: Sys)
    requires IsRun(workers, callers, ls, ss) && c < |ss[|ls|].cs| && Answering(ss[|ls|].cs[c])
    ensures IsRun(workers, callers, ls + [l], ss + [s]) && Settling(l) && 0 <= Work(s) < Work(ss[|ls|])
    ensures c < |s.cs| && (Answering(s.cs[c]) || s.cs[c].Returned?)
  {
    var last := ss[|ls|];
    RunInv(workers, callers, ls, ss, |ls|);
    l := NobodyForgotten(last, c);
    WorkFalls(last, l);
    StillAnswering(last, l, c);
    RunGrows(workers, callers, ls, ss, l);
    s := Next(last, l);
  }

  /** `run` returns: once lent, a job is finished by every wanted worker and the caller is woken to see it. */
  lemma {:induction false} RunReturns(workers: nat, callers: nat, ls: seq<Label>, ss: seq<Sys>, c: nat)
    returns (more: seq<Label>, through: seq<Sys>)
    requires IsRun(workers, callers, ls, ss) && c < |ss[|ls|].cs|
    requires Answering(ss[|ls|].cs[c]) || ss[|ls|].cs[c].Returned?
    ensures IsRun(workers, callers, ls + more, ss + through)
    ensures |more| == |through| && forall j | 0 <= j < |more| :: Settling(more[j])
    ensures c < |(ss + through)[|ls| + |more|].cs| && (ss + through)[|ls| + |more|].cs[c].Returned?
    decreases Work(ss[|ls|])
  {
    var s := ss[|ls|];
    if s.cs[c].Returned? {
      more, through := [], [];
      assert ls + more == ls && ss + through == ss;
    } else {
      var l, s' := OneMoreStep(workers, callers, ls, ss, c);
      var more', through' := RunReturns(workers, callers, ls + [l], ss + [s'], c);
      more, through := [l] + more', [s'] + through';
      assert ls + more == ls + [l] + more' && ss + through == ss + [s'] + through';
    }
  }
}
