/**
 `decode`: several threads run the tasks of a read window over one set of shared
 vectors, with no lock around the cells they write.

 A task is its sequential behaviour: the cells it owns, those of them it owes a
 value (a column given up as codes is owed none), the value it leaves in each, and
 how it ends.  A running task writes its own cells one at a time, in any order, as
 often as it likes and with anything in between; it ends well only when what it
 wrote last in the cells it owes is what it should leave.  Thread 0 is the caller's
 own.
 */
module Decode {
  import opened Claims
  import opened Common

  /** A cell of the result: (result column, result row). */
  type Cell = (nat, nat)

  datatype End = Good | Bad(e: string) | Panics

  datatype Job<!V> = Job(
    n: nat, cells: nat -> set<Cell>, owes: nat -> set<Cell>, value: nat -> Cell -> V, end: nat -> End)

  datatype Thread<V> =
    | Polling
    | Claiming
    | Working(i: nat, mine: map<Cell, V>)
    | Raising(i: nat, e: string)
    | Done
    | Quit(i: nat)
    | Dead(i: nat)

  datatype Sys<V> = Sys(next: nat, stop: bool, err: Option<string>, table: map<Cell, V>, ts: seq<Thread<V>>)

  datatype Label<V> =
    | Poll(t: nat)
    | Claim(t: nat)
    | Write(t: nat, cell: Cell, v: V)
    | Complete(t: nat)
    | Raise(t: nat)

  function Start<V>(threads: nat, table: map<Cell, V>): Sys<V> {
    Sys(0, false, None, table, seq(threads, t => Polling))
  }

  /** No two tasks own one cell, and each owes only cells of its own. */
  ghost predicate Disjoint<V>(k: Job<V>) {
    && (forall i, j | 0 <= i < j < k.n :: k.cells(i) !! k.cells(j))
    && (forall i | 0 <= i < k.n :: k.owes(i) <= k.cells(i))
  }

  /** What task `i` leaves behind. */
  ghost function Leaves<V>(k: Job<V>, i: nat): map<Cell, V> {
    map c | c in k.owes(i) :: k.value(i)(c)
  }

  ghost predicate Enabled<V>(k: Job<V>, s: Sys<V>, l: Label<V>) {
    && l.t < |s.ts|
    && match l
       case Poll(t) => s.ts[t].Polling?
       case Claim(t) => s.ts[t].Claiming?
       case Write(t, cell, _) => s.ts[t].Working? && cell in k.cells(s.ts[t].i)
       case Complete(t) => s.ts[t].Working? && (k.end(s.ts[t].i).Good? ==> Agree(Leaves(k, s.ts[t].i), s.ts[t].mine))
       case Raise(t) => s.ts[t].Raising?
  }

  ghost function Next<V>(k: Job<V>, s: Sys<V>, l: Label<V>): Sys<V>
    requires Enabled(k, s, l)
  {
    match l
    case Poll(t) => s.(ts := s.ts[t := if s.stop then Done else Claiming])
    case Claim(t) =>
      s.(next := s.next + 1, ts := s.ts[t := if s.next >= k.n then Done else Working(s.next, map[])])
    case Write(t, cell, v) =>
      s.(table := s.table[cell := v], ts := s.ts[t := s.ts[t].(mine := s.ts[t].mine[cell := v])])
    case Complete(t) =>
      var i := s.ts[t].i;
      (match k.end(i)
       case Good => s.(ts := s.ts[t := Polling])
       case Bad(e) => s.(stop := true, ts := s.ts[t := Raising(i, e)])
       case Panics => s.(ts := s.ts[t := Dead(i)]))
    case Raise(t) =>
      s.(err := if s.err.Some? then s.err else Some(s.ts[t].e), ts := s.ts[t := Quit(s.ts[t].i)])
  }

  ghost predicate IsRun<V(!new)>(k: Job<V>, threads: nat, table: map<Cell, V>, ls: seq<Label<V>>, ss: seq<Sys<V>>) {
    && |ss| == |ls| + 1
    && ss[0] == Start(threads, table)
    && forall j | 0 <= j < |ls| :: Enabled(k, ss[j], ls[j]) && ss[j + 1] == Next(k, ss[j], ls[j])
  }

  ghost predicate Finished<V>(s: Sys<V>) {
    forall t | 0 <= t < |s.ts| :: s.ts[t].Done? || s.ts[t].Quit? || s.ts[t].Dead?
  }

  datatype Answer = Fine | Fails(e: string) | Unwound

  /** The caller's own unwind is raised again; then a recorded error; then a dead worker. */
  ghost function Answered<V>(s: Sys<V>): Answer
    requires |s.ts| > 0
  {
    if s.ts[0].Dead? then Unwound
    else if s.err.Some? then Fails(s.err.value)
    else if exists t :: 0 <= t < |s.ts| && s.ts[t].Dead? then Fails("worker panic")
    else Fine
  }

  // ---- the invariant ----

  function Held<V>(t: Thread<V>): Option<nat> {
    if t.Working? || t.Raising? || t.Quit? || t.Dead? then Some(t.i) else None
  }

  function Helds<V>(ts: seq<Thread<V>>): seq<Option<nat>> {
    seq(|ts|, t requires 0 <= t < |ts| => Held(ts[t]))
  }

  ghost predicate ThreadRight<V>(k: Job<V>, s: Sys<V>, t: Thread<V>) {
    match t
    case Working(i, mine) => mine.Keys <= k.cells(i) && Agree(mine, s.table)
    case Raising(i, e) => s.stop && k.end(i) == Bad(e)
    case Quit(i) => s.err.Some? && k.end(i).Bad?
    case Dead(i) => k.end(i).Panics?
    case Done => s.stop || s.next >= k.n
    case _ => true
  }

  /** What a task wrote is what the shared table shows. */
  ghost predicate Agree<V>(mine: map<Cell, V>, table: map<Cell, V>) {
    forall c | c in mine :: c in table && table[c] == mine[c]
  }

  ghost predicate Inv<V>(k: Job<V>, s: Sys<V>, done: set<nat>) {
    && Covered(0, Min(s.next, k.n), done, Helds(s.ts))
    && (forall t | 0 <= t < |s.ts| :: ThreadRight(k, s, s.ts[t]))
    && (forall i | i in done :: k.end(i).Good? && Agree(Leaves(k, i), s.table))
    && (s.stop ==> exists t :: 0 <= t < |s.ts| && (s.ts[t].Raising? || s.ts[t].Quit?))
    && (s.err.Some? ==> exists t :: 0 <= t < |s.ts| && s.ts[t].Quit?)
  }

  /** A recorded error is the message of a task that ends with it. */
  ghost predicate ErrorOfTask<V>(k: Job<V>, s: Sys<V>) {
    s.err.Some? ==> exists i :: 0 <= i < k.n && k.end(i) == Bad(s.err.value)
  }

  /** Tasks that have ended well after step `l`. */
  ghost function DoneAfter<V>(k: Job<V>, s: Sys<V>, l: Label<V>, done: set<nat>): set<nat>
    requires Enabled(k, s, l)
  {
    if l.Complete? && k.end(s.ts[l.t].i).Good? then done + {s.ts[l.t].i} else done
  }

  lemma KeepWrite<V>(k: Job<V>, s: Sys<V>, l: Label<V>, done: set<nat>)
    requires Disjoint(k) && Inv(k, s, done) && Enabled(k, s, l) && l.Write?
    ensures Inv(k, Next(k, s, l), done)
  {
    var s' := Next(k, s, l);
    var hs := Helds(s.ts);
    assert Helds(s'.ts) == hs;
    var i := s.ts[l.t].i;
    assert hs[l.t] == Some(i);
    forall t | 0 <= t < |s'.ts|
      ensures ThreadRight(k, s', s'.ts[t])
    {
      assert ThreadRight(k, s, s.ts[t]) && hs[t] == Held(s.ts[t]);
      if t != l.t && s.ts[t].Working? {
        assert k.cells(i) !! k.cells(s.ts[t].i);
      }
    }
    forall j | j in done
      ensures Agree(Leaves(k, j), s'.table)
    {
      assert k.cells(i) !! k.cells(j);
    }
    StillStopped(s, s');
    KeepQuit(s, s');
  }

  lemma KeepQuit<V>(s: Sys<V>, s': Sys<V>)
    requires s.err.Some? ==> exists t :: 0 <= t < |s.ts| && s.ts[t].Quit?
    requires |s'.ts| == |s.ts| && forall t | 0 <= t < |s.ts| && s.ts[t].Quit? :: s'.ts[t].Quit?
    ensures s.err.Some? ==> exists t :: 0 <= t < |s'.ts| && s'.ts[t].Quit?
  {}

  lemma KeepFlow<V>(k: Job<V>, s: Sys<V>, l: Label<V>, done: set<nat>)
    requires Inv(k, s, done) && Enabled(k, s, l)
    requires l.Poll? || l.Claim? || l.Raise?
    ensures Inv(k, Next(k, s, l), done)
  {
    var s' := Next(k, s, l);
    var hs := Helds(s.ts);
    assert Helds(s'.ts) == hs[l.t := Held(s'.ts[l.t])];
    if l.Claim? && s.next < k.n {
      ClaimCovers(0, s.next, done, hs, l.t);
    } else {
      assert hs[l.t := Held(s'.ts[l.t])] == hs;
    }
    assert ThreadRight(k, s, s.ts[l.t]);
    forall t | 0 <= t < |s'.ts|
      ensures ThreadRight(k, s', s'.ts[t])
    {
      assert ThreadRight(k, s, s.ts[t]);
    }
    StillStopped(s, s');
    KeepQuit(s, s');
    if l.Raise? {
      assert s'.ts[l.t].Quit?;
    }
  }

  /** A task that ended well has left what it owes. */
  lemma KeepGood<V>(k: Job<V>, s: Sys<V>, l: Label<V>, done: set<nat>)
    requires Inv(k, s, done) && Enabled(k, s, l) && l.Complete? && k.end(s.ts[l.t].i).Good?
    ensures Inv(k, Next(k, s, l), done + {s.ts[l.t].i})
  {
    var s' := Next(k, s, l);
    assert Helds(s'.ts) == Helds(s.ts)[l.t := None];
    SettleCovers(0, Min(s.next, k.n), done, Helds(s.ts), l.t);
    assert ThreadRight(k, s, s.ts[l.t]);
    StillStopped(s, s');
    KeepQuit(s, s');
  }

  lemma StillStopped<V>(s: Sys<V>, s': Sys<V>)
    requires s.stop ==> exists t :: 0 <= t < |s.ts| && (s.ts[t].Raising? || s.ts[t].Quit?)
    requires |s'.ts| == |s.ts|
    requires forall t | 0 <= t < |s.ts| && (s.ts[t].Raising? || s.ts[t].Quit?) :: s'.ts[t].Raising? || s'.ts[t].Quit?
    ensures s.stop ==> exists t :: 0 <= t < |s'.ts| && (s'.ts[t].Raising? || s'.ts[t].Quit?)
  {}

  lemma KeepComplete<V>(k: Job<V>, s: Sys<V>, l: Label<V>, done: set<nat>)
    requires Inv(k, s, done) && Enabled(k, s, l) && l.Complete?
    ensures Inv(k, Next(k, s, l), DoneAfter(k, s, l, done))
  {
    if k.end(s.ts[l.t].i).Good? {
      KeepGood(k, s, l, done);
    } else {
      KeepFailed(k, s, l, done);
    }
  }

  lemma KeepFailed<V>(k: Job<V>, s: Sys<V>, l: Label<V>, done: set<nat>)
    requires Inv(k, s, done) && Enabled(k, s, l) && l.Complete? && !k.end(s.ts[l.t].i).Good?
    ensures Inv(k, Next(k, s, l), done)
  {
    var s' := Next(k, s, l);
    var hs := Helds(s.ts);
    assert Helds(s'.ts) == hs[l.t := Held(s'.ts[l.t])] == hs;
    forall t | 0 <= t < |s'.ts|
      ensures ThreadRight(k, s', s'.ts[t])
    {
      assert ThreadRight(k, s, s.ts[t]);
    }
    StillStopped(s, s');
    if s'.stop && !s.stop {
      assert s'.ts[l.t].Raising?;
    }
    KeepQuit(s, s');
  }

  lemma InvKept<V>(k: Job<V>, s: Sys<V>, l: Label<V>, done: set<nat>)
    requires Disjoint(k) && Inv(k, s, done) && Enabled(k, s, l)
    ensures Inv(k, Next(k, s, l), DoneAfter(k, s, l, done))
  {
    if l.Write? {
      KeepWrite(k, s, l, done);
    } else if l.Complete? {
      KeepComplete(k, s, l, done);
    } else {
      KeepFlow(k, s, l, done);
    }
  }

  lemma {:induction false} RunInv<V(!new)>(
    k: Job<V>, threads: nat, table: map<Cell, V>, ls: seq<Label<V>>, ss: seq<Sys<V>>, j: nat) returns (done: set<nat>)
    requires Disjoint(k) && IsRun(k, threads, table, ls, ss) && j < |ss|
    ensures Inv(k, ss[j], done) && |ss[j].ts| == threads
  {
    if j == 0 {
      done := {};
    } else {
      var before := RunInv(k, threads, table, ls, ss, j - 1);
      InvKept(k, ss[j - 1], ls[j - 1], before);
      done := DoneAfter(k, ss[j - 1], ls[j - 1], before);
    }
  }

  lemma ErrorOfTaskKept<V>(k: Job<V>, s: Sys<V>, l: Label<V>, done: set<nat>)
    requires Inv(k, s, done) && ErrorOfTask(k, s) && Enabled(k, s, l)
    ensures ErrorOfTask(k, Next(k, s, l))
  {
    if l.Raise? {
      assert ThreadRight(k, s, s.ts[l.t]) && Helds(s.ts)[l.t] == Some(s.ts[l.t].i);
    }
  }

  lemma {:induction false} RunError<V(!new)>(
    k: Job<V>, threads: nat, table: map<Cell, V>, ls: seq<Label<V>>, ss: seq<Sys<V>>, j: nat)
    requires Disjoint(k) && IsRun(k, threads, table, ls, ss) && j < |ss|
    ensures ErrorOfTask(k, ss[j])
  {
    if j > 0 {
      RunError(k, threads, table, ls, ss, j - 1);
      var done := RunInv(k, threads, table, ls, ss, j - 1);
      ErrorOfTaskKept(k, ss[j - 1], ls[j - 1], done);
    }
  }

  // ---- main results ----

  /** The table after the first `n` tasks, run one after another. */
  ghost function Sequential<V>(k: Job<V>, table: map<Cell, V>, n: nat): map<Cell, V> {
    if n == 0 then table else Sequential(k, table, n - 1) + Leaves(k, n - 1)
  }

  lemma {:induction false} SequentialKeeps<V>(k: Job<V>, table: map<Cell, V>, n: nat, i: nat, c: Cell)
    requires Disjoint(k) && i < n <= k.n && c in k.owes(i)
    ensures c in Sequential(k, table, n) && Sequential(k, table, n)[c] == k.value(i)(c)
  {
    if i < n - 1 {
      assert k.cells(i) !! k.cells(n - 1);
      SequentialKeeps(k, table, n - 1, i, c);
    }
  }

  /** In every interleaving, `decode` answers Ok exactly when every task ends well. */
  lemma OkMeansEveryTask<V(!new)>(
    k: Job<V>, threads: nat, table: map<Cell, V>, ls: seq<Label<V>>, ss: seq<Sys<V>>)
    requires threads > 0 && Disjoint(k) && IsRun(k, threads, table, ls, ss) && Finished(ss[|ls|])
    ensures |ss[|ls|].ts| == threads
    ensures Answered(ss[|ls|]).Fine? <==> forall i | 0 <= i < k.n :: k.end(i).Good?
  {
    var done := RunInv(k, threads, table, ls, ss, |ls|);
    AnswerExact(k, ss[|ls|], done);
  }

  lemma AnswerExact<V>(k: Job<V>, s: Sys<V>, done: set<nat>)
    requires |s.ts| > 0 && Inv(k, s, done) && Finished(s)
    ensures Answered(s).Fine? <==> forall i | 0 <= i < k.n :: k.end(i).Good?
    ensures Answered(s).Fine? ==> forall i | 0 <= i < k.n :: i in done
  {
    var hs := Helds(s.ts);
    assert forall t | 0 <= t < |s.ts| :: hs[t] == Held(s.ts[t]) && ThreadRight(k, s, s.ts[t]);
    if Answered(s).Fine? {
      assert forall t | 0 <= t < |s.ts| :: s.ts[t].Done?;
      assert !s.stop;
      assert ThreadRight(k, s, s.ts[0]);
      forall i | 0 <= i < k.n
        ensures i in done
      {
        assert Some(i) !in hs;
      }
    } else if forall i | 0 <= i < k.n :: k.end(i).Good? {
      forall t | 0 <= t < |s.ts|
        ensures s.ts[t].Done?
      {
        assert hs[t].Some? ==> hs[t].value < k.n;
      }
    }
  }

  /**
   An error answered is one of a task that failed, and where none is recorded a worker
   panicked; the caller's own panic is raised again, and outranks both.
   */
  lemma ErrorIsATasks<V(!new)>(
    k: Job<V>, threads: nat, table: map<Cell, V>, ls: seq<Label<V>>, ss: seq<Sys<V>>)
    requires threads > 0 && Disjoint(k) && IsRun(k, threads, table, ls, ss) && Finished(ss[|ls|])
    ensures |ss[|ls|].ts| == threads
    ensures var s, r := ss[|ls|], Answered(ss[|ls|]);
            && (r.Unwound? <==> s.ts[0].Dead?)
            && (r.Fails? ==> (exists i :: 0 <= i < k.n && k.end(i) == Bad(r.e))
                             || (r.e == "worker panic" && exists i :: 0 <= i < k.n && k.end(i).Panics?))
            && (s.err.Some? ==> r == Fails(s.err.value) || r.Unwound?)
  {
    var s := ss[|ls|];
    var done := RunInv(k, threads, table, ls, ss, |ls|);
    RunError(k, threads, table, ls, ss, |ls|);
    if s.err.None? && exists t :: 0 <= t < |s.ts| && s.ts[t].Dead? {
      var t :| 0 <= t < |s.ts| && s.ts[t].Dead?;
      assert ThreadRight(k, s, s.ts[t]) && Helds(s.ts)[t] == Some(s.ts[t].i);
    }
  }

  /** The first error recorded is the one that stays. */
  lemma {:induction false} FirstErrorStays<V(!new)>(
    k: Job<V>, threads: nat, table: map<Cell, V>, ls: seq<Label<V>>, ss: seq<Sys<V>>, i: nat, j: nat)
    requires IsRun(k, threads, table, ls, ss) && i <= j < |ss| && ss[i].err.Some?
    ensures ss[j].err == ss[i].err
  {
    if i < j {
      FirstErrorStays(k, threads, table, ls, ss, i, j - 1);
    }
  }

  /** After a failure no thread starts another task, but for one that was claiming already. */
  lemma {:induction false} StopEndsClaims<V(!new)>(
    k: Job<V>, threads: nat, table: map<Cell, V>, ls: seq<Label<V>>, ss: seq<Sys<V>>, i: nat, j: nat, t: nat)
    requires IsRun(k, threads, table, ls, ss) && i <= j < |ss| && t < |ss[i].ts|
    requires ss[i].stop && !ss[i].ts[t].Claiming?
    ensures ss[j].stop && t < |ss[j].ts| && !ss[j].ts[t].Claiming?
    ensures ss[j].ts[t].Working? ==> ss[i].ts[t].Working? && ss[j].ts[t].i == ss[i].ts[t].i
  {
    if i < j {
      StopEndsClaims(k, threads, table, ls, ss, i, j - 1, t);
    }
  }

  /** After Ok the shared vectors hold what running the tasks one after another would have left. */
  lemma OkMeansSequentialTable<V(!new)>(
    k: Job<V>, threads: nat, table: map<Cell, V>, ls: seq<Label<V>>, ss: seq<Sys<V>>, i: nat, c: Cell)
    requires threads > 0 && Disjoint(k) && IsRun(k, threads, table, ls, ss) && Finished(ss[|ls|])
    requires |ss[|ls|].ts| == threads && Answered(ss[|ls|]).Fine?
    requires i < k.n && c in k.owes(i)
    ensures c in ss[|ls|].table && c in Sequential(k, table, k.n)
    ensures ss[|ls|].table[c] == Sequential(k, table, k.n)[c] == k.value(i)(c)
  {
    var done := RunInv(k, threads, table, ls, ss, |ls|);
    AnswerExact(k, ss[|ls|], done);
    SequentialKeeps(k, table, k.n, i, c);
    assert i in done && c in Leaves(k, i);
  }
}
