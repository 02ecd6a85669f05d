/**
 `par_map`: several threads take indices from one shared cursor and store each
 answer in its own slot.

 The transition system interleaves any number of threads, thread 0 being the
 caller's own; `Slots` is the shared memory as they update it in place, step for
 step the transition system's.
 */
module ParMap {
  import opened Claims
  import opened Common

  datatype Answer<+T> = Value(v: T) | Panics

  datatype Thread<+T> =
    | Claiming
    | Calling(i: nat)
    | Storing(i: nat, v: T)
    | Done
    | Dead(i: nat)

  datatype Outcome<+T> = Nothing | Everything(vs: seq<T>) | Unwound

  class Slots<T> {
    var next: nat
    var out: seq<Option<T>>

    constructor (n: nat)
      ensures next == 0 && out == seq(n, i => None)
    {
      next := 0;
      out := seq(n, i => None);
    }

    /** The shared part of the protocol's state `s`. */
    ghost predicate Shows(s: Sys<T>)
      reads this
    {
      next == s.next && out == s.out
    }

    /** `fetch_add` on the cursor, as thread `t` claims in state `s`: `x` is where it goes on. */
    method Claim(ghost f: nat -> Answer<T>, ghost s: Sys<T>, ghost t: nat) returns (x: Thread<T>)
      requires Shows(s) && Enabled(s, Label.Claim(t))
      modifies this`next
      ensures Shows(Next(f, s, Label.Claim(t))) && x == Next(f, s, Label.Claim(t)).ts[t]
    {
      var i := next;
      next := next + 1;
      x := if i >= |out| then Done else Calling(i);
    }

    /** The answer `v` of item `i` put into its slot. */
    method Store(i: nat, v: T, ghost f: nat -> Answer<T>, ghost s: Sys<T>, ghost t: nat) returns (x: Thread<T>)
      requires Shows(s) && Enabled(s, Label.Store(t)) && s.ts[t] == Storing(i, v)
      modifies this`out
      ensures Shows(Next(f, s, Label.Store(t))) && x == Next(f, s, Label.Store(t)).ts[t]
    {
      out := out[i := Some(v)];
      x := Claiming;
    }
  }

  datatype Sys<+T> = Sys(next: nat, out: seq<Option<T>>, ts: seq<Thread<T>>)

  datatype Label = Claim(t: nat) | Apply(t: nat) | Store(t: nat)

  function Start<T>(n: nat, threads: nat): Sys<T> {
    Sys(0, seq(n, i => None), seq(threads, t => Claiming))
  }

  ghost predicate Enabled<T>(s: Sys<T>, l: Label) {
    && l.t < |s.ts|
    && match l
       case Claim(t) => s.ts[t].Claiming?
       case Apply(t) => s.ts[t].Calling?
       case Store(t) => s.ts[t].Storing? && s.ts[t].i < |s.out|
  }

  ghost function Next<T>(f: nat -> Answer<T>, s: Sys<T>, l: Label): Sys<T>
    requires Enabled(s, l)
  {
    match l
    case Claim(t) =>
      s.(next := s.next + 1, ts := s.ts[t := if s.next < |s.out| then Calling(s.next) else Done])
    case Apply(t) =>
      var i := s.ts[t].i;
      s.(ts := s.ts[t := if f(i).Value? then Storing(i, f(i).v) else Dead(i)])
    case Store(t) =>
      s.(out := s.out[s.ts[t].i := Some(s.ts[t].v)], ts := s.ts[t := Claiming])
  }

  ghost predicate IsRun<T(!new)>(f: nat -> Answer<T>, n: nat, threads: nat, ls: seq<Label>, ss: seq<Sys<T>>) {
    && |ss| == |ls| + 1
    && ss[0] == Start(n, threads)
    && forall j | 0 <= j < |ls| :: Enabled(ss[j], ls[j]) && ss[j + 1] == Next(f, ss[j], ls[j])
  }

  ghost predicate Finished<T>(s: Sys<T>) {
    forall t | 0 <= t < |s.ts| :: s.ts[t].Done? || s.ts[t].Dead?
  }

  /** The caller's own unwind is raised again; a dead worker means None; else the slots in order. */
  ghost function Collected<T>(s: Sys<T>): Outcome<T>
    requires |s.ts| > 0
  {
    if s.ts[0].Dead? then Unwound
    else if exists t :: 0 <= t < |s.ts| && s.ts[t].Dead? then Nothing
    else if exists i :: 0 <= i < |s.out| && s.out[i].None? then Nothing
    else Everything(seq(|s.out|, i requires 0 <= i < |s.out| => s.out[i].value))
  }

  // ---- the invariant ----

  function Held<T>(t: Thread<T>): Option<nat> {
    if t.Calling? || t.Storing? || t.Dead? then Some(t.i) else None
  }

  function Helds<T>(ts: seq<Thread<T>>): seq<Option<nat>> {
    seq(|ts|, t requires 0 <= t < |ts| => Held(ts[t]))
  }

  ghost function Filled<T>(out: seq<Option<T>>): set<nat> {
    set i | 0 <= i < |out| && out[i].Some?
  }

  ghost predicate ThreadRight<T>(f: nat -> Answer<T>, s: Sys<T>, t: Thread<T>) {
    match t
    case Storing(i, v) => f(i) == Value(v)
    case Dead(i) => f(i).Panics?
    case Done => s.next >= |s.out|
    case _ => true
  }

  ghost predicate Inv<T>(f: nat -> Answer<T>, s: Sys<T>) {
    && Covered(0, Min(s.next, |s.out|), Filled(s.out), Helds(s.ts))
    && (forall t | 0 <= t < |s.ts| :: ThreadRight(f, s, s.ts[t]))
    && (forall i | 0 <= i < |s.out| && s.out[i].Some? :: f(i) == Value(s.out[i].value))
  }

  lemma HeldMoves<T>(f: nat -> Answer<T>, s: Sys<T>, l: Label)
    requires Enabled(s, l)
    ensures var s' := Next(f, s, l);
            |s'.ts| == |s.ts| && Helds(s'.ts) == Helds(s.ts)[l.t := Held(s'.ts[l.t])]
  {}

  lemma ClaimKept<T>(f: nat -> Answer<T>, s: Sys<T>, t: nat)
    requires Inv(f, s) && Enabled(s, Claim(t))
    ensures Inv(f, Next(f, s, Claim(t)))
  {
    var hs := Helds(s.ts);
    HeldMoves(f, s, Claim(t));
    if s.next < |s.out| {
      ClaimCovers(0, s.next, Filled(s.out), hs, t);
    } else {
      assert hs[t := None] == hs;
    }
  }

  lemma ApplyKept<T>(f: nat -> Answer<T>, s: Sys<T>, t: nat)
    requires Inv(f, s) && Enabled(s, Apply(t))
    ensures Inv(f, Next(f, s, Apply(t)))
  {
    var hs, s' := Helds(s.ts), Next(f, s, Apply(t));
    HeldMoves(f, s, Apply(t));
    assert ThreadRight(f, s, s.ts[t]);
    assert hs[t := Held(s'.ts[t])] == hs;
  }

  lemma StoreKept<T>(f: nat -> Answer<T>, s: Sys<T>, t: nat)
    requires Inv(f, s) && Enabled(s, Store(t))
    ensures Inv(f, Next(f, s, Store(t)))
  {
    HeldMoves(f, s, Store(t));
    assert ThreadRight(f, s, s.ts[t]);
    SettleCovers(0, Min(s.next, |s.out|), Filled(s.out), Helds(s.ts), t);
    assert Filled(Next(f, s, Store(t)).out) == Filled(s.out) + {s.ts[t].i};
  }

  lemma InvKept<T>(f: nat -> Answer<T>, s: Sys<T>, l: Label)
    requires Inv(f, s) && Enabled(s, l)
    ensures Inv(f, Next(f, s, l))
  {
    match l {
      case Claim(t) => ClaimKept(f, s, t);
      case Apply(t) => ApplyKept(f, s, t);
      case Store(t) => StoreKept(f, s, t);
    }
  }

  lemma {:induction false} RunInv<T(!new)>(
    f: nat -> Answer<T>, n: nat, threads: nat, ls: seq<Label>, ss: seq<Sys<T>>, j: nat)
    requires IsRun(f, n, threads, ls, ss) && j < |ss|
    ensures Inv(f, ss[j]) && |ss[j].out| == n && |ss[j].ts| == threads
  {
    if j > 0 {
      RunInv(f, n, threads, ls, ss, j - 1);
      InvKept(f, ss[j - 1], ls[j - 1]);
    }
  }

  // ---- main results ----

  /** Each slot is written at most once: the slot a thread stores into is still empty, and no other thread holds it. */
  lemma SlotWrittenOnce<T(!new)>(
    f: nat -> Answer<T>, n: nat, threads: nat, ls: seq<Label>, ss: seq<Sys<T>>, t: nat, u: nat)
    requires IsRun(f, n, threads, ls, ss)
    requires t < |ss[|ls|].ts| && ss[|ls|].ts[t].Storing?
    requires u < |ss[|ls|].ts| && u != t
    ensures var s := ss[|ls|];
            |s.out| == n && s.ts[t].i < n && s.out[s.ts[t].i].None? && Held(s.ts[u]) != Some(s.ts[t].i)
  {
    var s := ss[|ls|];
    RunInv(f, n, threads, ls, ss, |ls|);
    assert Helds(s.ts)[t] == Some(s.ts[t].i) && Helds(s.ts)[u] == Held(s.ts[u]);
    assert s.ts[t].i !in Filled(s.out);
  }

  /** Each index below the cursor is stored, or with exactly one thread; none beyond it is either. */
  lemma IndexClaimedOnce<T(!new)>(
    f: nat -> Answer<T>, n: nat, threads: nat, ls: seq<Label>, ss: seq<Sys<T>>, i: nat)
    requires IsRun(f, n, threads, ls, ss) && i < n
    ensures var s := ss[|ls|];
            && |s.out| == n
            && (i < s.next <==> s.out[i].Some? || exists t :: 0 <= t < |s.ts| && Held(s.ts[t]) == Some(i))
            && (forall t, u | 0 <= t < u < |s.ts| && Held(s.ts[t]) == Some(i) :: Held(s.ts[u]) != Some(i) && s.out[i].None?)
  {
    var s := ss[|ls|];
    RunInv(f, n, threads, ls, ss, |ls|);
    var hs := Helds(s.ts);
    assert forall t | 0 <= t < |s.ts| :: hs[t] == Held(s.ts[t]);
    assert i in Filled(s.out) <==> s.out[i].Some?;
    if i < s.next && s.out[i].None? {
      assert Some(i) in hs;
    }
  }

  /**
   However the cursor was shared, `par_map` answers the list f(0), f(1), ... when
   no call panics, and never a list when one does.
   */
  lemma ParMapIsMap<T(!new)>(f: nat -> Answer<T>, n: nat, threads: nat, ls: seq<Label>, ss: seq<Sys<T>>)
    requires threads > 0 && IsRun(f, n, threads, ls, ss) && Finished(ss[|ls|])
    ensures |ss[|ls|].ts| == threads
    ensures var r := Collected(ss[|ls|]);
            if forall i | 0 <= i < n :: f(i).Value? then
              r.Everything? && |r.vs| == n && forall i | 0 <= i < n :: f(i) == Value(r.vs[i])
            else !r.Everything?
    ensures Collected(ss[|ls|]).Everything? <==>
            forall t | 0 <= t < threads :: !ss[|ls|].ts[t].Dead?
  {
    var s := ss[|ls|];
    RunInv(f, n, threads, ls, ss, |ls|);
    if t :| 0 <= t < threads && s.ts[t].Dead? {
      assert ThreadRight(f, s, s.ts[t]);
      assert Helds(s.ts)[t] == Some(s.ts[t].i);
    } else {
      assert ThreadRight(f, s, s.ts[0]);
      AllFilled(f, s);
    }
  }

  /**
   Which call panicked tells the answer: the caller's own is raised again, a worker's makes
   it None, and only the calls themselves can do either.
   */
  lemma WhoPanicked<T(!new)>(f: nat -> Answer<T>, n: nat, threads: nat, ls: seq<Label>, ss: seq<Sys<T>>)
    requires threads > 0 && IsRun(f, n, threads, ls, ss) && Finished(ss[|ls|])
    ensures |ss[|ls|].ts| == threads
    ensures var s, r := ss[|ls|], Collected(ss[|ls|]);
            && (r.Unwound? <==> s.ts[0].Dead?)
            && (r.Nothing? <==> !s.ts[0].Dead? && exists t :: 0 < t < threads && s.ts[t].Dead?)
            && forall t | 0 <= t < threads && s.ts[t].Dead? :: s.ts[t].i < n && f(s.ts[t].i).Panics?
  {
    var s := ss[|ls|];
    RunInv(f, n, threads, ls, ss, |ls|);
    forall t | 0 <= t < threads && s.ts[t].Dead?
      ensures s.ts[t].i < n && f(s.ts[t].i).Panics?
    {
      assert ThreadRight(f, s, s.ts[t]) && Helds(s.ts)[t] == Some(s.ts[t].i);
    }
    if forall t | 0 <= t < threads :: !s.ts[t].Dead? {
      assert ThreadRight(f, s, s.ts[0]);
      AllFilled(f, s);
    }
  }

  lemma AllFilled<T>(f: nat -> Answer<T>, s: Sys<T>)
    requires Inv(f, s) && s.next >= |s.out|
    requires forall t | 0 <= t < |s.ts| :: s.ts[t].Done?
    ensures forall i | 0 <= i < |s.out| :: s.out[i].Some?
  {
    assert forall t | 0 <= t < |s.ts| :: Helds(s.ts)[t] == None;
    forall i | 0 <= i < |s.out|
      ensures s.out[i].Some?
    {
      assert Some(i) !in Helds(s.ts);
      assert i in Filled(s.out);
    }
  }
}
