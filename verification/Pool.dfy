/**
 The worker pool: the state behind its mutex and the lock sections of a worker
 (`serve`) and of a caller (`run`), as functions on a value and as methods that
 update fields in place.

 A borrowed job is a token naming the closure a caller lends.
 */
module Pool {
  import opened Common

  datatype St = St(job: Option<nat>, gen: nat, want: nat, left: nat, panics: nat)

  const IDLE := St(None, 0, 0, 0, 0)

  /** What one look at the state tells worker `idx`, which last saw generation `seen`. */
  datatype Pick = Sleep | Skip(seen: nat) | Take(seen: nat, job: nat)

  function PickSt(st: St, idx: nat, seen: nat): Pick {
    if st.gen == seen then Sleep
    else if idx < st.want && st.job.Some? then Take(st.gen, st.job.value)
    else Skip(st.gen)
  }

  function FinishSt(st: St, bad: bool): St
    requires st.left > 0
  {
    st.(panics := st.panics + if bad then 1 else 0, left := st.left - 1)
  }

  function DispatchSt(st: St, job: nat, n: nat): St {
    St(Some(job), st.gen + 1, n, n, 0)
  }

  /** A caller's look at the countdown: None while workers are still at it, else whether one panicked. */
  function CollectSt(st: St): (St, Option<bool>) {
    if st.left > 0 then (st, None) else (st.(job := None), Some(st.panics > 0))
  }

  class State {
    var job: Option<nat>
    var gen: nat
    var want: nat
    var left: nat
    var panics: nat

    ghost function View(): St
      reads this
    {
      St(job, gen, want, left, panics)
    }

    constructor ()
      ensures View() == IDLE
    {
      job, gen, want, left, panics := None, 0, 0, 0, 0;
    }

    method Pick(idx: nat, seen: nat) returns (p: Pick)
      ensures p == PickSt(View(), idx, seen)
    {
      if gen == seen {
        return Sleep;
      }
      if idx < want && job.Some? {
        return Take(gen, job.value);
      }
      return Skip(gen);
    }

    method Finish(bad: bool) returns (last: bool)
      requires left > 0
      modifies this`panics, this`left
      ensures View() == FinishSt(old(View()), bad)
      ensures last <==> View().left == 0
    {
      if bad {
        panics := panics + 1;
      }
      left := left - 1;
      last := left == 0;
    }

    method Dispatch(f: nat, n: nat)
      modifies this
      ensures View() == DispatchSt(old(View()), f, n)
    {
      job := Some(f);
      want := n;
      left := n;
      panics := 0;
      gen := gen + 1;
    }

    method Collect() returns (bad: Option<bool>)
      modifies this`job
      ensures (View(), bad) == CollectSt(old(View()))
    {
      if left > 0 {
        return None;
      }
      job := None;
      return Some(panics > 0);
    }
  }
}
