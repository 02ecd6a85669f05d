/**
 Numbered pieces of work handed out in order to several threads: every piece
 handed out is either settled or held by exactly one thread.
 */
module Claims {
  import opened Common

  /** Pieces [lo, next) were handed out; `done` are settled; thread v holds `hs[v]`. */
  ghost predicate Covered(lo: nat, next: nat, done: set<nat>, hs: seq<Option<nat>>) {
    && (forall i | i in done :: lo <= i < next)
    && (forall w | 0 <= w < |hs| && hs[w].Some? :: lo <= hs[w].value < next && hs[w].value !in done)
    && (forall v, w | 0 <= v < w < |hs| && hs[v].Some? :: hs[v] != hs[w])
    && (forall i | lo <= i < next && i !in done :: Some(i) in hs)
  }

  lemma StillHeld(hs: seq<Option<nat>>, w: nat, t: Option<nat>, i: nat)
    requires w < |hs| && Some(i) in hs && hs[w] != Some(i)
    ensures Some(i) in hs[w := t]
  {
    var v :| 0 <= v < |hs| && hs[v] == Some(i);
    assert hs[w := t][v] == Some(i);
  }

  lemma ClaimCovers(lo: nat, next: nat, done: set<nat>, hs: seq<Option<nat>>, w: nat)
    requires Covered(lo, next, done, hs) && lo <= next && w < |hs| && hs[w].None?
    ensures Covered(lo, next + 1, done, hs[w := Some(next)])
  {
    var hs' := hs[w := Some(next)];
    forall i | lo <= i < next + 1 && i !in done
      ensures Some(i) in hs'
    {
      if i == next {
        assert hs'[w] == Some(next);
      } else {
        StillHeld(hs, w, Some(next), i);
      }
    }
  }

  lemma SettleCovers(lo: nat, next: nat, done: set<nat>, hs: seq<Option<nat>>, w: nat)
    requires Covered(lo, next, done, hs) && w < |hs| && hs[w].Some?
    ensures Covered(lo, next, done + {hs[w].value}, hs[w := None])
  {
    forall i | lo <= i < next && i !in done + {hs[w].value}
      ensures Some(i) in hs[w := None]
    {
      StillHeld(hs, w, None, i);
    }
  }

  /** The oldest piece, once settled, may be consumed. */
  lemma ConsumeCovers(lo: nat, next: nat, done: set<nat>, hs: seq<Option<nat>>)
    requires Covered(lo, next, done, hs) && lo in done
    ensures Covered(lo + 1, next, done - {lo}, hs)
  {}
}
