/**
 Which error a failed write answers: the first one recorded in the queue, which never
 changes after, or the file layer's own; and where a recorded message can come from.
 */
module WriteErrors {
  import opened Common
  import opened WriteProtocol
  import opened WriteSafety

  /** The error of the writer factory or of the file layer that a step meets. */
  function Met(l: Label): Option<string> {
    match l
    case Look(_, made) => made
    case MasterOpen(e) => e
    case MasterAppend(e) => e
    case MasterClose(e) => e
    case _ => None
  }

  /** The file layer refused the master with `e` within the steps `ls`. */
  ghost predicate FromFile(ls: seq<Label>, e: string) {
    exists x :: 0 <= x < |ls| && !ls[x].Look? && Met(ls[x]) == Some(e)
  }

  /** `e` is a task's own error, a task's panic, or an error met below. */
  ghost predicate Said(k: Config, ls: seq<Label>, e: string) {
    || (exists i :: 0 <= i < NTasks(k) && k.encode(i) == Failed(e))
    || (e == "pq_write: worker panic" && exists i :: 0 <= i < NTasks(k) && k.encode(i).Panicked?)
    || (exists x :: 0 <= x < |ls| && Met(ls[x]) == Some(e))
  }

  ghost predicate WorkersSay(k: Config, ls: seq<Label>, ws: seq<Worker>) {
    forall w | 0 <= w < |ws| && ws[w].Dying? && ws[w].phase.Record? :: Said(k, ls, ws[w].phase.msg)
  }

  /** What the queue recorded and what the master is about to answer. */
  ghost predicate Errors(ls: seq<Label>, s: Sys) {
    match s.m
    case Failing(phase, e) =>
      FromFile(ls, e) && (if phase.Record? then phase.msg == e else s.q.err.Some?)
    case Returned(Err(e)) => s.q.err.Some? && (e == s.q.err.value || FromFile(ls, e))
    case _ => true
  }

  ghost predicate AllSay(k: Config, ls: seq<Label>, s: Sys) {
    WorkersSay(k, ls, s.ws) && Errors(ls, s) && (s.q.err.Some? ==> Said(k, ls, s.q.err.value))
  }

  lemma SaidStays(k: Config, ls: seq<Label>, l: Label, e: string)
    ensures Said(k, ls, e) || Met(l) == Some(e) ==> Said(k, ls + [l], e)
    ensures FromFile(ls, e) || (Met(l) == Some(e) && !l.Look?) ==> FromFile(ls + [l], e)
    ensures FromFile(ls, e) ==> Said(k, ls, e)
  {
    assert forall x | 0 <= x < |ls| :: (ls + [l])[x] == ls[x];
    assert (ls + [l])[|ls|] == l;
  }

  lemma LookSays(k: Config, s: Sys, ls: seq<Label>, w: nat, made: Option<string>)
    requires ValidConfig(k) && Inv(k, s) && w < |s.ws| && s.ws[w].Looking? && WorkersSay(k, ls, s.ws)
    ensures WorkersSay(k, ls + [Look(w, made)], NextLook(k, s, w, made).ws)
    ensures NextLook(k, s, w, made).q.err == s.q.err && NextLook(k, s, w, made).m == s.m
  {
    LookQKeeps(k, s.q, made);
    var s' := NextLook(k, s, w, made);
    forall v | 0 <= v < |s'.ws| && s'.ws[v].Dying? && s'.ws[v].phase.Record?
      ensures Said(k, ls + [Look(w, made)], s'.ws[v].phase.msg)
    {
      SaidStays(k, ls, Look(w, made), s'.ws[v].phase.msg);
    }
  }

  lemma EncodeSays(k: Config, s: Sys, ls: seq<Label>, w: nat)
    requires ValidConfig(k) && Inv(k, s) && w < |s.ws| && s.ws[w].Encoding? && WorkersSay(k, ls, s.ws)
    ensures WorkersSay(k, ls + [Encode(w)], NextEncode(k, s, w).ws)
  {
    var i := s.ws[w].i;
    assert Helds(s.ws)[w] == Some(i) && i < NTasks(k);
    var s' := NextEncode(k, s, w);
    forall v | 0 <= v < |s'.ws| && s'.ws[v].Dying? && s'.ws[v].phase.Record?
      ensures Said(k, ls + [Encode(w)], s'.ws[v].phase.msg)
    {
      SaidStays(k, ls, Encode(w), s'.ws[v].phase.msg);
    }
  }

  /** A step that makes no worker record anything new. */
  lemma SameSay(k: Config, ls: seq<Label>, l: Label, ws: seq<Worker>, ws': seq<Worker>)
    requires WorkersSay(k, ls, ws) && |ws'| == |ws|
    requires forall w | 0 <= w < |ws'| && ws'[w].Dying? && ws'[w].phase.Record? :: ws'[w] == ws[w]
    ensures WorkersSay(k, ls + [l], ws')
  {
    forall w | 0 <= w < |ws'| && ws'[w].Dying? && ws'[w].phase.Record?
      ensures Said(k, ls + [l], ws'[w].phase.msg)
    {
      SaidStays(k, ls, l, ws'[w].phase.msg);
    }
  }

  lemma StepWorkers(k: Config, s: Sys, ls: seq<Label>, l: Label)
    requires ValidConfig(k) && Inv(k, s) && Enabled(k, s, l) && WorkersSay(k, ls, s.ws)
    ensures WorkersSay(k, ls + [l], Next(k, s, l).ws)
  {
    match l
    case Look(w, made) => LookSays(k, s, ls, w, made);
    case Encode(w) => EncodeSays(k, s, ls, w);
    case _ => SameSay(k, ls, l, s.ws, Next(k, s, l).ws);
  }

  /** The first error recorded is kept by every step. */
  lemma StepKeepsError(k: Config, s: Sys, l: Label)
    requires ValidConfig(k) && Inv(k, s) && Enabled(k, s, l)
    ensures s.q.err.Some? ==> Next(k, s, l).q.err == s.q.err
  {
    if l.Look? {
      LookQKeeps(k, s.q, l.made);
    }
  }

  lemma StepRecords(k: Config, s: Sys, ls: seq<Label>, l: Label)
    requires ValidConfig(k) && Inv(k, s) && Enabled(k, s, l) && AllSay(k, ls, s)
    ensures var e := Next(k, s, l).q.err; e.Some? ==> Said(k, ls + [l], e.value)
  {
    var e := Next(k, s, l).q.err;
    if l.Look? {
      LookQKeeps(k, s.q, l.made);
    }
    if e.Some? {
      SaidStays(k, ls, l, e.value);
    }
  }

  lemma StepAnswers(k: Config, s: Sys, ls: seq<Label>, l: Label)
    requires ValidConfig(k) && Inv(k, s) && Enabled(k, s, l) && Errors(ls, s)
    ensures Errors(ls + [l], Next(k, s, l))
  {
    StepKeepsError(k, s, l);
    match Next(k, s, l).m
    case Failing(_, e) => SaidStays(k, ls, l, e);
    case Returned(Err(e)) => SaidStays(k, ls, l, e);
    case _ =>
  }

  lemma {:induction false} RunSays(k: Config, n: nat, ls: seq<Label>, ss: seq<Sys>, j: nat)
    requires ValidConfig(k) && IsRun(k, n, ls, ss) && j < |ss|
    ensures AllSay(k, ls[..j], ss[j])
  {
    if j > 0 {
      RunSays(k, n, ls, ss, j - 1);
      RunInv(k, n, ls, ss, j - 1);
      StepWorkers(k, ss[j - 1], ls[..j - 1], ls[j - 1]);
      StepRecords(k, ss[j - 1], ls[..j - 1], ls[j - 1]);
      StepAnswers(k, ss[j - 1], ls[..j - 1], ls[j - 1]);
      assert ls[..j] == ls[..j - 1] + [ls[j - 1]];
    }
  }

  // ---- main results ----

  /** Once an error is recorded it stays, whatever fails later. */
  lemma {:induction false} FirstErrorStays(k: Config, n: nat, ls: seq<Label>, ss: seq<Sys>, i: nat, j: nat)
    requires ValidConfig(k) && IsRun(k, n, ls, ss) && i <= j < |ss| && ss[i].q.err.Some?
    ensures ss[j].q.err == ss[i].q.err
  {
    if i < j {
      FirstErrorStays(k, n, ls, ss, i, j - 1);
      RunInv(k, n, ls, ss, j - 1);
      StepKeepsError(k, ss[j - 1], ls[j - 1]);
    }
  }

  /** ... and no task is claimed after it. */
  lemma {:induction false} ErrorEndsClaims(k: Config, n: nat, ls: seq<Label>, ss: seq<Sys>, i: nat, j: nat)
    requires ValidConfig(k) && IsRun(k, n, ls, ss) && i <= j < |ss| && ss[i].q.err.Some?
    ensures ss[j].q.next == ss[i].q.next
  {
    if i < j {
      ErrorEndsClaims(k, n, ls, ss, i, j - 1);
      FirstErrorStays(k, n, ls, ss, i, j - 1);
      RunInv(k, n, ls, ss, j - 1);
      StepClaimsNothing(k, ss[j - 1], ls[j - 1]);
    }
  }

  lemma StepClaimsNothing(k: Config, s: Sys, l: Label)
    requires ValidConfig(k) && Inv(k, s) && Enabled(k, s, l) && s.q.err.Some?
    ensures Next(k, s, l).q.next == s.q.next
  {
    if l.Look? {
      LookQKeeps(k, s.q, l.made);
    }
  }

  /**
   The master goes on while the chunk it needs is finished, error or not; it answers the
   recorded error only where that chunk is missing, and sleeps only where there is none.
   */
  lemma FinishedChunkWins(k: Config, n: nat, s: Sys, woken: Option<nat>)
    requires ValidConfig(k) && Reachable(k, n, s) && Enabled(k, s, MasterLook(woken))
    ensures var m := Next(k, s, MasterLook(woken)).m;
            && (s.q.head in s.q.done <==> m.Appending?)
            && (m.Appending? ==> k.encode(s.q.head) == Encoded(m.chunk))
            && (m.Returned? <==> s.q.head !in s.q.done && s.q.err.Some?)
            && (m.Returned? ==> m.r == Err(s.q.err.value))
            && (m.Sleeping? <==> s.q.head !in s.q.done && s.q.err.None?)
  {
    ReachableInv(k, n, s);
  }

  /**
   A failed write has recorded an error that some task or some layer below is to blame
   for, and answers that one, unless the file layer refused the master itself.
   */
  lemma ErrorAnswered(k: Config, n: nat, ls: seq<Label>, ss: seq<Sys>)
    requires ValidConfig(k) && IsRun(k, n, ls, ss)
    requires ss[|ls|].m.Returned? && ss[|ls|].m.r.Err?
    ensures var s := ss[|ls|];
            && s.q.err.Some? && Said(k, ls, s.q.err.value)
            && (s.m.r.error == s.q.err.value || FromFile(ls, s.m.r.error))
  {
    RunSays(k, n, ls, ss, |ls|);
    assert ls[..|ls|] == ls;
  }
}
