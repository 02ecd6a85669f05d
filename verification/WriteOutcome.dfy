/**
 What a finished write answers: success exactly when nothing failed, in every
 interleaving.
 */
module WriteOutcome {
  import opened Common
  import opened WriteProtocol
  import opened WriteSafety
  import opened WriteProgress

  ghost predicate AllEncode(k: Config) {
    forall i | 0 <= i < NTasks(k) :: k.encode(i).Encoded?
  }

  /** The writer factory and the file layer answer without an error. */
  ghost predicate NoFault(l: Label) {
    match l
    case Look(_, made) => made.None?
    case MasterOpen(e) => e.None?
    case MasterAppend(e) => e.None?
    case MasterClose(e) => e.None?
    case _ => true
  }

  ghost predicate Unharmed(s: Sys) {
    && s.q.err.None?
    && (forall w | 0 <= w < |s.ws| :: !s.ws[w].Dying? && (s.ws[w].Exited? ==> s.ws[w].task.None?))
    && !s.m.Failing?
    && (s.m.Returned? ==> s.m.r.Ok?)
  }

  lemma UnharmedLook(k: Config, s: Sys, w: nat)
    requires ValidConfig(k) && Inv(k, s) && Unharmed(s) && w < |s.ws| && s.ws[w].Looking?
    ensures Unharmed(NextLook(k, s, w, None))
  {
    LookQKeeps(k, s.q, None);
  }

  lemma UnharmedEncode(k: Config, s: Sys, w: nat)
    requires ValidConfig(k) && Inv(k, s) && Unharmed(s) && AllEncode(k) && w < |s.ws| && s.ws[w].Encoding?
    ensures Unharmed(NextEncode(k, s, w))
  {
    assert Helds(s.ws)[w] == Some(s.ws[w].i);
  }

  lemma UnharmedKept(k: Config, s: Sys, l: Label)
    requires ValidConfig(k) && Inv(k, s) && Unharmed(s) && AllEncode(k)
    requires Enabled(k, s, l) && NoFault(l)
    ensures Unharmed(Next(k, s, l))
  {
    match l
    case Look(w, _) => UnharmedLook(k, s, w);
    case Encode(w) => UnharmedEncode(k, s, w);
    case _ =>
  }

  lemma {:induction false} RunUnharmed(k: Config, n: nat, ls: seq<Label>, ss: seq<Sys>, j: nat)
    requires ValidConfig(k) && IsRun(k, n, ls, ss) && AllEncode(k) && j < |ss|
    requires forall i | 0 <= i < |ls| :: NoFault(ls[i])
    ensures Unharmed(ss[j])
  {
    if j > 0 {
      RunUnharmed(k, n, ls, ss, j - 1);
      RunInv(k, n, ls, ss, j - 1);
      UnharmedKept(k, ss[j - 1], ls[j - 1]);
    }
  }

  /** When every task encodes and no layer below fails, every finished run answers Ok with the serial file. */
  lemma CleanRunSucceeds(k: Config, n: nat, ls: seq<Label>, ss: seq<Sys>)
    requires ValidConfig(k) && IsRun(k, n, ls, ss) && AllEncode(k)
    requires forall i | 0 <= i < |ls| :: NoFault(ls[i])
    requires Finished(ss[|ls|])
    ensures ss[|ls|].m.r.Ok? && ss[|ls|].file == SerialGroups(k, k.nrg)
  {
    RunUnharmed(k, n, ls, ss, |ls|);
    OkMeansSerialFile(k, n, ss[|ls|]);
  }

  /** When some task fails or panics, every finished run answers an error, whatever else happens. */
  lemma FailingTaskFailsWrite(k: Config, n: nat, s: Sys, i: nat)
    requires ValidConfig(k) && Reachable(k, n, s) && Finished(s)
    requires i < NTasks(k) && !k.encode(i).Encoded?
    ensures s.m.r.Err?
  {
    if s.m.r.Ok? {
      OkMeansSerialFile(k, n, s);
    }
  }

  /** A worker that died with its task rules success out for good. */
  lemma LostTaskFailsWrite(k: Config, n: nat, s: Sys, w: nat)
    requires ValidConfig(k) && Reachable(k, n, s) && s.m.Returned?
    requires w < |s.ws| && Held(s.ws[w]).Some?
    ensures s.m.r.Err?
  {
    if s.m.r.Ok? {
      OkMeansSerialFile(k, n, s);
    }
  }
}
