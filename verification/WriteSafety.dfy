/**
 Safety of the writer's queue: the invariant is kept by every step, so a write
 that reports success has produced the file of a serial writer.
 */
module WriteSafety {
  import opened Claims
  import opened Common
  import opened WriteQueue
  import opened WriteProtocol

  /** `WritersExact` when column `c` of row group `g` is the next to be claimed. */
  ghost function WritersAt(nc: nat, g: nat, c: nat): map<nat, seq<Option<Writer>>> {
    if c == 0 || c == nc then map[] else map[g := HalfTaken(g, nc, c)]
  }

  lemma TakeWriterExact(nc: nat, g: nat, c: nat)
    requires c < nc
    ensures var wr := if c == 0 then WritersAt(nc, g, c)[g := FreshWriters(g, nc)] else WritersAt(nc, g, c);
            TakeWriter(wr, nc, g, c) == (WritersAt(nc, g, c + 1), Some(Writer(g, c)))
  {
    var wr := if c == 0 then WritersAt(nc, g, c)[g := FreshWriters(g, nc)] else WritersAt(nc, g, c);
    assert wr == map[g := HalfTaken(g, nc, c)] by {
      assert FreshWriters(g, nc) == HalfTaken(g, nc, 0);
    }
    assert HalfTaken(g, nc, c)[c := None] == HalfTaken(g, nc, c + 1);
    assert wr[g := wr[g][c := None]] == map[g := HalfTaken(g, nc, c + 1)];
    assert wr[g := wr[g][c := None]] - {g} == map[];
  }

  lemma NextTask(nc: nat, i: nat)
    requires nc > 0
    ensures (i + 1) / nc == (if i % nc + 1 == nc then i / nc + 1 else i / nc)
    ensures (i + 1) % nc == (if i % nc + 1 == nc then 0 else i % nc + 1)
  {
    var g, c := i / nc, i % nc;
    TaskJoin(nc, i);
    if c + 1 == nc {
      assert Task(nc, g + 1, 0) == i + 1 by {
        assert (g + 1) * nc == g * nc + nc;
      }
      TaskSplit(nc, g + 1, 0);
    } else {
      TaskSplit(nc, g, c + 1);
    }
  }

  lemma LookQKeeps(k: Config, q: Q, made: Option<string>)
    requires ValidConfig(k) && WritersExact(k, q)
    ensures var (q', claim) := LookQ(q, k.nc, NTasks(k), k.window, made);
            if claim.Claimed? then
              && claim == Claimed(q.next, Writer(q.next / k.nc, q.next % k.nc))
              && q' == q.(next := q.next + 1, wr := q'.wr) && WritersExact(k, q')
              && q.err.None? && q.next < NTasks(k) && q.next < q.head + k.window
            else q' == q && !claim.Lost?
  {
    TakeWriterExact(k.nc, q.next / k.nc, q.next % k.nc);
    NextTask(k.nc, q.next);
  }

  lemma {:induction false} GroupsPrefix(k: Config, g: nat, h: nat)
    requires g <= h
    ensures SerialGroups(k, g) <= SerialGroups(k, h)
  {
    if g < h {
      GroupsPrefix(k, g, h - 1);
    }
  }

  lemma {:induction false} ColsPrefix(k: Config, g: nat, c: nat, d: nat)
    requires c <= d
    ensures SerialCols(k, g, c) <= SerialCols(k, g, d)
  {
    if c < d {
      ColsPrefix(k, g, c, d - 1);
    }
  }

  lemma PartPrefix(k: Config, g: nat, c: nat)
    requires g < k.nrg && c <= k.nc
    ensures SerialGroups(k, g) + [OpenGroup] + SerialCols(k, g, c) <= SerialGroups(k, k.nrg)
  {
    ColsPrefix(k, g, c, k.nc);
    GroupsPrefix(k, g + 1, k.nrg);
    assert SerialGroups(k, g) + [OpenGroup] + SerialCols(k, g, c) <= SerialGroups(k, g + 1);
  }

  lemma RightIsPrefix(k: Config, s: Sys)
    requires MasterRight(k, s)
    ensures s.file <= SerialGroups(k, k.nrg)
  {
    match s.m {
      case Opening(g) => GroupsPrefix(k, g, k.nrg);
      case Awaiting(g, c) => PartPrefix(k, g, c);
      case Sleeping(g, c) => PartPrefix(k, g, c);
      case Appending(g, c, _) => PartPrefix(k, g, c);
      case Closing(g) => PartPrefix(k, g, k.nc);
      case _ =>
    }
  }

  // ---- how each step moves tasks between `done` and the workers ----

  lemma HeldsUpdate(ws: seq<Worker>, w: nat, p: Worker)
    requires w < |ws|
    ensures Helds(ws[w := p]) == Helds(ws)[w := Held(p)]
  {}

  lemma HeldsWakeAll(ws: seq<Worker>)
    ensures Helds(WakeAll(ws)) == Helds(ws)
  {}

  // ---- one lemma a step ----

  lemma WorkersStayRight(k: Config, ws: seq<Worker>, w: nat, p: Worker)
    requires ValidConfig(k) && w < |ws| && WorkerRight(k, p)
    requires forall v | 0 <= v < |ws| :: WorkerRight(k, ws[v])
    ensures var ws' := ws[w := p]; forall v | 0 <= v < |ws'| :: WorkerRight(k, ws'[v])
  {}

  lemma KeepClaim(k: Config, s: Sys, w: nat, made: Option<string>)
    requires ValidConfig(k) && Inv(k, s)
    requires w < |s.ws| && s.ws[w].Looking? && NextLook(k, s, w, made).ws[w].Encoding?
    ensures Inv(k, NextLook(k, s, w, made))
  {
    LookQKeeps(k, s.q, made);
    var p := NextLook(k, s, w, made).ws[w];
    HeldsUpdate(s.ws, w, p);
    WorkersStayRight(k, s.ws, w, p);
    ClaimCovers(s.q.head, s.q.next, s.q.done.Keys, Helds(s.ws), w);
  }

  lemma KeepLook(k: Config, s: Sys, w: nat, made: Option<string>)
    requires ValidConfig(k) && Inv(k, s)
    requires w < |s.ws| && s.ws[w].Looking?
    ensures Inv(k, NextLook(k, s, w, made))
  {
    LookQKeeps(k, s.q, made);
    var p := NextLook(k, s, w, made).ws[w];
    if p.Encoding? {
      KeepClaim(k, s, w, made);
    } else {
      HeldsUpdate(s.ws, w, p);
      WorkersStayRight(k, s.ws, w, p);
      assert Helds(s.ws)[w := None] == Helds(s.ws);
      KeepQuiet(k, s, NextLook(k, s, w, made));
    }
  }

  lemma KeepDeposit(k: Config, s: Sys, w: nat)
    requires ValidConfig(k) && Inv(k, s)
    requires w < |s.ws| && s.ws[w].Encoding? && k.encode(s.ws[w].i).Encoded?
    ensures Inv(k, NextEncode(k, s, w))
  {
    HeldsUpdate(s.ws, w, Looking);
    WorkersStayRight(k, s.ws, w, Looking);
    SettleCovers(s.q.head, s.q.next, s.q.done.Keys, Helds(s.ws), w);
    assert NextEncode(k, s, w).q.done.Keys == s.q.done.Keys + {s.ws[w].i};
  }

  lemma KeepEncode(k: Config, s: Sys, w: nat)
    requires ValidConfig(k) && Inv(k, s)
    requires w < |s.ws| && s.ws[w].Encoding?
    ensures Inv(k, NextEncode(k, s, w))
  {
    if k.encode(s.ws[w].i).Encoded? {
      KeepDeposit(k, s, w);
    } else {
      var p := NextEncode(k, s, w).ws[w];
      HeldsUpdate(s.ws, w, p);
      WorkersStayRight(k, s.ws, w, p);
      assert Helds(s.ws)[w := Held(p)] == Helds(s.ws);
      KeepQuiet(k, s, NextEncode(k, s, w));
    }
  }

  /** A step that leaves tasks and finished chunks alone. */
  lemma KeepQuiet(k: Config, s: Sys, s': Sys)
    requires ValidConfig(k) && Inv(k, s)
    requires s'.q == s.q.(err := s'.q.err)
    requires Helds(s'.ws) == Helds(s.ws)
    requires forall v | 0 <= v < |s'.ws| :: WorkerRight(k, s'.ws[v])
    requires MasterRight(k, s')
    ensures Inv(k, s')
  {}

  lemma KeepDie(k: Config, s: Sys, w: nat)
    requires ValidConfig(k) && Inv(k, s)
    requires w < |s.ws| && s.ws[w].Dying?
    ensures Inv(k, NextDie(s, w))
  {
    var s' := NextDie(s, w);
    var p := match s.ws[w].phase
      case Record(_) => Dying(WakeWorkers, s.ws[w].task)
      case WakeWorkers => Dying(WakeMaster, s.ws[w].task)
      case WakeMaster => Exited(s.ws[w].task);
    HeldsUpdate(s.ws, w, p);
    assert Helds(s.ws)[w := Held(p)] == Helds(s.ws);
    WorkersStayRight(k, s.ws, w, p);
    HeldsWakeAll(s.ws[w := p]);
    KeepQuiet(k, s, s');
  }

  lemma KeepSpurious(k: Config, s: Sys, w: nat)
    requires ValidConfig(k) && Inv(k, s)
    requires w < |s.ws| && s.ws[w].Parked?
    ensures Inv(k, s.(ws := s.ws[w := Looking]))
  {
    HeldsUpdate(s.ws, w, Looking);
    assert Helds(s.ws)[w := None] == Helds(s.ws);
    KeepQuiet(k, s, s.(ws := s.ws[w := Looking]));
  }

  /** Waking a parked worker changes nobody's task. */
  lemma HeldsWoken(ws: seq<Worker>, woken: Option<nat>)
    requires MayWake(ws, woken)
    ensures Helds(if woken.Some? then ws[woken.value := Looking] else ws) == Helds(ws)
  {
    if woken.Some? {
      HeldsUpdate(ws, woken.value, Looking);
      assert Helds(ws)[woken.value := None] == Helds(ws);
    }
  }

  lemma KeepGot(k: Config, s: Sys, woken: Option<nat>)
    requires ValidConfig(k) && Inv(k, s) && s.m.Awaiting? && MayWake(s.ws, woken)
    requires Task(k.nc, s.m.g, s.m.c) in s.q.done
    ensures Inv(k, NextTake(k, s, woken))
  {
    var i := Task(k.nc, s.m.g, s.m.c);
    TaskBound(k.nc, k.nrg, s.m.g, s.m.c);
    ConsumeCovers(s.q.head, s.q.next, s.q.done.Keys, Helds(s.ws));
    assert (s.q.done - {i}).Keys == s.q.done.Keys - {i};
    HeldsWoken(s.ws, woken);
  }

  lemma KeepTake(k: Config, s: Sys, woken: Option<nat>)
    requires ValidConfig(k) && Inv(k, s)
    requires s.m.Awaiting? && MayWake(s.ws, woken)
    ensures Inv(k, NextTake(k, s, woken))
  {
    if Task(k.nc, s.m.g, s.m.c) in s.q.done {
      KeepGot(k, s, woken);
    } else {
      RightIsPrefix(k, s);
      KeepQuiet(k, s, NextTake(k, s, woken));
    }
  }

  lemma MasterAppends(k: Config, s: Sys, error: Option<string>)
    requires ValidConfig(k) && MasterRight(k, s) && s.m.Appending?
    ensures MasterRight(k, Next(k, s, MasterAppend(error)))
  {
    if error.Some? {
      RightIsPrefix(k, s);
    } else {
      ChunkAppended(k, s, s.m.g, s.m.c, s.m.chunk);
    }
  }

  lemma ChunkAppended(k: Config, s: Sys, g: nat, c: nat, chunk: Bytes)
    requires ValidConfig(k) && InGroup(k, s, g, c) && s.q.head == Task(k.nc, g, c) + 1
    requires k.encode(Task(k.nc, g, c)) == Encoded(chunk)
    ensures var file := s.file + [Append(chunk)];
            if c + 1 < k.nc then InGroup(k, s.(file := file), g, c + 1) && s.q.head == Task(k.nc, g, c + 1)
            else file == SerialGroups(k, g) + [OpenGroup] + SerialCols(k, g, c + 1) && s.q.head == Task(k.nc, g + 1, 0)
  {
    ColsMore(k, SerialGroups(k, g) + [OpenGroup], g, c, s.file, chunk);
    NextGroup(k.nc, g, c);
  }

  lemma NextGroup(nc: nat, g: nat, c: nat)
    ensures Task(nc, g, c) + 1 == Task(nc, g, c + 1)
    ensures c + 1 == nc ==> Task(nc, g, c) + 1 == Task(nc, g + 1, 0)
  {
    assert (g + 1) * nc == g * nc + nc;
  }

  lemma ColsMore(k: Config, before: seq<FileOp>, g: nat, c: nat, file: seq<FileOp>, chunk: Bytes)
    requires file == before + SerialCols(k, g, c) && k.encode(Task(k.nc, g, c)) == Encoded(chunk)
    ensures file + [Append(chunk)] == before + SerialCols(k, g, c + 1)
  {}

  lemma MasterMoves(k: Config, s: Sys, l: Label)
    requires ValidConfig(k) && MasterRight(k, s) && Enabled(k, s, l)
    requires l.MasterOpen? || l.MasterClose?
    ensures MasterRight(k, Next(k, s, l))
  {
    RightIsPrefix(k, s);
    if s.m.Opening? {
      assert s.file + [OpenGroup] + SerialCols(k, s.m.g, 0) == s.file + [OpenGroup];
    } else {
      TaskBound(k.nc, k.nrg, s.m.g, 0);
    }
  }

  lemma KeepMaster(k: Config, s: Sys, l: Label)
    requires ValidConfig(k) && Inv(k, s) && Enabled(k, s, l)
    requires l.MasterOpen? || l.MasterAppend? || l.MasterClose?
    ensures Inv(k, Next(k, s, l))
  {
    if l.MasterAppend? {
      MasterAppends(k, s, l.error);
    } else {
      MasterMoves(k, s, l);
    }
    KeepQuiet(k, s, Next(k, s, l));
  }

  lemma KeepMasterRest(k: Config, s: Sys, l: Label)
    requires ValidConfig(k) && Inv(k, s) && Enabled(k, s, l)
    requires l.MasterDie? || l.MasterEnd? || l.MasterWakeSpuriously?
    ensures Inv(k, Next(k, s, l))
  {
    HeldsWakeAll(s.ws);
    KeepQuiet(k, s, Next(k, s, l));
  }

  /** The invariant survives every step of every thread. */
  lemma InvKept(k: Config, s: Sys, l: Label)
    requires ValidConfig(k) && Inv(k, s) && Enabled(k, s, l)
    ensures Inv(k, Next(k, s, l))
  {
    match l {
      case Look(w, made) => KeepLook(k, s, w, made);
      case Encode(w) => KeepEncode(k, s, w);
      case Die(w) => KeepDie(k, s, w);
      case WakeSpuriously(w) => KeepSpurious(k, s, w);
      case MasterLook(woken) => KeepTake(k, s, woken);
      case MasterOpen(_) => KeepMaster(k, s, l);
      case MasterAppend(_) => KeepMaster(k, s, l);
      case MasterClose(_) => KeepMaster(k, s, l);
      case _ => KeepMasterRest(k, s, l);
    }
  }

  lemma {:induction false} RunInv(k: Config, n: nat, ls: seq<Label>, ss: seq<Sys>, j: nat)
    requires ValidConfig(k) && IsRun(k, n, ls, ss) && j < |ss|
    ensures Inv(k, ss[j])
  {
    if j == 0 {
      StartInv(k, n);
    } else {
      RunInv(k, n, ls, ss, j - 1);
      InvKept(k, ss[j - 1], ls[j - 1]);
    }
  }

  /** In every reachable state of every interleaving of any number of workers. */
  lemma ReachableInv(k: Config, n: nat, s: Sys)
    requires ValidConfig(k) && Reachable(k, n, s)
    ensures Inv(k, s)
  {
    var ls, ss :| IsRun(k, n, ls, ss) && ss[|ls|] == s;
    RunInv(k, n, ls, ss, |ls|);
  }

  // ---- main results ----

  /** Success means the serial file, every task encoded, and no worker died with a task. */
  lemma OkMeansSerialFile(k: Config, n: nat, s: Sys)
    requires ValidConfig(k) && Reachable(k, n, s)
    requires s.m.Returned? && s.m.r.Ok?
    ensures s.file == SerialGroups(k, k.nrg)
    ensures forall i | 0 <= i < NTasks(k) :: k.encode(i).Encoded?
    ensures forall w | 0 <= w < |s.ws| :: Held(s.ws[w]).None?
  {
    ReachableInv(k, n, s);
    NothingHeldAtEnd(k, s);
  }

  lemma {:induction false} ColsAt(k: Config, g: nat, n: nat, c: nat)
    requires c < n
    ensures |SerialCols(k, g, n)| == n && SerialCols(k, g, n)[c] == Append(ChunkOf(k, Task(k.nc, g, c)))
  {
    ColsLength(k, g, n - 1);
    if c < n - 1 {
      ColsAt(k, g, n - 1, c);
    }
  }

  lemma {:induction false} ColsLength(k: Config, g: nat, n: nat)
    ensures |SerialCols(k, g, n)| == n
  {
    if n > 0 {
      ColsLength(k, g, n - 1);
    }
  }

  /** A row group takes an opening, a chunk a column, and a closing. */
  lemma {:induction false} GroupsLength(k: Config, g: nat)
    ensures |SerialGroups(k, g)| == g * (k.nc + 2)
  {
    if g > 0 {
      GroupsLength(k, g - 1);
      ColsLength(k, g - 1, k.nc);
      assert g * (k.nc + 2) == (g - 1) * (k.nc + 2) + (k.nc + 2);
    }
  }

  lemma GroupAt(k: Config, before: seq<FileOp>, g: nat, c: nat)
    requires c < k.nc
    ensures var ops := before + [OpenGroup] + SerialCols(k, g, k.nc) + [CloseGroup];
            && |ops| == |before| + k.nc + 2
            && ops[|before|] == OpenGroup && ops[|before| + 1 + k.nc] == CloseGroup
            && ops[|before| + 1 + c] == Append(ChunkOf(k, Task(k.nc, g, c)))
  {
    ColsAt(k, g, k.nc, c);
  }

  lemma SerialAt(k: Config, g: nat, c: nat)
    requires ValidConfig(k) && g < k.nrg && c < k.nc
    ensures var file, at := SerialGroups(k, k.nrg), g * (k.nc + 2);
            && |file| == k.nrg * (k.nc + 2) && at + k.nc + 1 < |file|
            && file[at] == OpenGroup && file[at + 1 + k.nc] == CloseGroup
            && file[at + 1 + c] == Append(ChunkOf(k, Task(k.nc, g, c)))
  {
    GroupsLength(k, k.nrg);
    GroupsLength(k, g);
    GroupAt(k, SerialGroups(k, g), g, c);
    GroupsPrefix(k, g + 1, k.nrg);
  }

  /** After a success the file holds, row group after row group, the encoded columns in order, and nothing else. */
  lemma OkFileAt(k: Config, n: nat, s: Sys, g: nat, c: nat)
    requires ValidConfig(k) && Reachable(k, n, s)
    requires s.m.Returned? && s.m.r.Ok? && g < k.nrg && c < k.nc
    ensures |s.file| == k.nrg * (k.nc + 2)
    ensures var at := g * (k.nc + 2);
            && at + k.nc + 1 < |s.file|
            && s.file[at] == OpenGroup && s.file[at + 1 + k.nc] == CloseGroup
            && s.file[at + 1 + c].Append? && k.encode(g * k.nc + c) == Encoded(s.file[at + 1 + c].chunk)
  {
    OkMeansSerialFile(k, n, s);
    TaskBound(k.nc, k.nrg, g, c);
    SerialAt(k, g, c);
  }

  lemma NothingHeldAtEnd(k: Config, s: Sys)
    requires ValidConfig(k) && Inv(k, s) && s.q.head == NTasks(k)
    ensures forall w | 0 <= w < |s.ws| :: Held(s.ws[w]).None?
  {
    forall w | 0 <= w < |s.ws|
      ensures Held(s.ws[w]).None?
    {
      assert Helds(s.ws)[w] == Held(s.ws[w]);
    }
  }

  /** Whatever fails, and wherever, nothing but a prefix of the serial file has been written. */
  lemma FileIsSerialSoFar(k: Config, n: nat, s: Sys)
    requires ValidConfig(k) && Reachable(k, n, s)
    ensures s.file <= SerialGroups(k, k.nrg)
  {
    ReachableInv(k, n, s);
    RightIsPrefix(k, s);
  }

  /** A column writer can never be missing when its task is claimed. */
  lemma WriterNeverLost(k: Config, n: nat, s: Sys, made: Option<string>)
    requires ValidConfig(k) && Reachable(k, n, s)
    ensures !LookQ(s.q, k.nc, NTasks(k), k.window, made).1.Lost?
  {
    ReachableInv(k, n, s);
    LookQKeeps(k, s.q, made);
  }

  /** Two workers never encode with the same column writer, nor the same task. */
  lemma WritersExclusive(k: Config, n: nat, s: Sys, v: nat, w: nat)
    requires ValidConfig(k) && Reachable(k, n, s)
    requires v < w < |s.ws| && s.ws[v].Encoding? && s.ws[w].Encoding?
    ensures s.ws[v].i != s.ws[w].i && s.ws[v].w != s.ws[w].w
  {
    ReachableInv(k, n, s);
    assert WorkerRight(k, s.ws[v]) && WorkerRight(k, s.ws[w]);
    assert Helds(s.ws)[v] != Helds(s.ws)[w];
    TaskJoin(k.nc, s.ws[v].i);
    TaskJoin(k.nc, s.ws[w].i);
  }
}
