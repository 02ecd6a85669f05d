/**
 Workers and master of the Parquet writer as one transition system.

 A state holds the queue, one program point per worker, the master's program
 point and the file so far.  One label is one atomic step: a lock section, or a
 piece of work done outside the lock.  Which thread steps next, which parked
 worker a `notify_one` wakes, whether the writer factory or the file layer fails
 and when a condition variable wakes spuriously are all free choices of the
 label, so a theorem about every label sequence is about every interleaving.
 */
module WriteProtocol {
  import opened Claims
  import opened Common
  import opened WriteQueue

  /** What encoding one task does. */
  datatype Outcome = Encoded(chunk: Bytes) | Failed(msg: string) | Panicked

  datatype Config = Config(nc: nat, nrg: nat, window: nat, encode: nat -> Outcome)

  ghost predicate ValidConfig(k: Config) {
    k.nc > 0 && k.nrg > 0 && k.window > 0
  }

  function NTasks(k: Config): nat {
    k.nrg * k.nc
  }

  /** The three steps of `fail`: record under the lock, then wake both condvars. */
  datatype Phase = Record(msg: string) | WakeWorkers | WakeMaster

  /** `task` is the claimed task a dying worker took with it, if any. */
  datatype Worker =
    | Looking
    | Parked
    | Encoding(i: nat, w: Writer)
    | Dying(phase: Phase, task: Option<nat>)
    | Exited(task: Option<nat>)

  datatype Master =
    | Opening(g: nat)
    | Awaiting(g: nat, c: nat)
    | Sleeping(g: nat, c: nat)
    | Appending(g: nat, c: nat, chunk: Bytes)
    | Closing(g: nat)
    | Failing(phase: Phase, msg: string)
    | Ending
    | Returned(r: Result<()>)

  datatype FileOp = OpenGroup | Append(chunk: Bytes) | CloseGroup

  datatype Sys = Sys(q: Q, ws: seq<Worker>, m: Master, file: seq<FileOp>)

  datatype Label =
    | Look(w: nat, made: Option<string>)
    | Encode(w: nat)
    | Die(w: nat)
    | WakeSpuriously(w: nat)
    | MasterOpen(error: Option<string>)
    | MasterLook(woken: Option<nat>)
    | MasterAppend(error: Option<string>)
    | MasterClose(error: Option<string>)
    | MasterDie
    | MasterEnd
    | MasterWakeSpuriously

  function Start(n: nat): Sys {
    Sys(EMPTY_QUEUE, seq(n, i => Looking), Opening(0), [])
  }

  function Woken(w: Worker): Worker {
    if w.Parked? then Looking else w
  }

  /** `work.notify_all` */
  function WakeAll(ws: seq<Worker>): seq<Worker> {
    seq(|ws|, i requires 0 <= i < |ws| => Woken(ws[i]))
  }

  /** A wake-up delivered to the master's condition variable. */
  function Roused(m: Master): Master {
    if m.Sleeping? then Awaiting(m.g, m.c) else m
  }

  ghost predicate Enabled(k: Config, s: Sys, l: Label) {
    match l
    case Look(w, _) => w < |s.ws| && s.ws[w].Looking?
    case Encode(w) => w < |s.ws| && s.ws[w].Encoding?
    case Die(w) => w < |s.ws| && s.ws[w].Dying?
    case WakeSpuriously(w) => w < |s.ws| && s.ws[w].Parked?
    case MasterOpen(_) => s.m.Opening?
    case MasterLook(woken) => s.m.Awaiting? && MayWake(s.ws, woken)
    case MasterAppend(_) => s.m.Appending?
    case MasterClose(_) => s.m.Closing?
    case MasterDie => s.m.Failing?
    case MasterEnd => s.m.Ending?
    case MasterWakeSpuriously => s.m.Sleeping?
  }

  /** `work.notify_one` may wake any one parked worker, and none only if none is parked. */
  ghost predicate MayWake(ws: seq<Worker>, woken: Option<nat>) {
    match woken
    case Some(w) => w < |ws| && ws[w].Parked?
    case None => forall w | 0 <= w < |ws| :: !ws[w].Parked?
  }

  ghost function Next(k: Config, s: Sys, l: Label): Sys
    requires ValidConfig(k) && Enabled(k, s, l)
  {
    match l
    case Look(w, made) => NextLook(k, s, w, made)
    case Encode(w) => NextEncode(k, s, w)
    case Die(w) => NextDie(s, w)
    case WakeSpuriously(w) => s.(ws := s.ws[w := Looking])
    case MasterOpen(error) =>
      if s.m.g >= k.nrg then s.(m := Ending)
      else if error.Some? then s.(m := Failing(Record(error.value), error.value))
      else s.(m := Awaiting(s.m.g, 0), file := s.file + [OpenGroup])
    case MasterLook(woken) => NextTake(k, s, woken)
    case MasterAppend(error) =>
      if error.Some? then s.(m := Failing(Record(error.value), error.value))
      else s.(m := if s.m.c + 1 < k.nc then Awaiting(s.m.g, s.m.c + 1) else Closing(s.m.g),
              file := s.file + [Append(s.m.chunk)])
    case MasterClose(error) =>
      if error.Some? then s.(m := Failing(Record(error.value), error.value))
      else s.(m := Opening(s.m.g + 1), file := s.file + [CloseGroup])
    case MasterDie =>
      (match s.m.phase
       case Record(e) => s.(q := RecordQ(s.q, e), m := Failing(WakeWorkers, s.m.msg))
       case WakeWorkers => s.(ws := WakeAll(s.ws), m := Failing(WakeMaster, s.m.msg))
       case WakeMaster => s.(m := Returned(Err(s.m.msg))))
    case MasterEnd => s.(ws := WakeAll(s.ws), m := Returned(Ok(())))
    case MasterWakeSpuriously => s.(m := Roused(s.m))
  }

  ghost function NextLook(k: Config, s: Sys, w: nat, made: Option<string>): Sys
    requires ValidConfig(k) && w < |s.ws| && s.ws[w].Looking?
  {
    var (q, claim) := LookQ(s.q, k.nc, NTasks(k), k.window, made);
    var p := match claim
      case Quit => Exited(None)
      case Wait => Parked
      case NoWriters(e) => Dying(Record(e), None)
      case Claimed(i, wr) => Encoding(i, wr)
      case Lost => Dying(Record("pq_write: writer lost"), None);
    s.(q := q, ws := s.ws[w := p])
  }

  /** Encoding touches no shared state, so it is one step with the deposit that follows it. */
  ghost function NextEncode(k: Config, s: Sys, w: nat): Sys
    requires w < |s.ws| && s.ws[w].Encoding?
  {
    var i := s.ws[w].i;
    match k.encode(i)
    case Encoded(chunk) => s.(q := DepositQ(s.q, i, chunk), ws := s.ws[w := Looking], m := Roused(s.m))
    case Failed(e) => s.(ws := s.ws[w := Dying(Record(e), Some(i))])
    case Panicked => s.(ws := s.ws[w := Dying(Record("pq_write: worker panic"), Some(i))])
  }

  ghost function NextDie(s: Sys, w: nat): Sys
    requires w < |s.ws| && s.ws[w].Dying?
  {
    var t := s.ws[w].task;
    match s.ws[w].phase
    case Record(e) => s.(q := RecordQ(s.q, e), ws := s.ws[w := Dying(WakeWorkers, t)])
    case WakeWorkers => s.(ws := WakeAll(s.ws[w := Dying(WakeMaster, t)]))
    case WakeMaster => s.(ws := s.ws[w := Exited(t)], m := Roused(s.m))
  }

  ghost function NextTake(k: Config, s: Sys, woken: Option<nat>): Sys
    requires s.m.Awaiting? && MayWake(s.ws, woken)
  {
    var (q, t) := TakeQ(s.q, Task(k.nc, s.m.g, s.m.c));
    match t
    case Got(chunk) =>
      s.(q := q, m := Appending(s.m.g, s.m.c, chunk),
         ws := if woken.Some? then s.ws[woken.value := Looking] else s.ws)
    case Stop(e) => s.(m := Returned(Err(e)))
    case Sleep => s.(m := Sleeping(s.m.g, s.m.c))
  }

  /** The states a label sequence passes through, the first one included. */
  ghost predicate IsRun(k: Config, n: nat, ls: seq<Label>, ss: seq<Sys>)
    requires ValidConfig(k)
  {
    && |ss| == |ls| + 1
    && ss[0] == Start(n)
    && forall j | 0 <= j < |ls| :: Enabled(k, ss[j], ls[j]) && ss[j + 1] == Next(k, ss[j], ls[j])
  }

  ghost predicate Reachable(k: Config, n: nat, s: Sys)
    requires ValidConfig(k)
  {
    exists ls, ss :: IsRun(k, n, ls, ss) && ss[|ls|] == s
  }

  // ---- what a serial writer would have produced ----

  /** Chunks of columns [0, c) of row group g, encoded one after another. */
  ghost function SerialCols(k: Config, g: nat, c: nat): seq<FileOp> {
    if c == 0 then []
    else SerialCols(k, g, c - 1) + [Append(ChunkOf(k, Task(k.nc, g, c - 1)))]
  }

  ghost function ChunkOf(k: Config, i: nat): Bytes {
    if k.encode(i).Encoded? then k.encode(i).chunk else []
  }

  ghost function SerialGroups(k: Config, g: nat): seq<FileOp> {
    if g == 0 then []
    else SerialGroups(k, g - 1) + [OpenGroup] + SerialCols(k, g - 1, k.nc) + [CloseGroup]
  }

  // ---- the invariant ----

  /** The task a worker answers for: the one it encodes, or the one it died with. */
  function Held(w: Worker): Option<nat> {
    match w
    case Encoding(i, _) => Some(i)
    case Dying(_, t) => t
    case Exited(t) => t
    case _ => None
  }

  function Helds(ws: seq<Worker>): seq<Option<nat>> {
    seq(|ws|, w requires 0 <= w < |ws| => Held(ws[w]))
  }

  /** `wr` holds exactly the half-claimed row group, with its unclaimed columns. */
  ghost predicate WritersExact(k: Config, q: Q)
    requires k.nc > 0
  {
    var g, c := q.next / k.nc, q.next % k.nc;
    q.wr == if c == 0 then map[] else map[g := HalfTaken(g, k.nc, c)]
  }

  function HalfTaken(g: nat, nc: nat, c: nat): seq<Option<Writer>> {
    seq(nc, j requires 0 <= j < nc => if j < c then None else Some(Writer(g, j)))
  }

  ghost predicate ChunksRight(k: Config, s: Sys)
    requires k.nc > 0
  {
    && (forall i | i in s.q.done :: k.encode(i) == Encoded(s.q.done[i]))
    && (forall w | 0 <= w < |s.ws| :: WorkerRight(k, s.ws[w]))
  }

  ghost predicate WorkerRight(k: Config, w: Worker)
    requires k.nc > 0
  {
    && (w.Encoding? ==> w.w == Writer(w.i / k.nc, w.i % k.nc))
    && (!w.Encoding? && Held(w).Some? ==> !k.encode(Held(w).value).Encoded?)
  }

  /** Where the master is fixes both how much was consumed and what is in the file. */
  ghost predicate MasterRight(k: Config, s: Sys) {
    match s.m
    case Opening(g) => g <= k.nrg && s.q.head == Task(k.nc, g, 0) && s.file == SerialGroups(k, g)
    case Awaiting(g, c) => InGroup(k, s, g, c) && s.q.head == Task(k.nc, g, c)
    case Sleeping(g, c) => InGroup(k, s, g, c) && s.q.head == Task(k.nc, g, c)
    case Appending(g, c, chunk) =>
      InGroup(k, s, g, c) && s.q.head == Task(k.nc, g, c) + 1 && k.encode(Task(k.nc, g, c)) == Encoded(chunk)
    case Closing(g) =>
      && g < k.nrg && s.q.head == Task(k.nc, g + 1, 0)
      && s.file == SerialGroups(k, g) + [OpenGroup] + SerialCols(k, g, k.nc)
    case Failing(_, _) => s.file <= SerialGroups(k, k.nrg)
    case Ending => s.q.head == NTasks(k) && s.file == SerialGroups(k, k.nrg)
    case Returned(r) =>
      if r.Ok? then s.q.head == NTasks(k) && s.file == SerialGroups(k, k.nrg)
      else s.file <= SerialGroups(k, k.nrg)
  }

  ghost predicate InGroup(k: Config, s: Sys, g: nat, c: nat) {
    && g < k.nrg && c < k.nc
    && s.file == SerialGroups(k, g) + [OpenGroup] + SerialCols(k, g, c)
  }

  /** Every consumed task was encoded. */
  ghost predicate ConsumedEncoded(k: Config, s: Sys) {
    forall i | 0 <= i < s.q.head :: k.encode(i).Encoded?
  }

  ghost predicate Inv(k: Config, s: Sys)
    requires k.nc > 0
  {
    && s.q.head <= s.q.next <= s.q.head + k.window
    && s.q.next <= NTasks(k)
    && Covered(s.q.head, s.q.next, s.q.done.Keys, Helds(s.ws))
    && WritersExact(k, s.q)
    && ChunksRight(k, s)
    && MasterRight(k, s)
    && ConsumedEncoded(k, s)
  }

  lemma StartInv(k: Config, n: nat)
    requires ValidConfig(k)
    ensures Inv(k, Start(n))
  {
    assert forall w | 0 <= w < n :: Start(n).ws[w] == Looking;
  }
}
