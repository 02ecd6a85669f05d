/**
 The process-wide list of parsed footers: a most-recently-used list under one lock,
 consulted before a file is parsed and filled after.
 */
module Footers {
  import opened Common
  import opened Mru

  /** What the filesystem says a file is. */
  datatype Key = Key(path: string, dev: nat, ino: nat, size: nat, sec: int, nsec: int)

  /** A parsed footer: metadata, rows of each row group, and the total it declares. */
  datatype Parsed = Parsed(md: nat, rows: seq<int>, declared: int)

  /** What a caller is given. */
  datatype Footer = Footer(md: nat, rows: seq<int>)

  type Footers = List<Key, Footer>

  const FOOTERS_MAX: nat := 32

  /** A load that never looks at the list.  `parse` reads the file a key identifies. */
  function Fresh(parse: Key -> Result<Parsed>, k: Key): Result<Footer> {
    match parse(k)
    case Err(e) => Err(e)
    case Ok(p) => if p.declared != Sum(p.rows) then Err("row counts disagree") else Ok(Footer(p.md, p.rows))
  }

  /** The parse's own metadata and rows, refused when they do not add up to what it declares. */
  ghost predicate AsParsed(p: Result<Parsed>, r: Result<Footer>) {
    match r
    case Ok(f) => p.Ok? && p.value.declared == Sum(p.value.rows) && f.md == p.value.md && f.rows == p.value.rows
    case Err(e) => p == Err(e) || (p.Ok? && p.value.declared != Sum(p.value.rows))
  }

  /** The first critical section. */
  function LookQ(l: Footers, k: Key): (Option<Footer>, Footers) {
    var i := Find(l, k);
    if i.Some? then (Some(l[i.value].1), ToFront(l, i.value)) else (None, l)
  }

  /** The second: two callers may have parsed one file, and the later must not store it twice. */
  function StoreQ(l: Footers, k: Key, f: Footer): Footers {
    if Find(l, k).Some? then l else PushFront(l, (k, f), FOOTERS_MAX)
  }

  ghost predicate Good(parse: Key -> Result<Parsed>, l: Footers) {
    && |l| <= FOOTERS_MAX && Distinct(Keys(l))
    && forall i | 0 <= i < |l| :: Fresh(parse, l[i].0) == Ok(l[i].1)
  }

  lemma LookKeeps(parse: Key -> Result<Parsed>, l: Footers, k: Key)
    requires Good(parse, l)
    ensures Good(parse, LookQ(l, k).1)
    ensures LookQ(l, k).0.Some? ==> Fresh(parse, k) == Ok(LookQ(l, k).0.value)
    ensures LookQ(l, k).0.Some? <==> k in Keys(l)
    ensures multiset(LookQ(l, k).1) == multiset(l)
  {
    var i := Find(l, k);
    if i.Some? {
      HitKeepsDistinct(l, i.value);
      HitKeepsOrder(l, i.value);
    }
  }

  lemma LookMoves(l: Footers, k: Key)
    requires Distinct(Keys(l)) && k in Keys(l)
    ensures Keys(LookQ(l, k).1) == [k] + Without(Keys(l), k)
  {
    var i := Find(l, k).value;
    WithoutAt(Keys(l), i);
    KeysMove(l, i);
  }

  lemma StoreKeeps(parse: Key -> Result<Parsed>, l: Footers, k: Key, f: Footer)
    requires Good(parse, l) && Fresh(parse, k) == Ok(f)
    ensures Good(parse, StoreQ(l, k, f)) && k in Keys(StoreQ(l, k, f))
    ensures forall e | e in l :: e in StoreQ(l, k, f) || (|l| == FOOTERS_MAX && e == l[FOOTERS_MAX - 1])
  {
    if Find(l, k).None? {
      MissKeepsDistinct(l, k, f, FOOTERS_MAX);
      EvictsLastOnly(l, (k, f), FOOTERS_MAX);
      assert forall e | e in l :: e in StoreQ(l, k, f)[1..] || (|l| == FOOTERS_MAX && e == l[FOOTERS_MAX - 1]);
      assert Keys(PushFront(l, (k, f), FOOTERS_MAX))[0] == k;
    }
  }

  class Cache {
    var footers: Footers

    constructor ()
      ensures footers == []
    {
      footers := [];
    }

    method Look(k: Key) returns (f: Option<Footer>)
      modifies this
      ensures (f, footers) == LookQ(old(footers), k)
    {
      f := None;
      var i := Find(footers, k);
      if i.Some? {
        footers := ToFront(footers, i.value);
        f := Some(footers[0].1);
      }
    }

    method Store(k: Key, f: Footer)
      modifies this
      ensures footers == StoreQ(old(footers), k, f)
    {
      if Find(footers, k).None? {
        footers := footers[..Min(|footers|, FOOTERS_MAX - 1)];
        footers := [(k, f)] + footers;
      }
    }

    /** `load` when no other thread is inside: the answer is a fresh one, and a rejected footer is not kept. */
    method Load(k: Key, parse: Key -> Result<Parsed>) returns (r: Result<Footer>)
      requires Good(parse, footers)
      modifies this
      ensures Good(parse, footers) && r == Fresh(parse, k) && AsParsed(parse(k), r)
      ensures r.Err? ==> footers == old(footers)
      ensures r.Ok? ==> footers == if k in Keys(old(footers)) then LookQ(old(footers), k).1
                                   else StoreQ(old(footers), k, r.value)
    {
      LookKeeps(parse, footers, k);
      var f := Look(k);
      if f.Some? {
        return Ok(f.value);
      }
      var p := parse(k);
      if p.Err? {
        return Err(p.error);
      }
      if p.value.declared != Sum(p.value.rows) {
        return Err("row counts disagree");
      }
      var g := Footer(p.value.md, p.value.rows);
      StoreKeeps(parse, footers, k, g);
      Store(k, g);
      r := Ok(g);
    }
  }

  // ---- many threads ----

  datatype Phase = Idle | Missed(k: Key) | Read(k: Key, f: Footer)

  /** `uses` and `answers` are the history: keys put in front, and what each load returned. */
  datatype Sys = Sys(footers: Footers, at: seq<Phase>, uses: seq<Key>, answers: seq<(Key, Result<Footer>)>)

  /** `locked` is false when the lock is poisoned, and the list is then passed by. */
  datatype Label = Look(t: nat, k: Key, locked: bool) | Parse(t: nat) | Store(t: nat, locked: bool)

  predicate Enabled(s: Sys, l: Label) {
    && l.t < |s.at|
    && match l
       case Look(t, _, _) => s.at[t].Idle?
       case Parse(t) => s.at[t].Missed?
       case Store(t, _) => s.at[t].Read?
  }

  function Answer(s: Sys, t: nat, k: Key, r: Result<Footer>): Sys
    requires t < |s.at|
  {
    s.(at := s.at[t := Idle], answers := s.answers + [(k, r)])
  }

  function Next(parse: Key -> Result<Parsed>, s: Sys, l: Label): Sys
    requires Enabled(s, l)
  {
    match l
    case Look(t, k, locked) =>
      var (f, now) := LookQ(s.footers, k);
      if locked && f.Some? then Answer(s.(footers := now, uses := s.uses + [k]), t, k, Ok(f.value))
      else s.(at := s.at[t := Missed(k)])
    case Parse(t) =>
      var k := s.at[t].k;
      (match Fresh(parse, k)
       case Err(e) => Answer(s, t, k, Err(e))
       case Ok(f) => s.(at := s.at[t := Read(k, f)]))
    case Store(t, locked) =>
      var Read(k, f) := s.at[t];
      if locked then
        Answer(s.(footers := StoreQ(s.footers, k, f), uses := UsesAfter(s.footers, s.uses, k)), t, k, Ok(f))
      else Answer(s, t, k, Ok(f))
  }

  predicate IsRun(parse: Key -> Result<Parsed>, s: Sys, ls: seq<Label>)
    decreases |ls|
  {
    ls == [] || (Enabled(s, ls[0]) && IsRun(parse, Next(parse, s, ls[0]), ls[1..]))
  }

  function Run(parse: Key -> Result<Parsed>, s: Sys, ls: seq<Label>): Sys
    requires IsRun(parse, s, ls)
    decreases |ls|
  {
    if ls == [] then s else Run(parse, Next(parse, s, ls[0]), ls[1..])
  }

  function Start(threads: nat): Sys {
    Sys([], seq(threads, t => Idle), [], [])
  }

  ghost predicate Inv(parse: Key -> Result<Parsed>, s: Sys) {
    && Good(parse, s.footers)
    && Keys(s.footers) == Top(Recency(s.uses), FOOTERS_MAX)
    && (forall t | 0 <= t < |s.at| && s.at[t].Read? :: Fresh(parse, s.at[t].k) == Ok(s.at[t].f))
    && (forall i | 0 <= i < |s.answers| :: s.answers[i].1 == Fresh(parse, s.answers[i].0))
  }

  /** A use of a key the list holds keeps the list the latest used. */
  lemma HitIsRecent(l: Footers, uses: seq<Key>, k: Key)
    requires Keys(l) == Top(Recency(uses), FOOTERS_MAX) && Find(l, k).Some?
    ensures Keys(LookQ(l, k).1) == Top(Recency(uses + [k]), FOOTERS_MAX)
  {
    var i := Find(l, k).value;
    RecencyDistinct(uses);
    assert (uses + [k])[..|uses|] == uses;
    assert Keys(l)[i] == Recency(uses)[i] == k;
    TopHit(Recency(uses), i, FOOTERS_MAX);
    KeysMove(l, i);
  }

  lemma MissIsRecent(l: Footers, uses: seq<Key>, k: Key, f: Footer)
    requires Keys(l) == Top(Recency(uses), FOOTERS_MAX) && Find(l, k).None?
    ensures Keys(StoreQ(l, k, f)) == Top(Recency(uses + [k]), FOOTERS_MAX)
  {
    RecencyDistinct(uses);
    assert (uses + [k])[..|uses|] == uses;
    TopMiss(Recency(uses), k, FOOTERS_MAX);
    KeysPush(l, (k, f), FOOTERS_MAX);
  }

  /** A load that answers as a fresh one would, and leaves a good list behind, keeps all. */
  lemma AnswerKeeps(
    parse: Key -> Result<Parsed>, s: Sys, l: Footers, uses: seq<Key>, t: nat, k: Key, r: Result<Footer>)
    requires Inv(parse, s) && t < |s.at|
    requires Good(parse, l) && Keys(l) == Top(Recency(uses), FOOTERS_MAX)
    requires r == Fresh(parse, k)
    ensures Inv(parse, Answer(s.(footers := l, uses := uses), t, k, r))
  {}

  lemma LookInv(parse: Key -> Result<Parsed>, s: Sys, t: nat, k: Key, locked: bool)
    requires Inv(parse, s) && Enabled(s, Look(t, k, locked))
    ensures Inv(parse, Next(parse, s, Look(t, k, locked)))
  {
    LookKeeps(parse, s.footers, k);
    if locked && Find(s.footers, k).Some? {
      HitIsRecent(s.footers, s.uses, k);
      AnswerKeeps(parse, s, LookQ(s.footers, k).1, s.uses + [k], t, k, Fresh(parse, k));
    }
  }

  lemma ParseInv(parse: Key -> Result<Parsed>, s: Sys, t: nat)
    requires Inv(parse, s) && Enabled(s, Parse(t))
    ensures Inv(parse, Next(parse, s, Parse(t)))
  {
    var k := s.at[t].k;
    if Fresh(parse, k).Err? {
      AnswerKeeps(parse, s, s.footers, s.uses, t, k, Fresh(parse, k));
    }
  }

  /** What a store adds to the history of uses. */
  function UsesAfter(l: Footers, uses: seq<Key>, k: Key): seq<Key> {
    if Find(l, k).Some? then uses else uses + [k]
  }

  lemma StoreUses(parse: Key -> Result<Parsed>, l: Footers, uses: seq<Key>, k: Key, f: Footer)
    requires Good(parse, l) && Keys(l) == Top(Recency(uses), FOOTERS_MAX) && Fresh(parse, k) == Ok(f)
    ensures Good(parse, StoreQ(l, k, f)) && Keys(StoreQ(l, k, f)) == Top(Recency(UsesAfter(l, uses, k)), FOOTERS_MAX)
  {
    StoreKeeps(parse, l, k, f);
    if Find(l, k).None? {
      MissIsRecent(l, uses, k, f);
    }
  }

  lemma StoreInv(parse: Key -> Result<Parsed>, s: Sys, t: nat, locked: bool)
    requires Inv(parse, s) && Enabled(s, Store(t, locked))
    ensures Inv(parse, Next(parse, s, Store(t, locked)))
  {
    var Read(k, f) := s.at[t];
    StoreUses(parse, s.footers, s.uses, k, f);
    if locked {
      AnswerKeeps(parse, s, StoreQ(s.footers, k, f), UsesAfter(s.footers, s.uses, k), t, k, Ok(f));
    } else {
      AnswerKeeps(parse, s, s.footers, s.uses, t, k, Ok(f));
    }
  }

  lemma InvKept(parse: Key -> Result<Parsed>, s: Sys, l: Label)
    requires Inv(parse, s) && Enabled(s, l)
    ensures Inv(parse, Next(parse, s, l))
  {
    match l {
      case Look(t, k, locked) => LookInv(parse, s, t, k, locked);
      case Parse(t) => ParseInv(parse, s, t);
      case Store(t, locked) => StoreInv(parse, s, t, locked);
    }
  }

  lemma {:induction false} RunKeeps(parse: Key -> Result<Parsed>, s: Sys, ls: seq<Label>)
    requires Inv(parse, s) && IsRun(parse, s, ls)
    ensures Inv(parse, Run(parse, s, ls))
    decreases |ls|
  {
    if ls != [] {
      InvKept(parse, s, ls[0]);
      RunKeeps(parse, Next(parse, s, ls[0]), ls[1..]);
    }
  }

  /** Whatever the threads do, every load answers what a fresh parse answers. */
  lemma EveryAnswerIsFresh(parse: Key -> Result<Parsed>, threads: nat, ls: seq<Label>)
    requires IsRun(parse, Start(threads), ls)
    ensures var s := Run(parse, Start(threads), ls);
            forall i | 0 <= i < |s.answers| ::
              s.answers[i].1 == Fresh(parse, s.answers[i].0) && AsParsed(parse(s.answers[i].0), s.answers[i].1)
  {
    RunKeeps(parse, Start(threads), ls);
  }

  /** What a step does to the list: a use of a key it holds brings that to the front, a new one displaces the last of 32. */
  lemma StepMovesKey(parse: Key -> Result<Parsed>, s: Sys, l: Label)
    requires Inv(parse, s) && Enabled(s, l)
    ensures var now := Next(parse, s, l);
            if l.Look? && l.locked && l.k in Keys(s.footers) then
              Keys(now.footers) == [l.k] + Without(Keys(s.footers), l.k) && now.uses == s.uses + [l.k]
            else if l.Store? && l.locked && s.at[l.t].k !in Keys(s.footers) then
              Keys(now.footers) == [s.at[l.t].k] + Top(Keys(s.footers), 31) && now.uses == s.uses + [s.at[l.t].k]
            else now.footers == s.footers && now.uses == s.uses
  {
    if l.Look? && l.k in Keys(s.footers) {
      LookMoves(s.footers, l.k);
    } else if l.Store? && Find(s.footers, s.at[l.t].k).None? {
      KeysPush(s.footers, (s.at[l.t].k, s.at[l.t].f), FOOTERS_MAX);
    }
  }

  /** The list holds exactly the 32 files used last, each once, the latest first. */
  lemma ListIsLatestUsed(parse: Key -> Result<Parsed>, threads: nat, ls: seq<Label>)
    requires IsRun(parse, Start(threads), ls)
    ensures var s := Run(parse, Start(threads), ls);
            && |s.footers| <= 32 && Distinct(Keys(s.footers))
            && Keys(s.footers) == Top(Recency(s.uses), 32)
  {
    RunKeeps(parse, Start(threads), ls);
  }

  /** A footer whose row counts disagree is never in the list. */
  lemma RejectedNeverStored(parse: Key -> Result<Parsed>, threads: nat, ls: seq<Label>, k: Key)
    requires IsRun(parse, Start(threads), ls)
    requires parse(k).Ok? ==> parse(k).value.declared != Sum(parse(k).value.rows)
    ensures k !in Keys(Run(parse, Start(threads), ls).footers)
  {
    RunKeeps(parse, Start(threads), ls);
  }
}
