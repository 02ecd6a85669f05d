/**
 Symbol columns: the per-worker cache that answers repeats without the host, the
 dictionary tables it remembers, and the writer's dictionary build.

 A symbol stands for its interned pointer: two pointers are equal exactly when
 their texts are.
 */
module Symbols {
  import opened Bitmaps
  import opened Common
  import opened Mru
  import opened Words

  datatype Sym = Sym(text: Bytes)

  /** The host's intern table. */
  function Intern(b: Bytes): Sym {
    Sym(b)
  }

  /** The empty symbol, which nulls read as. */
  function Empty(): Sym {
    Intern([])
  }

  const SLOTS: nat := 4096
  const LONG: nat := 4096
  const DICTS: nat := 4

  datatype Slot = Slot(tag: nat, len: nat, sym: Sym)

  /** Text of a string that may be null. */
  function TextOf(s: Option<Bytes>): Bytes {
    if s.None? then [] else s.value
  }

  /** A dictionary's values as symbols. */
  function TableOf(values: seq<Option<Bytes>>): seq<Sym> {
    seq(|values|, i requires 0 <= i < |values| => Intern(TextOf(values[i])))
  }

  /** What row `i` of a dictionary column says: a null slot or a key out of range says null. */
  function Logical(values: seq<Option<Bytes>>, key: int, present: bool): Option<Bytes> {
    if present && 0 <= key < |values| then values[key] else None
  }

  /**
   One worker's cache.  Dictionaries are named by identity; `contents` is what
   lies behind a name, which cannot change while an entry keeps it alive.  `hash`
   is any function at all.
   */
  class SymCache {
    const hash: Bytes -> nat
    const contents: nat -> seq<Option<Bytes>>
    const slots: array<Option<Slot>>
    var dicts: List<nat, seq<Sym>>

    /** A filled slot holds a symbol of exactly the length it claims. */
    ghost predicate Valid()
      reads this, slots
    {
      && slots.Length == SLOTS
      && (forall i | 0 <= i < SLOTS && slots[i].Some? :: slots[i].value.len == |slots[i].value.sym.text|)
      && |dicts| <= DICTS && Distinct(Keys(dicts))
      && (forall i | 0 <= i < |dicts| :: dicts[i].1 == TableOf(contents(dicts[i].0)))
    }

    constructor (hash: Bytes -> nat, contents: nat -> seq<Option<Bytes>>)
      ensures Valid() && fresh(slots) && dicts == []
      ensures this.contents == contents
    {
      this.hash, this.contents, this.dicts := hash, contents, [];
      slots := new Option<Slot>[SLOTS](i => None);
    }

    /** The interned symbol for `b`, from the cache when it is already there. */
    method Get(b: Bytes) returns (p: Sym)
      requires Valid()
      modifies slots
      ensures Valid() && p == Intern(b)
    {
      if |b| >= LONG {
        return Intern(b);
      }
      var h := hash(b);
      var i := h % SLOTS;
      var tag := h / 0x1_0000_0000;
      if slots[i].Some? && slots[i].value.tag == tag && slots[i].value.len == |b|
         && slots[i].value.sym.text[..|b|] == b
      {
        return slots[i].value.sym;
      }
      p := Intern(b);
      slots[i] := Some(Slot(tag, |b|, p));
    }

    /** One table entry per dictionary value, each resolved through the cache. */
    method BuildTable(values: seq<Option<Bytes>>, empty: Sym) returns (t: seq<Sym>)
      requires Valid() && empty == Empty()
      modifies slots
      ensures Valid() && t == TableOf(values)
    {
      t := [];
      for k := 0 to |values|
        invariant Valid() && t == TableOf(values[..k])
      {
        var s := empty;
        if values[k].Some? {
          s := Get(values[k].value);
        }
        t := t + [s];
        assert values[..k + 1][..k] == values[..k];
      }
      assert values[..|values|] == values;
    }

    /** The symbol table of dictionary `id`, built once while it stays among the last four used. */
    method DictTable(id: nat, empty: Sym) returns (t: seq<Sym>)
      requires Valid() && empty == Empty()
      modifies this`dicts, slots
      ensures Valid() && t == TableOf(contents(id))
      ensures Find(old(dicts), id).Some? ==> dicts == ToFront(old(dicts), Find(old(dicts), id).value)
      ensures Find(old(dicts), id).None? ==> dicts == PushFront(old(dicts), (id, t), 4)
    {
      var i := Find(dicts, id);
      if i.Some? {
        HitKeepsDistinct(dicts, i.value);
        dicts := ToFront(dicts, i.value);
        return dicts[0].1;
      }
      t := BuildTable(contents(id), empty);
      MissKeepsDistinct(dicts, id, t, DICTS);
      dicts := PushFront(dicts, (id, t), DICTS);
    }

    /** `fill_sym_dict`: gather interned symbols through the keys, then blank the null rows. */
    method FillDict(id: nat, keys: seq<int>, nulls: Option<seq<Word>>, d: array<Sym>, off: nat)
      requires Valid() && off + |keys| <= d.Length && (d as object) != slots
      requires nulls.Some? ==> DivCeil(|keys|, 64) <= |nulls.value| && |keys| <= 64 * |nulls.value|
      modifies this`dicts, slots, d
      ensures Valid()
      ensures forall j | off <= j < off + |keys| ::
                d[j] == Intern(TextOf(Logical(contents(id), keys[j - off], nulls.Some? ==> At(nulls.value, j - off))))
      ensures forall j | 0 <= j < d.Length && !(off <= j < off + |keys|) :: d[j] == old(d[j])
    {
      var empty := Get([]);
      var tbl := DictTable(id, empty);
      GatherTable(tbl, empty, keys, d, off);
      if nulls.Some? {
        var seen := EachNull(nulls.value, |keys|);
        Blank(seen, empty, d, off, |keys|);
        forall i: nat | i < |keys|
          ensures i in seen <==> !At(nulls.value, i)
        {
          assert Read(nulls.value, |keys|)[i] == At(nulls.value, i);
        }
      }
    }

    /** `fill_sym_plain`: one probe per row. */
    method FillPlain(strs: seq<Option<Bytes>>, d: array<Sym>, off: nat)
      requires Valid() && off + |strs| <= d.Length && (d as object) != slots
      modifies slots, d
      ensures Valid()
      ensures forall j | off <= j < off + |strs| :: d[j] == Intern(TextOf(strs[j - off]))
      ensures forall j | 0 <= j < d.Length && !(off <= j < off + |strs|) :: d[j] == old(d[j])
    {
      var empty := Get([]);
      for i := off to off + |strs|
        invariant Valid()
        invariant forall j | off <= j < i :: d[j] == Intern(TextOf(strs[j - off]))
        invariant forall j | 0 <= j < d.Length && !(off <= j < i) :: d[j] == old(d[j])
      {
        if strs[i - off].Some? {
          var s := Get(strs[i - off].value);
          d[i] := s;
        } else {
          d[i] := empty;
        }
      }
    }
  }

  method GatherTable(tbl: seq<Sym>, empty: Sym, keys: seq<int>, d: array<Sym>, off: nat)
    requires off + |keys| <= d.Length
    modifies d
    ensures forall j | off <= j < off + |keys| ::
              d[j] == if 0 <= keys[j - off] < |tbl| then tbl[keys[j - off]] else empty
    ensures forall j | 0 <= j < d.Length && !(off <= j < off + |keys|) :: d[j] == old(d[j])
  {
    for i := off to off + |keys|
      invariant forall j | off <= j < i :: d[j] == if 0 <= keys[j - off] < |tbl| then tbl[keys[j - off]] else empty
      invariant forall j | 0 <= j < d.Length && !(off <= j < i) :: d[j] == old(d[j])
    {
      var k := keys[i - off];
      d[i] := if 0 <= k < |tbl| then tbl[k] else empty;
    }
  }

  // ---- writing ----

  /** A written symbol column: distinct values, one key a row, and a flag a row when some are null. */
  datatype DictColumn = DictColumn(vals: seq<Bytes>, keys: seq<nat>, nulls: Option<seq<bool>>)

  /** `ids` knows every symbol met so far: its place in `vals`, or -1 when its bytes are not UTF-8. */
  ghost predicate IdsRight(ids: map<Sym, int>, vals: seq<Bytes>, utf8: Bytes -> bool) {
    && (forall s | s in ids ::
          if utf8(s.text) then 0 <= ids[s] < |vals| && vals[ids[s]] == s.text else ids[s] == -1)
    && (forall v | 0 <= v < |vals| :: Sym(vals[v]) in ids && ids[Sym(vals[v])] == v)
  }

  /** Rows [0, n) encoded: keys point at the row's text, flags say which rows have one. */
  ghost predicate RowsRight(
    src: seq<Sym>, n: nat, utf8: Bytes -> bool, vals: seq<Bytes>, keys: seq<nat>, nulls: Option<seq<bool>>)
    requires n <= |src|
  {
    && |keys| == n
    && (forall i | 0 <= i < n :: utf8(src[i].text) ==> keys[i] < |vals| && vals[keys[i]] == src[i].text)
    && (forall i | 0 <= i < n :: !utf8(src[i].text) ==> keys[i] == 0)
    && (nulls.None? <==> forall i | 0 <= i < n :: utf8(src[i].text))
    && (nulls.Some? ==> |nulls.value| == n && forall i | 0 <= i < n :: nulls.value[i] == utf8(src[i].text))
  }

  /** Texts of the symbols that can be spelled. */
  function Spelled(src: seq<Sym>, utf8: Bytes -> bool): seq<Bytes> {
    if src == [] then []
    else
      var n := |src| - 1;
      Spelled(src[..n], utf8) + if utf8(src[n].text) then [src[n].text] else []
  }

  /** After the rows `src` every symbol met has an id, and the values are in first-seen order. */
  ghost predicate Seen(src: seq<Sym>, ids: map<Sym, int>, vals: seq<Bytes>, utf8: Bytes -> bool) {
    (forall s :: s in ids <==> s in src) && vals == FirstSeen(Spelled(src, utf8))
  }

  lemma {:induction false} SpelledMembers(src: seq<Sym>, utf8: Bytes -> bool, t: Bytes)
    ensures t in Spelled(src, utf8) <==> utf8(t) && Sym(t) in src
  {
    if src != [] {
      var n := |src| - 1;
      SpelledMembers(src[..n], utf8, t);
      assert src == src[..n] + [src[n]];
    }
  }

  lemma SpelledMore(src: seq<Sym>, p: Sym, utf8: Bytes -> bool)
    ensures FirstSeen(Spelled(src + [p], utf8)) ==
            FirstSeen(Spelled(src, utf8)) + if utf8(p.text) && p !in src then [p.text] else []
  {
    assert (src + [p])[..|src|] == src;
    SpelledMembers(src, utf8, p.text);
    if utf8(p.text) {
      FirstSeenMore(Spelled(src, utf8), p.text);
    } else {
      assert Spelled(src, utf8) + [] == Spelled(src, utf8);
    }
  }

  /** The texts come in the order their first rows come. */
  lemma {:induction false} DictionaryOrder(src: seq<Sym>, utf8: Bytes -> bool)
    ensures var f := FirstSeen(Spelled(src, utf8));
            forall i, j, q | 0 <= i < j < |f| && 0 <= q < |src| && src[q] == Sym(f[j]) :: Sym(f[i]) in src[..q]
  {
    if src != [] {
      var n := |src| - 1;
      var f, before := FirstSeen(Spelled(src, utf8)), FirstSeen(Spelled(src[..n], utf8));
      DictionaryOrder(src[..n], utf8);
      assert src[..n] + [src[n]] == src;
      SpelledMore(src[..n], src[n], utf8);
      forall i, j, q | 0 <= i < j < |f| && 0 <= q < |src| && src[q] == Sym(f[j])
        ensures Sym(f[i]) in src[..q]
      {
        assert f[i] == before[i];
        FirstSeenMembers(Spelled(src[..n], utf8), f[i]);
        SpelledMembers(src[..n], utf8, f[i]);
        if j < |before| {
          FirstSeenMembers(Spelled(src[..n], utf8), f[j]);
          SpelledMembers(src[..n], utf8, f[j]);
          var p: nat := if q < n then q else FirstRow(src[..n], Sym(f[j]));
          assert src[..n][p] == Sym(f[j]) && src[..n][..p] == src[..p];
        }
      }
    }
  }

  ghost function FirstRow(src: seq<Sym>, p: Sym): (i: nat)
    requires p in src
    ensures i < |src| && src[i] == p
  {
    var i :| 0 <= i < |src| && src[i] == p;
    i
  }

  lemma SeenMore(
    src: seq<Sym>, p: Sym, ids: map<Sym, int>, vals: seq<Bytes>, ids': map<Sym, int>, vals': seq<Bytes>, utf8: Bytes -> bool)
    requires Seen(src, ids, vals, utf8) && ids'.Keys == ids.Keys + {p}
    requires vals' == vals + if utf8(p.text) && p !in ids then [p.text] else []
    ensures Seen(src + [p], ids', vals', utf8)
  {
    SpelledMore(src, p, utf8);
    assert forall s :: s in ids' <==> s in ids'.Keys;
  }

  /** The id of `p`, from `ids` or newly given. */
  method IdOf(p: Sym, ids: map<Sym, int>, vals: seq<Bytes>, utf8: Bytes -> bool)
    returns (id: int, ids': map<Sym, int>, vals': seq<Bytes>)
    requires IdsRight(ids, vals, utf8)
    ensures IdsRight(ids', vals', utf8) && p in ids' && ids'[p] == id
    ensures ids'.Keys == ids.Keys + {p}
    ensures vals' == vals + if utf8(p.text) && p !in ids then [p.text] else []
    ensures if utf8(p.text) then 0 <= id < |vals'| && vals'[id] == p.text else id == -1
  {
    ids', vals' := ids, vals;
    if p in ids {
      id := ids[p];
    } else if utf8(p.text) {
      vals' := vals + [p.text];
      id := |vals'| - 1;
      ids' := ids[p := id];
    } else {
      id := -1;
      ids' := ids[p := -1];
    }
  }

  /** The id of one row's symbol: the row before's when it is the same symbol. */
  method RowId(last: Option<(Sym, int)>, p: Sym, ids: map<Sym, int>, vals: seq<Bytes>, utf8: Bytes -> bool)
    returns (id: int, ids': map<Sym, int>, vals': seq<Bytes>)
    requires IdsRight(ids, vals, utf8)
    requires last.Some? ==> last.value.0 in ids && ids[last.value.0] == last.value.1
    ensures IdsRight(ids', vals', utf8) && p in ids' && ids'[p] == id
    ensures ids'.Keys == ids.Keys + {p}
    ensures vals' == vals + if utf8(p.text) && p !in ids then [p.text] else []
    ensures if utf8(p.text) then 0 <= id < |vals'| && vals'[id] == p.text else id == -1
  {
    if last.Some? && p == last.value.0 {
      id, ids', vals' := last.value.1, ids, vals;
    } else {
      id, ids', vals' := IdOf(p, ids, vals, utf8);
    }
  }

  /** The null builder after row `i`: created by the first null, with a prefix of valid rows behind it. */
  function NextNulls(nulls: Option<seq<bool>>, i: nat, id: int): Option<seq<bool>> {
    var b := if id < 0 && nulls.None? then Some(seq(i, j => true)) else nulls;
    if b.Some? then Some(b.value + [id >= 0]) else None
  }

  lemma RowAdded(
    src: seq<Sym>, i: nat, utf8: Bytes -> bool, was: seq<Bytes>, vals: seq<Bytes>,
    keys: seq<nat>, nulls: Option<seq<bool>>, id: int)
    requires i < |src| && RowsRight(src, i, utf8, was, keys, nulls) && was <= vals
    requires if utf8(src[i].text) then 0 <= id < |vals| && vals[id] == src[i].text else id == -1
    ensures RowsRight(src, i + 1, utf8, vals, keys + [Max(id, 0)], NextNulls(nulls, i, id))
  {}

  /** The dictionary of a written column: each text once, first seen first, and one empty slot when nothing can be spelled. */
  function DictValues(src: seq<Sym>, utf8: Bytes -> bool): seq<Bytes> {
    var seen := FirstSeen(Spelled(src, utf8));
    if seen == [] && src != [] then [[]] else seen
  }

  /** `col_sym`: one map lookup a row, none for a repeat of the row before. */
  method ColSym(src: seq<Sym>, utf8: Bytes -> bool) returns (c: DictColumn)
    ensures RowsRight(src, |src|, utf8, c.vals, c.keys, c.nulls)
    ensures forall i | 0 <= i < |src| :: c.keys[i] < |c.vals|
    ensures forall v, w | 0 <= v < w < |c.vals| :: c.vals[v] != c.vals[w]
    ensures c.vals == DictValues(src, utf8)
  {
    var vals, keys, nulls := ColRows(src, utf8);
    if vals == [] && keys != [] {
      vals := [[]];
    }
    c := DictColumn(vals, keys, nulls);
  }

  /** All that is known after rows [0, i). */
  ghost predicate After(
    src: seq<Sym>, i: nat, utf8: Bytes -> bool, ids: map<Sym, int>, vals: seq<Bytes>, keys: seq<nat>, nulls: Option<seq<bool>>)
    requires i <= |src|
  {
    IdsRight(ids, vals, utf8) && Seen(src[..i], ids, vals, utf8) && RowsRight(src, i, utf8, vals, keys, nulls)
  }

  lemma RowDone(
    src: seq<Sym>, i: nat, utf8: Bytes -> bool, ids: map<Sym, int>, vals: seq<Bytes>, keys: seq<nat>,
    nulls: Option<seq<bool>>, id: int, ids': map<Sym, int>, vals': seq<Bytes>)
    requires i < |src| && After(src, i, utf8, ids, vals, keys, nulls)
    requires IdsRight(ids', vals', utf8) && ids'.Keys == ids.Keys + {src[i]}
    requires vals' == vals + if utf8(src[i].text) && src[i] !in ids then [src[i].text] else []
    requires if utf8(src[i].text) then 0 <= id < |vals'| && vals'[id] == src[i].text else id == -1
    ensures After(src, i + 1, utf8, ids', vals', keys + [Max(id, 0)], NextNulls(nulls, i, id))
  {
    assert src[..i + 1] == src[..i] + [src[i]];
    SeenMore(src[..i], src[i], ids, vals, ids', vals', utf8);
    RowAdded(src, i, utf8, vals, vals', keys, nulls, id);
  }

  lemma AllDone(
    src: seq<Sym>, utf8: Bytes -> bool, ids: map<Sym, int>, vals: seq<Bytes>, keys: seq<nat>, nulls: Option<seq<bool>>)
    requires After(src, |src|, utf8, ids, vals, keys, nulls)
    ensures RowsRight(src, |src|, utf8, vals, keys, nulls) && vals == FirstSeen(Spelled(src, utf8))
    ensures forall v, w | 0 <= v < w < |vals| :: vals[v] != vals[w]
    ensures vals == [] ==> forall i | 0 <= i < |src| :: !utf8(src[i].text)
  {
    assert src[..|src|] == src;
    assert forall i | 0 <= i < |src| && utf8(src[i].text) :: keys[i] < |vals|;
  }

  /** The row loop of `col_sym`. */
  method ColRows(src: seq<Sym>, utf8: Bytes -> bool) returns (vals: seq<Bytes>, keys: seq<nat>, nulls: Option<seq<bool>>)
    ensures RowsRight(src, |src|, utf8, vals, keys, nulls) && vals == FirstSeen(Spelled(src, utf8))
    ensures forall v, w | 0 <= v < w < |vals| :: vals[v] != vals[w]
    ensures vals == [] ==> forall i | 0 <= i < |src| :: !utf8(src[i].text)
  {
    var ids: map<Sym, int> := map[];
    vals, keys, nulls := [], [], None;
    var last: Option<(Sym, int)> := None;
    for i := 0 to |src|
      invariant After(src, i, utf8, ids, vals, keys, nulls)
      invariant last.Some? ==> last.value.0 in ids && ids[last.value.0] == last.value.1
    {
      var id, ids', vals' := RowId(last, src[i], ids, vals, utf8);
      RowDone(src, i, utf8, ids, vals, keys, nulls, id, ids', vals');
      last := Some((src[i], id));
      ids, vals := ids', vals';
      nulls := NextNulls(nulls, i, id);
      keys := keys + [Max(id, 0)];
    }
    AllDone(src, utf8, ids, vals, keys, nulls);
  }

  /** The bitmap a list of flags packs into. */
  function Pack(flags: seq<bool>): seq<Word> {
    seq(DivCeil(|flags|, 64), j requires 0 <= j < DivCeil(|flags|, 64) =>
      seq(64, i requires 0 <= i < 64 => 64 * j + i < |flags| && flags[64 * j + i]))
  }

  lemma PackSays(flags: seq<bool>)
    ensures Says(Pack(flags), flags)
  {
    forall i: nat | i < 64 * |Pack(flags)|
      ensures At(Pack(flags), i) == (i < |flags| && flags[i])
    {
      assert 64 * (i / 64) + i % 64 == i;
    }
  }

  /** A symbol the writer can spell in UTF-8 comes back, the others come back empty. */
  function SymBack(s: Sym, utf8: Bytes -> bool): Sym {
    if utf8(s.text) then s else Empty()
  }

  /**
   `col_sym` then `fill_sym_dict`, whatever the reading cache already holds: the
   identity on every symbol the writer can spell.
   */
  method SymbolsComeBack(src: seq<Sym>, utf8: Bytes -> bool, cache: SymCache, id: nat) returns (out: seq<Sym>)
    requires cache.Valid()
    requires cache.contents(id) == seq(|DictValues(src, utf8)|, v requires 0 <= v < |DictValues(src, utf8)| => Some(DictValues(src, utf8)[v]))
    modifies cache`dicts, cache.slots
    ensures cache.Valid()
    ensures |out| == |src| && forall i | 0 <= i < |src| :: out[i] == SymBack(src[i], utf8)
  {
    var c := ColSym(src, utf8);
    var words := if c.nulls.Some? then Some(Pack(c.nulls.value)) else None;
    if c.nulls.Some? {
      PackSays(c.nulls.value);
    }
    out := DictColumnOf(cache, id, c.keys, words);
  }

  /**
   The dictionary path and the plain path fill the same column from the same
   logical strings, whatever either cache already holds.
   */
  method BothPathsAgree(
    cache: SymCache, other: SymCache, id: nat, keys: seq<int>, nulls: Option<seq<Word>>, strs: seq<Option<Bytes>>)
    returns (a: seq<Sym>, b: seq<Sym>)
    requires cache.Valid() && other.Valid() && cache.slots != other.slots
    requires nulls.Some? ==> DivCeil(|keys|, 64) <= |nulls.value| && |keys| <= 64 * |nulls.value|
    requires |strs| == |keys| && forall i | 0 <= i < |keys| ::
               TextOf(strs[i]) == TextOf(Logical(cache.contents(id), keys[i], nulls.Some? ==> At(nulls.value, i)))
    modifies cache`dicts, cache.slots, other.slots
    ensures a == b == seq(|strs|, i requires 0 <= i < |strs| => Intern(TextOf(strs[i])))
  {
    a := DictColumnOf(cache, id, keys, nulls);
    b := PlainColumnOf(other, strs);
    assert forall i | 0 <= i < |strs| :: a[i] == Intern(TextOf(strs[i]));
  }

  /** A dictionary batch read into a column of its own. */
  method DictColumnOf(cache: SymCache, id: nat, keys: seq<int>, nulls: Option<seq<Word>>) returns (a: seq<Sym>)
    requires cache.Valid()
    requires nulls.Some? ==> DivCeil(|keys|, 64) <= |nulls.value| && |keys| <= 64 * |nulls.value|
    modifies cache`dicts, cache.slots
    ensures cache.Valid() && |a| == |keys|
    ensures forall i | 0 <= i < |keys| ::
              a[i] == Intern(TextOf(Logical(cache.contents(id), keys[i], nulls.Some? ==> At(nulls.value, i))))
  {
    var d := new Sym[|keys|](i => Empty());
    cache.FillDict(id, keys, nulls, d, 0);
    a := d[..];
    forall i | 0 <= i < |keys|
      ensures a[i] == Intern(TextOf(Logical(cache.contents(id), keys[i], nulls.Some? ==> At(nulls.value, i))))
    {
      assert a[i] == d[i];
    }
  }

  method PlainColumnOf(cache: SymCache, strs: seq<Option<Bytes>>) returns (b: seq<Sym>)
    requires cache.Valid()
    modifies cache.slots
    ensures cache.Valid()
    ensures b == seq(|strs|, i requires 0 <= i < |strs| => Intern(TextOf(strs[i])))
  {
    var d := new Sym[|strs|](i => Empty());
    cache.FillPlain(strs, d, 0);
    b := d[..];
    assert forall i | 0 <= i < |strs| :: b[i] == d[i];
  }
}
