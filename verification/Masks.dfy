// The sets of loose variables that environments are pruned to (src/nbe.cpp): computed on demand and kept
// in whatever fields a node has to spare.  A machine word is modelled as the set of its bits.
module Masks {
  import opened Terms
  import opened Conversion

  type Word = m: set<nat> | forall i :: i in m ==> i < 64 witness {}

  const ZERO: Word := {}
  const ALL: Word := set k: nat | k < 64
  const ALL32: Word := set k: nat | k < 32

  predicate Above(m: Word, k: nat, d: nat) { k + d in m }

  function Shr(m: Word): Word { set k: nat | k < 63 && Above(m, k, 1) }
  function Low(m: Word): Word { set k: nat | k < 32 && k in m }
  function High(m: Word): Word { set k: nat | k < 32 && Above(m, k, 32) }
  function Join(lo: Word, hi: Word): Word { set k: nat | k < 64 && if k < 32 then k in lo else k - 32 in hi }

  /** All ones is "unknown", and stays so. */
  function ShrU(m: Word): Word { if m == ALL then ALL else Shr(m) }
  function OrU(a: Word, b: Word): Word { if a == ALL || b == ALL then ALL else a + b }

  ghost predicate IsFree(t: Term, m: Word) { forall i: nat :: i in m <==> Occurs(t, i) }

  /** A 256-bit set, as four words. */
  type Wide = w: seq<Word> | |w| == 4 witness [ZERO, ZERO, ZERO, ZERO]

  const EMPTY: Wide := [ZERO, ZERO, ZERO, ZERO]

  predicate Bit(w: Wide, k: nat) { k < 256 && k % 64 in w[k / 64] }

  function SetBit(w: Wide, k: nat): Wide
    requires k < 256
  {
    w[k / 64 := w[k / 64] + {k % 64}]
  }

  function Or(a: Wide, b: Wide): Wide { [a[0] + b[0], a[1] + b[1], a[2] + b[2], a[3] + b[3]] }

  function Carry(m: Word): Word { if 0 in m then {63} else {} }

  function ShrWide(w: Wide): Wide {
    [Shr(w[0]) + Carry(w[1]), Shr(w[1]) + Carry(w[2]), Shr(w[2]) + Carry(w[3]), Shr(w[3])]
  }

  ghost predicate IsFreeWide(t: Term, w: Wide) { forall k: nat :: Bit(w, k) <==> Occurs(t, k) }

  lemma SetBitIs(w: Wide, k: nat, j: nat)
    requires k < 256
    ensures Bit(SetBit(w, k), j) <==> Bit(w, j) || j == k
  {
    if j < 256 && j / 64 == k / 64 && j % 64 == k % 64 { assert j == k; }
  }

  lemma OrIs(a: Wide, b: Wide, k: nat)
    ensures Bit(Or(a, b), k) <==> Bit(a, k) || Bit(b, k)
  {
    if k < 256 { assert Or(a, b)[k / 64] == a[k / 64] + b[k / 64]; }
  }

  /** The carries between the words make it one shift of 256 bits. */
  lemma ShrIs(w: Wide, k: nat)
    ensures Bit(ShrWide(w), k) <==> Bit(w, k + 1)
  {
    if k < 256 {
      var i, j := k / 64, k % 64;
      assert ShrWide(w)[i] == Shr(w[i]) + if i < 3 then Carry(w[i + 1]) else {};
      if j < 63 {
        assert (k + 1) / 64 == i && (k + 1) % 64 == j + 1;
      } else {
        assert (k + 1) / 64 == i + 1 && (k + 1) % 64 == 0;
      }
    }
  }

  lemma JoinHalves(r: Word)
    ensures Join(Low(r), High(r)) == r
  {
  }

  lemma HighOf(r: Word, k: nat)
    requires k in r && k >= 32
    ensures k - 32 in High(r)
  {
    assert Above(r, k - 32, 32);
  }

  lemma HighAll()
    ensures 0 in High(ALL)
  {
    HighOf(ALL, 32);
  }

  lemma HighFree(t: Term, r: Word, k: nat)
    requires IsFree(t, r) && k in High(r)
    ensures Occurs(t, k + 32)
  {
    assert Above(r, k, 32);
  }

  lemma LowOnly(r: Word)
    requires High(r) == {}
    ensures Low(r) == r
  {
    forall k | k in r ensures k in Low(r) { if k >= 32 { HighOf(r, k); } }
  }

  predicate WideKind(t: Term) { t.App? || t.Lam? || t.Pi? || t.Proj? }

  /** Where a deep term's set is: nowhere yet, not known, or at an index of the byte list. */
  datatype Slot = Unknown | At(at: nat)

  /** The elements listed at an index: their number less one, and then each. */
  function Listed(bytes: seq<nat>, at: nat): seq<nat>
    requires at < |bytes| && at + bytes[at] + 2 <= |bytes|
  {
    bytes[at + 1..at + bytes[at] + 2]
  }

  ghost predicate Lists(bytes: seq<nat>, at: nat, t: Term) {
    at < |bytes| && at + bytes[at] + 2 <= |bytes|
    && (forall k: nat :: k in Listed(bytes, at) <==> Occurs(t, k))
    && forall k :: k in Listed(bytes, at) ==> k < 256
  }

  lemma ListsExtend(bytes: seq<nat>, more: seq<nat>, at: nat, t: Term)
    requires Lists(bytes, at, t)
    ensures Lists(bytes + more, at, t)
  {
    assert Listed(bytes + more, at) == Listed(bytes, at);
  }

  /** The byte list never grows past the indices a node field can hold. */
  const BYTE_LIMIT: nat := 0xFFFF_FFFF - 300

  class MaskMemo {
    const perm: Term -> bool          // the term's node is in the permanent tier
    var lvls: map<Term, Word>         // node fields, no entry while they are zero
    var c: map<Term, Word>
    var slots: map<Term, Slot>        // the same field where variables go past the 64th
    var bytes: seq<nat>

    ghost var full: bool              // the byte list has been found full

    /** The node's own fields can hold its set without its looking like "not known". */
    ghost predicate Fits(t: Term) {
      (Range(t) <= 64 ==> exists i: nat :: i < 64 && !Occurs(t, i))
      && (t.Let? && Range(t) <= 64 ==> Range(t) <= 32 && exists i: nat :: i < 32 && !Occurs(t, i))
    }

    /** Terms whose set is always found: permanent, at most 256 binders deep, each node's set fitting its fields. */
    ghost predicate Known(t: Term) {
      Range(t) == 0
      || (perm(t) && Range(t) <= 256 && Fits(t)
          && match t
             case App(f, x) => Known(f) && Known(x)
             case Lam(d, b) => Known(d) && Known(b)
             case Pi(d, b) => Known(d) && Known(b)
             case Let(y, v, b) => Known(y) && Known(v) && Known(b)
             case Proj(_, _, e) => Known(e)
             case _ => true)
    }

    function Field(f: map<Term, Word>, t: Term): Word { if t in f then f[t] else {} }

    ghost predicate Valid()
      reads this
    {
      && (forall t: Term :: WideKind(t) && Range(t) <= 64 ==>
            var m := Join(Field(lvls, t), Field(c, t)); m == {} || (m == ALL && (Known(t) ==> full)) || IsFree(t, m))
      && (forall t: Term :: t.Let? && Range(t) <= 64 ==>
            var m := Field(lvls, t); m == {} || (m == ALL32 && (Known(t) ==> full)) || IsFree(t, m))
      && (forall t :: t in slots ==> slots[t].At? ==> Lists(bytes, slots[t].at, t))
      && (forall t :: t in slots && slots[t].Unknown? && Known(t) && Range(t) > 64 ==> full)
    }

    constructor (perm: Term -> bool)
      ensures Valid() && this.perm == perm
    {
      this.perm := perm;
      lvls, c, slots, bytes := map[], map[], map[], [];
      full := false;
    }

    /** The loose variables of a term, or all ones for "not known"; a known term's, unless the byte list is full. */
    method FvMask(t: Term) returns (m: Word)
      requires Valid()
      modifies this
      ensures Valid() && (m == ALL || IsFree(t, m)) && (old(full) ==> full)
      ensures Known(t) && Range(t) <= 64 && !full ==> m != ALL
      decreases t, 3
    {
      if perm(t) {
        if Range(t) > 64 { return ALL; }
        if WideKind(t) {
          m := Join(Field(lvls, t), Field(c, t));
          if m != {} {
            if IsFree(t, m) && Known(t) { RangeExact(t); NotAll(t, m); }
            return;
          }
        } else if t.Let? && Field(lvls, t) != {} {
          m := Field(lvls, t);
          if m == ALL32 {
            if Known(t) { NotAll32(t); }
            return ALL;
          }
          if Known(t) { RangeExact(t); NotAll(t, m); }
          return;
        }
      }
      m := FvMaskSlow(t);
    }

    method FvMaskSlow(t: Term) returns (r: Word)
      requires Valid()
      modifies this
      ensures Valid() && (r == ALL || IsFree(t, r)) && (old(full) ==> full)
      ensures Known(t) && Range(t) <= 64 && !full ==> r != ALL
      decreases t, 2
    {
      RangeExact(t);
      assert 0 in ALL;
      if Range(t) == 0 { return {}; }
      if Range(t) > 64 || !perm(t) { return ALL; }
      r := Compute(t);
      if r == ALL && !t.BVar? {
        var ok, w := WideCompute(t);
        if ok && w[0] != {} {
          r := w[0];
          LowWord(t, w);
        }
        if ok { LowWord(t, w); }
      }
      if IsFree(t, r) && Known(t) { NotAll(t, r); }
      Remember(t, r);
    }

    /** From the masks of the subterms. */
    method Compute(t: Term) returns (r: Word)
      requires Valid() && 0 < Range(t) <= 64
      modifies this
      ensures t.BVar? ==> r != ALL
      ensures Valid() && (r == ALL || IsFree(t, r)) && (old(full) ==> full)
      decreases t, 1
    {
      RangeExact(t);
      match t
      case BVar(i) =>
        r := {i};
        assert (if i == 0 then 1 else 0) in ALL;
      case App(f, x) =>
        var a := FvMask(f);
        var b := FvMask(x);
        r := OrU(a, b);
      case Lam(d, b) =>
        var x := FvMask(d);
        var y := FvMask(b);
        r := OrU(x, ShrU(y));
        if r != ALL { BinderMask(t, d, b, x, y); }
      case Pi(d, b) =>
        var x := FvMask(d);
        var y := FvMask(b);
        r := OrU(x, ShrU(y));
        if r != ALL { BinderMask(t, d, b, x, y); }
      case Let(y, v, b) =>
        var x := FvMask(y);
        var z := FvMask(v);
        var w := FvMask(b);
        r := OrU(OrU(x, z), ShrU(w));
        if r != ALL { LetMask(t, x, z, w); }
      case Proj(_, _, e) => r := FvMask(e);
      case _ => r := ALL;
    }

    /** Keep the result in the node's fields, as far as they can hold it. */
    method Remember(t: Term, r: Word)
      requires Valid() && 0 < Range(t) <= 64 && (r == ALL || IsFree(t, r)) && (Known(t) && !full ==> r != ALL)
      modifies this`lvls, this`c
      ensures Valid()
    {
      if WideKind(t) { RememberBoth(t, r); } else if t.Let? { RememberLet(t, r); }
    }

    method RememberBoth(t: Term, r: Word)
      requires Valid() && WideKind(t) && (r == ALL || IsFree(t, r)) && (Known(t) && !full ==> r != ALL)
      modifies this`lvls, this`c
      ensures Valid()
    {
      JoinHalves(r);
      lvls, c := lvls[t := Low(r)], c[t := High(r)];
    }

    method RememberLet(t: Term, r: Word)
      requires Valid() && t.Let? && 0 < Range(t) <= 64 && (r == ALL || IsFree(t, r)) && (Known(t) && !full ==> r != ALL)
      modifies this`lvls
      ensures Valid()
    {
      LetField(t, r);
      lvls := lvls[t := if High(r) != {} then ALL32 else Low(r)];
    }

    /** What a let's one field holds of its set. */
    lemma LetField(t: Term, r: Word)
      requires t.Let? && Range(t) <= 64 && (r == ALL || IsFree(t, r))
      ensures High(r) == {} ==> r != ALL && Low(r) == r
      ensures Known(t) && 0 < Range(t) && r != ALL ==> High(r) == {} && Low(r) != ALL32
    {
      HighAll();
      if High(r) == {} { LowOnly(r); }
      if Known(t) && 0 < Range(t) && r != ALL {
        RangeExact(t);
        if k :| k in High(r) { HighFree(t, r, k); }
        var i: nat :| i < 32 && !Occurs(t, i);
        assert i !in Low(r) && i in ALL32;
      }
    }

    lemma NotAll32(t: Term)
      requires t.Let? && Range(t) <= 64 && Known(t)
      ensures !IsFree(t, ALL32)
    {
      RangeExact(t);
      assert 0 in ALL32;
      if Range(t) > 0 {
        var i: nat :| i < 32 && !Occurs(t, i);
        assert i in ALL32;
      } else {
        assert !Occurs(t, 0);
      }
    }

    lemma NotAll(t: Term, r: Word)
      requires Range(t) <= 64 && IsFree(t, r) && Known(t) && 0 < Range(t)
      ensures r != ALL
    {
      var i: nat :| i < 64 && !Occurs(t, i);
      assert i in ALL;
    }

    /** The loose variables of a term up to 256 binders deep, if they are known. */
    method WideBits(t: Term) returns (ok: bool, w: Wide)
      requires Valid()
      modifies this
      ensures Valid() && (ok ==> IsFreeWide(t, w)) && (old(full) ==> full)
      ensures Known(t) && !full ==> ok
      decreases t, 4
    {
      RangeExact(t);
      if Range(t) <= 64 {
        var m := FvMask(t);
        ok, w := m != ALL, [m, {}, {}, {}];
        return;
      }
      if Range(t) > 256 { return false, EMPTY; }
      if t.BVar? {
        forall k: nat ensures Bit(SetBit(EMPTY, t.i), k) <==> Occurs(t, k) { SetBitIs(EMPTY, t.i, k); }
        return true, SetBit(EMPTY, t.i);
      }
      if !perm(t) || !(WideKind(t) || t.Let?) { return false, EMPTY; }
      if t in slots {
        if slots[t].Unknown? { return false, EMPTY; }
        w := Decode(slots[t].at, t);
        return true, w;
      }
      ok, w := WideCompute(t);
      if !ok || |bytes| >= BYTE_LIMIT {
        full := full || |bytes| >= BYTE_LIMIT;
        slots := slots[t := Unknown];
        return;
      }
      Encode(t, w);
    }

    method WideCompute(t: Term) returns (ok: bool, w: Wide)
      requires Valid() && Range(t) > 0
      modifies this
      ensures Valid() && (ok ==> IsFreeWide(t, w)) && (old(full) ==> full)
      ensures Known(t) && !full ==> ok
      decreases t, 1
    {
      ok, w := true, EMPTY;
      match t
      case BVar(i) =>
        if i >= 256 { return false, EMPTY; }
        w := SetBit(EMPTY, i);
        forall k: nat ensures Bit(w, k) <==> Occurs(t, k) { SetBitIs(EMPTY, i, k); }
      case App(f, x) =>
        ok, w := Add(ok, w, f, false);
        ok, w := Add(ok, w, x, false);
      case Lam(d, b) =>
        ok, w := Add(ok, w, d, false);
        ok, w := Add(ok, w, b, true);
      case Pi(d, b) =>
        ok, w := Add(ok, w, d, false);
        ok, w := Add(ok, w, b, true);
      case Let(y, v, b) =>
        ok, w := Add(ok, w, y, false);
        ok, w := Add(ok, w, v, false);
        ok, w := Add(ok, w, b, true);
      case Proj(_, _, e) => ok, w := Add(ok, w, e, false);
      case _ => ok := false;
    }

    /** Add the variables of one subterm, seen from under a binder if `shift`. */
    method Add(ok0: bool, w0: Wide, x: Term, shift: bool) returns (ok: bool, w: Wide)
      requires Valid()
      modifies this
      ensures Valid() && (ok ==> ok0) && (old(full) ==> full)
      ensures ok0 && Known(x) && !full ==> ok
      ensures ok ==> forall k: nat :: Bit(w, k) <==> Bit(w0, k) || Occurs(x, if shift then k + 1 else k)
      decreases x, 5
    {
      ok, w := ok0, w0;
      if !ok { return; }
      var u;
      ok, u := WideBits(x);
      var s := if shift then ShrWide(u) else u;
      w := Or(w0, s);
      forall k: nat ensures Bit(w, k) <==> Bit(w0, k) || Bit(u, if shift then k + 1 else k) {
        OrIs(w0, s, k);
        ShrIs(u, k);
      }
    }

    method Decode(at: nat, ghost t: Term) returns (w: Wide)
      requires Lists(bytes, at, t)
      ensures IsFreeWide(t, w)
    {
      w := EMPTY;
      var n := bytes[at] + 1;
      for i := 0 to n
        invariant forall k: nat :: Bit(w, k) <==> k in Listed(bytes, at)[..i]
      {
        var x := bytes[at + 1 + i];
        assert Listed(bytes, at)[i] == x && x in Listed(bytes, at);
        ghost var w0 := w;
        w := SetBit(w, x);
        assert Listed(bytes, at)[..i + 1] == Listed(bytes, at)[..i] + [x];
        forall k: nat ensures Bit(w, k) <==> Bit(w0, k) || k == x { SetBitIs(w0, x, k); }
      }
      assert Listed(bytes, at)[..n] == Listed(bytes, at);
    }

    method Encode(t: Term, w: Wide)
      requires Valid() && Range(t) > 64 && IsFreeWide(t, w)
      modifies this`bytes, this`slots
      ensures Valid() && slots == old(slots)[t := At(|old(bytes)|)]
      ensures Lists(bytes, |old(bytes)|, t) && bytes[..|old(bytes)|] == old(bytes)
    {
      var at := |bytes|;
      var list: seq<nat> := [];
      for i := 0 to 256
        invariant |list| <= i
        invariant forall k: nat :: k in list <==> k < i && Bit(w, k)
      {
        if Bit(w, i) { list := list + [i]; }
      }
      RangeExact(t);
      assert Bit(w, Range(t) - 1);
      assert list != [];
      var head := (|list| + 255) % 256;   // one less, in a byte
      ghost var before := bytes;
      bytes := bytes + ([head] + list);
      assert Listed(bytes, at) == list;
      assert Lists(bytes, at, t);
      slots := slots[t := At(at)];
      forall u | u in slots && slots[u].At? ensures Lists(bytes, slots[u].at, u) {
        if u != t { ListsExtend(before, [head] + list, slots[u].at, u); }
      }
    }
  }

  lemma LowWord(t: Term, w: Wide)
    requires IsFreeWide(t, w) && Range(t) <= 64
    ensures IsFree(t, w[0])
  {
    RangeExact(t);
    forall k: nat ensures k in w[0] <==> Occurs(t, k) {
      assert Bit(w, k) <==> Occurs(t, k);
    }
  }

  lemma BinderMask(t: Term, d: Term, b: Term, x: Word, y: Word)
    requires t == Lam(d, b) || t == Pi(d, b)
    requires Range(t) <= 64 && x != ALL && y != ALL && IsFree(d, x) && IsFree(b, y)
    ensures IsFree(t, x + Shr(y))
  {
    RangeExact(t);
    forall i: nat ensures i in x + Shr(y) <==> Occurs(t, i) {
      assert i + 1 in y <==> Occurs(b, i + 1);
    }
  }

  lemma LetMask(t: Term, x: Word, z: Word, w: Word)
    requires t.Let? && Range(t) <= 64 && x != ALL && z != ALL && w != ALL
    requires IsFree(t.ty, x) && IsFree(t.val, z) && IsFree(t.body, w) && OrU(x, z) != ALL
    ensures IsFree(t, x + z + Shr(w))
  {
    RangeExact(t);
    forall i: nat ensures i in x + z + Shr(w) <==> Occurs(t, i) {
      assert i + 1 in w <==> Occurs(t.body, i + 1);
    }
  }
}
