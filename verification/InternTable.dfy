// The hash-consing table (src/common.h).
module InternTable {
  import opened Probing

  /** Slots, how many are full, how often the table has grown, and the slots filled since it was last emptied. */
  datatype Index = Index(slots: seq<Slot>, count: nat, gen: nat, track: bool, dirty: seq<nat>)

  /** The recorded slots are exactly the full ones. */
  ghost predicate Exactly(dirty: seq<nat>, slots: seq<Slot>) {
    forall i: nat {:trigger i in dirty} :: i in dirty <==> i < |slots| && slots[i].Full?
  }

  ghost predicate IndexOk(K: Keys, x: Index) {
    IsKeys(K) && Consistent(K, x.slots) && x.count == CountFull(x.slots) && (x.track ==> Exactly(x.dirty, x.slots))
  }

  function EmptyIndex(cap: nat, track: bool): Index { Index(seq(cap, i => Empty), 0, 0, track, []) }

  lemma EmptyOk(K: Keys, cap: nat, track: bool)
    requires IsKeys(K) && cap > 0
    ensures IndexOk(K, EmptyIndex(cap, track)) && forall h :: !Has(EmptyIndex(cap, track).slots, h)
  {
    NoneFull(EmptyIndex(cap, track).slots);
  }

  /** Slot i filled with h. */
  function Filled(x: Index, i: nat, h: nat): Index
    requires i < |x.slots|
  {
    x.(slots := x.slots[i := Full(h)], count := x.count + 1, dirty := if x.track then x.dirty + [i] else x.dirty)
  }

  lemma HasFilled(slots: seq<Slot>, after: seq<Slot>, i: nat, h: nat, y: nat)
    requires i < |slots| && slots[i].Empty? && after == slots[i := Full(h)]
    ensures Has(after, y) <==> Has(slots, y) || y == h
  {
    assert after[i] == Full(h);
    if Has(slots, y) {
      var j :| 0 <= j < |slots| && slots[j] == Full(y);
      assert after[j] == Full(y);
    }
    if Has(after, y) && y != h {
      var j :| 0 <= j < |after| && after[j] == Full(y);
      assert slots[j] == Full(y);
    }
  }

  /** Filling the empty slot that a clear probe ended at. */
  lemma FilledOk(K: Keys, x: Index, i: nat, h: nat, d: nat)
    requires IndexOk(K, x) && i < |x.slots| && x.slots[i].Empty?
    requires i == Pos(Home(K, h, |x.slots|), d, |x.slots|) && PathClear(K, x.slots, h, d)
    ensures IndexOk(K, Filled(x, i, h)) && forall y :: Has(Filled(x, i, h).slots, y) <==> Has(x.slots, y) || y == h
  {
    FillConsistent(K, x.slots, h, d);
    CountFill(x.slots, i, h);
    if x.track { RecordFilled(x.dirty, x.slots, i, h); }
    var after := Filled(x, i, h).slots;
    forall y: nat ensures Has(after, y) <==> Has(x.slots, y) || y == h { HasFilled(x.slots, after, i, h, y); }
  }

  lemma RecordFilled(dirty: seq<nat>, slots: seq<Slot>, i: nat, h: nat)
    requires i < |slots| && Exactly(dirty, slots)
    ensures Exactly(dirty + [i], slots[i := Full(h)])
  {
    forall j: nat ensures j in dirty + [i] <==> j < |slots| && slots[i := Full(h)][j].Full? {
      assert j in dirty + [i] <==> j in dirty || j == i;
    }
  }

  /** The first empty slot on h's path; nothing is compared. */
  method FirstEmpty(K: Keys, slots: seq<Slot>, h: nat) returns (i: nat, ghost d: nat)
    requires |slots| > CountFull(slots)
    ensures i < |slots| && slots[i].Empty? && i == Pos(Home(K, h, |slots|), d, |slots|) && PathFull(K, slots, h, d)
  {
    var n := |slots|;
    i := Home(K, h, n);
    d := 0;
    ghost var e := SomeEmpty(slots);
    ghost var stop := PosOnto(i, e, n);
    while slots[i].Full?
      invariant d <= stop && i == Pos(Home(K, h, n), d, n) && PathFull(K, slots, h, d)
      decreases stop - d
    {
      i := Next(i, n);
      d := d + 1;
    }
  }

  lemma CountFirst(all: seq<Slot>, k: nat)
    requires k < |all|
    ensures CountFull(all[..k + 1]) == CountFull(all[..k]) + if all[k].Full? then 1 else 0
  {
    assert all[..k + 1][..k] == all[..k];
  }

  lemma HasSnoc(all: seq<Slot>, k: nat)
    requires k < |all|
    ensures forall x :: Has(all[..k + 1], x) <==> Has(all[..k], x) || all[k] == Full(x)
  {
    forall x ensures Has(all[..k + 1], x) <==> Has(all[..k], x) || all[k] == Full(x) {
      if Has(all[..k], x) {
        var j :| 0 <= j < k && all[..k][j] == Full(x);
        assert all[..k + 1][j] == Full(x);
      }
      if all[k] == Full(x) { assert all[..k + 1][k] == Full(x); }
    }
  }

  /** An element further on in a consistent table equals none before it. */
  lemma NotBefore(K: Keys, all: seq<Slot>, k: nat, slots: seq<Slot>, d: nat)
    requires Consistent(K, all) && k < |all| && all[k].Full? && PathFull(K, slots, all[k].h, d)
    requires forall x :: Has(slots, x) ==> Has(all[..k], x)
    ensures PathClear(K, slots, all[k].h, d)
  {
    var h := all[k].h;
    forall e: nat | e < d ensures !K.eq(slots[Pos(Home(K, h, |slots|), e, |slots|)].h, h) {
      var x := slots[Pos(Home(K, h, |slots|), e, |slots|)].h;
      assert Has(slots, x);
      var j :| 0 <= j < k && all[..k][j] == Full(x);
      assert all[j] == Full(x);
    }
  }

  /** Twice the slots, every element put in again where its own path has room. */
  method Grow(K: Keys, x: Index) returns (y: Index)
    requires IndexOk(K, x)
    ensures IndexOk(K, y) && |y.slots| == 2 * |x.slots| && y.count == x.count && y.gen == x.gen + 1 && y.track == x.track
    ensures forall h :: Has(y.slots, h) <==> Has(x.slots, h)
  {
    var all := x.slots;
    y := Index(seq(2 * |all|, i => Empty), 0, x.gen + 1, x.track, []);
    NoneFull(y.slots);
    for k := 0 to |all|
      invariant IndexOk(K, y) && |y.slots| == 2 * |all| && y.count == CountFull(all[..k])
      invariant y.gen == x.gen + 1 && y.track == x.track
      invariant forall h :: Has(y.slots, h) <==> Has(all[..k], h)
    {
      HasSnoc(all, k);
      CountFirst(all, k);
      if all[k].Full? {
        var i, d := FirstEmpty(K, y.slots, all[k].h);
        NotBefore(K, all, k, y.slots, d);
        FilledOk(K, y, i, all[k].h, d);
        y := Filled(y, i, all[k].h);
      }
    }
    assert all[..|all|] == all;
  }

  /** A table emptied by its recorded slots only. */
  method ClearUsed(K: Keys, x: Index) returns (y: Index)
    requires IndexOk(K, x) && x.track
    ensures y == Index(seq(|x.slots|, i => Empty), 0, x.gen, true, [])
  {
    var slots := x.slots;
    for k := 0 to |x.dirty|
      invariant |slots| == |x.slots|
      invariant forall i :: 0 <= i < |slots| ==> slots[i] == if i in x.dirty[..k] then Empty else x.slots[i]
    {
      assert x.dirty[k] in x.dirty;
      slots := slots[x.dirty[k] := Empty];
      assert x.dirty[..k + 1] == x.dirty[..k] + [x.dirty[k]];
    }
    assert x.dirty[..|x.dirty|] == x.dirty;
    assert slots == seq(|x.slots|, i => Empty);
    y := Index(slots, 0, x.gen, x.track, []);
  }

  method ProbeIn(K: Keys, slots: seq<Slot>, h: nat) returns (i: nat, ghost d: nat)
    requires IsKeys(K) && CountFull(slots) < |slots|
    ensures i < |slots| && i == Pos(Home(K, h, |slots|), d, |slots|) && PathClear(K, slots, h, d)
    ensures slots[i].Full? ==> K.eq(slots[i].h, h)
  {
    var n := |slots|;
    i := Home(K, h, n);
    d := 0;
    ghost var e := SomeEmpty(slots);
    ghost var stop := PosOnto(i, e, n);
    while slots[i].Full? && !Matches(K, slots[i].h, h)
      invariant d <= stop && i == Pos(Home(K, h, n), d, n) && PathClear(K, slots, h, d)
      decreases stop - d
    {
      i := Next(i, n);
      d := d + 1;
    }
  }

  /**
   * A table whose equality test is a plain comparison, as for numerals, strings and environments.  The
   * node table's test can intern; see `Suspend.ExprTable.Probe`.
   */
  class Table {
    const K: Keys
    var ix: Index

    ghost predicate Valid()
      reads this
    {
      IndexOk(K, ix) && ix.count < |ix.slots|
    }

    ghost predicate Holds(h: nat)
      reads this
    {
      Has(ix.slots, h)
    }

    constructor (K: Keys, cap: nat, track: bool)
      requires IsKeys(K) && cap > 0
      ensures Valid() && this.K == K && ix.track == track && forall h :: !Holds(h)
    {
      this.K, ix := K, EmptyIndex(cap, track);
      new;
      EmptyOk(K, cap, track);
    }

    /** The probe for h: the first slot that is empty or holds an equal element. */
    method Probe(h: nat) returns (i: nat, ghost d: nat)
      requires Valid()
      ensures i < |ix.slots| && i == Pos(Home(K, h, |ix.slots|), d, |ix.slots|) && PathClear(K, ix.slots, h, d)
      ensures ix.slots[i].Full? ==> K.eq(ix.slots[i].h, h)
    {
      i, d := ProbeIn(K, ix.slots, h);
    }

    /** The handle equal to h, or nothing. */
    method Find(h: nat) returns (r: int)
      requires Valid()
      ensures r >= 0 ==> Holds(r) && K.eq(r, h)
      ensures r < 0 ==> r == -1 && forall x :: Holds(x) ==> !K.eq(x, h)
    {
      var i, d := Probe(h);
      if ix.slots[i].Empty? {
        Absent(K, ix.slots, h, d);
        return -1;
      }
      r := ix.slots[i].h;
    }

    /** The handle equal to h that is in the table, or h itself, put in. */
    method Intern(h: nat) returns (r: nat)
      requires Valid()
      modifies this`ix
      ensures Valid() && K.eq(r, h)
      ensures forall x :: Holds(x) <==> old(Holds(x)) || x == r
      ensures if exists x :: old(Holds(x)) && K.eq(x, h) then old(Holds(r)) else r == h
    {
      if (ix.count + 1) * 4 >= |ix.slots| * 3 { ix := Grow(K, ix); }
      var i, d := Probe(h);
      if ix.slots[i].Full? { return ix.slots[i].h; }
      Absent(K, ix.slots, h, d);
      FilledOk(K, ix, i, h, d);
      ix := Filled(ix, i, h);
      r := h;
    }
  }
}
