// Open addressing with linear probing (src/common.h): what it means that an element can be found.
module Probing {

  datatype Slot = Empty | Full(h: nat)

  /** The slot after d probes from the start, in a table of n slots. */
  function Pos(start: nat, d: nat, n: nat): (i: nat)
    requires start < n
    ensures i < n
  {
    if d == 0 then start else Next(Pos(start, d - 1, n), n)
  }

  function Next(i: nat, n: nat): (j: nat)
    requires i < n
    ensures j < n
  {
    if i + 1 == n then 0 else i + 1
  }

  /** How elements are hashed, filtered and compared. */
  datatype Keys = Keys(hash: nat -> nat, tag: nat -> nat, eq: (nat, nat) -> bool)

  function Home(K: Keys, h: nat, n: nat): (i: nat)
    requires n > 0
    ensures i < n
  {
    K.hash(h) % n
  }

  /** An equivalence that the hash respects. */
  ghost predicate IsKeys(K: Keys) {
    && (forall x :: K.eq(x, x))
    && (forall x, y :: K.eq(x, y) ==> K.eq(y, x) && K.hash(x) == K.hash(y))
    && (forall x, y, z :: K.eq(x, y) && K.eq(y, z) ==> K.eq(x, z))
  }

  /** The test made at an occupied slot: a cheap filter, then the comparison. */
  predicate Matches(K: Keys, s: nat, h: nat) { K.tag(K.hash(s)) == K.tag(K.hash(h)) && K.eq(s, h) }

  /** The first d probes for h all meet occupied slots. */
  ghost predicate PathFull(K: Keys, slots: seq<Slot>, h: nat, d: nat) {
    |slots| > 0 && forall k: nat :: k < d ==> slots[Pos(Home(K, h, |slots|), k, |slots|)].Full?
  }

  /** ... and none of them holds an element equal to h. */
  ghost predicate PathClear(K: Keys, slots: seq<Slot>, h: nat, d: nat) {
    PathFull(K, slots, h, d)
    && forall k: nat :: k < d ==> !K.eq(slots[Pos(Home(K, h, |slots|), k, |slots|)].h, h)
  }

  /** An element sits where its probes lead. */
  ghost predicate Reachable(K: Keys, slots: seq<Slot>, i: nat) {
    i < |slots| && slots[i].Full?
    && exists d: nat :: PathFull(K, slots, slots[i].h, d) && Pos(Home(K, slots[i].h, |slots|), d, |slots|) == i
  }

  /** Every element is reachable, and no two are equal. */
  ghost predicate Consistent(K: Keys, slots: seq<Slot>) {
    |slots| > 0
    && (forall i :: 0 <= i < |slots| && slots[i].Full? ==> Reachable(K, slots, i))
    && forall i, j :: 0 <= i < j < |slots| && slots[i].Full? && slots[j].Full? ==> !K.eq(slots[i].h, slots[j].h)
  }

  ghost predicate Has(slots: seq<Slot>, h: nat) { exists i :: 0 <= i < |slots| && slots[i] == Full(h) }

  /** A probe that reaches an empty slot past unequal elements proves that nothing equal is in the table. */
  lemma Absent(K: Keys, slots: seq<Slot>, h: nat, d: nat)
    requires IsKeys(K) && Consistent(K, slots) && PathClear(K, slots, h, d)
    requires slots[Pos(Home(K, h, |slots|), d, |slots|)].Empty?
    ensures forall i :: 0 <= i < |slots| && slots[i].Full? ==> !K.eq(slots[i].h, h)
  {
    forall i | 0 <= i < |slots| && slots[i].Full? ensures !K.eq(slots[i].h, h) {
      assert Reachable(K, slots, i);
      var e: nat :| PathFull(K, slots, slots[i].h, e) && Pos(Home(K, slots[i].h, |slots|), e, |slots|) == i;
    }
  }

  lemma FillKeeps(K: Keys, slots: seq<Slot>, i: nat, h: nat, x: nat, d: nat)
    requires i < |slots| && PathFull(K, slots, x, d)
    ensures PathFull(K, slots[i := Full(h)], x, d)
  {
  }

  /** Filling the empty slot a clear probe ended at keeps the table consistent. */
  lemma FillConsistent(K: Keys, slots: seq<Slot>, h: nat, d: nat)
    requires IsKeys(K) && Consistent(K, slots) && PathClear(K, slots, h, d)
    requires slots[Pos(Home(K, h, |slots|), d, |slots|)].Empty?
    ensures Consistent(K, slots[Pos(Home(K, h, |slots|), d, |slots|) := Full(h)])
  {
    var i := Pos(Home(K, h, |slots|), d, |slots|);
    var slots' := slots[i := Full(h)];
    Absent(K, slots, h, d);
    forall j | 0 <= j < |slots'| && slots'[j].Full? ensures Reachable(K, slots', j) {
      if j == i {
        FillKeeps(K, slots, i, h, h, d);
      } else {
        assert Reachable(K, slots, j);
        var e: nat :| PathFull(K, slots, slots[j].h, e) && Pos(Home(K, slots[j].h, |slots|), e, |slots|) == j;
        FillKeeps(K, slots, i, h, slots[j].h, e);
      }
    }
  }

  lemma {:induction false} PosClosed(start: nat, d: nat, n: nat)
    requires start < n && d < n
    ensures Pos(start, d, n) == if start + d < n then start + d else start + d - n
  {
    if d > 0 { PosClosed(start, d - 1, n); }
  }

  /** Probing visits every slot. */
  lemma PosOnto(start: nat, i: nat, n: nat) returns (d: nat)
    requires start < n && i < n
    ensures d < n && Pos(start, d, n) == i
  {
    d := if i >= start then i - start else i + n - start;
    PosClosed(start, d, n);
  }

  function CountFull(slots: seq<Slot>): (c: nat)
    ensures c <= |slots|
  {
    if slots == [] then 0 else CountFull(slots[..|slots| - 1]) + if slots[|slots| - 1].Full? then 1 else 0
  }

  lemma {:induction false} CountFill(slots: seq<Slot>, i: nat, h: nat)
    requires i < |slots| && slots[i].Empty?
    ensures CountFull(slots[i := Full(h)]) == CountFull(slots) + 1
    decreases |slots|
  {
    var n := |slots| - 1;
    var s' := slots[i := Full(h)];
    if i == n {
      assert s'[..n] == slots[..n];
    } else {
      assert s'[..n] == slots[..n][i := Full(h)];
      CountFill(slots[..n], i, h);
    }
  }

  lemma {:induction false} SomeEmpty(slots: seq<Slot>) returns (i: nat)
    requires CountFull(slots) < |slots|
    ensures i < |slots| && slots[i].Empty?
    decreases |slots|
  {
    var n := |slots| - 1;
    if slots[n].Empty? { i := n; } else { i := SomeEmpty(slots[..n]); }
  }

  lemma {:induction false} NoneFull(slots: seq<Slot>)
    requires forall i :: 0 <= i < |slots| ==> slots[i].Empty?
    ensures CountFull(slots) == 0
    decreases |slots|
  {
    if slots != [] { NoneFull(slots[..|slots| - 1]); }
  }

  function HandlesIn(slots: seq<Slot>): (hs: set<nat>) {
    if slots == [] then {}
    else HandlesIn(slots[..|slots| - 1]) + if slots[|slots| - 1].Full? then {slots[|slots| - 1].h} else {}
  }

  lemma {:induction false} InSlots(slots: seq<Slot>, h: nat)
    ensures h in HandlesIn(slots) <==> Has(slots, h)
    decreases |slots|
  {
    if slots != [] {
      var n := |slots| - 1;
      InSlots(slots[..n], h);
      if Has(slots[..n], h) {
        var i :| 0 <= i < n && slots[..n][i] == Full(h);
        assert slots[i] == Full(h);
      }
      if Has(slots, h) && slots[n] != Full(h) {
        var i :| 0 <= i < |slots| && slots[i] == Full(h);
        assert slots[..n][i] == Full(h);
      }
    }
  }

  /** With no handle twice, as many slots are full as there are handles. */
  lemma {:induction false} CountHandles(slots: seq<Slot>)
    requires forall i, j :: 0 <= i < j < |slots| && slots[i].Full? && slots[j].Full? ==> slots[i].h != slots[j].h
    ensures CountFull(slots) == |HandlesIn(slots)|
    decreases |slots|
  {
    if slots != [] {
      var n := |slots| - 1;
      CountHandles(slots[..n]);
      if slots[n].Full? {
        InSlots(slots[..n], slots[n].h);
        assert !Has(slots[..n], slots[n].h);
      }
    }
  }

  function Below(n: nat): (hs: set<nat>)
    ensures |hs| == n && forall h: nat :: h in hs <==> h < n
  {
    if n == 0 then {} else Below(n - 1) + {n - 1}
  }

  /** A table of unequal elements that holds the handles below n has n slots full. */
  lemma CountBelow(K: Keys, slots: seq<Slot>, n: nat)
    requires IsKeys(K) && Consistent(K, slots) && forall h: nat {:trigger Has(slots, h)} :: Has(slots, h) <==> h < n
    ensures CountFull(slots) == n
  {
    forall i, j | 0 <= i < j < |slots| && slots[i].Full? && slots[j].Full? ensures slots[i].h != slots[j].h {
      assert K.eq(slots[i].h, slots[i].h);
    }
    CountHandles(slots);
    forall h: nat ensures h in HandlesIn(slots) <==> h in Below(n) { InSlots(slots, h); }
    assert HandlesIn(slots) == Below(n);
  }
}
