// The index built over the loaded export by several threads at once (src/common.h, src/expr.cpp): each
// inserts its own range of handles with compare-and-swap.  A run is any interleaving of the threads'
// atomic steps; a load may also see an occupied slot as still empty.
module BulkIndex {
  import opened Probing

  /** At slot d of the probe for h: about to look, about to swap, or past the last handle. */
  datatype Phase = Look | Swap | Finished

  datatype Thread = Thread(lo: nat, h: nat, hi: nat, d: nat, phase: Phase)

  datatype State = State(slots: seq<Slot>, dup: bool, ts: seq<Thread>)

  datatype Event = Event(k: nat, stale: bool)

  function Begin(lo: nat, hi: nat): Thread { Thread(lo, lo, hi, 0, if lo < hi then Look else Finished) }

  function NextHandle(t: Thread): Thread {
    t.(h := t.h + 1, d := 0, phase := if t.h + 1 < t.hi then Look else Finished)
  }

  function Step(K: Keys, s: State, e: Event): State {
    if e.k >= |s.ts| || |s.slots| == 0 then s
    else
      var t := s.ts[e.k];
      var i := Pos(Home(K, t.h, |s.slots|), t.d, |s.slots|);
      match t.phase
      case Finished => s
      case Look =>
        if s.slots[i].Empty? || e.stale then s.(ts := s.ts[e.k := t.(phase := Swap)])
        else if Matches(K, s.slots[i].h, t.h) then s.(dup := true, ts := s.ts[e.k := NextHandle(t)])
        else s.(ts := s.ts[e.k := t.(d := t.d + 1)])
      case Swap =>
        if s.slots[i].Empty? then s.(slots := s.slots[i := Full(t.h)], ts := s.ts[e.k := NextHandle(t)])
        else s.(ts := s.ts[e.k := t.(phase := Look)])
  }

  function Start(cap: nat, ranges: seq<(nat, nat)>): State {
    State(seq(cap, i => Empty), false, seq(|ranges|, k requires 0 <= k < |ranges| => Begin(ranges[k].0, ranges[k].1)))
  }

  function Run(K: Keys, cap: nat, ranges: seq<(nat, nat)>, schedule: seq<Event>): State
    decreases |schedule|
  {
    if schedule == [] then Start(cap, ranges)
    else Step(K, Run(K, cap, ranges, schedule[..|schedule| - 1]), schedule[|schedule| - 1])
  }

  /** The ranges cut [0, n) into consecutive pieces, one a thread. */
  ghost predicate Cover(ranges: seq<(nat, nat)>, n: nat) {
    (forall k :: 0 <= k < |ranges| ==> ranges[k].0 <= ranges[k].1 <= n)
    && (forall k, l :: 0 <= k < l < |ranges| ==> ranges[k].1 <= ranges[l].0)
    && forall h: nat :: h < n ==> Covered(ranges, h)
  }

  ghost predicate Covered(ranges: seq<(nat, nat)>, h: nat) {
    exists k :: 0 <= k < |ranges| && ranges[k].0 <= h < ranges[k].1
  }

  // ---------------------------------------------------------------- the invariant

  /** A thread's handle is not in the table yet, and nothing it passed equals it. */
  ghost predicate ThreadOk(K: Keys, s: State, t: Thread) {
    t.lo <= t.h <= t.hi && (t.phase.Finished? <==> t.h == t.hi)
    && (!t.phase.Finished? ==> PathClear(K, s.slots, t.h, t.d))
  }

  /** A handle in the table is one that its thread has dealt with. */
  ghost predicate Dealt(s: State, h: nat) { exists k :: 0 <= k < |s.ts| && s.ts[k].lo <= h < s.ts[k].h }

  ghost predicate Apart(ts: seq<Thread>) { forall k, l :: 0 <= k < l < |ts| ==> ts[k].hi <= ts[l].lo }

  ghost predicate Inv(K: Keys, s: State) {
    && Consistent(K, s.slots) && Apart(s.ts)
    && (forall k :: 0 <= k < |s.ts| ==> ThreadOk(K, s, s.ts[k]))
    && (forall h :: Has(s.slots, h) ==> Dealt(s, h))
    && (!s.dup ==> forall h: nat :: Dealt(s, h) ==> Has(s.slots, h))
    && (s.dup ==> exists x, y :: DupAt(K, s, x, y))
  }

  /** Two different handles, dealt with or in hand, that are equal. */
  ghost predicate DupAt(K: Keys, s: State, x: nat, y: nat) { x != y && K.eq(x, y) && Dealt(s, x) && Dealt(s, y) }

  lemma ClearKeeps(K: Keys, slots: seq<Slot>, i: nat, h: nat, x: nat, d: nat)
    requires i < |slots| && slots[i].Empty? && PathClear(K, slots, x, d)
    ensures PathClear(K, slots[i := Full(h)], x, d)
  {
    var slots' := slots[i := Full(h)];
    forall k: nat | k < d
      ensures slots'[Pos(Home(K, x, |slots|), k, |slots|)] == slots[Pos(Home(K, x, |slots|), k, |slots|)]
    {
      assert slots[Pos(Home(K, x, |slots|), k, |slots|)].Full?;
    }
  }

  lemma InHand(s: State, k: nat)
    requires k < |s.ts| && s.ts[k].lo <= s.ts[k].h < s.ts[k].hi && Apart(s.ts)
    requires forall l :: 0 <= l < |s.ts| ==> s.ts[l].lo <= s.ts[l].h <= s.ts[l].hi
    ensures !Dealt(s, s.ts[k].h)
  {
    forall l | 0 <= l < |s.ts| ensures !(s.ts[l].lo <= s.ts[k].h < s.ts[l].h) {
      if l < k { assert s.ts[l].hi <= s.ts[k].lo; } else if l > k { assert s.ts[k].hi <= s.ts[l].lo; }
    }
  }

  /** Dealing with the handle in hand adds just that one. */
  lemma DealtNext(s: State, s': State, k: nat)
    requires k < |s.ts| && s.ts[k].lo <= s.ts[k].h && s'.ts == s.ts[k := NextHandle(s.ts[k])]
    ensures forall h: nat :: Dealt(s', h) <==> Dealt(s, h) || h == s.ts[k].h
  {
    forall h: nat ensures Dealt(s', h) <==> Dealt(s, h) || h == s.ts[k].h {
      if Dealt(s, h) {
        var l :| 0 <= l < |s.ts| && s.ts[l].lo <= h < s.ts[l].h;
        assert s'.ts[l].lo <= h < s'.ts[l].h;
      }
      if h == s.ts[k].h { assert s'.ts[k].lo <= h < s'.ts[k].h; }
      if Dealt(s', h) {
        var l :| 0 <= l < |s'.ts| && s'.ts[l].lo <= h < s'.ts[l].h;
        assert l != k ==> s.ts[l].lo <= h < s.ts[l].h;
        assert l == k && h != s.ts[k].h ==> s.ts[k].lo <= h < s.ts[k].h;
      }
    }
  }

  lemma SameDealt(s: State, s': State)
    requires |s'.ts| == |s.ts| && forall k :: 0 <= k < |s.ts| ==> s'.ts[k].lo == s.ts[k].lo && s'.ts[k].h == s.ts[k].h
    ensures forall h: nat :: Dealt(s', h) <==> Dealt(s, h)
  {
    forall h: nat ensures Dealt(s', h) <==> Dealt(s, h) {
      if Dealt(s, h) {
        var l :| 0 <= l < |s.ts| && s.ts[l].lo <= h < s.ts[l].h;
        assert s'.ts[l].lo <= h < s'.ts[l].h;
      }
    }
  }

  /** A step that only moves one thread along its probe. */
  lemma MoveInv(K: Keys, s: State, k: nat, t: Thread)
    requires IsKeys(K) && Inv(K, s) && k < |s.ts| && !s.ts[k].phase.Finished?
    requires t.lo == s.ts[k].lo && t.h == s.ts[k].h && t.hi == s.ts[k].hi && !t.phase.Finished?
    requires PathClear(K, s.slots, t.h, t.d)
    ensures Inv(K, s.(ts := s.ts[k := t]))
  {
    var s' := s.(ts := s.ts[k := t]);
    assert ThreadOk(K, s, s.ts[k]);
    forall l | 0 <= l < |s'.ts| ensures ThreadOk(K, s', s'.ts[l]) { assert ThreadOk(K, s, s.ts[l]); }
    SameDealt(s, s');
    if s.dup {
      var x, y :| DupAt(K, s, x, y);
      assert DupAt(K, s', x, y);
    }
  }

  lemma InsertInv(K: Keys, s: State, k: nat)
    requires IsKeys(K) && Inv(K, s) && k < |s.ts| && s.ts[k].phase.Swap?
    requires s.slots[Pos(Home(K, s.ts[k].h, |s.slots|), s.ts[k].d, |s.slots|)].Empty?
    ensures Inv(K, Step(K, s, Event(k, false)))
  {
    var t, s' := s.ts[k], Step(K, s, Event(k, false));
    var i := Pos(Home(K, t.h, |s.slots|), t.d, |s.slots|);
    assert ThreadOk(K, s, t);
    FillConsistent(K, s.slots, t.h, t.d);
    forall l | 0 <= l < |s'.ts| ensures ThreadOk(K, s', s'.ts[l]) {
      assert ThreadOk(K, s, s.ts[l]);
      if l != k && !s.ts[l].phase.Finished? { ClearKeeps(K, s.slots, i, t.h, s.ts[l].h, s.ts[l].d); }
    }
    DealtNext(s, s', k);
    HasFill(s.slots, i, t.h);
    if s.dup {
      var x, y :| DupAt(K, s, x, y);
      assert DupAt(K, s', x, y);
    }
  }

  lemma HasFill(slots: seq<Slot>, i: nat, h: nat)
    requires i < |slots| && slots[i].Empty?
    ensures forall x :: Has(slots[i := Full(h)], x) <==> Has(slots, x) || x == h
  {
    forall x ensures Has(slots[i := Full(h)], x) <==> Has(slots, x) || x == h {
      if Has(slots, x) {
        var j :| 0 <= j < |slots| && slots[j] == Full(x);
        assert slots[i := Full(h)][j] == Full(x);
      }
      if x == h { assert slots[i := Full(h)][i] == Full(h); }
    }
  }

  lemma FlagInv(K: Keys, s: State, k: nat)
    requires IsKeys(K) && Inv(K, s) && k < |s.ts| && s.ts[k].phase.Look?
    requires var c := s.slots[Pos(Home(K, s.ts[k].h, |s.slots|), s.ts[k].d, |s.slots|)];
             c.Full? && Matches(K, c.h, s.ts[k].h)
    ensures Inv(K, Step(K, s, Event(k, false)))
  {
    var t, s' := s.ts[k], Step(K, s, Event(k, false));
    var i := Pos(Home(K, t.h, |s.slots|), t.d, |s.slots|);
    var c := s.slots[i].h;
    assert ThreadOk(K, s, t);
    forall l | 0 <= l < |s'.ts| ensures ThreadOk(K, s', s'.ts[l]) { assert ThreadOk(K, s, s.ts[l]); }
    DealtNext(s, s', k);
    assert s.slots[i] == Full(c);
    assert Has(s.slots, c) && Dealt(s, c);
    forall l | 0 <= l < |s.ts| ensures s.ts[l].lo <= s.ts[l].h <= s.ts[l].hi { assert ThreadOk(K, s, s.ts[l]); }
    InHand(s, k);
    assert DupAt(K, s', c, t.h);
  }

  lemma StepInv(K: Keys, s: State, e: Event)
    requires IsKeys(K) && Inv(K, s)
    ensures Inv(K, Step(K, s, e))
  {
    if e.k < |s.ts| && !s.ts[e.k].phase.Finished? {
      if s.ts[e.k].phase.Look? { LookInv(K, s, e); } else { SwapInv(K, s, e); }
    }
  }

  lemma LookInv(K: Keys, s: State, e: Event)
    requires IsKeys(K) && Inv(K, s) && e.k < |s.ts| && s.ts[e.k].phase.Look?
    ensures Inv(K, Step(K, s, e))
  {
    var t := s.ts[e.k];
    var i := Pos(Home(K, t.h, |s.slots|), t.d, |s.slots|);
    assert ThreadOk(K, s, t);
    if s.slots[i].Empty? || e.stale {
      MoveInv(K, s, e.k, t.(phase := Swap));
    } else if Matches(K, s.slots[i].h, t.h) {
      assert Step(K, s, e) == Step(K, s, Event(e.k, false));
      FlagInv(K, s, e.k);
    } else {
      PassInv(K, s, e.k);
    }
  }

  lemma PassInv(K: Keys, s: State, k: nat)
    requires IsKeys(K) && Inv(K, s) && k < |s.ts| && s.ts[k].phase.Look?
    requires var c := s.slots[Pos(Home(K, s.ts[k].h, |s.slots|), s.ts[k].d, |s.slots|)];
             c.Full? && !Matches(K, c.h, s.ts[k].h)
    ensures Inv(K, s.(ts := s.ts[k := s.ts[k].(d := s.ts[k].d + 1)]))
  {
    var t := s.ts[k];
    assert ThreadOk(K, s, t);
    PassClear(K, s, t);
    MoveInv(K, s, k, t.(d := t.d + 1));
  }

  lemma SwapInv(K: Keys, s: State, e: Event)
    requires IsKeys(K) && Inv(K, s) && e.k < |s.ts| && s.ts[e.k].phase.Swap?
    ensures Inv(K, Step(K, s, e))
  {
    var t := s.ts[e.k];
    assert ThreadOk(K, s, t);
    if s.slots[Pos(Home(K, t.h, |s.slots|), t.d, |s.slots|)].Empty? {
      InsertInv(K, s, e.k);
    } else {
      MoveInv(K, s, e.k, t.(phase := Look));
    }
  }

  lemma PassClear(K: Keys, s: State, t: Thread)
    requires IsKeys(K) && PathClear(K, s.slots, t.h, t.d)
    requires var c := s.slots[Pos(Home(K, t.h, |s.slots|), t.d, |s.slots|)]; c.Full? && !Matches(K, c.h, t.h)
    ensures PathClear(K, s.slots, t.h, t.d + 1)
  {
  }

  lemma StartInv(K: Keys, cap: nat, ranges: seq<(nat, nat)>, n: nat)
    requires cap > 0 && Cover(ranges, n)
    ensures Inv(K, Start(cap, ranges))
  {
    var s := Start(cap, ranges);
    forall k | 0 <= k < |s.ts| ensures ThreadOk(K, s, s.ts[k]) { assert ranges[k].0 <= ranges[k].1; }
  }

  /** The invariant holds after every interleaving. */
  lemma {:induction false} RunInv(K: Keys, cap: nat, ranges: seq<(nat, nat)>, n: nat, schedule: seq<Event>)
    requires IsKeys(K) && cap > 0 && Cover(ranges, n)
    ensures Inv(K, Run(K, cap, ranges, schedule))
    decreases |schedule|
  {
    if schedule == [] {
      StartInv(K, cap, ranges, n);
    } else {
      RunInv(K, cap, ranges, n, schedule[..|schedule| - 1]);
      StepInv(K, Run(K, cap, ranges, schedule[..|schedule| - 1]), schedule[|schedule| - 1]);
    }
  }

  ghost predicate HasRanges(ts: seq<Thread>, ranges: seq<(nat, nat)>) {
    |ts| == |ranges| && forall k :: 0 <= k < |ts| ==> ts[k].lo == ranges[k].0 && ts[k].hi == ranges[k].1
  }

  lemma {:induction false} RunRanges(K: Keys, cap: nat, ranges: seq<(nat, nat)>, schedule: seq<Event>)
    ensures HasRanges(Run(K, cap, ranges, schedule).ts, ranges)
    decreases |schedule|
  {
    if schedule != [] { RunRanges(K, cap, ranges, schedule[..|schedule| - 1]); }
  }

  ghost predicate Done(s: State) { forall k :: 0 <= k < |s.ts| ==> s.ts[k].phase.Finished? }

  lemma DoneDealt(K: Keys, s: State, ranges: seq<(nat, nat)>, n: nat, h: nat)
    requires Inv(K, s) && Done(s) && Cover(ranges, n) && HasRanges(s.ts, ranges)
    ensures Dealt(s, h) <==> h < n
  {
    if h < n {
      assert Covered(ranges, h);
      var k :| 0 <= k < |ranges| && ranges[k].0 <= h < ranges[k].1;
      assert ThreadOk(K, s, s.ts[k]) && s.ts[k].lo <= h < s.ts[k].h;
    }
    if Dealt(s, h) {
      var k :| 0 <= k < |s.ts| && s.ts[k].lo <= h < s.ts[k].h;
      assert ThreadOk(K, s, s.ts[k]) && ranges[k].1 <= n;
    }
  }

  /** In the table exactly once, where its probes lead. */
  ghost predicate PlacedOnce(K: Keys, slots: seq<Slot>, h: nat) {
    exists i :: 0 <= i < |slots| && slots[i] == Full(h) && Reachable(K, slots, i)
                && forall j :: 0 <= j < |slots| && slots[j] == Full(h) ==> j == i
  }

  /**
   * However the threads are interleaved: once they are done with no duplicate flagged, every handle is in
   * the table exactly once, where its probes lead; and the flag is raised exactly when two handles are
   * equal.
   */
  lemma BulkInsertExact(K: Keys, cap: nat, ranges: seq<(nat, nat)>, n: nat, schedule: seq<Event>)
    requires IsKeys(K) && cap > 0 && Cover(ranges, n) && Done(Run(K, cap, ranges, schedule))
    ensures var s := Run(K, cap, ranges, schedule);
            !s.dup <==> forall x: nat, y: nat :: x < y < n ==> !K.eq(x, y)
    ensures var s := Run(K, cap, ranges, schedule);
            |s.slots| == cap && (!s.dup ==> forall h: nat :: h < n ==> PlacedOnce(K, s.slots, h))
    ensures var s := Run(K, cap, ranges, schedule);
            Consistent(K, s.slots) && (!s.dup ==> forall h: nat {:trigger Has(s.slots, h)} :: Has(s.slots, h) <==> h < n)
  {
    var s := Run(K, cap, ranges, schedule);
    RunInv(K, cap, ranges, n, schedule);
    RunSlots(K, cap, ranges, schedule);
    RunRanges(K, cap, ranges, schedule);
    forall h: nat ensures Dealt(s, h) <==> h < n { DoneDealt(K, s, ranges, n, h); }
    if s.dup {
      var x, y :| DupAt(K, s, x, y);
      assert if x < y then K.eq(x, y) else K.eq(y, x);
    } else {
      forall h: nat | h < n ensures PlacedOnce(K, s.slots, h) {
        assert Dealt(s, h);
        Placed(K, s.slots, h);
      }
      forall x: nat, y: nat | x < y < n ensures !K.eq(x, y) { Unequal(K, s.slots, x, y); }
    }
  }

  lemma {:induction false} RunSlots(K: Keys, cap: nat, ranges: seq<(nat, nat)>, schedule: seq<Event>)
    ensures |Run(K, cap, ranges, schedule).slots| == cap
    decreases |schedule|
  {
    if schedule != [] { RunSlots(K, cap, ranges, schedule[..|schedule| - 1]); }
  }

  lemma Placed(K: Keys, slots: seq<Slot>, h: nat)
    requires IsKeys(K) && Consistent(K, slots) && Has(slots, h)
    ensures PlacedOnce(K, slots, h)
  {
    var i :| 0 <= i < |slots| && slots[i] == Full(h);
    assert Reachable(K, slots, i);
    forall j | 0 <= j < |slots| && slots[j] == Full(h) ensures j == i { assert K.eq(h, h); }
  }

  lemma Unequal(K: Keys, slots: seq<Slot>, x: nat, y: nat)
    requires IsKeys(K) && Consistent(K, slots) && Has(slots, x) && Has(slots, y) && x != y
    ensures !K.eq(x, y)
  {
    var i :| 0 <= i < |slots| && slots[i] == Full(x);
    var j :| 0 <= j < |slots| && slots[j] == Full(y);
    assert if i < j then !K.eq(slots[i].h, slots[j].h) else !K.eq(slots[j].h, slots[i].h);
  }

  // ---------------------------------------------------------------- cutting the handles into ranges

  function Cut(n: nat, k: nat, threads: nat): nat
    requires threads > 0
  {
    n * k / threads
  }

  /** The k-th of the pieces of [0, n) for so many threads. */
  function Ranges(n: nat, threads: nat): seq<(nat, nat)>
    requires threads > 0
  {
    seq(threads, k requires 0 <= k < threads => (Cut(n, k, threads), Cut(n, k + 1, threads)))
  }

  lemma MulMono(m: nat, x: int, y: int)
    requires x <= y
    ensures m * x <= m * y
  {
  }

  lemma MulCancel(m: nat, x: int, y: int)
    requires m * x < m * y
    ensures x < y
  {
    if y <= x { MulMono(m, y, x); }
  }

  lemma Quotient(a: nat, m: nat)
    requires m > 0
    ensures m * (a / m) <= a < m * (a / m + 1)
  {
    assert a == m * (a / m) + a % m;
  }

  lemma QuotientMono(a: nat, b: nat, m: nat, p: int, q: int)
    requires m * p <= a <= b < m * (q + 1)
    ensures p <= q
  {
    MulCancel(m, p, q + 1);
  }

  lemma DivMono(a: nat, b: nat, m: nat)
    requires a <= b && m > 0
    ensures a / m <= b / m
  {
    Quotient(a, m);
    Quotient(b, m);
    QuotientMono(a, b, m, a / m, b / m);
  }

  lemma CutMono(n: nat, k: nat, l: nat, threads: nat)
    requires threads > 0 && k <= l
    ensures Cut(n, k, threads) <= Cut(n, l, threads)
  {
    MulMono(n, k, l);
    DivMono(n * k, n * l, threads);
  }

  lemma CutLast(n: nat, threads: nat)
    requires threads > 0
    ensures Cut(n, threads, threads) == n
  {
    var q := n * threads / threads;
    Quotient(n * threads, threads);
    MulCancel(threads, n, q + 1);
    MulCancel(threads, q, n + 1);
  }

  lemma CutFirst(n: nat, threads: nat)
    requires threads > 0
    ensures Cut(n, 0, threads) == 0
  {
  }

  lemma {:induction false} CutAt(n: nat, threads: nat, h: nat, k: nat) returns (j: nat)
    requires threads > 0 && k <= threads && h < Cut(n, k, threads)
    ensures j < k && Cut(n, j, threads) <= h < Cut(n, j + 1, threads)
    decreases k
  {
    CutFirst(n, threads);
    if Cut(n, k - 1, threads) <= h { j := k - 1; } else { j := CutAt(n, threads, h, k - 1); }
  }

  /** The pieces follow one another and cover every handle. */
  lemma RangesCover(n: nat, threads: nat)
    requires threads > 0
    ensures Cover(Ranges(n, threads), n)
  {
    var rs := Ranges(n, threads);
    CutLast(n, threads);
    forall k | 0 <= k < threads ensures rs[k].0 <= rs[k].1 <= n {
      CutMono(n, k, k + 1, threads);
      CutMono(n, k + 1, threads, threads);
    }
    forall k, l | 0 <= k < l < threads ensures rs[k].1 <= rs[l].0 { CutMono(n, k + 1, l, threads); }
    forall h: nat | h < n ensures Covered(rs, h) {
      var j := CutAt(n, threads, h, threads);
      assert rs[j].0 <= h < rs[j].1;
    }
  }
}
