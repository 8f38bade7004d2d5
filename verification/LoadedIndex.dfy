// The permanent tier after a bulk load (src/expr.cpp): nodes appended as the export writes them, children
// before parents, and indexed afterwards.  If the index flags no duplicate, the tier is what ordinary
// interning would have made it.
module LoadedIndex {
  import opened Names
  import opened Terms
  import opened SuspendModel
  import opened SuspendTidy
  import opened Probing
  import opened InternTable
  import B = BulkIndex

  /** As loaded: no closures, no free variables, every part before the node. */
  ghost predicate Loaded(nodes: seq<Node>) {
    forall h :: 0 <= h < |nodes| ==> !nodes[h].ClosN? && !nodes[h].FVarN? && Bounded(Parts(nodes[h]), h)
  }

  ghost function DenOf(nodes: seq<Node>, h: Expr): Term
    requires Loaded(nodes) && h < |nodes|
    decreases h
  {
    PartsBound(nodes[h], h);
    match nodes[h]
    case BVarN(i) => BVar(i)
    case SortN(l) => Sort(l)
    case ConstN(n, ls) => Const(n, ls)
    case AppN(f, a) => App(DenOf(nodes, f), DenOf(nodes, a))
    case LamN(d, b) => Lam(DenOf(nodes, d), DenOf(nodes, b))
    case PiN(d, b) => Pi(DenOf(nodes, d), DenOf(nodes, b))
    case LetN(y, v, b) => Let(DenOf(nodes, y), DenOf(nodes, v), DenOf(nodes, b))
    case LitN(v) => Lit(v)
    case ProjN(s, i, e) => Proj(s, i, DenOf(nodes, e))
  }

  ghost predicate NoneEqual(nodes: seq<Node>) { forall x, y :: 0 <= x < y < |nodes| ==> nodes[x] != nodes[y] }

  /** Among unequal nodes, equal terms are one handle. */
  lemma {:induction false} DenInjective(nodes: seq<Node>, x: Expr, y: Expr)
    requires Loaded(nodes) && NoneEqual(nodes) && x < |nodes| && y < |nodes|
    requires DenOf(nodes, x) == DenOf(nodes, y)
    ensures x == y
    decreases x
  {
    PartsBound(nodes[x], x);
    PartsBound(nodes[y], y);
    match (nodes[x], nodes[y])
    case (AppN(f, a), AppN(g, b)) => DenInjective(nodes, f, g); DenInjective(nodes, a, b);
    case (LamN(f, a), LamN(g, b)) => DenInjective(nodes, f, g); DenInjective(nodes, a, b);
    case (PiN(f, a), PiN(g, b)) => DenInjective(nodes, f, g); DenInjective(nodes, a, b);
    case (LetN(f, a, c), LetN(g, b, d)) =>
      DenInjective(nodes, f, g);
      DenInjective(nodes, a, b);
      DenInjective(nodes, c, d);
    case (ProjN(_, _, a), ProjN(_, _, b)) => DenInjective(nodes, a, b);
    case _ =>
  }

  /** The table's keys: what it makes of the hash of the term, and equality of nodes. */
  ghost predicate NodeKeys(H: Hashing, K: Keys, nodes: seq<Node>)
    requires Loaded(nodes)
  {
    && IsKeys(K)
    && (forall x, y :: 0 <= x < |nodes| && 0 <= y < |nodes| ==> (K.eq(x, y) <==> nodes[x] == nodes[y]))
    && forall h: nat {:trigger K.hash(h)} :: h < |nodes| ==> K.hash(h) == H.spread(HashOf(H, DenOf(nodes, h)))
  }

  /** The capacity is doubled until n handles fill less than three quarters of it. */
  function Reserve(cap: nat, n: nat): (r: nat)
    requires cap > 0
    ensures r >= cap && n * 4 < r * 3
    decreases n * 4 - cap * 3
  {
    if n * 4 >= cap * 3 then Reserve(cap * 2, n) else cap
  }

  ghost function AsLoaded(H: Hashing, nodes: seq<Node>, slots: seq<Slot>, small: nat): Snap
    requires Loaded(nodes)
  {
    var den := seq(|nodes|, h requires 0 <= h < |nodes| => DenOf(nodes, h));
    Snap(nodes, seq(|nodes|, h requires 0 <= h < |nodes| => InfoOf(H, den[h])), [], false, 0,
         Index(slots, |nodes|, 0, false, []), EmptyIndex(small, true), den)
  }

  lemma LoadedNodes(H: Hashing, nodes: seq<Node>, slots: seq<Slot>, small: nat)
    requires Loaded(nodes) && NoneEqual(nodes)
    ensures NodesOk(H, AsLoaded(H, nodes, slots, small))
  {
    var s := AsLoaded(H, nodes, slots, small);
    forall h: nat | h < |nodes| ensures NodeOk(s, h) && InfoOk(H, s, h) {
      LoadedNode(H, nodes, slots, small, h);
    }
    forall x, y | 0 <= x < |nodes| && 0 <= y < |nodes| && x != y ensures D(s, x) != D(s, y) {
      if D(s, x) == D(s, y) { DenInjective(nodes, x, y); }
    }
    forall h | 0 <= h < |nodes| ensures Bounded(Parts(nodes[h]), |nodes|) { assert Bounded(Parts(nodes[h]), h); }
  }

  lemma LoadedNode(H: Hashing, nodes: seq<Node>, slots: seq<Slot>, small: nat, h: Expr)
    requires Loaded(nodes) && h < |nodes|
    ensures NodeOk(AsLoaded(H, nodes, slots, small), h) && InfoOk(H, AsLoaded(H, nodes, slots, small), h)
  {
    PartsBound(nodes[h], h);
    assert Bounded(Parts(nodes[h]), h);
  }

  /** The index that the threads built serves as the permanent one. */
  lemma LoadedIndexed(H: Hashing, K: Keys, nodes: seq<Node>, slots: seq<Slot>, small: nat)
    requires Loaded(nodes) && NodeKeys(H, K, nodes) && small > 0 && |nodes| < |slots|
    requires Consistent(K, slots) && forall h: nat {:trigger Has(slots, h)} :: Has(slots, h) <==> h < |nodes|
    ensures Indexed(H, AsLoaded(H, nodes, slots, small))
  {
    var s := AsLoaded(H, nodes, slots, small);
    CountBelow(K, slots, |nodes|);
    SameHomes(K, KeysOf(H, s.infos), slots);
    EmptyOk(KeysOf(H, s.infos), small, true);
  }

  /** Keys that agree on what a table holds, and tell its elements apart, serve as well. */
  lemma SameHomes(K: Keys, K': Keys, slots: seq<Slot>)
    requires IsKeys(K) && Consistent(K, slots) && forall h: nat {:trigger Has(slots, h)} :: Has(slots, h) ==> K'.hash(h) == K.hash(h)
    requires forall x, y :: K'.eq(x, y) ==> x == y
    ensures Consistent(K', slots)
  {
    forall i | 0 <= i < |slots| && slots[i].Full? ensures Reachable(K', slots, i) {
      var h := slots[i].h;
      assert Has(slots, h) && Reachable(K, slots, i);
      assert Home(K', h, |slots|) == Home(K, h, |slots|);
      var d: nat :| PathFull(K, slots, h, d) && Pos(Home(K, h, |slots|), d, |slots|) == i;
      assert PathFull(K', slots, h, d);
    }
    forall i, j | 0 <= i < j < |slots| && slots[i].Full? && slots[j].Full? ensures !K'.eq(slots[i].h, slots[j].h) {
      assert K.eq(slots[i].h, slots[i].h);
    }
  }

  /**
   * Building the index, in every interleaving of its threads: with no duplicate flagged, the table is neat,
   * as ordinary interning leaves it, and each handle is in its index once, where its probes lead; a flag
   * means that two handles denote the same term.
   */
  lemma BuildIndexExact(H: Hashing, K: Keys, nodes: seq<Node>, cap: nat, small: nat, threads: nat, schedule: seq<B.Event>)
    requires Loaded(nodes) && NodeKeys(H, K, nodes) && cap > 0 && small > 0 && threads > 0
    requires B.Done(B.Run(K, Reserve(cap, |nodes|), B.Ranges(|nodes|, threads), schedule))
    ensures var s := B.Run(K, Reserve(cap, |nodes|), B.Ranges(|nodes|, threads), schedule);
            if s.dup then exists x, y :: 0 <= x < y < |nodes| && DenOf(nodes, x) == DenOf(nodes, y)
            else Trusted(H, AsLoaded(H, nodes, s.slots, small), true)
                 && forall h: nat :: h < |nodes| ==> B.PlacedOnce(K, s.slots, h)
  {
    var n := |nodes|;
    var s := B.Run(K, Reserve(cap, n), B.Ranges(n, threads), schedule);
    B.RangesCover(n, threads);
    B.BulkInsertExact(K, Reserve(cap, n), B.Ranges(n, threads), n, schedule);
    if s.dup { SomeEqual(H, K, nodes); } else { AllDifferent(H, K, nodes, s.slots, small); }
  }

  lemma SomeEqual(H: Hashing, K: Keys, nodes: seq<Node>)
    requires Loaded(nodes) && NodeKeys(H, K, nodes) && exists x: nat, y: nat :: x < y < |nodes| && K.eq(x, y)
    ensures exists x, y :: 0 <= x < y < |nodes| && DenOf(nodes, x) == DenOf(nodes, y)
  {
    var x: nat, y: nat :| x < y < |nodes| && K.eq(x, y);
    EqualDen(nodes, x, y);
  }

  lemma AllDifferent(H: Hashing, K: Keys, nodes: seq<Node>, slots: seq<Slot>, small: nat)
    requires Loaded(nodes) && NodeKeys(H, K, nodes) && small > 0 && |nodes| < |slots|
    requires forall x: nat, y: nat :: x < y < |nodes| ==> !K.eq(x, y)
    requires Consistent(K, slots) && forall h: nat {:trigger Has(slots, h)} :: Has(slots, h) <==> h < |nodes|
    ensures Trusted(H, AsLoaded(H, nodes, slots, small), true)
  {
    forall x, y | 0 <= x < y < |nodes| ensures nodes[x] != nodes[y] { assert !K.eq(x, y); }
    LoadedNodes(H, nodes, slots, small);
    LoadedIndexed(H, K, nodes, slots, small);
    FrozenNeat(AsLoaded(H, nodes, slots, small));
  }

  lemma EqualDen(nodes: seq<Node>, x: Expr, y: Expr)
    requires Loaded(nodes) && x < y < |nodes| && nodes[x] == nodes[y]
    ensures DenOf(nodes, x) == DenOf(nodes, y)
  {
  }
}
