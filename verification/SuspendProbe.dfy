// Finding a node's handle by probing, and what the operations on the node table keep (src/expr.cpp, src/common.h).
module SuspendProbe {
  import opened Terms
  import opened Probing
  import opened InternTable
  import opened SuspendModel
  import opened SuspendTidy

  /** A node that a handle is wanted for, what it carries, and what it denotes. */
  ghost predicate Asked(H: Hashing, s: Snap, nd: Node, info: Info, d: Term, neat: bool) {
    Fits(s, nd) && d == NodeTerm(s, nd, Plain) && info == InfoOf(H, d) && (neat ==> TidyNode(s, nd))
  }

  lemma StillAsked(H: Hashing, s: Snap, s': Snap, nd: Node, info: Info, d: Term, neat: bool)
    requires Trusted(H, s, false) && Step(s, s', neat) && Asked(H, s, nd, info, d, neat)
    ensures Asked(H, s', nd, info, d, neat)
  {
    LaterFits(s, s', nd);
    NodeTermLater(s, s', nd, Plain);
    if nd.ClosN? { StillClear(s, s', nd.t, neat); }
  }

  lemma StillNotPerm(H: Hashing, s: Snap, s': Snap, d: Term, neat: bool)
    requires Trusted(H, s, false) && Step(s, s', neat) && NotPerm(s, d) && s.frozen
    ensures NotPerm(s', d)
  {
    NotPermLater(s, s', d);
  }

  // ---------------------------------------------------------------- walking along the slots

  function IndexOf(s: Snap, inPerm: bool): Index { if inPerm then s.perm else s.temp }

  /** Where the walk for a term d stands after e steps, all past full slots, and (if sure) past other terms. */
  ghost predicate Walk(H: Hashing, s: Snap, inPerm: bool, hash: nat, i: nat, e: nat, d: Term, sure: bool) {
    var slots := IndexOf(s, inPerm).slots;
    i < |slots| && i == Pos(StartOf(H, hash, |slots|), e, |slots|) && Passed(s, slots, StartOf(H, hash, |slots|), e, d, sure)
  }

  ghost predicate EndsAt(H: Hashing, s: Snap, inPerm: bool, hash: nat, i: nat, e: nat, d: Term, sure: bool) {
    Walk(H, s, inPerm, hash, i, e, d, sure) && IndexOf(s, inPerm).slots[i].Empty?
  }

  lemma WalkStart(H: Hashing, s: Snap, inPerm: bool, hash: nat, d: Term, sure: bool)
    requires Trusted(H, s, false)
    ensures var n := |IndexOf(s, inPerm).slots|; n > 0 && Walk(H, s, inPerm, hash, StartOf(H, hash, n), 0, d, sure)
  {
  }

  lemma SlotHandle(H: Hashing, s: Snap, inPerm: bool, i: nat)
    requires Trusted(H, s, false) && i < |IndexOf(s, inPerm).slots| && IndexOf(s, inPerm).slots[i].Full?
    ensures var h := IndexOf(s, inPerm).slots[i].h; h < |s.nodes| && (inPerm ==> h < Perm(s))
  {
    assert Has(IndexOf(s, inPerm).slots, IndexOf(s, inPerm).slots[i].h);
  }

  /** The index has not moved under the walk. */
  ghost predicate Unmoved(s: Snap, s': Snap, inPerm: bool) {
    if inPerm then s.frozen || s' == s else s'.temp.gen == s.temp.gen
  }

  lemma SlotsStay(s: Snap, s': Snap, inPerm: bool)
    requires Later(s, s') && Unmoved(s, s', inPerm)
    ensures SlotsLater(IndexOf(s, inPerm).slots, IndexOf(s', inPerm).slots)
  {
  }

  lemma WalkOn(H: Hashing, s: Snap, s': Snap, inPerm: bool, hash: nat, i: nat, e: nat, d: Term, sure: bool, neat: bool)
    requires Trusted(H, s, false) && Step(s, s', neat) && Walk(H, s, inPerm, hash, i, e, d, sure) && Unmoved(s, s', inPerm)
    requires var sl := IndexOf(s, inPerm).slots[i]; sl.Full? && (sure ==> D(s, sl.h) != d)
    ensures |IndexOf(s', inPerm).slots| == |IndexOf(s, inPerm).slots|
    ensures Walk(H, s', inPerm, hash, Next(i, |IndexOf(s, inPerm).slots|), e + 1, d, sure)
  {
    var xs, ys := IndexOf(s, inPerm).slots, IndexOf(s', inPerm).slots;
    SlotsStay(s, s', inPerm);
    forall h: nat | Has(xs, h) ensures h < |s.den| {
      var j :| 0 <= j < |xs| && xs[j] == Full(h);
      SlotHandle(H, s, inPerm, j);
    }
    assert Passed(s, xs, StartOf(H, hash, |xs|), e + 1, d, sure);
    PassedLater(s, s', xs, ys, StartOf(H, hash, |xs|), e + 1, d, sure);
  }

  /** A walk that ends at an empty slot past other terms: none of that tier denotes the term. */
  lemma WalkEnds(H: Hashing, s: Snap, inPerm: bool, i: nat, e: nat, d: Term)
    requires Trusted(H, s, false) && EndsAt(H, s, inPerm, HashOf(H, d), i, e, d, true)
    ensures if inPerm then NotPerm(s, d) else forall h :: Perm(s) <= h < |s.nodes| ==> D(s, h) != d
  {
    AbsentIn(H, s, IndexOf(s, inPerm), if inPerm then 0 else Perm(s), if inPerm then Perm(s) else |s.nodes|, e, d);
  }

  // ---------------------------------------------------------------- what the operations keep

  lemma SameNodes(H: Hashing, s: Snap, s': Snap)
    requires NodesOk(H, s) && s'.nodes == s.nodes && s'.infos == s.infos && s'.envs == s.envs && s'.den == s.den
    requires s'.frozen == s.frozen && s'.wm == s.wm
    ensures NodesOk(H, s')
  {
    SameDens(H, s, s');
    forall h: nat | h < |s.nodes| ensures NodeOk(s', h) {
      assert NodeOk(s, h);
      SameTerm(s, s', s.nodes[h]);
    }
    forall e | 0 <= e < |s.envs| ensures EnvTerms(s', e) == EnvTerms(s, e) {}
  }

  lemma SameTerm(s: Snap, s': Snap, nd: Node)
    requires s'.den == s.den && s'.envs == s.envs
    ensures NodeTerm(s', nd, Plain) == NodeTerm(s, nd, Plain)
  {
    assert forall h :: D(s', h) == D(s, h);
    if nd.ClosN? { assert EnvTerms(s', nd.env) == EnvTerms(s, nd.env); }
  }

  /** A new handle, put where its walk ended. */
  lemma PlaceOk(H: Hashing, s: Snap, nd: Node, info: Info, d: Term, i: nat, e: nat, neat: bool)
    requires Trusted(H, s, neat) && Asked(H, s, nd, info, d, neat) && NotPerm(s, d)
    requires EndsAt(H, s, !s.frozen, info.hash, i, e, d, !s.frozen || neat)
    requires !s.frozen ==> s.perm.count + 1 < |s.perm.slots|
    ensures var s' := Put(s, nd, info, d, i); Trusted(H, s', neat) && Step(s, s', neat) && D(s', |s.nodes|) == d
  {
    var a, s' := Appended(s, nd, info, d), Put(s, nd, info, d, i);
    AppendOk(H, s, nd, info, d);
    SameNodes(H, a, s');
    PutOk(H, s, nd, info, d, i, e, neat);
    if neat { PlaceNeat(H, s, nd, info, d, i, e); }
    TrustedIs(H, s', neat);
  }

  lemma PutOk(H: Hashing, s: Snap, nd: Node, info: Info, d: Term, i: nat, e: nat, neat: bool)
    requires Trusted(H, s, false) && info == InfoOf(H, d)
    requires EndsAt(H, s, !s.frozen, info.hash, i, e, d, !s.frozen || neat)
    requires !s.frozen ==> s.perm.count + 1 < |s.perm.slots|
    ensures Indexed(H, Put(s, nd, info, d, i)) && Step(s, Put(s, nd, info, d, i), neat)
  {
    PutIndexed(H, s, nd, info, d, e, i);
  }

  lemma PlaceNeat(H: Hashing, s: Snap, nd: Node, info: Info, d: Term, i: nat, e: nat)
    requires Trusted(H, s, true) && Asked(H, s, nd, info, d, true) && NotPerm(s, d)
    requires EndsAt(H, s, !s.frozen, info.hash, i, e, d, true)
    ensures Neat(Put(s, nd, info, d, i))
  {
    WalkEnds(H, s, !s.frozen, i, e, d);
    AppendNeat(s, Put(s, nd, info, d, i), nd, d);
  }

  /** An index grown: the same handles. */
  lemma Regrown(H: Hashing, s: Snap, inPerm: bool, y: Index, neat: bool)
    requires Trusted(H, s, neat) && (inPerm ==> !s.frozen) && IndexOk(KeysOf(H, s.infos), y)
    requires var x := IndexOf(s, inPerm);
             |y.slots| == 2 * |x.slots| && y.count == x.count && y.gen == x.gen + 1 && y.track == x.track
             && forall h: nat {:trigger Has(y.slots, h)} :: Has(y.slots, h) <==> Has(x.slots, h)
    ensures var s' := if inPerm then s.(perm := y) else s.(temp := y); Trusted(H, s', neat) && Step(s, s', neat)
  {
    var s' := if inPerm then s.(perm := y) else s.(temp := y);
    SameNodes(H, s, s');
    if neat { SameNeat(s, s'); }
  }

  /** A closure replaced by the root of its expansion. */
  lemma Exposes(H: Hashing, s: Snap, e: Expr, nd: Node, neat: bool)
    requires Trusted(H, s, neat) && Perm(s) <= e < |s.nodes| && !nd.ClosN? && !nd.BVarN?
    requires Fits(s, nd) && D(s, e) == NodeTerm(s, nd, Plain) && (neat ==> s.nodes[e].ClosN?)
    ensures Trusted(H, Exposed(s, e, nd), neat) && Move(s, Exposed(s, e, nd), neat)
  {
    ExposeOk(H, s, e, nd);
    if neat { ExposeNeat(s, Exposed(s, e, nd), e, nd); }
    MoveIs(s, Exposed(s, e, nd), neat);
  }

  lemma EnvAdded(H: Hashing, s: Snap, hs: seq<Expr>, neat: bool)
    requires Trusted(H, s, neat) && Bounded(hs, |s.nodes|) && forall k :: 0 <= k < |hs| ==> Closed(D(s, hs[k]))
    ensures Trusted(H, WithEnv(s, hs), neat) && Step(s, WithEnv(s, hs), neat)
    ensures EnvTerms(WithEnv(s, hs), |s.envs|) == seq(|hs|, i requires 0 <= i < |hs| => D(s, hs[i]))
  {
    EnvOk(H, s, hs);
    if neat { SameNeat(s, WithEnv(s, hs)); }
  }

  /** A new table. */
  lemma NewOk(H: Hashing, s: Snap, cap: nat, small: nat)
    requires s == Snap([], [], [], false, 0, EmptyIndex(cap, false), EmptyIndex(small, true), []) && cap > 0 && small > 0
    ensures Trusted(H, s, true)
  {
    EmptyOk(KeysOf(H, []), cap, false);
    EmptyOk(KeysOf(H, []), small, true);
  }

  /** Freezing makes every handle permanent, and the table neat. */
  lemma FreezeOk(H: Hashing, s: Snap, s': Snap)
    requires Trusted(H, s, false) && !s.frozen && s' == s.(frozen := true, wm := |s.nodes|)
    requires forall h :: 0 <= h < |s.nodes| ==> !s.nodes[h].FVarN?
    ensures Trusted(H, s', true)
  {
    SameDens(H, s, s');
    forall h: nat | h < |s.nodes| ensures NodeOk(s', h) {
      assert NodeOk(s, h);
      SameTerm(s, s', s.nodes[h]);
    }
    forall e | 0 <= e < |s.envs| ensures EnvTerms(s', e) == EnvTerms(s, e) {}
    FrozenNeat(s');
  }

  /** Before the freeze every table is neat. */
  lemma LoadingNeat(H: Hashing, s: Snap)
    requires Trusted(H, s, false) && !s.frozen
    ensures Trusted(H, s, true)
  {
    FrozenNeat(s);
  }

  /** The permanent tier on its own, with an empty temporary index. */
  ghost function Truncated(s: Snap, temp: Index): Snap
    requires s.wm <= |s.nodes| && s.wm <= |s.infos| && s.wm <= |s.den|
  {
    Snap(s.nodes[..s.wm], s.infos[..s.wm], [], true, s.wm, s.perm, temp, s.den[..s.wm])
  }

  lemma TruncatedNodes(H: Hashing, s: Snap, temp: Index)
    requires Trusted(H, s, false) && s.frozen
    ensures NodesOk(H, Truncated(s, temp)) && Neat(Truncated(s, temp))
  {
    var s' := Truncated(s, temp);
    forall h | 0 <= h < s.wm ensures D(s', h) == D(s, h) && s'.nodes[h] == s.nodes[h] {}
    forall h: nat | h < s.wm ensures NodeOk(s', h) && InfoOk(H, s', h) {
      var ps := Parts(s.nodes[h]);
      assert NodeOk(s, h) && InfoOk(H, s, h) && Bounded(ps, s.wm);
      assert forall k :: 0 <= k < |ps| ==> D(s', ps[k]) == D(s, ps[k]);
      PartsTerm(s, s', s.nodes[h]);
    }
    FrozenNeat(s');
  }

  lemma PartsTerm(s: Snap, s': Snap, nd: Node)
    requires !nd.ClosN? && forall k :: 0 <= k < |Parts(nd)| ==> D(s', Parts(nd)[k]) == D(s, Parts(nd)[k])
    ensures NodeTerm(s', nd, Plain) == NodeTerm(s, nd, Plain)
  {
    var ps := Parts(nd);
    match nd
    case AppN(f, a) => assert ps[0] == f && ps[1] == a;
    case LamN(d, b) => assert ps[0] == d && ps[1] == b;
    case PiN(d, b) => assert ps[0] == d && ps[1] == b;
    case LetN(y, v, b) => assert ps[0] == y && ps[1] == v && ps[2] == b;
    case ProjN(_, _, e) => assert ps[0] == e;
    case _ =>
  }

  /** The permanent tier satisfies every invariant by itself, and no two of its handles denote the same term. */
  lemma TruncatedOk(H: Hashing, s: Snap, temp: Index)
    requires Trusted(H, s, false) && s.frozen
    requires |temp.slots| > 0 && temp == Index(seq(|temp.slots|, i => Empty), 0, temp.gen, true, [])
    ensures Trusted(H, Truncated(s, temp), true)
  {
    TruncatedNodes(H, s, temp);
    var infos := s.infos[..s.wm];
    forall h: nat | Has(s.perm.slots, h) ensures SpreadAt(H, s.infos, h) == SpreadAt(H, infos, h) {}
    KeysSame(H, s.infos, infos, s.perm);
    NoneFull(temp.slots);
  }

  /** A table that counts no full slot has none. */
  lemma {:induction false} CountedEmpty(slots: seq<Slot>)
    requires CountFull(slots) == 0
    ensures forall i :: 0 <= i < |slots| ==> slots[i].Empty?
    decreases |slots|
  {
    if slots != [] { CountedEmpty(slots[..|slots| - 1]); }
  }
}
