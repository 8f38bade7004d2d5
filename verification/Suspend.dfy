// Hash-consing modulo materialisation (src/expr.cpp): suspended substitutions are composed, hashed, compared
// and exposed in place without being expanded, in a permanent and a temporary tier of one node table.
module Suspend {
  import opened Names
  import opened Terms
  import opened Probing
  import opened InternTable
  import opened SuspendModel
  import opened SuspendTidy
  import opened Comparison
  import opened SuspendProbe
  import L = Levels

  /** An answer to "are these the same?": always right when yes, and right when no if `sure`. */
  ghost predicate Answers(eq: bool, a: Term, b: Term, sure: bool) { (eq ==> a == b) && (!eq && sure ==> a != b) }

  /** The same of two pairs. */
  ghost predicate AnswersTwo(eq: bool, a: Term, b: Term, a': Term, b': Term, sure: bool) {
    (eq ==> a == a' && b == b') && (!eq && sure ==> a != a' || b != b')
  }

  /** Where the comparison needs no node made, it gives that verdict and changes nothing. */
  ghost predicate Tells(v: Verdict, ok: bool, eq: bool, s: Snap, s': Snap) {
    (v.Same? ==> ok && eq && s' == s) && (v.Different? ==> ok && !eq && s' == s)
  }

  ghost predicate PermView(s: Snap, x: Expr, u: Under) { u.Plain? && x < Perm(s) }

  ghost predicate PermNode(s: Snap, a: Node, u: Under) { u.Plain? && !a.ClosN? && Bounded(Parts(a), Perm(s)) }

  ghost function HandleTerms(s: Snap, hs: seq<Expr>): (ts: seq<Term>)
    ensures |ts| == |hs| && forall i :: 0 <= i < |hs| ==> ts[i] == D(s, hs[i])
  {
    seq(|hs|, i requires 0 <= i < |hs| => D(s, hs[i]))
  }

  /** No handle is found equal to the node, and its index needs no growing. */
  ghost predicate Unmet(s: Snap, nd: Node, fuel: nat) {
    && fuel > 0 && (forall h: nat {:trigger NodeAgrees(s, h, nd, fuel - 1)} :: h < |s.nodes| ==> NodeAgrees(s, h, nd, fuel - 1).Different?)
    && Roomy(IndexOf(s, !s.frozen))
  }

  predicate Roomy(x: Index) { (x.count + 1) * 4 < |x.slots| * 3 }

  /** The node has the next handle, and nothing else has changed. */
  ghost predicate Added(s: Snap, s': Snap, nd: Node, d: Term) {
    && s'.nodes == s.nodes + [nd] && s'.den == s.den + [d] && |s'.infos| == |s.infos| + 1 && s'.infos[..|s.infos|] == s.infos
    && s'.envs == s.envs && s'.frozen == s.frozen && s'.wm == s.wm
    && |s'.perm.slots| == |s.perm.slots| && s'.perm.count == s.perm.count + (if s.frozen then 0 else 1)
    && |s'.temp.slots| == |s.temp.slots| && s'.temp.count == s.temp.count + (if s.frozen then 1 else 0)
  }

  /** A term made by application whose attributes under a substitution are found without making a node. */
  ghost predicate Spine(s: Snap, t: Expr, p: nat, fuel: nat)
    decreases fuel
  {
    t < |s.nodes| && t < |s.infos|
    && (s.infos[t].lbr <= p || (fuel > 0 && (s.nodes[t].BVarN?
          || (s.nodes[t].AppN? && Spine(s, s.nodes[t].f, p, fuel - 1) && Spine(s, s.nodes[t].a, p, fuel - 1)))))
  }

  class ExprTable {
    const H: Hashing
    const small: nat         // the capacity an oversized temporary index is shrunk to
    var nodes: seq<Node>
    var infos: seq<Info>
    var envs: seq<seq<Expr>>
    var frozen: bool
    var wm: nat              // the first temporary handle, once frozen
    var perm: Index          // where the permanent handles are found
    var temp: Index          // ... and the temporary ones
    ghost var den: seq<Term>

    ghost function Now(): Snap
      reads this
    {
      Snap(nodes, infos, envs, frozen, wm, perm, temp, den)
    }

    /** The invariant; with `neat`, also that handles are canonical and closures suspend over terms without closures. */
    ghost predicate Valid(neat: bool)
      reads this
    {
      small > 0 && Trusted(H, Now(), neat)
    }

    constructor (H: Hashing, cap: nat, small: nat)
      requires cap > 0 && small > 0
      ensures Valid(true) && this.H == H && this.small == small
      ensures Now() == Snap([], [], [], false, 0, EmptyIndex(cap, false), EmptyIndex(small, true), [])
    {
      this.H, this.small := H, small;
      nodes, infos, envs, frozen, wm, den := [], [], [], false, 0, [];
      perm, temp := EmptyIndex(cap, false), EmptyIndex(small, true);
      new;
      NewOk(H, Now(), cap, small);
    }

    // ---------------------------------------------------------------- the two tiers

    /** Everything made so far becomes permanent; the loader makes no free variables. */
    method Freeze()
      requires Valid(false) && !frozen && forall h :: 0 <= h < |nodes| ==> !nodes[h].FVarN?
      modifies this`frozen, this`wm
      ensures Valid(true) && Now() == old(Now()).(frozen := true, wm := |nodes|)
    {
      ghost var s := Now();
      frozen, wm := true, |nodes|;
      FreezeOk(H, s, Now());
    }

    /** Drop the temporary tier: the permanent one is as it was, nothing else is left, and the table is neat. */
    method Reclaim()
      requires Valid(false)
      modifies this
      ensures Valid(true) && frozen == old(frozen)
      ensures if frozen then temp.count == 0 && Now() == Truncated(old(Now()), temp) else Now() == old(Now())
    {
      if !frozen {
        LoadingNeat(H, Now());
        return;
      }
      ghost var s := Now();
      temp := EmptiedTemp();
      nodes, infos, envs := nodes[..wm], infos[..wm], [];
      den := den[..wm];
      TruncatedOk(H, s, temp);
    }

    /** An untouched index is left alone, an oversized one shrunk, any other emptied by its recorded slots. */
    method EmptiedTemp() returns (x: Index)
      requires Valid(false)
      ensures |x.slots| > 0 && x == Index(seq(|x.slots|, i => Empty), 0, temp.gen, true, [])
    {
      if temp.count == 0 {
        CountedEmpty(temp.slots);
        NothingRecorded(temp);
        return temp;
      }
      if |temp.slots| > 4 * small { return Index(seq(small, i => Empty), 0, temp.gen, true, []); }
      x := ClearUsed(KeysOf(H, infos), temp);
    }

    // ---------------------------------------------------------------- interning

    /** The handle for a node, made if there is none. */
    method Intern(nd: Node, info: Info, tmp: bool, fuel: nat, ghost d: Term, ghost neat: bool) returns (ok: bool, r: Expr)
      requires Valid(neat) && Asked(H, Now(), nd, info, d, neat) && (nd.ClosN? && tmp ==> NotPerm(Now(), d))
      modifies this
      ensures Valid(neat) && Step(old(Now()), Now(), neat)
      ensures ok ==> r < |nodes| && D(Now(), r) == d
      ensures fuel > 0 && Unmet(old(Now()), nd, fuel - 1) ==> ok && r == |old(nodes)| && Added(old(Now()), Now(), nd, d)
      decreases fuel, 6
    {
      hide TrustIn, ChangeOf;
      r := 0;
      if fuel == 0 {
        Stays(Now(), neat);
        return false, 0;
      }
      if !frozen {
        ok, r := InternPerm(nd, info, fuel - 1, d, neat);
        return;
      }
      var found;
      ok, found, r := FindPerm(nd, info, tmp, fuel - 1, d, neat);
      if !ok || found { return; }
      ghost var s := Now();
      StillAsked(H, old(Now()), s, nd, info, d, neat);
      ok, r := InternTemp(nd, info, fuel - 1, d, neat);
      StepTrans(old(Now()), s, Now(), neat);
    }

    /** While loading: the permanent index is probed, and added to. */
    method InternPerm(nd: Node, info: Info, fuel: nat, ghost d: Term, ghost neat: bool) returns (ok: bool, r: Expr)
      requires Valid(neat) && !frozen && Asked(H, Now(), nd, info, d, neat)
      modifies this
      ensures Valid(neat) && Step(old(Now()), Now(), neat)
      ensures ok ==> r < |nodes| && D(Now(), r) == d
      ensures Unmet(old(Now()), nd, fuel) ==> ok && r == |old(nodes)| && Added(old(Now()), Now(), nd, d)
      decreases fuel, 5
    {
      hide TrustIn, ChangeOf;
      ghost var s0 := Now();
      if !Roomy(perm) { GrowIndex(true, neat); } else { Stays(s0, neat); }
      ghost var s1 := Now();
      StillAsked(H, s0, s1, nd, info, d, neat);
      var found, i;
      ghost var e;
      ok, found, r, i, e := Probe(true, nd, info, fuel, d, neat);
      if !ok || found { return; }
      WalkEnds(H, s1, true, i, e, d);
      r := Place(nd, info, i, e, d, neat);
      StepTrans(s0, s1, Now(), neat);
    }

    /** Once frozen, the permanent index is only looked at. */
    method FindPerm(nd: Node, info: Info, tmp: bool, fuel: nat, ghost d: Term, ghost neat: bool)
      returns (ok: bool, found: bool, r: Expr)
      requires Valid(neat) && frozen && Asked(H, Now(), nd, info, d, neat) && (nd.ClosN? && tmp ==> NotPerm(Now(), d))
      modifies this
      ensures Valid(neat) && Step(old(Now()), Now(), neat)
      ensures ok && found ==> r < |nodes| && D(Now(), r) == d
      ensures ok && !found ==> NotPerm(Now(), d)
      ensures Unmet(old(Now()), nd, fuel) ==> ok && !found && Now() == old(Now())
      decreases fuel, 5
    {
      hide TrustIn, ChangeOf;
      ghost var s0 := Now();
      if MaybePerm(nd, tmp) {
        var i;
        ghost var e;
        ok, found, r, i, e := Probe(true, nd, info, fuel, d, neat);
        if ok && !found { WalkEnds(H, Now(), true, i, e, d); }
      } else {
        Stays(s0, neat);
        if !nd.ClosN? { TempPart(H, s0, nd, d); }
        ok, found, r := true, false, 0;
      }
    }

    /** The temporary index is probed, and added to. */
    method InternTemp(nd: Node, info: Info, fuel: nat, ghost d: Term, ghost neat: bool) returns (ok: bool, r: Expr)
      requires Valid(neat) && frozen && Asked(H, Now(), nd, info, d, neat) && NotPerm(Now(), d)
      modifies this
      ensures Valid(neat) && Step(old(Now()), Now(), neat)
      ensures ok ==> r < |nodes| && D(Now(), r) == d
      ensures Unmet(old(Now()), nd, fuel) ==> ok && r == |old(nodes)| && Added(old(Now()), Now(), nd, d)
      decreases fuel, 5
    {
      hide TrustIn, ChangeOf;
      ghost var s0 := Now();
      if !Roomy(temp) { GrowIndex(false, neat); } else { Stays(s0, neat); }
      ghost var s1 := Now();
      StillAsked(H, s0, s1, nd, info, d, neat);
      var found, i;
      ghost var e;
      ok, found, r, i, e := Probe(false, nd, info, fuel, d, neat);
      ghost var s2 := Now();
      StepTrans(s0, s1, s2, neat);
      if !ok || found { return; }
      StillAsked(H, s1, s2, nd, info, d, neat);
      StillNotPerm(H, s0, s2, d, neat);
      r := Place(nd, info, i, e, d, neat);
      StepTrans(s0, s2, Now(), neat);
    }

    /** Whether a node can equal a permanent one: not with a temporary part, nor if a closure is known to hold one. */
    predicate MaybePerm(nd: Node, tmp: bool)
      reads this
    {
      match nd
      case FVarN(_) => false
      case ClosN(_, _, _) => !tmp
      case _ => forall k :: 0 <= k < |Parts(nd)| ==> Parts(nd)[k] < wm
    }

    /** Twice the slots; while loading for the permanent index, afterwards for the temporary one. */
    method GrowIndex(inPerm: bool, ghost neat: bool)
      requires Valid(neat) && inPerm == !frozen
      modifies this`perm, this`temp
      ensures Valid(neat) && Step(old(Now()), Now(), neat)
      ensures inPerm ==> perm.count + 1 < |perm.slots|
    {
      ghost var s := Now();
      var y := Grow(KeysOf(H, infos), if inPerm then perm else temp);
      Regrown(H, s, inPerm, y, neat);
      if inPerm { perm := y; } else { temp := y; }
    }

    /** The next handle, in the slot where its probe ended. */
    method Place(nd: Node, info: Info, i: nat, ghost e: nat, ghost d: Term, ghost neat: bool) returns (r: Expr)
      requires Valid(neat) && Asked(H, Now(), nd, info, d, neat) && NotPerm(Now(), d)
      requires EndsAt(H, Now(), !frozen, info.hash, i, e, d, !frozen || neat)
      requires !frozen ==> perm.count + 1 < |perm.slots|
      modifies this`nodes, this`infos, this`den, this`perm, this`temp
      ensures Valid(neat) && Step(old(Now()), Now(), neat) && r == |old(nodes)| < |nodes| && D(Now(), r) == d
      ensures Added(old(Now()), Now(), nd, d)
    {
      hide TrustIn, ChangeOf;
      PlaceOk(H, Now(), nd, info, d, i, e, neat);
      r := |nodes|;
      if frozen { temp := Filled(temp, i, r); } else { perm := Filled(perm, i, r); }
      nodes, infos, den := nodes + [nd], infos + [info], den + [d];
    }

    /**
     * Follow a node's probes to a handle found equal, or to the first empty slot.  The equality test may
     * intern nodes itself; if the index has grown under the probe, it starts again.  Not ok if every slot
     * is full.
     */
    method Probe(inPerm: bool, nd: Node, info: Info, fuel: nat, ghost d: Term, ghost neat: bool)
      returns (ok: bool, found: bool, r: Expr, i: nat, ghost e: nat)
      requires Valid(neat) && Asked(H, Now(), nd, info, d, neat) && (inPerm || frozen)
      modifies this
      ensures Valid(neat) && Step(old(Now()), Now(), neat) && (!frozen ==> Now() == old(Now()))
      ensures ok && found ==> r < |nodes| && D(Now(), r) == d
      ensures ok && !found ==> EndsAt(H, Now(), inPerm, info.hash, i, e, d, inPerm || neat)
      ensures Unmet(old(Now()), nd, fuel) ==> ok && !found && Now() == old(Now())
      decreases fuel, 4
    {
      hide TrustIn, ChangeOf, Asked, Unmet, StartOf, Passed;
      ghost var s0, sure := Now(), inPerm || neat;
      found, r, e := false, 0, 0;
      Stays(s0, neat);
      var n, gen := |(if inPerm then perm else temp).slots|, temp.gen;
      WalkStart(H, s0, inPerm, info.hash, d, sure);
      i := StartOf(H, info.hash, n);
      ghost var stop := FreeSlot(H, s0, inPerm, i, nd, fuel);
      for k := 0 to n
        invariant e == k
        invariant Valid(neat) && Step(s0, Now(), neat) && (!frozen ==> Now() == s0)
        invariant Asked(H, Now(), nd, info, d, neat) && Unmoved(s0, Now(), inPerm)
        invariant |IndexOf(Now(), inPerm).slots| == n && Walk(H, Now(), inPerm, info.hash, i, e, d, sure)
        invariant Unmet(s0, nd, fuel) ==> Now() == s0 && e <= stop
      {
        var slot := (if inPerm then perm else temp).slots[i];
        if slot.Empty? { return true, false, 0, i, e; }
        ghost var s := Now();
        SlotHandle(H, s, inPerm, i);
        var eq;
        ok, eq := Meets(slot.h, inPerm, nd, info, fuel, d, neat);
        StepTrans(s0, s, Now(), neat);
        if !ok || eq {
          StillDenotes(H, s, Now(), slot.h, neat);
          return ok, eq, slot.h, i, e;
        }
        StillAsked(H, s, Now(), nd, info, d, neat);
        if !inPerm && temp.gen != gen {
          ok, found, r, i, e := Restart(s0, nd, info, fuel, d, neat);
          return;
        }
        WalkOn(H, s, Now(), inPerm, info.hash, i, e, d, sure, neat);
        i, e := Next(i, n), e + 1;
      }
      ok := false;
    }

    method Restart(ghost s0: Snap, nd: Node, info: Info, fuel: nat, ghost d: Term, ghost neat: bool)
      returns (ok: bool, found: bool, r: Expr, i: nat, ghost e: nat)
      requires Valid(neat) && Step(s0, Now(), neat) && Asked(H, Now(), nd, info, d, neat) && frozen
      modifies this
      ensures Valid(neat) && Step(s0, Now(), neat)
      ensures ok && found ==> r < |nodes| && D(Now(), r) == d
      ensures ok && !found ==> EndsAt(H, Now(), false, info.hash, i, e, d, neat)
      decreases fuel, 3
    {
      hide TrustIn, ChangeOf;
      if fuel == 0 { return false, false, 0, 0, 0; }
      ghost var s := Now();
      ok, found, r, i, e := Probe(false, nd, info, fuel - 1, d, neat);
      StepTrans(s0, s, Now(), neat);
    }

    /** The test made at an occupied slot: the filter, then the comparison. */
    method Meets(h: Expr, inPerm: bool, nd: Node, info: Info, fuel: nat, ghost d: Term, ghost neat: bool)
      returns (ok: bool, eq: bool)
      requires Valid(neat) && h < |nodes| && Asked(H, Now(), nd, info, d, neat) && (inPerm ==> h < Perm(Now()))
      modifies this
      ensures Valid(neat) && Step(old(Now()), Now(), neat) && (!frozen ==> Now() == old(Now()))
      ensures ok ==> Answers(eq, D(old(Now()), h), d, inPerm || neat)
      ensures Unmet(old(Now()), nd, fuel) ==> ok && !eq && Now() == old(Now())
      decreases fuel, 3
    {
      hide TrustIn, ChangeOf;
      Stays(Now(), neat);
      HashAt(H, Now(), h);
      var mine, asked := H.spread(infos[h].hash), H.spread(info.hash);
      if if inPerm then mine != asked else H.tag(mine) != H.tag(asked) { return true, false; }
      if fuel == 0 { return false, false; }
      ok, eq := NodeEq(h, nd, info, fuel - 1, d, neat);
    }

    // ---------------------------------------------------------------- equality of expansions

    /** Handle i against a node that has no handle yet. */
    method NodeEq(i: Expr, nd: Node, ghost info: Info, fuel: nat, ghost d: Term, ghost neat: bool) returns (ok: bool, eq: bool)
      requires Valid(neat) && i < |nodes| && Asked(H, Now(), nd, info, d, neat)
      modifies this
      ensures Valid(neat) && Step(old(Now()), Now(), neat) && (!frozen ==> Now() == old(Now()))
      ensures ok ==> Answers(eq, D(old(Now()), i), d, i < Perm(old(Now())) || neat)
      ensures Tells(NodeAgrees(old(Now()), i, nd, fuel), ok, eq, old(Now()), Now())
      decreases fuel, 2
    {
      hide TrustIn, ChangeOf, VD;
      ghost var s := Now();
      Stays(s, neat);
      HandleNode(H, s, i, neat);
      if nodes[i] == nd { return true, true; }
      if !nodes[i].ClosN? && !nd.ClosN? {
        SameParts(H, s, i, nd, neat);
        return true, false;
      }
      if fuel == 0 { return false, false; }
      TopIn(H, s, nodes[i], neat);
      TopIn(H, s, nd, neat);
      var a := if nodes[i].ClosN? then nodes[nodes[i].t] else nodes[i];
      var b := if nd.ClosN? then nodes[nd.t] else nd;
      ok, eq := Compare(a, TopUnder(nodes[i]), b, TopUnder(nd), fuel - 1, neat);
    }

    /**
     * Two nodes under their substitutions, neither rewritten at its root.  An unexposed closure opposite
     * another kind of node is never taken for equal, even if its expansion is.
     */
    method Compare(a: Node, u: Under, b: Node, w: Under, fuel: nat, ghost neat: bool) returns (ok: bool, eq: bool)
      requires Valid(neat) && frozen && NodeIn(Now(), a, u, neat) && NodeIn(Now(), b, w, neat) && (u.Under? || w.Under?)
      modifies this
      ensures Valid(neat) && Step(old(Now()), Now(), neat)
      ensures ok ==> Answers(eq, NodeTerm(old(Now()), a, u), NodeTerm(old(Now()), b, w), PermNode(old(Now()), a, u) || neat)
      ensures Tells(NodesAgree(old(Now()), a, u, b, w, fuel), ok, eq, old(Now()), Now())
      decreases fuel, 1
    {
      hide TrustIn, ChangeOf, VD;
      ghost var s := Now();
      Stays(s, neat);
      if Kind(a) != Kind(b) {
        KindsApart(s, a, u, b, w, neat);
        return true, false;
      }
      if fuel == 0 { return false, false; }
      PartsIn(s, a, u, neat);
      PartsIn(s, b, w, neat);
      PartsPerm(s, a, u);
      if a.AppN? {
        ok, eq := Both(a.f, u, a.a, u, b.f, w, b.a, w, fuel - 1, neat);
      } else if a.LamN? || a.PiN? {
        ok, eq := Both(a.d, u, a.b, Shift(u), b.d, w, b.b, Shift(w), fuel - 1, neat);
      } else if a.LetN? {
        ok, eq := CompareLet(a, u, b, w, fuel - 1, neat);
      } else if a.ProjN? {
        if a.s != b.s || a.idx != b.idx { return true, false; }
        ok, eq := ViewEq(a.e, u, b.e, w, fuel - 1, neat);
      } else {
        ok, eq := true, a == b;
      }
    }

    method CompareLet(a: Node, u: Under, b: Node, w: Under, fuel: nat, ghost neat: bool) returns (ok: bool, eq: bool)
      requires Valid(neat) && frozen && NodeIn(Now(), a, u, neat) && NodeIn(Now(), b, w, neat) && a.LetN? && b.LetN?
      modifies this
      ensures Valid(neat) && Step(old(Now()), Now(), neat)
      ensures ok ==> Answers(eq, NodeTerm(old(Now()), a, u), NodeTerm(old(Now()), b, w), PermNode(old(Now()), a, u) || neat)
      ensures fuel > 0 ==> Tells(Along(BothAgree(old(Now()), a.y, u, a.v, u, b.y, w, b.v, w, fuel - 1),
                                       ViewsAgree(old(Now()), a.b, Shift(u), b.b, Shift(w), fuel - 1)), ok, eq, old(Now()), Now())
      decreases fuel, 1
    {
      hide TrustIn, ChangeOf, VD;
      ghost var s0 := Now();
      Stays(s0, neat);
      if fuel == 0 { return false, false; }
      PartsIn(s0, a, u, neat);
      PartsIn(s0, b, w, neat);
      PartsPerm(s0, a, u);
      ok, eq := Both(a.y, u, a.v, u, b.y, w, b.v, w, fuel - 1, neat);
      if !ok || !eq { return; }
      ghost var s := Now();
      StepMove(s0, s, neat);
      StillViews(H, s0, s, a.b, Shift(u), neat);
      StillViews(H, s0, s, b.b, Shift(w), neat);
      ok, eq := ViewEq(a.b, Shift(u), b.b, Shift(w), fuel - 1, neat);
      StepTrans(s0, s, Now(), neat);
    }

    method Both(x: Expr, u: Under, y: Expr, v: Under, x': Expr, u': Under, y': Expr, v': Under, fuel: nat, ghost neat: bool)
      returns (ok: bool, eq: bool)
      requires Valid(neat) && frozen && ViewIn(Now(), x, u, neat) && ViewIn(Now(), y, v, neat)
      requires ViewIn(Now(), x', u', neat) && ViewIn(Now(), y', v', neat)
      modifies this
      ensures Valid(neat) && Step(old(Now()), Now(), neat)
      ensures ok ==> AnswersTwo(eq, VD(old(Now()), x, u), VD(old(Now()), y, v), VD(old(Now()), x', u'), VD(old(Now()), y', v'),
                                (PermView(old(Now()), x, u) && PermView(old(Now()), y, v)) || neat)
      ensures Tells(BothAgree(old(Now()), x, u, y, v, x', u', y', v', fuel), ok, eq, old(Now()), Now())
      decreases fuel, 1
    {
      hide TrustIn, ChangeOf, VD;
      ghost var s0 := Now();
      Stays(s0, neat);
      if fuel == 0 { return false, false; }
      ok, eq := ViewEq(x, u, x', u', fuel - 1, neat);
      if !ok || !eq { return; }
      ghost var s := Now();
      StepMove(s0, s, neat);
      StillViews(H, s0, s, y, v, neat);
      StillViews(H, s0, s, y', v', neat);
      ok, eq := ViewEq(y, v, y', v', fuel - 1, neat);
      StepTrans(s0, s, Now(), neat);
    }

    method ViewEq(x: Expr, u: Under, y: Expr, w: Under, fuel: nat, ghost neat: bool) returns (ok: bool, eq: bool)
      requires Valid(neat) && frozen && ViewIn(Now(), x, u, neat) && ViewIn(Now(), y, w, neat)
      modifies this
      ensures Valid(neat) && Step(old(Now()), Now(), neat)
      ensures ok ==> Answers(eq, VD(old(Now()), x, u), VD(old(Now()), y, w), PermView(old(Now()), x, u) || neat)
      ensures Tells(ViewsAgree(old(Now()), x, u, y, w, fuel), ok, eq, old(Now()), Now())
      decreases fuel, 1, 1
    {
      hide TrustIn, ChangeOf, VD;
      ghost var s0 := Now();
      eq := false;
      Stays(s0, neat);
      if fuel == 0 { return false, false; }
      var x1, u1, y1, w1;
      ok, x1, u1 := Resolve(x, u, fuel - 1, neat);
      if !ok { return; }
      ghost var s1 := Now();
      StepMove(s0, s1, neat);
      StillViews(H, s0, s1, y, w, neat);
      ok, y1, w1 := Resolve(y, w, fuel - 1, neat);
      ghost var s2 := Now();
      StepTrans(s0, s1, s2, neat);
      if !ok { return; }
      StepMove(s1, s2, neat);
      StillRooted(H, s1, s2, x1, u1, neat);
      ok, eq := RootsEq(x1, u1, y1, w1, fuel, neat);
      StepTrans(s0, s2, Now(), neat);
    }

    /** Two views resolved; interned nodes are taken to be canonical. */
    method RootsEq(x: Expr, u: Under, y: Expr, w: Under, fuel: nat, ghost neat: bool) returns (ok: bool, eq: bool)
      requires Valid(neat) && frozen && Rooted(Now(), x, u, neat) && Rooted(Now(), y, w, neat) && fuel > 0
      modifies this
      ensures Valid(neat) && Step(old(Now()), Now(), neat)
      ensures ok ==> Answers(eq, VD(old(Now()), x, u), VD(old(Now()), y, w), PermView(old(Now()), x, u) || neat)
      ensures Tells(RootsAgree(old(Now()), To(x, u), To(y, w), fuel), ok, eq, old(Now()), Now())
      decreases fuel, 1, 0
    {
      hide TrustIn, ChangeOf;
      ghost var s := Now();
      Stays(s, neat);
      if u.Plain? && w.Plain? {
        HandlesDiffer(H, s, x, y, neat);
        return true, x == y;
      }
      if x == y && u == w { return true, true; }
      HandleNode(H, s, x, neat);
      HandleNode(H, s, y, neat);
      RootedNode(s, x, u, neat);
      RootedNode(s, y, w, neat);
      ok, eq := Compare(nodes[x], u, nodes[y], w, fuel - 1, neat);
    }

    /** Follow a view to a node whose root stands. */
    method Resolve(x: Expr, u: Under, fuel: nat, ghost neat: bool) returns (ok: bool, x': Expr, u': Under)
      requires Valid(neat) && frozen && ViewIn(Now(), x, u, neat)
      modifies this
      ensures Valid(neat) && Step(old(Now()), Now(), neat)
      ensures ok ==> Rooted(Now(), x', u', neat) && VD(Now(), x', u') == VD(old(Now()), x, u)
      ensures PermView(old(Now()), x, u) ==> x' == x && u' == u
      ensures Root(old(Now()), x, u, fuel).To? ==> ok && To(x', u') == Root(old(Now()), x, u, fuel) && Now() == old(Now())
      decreases fuel, 0
    {
      hide TrustIn, ChangeOf;
      ghost var s0 := Now();
      x', u' := x, u;
      Stays(s0, neat);
      HandleNode(H, s0, x, neat);
      if u.Plain? {
        if !nodes[x].ClosN? { return true, x, u; }
        if fuel == 0 { return false, x, u; }
        var n := nodes[x];
        ClosureLead(H, s0, x, neat);
        ok, x', u' := Resolve(n.t, Under(n.env, n.p), fuel - 1, neat);
        return;
      }
      FineRoot(s0, x, u, neat);
      if infos[x].lbr <= u.p {
        LoneLead(H, s0, x, u);
        return true, x, Plain;
      }
      if fuel == 0 { return false, x, u; }
      if nodes[x].BVarN? || nodes[x].ClosN? {
        ok, x', u' := ResolveRewritten(x, u.env, u.p, fuel - 1, neat);
      } else {
        ok := true;
      }
    }

    /** A variable replaced, or a closure under a substitution: made first, and then resolved. */
    method ResolveRewritten(x: Expr, env: nat, p: nat, fuel: nat, ghost neat: bool) returns (ok: bool, x': Expr, u': Under)
      requires Valid(neat) && frozen && ViewIn(Now(), x, Under(env, p), neat) && infos[x].lbr > p
      requires nodes[x].BVarN? || nodes[x].ClosN?
      modifies this
      ensures Valid(neat) && Step(old(Now()), Now(), neat)
      ensures ok ==> Rooted(Now(), x', u', neat) && VD(Now(), x', u') == VD(old(Now()), x, Under(env, p))
      ensures Root(old(Now()), x, Under(env, p), fuel + 1).To? ==>
                ok && To(x', u') == Root(old(Now()), x, Under(env, p), fuel + 1) && Now() == old(Now())
      decreases fuel, 20
    {
      hide TrustIn, ChangeOf;
      ghost var s0 := Now();
      u' := Plain;
      if nodes[x].BVarN? {
        ok, x' := Variable(x, env, p, fuel, neat);
      } else {
        FineRoot(s0, x, Under(env, p), neat);
        ok, x' := MkClos(x, env, p, fuel, false);
      }
      if !ok { return; }
      ghost var s := Now();
      ok, x', u' := Resolve(x', Plain, fuel, neat);
      StepTrans(s0, s, Now(), neat);
    }

    // ---------------------------------------------------------------- suspended substitutions

    /** A variable that the substitution moves or replaces. */
    method Variable(t: Expr, env: nat, p: nat, fuel: nat, ghost neat: bool) returns (ok: bool, r: Expr)
      requires Valid(neat) && frozen && t < |nodes| && env < |envs| && nodes[t].BVarN? && infos[t].lbr > p
      modifies this
      ensures Valid(neat) && Step(old(Now()), Now(), neat)
      ensures ok ==> r < |nodes| && D(Now(), r) == VD(old(Now()), t, Under(env, p))
      ensures var i := old(nodes)[t].i; i < p + |old(envs)[env]| ==> ok && Now() == old(Now()) && p <= i && r == envs[env][i - p]
      decreases fuel, 8
    {
      hide TrustIn, ChangeOf, VD;
      var i, m := nodes[t].i, |envs[env]|;
      VariableRange(H, Now(), t, env, p);
      if i - p < m {
        VariableLead(H, Now(), t, env, p);
        Stays(Now(), neat);
        return true, envs[env][i - p];
      }
      ok, r := Make(BVarN(i - m), fuel, neat);
    }

    /** The term t under a suspended substitution with closed entries. */
    method MkClos(t: Expr, env: nat, p: nat, fuel: nat, ghost neat: bool) returns (ok: bool, r: Expr)
      requires Valid(neat) && frozen && t < |nodes| && env < |envs| && (neat ==> Wraps(Now(), t))
      modifies this
      ensures Valid(neat) && Move(old(Now()), Now(), neat) && (neat && Clear(old(Now()), t) ==> Step(old(Now()), Now(), true))
      ensures ok ==> r < |nodes| && D(Now(), r) == VD(old(Now()), t, Under(env, p))
      ensures fuel > 0 && Suspends(old(Now()), t, env, p, fuel - 1) ==>
                ok && r == |old(nodes)| && Added(old(Now()), Now(), ClosN(t, env, p), VD(old(Now()), t, Under(env, p)))
      decreases fuel, 9
    {
      hide TrustIn, ChangeOf, VD;
      r := t;
      ghost var s0 := Now();
      Stays(s0, neat);
      if infos[t].lbr <= p {
        LoneLead(H, s0, t, Under(env, p));
        return true, t;
      }
      if nodes[t].BVarN? {
        ok, r := Variable(t, env, p, fuel, neat);
        StepMove(s0, Now(), neat);
        return;
      }
      if fuel == 0 { return false, t; }
      if nodes[t].ClosN? {
        ClosureNotClear(s0, t);
        ok, r := MkUnderClosure(t, env, p, fuel - 1, neat);
      } else {
        ok, r := MkSuspended(t, env, p, fuel - 1, neat);
        StepMove(s0, Now(), neat);
      }
    }

    /** A substitution over a suspended one: composed if the inner variables are within reach, else expanded first. */
    method MkUnderClosure(t: Expr, env: nat, p: nat, fuel: nat, ghost neat: bool) returns (ok: bool, r: Expr)
      requires Valid(neat) && frozen && t < |nodes| && env < |envs| && nodes[t].ClosN?
      modifies this
      ensures Valid(neat) && Move(old(Now()), Now(), neat)
      ensures ok ==> r < |nodes| && D(Now(), r) == VD(old(Now()), t, Under(env, p))
      decreases fuel, 17
    {
      hide TrustIn, ChangeOf, VD;
      var n := nodes[t];
      ghost var s0 := Now();
      ClosureOverClosure(H, s0, t, env, p, neat);
      if p <= n.p <= p + |envs[env]| {
        ok, r := MkComposed(n.t, n.env, n.p, env, p, fuel, neat);
        StepMove(s0, Now(), neat);
      } else {
        ok, r := MkExpanded(t, env, p, fuel, neat);
      }
    }

    method MkExpanded(t: Expr, env: nat, p: nat, fuel: nat, ghost neat: bool) returns (ok: bool, r: Expr)
      requires Valid(neat) && frozen && t < |nodes| && env < |envs|
      modifies this
      ensures Valid(neat) && Move(old(Now()), Now(), neat)
      ensures ok ==> r < |nodes| && D(Now(), r) == VD(old(Now()), t, Under(env, p))
      decreases fuel, 16
    {
      hide TrustIn, ChangeOf, VD;
      ghost var s0 := Now();
      ok, r := Expand(t, fuel, neat);
      if !ok { return; }
      ghost var s := Now();
      SameView(H, s0, s, t, r, env, p, neat);
      ok, r := MkClos(r, env, p, fuel, neat);
      MoveTrans(s0, s, Now(), neat);
    }

    /** One closure for two: the inner entries in the middle of the outer ones. */
    method MkComposed(t: Expr, env2: nat, q: nat, env: nat, p: nat, fuel: nat, ghost neat: bool) returns (ok: bool, r: Expr)
      requires Valid(neat) && frozen && t < |nodes| && env < |envs| && env2 < |envs| && p <= q <= p + |envs[env]|
      requires neat ==> Clear(Now(), t)
      modifies this
      ensures Valid(neat) && Step(old(Now()), Now(), neat)
      ensures ok ==> r < |nodes|
                     && D(Now(), r) == Sub(VD(old(Now()), t, Under(env2, q)), SubstOf(old(Now()), Under(env, p)))
      decreases fuel, 10
    {
      hide TrustIn, ChangeOf, VD;
      var E, E2 := envs[env], envs[env2];
      var parts := E[..q - p] + E2 + E[q - p..];
      ghost var s0 := Now();
      PartsClosed(H, s0, env, env2, q - p);
      var env3 := MkEnv(parts, neat);
      ghost var s := Now();
      ComposedView(H, s0, s, t, env, p, env2, q, env3, parts, neat);
      ok, r := MkClos(t, env3, p, fuel, neat);
      StepTrans(s0, s, Now(), neat);
    }

    /** Environments are hash-consed too. */
    method MkEnv(hs: seq<Expr>, ghost neat: bool) returns (r: nat)
      requires Valid(neat) && Bounded(hs, |nodes|) && forall k :: 0 <= k < |hs| ==> Closed(D(Now(), hs[k]))
      modifies this`envs
      ensures Valid(neat) && Step(old(Now()), Now(), neat)
      ensures r < |envs| && envs[r] == hs && EnvTerms(Now(), r) == HandleTerms(old(Now()), hs)
      ensures forall j :: 0 <= j < r ==> envs[j] != hs
      ensures Now() == if r < |old(envs)| then old(Now()) else WithEnv(old(Now()), hs)
    {
      hide TrustIn, ChangeOf;
      Stays(Now(), neat);
      for i := 0 to |envs|
        invariant Now() == old(Now()) && forall j :: 0 <= j < i ==> envs[j] != hs
      {
        if envs[i] == hs { return i; }
      }
      EnvAdded(H, Now(), hs, neat);
      r := |envs|;
      envs := envs + [hs];
    }

    /** A closure node for a term whose root is untouched and whose parts are not. */
    method MkSuspended(t: Expr, env: nat, p: nat, fuel: nat, ghost neat: bool) returns (ok: bool, r: Expr)
      requires Valid(neat) && frozen && Rooted(Now(), t, Under(env, p), neat) && infos[t].lbr > p
      modifies this
      ensures Valid(neat) && Step(old(Now()), Now(), neat)
      ensures ok ==> r < |nodes| && D(Now(), r) == VD(old(Now()), t, Under(env, p))
      ensures Suspends(old(Now()), t, env, p, fuel) ==>
                ok && r == |old(nodes)| && Added(old(Now()), Now(), ClosN(t, env, p), VD(old(Now()), t, Under(env, p)))
      decreases fuel, 8
    {
      hide TrustIn, ChangeOf, VD;
      r := t;
      ghost var s0 := Now();
      var info, tmp;
      ok, info, tmp := SemHash(t, env, p, fuel, neat);
      if !ok { return; }
      ghost var s := Now();
      ClosureAsked(H, s0, s, t, env, p, info, neat);
      ok, r := Intern(ClosN(t, env, p), info, tmp, fuel, VD(s, t, Under(env, p)), neat);
      StepTrans(s0, s, Now(), neat);
    }

    /**
     * The attributes the materialised term would carry; `tmp` only if some part of it is temporary, so
     * that it equals nothing permanent.
     */
    method SemHash(t: Expr, env: nat, p: nat, fuel: nat, ghost neat: bool) returns (ok: bool, info: Info, tmp: bool)
      requires Valid(neat) && frozen && ViewIn(Now(), t, Under(env, p), neat)
      modifies this
      ensures Valid(neat) && Step(old(Now()), Now(), neat)
      ensures ok ==> info == InfoOf(H, VD(old(Now()), t, Under(env, p)))
      ensures ok && tmp ==> NotPerm(Now(), VD(old(Now()), t, Under(env, p)))
      ensures Spine(old(Now()), t, p, fuel) ==> ok && Now() == old(Now())
      decreases fuel, 7
    {
      hide TrustIn, ChangeOf, VD;
      ghost var s0 := Now();
      ghost var u := Under(env, p);
      info, tmp := infos[t], t >= wm;
      Stays(s0, neat);
      if infos[t].lbr <= p {
        LoneLead(H, s0, t, u);
        HandleInfo(H, s0, t);
        return true, info, tmp;
      }
      if fuel == 0 { return false, info, tmp; }
      FineRoot(s0, t, u, neat);
      if nodes[t].BVarN? {
        ok, info, tmp := VariableHash(t, env, p);
      } else if nodes[t].ClosN? {
        var c;
        ok, c := MkClos(t, env, p, fuel - 1, false);
        if ok {
          info, tmp := infos[c], c >= wm;
          HandleInfo(H, Now(), c);
        }
      } else {
        HandleNode(H, s0, t, neat);
        RootedNode(s0, t, u, neat);
        PartsIn(s0, nodes[t], u, neat);
        if nodes[t].AppN? {
          ok, info, tmp := AppHash(nodes[t], env, p, fuel - 1, neat);
        } else if nodes[t].LamN? || nodes[t].PiN? {
          ok, info, tmp := BinderHash(nodes[t].LamN?, nodes[t].d, nodes[t].b, env, p, fuel - 1, neat);
        } else if nodes[t].LetN? {
          ok, info, tmp := LetHash(nodes[t], env, p, fuel - 1, neat);
        } else if nodes[t].ProjN? {
          ok, info, tmp := ProjHash(nodes[t], env, p, fuel - 1, neat);
        } else {
          LeafRange(H, s0, t);
          assert false;
        }
      }
    }

    method AppHash(nd: Node, env: nat, p: nat, fuel: nat, ghost neat: bool) returns (ok: bool, info: Info, tmp: bool)
      requires Valid(neat) && frozen && nd.AppN?
      requires ViewIn(Now(), nd.f, Under(env, p), neat) && ViewIn(Now(), nd.a, Under(env, p), neat)
      modifies this
      ensures Valid(neat) && Step(old(Now()), Now(), neat)
      ensures ok ==> info == InfoOf(H, NodeTerm(old(Now()), nd, Under(env, p)))
      ensures ok && tmp ==> NotPerm(Now(), NodeTerm(old(Now()), nd, Under(env, p)))
      ensures Spine(old(Now()), nd.f, p, fuel) && Spine(old(Now()), nd.a, p, fuel) ==> ok && Now() == old(Now())
      decreases fuel, 9
    {
      hide TrustIn, ChangeOf, VD;
      ghost var s0 := Now();
      ghost var u := Under(env, p);
      var i1, t1, i2, t2;
      ok, i1, t1, i2, t2 := HashTwo(nd.f, env, p, nd.a, p, fuel, neat);
      info, tmp := AppInfo(H, i1, i2), t1 || t2;
      AppInfoIs(H, VD(s0, nd.f, u), VD(s0, nd.a, u));
      if ok && tmp { AppNotPerm(H, Now(), VD(s0, nd.f, u), VD(s0, nd.a, u), t1); }
    }

    method BinderHash(lam: bool, x: Expr, y: Expr, env: nat, p: nat, fuel: nat, ghost neat: bool)
      returns (ok: bool, info: Info, tmp: bool)
      requires Valid(neat) && frozen && ViewIn(Now(), x, Under(env, p), neat) && ViewIn(Now(), y, Under(env, p + 1), neat)
      modifies this
      ensures Valid(neat) && Step(old(Now()), Now(), neat)
      ensures ok ==> info == InfoOf(H, NodeTerm(old(Now()), BinderNode(lam, x, y), Under(env, p)))
      ensures ok && tmp ==> NotPerm(Now(), NodeTerm(old(Now()), BinderNode(lam, x, y), Under(env, p)))
      decreases fuel, 9
    {
      hide TrustIn, ChangeOf, VD;
      ghost var d, b := VD(Now(), x, Under(env, p)), VD(Now(), y, Under(env, p + 1));
      var i1, t1, i2, t2;
      ok, i1, t1, i2, t2 := HashTwo(x, env, p, y, p + 1, fuel, neat);
      info, tmp := BinderInfo(H, lam, i1, i2), t1 || t2;
      BinderHashed(H, lam, d, b);
      if ok && tmp { BinderNotPerm(H, Now(), lam, d, b, t1); }
    }

    method ProjHash(nd: Node, env: nat, p: nat, fuel: nat, ghost neat: bool) returns (ok: bool, info: Info, tmp: bool)
      requires Valid(neat) && frozen && nd.ProjN? && ViewIn(Now(), nd.e, Under(env, p), neat)
      modifies this
      ensures Valid(neat) && Step(old(Now()), Now(), neat)
      ensures ok ==> info == InfoOf(H, NodeTerm(old(Now()), nd, Under(env, p)))
      ensures ok && tmp ==> NotPerm(Now(), NodeTerm(old(Now()), nd, Under(env, p)))
      decreases fuel, 9
    {
      hide TrustIn, ChangeOf, VD;
      ghost var t := VD(Now(), nd.e, Under(env, p));
      ok, info, tmp := SemHash(nd.e, env, p, fuel, neat);
      info := ProjInfo(H, nd.s, nd.idx, info);
      ProjInfoIs(H, nd.s, nd.idx, t);
      if ok && tmp { ProjNotPerm(H, Now(), nd.s, nd.idx, t); }
    }

    method VariableHash(t: Expr, env: nat, p: nat) returns (ok: bool, info: Info, tmp: bool)
      requires Valid(false) && frozen && t < |nodes| && env < |envs| && nodes[t].BVarN? && infos[t].lbr > p
      ensures ok && info == InfoOf(H, VD(Now(), t, Under(env, p)))
      ensures tmp ==> NotPerm(Now(), VD(Now(), t, Under(env, p)))
    {
      hide TrustIn, ChangeOf, VD;
      ok := true;
      var i, m := nodes[t].i, |envs[env]|;
      VariableRange(H, Now(), t, env, p);
      if i - p < m {
        var ent := envs[env][i - p];
        VariableLead(H, Now(), t, env, p);
        HandleInfo(H, Now(), ent);
        info, tmp := infos[ent], ent >= wm;
      } else {
        info, tmp := Info(H.bvar(i - m), i - m + 1, false, false), false;
      }
    }

    method HashTwo(x: Expr, env: nat, p: nat, y: Expr, q: nat, fuel: nat, ghost neat: bool)
      returns (ok: bool, i1: Info, t1: bool, i2: Info, t2: bool)
      requires Valid(neat) && frozen && ViewIn(Now(), x, Under(env, p), neat) && ViewIn(Now(), y, Under(env, q), neat)
      modifies this
      ensures Valid(neat) && Step(old(Now()), Now(), neat)
      ensures ok ==> i1 == InfoOf(H, VD(old(Now()), x, Under(env, p))) && i2 == InfoOf(H, VD(old(Now()), y, Under(env, q)))
      ensures ok && t1 ==> NotPerm(Now(), VD(old(Now()), x, Under(env, p)))
      ensures ok && t2 ==> NotPerm(Now(), VD(old(Now()), y, Under(env, q)))
      ensures Spine(old(Now()), x, p, fuel) && Spine(old(Now()), y, q, fuel) ==> ok && Now() == old(Now())
      decreases fuel, 8
    {
      hide TrustIn, ChangeOf, VD;
      ghost var s0 := Now();
      i2, t2 := infos[y], false;
      ok, i1, t1 := SemHash(x, env, p, fuel, neat);
      if !ok { return; }
      ghost var s := Now();
      StepMove(s0, s, neat);
      StillViews(H, s0, s, y, Under(env, q), neat);
      ok, i2, t2 := SemHash(y, env, q, fuel, neat);
      StepTrans(s0, s, Now(), neat);
      if ok && t1 { StillNotPerm(H, s, Now(), VD(s0, x, Under(env, p)), neat); }
    }

    method LetHash(nd: Node, env: nat, p: nat, fuel: nat, ghost neat: bool) returns (ok: bool, info: Info, tmp: bool)
      requires Valid(neat) && frozen && nd.LetN? && ViewIn(Now(), nd.y, Under(env, p), neat)
      requires ViewIn(Now(), nd.v, Under(env, p), neat) && ViewIn(Now(), nd.b, Under(env, p + 1), neat)
      modifies this
      ensures Valid(neat) && Step(old(Now()), Now(), neat)
      ensures ok ==> info == InfoOf(H, NodeTerm(old(Now()), nd, Under(env, p)))
      ensures ok && tmp ==> NotPerm(Now(), NodeTerm(old(Now()), nd, Under(env, p)))
      decreases fuel, 9
    {
      hide TrustIn, ChangeOf, VD;
      ghost var s0 := Now();
      ghost var u := Under(env, p);
      info, tmp := infos[nd.y], false;
      var i1, t1, i2, t2, i3, t3;
      ok, i1, t1, i2, t2 := HashTwo(nd.y, env, p, nd.v, p, fuel, neat);
      if !ok { return; }
      ghost var s := Now();
      StepMove(s0, s, neat);
      StillViews(H, s0, s, nd.b, Shift(u), neat);
      ok, i3, t3 := SemHash(nd.b, env, p + 1, fuel, neat);
      StepTrans(s0, s, Now(), neat);
      if !ok { return; }
      info, tmp := LetInfo(H, i1, i2, i3), t1 || t2 || t3;
      ghost var y, v, b := VD(s0, nd.y, u), VD(s0, nd.v, u), VD(s0, nd.b, Shift(u));
      LetInfoIs(H, y, v, b);
      if tmp { LetNotPerm(H, s, Now(), y, v, b, t1, t2, neat); }
    }

    // ---------------------------------------------------------------- exposing and expanding

    /** What a node made of these parts carries. */
    function InfoFor(nd: Node): Info
      requires Bounded(Parts(nd), |infos|) && !nd.ClosN?
      reads this
    {
      PartsBound(nd, |infos|);
      match nd
      case BVarN(i) => Info(H.bvar(i), i + 1, false, false)
      case FVarN(id) => Info(H.fvar(id), 0, true, false)
      case SortN(l) => Info(H.sort(l), 0, false, L.HasParam(l))
      case ConstN(n, ls) => Info(H.cnst(n, ls), 0, false, exists k :: 0 <= k < |ls| && L.HasParam(ls[k]))
      case AppN(f, a) => AppInfo(H, infos[f], infos[a])
      case LamN(d, b) => BinderInfo(H, true, infos[d], infos[b])
      case PiN(d, b) => BinderInfo(H, false, infos[d], infos[b])
      case LetN(y, v, b) => LetInfo(H, infos[y], infos[v], infos[b])
      case LitN(v) => Info(H.lit(v), 0, false, false)
      case ProjN(s, i, e) => ProjInfo(H, s, i, infos[e])
    }

    lemma InfoForIs(nd: Node)
      requires Valid(false) && Bounded(Parts(nd), |nodes|) && !nd.ClosN?
      ensures InfoFor(nd) == InfoOf(H, NodeTerm(Now(), nd, Plain))
    {
      var s := Now();
      PartsBound(nd, |nodes|);
      match nd
      case AppN(f, a) => assert InfoOk(H, s, f) && InfoOk(H, s, a); AppInfoIs(H, D(s, f), D(s, a));
      case LamN(d, b) => assert InfoOk(H, s, d) && InfoOk(H, s, b); BinderInfoIs(H, D(s, d), D(s, b));
      case PiN(d, b) => assert InfoOk(H, s, d) && InfoOk(H, s, b); BinderInfoIs(H, D(s, d), D(s, b));
      case LetN(y, v, b) =>
        assert InfoOk(H, s, y) && InfoOk(H, s, v) && InfoOk(H, s, b);
        LetInfoIs(H, D(s, y), D(s, v), D(s, b));
      case ProjN(n, i, e) => assert InfoOk(H, s, e); ProjInfoIs(H, n, i, D(s, e));
      case _ =>
    }

    /** Any node but a closure. */
    method Make(nd: Node, fuel: nat, ghost neat: bool) returns (ok: bool, r: Expr)
      requires Valid(neat) && Bounded(Parts(nd), |nodes|) && !nd.ClosN?
      modifies this
      ensures Valid(neat) && Step(old(Now()), Now(), neat)
      ensures ok ==> r < |nodes| && D(Now(), r) == NodeTerm(old(Now()), nd, Plain)
      ensures fuel > 0 && Unmet(old(Now()), nd, fuel - 1) ==>
                ok && r == |old(nodes)| && Added(old(Now()), Now(), nd, NodeTerm(old(Now()), nd, Plain))
      decreases fuel, 7
    {
      hide TrustIn, ChangeOf;
      InfoForIs(nd);
      ok, r := Intern(nd, InfoFor(nd), false, fuel, NodeTerm(Now(), nd, Plain), neat);
    }

    /** Put the root of its expansion in a closure node's place; hash and range are what they were. */
    method Expose(e: Expr, fuel: nat, ghost neat: bool) returns (ok: bool)
      requires Valid(neat) && e < |nodes|
      modifies this
      ensures Valid(neat) && Move(old(Now()), Now(), neat)
      ensures ok ==> !nodes[e].ClosN?
      decreases fuel, 13
    {
      hide TrustIn, ChangeOf;
      ghost var s0 := Now();
      Stays(s0, neat);
      HandleNode(H, s0, e, neat);
      if !nodes[e].ClosN? { return true; }
      if fuel == 0 { return false; }
      var n := nodes[e];
      var nd;
      ok, nd := ExposedNode(n, fuel - 1, neat);
      ghost var s := Now();
      StepMove(s0, s, neat);
      if !ok { return; }
      StillDenotes(H, s0, s, e, neat);
      InfoForIs(nd);
      HandleInfo(H, s, e);
      var info := InfoFor(nd);
      if info.hash != infos[e].hash || info.lbr != infos[e].lbr { assert false; }
      StillClosure(s0, s, e, neat);
      Exposes(H, s, e, nd, neat);
      MoveTrans(s0, s, Exposed(s, e, nd), neat);
      nodes, infos := nodes[e := nd], infos[e := info];
      assert Now() == Exposed(s, e, nd);
    }

    /** The root of a closure's expansion, its parts closures again or plain terms. */
    method ExposedNode(n: Node, fuel: nat, ghost neat: bool) returns (ok: bool, nd: Node)
      requires Valid(neat) && n.ClosN? && Fits(Now(), n) && (neat ==> TidyNode(Now(), n))
      modifies this
      ensures Valid(neat) && Step(old(Now()), Now(), neat)
      ensures ok ==> !nd.ClosN? && !nd.BVarN? && Fits(Now(), nd)
                     && NodeTerm(Now(), nd, Plain) == NodeTerm(old(Now()), n, Plain)
      decreases fuel, 12
    {
      hide TrustIn, ChangeOf;
      var t, env, p := nodes[n.t], n.env, n.p;
      ghost var s0 := Now();
      nd := t;
      TopIn(H, s0, n, neat);
      if t.LetN? {
        ok, nd := ExposedLet(t, env, p, fuel, neat);
      } else if t.ProjN? {
        ok, nd := ExposedProj(t, env, p, fuel, neat);
      } else if t.AppN? {
        ok, nd := ExposedApp(t, env, p, fuel, neat);
      } else if t.LamN? || t.PiN? {
        ok, nd := ExposedBinder(t, env, p, fuel, neat);
      } else {
        LeafRange(H, s0, n.t);
        assert false;
      }
    }

    method ExposedProj(t: Node, env: nat, p: nat, fuel: nat, ghost neat: bool) returns (ok: bool, nd: Node)
      requires Valid(neat) && frozen && t.ProjN? && NodeIn(Now(), t, Under(env, p), neat)
      modifies this
      ensures Valid(neat) && Step(old(Now()), Now(), neat)
      ensures ok ==> nd.ProjN? && Fits(Now(), nd) && NodeTerm(Now(), nd, Plain) == NodeTerm(old(Now()), t, Under(env, p))
      decreases fuel, 11
    {
      hide TrustIn, ChangeOf;
      PartsIn(Now(), t, Under(env, p), neat);
      var x;
      ok, x := MkClos(t.e, env, p, fuel, neat);
      nd := ProjN(t.s, t.idx, x);
    }

    method ExposedApp(t: Node, env: nat, p: nat, fuel: nat, ghost neat: bool) returns (ok: bool, nd: Node)
      requires Valid(neat) && frozen && t.AppN? && NodeIn(Now(), t, Under(env, p), neat)
      modifies this
      ensures Valid(neat) && Step(old(Now()), Now(), neat)
      ensures ok ==> nd.AppN? && Fits(Now(), nd) && NodeTerm(Now(), nd, Plain) == NodeTerm(old(Now()), t, Under(env, p))
      decreases fuel, 11
    {
      hide TrustIn, ChangeOf;
      PartsIn(Now(), t, Under(env, p), neat);
      var x, y;
      ok, x, y := ClosTwo(t.f, env, p, t.a, p, fuel, neat);
      nd := AppN(x, y);
    }

    method ExposedBinder(t: Node, env: nat, p: nat, fuel: nat, ghost neat: bool) returns (ok: bool, nd: Node)
      requires Valid(neat) && frozen && (t.LamN? || t.PiN?) && NodeIn(Now(), t, Under(env, p), neat)
      modifies this
      ensures Valid(neat) && Step(old(Now()), Now(), neat)
      ensures ok ==> (nd.LamN? || nd.PiN?) && Fits(Now(), nd)
                     && NodeTerm(Now(), nd, Plain) == NodeTerm(old(Now()), t, Under(env, p))
      decreases fuel, 11
    {
      hide TrustIn, ChangeOf;
      PartsIn(Now(), t, Under(env, p), neat);
      var x, y;
      ghost var s0 := Now();
      ok, x, y := ClosTwo(t.d, env, p, t.b, p + 1, fuel, neat);
      nd := if t.LamN? then LamN(x, y) else PiN(x, y);
      if ok { BinderParts(s0, Now(), t, env, p, x, y); }
    }

    method ExposedLet(t: Node, env: nat, p: nat, fuel: nat, ghost neat: bool) returns (ok: bool, nd: Node)
      requires Valid(neat) && frozen && t.LetN? && NodeIn(Now(), t, Under(env, p), neat)
      modifies this
      ensures Valid(neat) && Step(old(Now()), Now(), neat)
      ensures ok ==> nd.LetN? && Fits(Now(), nd) && NodeTerm(Now(), nd, Plain) == NodeTerm(old(Now()), t, Under(env, p))
      decreases fuel, 11
    {
      hide TrustIn, ChangeOf;
      nd := t;
      ghost var s0 := Now();
      PartsIn(s0, t, Under(env, p), neat);
      var x, y, z;
      ok, x, y, z := ClosThree(t, env, p, fuel, neat);
      if !ok { return; }
      nd := LetN(x, y, z);
      LetParts(s0, Now(), t, env, p, x, y, z);
    }

    method ClosThree(t: Node, env: nat, p: nat, fuel: nat, ghost neat: bool) returns (ok: bool, x: Expr, y: Expr, z: Expr)
      requires Valid(neat) && frozen && t.LetN? && ViewIn(Now(), t.y, Under(env, p), neat)
      requires ViewIn(Now(), t.v, Under(env, p), neat) && ViewIn(Now(), t.b, Under(env, p + 1), neat)
      modifies this
      ensures Valid(neat) && Step(old(Now()), Now(), neat)
      ensures ok ==> x < |nodes| && y < |nodes| && z < |nodes| && D(Now(), x) == VD(old(Now()), t.y, Under(env, p))
                     && D(Now(), y) == VD(old(Now()), t.v, Under(env, p))
                     && D(Now(), z) == VD(old(Now()), t.b, Under(env, p + 1))
      decreases fuel, 10, 1
    {
      hide TrustIn, ChangeOf, VD;
      ghost var s0 := Now();
      z := t.b;
      ok, x, y := ClosTwo(t.y, env, p, t.v, p, fuel, neat);
      if !ok { return; }
      ghost var s := Now();
      StepMove(s0, s, neat);
      StillViews(H, s0, s, t.b, Under(env, p + 1), neat);
      ok, z := MkClos(t.b, env, p + 1, fuel, neat);
      StepTrans(s0, s, Now(), neat);
      StillDenotes(H, s, Now(), x, neat);
      StillDenotes(H, s, Now(), y, neat);
    }

    method ClosTwo(x: Expr, env: nat, p: nat, y: Expr, q: nat, fuel: nat, ghost neat: bool)
      returns (ok: bool, r1: Expr, r2: Expr)
      requires Valid(neat) && frozen && ViewIn(Now(), x, Under(env, p), neat) && ViewIn(Now(), y, Under(env, q), neat)
      modifies this
      ensures Valid(neat) && Step(old(Now()), Now(), neat)
      ensures ok ==> r1 < |nodes| && r2 < |nodes| && D(Now(), r1) == VD(old(Now()), x, Under(env, p))
                     && D(Now(), r2) == VD(old(Now()), y, Under(env, q))
      decreases fuel, 10, 0
    {
      hide TrustIn, ChangeOf, VD;
      ghost var s0 := Now();
      r2 := y;
      ok, r1 := MkClos(x, env, p, fuel, neat);
      if !ok { return; }
      ghost var s := Now();
      StepMove(s0, s, neat);
      StillViews(H, s0, s, y, Under(env, q), neat);
      ok, r2 := MkClos(y, env, q, fuel, neat);
      StepTrans(s0, s, Now(), neat);
      StillDenotes(H, s, Now(), r1, neat);
    }

    /** The same term with every closure below it exposed; in a neat table it is the same handle. */
    method Expand(e: Expr, fuel: nat, ghost neat: bool) returns (ok: bool, r: Expr)
      requires Valid(neat) && e < |nodes|
      modifies this
      ensures Valid(neat) && Move(old(Now()), Now(), neat)
      ensures ok ==> r < |nodes| && D(Now(), r) == D(old(Now()), e) && (neat ==> r == e && Clear(Now(), r))
      decreases fuel, 14
    {
      hide TrustIn, ChangeOf;
      r := e;
      ghost var s0 := Now();
      Stays(s0, neat);
      if fuel == 0 { return false, e; }
      ok := Expose(e, fuel - 1, neat);
      if !ok { return; }
      ghost var s := Now();
      StillDenotes(H, s0, s, e, neat);
      HandleNode(H, s, e, neat);
      var n := nodes[e];
      var nd;
      ok, nd := ExpandParts(n, fuel - 1, neat);
      ghost var s2 := Now();
      MoveTrans(s0, s, s2, neat);
      if !ok { return; }
      StillDenotes(H, s0, s2, e, neat);
      StillNode(s, s2, e, neat);
      if nd == n {
        if neat { NodeClear(s2, e); }
        return true, e;
      }
      ok, r := Make(nd, fuel - 1, neat);
      StepMove(s2, Now(), neat);
      MoveTrans(s0, s2, Now(), neat);
    }

    method ExpandParts(n: Node, fuel: nat, ghost neat: bool) returns (ok: bool, nd: Node)
      requires Valid(neat) && !n.ClosN? && Bounded(Parts(n), |nodes|)
      modifies this
      ensures Valid(neat) && Move(old(Now()), Now(), neat)
      ensures ok ==> !nd.ClosN? && Bounded(Parts(nd), |nodes|)
                     && NodeTerm(Now(), nd, Plain) == NodeTerm(old(Now()), n, Plain)
                     && (neat ==> nd == n && AllClear(Now(), Parts(n)))
      decreases fuel, 17
    {
      hide TrustIn, ChangeOf;
      nd := n;
      Stays(Now(), neat);
      PartsBound(n, |nodes|);
      var x, y;
      match n
      case AppN(f, a) =>
        ok, x, y := ExpandTwo(f, a, fuel, neat);
        nd := AppN(x, y);
      case LamN(d, b) =>
        ok, x, y := ExpandTwo(d, b, fuel, neat);
        nd := LamN(x, y);
      case PiN(d, b) =>
        ok, x, y := ExpandTwo(d, b, fuel, neat);
        nd := PiN(x, y);
      case LetN(_, _, _) => ok, nd := ExpandLet(n, fuel, neat);
      case ProjN(m, i, e) =>
        ok, x := Expand(e, fuel, neat);
        nd := ProjN(m, i, x);
      case _ =>
        ok := true;
    }

    method ExpandLet(n: Node, fuel: nat, ghost neat: bool) returns (ok: bool, nd: Node)
      requires Valid(neat) && n.LetN? && Bounded(Parts(n), |nodes|)
      modifies this
      ensures Valid(neat) && Move(old(Now()), Now(), neat)
      ensures ok ==> nd.LetN? && Bounded(Parts(nd), |nodes|)
                     && NodeTerm(Now(), nd, Plain) == NodeTerm(old(Now()), n, Plain)
                     && (neat ==> nd == n && AllClear(Now(), Parts(n)))
      decreases fuel, 16
    {
      hide TrustIn, ChangeOf;
      ghost var s0 := Now();
      nd := n;
      PartsBound(n, |nodes|);
      var x1, x2, x3;
      ok, x1, x2 := ExpandTwo(n.y, n.v, fuel, neat);
      if !ok { return; }
      ghost var s := Now();
      StillDenotes(H, s0, s, n.b, neat);
      ok, x3 := Expand(n.b, fuel, neat);
      MoveTrans(s0, s, Now(), neat);
      if !ok { return; }
      StillDenotes(H, s, Now(), x1, neat);
      StillDenotes(H, s, Now(), x2, neat);
      StillClear(s, Now(), x1, neat);
      StillClear(s, Now(), x2, neat);
      nd := LetN(x1, x2, x3);
    }

    method ExpandTwo(x: Expr, y: Expr, fuel: nat, ghost neat: bool) returns (ok: bool, r1: Expr, r2: Expr)
      requires Valid(neat) && x < |nodes| && y < |nodes|
      modifies this
      ensures Valid(neat) && Move(old(Now()), Now(), neat)
      ensures ok ==> r1 < |nodes| && r2 < |nodes| && D(Now(), r1) == D(old(Now()), x) && D(Now(), r2) == D(old(Now()), y)
                     && (neat ==> r1 == x && r2 == y && Clear(Now(), x) && Clear(Now(), y))
      decreases fuel, 15
    {
      hide TrustIn, ChangeOf;
      ghost var s0 := Now();
      r2 := y;
      ok, r1 := Expand(x, fuel, neat);
      if !ok { return; }
      ghost var s := Now();
      StillDenotes(H, s0, s, y, neat);
      ok, r2 := Expand(y, fuel, neat);
      MoveTrans(s0, s, Now(), neat);
      StillDenotes(H, s, Now(), r1, neat);
      StillClear(s, Now(), r1, neat);
    }

    // ---------------------------------------------------------------- what callers use

    /** Equality of expansions, decided without building them: exact in a neat table. */
    method SemEq(x: Expr, y: Expr, fuel: nat, ghost neat: bool) returns (ok: bool, eq: bool)
      requires Valid(neat) && frozen && x < |nodes| && y < |nodes|
      modifies this
      ensures Valid(neat) && Step(old(Now()), Now(), neat)
      ensures ok ==> Answers(eq, D(old(Now()), x), D(old(Now()), y), x < Perm(old(Now())) || neat)
      ensures Tells(SemAgrees(old(Now()), x, y, fuel), ok, eq, old(Now()), Now())
    {
      hide TrustIn, ChangeOf;
      Stays(Now(), neat);
      HandleNode(H, Now(), x, neat);
      HandleNode(H, Now(), y, neat);
      if x == y { return true, true; }
      if nodes[x].ClosN? && nodes[x] == nodes[y] { return true, true; }
      ok, eq := ViewEq(x, Plain, y, Plain, fuel, neat);
    }

    /** Lazy instantiation, with closed entries: it denotes what eager instantiation builds. */
    method Instantiate(e: Expr, es: seq<Expr>, fuel: nat, ghost neat: bool) returns (ok: bool, r: Expr)
      requires Valid(neat) && frozen && e < |nodes| && Bounded(es, |nodes|) && (neat ==> Wraps(Now(), e))
      requires forall k :: 0 <= k < |es| ==> infos[es[k]].lbr == 0
      modifies this
      ensures Valid(neat) && Move(old(Now()), Now(), neat)
      ensures ok ==> r < |nodes| && D(Now(), r) == Terms.Instantiate(D(old(Now()), e), HandleTerms(old(Now()), es))
    {
      hide TrustIn, ChangeOf;
      ghost var s0 := Now();
      Stays(s0, neat);
      EntriesClosed(H, s0, e, es);
      if |es| == 0 || infos[e].lbr == 0 { return true, e; }
      var env := MkEnv(es, neat);
      ghost var s := Now();
      StepMove(s0, s, neat);
      StillDenotes(H, s0, s, e, neat);
      StillWraps(s0, s, e, neat);
      InstantiateIsSub(D(s, e), HandleTerms(s0, es));
      ok, r := MkClos(e, env, 0, fuel, neat);
      MoveTrans(s0, s, Now(), neat);
    }
  }

  /** Hashed without making a node, and then met by nothing equal. */
  ghost predicate Suspends(s: Snap, t: Expr, env: nat, p: nat, fuel: nat) {
    && fuel > 0 && t < |s.nodes| && t < |s.infos| && s.nodes[t].AppN? && s.infos[t].lbr > p
    && Spine(s, t, p, fuel) && Unmet(s, ClosN(t, env, p), fuel - 1)
  }

  /** The comparison of two handles. */
  ghost function SemAgrees(s: Snap, x: Expr, y: Expr, fuel: nat): Verdict {
    if x == y then Same
    else if x < |s.nodes| && y < |s.nodes| && s.nodes[x].ClosN? && s.nodes[x] == s.nodes[y] then Same
    else ViewsAgree(s, x, Plain, y, Plain, fuel)
  }

  // ---------------------------------------------------------------- handles

  lemma HandleNode(H: Hashing, s: Snap, x: Expr, neat: bool)
    requires Trusted(H, s, neat) && x < |s.nodes|
    ensures NodeOk(s, x) && (neat ==> TidyNode(s, s.nodes[x])) && (x < Perm(s) ==> PermNode(s, s.nodes[x], Plain))
    ensures s.nodes[x].ClosN? ==> s.frozen && Perm(s) <= x
  {
    assert NodeOk(s, x);
  }

  lemma HandleInfo(H: Hashing, s: Snap, h: Expr)
    requires Trusted(H, s, false) && h < |s.nodes|
    ensures s.infos[h] == InfoOf(H, D(s, h)) && (s.frozen && h >= s.wm ==> NotPerm(s, D(s, h)))
  {
    assert InfoOk(H, s, h);
    if s.frozen && h >= s.wm { TempNotPerm(s, h); }
  }

  lemma HashAt(H: Hashing, s: Snap, h: Expr)
    requires Trusted(H, s, false) && h < |s.nodes|
    ensures s.infos[h].hash == HashOf(H, D(s, h))
  {
    assert InfoOk(H, s, h);
  }

  lemma HandlesDiffer(H: Hashing, s: Snap, x: Expr, y: Expr, neat: bool)
    requires Trusted(H, s, neat) && x < |s.nodes| && y < |s.nodes|
    ensures x != y && (x < Perm(s) || neat) ==> D(s, x) != D(s, y)
  {
  }

  /** Of two nodes that are no closures, different ones denote different terms, as far as their parts do. */
  lemma SameParts(H: Hashing, s: Snap, i: Expr, nd: Node, neat: bool)
    requires Trusted(H, s, neat) && i < |s.nodes| && !s.nodes[i].ClosN? && !nd.ClosN? && Fits(s, nd) && s.nodes[i] != nd
    ensures i < Perm(s) || neat ==> D(s, i) != NodeTerm(s, nd, Plain)
  {
    hide TrustIn;
    var a := s.nodes[i];
    HandleNode(H, s, i, neat);
    PartsBound(a, |s.nodes|);
    PartsBound(nd, |s.nodes|);
    if i < Perm(s) { PartsBound(a, Perm(s)); }
    match (a, nd)
    case (AppN(f, x), AppN(g, y)) => HandlesDiffer(H, s, f, g, neat); HandlesDiffer(H, s, x, y, neat);
    case (LamN(f, x), LamN(g, y)) => HandlesDiffer(H, s, f, g, neat); HandlesDiffer(H, s, x, y, neat);
    case (PiN(f, x), PiN(g, y)) => HandlesDiffer(H, s, f, g, neat); HandlesDiffer(H, s, x, y, neat);
    case (LetN(f, x, z), LetN(g, y, w)) =>
      HandlesDiffer(H, s, f, g, neat);
      HandlesDiffer(H, s, x, y, neat);
      HandlesDiffer(H, s, z, w, neat);
    case (ProjN(_, _, f), ProjN(_, _, g)) => HandlesDiffer(H, s, f, g, neat);
    case _ =>
  }

  /** Nodes of different kinds denote different terms if one is permanent, or both are seen through. */
  lemma KindsApart(s: Snap, a: Node, u: Under, b: Node, w: Under, neat: bool)
    requires NodeIn(s, a, u, neat) && NodeIn(s, b, w, neat) && (u.Under? || w.Under?) && Kind(a) != Kind(b)
    ensures PermNode(s, a, u) || neat ==> NodeTerm(s, a, u) != NodeTerm(s, b, w)
  {
  }

  lemma PartsPerm(s: Snap, a: Node, u: Under)
    ensures PermNode(s, a, u) ==>
              match a
              case AppN(f, x) => PermView(s, f, u) && PermView(s, x, u)
              case LamN(d, b) => PermView(s, d, u) && PermView(s, b, Shift(u))
              case PiN(d, b) => PermView(s, d, u) && PermView(s, b, Shift(u))
              case LetN(y, v, b) => PermView(s, y, u) && PermView(s, v, u) && PermView(s, b, Shift(u))
              case ProjN(_, _, e) => PermView(s, e, u)
              case _ => true
  {
    if PermNode(s, a, u) { PartsBound(a, Perm(s)); }
  }

  /** No leaf but a variable has loose variables. */
  lemma LeafRange(H: Hashing, s: Snap, h: Expr)
    requires Trusted(H, s, false) && h < |s.nodes|
    requires s.nodes[h].FVarN? || s.nodes[h].SortN? || s.nodes[h].ConstN? || s.nodes[h].LitN?
    ensures Range(D(s, h)) == 0 && s.infos[h].lbr == 0
  {
    assert NodeOk(s, h) && InfoOk(H, s, h);
  }

  lemma VariableRange(H: Hashing, s: Snap, t: Expr, env: nat, p: nat)
    requires Trusted(H, s, false) && t < |s.nodes| && env < |s.envs| && s.nodes[t].BVarN? && s.infos[t].lbr > p
    ensures var i, m := s.nodes[t].i, |s.envs[env]|;
            i >= p && (i - p >= m ==> VD(s, t, Under(env, p)) == BVar(i - m))
  {
    assert NodeOk(s, t);
    RangeAt(H, s, t);
  }

  lemma TempPart(H: Hashing, s: Snap, nd: Node, d: Term)
    requires Trusted(H, s, false) && s.frozen && !nd.ClosN? && Fits(s, nd) && d == NodeTerm(s, nd, Plain)
    requires nd.FVarN? || exists k :: 0 <= k < |Parts(nd)| && Parts(nd)[k] >= s.wm
    ensures NotPerm(s, d)
  {
    TempPartNotPerm(s, nd, d);
  }

  lemma AppNotPerm(H: Hashing, s: Snap, f: Term, x: Term, t1: bool)
    requires Trusted(H, s, false) && (if t1 then NotPerm(s, f) else NotPerm(s, x))
    ensures NotPerm(s, App(f, x))
  {
    PartNotPerm(s, App(f, x), if t1 then f else x);
  }

  function BinderNode(lam: bool, x: Expr, y: Expr): Node { if lam then LamN(x, y) else PiN(x, y) }

  ghost function BinderTerm(lam: bool, d: Term, b: Term): Term { if lam then Lam(d, b) else Pi(d, b) }

  lemma BinderNotPerm(H: Hashing, s: Snap, lam: bool, d: Term, b: Term, t1: bool)
    requires Trusted(H, s, false) && (if t1 then NotPerm(s, d) else NotPerm(s, b))
    ensures NotPerm(s, BinderTerm(lam, d, b))
  {
    PartNotPerm(s, BinderTerm(lam, d, b), if t1 then d else b);
  }

  lemma BinderHashed(H: Hashing, lam: bool, d: Term, b: Term)
    ensures BinderInfo(H, lam, InfoOf(H, d), InfoOf(H, b)) == InfoOf(H, BinderTerm(lam, d, b))
  {
    BinderInfoIs(H, d, b);
  }

  lemma ProjNotPerm(H: Hashing, s: Snap, n: Name, i: nat, e: Term)
    requires Trusted(H, s, false) && NotPerm(s, e)
    ensures NotPerm(s, Proj(n, i, e))
  {
    PartNotPerm(s, Proj(n, i, e), e);
  }

  /** A let is not permanent if its type, its value or, in the later state, its body is not. */
  lemma LetNotPerm(H: Hashing, s: Snap, s': Snap, y: Term, v: Term, b: Term, t1: bool, t2: bool, neat: bool)
    requires Trusted(H, s, false) && Trusted(H, s', false) && Step(s, s', neat) && s.frozen
    requires if t1 then NotPerm(s, y) else if t2 then NotPerm(s, v) else NotPerm(s', b)
    ensures NotPerm(s', Let(y, v, b))
  {
    if t1 { StillNotPerm(H, s, s', y, neat); } else if t2 { StillNotPerm(H, s, s', v, neat); }
    PartNotPerm(s', Let(y, v, b), if t1 then y else if t2 then v else b);
  }

  // ---------------------------------------------------------------- suspended substitutions

  lemma ClosureOverClosure(H: Hashing, s: Snap, t: Expr, env: nat, p: nat, neat: bool)
    requires Trusted(H, s, neat) && t < |s.nodes| && s.nodes[t].ClosN? && env < |s.envs|
    ensures var n := s.nodes[t];
            n.t < |s.nodes| && n.env < |s.envs| && (neat ==> Clear(s, n.t))
            && VD(s, t, Under(env, p)) == Sub(VD(s, n.t, Under(n.env, n.p)), SubstOf(s, Under(env, p)))
  {
    HandleNode(H, s, t, neat);
  }

  lemma SameView(H: Hashing, s: Snap, s': Snap, t: Expr, r: Expr, env: nat, p: nat, neat: bool)
    requires Trusted(H, s, false) && Move(s, s', neat) && t < |s.nodes| && env < |s.envs| && D(s', r) == D(s, t)
    ensures VD(s', r, Under(env, p)) == VD(s, t, Under(env, p))
  {
    EnvLater(s, s', env);
  }

  lemma PartsClosed(H: Hashing, s: Snap, env: nat, env2: nat, k: nat)
    requires Trusted(H, s, false) && env < |s.envs| && env2 < |s.envs| && k <= |s.envs[env]|
    ensures var parts := s.envs[env][..k] + s.envs[env2] + s.envs[env][k..];
            Bounded(parts, |s.nodes|) && forall j :: 0 <= j < |parts| ==> Closed(D(s, parts[j]))
  {
    forall e, j | 0 <= e < |s.envs| && 0 <= j < |s.envs[e]|
      ensures s.envs[e][j] < |s.nodes| && Closed(D(s, s.envs[e][j]))
    {
      assert EnvTerms(s, e)[j] == D(s, s.envs[e][j]);
    }
  }

  lemma EnvironmentsClosed(H: Hashing, s: Snap, env: nat, env2: nat)
    requires Trusted(H, s, false) && env < |s.envs| && env2 < |s.envs|
    ensures AllClosed(EnvTerms(s, env)) && AllClosed(EnvTerms(s, env2))
    ensures |EnvTerms(s, env)| == |s.envs[env]|
  {
  }

  lemma ComposedTerms(s: Snap, env: nat, p: nat, env2: nat, q: nat, parts: seq<Expr>)
    requires env < |s.envs| && env2 < |s.envs| && p <= q <= p + |s.envs[env]| == p + |EnvTerms(s, env)|
    requires parts == s.envs[env][..q - p] + s.envs[env2] + s.envs[env][q - p..]
    ensures HandleTerms(s, parts) == Compose(EnvTerms(s, env), p, EnvTerms(s, env2), q)
  {
  }

  /** One substitution for two: the inner one's entries in the middle of the outer one's. */
  lemma ComposedView(H: Hashing, s: Snap, s': Snap, t: Expr, env: nat, p: nat, env2: nat, q: nat, env3: nat,
                     parts: seq<Expr>, neat: bool)
    requires Trusted(H, s, false) && Step(s, s', neat) && t < |s.nodes| && env < |s.envs| && env2 < |s.envs|
    requires p <= q <= p + |s.envs[env]| && parts == s.envs[env][..q - p] + s.envs[env2] + s.envs[env][q - p..]
    requires EnvTerms(s', env3) == HandleTerms(s, parts) && (neat ==> Clear(s, t))
    ensures VD(s', t, Under(env3, p)) == Sub(VD(s, t, Under(env2, q)), SubstOf(s, Under(env, p)))
    ensures neat ==> Clear(s', t)
  {
    hide TrustIn, ChangeOf, HandleTerms, EnvTerms;
    StillDenotes(H, s, s', t, neat);
    StillClear(s, s', t, neat);
    EnvironmentsClosed(H, s, env, env2);
    ComposedTerms(s, env, p, env2, q, parts);
    Composed(D(s, t), EnvTerms(s, env), p, EnvTerms(s, env2), q);
  }

  lemma ClosureAsked(H: Hashing, s: Snap, s': Snap, t: Expr, env: nat, p: nat, info: Info, neat: bool)
    requires Trusted(H, s, false) && Step(s, s', neat) && s.frozen && Rooted(s, t, Under(env, p), neat) && s.infos[t].lbr > p
    requires info == InfoOf(H, VD(s, t, Under(env, p)))
    ensures VD(s', t, Under(env, p)) == VD(s, t, Under(env, p))
    ensures Asked(H, s', ClosN(t, env, p), info, VD(s', t, Under(env, p)), neat)
  {
    RangeAt(H, s, t);
    StillRooted(H, s, s', t, Under(env, p), neat);
    StillDenotes(H, s, s', t, neat);
  }

  lemma EntriesClosed(H: Hashing, s: Snap, e: Expr, es: seq<Expr>)
    requires Trusted(H, s, false) && e < |s.nodes| && Bounded(es, |s.nodes|)
    requires forall k :: 0 <= k < |es| ==> s.infos[es[k]].lbr == 0
    ensures s.infos[e].lbr == Range(D(s, e)) && forall k :: 0 <= k < |es| ==> Closed(D(s, es[k]))
  {
    RangeAt(H, s, e);
    forall k | 0 <= k < |es| ensures Closed(D(s, es[k])) { RangeAt(H, s, es[k]); }
  }

  lemma StillWraps(s: Snap, s': Snap, h: Expr, neat: bool)
    requires Step(s, s', neat) && (neat ==> Wraps(s, h))
    ensures neat ==> Wraps(s', h)
  {
    if neat && !s.nodes[h].ClosN? { StillClear(s, s', h, neat); }
  }

  lemma StillClosure(s: Snap, s': Snap, h: Expr, neat: bool)
    requires Step(s, s', neat) && h < |s.nodes| && s.nodes[h].ClosN?
    ensures neat ==> s'.nodes[h].ClosN?
  {
    StepIs(s, s', neat);
    if neat { assert s'.nodes[..|s.nodes|][h] == s.nodes[h]; }
  }

  lemma BinderParts(s: Snap, s': Snap, t: Node, env: nat, p: nat, x: Expr, y: Expr)
    requires (t.LamN? || t.PiN?) && x < |s'.nodes| && y < |s'.nodes|
    requires D(s', x) == VD(s, t.d, Under(env, p)) && D(s', y) == VD(s, t.b, Under(env, p + 1))
    ensures var nd := if t.LamN? then LamN(x, y) else PiN(x, y);
            Fits(s', nd) && NodeTerm(s', nd, Plain) == NodeTerm(s, t, Under(env, p))
  {
  }

  lemma LetParts(s: Snap, s': Snap, t: Node, env: nat, p: nat, x: Expr, y: Expr, z: Expr)
    requires t.LetN? && D(s', x) == VD(s, t.y, Under(env, p)) && D(s', y) == VD(s, t.v, Under(env, p))
    requires D(s', z) == VD(s, t.b, Under(env, p + 1)) && x < |s'.nodes| && y < |s'.nodes| && z < |s'.nodes|
    ensures Fits(s', LetN(x, y, z))
    ensures NodeTerm(s', LetN(x, y, z), Plain) == NodeTerm(s, t, Under(env, p))
  {
  }

  // ---------------------------------------------------------------- the index

  /** Where a walk that nothing stops is bound to meet an empty slot. */
  lemma FreeSlot(H: Hashing, s: Snap, inPerm: bool, start: nat, nd: Node, fuel: nat) returns (stop: nat)
    requires Trusted(H, s, false) && start < |IndexOf(s, inPerm).slots| && (inPerm || s.frozen)
    ensures var slots := IndexOf(s, inPerm).slots;
            Unmet(s, nd, fuel) ==> stop < |slots| && slots[Pos(start, stop, |slots|)].Empty?
  {
    stop := 0;
    if inPerm || Roomy(s.temp) {
      var i := SomeEmpty(IndexOf(s, inPerm).slots);
      stop := PosOnto(start, i, |IndexOf(s, inPerm).slots|);
    }
  }

  lemma FirstIn(s: seq<nat>)
    ensures s == [] || s[0] in s
  {
  }

  lemma NothingRecorded(x: Index)
    requires x.track && Exactly(x.dirty, x.slots) && x.count == 0 && forall i :: 0 <= i < |x.slots| ==> x.slots[i].Empty?
    ensures x == Index(seq(|x.slots|, i => Empty), 0, x.gen, true, [])
  {
    assert x.slots == seq(|x.slots|, i => Empty);
    FirstIn(x.dirty);
  }
}
