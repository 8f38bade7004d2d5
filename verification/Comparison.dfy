// The comparison of two views of terms with suspended substitutions (src/expr.cpp), as far as it answers
// without making a node: when it is exact, and exactly which views it overlooks.
module Comparison {
  import opened Terms
  import opened SuspendModel
  import opened SuspendTidy

  /** The kind tag of a node. */
  function Kind(nd: Node): nat {
    match nd
    case BVarN(_) => 0 case FVarN(_) => 1 case SortN(_) => 2 case ConstN(_, _) => 3 case AppN(_, _) => 4
    case LamN(_, _) => 5 case PiN(_, _) => 6 case LetN(_, _, _) => 7 case LitN(_) => 8 case ProjN(_, _, _) => 9
    case ClosN(_, _, _) => 10
  }

  ghost predicate ViewOk(s: Snap, x: Expr, u: Under) { x < |s.nodes| && (u.Under? ==> u.env < |s.envs|) }

  /** A node whose root stands under the substitution. */
  ghost predicate NodeView(s: Snap, a: Node, u: Under) {
    Fits(s, a) && (u.Under? ==> u.env < |s.envs| && !a.ClosN? && !a.BVarN?)
  }

  /** A view and (if neat) one that the comparison sees through. */
  ghost predicate ViewIn(s: Snap, x: Expr, u: Under, neat: bool) { ViewOk(s, x, u) && (neat ==> Fine(s, x, u)) }

  ghost predicate NodeIn(s: Snap, a: Node, u: Under, neat: bool) { NodeView(s, a, u) && (neat ==> FineNode(s, a, u)) }

  /** A view whose node the substitution leaves standing; if neat, no closure. */
  ghost predicate Rooted(s: Snap, x: Expr, u: Under, neat: bool) {
    ViewIn(s, x, u, neat) && (u.Under? ==> !s.nodes[x].BVarN?) && (u.Under? || neat ==> !s.nodes[x].ClosN?)
  }

  // ---------------------------------------------------------------- the comparison

  /** Where a view leads: to a node left standing, or nowhere without making a node or more fuel. */
  datatype Lead = Stuck | To(h: Expr, u: Under)

  /** What a comparison says; Open if it would have to make a node, or the fuel is spent. */
  datatype Verdict = Open | Same | Different

  function Say(eq: bool): Verdict { if eq then Same else Different }

  /** What a view resolves to; nothing if a node would have to be made, or the fuel is spent. */
  ghost function Root(s: Snap, x: Expr, u: Under, fuel: nat): Lead
    decreases fuel
  {
    if x >= |s.nodes| || x >= |s.infos| then Stuck
    else if u.Plain? then
      if !s.nodes[x].ClosN? then To(x, u)
      else if fuel == 0 then Stuck
      else Root(s, s.nodes[x].t, Under(s.nodes[x].env, s.nodes[x].p), fuel - 1)
    else if s.infos[x].lbr <= u.p then To(x, Plain)
    else if fuel == 0 || s.nodes[x].ClosN? then Stuck
    else if s.nodes[x].BVarN? then
      if u.env < |s.envs| && u.p <= s.nodes[x].i < u.p + |s.envs[u.env]|
      then Root(s, s.envs[u.env][s.nodes[x].i - u.p], Plain, fuel - 1)
      else Stuck
    else To(x, u)
  }

  /** Two nodes of which at most one has no substitution over it. */
  ghost function NodesAgree(s: Snap, a: Node, u: Under, b: Node, w: Under, fuel: nat): Verdict
    decreases fuel
  {
    if Kind(a) != Kind(b) then Different
    else if fuel == 0 then Open
    else match a
      case AppN(f, x) => BothAgree(s, f, u, x, u, b.f, w, b.a, w, fuel - 1)
      case LamN(d, x) => BothAgree(s, d, u, x, Shift(u), b.d, w, b.b, Shift(w), fuel - 1)
      case PiN(d, x) => BothAgree(s, d, u, x, Shift(u), b.d, w, b.b, Shift(w), fuel - 1)
      case LetN(y, v, x) =>
        if fuel == 1 then Open
        else Along(BothAgree(s, y, u, v, u, b.y, w, b.v, w, fuel - 2), ViewsAgree(s, x, Shift(u), b.b, Shift(w), fuel - 2))
      case ProjN(n, i, e) => if n != b.s || i != b.idx then Different else ViewsAgree(s, e, u, b.e, w, fuel - 1)
      case _ => Say(a == b)
  }

  /** The second answer counts only if the first was yes. */
  function Along(p: Verdict, q: Verdict): Verdict { if p.Same? then q else p }

  ghost function BothAgree(s: Snap, x: Expr, u: Under, y: Expr, v: Under, x': Expr, u': Under, y': Expr, v': Under, fuel: nat)
    : Verdict
    decreases fuel
  {
    if fuel == 0 then Open else Along(ViewsAgree(s, x, u, x', u', fuel - 1), ViewsAgree(s, y, v, y', v', fuel - 1))
  }

  ghost function ViewsAgree(s: Snap, x: Expr, u: Under, y: Expr, w: Under, fuel: nat): Verdict
    decreases fuel, 1
  {
    if fuel == 0 then Open
    else RootsAgree(s, Root(s, x, u, fuel - 1), Root(s, y, w, fuel - 1), fuel)
  }

  ghost function RootsAgree(s: Snap, p: Lead, q: Lead, fuel: nat): Verdict
    requires fuel > 0
    decreases fuel, 0
  {
    if p.Stuck? || q.Stuck? then Open
    else if p.u.Plain? && q.u.Plain? then Say(p.h == q.h)
    else if p == q then Same
    else if p.h >= |s.nodes| || q.h >= |s.nodes| then Open
    else NodesAgree(s, s.nodes[p.h], p.u, s.nodes[q.h], q.u, fuel - 1)
  }

  /** A closure stands for its body under its substitution, any other node for itself. */
  ghost function TopNode(s: Snap, nd: Node): Node { if nd.ClosN? && nd.t < |s.nodes| then s.nodes[nd.t] else nd }

  function TopUnder(nd: Node): Under { if nd.ClosN? then Under(nd.env, nd.p) else Plain }

  /** Handle i against a node: the equality test of the index. */
  ghost function NodeAgrees(s: Snap, i: Expr, nd: Node, fuel: nat): Verdict {
    if i >= |s.nodes| then Open
    else if s.nodes[i] == nd then Same
    else if !s.nodes[i].ClosN? && !nd.ClosN? then Different
    else if fuel == 0 then Open
    else NodesAgree(s, TopNode(s, s.nodes[i]), TopUnder(s.nodes[i]), TopNode(s, nd), TopUnder(nd), fuel - 1)
  }

  // ---------------------------------------------------------------- what it resolves and compares

  lemma EnvEntry(s: Snap, env: nat, p: nat, i: nat)
    requires EnvsClosed(s) && env < |s.envs| && p <= i < p + |s.envs[env]|
    ensures s.envs[env][i - p] < |s.nodes| && SubstOf(s, Under(env, p))(i) == D(s, s.envs[env][i - p])
  {
    ClosedEntry(EnvTerms(s, env), p, i);
  }

  /** A fine view under a substitution is of no closure. */
  lemma FineRoot(s: Snap, x: Expr, u: Under, neat: bool)
    requires ViewIn(s, x, u, neat) && u.Under?
    ensures neat ==> !s.nodes[x].ClosN? && AllClear(s, Parts(s.nodes[x]))
  {
    if neat { ClearNode(s, x); }
  }

  lemma ClosureIn(H: Hashing, s: Snap, nd: Node, neat: bool)
    requires nd.ClosN? && NodeOk(s, nd.t) && InfoOk(H, s, nd.t) && Fits(s, nd) && (neat ==> TidyNode(s, nd))
    ensures Rooted(s, nd.t, Under(nd.env, nd.p), neat) && s.infos[nd.t].lbr > nd.p
    ensures NodeIn(s, s.nodes[nd.t], Under(nd.env, nd.p), neat)
    ensures NodeTerm(s, nd, Plain) == NodeTerm(s, s.nodes[nd.t], Under(nd.env, nd.p)) == VD(s, nd.t, Under(nd.env, nd.p))
  {
    ViewNode(s, nd.t, Under(nd.env, nd.p));
    FineRoot(s, nd.t, Under(nd.env, nd.p), neat);
  }

  lemma RootedNode(s: Snap, x: Expr, u: Under, neat: bool)
    requires NodeOk(s, x) && Rooted(s, x, u, neat)
    ensures NodeIn(s, s.nodes[x], u, neat) && NodeTerm(s, s.nodes[x], u) == VD(s, x, u)
  {
    if u.Under? {
      ViewNode(s, x, u);
      FineRoot(s, x, u, neat);
    }
  }

  lemma TidyAt(s: Snap, x: Expr, neat: bool)
    requires x < |s.nodes| && (neat ==> Neat(s))
    ensures neat ==> TidyNode(s, s.nodes[x])
  {
  }

  /** The parts of a node that is seen through are seen through. */
  lemma PartsIn(s: Snap, a: Node, u: Under, neat: bool)
    requires NodeIn(s, a, u, neat) && !a.ClosN?
    ensures match a
            case AppN(f, x) => ViewIn(s, f, u, neat) && ViewIn(s, x, u, neat)
            case LamN(d, b) => ViewIn(s, d, u, neat) && ViewIn(s, b, Shift(u), neat)
            case PiN(d, b) => ViewIn(s, d, u, neat) && ViewIn(s, b, Shift(u), neat)
            case LetN(y, v, b) => ViewIn(s, y, u, neat) && ViewIn(s, v, u, neat) && ViewIn(s, b, Shift(u), neat)
            case ProjN(_, _, e) => ViewIn(s, e, u, neat)
            case _ => true
  {
    PartsBound(a, |s.nodes|);
    var ps := Parts(a);
    match a
    case AppN(f, x) => assert ps[0] == f && ps[1] == x;
    case LamN(d, b) => assert ps[0] == d && ps[1] == b;
    case PiN(d, b) => assert ps[0] == d && ps[1] == b;
    case LetN(y, v, b) => assert ps[0] == y && ps[1] == v && ps[2] == b;
    case ProjN(_, _, e) => assert ps[0] == e;
    case _ =>
  }

  ghost predicate Resolves(s: Snap, x: Expr, u: Under, r: Lead, neat: bool) {
    r.To? ==> Rooted(s, r.h, r.u, neat) && VD(s, r.h, r.u) == VD(s, x, u)
  }

  lemma ClosureLead(H: Hashing, s: Snap, x: Expr, neat: bool)
    requires Trusted(H, s, neat) && x < |s.nodes| && s.nodes[x].ClosN?
    ensures var nd := s.nodes[x]; var u := Under(nd.env, nd.p); Rooted(s, nd.t, u, neat) && VD(s, nd.t, u) == D(s, x)
    ensures s.infos[s.nodes[x].t].lbr > s.nodes[x].p
  {
    var nd := s.nodes[x];
    assert NodeOk(s, x) && NodeOk(s, nd.t) && InfoOk(H, s, nd.t);
    TidyAt(s, x, neat);
    ClosureIn(H, s, nd, neat);
  }

  lemma VariableLead(H: Hashing, s: Snap, x: Expr, env: nat, p: nat)
    requires Trusted(H, s, false) && x < |s.nodes| && s.nodes[x].BVarN? && env < |s.envs|
    requires p <= s.nodes[x].i < p + |s.envs[env]|
    ensures var r := s.envs[env][s.nodes[x].i - p]; r < |s.nodes| && D(s, r) == VD(s, x, Under(env, p))
  {
    assert NodeOk(s, x);
    EnvEntry(s, env, p, s.nodes[x].i);
  }

  lemma LoneLead(H: Hashing, s: Snap, x: Expr, u: Under)
    requires Trusted(H, s, false) && x < |s.nodes| && u.Under? && s.infos[x].lbr <= u.p
    ensures VD(s, x, u) == D(s, x)
  {
    RangeAt(H, s, x);
    Untouched(D(s, x), EnvTerms(s, u.env), u.p);
  }

  lemma {:induction false} RootOk(H: Hashing, s: Snap, x: Expr, u: Under, fuel: nat, neat: bool)
    requires Trusted(H, s, neat) && ViewIn(s, x, u, neat)
    ensures Resolves(s, x, u, Root(s, x, u, fuel), neat)
    decreases fuel
  {
    hide TrustIn;
    var nd := s.nodes[x];
    if u.Plain? {
      if nd.ClosN? && fuel > 0 {
        ClosureLead(H, s, x, neat);
        RootOk(H, s, nd.t, Under(nd.env, nd.p), fuel - 1, neat);
      }
    } else {
      FineRoot(s, x, u, neat);
      if x < |s.infos| && s.infos[x].lbr <= u.p {
        LoneLead(H, s, x, u);
      } else if fuel > 0 && nd.BVarN? && u.p <= nd.i < u.p + |s.envs[u.env]| {
        VariableLead(H, s, x, u.env, u.p);
        RootOk(H, s, s.envs[u.env][nd.i - u.p], Plain, fuel - 1, neat);
      }
    }
  }

  lemma RootsOk(H: Hashing, s: Snap, x: Expr, u: Under, y: Expr, w: Under, fuel: nat, neat: bool)
    requires Trusted(H, s, neat) && ViewIn(s, x, u, neat) && ViewIn(s, y, w, neat)
    ensures Resolves(s, x, u, Root(s, x, u, fuel), neat) && Resolves(s, y, w, Root(s, y, w, fuel), neat)
  {
    RootOk(H, s, x, u, fuel, neat);
    RootOk(H, s, y, w, fuel, neat);
  }

  /** Nodes of different kinds denote different terms, unless one is a closure that was not seen through. */
  lemma KindsDiffer(s: Snap, a: Node, u: Under, b: Node, w: Under, neat: bool)
    requires NodeIn(s, a, u, neat) && NodeIn(s, b, w, neat) && Kind(a) != Kind(b)
    ensures neat ==> NodeTerm(s, a, u) != NodeTerm(s, b, w)
  {
  }

  /** A verdict on two terms. */
  ghost predicate Right(p: Verdict, a: Term, b: Term, neat: bool) { (p.Same? ==> a == b) && (p.Different? && neat ==> a != b) }

  /** A verdict on two pairs of terms. */
  ghost predicate RightTwo(p: Verdict, a: Term, b: Term, a': Term, b': Term, neat: bool) {
    (p.Same? ==> a == a' && b == b') && (p.Different? && neat ==> a != a' || b != b')
  }

  lemma AlongRight(p: Verdict, q: Verdict, a: Term, b: Term, a': Term, b': Term, neat: bool)
    requires Right(p, a, a', neat) && Right(q, b, b', neat)
    ensures RightTwo(Along(p, q), a, b, a', b', neat)
  {
  }

  // Compounds agree as their parts do.

  lemma {:induction false} AppRight(H: Hashing, s: Snap, a: Node, u: Under, b: Node, w: Under, fuel: nat, neat: bool)
    requires Trusted(H, s, neat) && NodeIn(s, a, u, neat) && NodeIn(s, b, w, neat) && fuel > 0
    requires a.AppN? && b.AppN?
    ensures Right(NodesAgree(s, a, u, b, w, fuel), NodeTerm(s, a, u), NodeTerm(s, b, w), neat)
    decreases fuel, 0
  {
    PartsIn(s, a, u, neat);
    PartsIn(s, b, w, neat);
    BothRight(H, s, a.f, u, a.a, u, b.f, w, b.a, w, fuel - 1, neat);
  }

  lemma {:induction false} BinderRight(H: Hashing, s: Snap, a: Node, u: Under, b: Node, w: Under, fuel: nat, neat: bool)
    requires Trusted(H, s, neat) && NodeIn(s, a, u, neat) && NodeIn(s, b, w, neat) && fuel > 0
    requires (a.LamN? && b.LamN?) || (a.PiN? && b.PiN?)
    ensures Right(NodesAgree(s, a, u, b, w, fuel), NodeTerm(s, a, u), NodeTerm(s, b, w), neat)
    decreases fuel, 0
  {
    PartsIn(s, a, u, neat);
    PartsIn(s, b, w, neat);
    BothRight(H, s, a.d, u, a.b, Shift(u), b.d, w, b.b, Shift(w), fuel - 1, neat);
  }

  lemma LetAlong(p: Verdict, q: Verdict, y: Term, v: Term, b: Term, y': Term, v': Term, b': Term, neat: bool)
    requires RightTwo(p, y, v, y', v', neat) && Right(q, b, b', neat)
    ensures Right(Along(p, q), Let(y, v, b), Let(y', v', b'), neat)
  {
  }

  lemma {:induction false} LetRight(H: Hashing, s: Snap, a: Node, u: Under, b: Node, w: Under, fuel: nat, neat: bool)
    requires Trusted(H, s, neat) && NodeIn(s, a, u, neat) && NodeIn(s, b, w, neat) && fuel > 1
    requires a.LetN? && b.LetN?
    ensures Right(Along(BothAgree(s, a.y, u, a.v, u, b.y, w, b.v, w, fuel - 2), ViewsAgree(s, a.b, Shift(u), b.b, Shift(w), fuel - 2)),
                  NodeTerm(s, a, u), NodeTerm(s, b, w), neat)
    decreases fuel, 0
  {
    PartsIn(s, a, u, neat);
    PartsIn(s, b, w, neat);
    BothRight(H, s, a.y, u, a.v, u, b.y, w, b.v, w, fuel - 2, neat);
    ViewsRight(H, s, a.b, Shift(u), b.b, Shift(w), fuel - 2, neat);
    LetAlong(BothAgree(s, a.y, u, a.v, u, b.y, w, b.v, w, fuel - 2), ViewsAgree(s, a.b, Shift(u), b.b, Shift(w), fuel - 2),
             VD(s, a.y, u), VD(s, a.v, u), VD(s, a.b, Shift(u)), VD(s, b.y, w), VD(s, b.v, w), VD(s, b.b, Shift(w)), neat);
  }

  lemma {:induction false} ProjRight(H: Hashing, s: Snap, a: Node, u: Under, b: Node, w: Under, fuel: nat, neat: bool)
    requires Trusted(H, s, neat) && NodeIn(s, a, u, neat) && NodeIn(s, b, w, neat) && fuel > 0
    requires a.ProjN? && b.ProjN?
    ensures Right(NodesAgree(s, a, u, b, w, fuel), NodeTerm(s, a, u), NodeTerm(s, b, w), neat)
    decreases fuel, 0
  {
    PartsIn(s, a, u, neat);
    PartsIn(s, b, w, neat);
    ViewsRight(H, s, a.e, u, b.e, w, fuel - 1, neat);
  }

  lemma {:induction false} NodesRight(H: Hashing, s: Snap, a: Node, u: Under, b: Node, w: Under, fuel: nat, neat: bool)
    requires Trusted(H, s, neat) && NodeIn(s, a, u, neat) && NodeIn(s, b, w, neat) && (u.Under? || w.Under?)
    ensures Right(NodesAgree(s, a, u, b, w, fuel), NodeTerm(s, a, u), NodeTerm(s, b, w), neat)
    decreases fuel, 1
  {
    if Kind(a) != Kind(b) {
      KindsDiffer(s, a, u, b, w, neat);
    } else if fuel > 0 {
      match a
      case AppN(_, _) => AppRight(H, s, a, u, b, w, fuel, neat);
      case LamN(_, _) => BinderRight(H, s, a, u, b, w, fuel, neat);
      case PiN(_, _) => BinderRight(H, s, a, u, b, w, fuel, neat);
      case LetN(_, _, _) => if fuel > 1 { LetRight(H, s, a, u, b, w, fuel, neat); }
      case ProjN(_, _, _) => ProjRight(H, s, a, u, b, w, fuel, neat);
      case _ =>
    }
  }

  lemma {:induction false} BothRight(H: Hashing, s: Snap, x: Expr, u: Under, y: Expr, v: Under,
                                     x': Expr, u': Under, y': Expr, v': Under, fuel: nat, neat: bool)
    requires Trusted(H, s, neat)
    requires ViewIn(s, x, u, neat) && ViewIn(s, y, v, neat) && ViewIn(s, x', u', neat) && ViewIn(s, y', v', neat)
    ensures RightTwo(BothAgree(s, x, u, y, v, x', u', y', v', fuel), VD(s, x, u), VD(s, y, v), VD(s, x', u'), VD(s, y', v'), neat)
    decreases fuel, 1
  {
    hide TrustIn, VD;
    if fuel > 0 {
      ViewsRight(H, s, x, u, x', u', fuel - 1, neat);
      ViewsRight(H, s, y, v, y', v', fuel - 1, neat);
      AlongRight(ViewsAgree(s, x, u, x', u', fuel - 1), ViewsAgree(s, y, v, y', v', fuel - 1),
                 VD(s, x, u), VD(s, y, v), VD(s, x', u'), VD(s, y', v'), neat);
    }
  }

  lemma {:induction false} RootsRight(H: Hashing, s: Snap, x: Expr, u: Under, p: Lead, y: Expr, w: Under,
                                      q: Lead, fuel: nat, neat: bool)
    requires Trusted(H, s, neat) && Resolves(s, x, u, p, neat) && Resolves(s, y, w, q, neat)
    requires fuel > 0
    ensures Right(RootsAgree(s, p, q, fuel), VD(s, x, u), VD(s, y, w), neat)
    decreases fuel, 0
  {
    if p.To? && q.To? {
      assert NodeOk(s, p.h) && NodeOk(s, q.h);
      RootedNode(s, p.h, p.u, neat);
      RootedNode(s, q.h, q.u, neat);
      if p.u.Under? || q.u.Under? { NodesRight(H, s, s.nodes[p.h], p.u, s.nodes[q.h], q.u, fuel - 1, neat); }
    }
  }

  /**
   * Whatever the comparison answers: a yes is right in every table, and a no is right in a neat one about
   * views over terms that hold no closure.
   */
  lemma {:induction false} ViewsRight(H: Hashing, s: Snap, x: Expr, u: Under, y: Expr, w: Under, fuel: nat, neat: bool)
    requires Trusted(H, s, neat) && ViewIn(s, x, u, neat) && ViewIn(s, y, w, neat)
    ensures Right(ViewsAgree(s, x, u, y, w, fuel), VD(s, x, u), VD(s, y, w), neat)
    decreases fuel, 1
  {
    hide TrustIn;
    if fuel > 0 {
      RootsOk(H, s, x, u, y, w, fuel - 1, neat);
      RootsRight(H, s, x, u, Root(s, x, u, fuel - 1), y, w, Root(s, y, w, fuel - 1), fuel, neat);
    }
  }

  lemma TopIn(H: Hashing, s: Snap, nd: Node, neat: bool)
    requires Trusted(H, s, neat) && Fits(s, nd) && (neat ==> TidyNode(s, nd))
    ensures NodeIn(s, TopNode(s, nd), TopUnder(nd), neat)
    ensures NodeTerm(s, TopNode(s, nd), TopUnder(nd)) == NodeTerm(s, nd, Plain)
    ensures nd.ClosN? ==> s.frozen
  {
    if nd.ClosN? {
      assert NodeOk(s, nd.t) && InfoOk(H, s, nd.t);
      ClosureIn(H, s, nd, neat);
    }
  }

  // ---------------------------------------------------------------- while the table grows

  lemma StillViews(H: Hashing, s: Snap, s': Snap, x: Expr, u: Under, neat: bool)
    requires Trusted(H, s, false) && Move(s, s', neat) && ViewIn(s, x, u, neat)
    ensures ViewIn(s', x, u, neat) && VD(s', x, u) == VD(s, x, u)
  {
    VDLater(s, s', x, u);
    if u.Under? { StillClear(s, s', x, neat); }
  }

  lemma StillRooted(H: Hashing, s: Snap, s': Snap, x: Expr, u: Under, neat: bool)
    requires Trusted(H, s, false) && Move(s, s', neat) && Rooted(s, x, u, neat)
    ensures Rooted(s', x, u, neat) && VD(s', x, u) == VD(s, x, u)
  {
    StillViews(H, s, s', x, u, neat);
    StillNode(s, s', x, neat);
  }

  // ---------------------------------------------------------------- what it overlooks

  /** Some view that is seen through denotes the same term, and the comparison says no. */
  ghost predicate Overlooked(s: Snap, x: Expr, u: Under) {
    exists y: Expr, w: Under, n: nat {:trigger Misses(s, x, u, y, w, n)} :: ViewIn(s, y, w, true) && Misses(s, x, u, y, w, n)
  }

  ghost predicate Misses(s: Snap, x: Expr, u: Under, y: Expr, w: Under, fuel: nat) {
    VD(s, x, u) == VD(s, y, w) && ViewsAgree(s, x, u, y, w, fuel) == Different
  }

  /** A closure that a substitution leaves alone stays a closure, and no node agrees with it. */
  lemma ClosureOverlooked(H: Hashing, s: Snap, x: Expr, u: Under, fuel: nat)
    requires Trusted(H, s, false) && ViewOk(s, x, u) && s.nodes[x].ClosN? && u.Under? && s.infos[x].lbr <= u.p && fuel > 1
    ensures var nd := s.nodes[x]; Misses(s, x, u, nd.t, Under(nd.env, nd.p), fuel)
  {
    var nd := s.nodes[x];
    assert NodeOk(s, x) && NodeOk(s, nd.t) && InfoOk(H, s, nd.t);
    ClosureIn(H, s, nd, false);
    RangeAt(H, s, x);
    Untouched(D(s, x), EnvTerms(s, u.env), u.p);
    ClosureDiffers(s, x, u, fuel);
  }

  lemma ClosureDiffers(s: Snap, x: Expr, u: Under, fuel: nat)
    requires x < |s.nodes| <= |s.infos| && s.nodes[x].ClosN? && u.Under? && s.infos[x].lbr <= u.p && fuel > 1
    requires var nd := s.nodes[x];
             nd.t < |s.nodes| && s.infos[nd.t].lbr > nd.p && !s.nodes[nd.t].ClosN? && !s.nodes[nd.t].BVarN?
    ensures var nd := s.nodes[x]; ViewsAgree(s, x, u, nd.t, Under(nd.env, nd.p), fuel) == Different
  {
    var nd := s.nodes[x];
    assert Root(s, x, u, fuel - 1) == To(x, Plain);
    assert Root(s, nd.t, Under(nd.env, nd.p), fuel - 1) == To(nd.t, Under(nd.env, nd.p));
    assert RootsAgree(s, To(x, Plain), To(nd.t, Under(nd.env, nd.p)), fuel) == Different;
  }

  lemma FineNotMissed(H: Hashing, s: Snap, x: Expr, u: Under, y: Expr, w: Under, fuel: nat)
    requires Trusted(H, s, true) && ViewIn(s, x, u, true) && ViewIn(s, y, w, true)
    ensures !Misses(s, x, u, y, w, fuel)
  {
    ViewsRight(H, s, x, u, y, w, fuel, true);
  }

  lemma FineNotOverlooked(H: Hashing, s: Snap, x: Expr, u: Under)
    requires Trusted(H, s, true) && ViewIn(s, x, u, true)
    ensures !Overlooked(s, x, u)
  {
    forall y, w, n: nat | ViewIn(s, y, w, true) ensures !Misses(s, x, u, y, w, n) { FineNotMissed(H, s, x, u, y, w, n); }
  }

  lemma Unanswered(s: Snap, x: Expr, u: Under, y: Expr, w: Under, n: nat)
    requires ViewOk(s, x, u) && s.nodes[x].ClosN? && u.Under? && (x < |s.infos| ==> s.infos[x].lbr > u.p)
    ensures !Misses(s, x, u, y, w, n)
  {
    if n > 0 { assert RootsAgree(s, Root(s, x, u, n - 1), Root(s, y, w, n - 1), n) == Open; }
  }

  /**
   * In a neat table, exactly these views of what may be suspended over are overlooked: a closure not yet
   * exposed, under a substitution that leaves it alone.
   */
  lemma OverlookedExactly(H: Hashing, s: Snap, x: Expr, u: Under)
    requires Trusted(H, s, true) && ViewOk(s, x, u) && Wraps(s, x)
    ensures Overlooked(s, x, u) <==> s.nodes[x].ClosN? && u.Under? && s.infos[x].lbr <= u.p
  {
    if !s.nodes[x].ClosN? || u.Plain? {
      FineNotOverlooked(H, s, x, u);
    } else if s.infos[x].lbr <= u.p {
      ClosurePartner(H, s, x, u);
    } else {
      forall y, w, n: nat ensures !Misses(s, x, u, y, w, n) { Unanswered(s, x, u, y, w, n); }
    }
  }

  lemma ClosurePartner(H: Hashing, s: Snap, x: Expr, u: Under)
    requires Trusted(H, s, true) && ViewOk(s, x, u) && s.nodes[x].ClosN? && u.Under? && s.infos[x].lbr <= u.p
    ensures Overlooked(s, x, u)
  {
    var nd := s.nodes[x];
    assert NodeOk(s, x) && NodeOk(s, nd.t) && InfoOk(H, s, nd.t);
    ClosureOverlooked(H, s, x, u, 2);
    TidyAt(s, x, true);
    ClosureIn(H, s, nd, true);
  }

  /**
   * Why the bodies must hold no closure: f applied to a closure, and f applied to a variable, under the
   * substitution of the closure for the variable, denote one term, and the comparison says no.
   */
  lemma HeldClosure(H: Hashing, s: Snap, x: Expr, y: Expr, f: Expr, c: Expr, v: Expr, e: nat, fuel: nat)
    requires Trusted(H, s, false) && x < |s.nodes| && y < |s.nodes| && v < |s.nodes| && e < |s.envs| && fuel > 2
    requires s.nodes[x] == AppN(f, c) && s.nodes[y] == AppN(f, v) && s.nodes[v].BVarN? && s.nodes[v].i < |s.envs[e]|
    requires s.envs[e][s.nodes[v].i] == c && s.nodes[c].ClosN?
    requires Range(D(s, f)) > 0 && Root(s, f, Under(e, 0), fuel).To?
    ensures Misses(s, x, Under(e, 0), y, Under(e, 0), fuel + 4)
  {
    var u, nd := Under(e, 0), s.nodes[c];
    assert NodeOk(s, x) && NodeOk(s, y) && NodeOk(s, c) && NodeOk(s, v) && NodeOk(s, nd.t) && InfoOk(H, s, nd.t);
    HeldEntry(H, s, c, v, e);
    ViewNode(s, x, u);
    ViewNode(s, y, u);
    RangeAt(H, s, x);
    RangeAt(H, s, y);
    ClosureIn(H, s, nd, false);
    assert Root(s, x, u, fuel + 3) == To(x, u) && Root(s, y, u, fuel + 3) == To(y, u);
    SameAgrees(s, f, u, fuel);
    HeldParts(s, c, v, e, fuel);
    assert BothAgree(s, f, u, c, u, f, u, v, u, fuel + 2) == Different;
    assert NodesAgree(s, s.nodes[x], u, s.nodes[y], u, fuel + 3) == Different;
    assert RootsAgree(s, To(x, u), To(y, u), fuel + 4) == Different;
  }

  lemma HeldEntry(H: Hashing, s: Snap, c: Expr, v: Expr, e: nat)
    requires Trusted(H, s, false) && v < |s.nodes| && e < |s.envs| && s.nodes[v].BVarN? && s.nodes[v].i < |s.envs[e]|
    requires s.envs[e][s.nodes[v].i] == c
    ensures c < |s.nodes| && s.infos[c].lbr == 0 && s.infos[v].lbr > 0
    ensures VD(s, v, Under(e, 0)) == D(s, c) == VD(s, c, Under(e, 0))
  {
    var i := s.nodes[v].i;
    assert NodeOk(s, v);
    EnvEntry(s, e, 0, i);
    RangeAt(H, s, c);
    RangeAt(H, s, v);
    assert EnvTerms(s, e)[i] == D(s, c);
    Untouched(D(s, c), EnvTerms(s, e), 0);
  }

  lemma SameAgrees(s: Snap, f: Expr, u: Under, fuel: nat)
    requires Root(s, f, u, fuel).To?
    ensures ViewsAgree(s, f, u, f, u, fuel + 1) == Same
  {
  }

  lemma HeldParts(s: Snap, c: Expr, v: Expr, e: nat, fuel: nat)
    requires c < |s.nodes| <= |s.infos| && v < |s.nodes| && e < |s.envs| && fuel > 2
    requires s.nodes[v].BVarN? && s.nodes[v].i < |s.envs[e]| && s.envs[e][s.nodes[v].i] == c
    requires s.infos[c].lbr == 0 && s.infos[v].lbr > 0
    requires var nd := s.nodes[c];
             nd.ClosN? && nd.t < |s.nodes| && s.infos[nd.t].lbr > nd.p && !s.nodes[nd.t].ClosN? && !s.nodes[nd.t].BVarN?
    ensures ViewsAgree(s, c, Under(e, 0), v, Under(e, 0), fuel + 1) == Different
  {
    var u, nd := Under(e, 0), s.nodes[c];
    assert Root(s, c, u, fuel) == To(c, Plain);
    assert Root(s, nd.t, Under(nd.env, nd.p), fuel - 2) == To(nd.t, Under(nd.env, nd.p));
    assert Root(s, c, Plain, fuel - 1) == To(nd.t, Under(nd.env, nd.p));
    assert Root(s, v, u, fuel) == To(nd.t, Under(nd.env, nd.p));
    assert RootsAgree(s, To(c, Plain), To(nd.t, Under(nd.env, nd.p)), fuel + 1) == Different;
  }
}
