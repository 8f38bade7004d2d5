// Which suspended substitutions the comparison of views sees through (src/expr.cpp): those over terms that
// hold no unexposed closure themselves.
module SuspendTidy {
  import opened Terms
  import opened SuspendModel

  /** No closure within n steps down. */
  ghost predicate ClearTo(s: Snap, h: Expr, n: nat)
    decreases n
  {
    n > 0 ==>
      && h < |s.nodes| && !s.nodes[h].ClosN?
      && forall k {:trigger Parts(s.nodes[h])[k]} :: 0 <= k < |Parts(s.nodes[h])| ==> ClearTo(s, Parts(s.nodes[h])[k], n - 1)
  }

  /** No unexposed closure is reachable through parts. */
  ghost predicate Clear(s: Snap, h: Expr) { forall n: nat {:trigger ClearTo(s, h, n)} :: ClearTo(s, h, n) }

  ghost predicate AllClear(s: Snap, hs: seq<Expr>) { forall k {:trigger hs[k]} :: 0 <= k < |hs| ==> Clear(s, hs[k]) }

  lemma ClearNode(s: Snap, h: Expr)
    requires Clear(s, h)
    ensures h < |s.nodes| && !s.nodes[h].ClosN? && AllClear(s, Parts(s.nodes[h]))
  {
    assert ClearTo(s, h, 1);
    var ps := Parts(s.nodes[h]);
    forall k, n: nat | 0 <= k < |ps| ensures ClearTo(s, ps[k], n) { assert ClearTo(s, h, n + 1); }
  }

  lemma NodeClear(s: Snap, h: Expr)
    requires h < |s.nodes| && !s.nodes[h].ClosN? && AllClear(s, Parts(s.nodes[h]))
    ensures Clear(s, h)
  {
    var ps := Parts(s.nodes[h]);
    forall n: nat ensures ClearTo(s, h, n) {
      if n > 0 {
        forall k | 0 <= k < |ps| ensures ClearTo(s, ps[k], n - 1) { assert Clear(s, ps[k]); }
      }
    }
  }

  /** Nodes other than closures stay what they are. */
  ghost predicate Calm(s: Snap, s': Snap) {
    |s.nodes| <= |s'.nodes| && forall h {:trigger s'.nodes[h]} :: 0 <= h < |s.nodes| && !s.nodes[h].ClosN? ==> s'.nodes[h] == s.nodes[h]
  }

  /** All nodes do. */
  ghost predicate Kept(s: Snap, s': Snap) { |s.nodes| <= |s'.nodes| && s'.nodes[..|s.nodes|] == s.nodes }

  lemma KeptCalm(s: Snap, s': Snap)
    requires Kept(s, s')
    ensures Calm(s, s')
  {
    forall h | 0 <= h < |s.nodes| ensures s'.nodes[h] == s.nodes[h] { assert s'.nodes[..|s.nodes|][h] == s.nodes[h]; }
  }

  lemma KeptTrans(a: Snap, b: Snap, c: Snap)
    requires Kept(a, b) && Kept(b, c)
    ensures Kept(a, c)
  {
    assert c.nodes[..|a.nodes|] == c.nodes[..|b.nodes|][..|a.nodes|];
  }

  lemma CalmTrans(a: Snap, b: Snap, c: Snap)
    requires Calm(a, b) && Calm(b, c)
    ensures Calm(a, c)
  {
    forall h | 0 <= h < |a.nodes| && !a.nodes[h].ClosN? ensures c.nodes[h] == a.nodes[h] { assert b.nodes[h] == a.nodes[h]; }
  }

  lemma {:induction false} ClearToLater(s: Snap, s': Snap, h: Expr, n: nat)
    requires Calm(s, s') && ClearTo(s, h, n)
    ensures ClearTo(s', h, n)
    decreases n
  {
    if n > 0 {
      assert s'.nodes[h] == s.nodes[h];
      var ps := Parts(s.nodes[h]);
      forall k | 0 <= k < |ps| ensures ClearTo(s', ps[k], n - 1) { ClearToLater(s, s', ps[k], n - 1); }
    }
  }

  /** What is clear stays clear. */
  lemma ClearLater(s: Snap, s': Snap, h: Expr)
    requires Calm(s, s') && Clear(s, h)
    ensures Clear(s', h)
  {
    forall n: nat ensures ClearTo(s', h, n) { ClearToLater(s, s', h, n); }
  }

  ghost predicate TidyNode(s: Snap, nd: Node) { nd.ClosN? ==> Clear(s, nd.t) }

  /** Every closure suspends a substitution over a term that holds no closure. */
  ghost predicate Tidy(s: Snap) { forall h {:trigger s.nodes[h]} :: 0 <= h < |s.nodes| ==> TidyNode(s, s.nodes[h]) }

  /** ... and no two handles denote the same term. */
  ghost predicate Neat(s: Snap) { Tidy(s) && Canonical(s) }

  /** What a substitution may be suspended over: a closure, whose body is reused, or a term that holds none. */
  ghost predicate Wraps(s: Snap, h: Expr) { h < |s.nodes| && (s.nodes[h].ClosN? || Clear(s, h)) }

  /** A view that a comparison sees through. */
  ghost predicate Fine(s: Snap, h: Expr, u: Under) { u.Under? ==> Clear(s, h) }

  ghost predicate FineNode(s: Snap, nd: Node, u: Under) { !nd.ClosN? && (u.Under? ==> AllClear(s, Parts(nd))) }

  lemma {:induction false} PermClearTo(s: Snap, h: Expr, n: nat)
    requires PermTier(s) && h < Perm(s)
    ensures ClearTo(s, h, n)
    decreases n
  {
    if n > 0 {
      var ps := Parts(s.nodes[h]);
      forall k | 0 <= k < |ps| ensures ClearTo(s, ps[k], n - 1) {
        assert Bounded(ps, Perm(s));
        PermClearTo(s, ps[k], n - 1);
      }
    }
  }

  /** Permanent terms hold no closure. */
  lemma PermClear(s: Snap, h: Expr)
    requires PermTier(s) && h < Perm(s)
    ensures Clear(s, h)
  {
    forall n: nat ensures ClearTo(s, h, n) { PermClearTo(s, h, n); }
  }

  lemma FrozenNeat(s: Snap)
    requires PermTier(s) && PermUnique(s) && |s.nodes| == Perm(s)
    ensures Neat(s)
  {
  }

  lemma TidyLater(s: Snap, s': Snap)
    requires Calm(s, s') && Tidy(s)
    requires forall h {:trigger s'.nodes[h]} :: 0 <= h < |s'.nodes| && (h >= |s.nodes| || s'.nodes[h] != s.nodes[h]) ==>
      TidyNode(s', s'.nodes[h])
    ensures Tidy(s')
  {
    forall h | 0 <= h < |s'.nodes| ensures TidyNode(s', s'.nodes[h]) {
      if h < |s.nodes| && s'.nodes[h] == s.nodes[h] {
        assert TidyNode(s, s.nodes[h]);
        if s.nodes[h].ClosN? { ClearLater(s, s', s.nodes[h].t); }
      }
    }
  }

  /** A node no handle denotes, appended. */
  lemma AppendNeat(s: Snap, s': Snap, nd: Node, d: Term)
    requires Neat(s) && |s.den| == |s.nodes| && TidyNode(s, nd)
    requires s'.nodes == s.nodes + [nd] && s'.den == s.den + [d]
    requires forall h :: 0 <= h < |s.nodes| ==> D(s, h) != d
    ensures Neat(s') && Kept(s, s')
  {
    KeptCalm(s, s');
    if nd.ClosN? { ClearLater(s, s', nd.t); }
    TidyLater(s, s');
    forall h: nat ensures h < |s.nodes| ==> D(s', h) == D(s, h) {}
  }

  /** A closure replaced by the root of its expansion. */
  lemma ExposeNeat(s: Snap, s': Snap, e: Expr, nd: Node)
    requires Neat(s) && e < |s.nodes| && s.nodes[e].ClosN? && !nd.ClosN?
    requires s'.nodes == s.nodes[e := nd] && s'.den == s.den
    ensures Neat(s') && Calm(s, s')
  {
    TidyLater(s, s');
    forall h ensures D(s', h) == D(s, h) {}
  }

  lemma SameNeat(s: Snap, s': Snap)
    requires Neat(s) && s'.nodes == s.nodes && s'.den == s.den
    ensures Neat(s') && Kept(s, s')
  {
    TidyLater(s, s');
    forall h ensures D(s', h) == D(s, h) {}
  }

  // ---------------------------------------------------------------- what an operation keeps

  /** How far a table can be relied on: not at all, for what its handles denote, or for exact comparisons too. */
  datatype Trust = Broken | Sound | Exact

  ghost function TrustIn(H: Hashing, s: Snap): Trust { if !Ok(H, s) then Broken else if Neat(s) then Exact else Sound }

  ghost predicate Trusted(H: Hashing, s: Snap, neat: bool) {
    && |s.infos| == |s.nodes| == |s.den| && Perm(s) <= |s.nodes|
    && !TrustIn(H, s).Broken? && (neat ==> TrustIn(H, s).Exact?)
  }

  lemma TrustedIs(H: Hashing, s: Snap, neat: bool)
    ensures Trusted(H, s, neat) <==> Ok(H, s) && (neat ==> Neat(s))
  {
  }

  /** What became of a table: its handles lost their meaning, or kept it; with closures exposed at most; with every node kept. */
  datatype Change = Lost | Loose | Exposing | Growing

  ghost function ChangeOf(s: Snap, s': Snap): Change {
    if !Later(s, s') then Lost else if Kept(s, s') then Growing else if Calm(s, s') then Exposing else Loose
  }

  ghost predicate Grows(s: Snap, s': Snap) {
    |s.nodes| <= |s'.nodes| && |s.envs| <= |s'.envs| && s'.frozen == s.frozen && s'.wm == s.wm
  }

  /** Handles keep their meaning, and (if neat) nodes are only added. */
  ghost predicate Step(s: Snap, s': Snap, neat: bool) {
    Grows(s, s') && !ChangeOf(s, s').Lost? && (neat ==> ChangeOf(s, s').Growing?)
  }

  /** Handles keep their meaning, and (if neat) nodes are only added or exposed. */
  ghost predicate Move(s: Snap, s': Snap, neat: bool) {
    Grows(s, s') && !ChangeOf(s, s').Lost? && (neat ==> ChangeOf(s, s').Growing? || ChangeOf(s, s').Exposing?)
  }

  lemma StepIs(s: Snap, s': Snap, neat: bool)
    ensures Step(s, s', neat) <==> Later(s, s') && (neat ==> Kept(s, s'))
  {
  }

  lemma MoveIs(s: Snap, s': Snap, neat: bool)
    ensures Move(s, s', neat) <==> Later(s, s') && (neat ==> Calm(s, s'))
  {
    if Kept(s, s') { KeptCalm(s, s'); }
  }

  lemma StepMove(s: Snap, s': Snap, neat: bool)
    requires Step(s, s', neat)
    ensures Move(s, s', neat)
  {
  }

  lemma Stays(s: Snap, neat: bool)
    ensures Step(s, s, neat) && Move(s, s, neat)
  {
    LaterRefl(s);
  }

  lemma StepTrans(a: Snap, b: Snap, c: Snap, neat: bool)
    requires Step(a, b, neat) && Step(b, c, neat)
    ensures Step(a, c, neat)
  {
    LaterTrans(a, b, c);
    if neat { KeptTrans(a, b, c); }
  }

  lemma MoveTrans(a: Snap, b: Snap, c: Snap, neat: bool)
    requires Move(a, b, neat) && Move(b, c, neat)
    ensures Move(a, c, neat)
  {
    MoveIs(a, b, neat);
    MoveIs(b, c, neat);
    MoveIs(a, c, neat);
    LaterTrans(a, b, c);
    if neat { CalmTrans(a, b, c); }
  }

  lemma StillClear(s: Snap, s': Snap, h: Expr, neat: bool)
    requires Move(s, s', neat) && (neat ==> Clear(s, h))
    ensures neat ==> Clear(s', h)
  {
    MoveIs(s, s', neat);
    if neat { ClearLater(s, s', h); }
  }

  lemma StillNode(s: Snap, s': Snap, h: Expr, neat: bool)
    requires Move(s, s', neat) && h < |s.nodes|
    ensures neat && !s.nodes[h].ClosN? ==> s'.nodes[h] == s.nodes[h]
    ensures s'.nodes[h] == s.nodes[h] || (!s'.nodes[h].ClosN? && !s'.nodes[h].BVarN?)
  {
    MoveIs(s, s', neat);
  }

  lemma ClosureNotClear(s: Snap, h: Expr)
    requires h < |s.nodes| && s.nodes[h].ClosN?
    ensures !Clear(s, h)
  {
    assert !ClearTo(s, h, 1);
  }

  lemma StillDenotes(H: Hashing, s: Snap, s': Snap, h: Expr, neat: bool)
    requires Trusted(H, s, false) && Move(s, s', neat) && h < |s.nodes|
    ensures h < |s'.nodes| && D(s', h) == D(s, h)
  {
    DLater(s, s', h);
  }
}
