// A run of the node table that ends with two handles for one term (src/expr.cpp): how the comparison of
// suspended substitutions comes to say no to equal terms.
module Overlooked {
  import opened Names
  import opened Terms
  import opened InternTable
  import opened SuspendModel
  import opened SuspendTidy
  import opened Comparison
  import opened SuspendProbe
  import opened Suspend

  /** The handles in the order they are made; from the fifth on they are temporary. */
  ghost function NodeAt(k: Name, a: Name, h: nat): Node {
    match h
    case 0 => ConstN(k, [])
    case 1 => BVarN(0)
    case 2 => AppN(0, 1)
    case 3 => ConstN(a, [])
    case 4 => ClosN(2, 0, 0)
    case 5 => AppN(1, 4)
    case 6 => ClosN(5, 0, 0)
    case 7 => AppN(1, 2)
    case _ => ClosN(7, 0, 0)
  }

  ghost function TermAt(k: Name, a: Name, h: nat): Term {
    var K, A := Const(k, []), Const(a, []);
    match h
    case 0 => K
    case 1 => BVar(0)
    case 2 => App(K, BVar(0))
    case 3 => A
    case 4 => App(K, A)
    case 5 => App(BVar(0), App(K, A))
    case 6 => App(A, App(K, A))
    case 7 => App(BVar(0), App(K, BVar(0)))
    case _ => App(A, App(K, A))
  }

  /** The table when n handles have been made. */
  ghost predicate Scene(s: Snap, k: Name, a: Name, n: nat) {
    && |s.nodes| == n == |s.den| && s.frozen == (n >= 4) && (if n < 4 then s.envs == [] else s.envs == [[3]] && s.wm == 4)
    && (forall h: nat {:trigger s.nodes[h]} {:trigger s.den[h]} :: h < n ==> s.nodes[h] == NodeAt(k, a, h) && s.den[h] == TermAt(k, a, h))
    && |s.perm.slots| == |s.temp.slots| == 64 && s.perm.count <= n && s.temp.count <= n
  }

  lemma SceneGrows(s: Snap, s': Snap, k: Name, a: Name, n: nat)
    requires Scene(s, k, a, n) && Added(s, s', NodeAt(k, a, n), TermAt(k, a, n)) && n != 3
    ensures Scene(s', k, a, n + 1)
  {
    forall h: nat | h < n + 1 ensures s'.nodes[h] == NodeAt(k, a, h) && s'.den[h] == TermAt(k, a, h) {
      if h < n { assert s'.nodes[h] == s.nodes[h] && s'.den[h] == s.den[h]; }
    }
  }

  /** Handle h when n are made: its range, and where its views lead. */
  lemma SceneRange(H: Hashing, s: Snap, k: Name, a: Name, n: nat, h: nat)
    requires Trusted(H, s, false) && Scene(s, k, a, n) && h < n <= 9
    ensures s.infos[h].lbr == if h == 1 || h == 2 || h == 5 || h == 7 then 1 else 0
  {
    RangeAt(H, s, h);
    assert s.den[h] == TermAt(k, a, h);
    TermRange(k, a, h);
  }

  lemma TermRange(k: Name, a: Name, h: nat)
    requires h < 9
    ensures Range(TermAt(k, a, h)) == if h == 1 || h == 2 || h == 5 || h == 7 then 1 else 0
  {
    var K, A := Const(k, []), Const(a, []);
    assert Range(App(K, A)) == 0 && Range(App(K, BVar(0))) == 1;
  }

  lemma Leads(H: Hashing, s: Snap, k: Name, a: Name, n: nat, fuel: nat)
    requires Trusted(H, s, false) && Scene(s, k, a, n) && 4 <= n <= 9 && fuel > 0
    ensures Root(s, 0, Plain, fuel) == To(0, Plain) == Root(s, 0, Under(0, 0), fuel)
    ensures Root(s, 1, Plain, fuel) == To(1, Plain) && Root(s, 1, Under(0, 0), fuel) == To(3, Plain)
  {
    SceneRange(H, s, k, a, n, 0);
    SceneRange(H, s, k, a, n, 1);
    SceneRange(H, s, k, a, n, 3);
    assert s.nodes[0] == ConstN(k, []) && s.nodes[1] == BVarN(0) && s.nodes[3] == ConstN(a, []);
    assert Root(s, 3, Plain, fuel - 1) == To(3, Plain);
  }

  /** Applications of functions that lead to different handles. */
  lemma HeadsDiffer(s: Snap, f: Expr, x: Expr, u: Under, g: Expr, y: Expr, w: Under, fuel: nat)
    requires fuel > 2 && Root(s, f, u, fuel - 3).To? && Root(s, g, w, fuel - 3).To?
    requires Root(s, f, u, fuel - 3).u.Plain? && Root(s, g, w, fuel - 3).u.Plain?
    requires Root(s, f, u, fuel - 3).h != Root(s, g, w, fuel - 3).h
    ensures NodesAgree(s, AppN(f, x), u, AppN(g, y), w, fuel).Different?
  {
    assert ViewsAgree(s, f, u, g, w, fuel - 2).Different?;
    assert BothAgree(s, f, u, x, u, g, w, y, w, fuel - 1).Different?;
  }

  lemma ArgumentsDiffer(s: Snap, f: Expr, x: Expr, u: Under, y: Expr, w: Under, fuel: nat)
    requires fuel > 2 && Root(s, f, u, fuel - 3).To? && Root(s, f, u, fuel - 3) == Root(s, f, w, fuel - 3)
    requires ViewsAgree(s, x, u, y, w, fuel - 2).Different?
    ensures NodesAgree(s, AppN(f, x), u, AppN(f, y), w, fuel).Different?
  {
    assert ViewsAgree(s, f, u, f, w, fuel - 2).Same?;
    assert BothAgree(s, f, u, x, u, f, w, y, w, fuel - 1).Different?;
  }

  /** The arguments of the last two closures: one an unexposed closure, left alone; the other not a closure. */
  lemma LastArguments(H: Hashing, s: Snap, k: Name, a: Name, n: nat, fuel: nat)
    requires Trusted(H, s, false) && Scene(s, k, a, n) && 8 <= n <= 9 && fuel > 1
    ensures ViewsAgree(s, 4, Under(0, 0), 2, Under(0, 0), fuel).Different?
  {
    hide TrustIn;
    SceneRange(H, s, k, a, n, 4);
    SceneRange(H, s, k, a, n, 2);
    assert s.nodes[4] == ClosN(2, 0, 0) && s.nodes[2] == AppN(0, 1);
    assert Root(s, 4, Under(0, 0), fuel - 1) == To(4, Plain);
    assert Root(s, 2, Under(0, 0), fuel - 1) == To(2, Under(0, 0));
    assert RootsAgree(s, To(4, Plain), To(2, Under(0, 0)), fuel).Different?;
  }

  lemma LastDiffer(H: Hashing, s: Snap, k: Name, a: Name, n: nat, fuel: nat)
    requires Trusted(H, s, false) && Scene(s, k, a, n) && 8 <= n <= 9 && fuel > 3
    ensures NodesAgree(s, AppN(1, 4), Under(0, 0), AppN(1, 2), Under(0, 0), fuel).Different?
  {
    hide TrustIn;
    Leads(H, s, k, a, n, fuel - 3);
    LastArguments(H, s, k, a, n, fuel - 2);
    ArgumentsDiffer(s, 1, 4, Under(0, 0), 2, Under(0, 0), fuel);
  }

  lemma SecondArguments(H: Hashing, s: Snap, k: Name, a: Name, n: nat, fuel: nat)
    requires Trusted(H, s, false) && Scene(s, k, a, n) && 4 <= n <= 9 && fuel > 4
    ensures NodesAgree(s, AppN(0, 1), Plain, AppN(0, 1), Under(0, 0), fuel).Different?
  {
    hide TrustIn;
    Leads(H, s, k, a, n, fuel - 3);
    ArgumentsDiffer(s, 0, 1, Plain, 1, Under(0, 0), fuel);
  }

  lemma ClosureMeets(s: Snap, h: nat, nd: Node, fuel: nat)
    requires h < |s.nodes| && nd.ClosN? && nd.t < |s.nodes| && s.nodes[nd.t].AppN? && s.nodes[h] != nd && fuel > 0
    requires s.nodes[h].AppN? || (s.nodes[h].ClosN? && s.nodes[h].t < |s.nodes| && s.nodes[s.nodes[h].t].AppN?) ==>
               NodesAgree(s, TopNode(s, s.nodes[h]), TopUnder(s.nodes[h]), s.nodes[nd.t], Under(nd.env, nd.p), fuel - 1).Different?
    requires s.nodes[h].ClosN? ==> s.nodes[h].t < |s.nodes| && s.nodes[s.nodes[h].t].AppN?
    ensures NodeAgrees(s, h, nd, fuel).Different?
  {
  }

  lemma EarlyPairs(s: Snap, k: Name, a: Name, n: nat, h: nat, fuel: nat)
    requires k != a && Scene(s, k, a, n) && h < n < 4
    ensures NodeAgrees(s, h, NodeAt(k, a, n), fuel).Different?
  {
    assert s.nodes[h] == NodeAt(k, a, h);
  }

  /** Handles against the two nodes made by applying #0. */
  lemma AppliedPairs(H: Hashing, s: Snap, k: Name, a: Name, n: nat, h: nat, fuel: nat)
    requires k != a && Trusted(H, s, false) && Scene(s, k, a, n) && h < n && (n == 5 || n == 7) && fuel > 6
    ensures NodeAgrees(s, h, NodeAt(k, a, n), fuel).Different?
  {
    hide TrustIn;
    var f, u, x := fuel - 1, Under(0, 0), if n == 5 then 4 else 2;
    Leads(H, s, k, a, n, f - 3);
    assert s.nodes[h] == NodeAt(k, a, h) && s.nodes[2] == AppN(0, 1);
    HeadsDiffer(s, 0, 1, u, 1, x, Plain, f);
    if n == 7 {
      assert s.nodes[5] == AppN(1, 4);
      HeadsDiffer(s, 1, 4, u, 1, x, Plain, f);
    }
  }

  /** Handles against the three closures: all but the last pair differ in their functions, or in a variable. */
  lemma ClosurePairs(H: Hashing, s: Snap, k: Name, a: Name, n: nat, h: nat, fuel: nat)
    requires k != a && Trusted(H, s, false) && Scene(s, k, a, n) && h < n && (n == 4 || n == 6 || n == 8) && fuel > 6
    ensures NodeAgrees(s, h, NodeAt(k, a, n), fuel).Different?
  {
    hide TrustIn;
    var f, u := fuel - 1, Under(0, 0);
    Leads(H, s, k, a, n, f - 3);
    assert s.nodes[h] == NodeAt(k, a, h) && s.nodes[2] == AppN(0, 1);
    if n == 4 {
      SecondArguments(H, s, k, a, n, f);
    } else {
      var x := if n == 6 then 4 else 2;
      assert s.nodes[n - 1] == AppN(1, x) && s.nodes[5] == AppN(1, 4);
      HeadsDiffer(s, 0, 1, Plain, 1, x, u, f);
      HeadsDiffer(s, 0, 1, u, 1, x, u, f);
      HeadsDiffer(s, 1, 4, Plain, 1, x, u, f);
      HeadsDiffer(s, 1, 2, Plain, 1, x, u, f);
      if n == 8 { LastDiffer(H, s, k, a, n, f); }
    }
    ClosureMeets(s, h, NodeAt(k, a, n), fuel);
  }

  /** No handle is found equal to the node made next. */
  lemma PairDiffers(H: Hashing, s: Snap, k: Name, a: Name, n: nat, h: nat, fuel: nat)
    requires k != a && Trusted(H, s, false) && Scene(s, k, a, n) && h < n < 9 && fuel > 6
    ensures NodeAgrees(s, h, NodeAt(k, a, n), fuel).Different?
  {
    hide TrustIn;
    if n < 4 {
      EarlyPairs(s, k, a, n, h, fuel);
    } else if n == 5 || n == 7 {
      AppliedPairs(H, s, k, a, n, h, fuel);
    } else {
      ClosurePairs(H, s, k, a, n, h, fuel);
    }
  }

  lemma NextUnmet(H: Hashing, s: Snap, k: Name, a: Name, n: nat, fuel: nat)
    requires k != a && Trusted(H, s, false) && Scene(s, k, a, n) && n < 9 && fuel > 7
    ensures Unmet(s, NodeAt(k, a, n), fuel)
  {
    hide TrustIn;
    var nd, f := NodeAt(k, a, n), fuel - 1;
    forall h: nat | h < n ensures NodeAgrees(s, h, nd, f).Different? { PairDiffers(H, s, k, a, n, h, f); }
  }

  lemma NextSpine(H: Hashing, s: Snap, k: Name, a: Name, n: nat, fuel: nat)
    requires Trusted(H, s, false) && Scene(s, k, a, n) && (n == 4 || n == 6 || n == 8) && fuel > 2
    ensures var t := NodeAt(k, a, n).t; s.nodes[t].AppN? && s.infos[t].lbr > 0 && Spine(s, t, 0, fuel)
  {
    hide TrustIn;
    var t := NodeAt(k, a, n).t;
    SceneRange(H, s, k, a, n, 0);
    SceneRange(H, s, k, a, n, t);
    if n > 4 { SceneRange(H, s, k, a, n, 4); }
    assert s.nodes[0] == NodeAt(k, a, 0) && s.nodes[1] == NodeAt(k, a, 1) && s.nodes[2] == NodeAt(k, a, 2);
    assert s.nodes[t] == NodeAt(k, a, t);
    assert Spine(s, 0, 0, fuel - 2) && Spine(s, 1, 0, fuel - 2) && Spine(s, 1, 0, fuel - 1);
    assert Spine(s, 2, 0, fuel - 1) && (n > 4 ==> Spine(s, 4, 0, fuel - 1));
  }

  lemma NextDenotes(s: Snap, k: Name, a: Name, n: nat)
    requires Scene(s, k, a, n) && (n == 4 || n == 6 || n == 8)
    ensures VD(s, NodeAt(k, a, n).t, Under(0, 0)) == TermAt(k, a, n)
  {
    var t := NodeAt(k, a, n).t;
    assert s.den[t] == TermAt(k, a, t) && s.den[3] == Const(a, []);
    assert EnvTerms(s, 0) == [Const(a, [])];
    OneEntry(k, a);
  }

  /** The three closures: what they denote, and that they are hashed without making a node. */
  lemma NextSuspends(H: Hashing, s: Snap, k: Name, a: Name, n: nat, fuel: nat)
    requires k != a && Trusted(H, s, false) && Scene(s, k, a, n) && (n == 4 || n == 6 || n == 8) && fuel > 8
    ensures var nd := NodeAt(k, a, n);
            nd == ClosN(nd.t, 0, 0) && Suspends(s, nd.t, 0, 0, fuel) && VD(s, nd.t, Under(0, 0)) == TermAt(k, a, n)
  {
    hide TrustIn, VD;
    NextUnmet(H, s, k, a, n, fuel - 1);
    NextSpine(H, s, k, a, n, fuel);
    NextDenotes(s, k, a, n);
  }

  lemma OneEntry(k: Name, a: Name)
    ensures var e := Entries([Const(a, [])], 0);
            Sub(TermAt(k, a, 2), e) == TermAt(k, a, 4) && Sub(TermAt(k, a, 5), e) == TermAt(k, a, 6)
            && Sub(TermAt(k, a, 7), e) == TermAt(k, a, 8)
  {
    var e := Entries([Const(a, [])], 0);
    var K, A := Const(k, []), Const(a, []);
    assert e(0) == Ren(A, Plus(0)) == A;
    assert Sub(BVar(0), e) == A && Sub(K, e) == K && Sub(A, e) == A;
    assert Sub(App(K, A), e) == App(K, A) && Sub(App(K, BVar(0)), e) == App(K, A);
  }

  /** A node that is no closure. */
  method Next(T: ExprTable, nd: Node, k: Name, a: Name, n: nat) returns (r: Expr)
    requires k != a && T.Valid(false) && Scene(T.Now(), k, a, n) && n < 9 && n != 3 && nd == NodeAt(k, a, n) && !nd.ClosN?
    modifies T
    ensures r == n && T.Valid(false) && Scene(T.Now(), k, a, n + 1)
  {
    hide TrustIn, ChangeOf;
    ghost var s := T.Now();
    NextUnmet(T.H, s, k, a, n, 19);
    PartsDenote(s, k, a, n);
    var ok;
    ok, r := T.Make(nd, 20, false);
    SceneGrows(s, T.Now(), k, a, n);
  }

  lemma PartsDenote(s: Snap, k: Name, a: Name, n: nat)
    requires Scene(s, k, a, n) && n < 9 && !NodeAt(k, a, n).ClosN?
    ensures Bounded(Parts(NodeAt(k, a, n)), n) && NodeTerm(s, NodeAt(k, a, n), Plain) == TermAt(k, a, n)
  {
    if n > 1 { assert s.den[0] == TermAt(k, a, 0) && s.den[1] == TermAt(k, a, 1); }
    if n > 2 { assert s.den[2] == TermAt(k, a, 2); }
    if n > 4 { assert s.den[4] == TermAt(k, a, 4); }
  }

  /** A term instantiated at a. */
  method NextClosure(T: ExprTable, t: Expr, k: Name, a: Name, n: nat) returns (r: Expr)
    requires k != a && T.Valid(false) && Scene(T.Now(), k, a, n) && (n == 4 || n == 6 || n == 8)
    requires t == NodeAt(k, a, n).t
    modifies T
    ensures r == n && T.Valid(false) && Scene(T.Now(), k, a, n + 1)
  {
    hide TrustIn, ChangeOf;
    ghost var s := T.Now();
    NextSuspends(T.H, s, k, a, n, 19);
    var ok;
    ok, r := T.MkClos(t, 0, 0, 20, false);
    SceneGrows(s, T.Now(), k, a, n);
  }

  lemma SceneStart(s: Snap, k: Name, a: Name)
    requires s == Snap([], [], [], false, 0, EmptyIndex(64, false), EmptyIndex(64, true), [])
    ensures Scene(s, k, a, 0)
  {
  }

  /**
   * Load `k`, `#0`, `k #0` and `a`.  Instantiate `k #0` at a, apply `#0` to the closure and instantiate
   * that at a; then instantiate `#0 (k #0)` at a.  The last two denote `a (k a)` and get different handles,
   * and comparing them says no.
   */
  method TwoHandles(H: Hashing, k: Name, a: Name) returns (T: ExprTable, x: Expr, y: Expr)
    requires k != a
    ensures fresh(T) && T.H == H && T.Valid(false) && x < |T.nodes| && y < |T.nodes|
    ensures x != y && D(T.Now(), x) == D(T.Now(), y)
    ensures forall n: nat {:trigger SemAgrees(T.Now(), x, y, n)} :: n > 9 ==> SemAgrees(T.Now(), x, y, n).Different?
    ensures !Canonical(T.Now())
  {
    hide TrustIn, ChangeOf, Scene, SemAgrees;
    T := new ExprTable(H, 64, 64);
    SceneStart(T.Now(), k, a);
    var c := Next(T, ConstN(k, []), k, a, 0);
    var v := Next(T, BVarN(0), k, a, 1);
    var body := Next(T, AppN(c, v), k, a, 2);
    var entry := Entry(T, k, a);
    var closure := NextClosure(T, body, k, a, 4);
    var held := Next(T, AppN(v, closure), k, a, 5);
    x := NextClosure(T, held, k, a, 6);
    var plain := Next(T, AppN(v, body), k, a, 7);
    y := NextClosure(T, plain, k, a, 8);
    ghost var s := T.Now();
    LastDenote(s, k, a);
    forall n: nat | n > 9 ensures SemAgrees(s, x, y, n).Different? { LastSayNo(H, s, k, a, n); }
  }

  /** The last permanent handle; then the freeze, and the environment that holds it. */
  method Entry(T: ExprTable, k: Name, a: Name) returns (r: Expr)
    requires k != a && T.Valid(false) && Scene(T.Now(), k, a, 3)
    modifies T
    ensures r == 3 && T.Valid(false) && Scene(T.Now(), k, a, 4)
  {
    hide TrustIn, ChangeOf;
    ghost var s := T.Now();
    NextUnmet(T.H, s, k, a, 3, 19);
    var ok;
    ok, r := T.Make(ConstN(a, []), 20, false);
    ghost var s1 := T.Now();
    forall h: nat | h < 4 ensures s1.nodes[h] == NodeAt(k, a, h) && s1.den[h] == TermAt(k, a, h) {
      if h < 3 { assert s1.nodes[h] == s.nodes[h] && s1.den[h] == s.den[h]; }
    }
    T.Freeze();
    var env := T.MkEnv([r], false);
  }

  lemma LastSayNo(H: Hashing, s: Snap, k: Name, a: Name, fuel: nat)
    requires Trusted(H, s, false) && Scene(s, k, a, 9) && fuel > 9
    ensures SemAgrees(s, 6, 8, fuel).Different?
  {
    hide TrustIn;
    var u := Under(0, 0);
    assert s.nodes[5] == AppN(1, 4) && s.nodes[7] == AppN(1, 2) && s.nodes[6] == ClosN(5, 0, 0) && s.nodes[8] == ClosN(7, 0, 0);
    SceneRange(H, s, k, a, 9, 5);
    SceneRange(H, s, k, a, 9, 7);
    LastDiffer(H, s, k, a, 9, fuel - 1);
    assert Root(s, 5, u, fuel - 2) == To(5, u) && Root(s, 7, u, fuel - 2) == To(7, u);
    assert Root(s, 6, Plain, fuel - 1) == To(5, u) && Root(s, 8, Plain, fuel - 1) == To(7, u);
    assert RootsAgree(s, To(5, u), To(7, u), fuel).Different?;
  }

  lemma LastDenote(s: Snap, k: Name, a: Name)
    requires Scene(s, k, a, 9)
    ensures |s.nodes| == 9 && D(s, 6) == D(s, 8)
  {
    assert s.den[6] == TermAt(k, a, 6) && s.den[8] == TermAt(k, a, 8);
  }
}
