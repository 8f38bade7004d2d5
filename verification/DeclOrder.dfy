// The order check that parallel checking rests on (src/main.cpp): no declaration's terms cite a constant
// introduced by a later one.
module DeclOrder {

  /** A node of the loaded export's term table; applications, lambdas and Pis are pairs here. */
  datatype Node =
    | Leaf | NatLit | StrLit | ConstNode(name: nat) | Pair(a: nat, b: nat) | LetNode(a: nat, b: nat, c: nat)
    | ProjNode(s: nat, b: nat)

  /**
   * A constant: the handles of its type, of its value if it has one, and of its recursor rules; and the
   * constants that its data names besides, such as an inductive type's constructors, a constructor's type,
   * the type and the constructors of a recursor.
   */
  datatype ConstDecl = ConstDecl(name: nat, roots: seq<nat>, refs: set<nat>)

  type Decl = seq<ConstDecl>

  /** c is the handle of a part of the node. */
  predicate Part(nd: Node, c: nat) {
    match nd
    case Pair(a, b) => c == a || c == b
    case LetNode(a, b, v) => c == a || c == b || c == v
    case ProjNode(_, b) => c == b
    case _ => false
  }

  function Children(nd: Node): (cs: seq<nat>)
    ensures forall c: nat :: c in cs <==> Part(nd, c)
  {
    match nd
    case Pair(a, b) => [a, b]
    case LetNode(a, b, c) => [a, b, c]
    case ProjNode(_, b) => [b]
    case _ => []
  }

  /** A term's parts come before it. */
  ghost predicate Ordered(nodes: seq<Node>) {
    forall e :: 0 <= e < |nodes| ==> Below(Children(nodes[e]), e)
  }

  predicate Below(cs: seq<nat>, e: nat) { forall k :: 0 <= k < |cs| ==> cs[k] < e }

  /** The constant occurs in the term. */
  ghost predicate Cites(nodes: seq<Node>, e: nat, n: nat)
    decreases e
  {
    e < |nodes|
    && (nodes[e] == ConstNode(n)
        || exists k :: 0 <= k < |Children(nodes[e])| && Children(nodes[e])[k] < e && Cites(nodes, Children(nodes[e])[k], n))
  }

  ghost predicate DeclCites(nodes: seq<Node>, d: Decl, n: nat) {
    exists c, k :: c in d && 0 <= k < |c.roots| && Cites(nodes, c.roots[k], n)
  }

  predicate Introduces(d: Decl, n: nat) { exists k :: 0 <= k < |d| && d[k].name == n }

  /** The first declaration that introduces the constant. */
  ghost predicate IsFirst(decls: seq<Decl>, n: nat, i: nat) {
    i < |decls| && Introduces(decls[i], n) && forall j :: 0 <= j < i ==> !Introduces(decls[j], n)
  }

  /** No declaration cites a constant that is first introduced by a later one. */
  ghost predicate InOrder(nodes: seq<Node>, decls: seq<Decl>) {
    forall i, n: nat, j: nat :: 0 <= i < |decls| && DeclCites(nodes, decls[i], n) && IsFirst(decls, n, j) ==> j <= i
  }

  datatype Outcome = Accepted | Rejected | Malformed

  /** For each introduced name, one more than the place of the declaration that first introduces it. */
  ghost predicate IsIntro(intro: map<nat, nat>, decls: seq<Decl>) {
    (forall n :: n in intro ==> intro[n] > 0 && IsFirst(decls, n, intro[n] - 1))
    && forall i, n: nat :: 0 <= i < |decls| && Introduces(decls[i], n) ==> n in intro
  }

  function IntroOf(intro: map<nat, nat>, n: nat): nat { if n in intro then intro[n] else 0 }

  method BuildIntro(decls: seq<Decl>) returns (intro: map<nat, nat>)
    ensures IsIntro(intro, decls)
  {
    intro := map[];
    for i := 0 to |decls|
      invariant IsIntro(intro, decls[..i])
    {
      ghost var before := intro;
      for k := 0 to |decls[i]|
        invariant forall n :: n in before ==> n in intro && intro[n] == before[n]
        invariant forall n :: n in intro && n !in before ==> intro[n] == i + 1 && Introduces(decls[i], n)
        invariant forall j :: 0 <= j < k ==> decls[i][j].name in intro
      {
        var n := decls[i][k].name;
        if n !in intro { intro := intro[n := i + 1]; }
      }
      IntroStep(before, intro, decls, i);
    }
    assert decls[..|decls|] == decls;
  }

  lemma IntroStep(before: map<nat, nat>, intro: map<nat, nat>, decls: seq<Decl>, i: nat)
    requires i < |decls| && IsIntro(before, decls[..i])
    requires forall n :: n in before ==> n in intro && intro[n] == before[n]
    requires forall n :: n in intro && n !in before ==> intro[n] == i + 1 && Introduces(decls[i], n)
    requires forall k :: 0 <= k < |decls[i]| ==> decls[i][k].name in intro
    ensures IsIntro(intro, decls[..i + 1])
  {
    var ds, all := decls[..i], decls[..i + 1];
    forall n | n in intro ensures intro[n] > 0 && IsFirst(all, n, intro[n] - 1) {
      if n in before {
        assert IsFirst(ds, n, intro[n] - 1);
      } else {
        forall j | 0 <= j < i ensures !Introduces(all[j], n) { assert ds[j] == all[j]; }
      }
    }
    forall j, n: nat | 0 <= j < |all| && Introduces(all[j], n) ensures n in intro {
      if j < i { assert ds[j] == all[j]; }
    }
  }

  /** The latest introduction among the constants of a term, zero if there is none. */
  ghost predicate IsLatest(nodes: seq<Node>, intro: map<nat, nat>, e: nat, v: nat) {
    (forall n: nat :: Cites(nodes, e, n) ==> IntroOf(intro, n) <= v)
    && (v > 0 ==> exists n: nat :: Cites(nodes, e, n) && IntroOf(intro, n) == v)
  }

  ghost predicate AllLatest(nodes: seq<Node>, intro: map<nat, nat>, latest: seq<nat>) {
    |latest| <= |nodes| && forall k: nat :: k < |latest| ==> IsLatest(nodes, intro, k, latest[k])
  }

  method Latest(nodes: seq<Node>, intro: map<nat, nat>) returns (ok: bool, latest: seq<nat>)
    ensures ok <==> Ordered(nodes)
    ensures ok ==> |latest| == |nodes| && AllLatest(nodes, intro, latest)
  {
    latest := [];
    ok := true;
    for e := 0 to |nodes|
      invariant ok && |latest| == e && AllLatest(nodes, intro, latest)
      invariant forall k :: 0 <= k < e ==> Below(Children(nodes[k]), k)
    {
      var v;
      ok, v := NodeLatest(nodes, intro, e, latest);
      if !ok { return; }
      latest := latest + [v];
    }
  }

  /** One node, from the nodes before it. */
  method NodeLatest(nodes: seq<Node>, intro: map<nat, nat>, e: nat, latest: seq<nat>) returns (ok: bool, v: nat)
    requires e < |nodes| && |latest| == e && AllLatest(nodes, intro, latest)
    ensures ok <==> Below(Children(nodes[e]), e)
    ensures ok ==> IsLatest(nodes, intro, e, v)
  {
    var cs := Children(nodes[e]);
    v := if nodes[e].ConstNode? then IntroOf(intro, nodes[e].name) else 0;
    for k := 0 to |cs|
      invariant forall j :: 0 <= j < k ==> cs[j] < e && latest[cs[j]] <= v
      invariant v > 0 ==> (nodes[e].ConstNode? && v == IntroOf(intro, nodes[e].name))
                          || exists j :: 0 <= j < k && cs[j] < e && latest[cs[j]] == v
      invariant nodes[e].ConstNode? ==> v >= IntroOf(intro, nodes[e].name)
    {
      if cs[k] >= e { return false, v; }
      if latest[cs[k]] > v { v := latest[cs[k]]; }
    }
    LatestStep(nodes, intro, e, v, latest);
    ok := true;
  }

  lemma LatestStep(nodes: seq<Node>, intro: map<nat, nat>, e: nat, v: nat, latest: seq<nat>)
    requires e < |nodes| && |latest| == e && Below(Children(nodes[e]), e)
    requires AllLatest(nodes, intro, latest)
    requires var cs := Children(nodes[e]);
             (forall j :: 0 <= j < |cs| ==> latest[cs[j]] <= v)
             && (nodes[e].ConstNode? ==> IntroOf(intro, nodes[e].name) <= v)
             && (v > 0 ==> (nodes[e].ConstNode? && v == IntroOf(intro, nodes[e].name))
                           || exists j :: 0 <= j < |cs| && latest[cs[j]] == v)
    ensures IsLatest(nodes, intro, e, v)
  {
    var cs := Children(nodes[e]);
    forall n: nat | Cites(nodes, e, n) ensures IntroOf(intro, n) <= v {
      if nodes[e] != ConstNode(n) {
        var k :| 0 <= k < |cs| && cs[k] < e && Cites(nodes, cs[k], n);
        assert IsLatest(nodes, intro, cs[k], latest[cs[k]]);
      }
    }
    if v > 0 {
      if nodes[e].ConstNode? && v == IntroOf(intro, nodes[e].name) {
        assert Cites(nodes, e, nodes[e].name);
      } else {
        var j :| 0 <= j < |cs| && latest[cs[j]] == v;
        assert IsLatest(nodes, intro, cs[j], v);
        var n: nat :| Cites(nodes, cs[j], n) && IntroOf(intro, n) == v;
        assert Cites(nodes, e, n);
      }
    }
  }

  lemma RootCites(nodes: seq<Node>, d: Decl, i: nat, k: nat, n: nat)
    requires i < |d| && k < |d[i].roots| && Cites(nodes, d[i].roots[k], n)
    ensures DeclCites(nodes, d, n)
  {
    assert d[i] in d;
  }

  /** The latest introduction cited by a declaration's terms; handles past the table are not terms. */
  method Worst(nodes: seq<Node>, intro: map<nat, nat>, latest: seq<nat>, d: Decl) returns (worst: nat)
    requires |latest| == |nodes| && AllLatest(nodes, intro, latest)
    ensures forall n: nat :: DeclCites(nodes, d, n) ==> IntroOf(intro, n) <= worst
    ensures worst > 0 ==> exists n: nat :: DeclCites(nodes, d, n) && IntroOf(intro, n) == worst
  {
    worst := 0;
    for i := 0 to |d|
      invariant forall c :: c in d[..i] ==> Covered(nodes, intro, c.roots, worst)
      invariant worst > 0 ==> exists n: nat :: DeclCites(nodes, d, n) && IntroOf(intro, n) == worst
    {
      var roots := d[i].roots;
      ghost var before := worst;
      for k := 0 to |roots|
        invariant worst >= before && Covered(nodes, intro, roots[..k], worst)
        invariant worst > 0 ==> exists n: nat :: DeclCites(nodes, d, n) && IntroOf(intro, n) == worst
      {
        var e := roots[k];
        if e < |nodes| && latest[e] > worst {
          worst := latest[e];
          ghost var n: nat :| Cites(nodes, e, n) && IntroOf(intro, n) == worst;
          RootCites(nodes, d, i, k, n);
        }
        assert roots[..k + 1] == roots[..k] + [e];
      }
      assert roots[..|roots|] == roots;
      assert d[..i + 1] == d[..i] + [d[i]];
    }
    assert d[..|d|] == d;
    forall n: nat | DeclCites(nodes, d, n) ensures IntroOf(intro, n) <= worst {
      var c, k :| c in d && 0 <= k < |c.roots| && Cites(nodes, c.roots[k], n);
      assert Covered(nodes, intro, c.roots, worst);
    }
  }

  ghost predicate Covered(nodes: seq<Node>, intro: map<nat, nat>, roots: seq<nat>, v: nat) {
    forall k, n: nat :: 0 <= k < |roots| && Cites(nodes, roots[k], n) ==> IntroOf(intro, n) <= v
  }

  /** One pass over the terms in handle order, then one comparison a declaration. */
  method CheckTopologicalOrder(nodes: seq<Node>, decls: seq<Decl>) returns (r: Outcome)
    ensures r.Malformed? <==> !Ordered(nodes)
    ensures Ordered(nodes) ==> (r.Accepted? <==> InOrder(nodes, decls))
  {
    var intro := BuildIntro(decls);
    var ok, latest := Latest(nodes, intro);
    if !ok { return Malformed; }
    for i := 0 to |decls|
      invariant forall j, n: nat, f: nat :: 0 <= j < i && DeclCites(nodes, decls[j], n) && IsFirst(decls, n, f) ==> f <= j
    {
      var worst := Worst(nodes, intro, latest, decls[i]);
      forall n: nat, f: nat | DeclCites(nodes, decls[i], n) && IsFirst(decls, n, f) ensures intro[n] == f + 1 {
        FirstUnique(intro, decls, n, f);
      }
      if worst > i + 1 {
        ghost var n: nat :| DeclCites(nodes, decls[i], n) && IntroOf(intro, n) == worst;
        assert IsFirst(decls, n, intro[n] - 1);
        return Rejected;
      }
      forall n: nat, f: nat | DeclCites(nodes, decls[i], n) && IsFirst(decls, n, f) ensures f <= i {
        FirstUnique(intro, decls, n, f);
        assert IntroOf(intro, n) <= worst;
      }
    }
    return Accepted;
  }

  lemma FirstUnique(intro: map<nat, nat>, decls: seq<Decl>, n: nat, f: nat)
    requires IsIntro(intro, decls) && IsFirst(decls, n, f)
    ensures n in intro && intro[n] == f + 1
  {
    assert Introduces(decls[f], n);
    assert IsFirst(decls, n, intro[n] - 1);
  }
}
