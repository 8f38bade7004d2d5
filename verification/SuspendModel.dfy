// The node table of terms with suspended substitutions (src/expr.h, src/expr.cpp): what every handle
// denotes, and what the table keeps true of it.
module SuspendModel {
  import opened Names
  import opened Terms
  import opened Probing
  import opened InternTable
  import L = Levels

  type Expr = nat

  datatype Node =
    | BVarN(i: nat) | FVarN(id: nat) | SortN(l: L.Level) | ConstN(n: Name, ls: seq<L.Level>)
    | AppN(f: Expr, a: Expr) | LamN(d: Expr, b: Expr) | PiN(d: Expr, b: Expr)
    | LetN(y: Expr, v: Expr, b: Expr) | LitN(lit: Literal) | ProjN(s: Name, idx: nat, e: Expr)
    | ClosN(t: Expr, env: nat, p: nat)

  /** What a node carries about its term: hash, loose-variable range, and the two flags. */
  datatype Info = Info(hash: nat, lbr: nat, fvar: bool, lparam: bool)

  /** The mixing functions, and what a table makes of a hash; nothing is assumed about them. */
  datatype Hashing = Hashing(bvar: nat -> nat, fvar: nat -> nat, sort: L.Level -> nat,
                             cnst: (Name, seq<L.Level>) -> nat, app: (nat, nat) -> nat, lam: (nat, nat) -> nat,
                             pi: (nat, nat) -> nat, lett: (nat, nat, nat) -> nat, lit: Literal -> nat,
                             proj: (Name, nat, nat) -> nat,
                             spread: nat -> nat, tag: nat -> nat)

  function HashOf(H: Hashing, t: Term): nat {
    match t
    case BVar(i) => H.bvar(i)
    case FVar(id) => H.fvar(id)
    case Sort(l) => H.sort(l)
    case Const(n, ls) => H.cnst(n, ls)
    case App(f, x) => H.app(HashOf(H, f), HashOf(H, x))
    case Lam(d, b) => H.lam(HashOf(H, d), HashOf(H, b))
    case Pi(d, b) => H.pi(HashOf(H, d), HashOf(H, b))
    case Let(y, v, b) => H.lett(HashOf(H, y), HashOf(H, v), HashOf(H, b))
    case Lit(v) => H.lit(v)
    case Proj(s, i, e) => H.proj(s, i, HashOf(H, e))
  }

  function InfoOf(H: Hashing, t: Term): Info { Info(HashOf(H, t), Range(t), HasFVar(t), HasLParam(t)) }

  // The attributes of a node from those of its parts.

  function AppInfo(H: Hashing, x: Info, y: Info): Info {
    Info(H.app(x.hash, y.hash), Max(x.lbr, y.lbr), x.fvar || y.fvar, x.lparam || y.lparam)
  }

  function BinderInfo(H: Hashing, lam: bool, x: Info, y: Info): Info {
    Info(if lam then H.lam(x.hash, y.hash) else H.pi(x.hash, y.hash), Max(x.lbr, Pred(y.lbr)),
         x.fvar || y.fvar, x.lparam || y.lparam)
  }

  function LetInfo(H: Hashing, x: Info, y: Info, z: Info): Info {
    Info(H.lett(x.hash, y.hash, z.hash), Max(Max(x.lbr, y.lbr), Pred(z.lbr)),
         x.fvar || y.fvar || z.fvar, x.lparam || y.lparam || z.lparam)
  }

  function ProjInfo(H: Hashing, s: Name, i: nat, x: Info): Info { x.(hash := H.proj(s, i, x.hash)) }

  // ---------------------------------------------------------------- the table as a value

  /** The table at one moment: den[h] is the term handle h denotes; perm and temp index the two tiers. */
  datatype Snap = Snap(nodes: seq<Node>, infos: seq<Info>, envs: seq<seq<Expr>>, frozen: bool, wm: nat,
                       perm: Index, temp: Index, den: seq<Term>)

  ghost function D(s: Snap, h: Expr): Term { if h < |s.den| then s.den[h] else BVar(0) }

  ghost function EnvTerms(s: Snap, env: nat): (ts: seq<Term>) {
    if env < |s.envs| then seq(|s.envs[env]|, i requires 0 <= i < |s.envs[env]| => D(s, s.envs[env][i])) else []
  }

  /** A handle on its own, or under a suspended substitution that leaves the p innermost variables alone. */
  datatype Under = Plain | Under(env: nat, p: nat)

  ghost function SubstOf(s: Snap, u: Under): Subst
    requires u.Under?
  {
    Entries(EnvTerms(s, u.env), u.p)
  }

  /** What a view denotes. */
  ghost function VD(s: Snap, h: Expr, u: Under): Term {
    if u.Plain? then D(s, h) else Sub(D(s, h), SubstOf(s, u))
  }

  function Shift(u: Under): Under { if u.Plain? then u else u.(p := u.p + 1) }

  /** What a node denotes, its parts seen under u. */
  ghost function NodeTerm(s: Snap, nd: Node, u: Under): Term {
    match nd
    case BVarN(i) => if u.Plain? then BVar(i) else SubstOf(s, u)(i)
    case FVarN(id) => FVar(id)
    case SortN(l) => Sort(l)
    case ConstN(n, ls) => Const(n, ls)
    case AppN(f, a) => App(VD(s, f, u), VD(s, a, u))
    case LamN(d, b) => Lam(VD(s, d, u), VD(s, b, Shift(u)))
    case PiN(d, b) => Pi(VD(s, d, u), VD(s, b, Shift(u)))
    case LetN(y, v, b) => Let(VD(s, y, u), VD(s, v, u), VD(s, b, Shift(u)))
    case LitN(v) => Lit(v)
    case ProjN(n, i, e) => Proj(n, i, VD(s, e, u))
    case ClosN(t, env, p) => if u.Plain? then VD(s, t, Under(env, p)) else Sub(VD(s, t, Under(env, p)), SubstOf(s, u))
  }

  function Parts(nd: Node): seq<Expr> {
    match nd
    case AppN(f, a) => [f, a]
    case LamN(d, b) => [d, b]
    case PiN(d, b) => [d, b]
    case LetN(y, v, b) => [y, v, b]
    case ProjN(_, _, e) => [e]
    case ClosN(t, _, _) => [t]
    case _ => []
  }

  ghost predicate Bounded(xs: seq<Expr>, n: nat) { forall k :: 0 <= k < |xs| ==> xs[k] < n }

  /** A closure suspends a term that its substitution rewrites below the root: never a closure or a variable. */
  ghost predicate ClosFits(s: Snap, nd: Node)
    requires nd.ClosN?
  {
    s.frozen && nd.env < |s.envs| && nd.t < |s.nodes| && Range(D(s, nd.t)) > nd.p
    && !s.nodes[nd.t].ClosN? && !s.nodes[nd.t].BVarN?
  }

  ghost predicate Fits(s: Snap, nd: Node) {
    Bounded(Parts(nd), |s.nodes|) && (nd.ClosN? ==> ClosFits(s, nd))
  }

  /** The permanent handles: all of them until the table is frozen. */
  function Perm(s: Snap): nat { if s.frozen then s.wm else |s.nodes| }

  ghost predicate NodeOk(s: Snap, h: Expr) {
    h < |s.nodes| && Fits(s, s.nodes[h]) && D(s, h) == NodeTerm(s, s.nodes[h], Plain)
  }

  ghost predicate Shapes(s: Snap) { forall h: nat {:trigger NodeOk(s, h)} :: h < |s.nodes| ==> NodeOk(s, h) }

  ghost predicate InfoOk(H: Hashing, s: Snap, h: Expr) { h < |s.infos| && s.infos[h] == InfoOf(H, D(s, h)) }

  ghost predicate Infos(H: Hashing, s: Snap) {
    forall h: nat {:trigger InfoOk(H, s, h)} :: h < |s.nodes| ==> InfoOk(H, s, h)
  }

  ghost predicate EnvsClosed(s: Snap) {
    forall e :: 0 <= e < |s.envs| ==> Bounded(s.envs[e], |s.nodes|) && AllClosed(EnvTerms(s, e))
  }

  ghost predicate AllClosed(ts: seq<Term>) { forall k :: 0 <= k < |ts| ==> Closed(ts[k]) }

  /** The permanent tier has no closures, refers to itself only, and frozen has no free variables. */
  ghost predicate PermTier(s: Snap) {
    Perm(s) <= |s.nodes|
    && forall h :: 0 <= h < Perm(s) ==>
         !s.nodes[h].ClosN? && Bounded(Parts(s.nodes[h]), Perm(s)) && (s.frozen ==> !s.nodes[h].FVarN?)
  }

  /** A permanent handle denotes what no other handle does. */
  ghost predicate PermUnique(s: Snap) {
    forall x, y :: 0 <= x < Perm(s) && 0 <= y < |s.nodes| && x != y ==> D(s, x) != D(s, y)
  }

  /** No two handles denote the same term. */
  ghost predicate Canonical(s: Snap) { forall x, y :: 0 <= x < y < |s.nodes| ==> D(s, x) != D(s, y) }

  function SpreadAt(H: Hashing, infos: seq<Info>, h: nat): nat {
    if h < |infos| then H.spread(infos[h].hash) else 0
  }

  /** Handles are hashed by what they carry; two are one element only if they are the same. */
  function KeysOf(H: Hashing, infos: seq<Info>): (K: Keys)
    ensures IsKeys(K)
  {
    Keys((h: nat) => SpreadAt(H, infos, h), H.tag, (x: nat, y: nat) => x == y)
  }

  /** The index holds exactly the handles from lo to hi. */
  ghost predicate Indexes(H: Hashing, infos: seq<Info>, x: Index, lo: nat, hi: nat) {
    IndexOk(KeysOf(H, infos), x) && forall h: nat {:trigger Has(x.slots, h)} :: Has(x.slots, h) <==> lo <= h < hi
  }

  /**
   * Every handle is where its probes lead, in the index of its tier; the temporary tier records exactly
   * the slots it has filled.
   */
  ghost predicate Indexed(H: Hashing, s: Snap) {
    && Perm(s) <= |s.nodes|
    && Indexes(H, s.infos, s.perm, 0, Perm(s)) && s.perm.count < |s.perm.slots| && !s.perm.track
    && Indexes(H, s.infos, s.temp, Perm(s), |s.nodes|) && s.temp.track
  }

  ghost predicate NodesOk(H: Hashing, s: Snap) {
    && |s.infos| == |s.nodes| == |s.den|
    && Infos(H, s) && Shapes(s) && EnvsClosed(s) && PermTier(s) && PermUnique(s)
  }

  ghost predicate Ok(H: Hashing, s: Snap) { NodesOk(H, s) && Indexed(H, s) }

  ghost predicate SlotsLater(xs: seq<Slot>, ys: seq<Slot>) {
    |xs| == |ys| && forall i {:trigger ys[i]} :: 0 <= i < |xs| && xs[i].Full? ==> ys[i] == xs[i]
  }

  /** Slots are filled but not emptied, until the index grows. */
  ghost predicate IndexLater(x: Index, y: Index) {
    x.gen <= y.gen && (x.gen == y.gen ==> SlotsLater(x.slots, y.slots))
  }

  /**
   * Handles and environments keep their meaning, and the permanent tier its nodes; a closure node may
   * have been replaced by the root of its expansion.
   */
  ghost predicate Later(s: Snap, s': Snap) {
    && |s.nodes| <= |s'.nodes| && |s.den| <= |s'.den| && |s.envs| <= |s'.envs| && |s.infos| <= |s'.infos|
    && s'.den[..|s.den|] == s.den && s'.envs[..|s.envs|] == s.envs && s'.infos[..|s.infos|] == s.infos
    && (forall h :: 0 <= h < |s.nodes| ==>
          s'.nodes[h] == s.nodes[h] || (h >= Perm(s) && !s'.nodes[h].ClosN? && !s'.nodes[h].BVarN?))
    && s'.frozen == s.frozen && s'.wm == s.wm
    && (s.frozen ==> s'.perm == s.perm) && IndexLater(s.temp, s'.temp)
  }

  lemma LaterRefl(s: Snap)
    ensures Later(s, s)
  {
  }

  lemma LaterTrans(a: Snap, b: Snap, c: Snap)
    requires Later(a, b) && Later(b, c)
    ensures Later(a, c)
  {
    assert c.den[..|a.den|] == c.den[..|b.den|][..|a.den|];
    assert c.envs[..|a.envs|] == c.envs[..|b.envs|][..|a.envs|];
    assert c.infos[..|a.infos|] == c.infos[..|b.infos|][..|a.infos|];
  }

  lemma DLater(s: Snap, s': Snap, h: Expr)
    requires Later(s, s') && h < |s.den|
    ensures D(s', h) == D(s, h)
  {
    assert s'.den[..|s.den|][h] == s.den[h];
  }

  ghost predicate UnderOk(s: Snap, u: Under) {
    u.Under? ==> u.env < |s.envs| && Bounded(s.envs[u.env], |s.den|)
  }

  lemma EnvLater(s: Snap, s': Snap, env: nat)
    requires Later(s, s') && env < |s.envs| && Bounded(s.envs[env], |s.den|)
    ensures env < |s'.envs| && s'.envs[env] == s.envs[env] && EnvTerms(s', env) == EnvTerms(s, env)
  {
    assert s'.envs[..|s.envs|][env] == s.envs[env];
    forall i | 0 <= i < |s.envs[env]| ensures D(s', s.envs[env][i]) == D(s, s.envs[env][i]) {
      DLater(s, s', s.envs[env][i]);
    }
  }

  lemma VDLater(s: Snap, s': Snap, h: Expr, u: Under)
    requires Later(s, s') && h < |s.den| && UnderOk(s, u)
    ensures VD(s', h, u) == VD(s, h, u) && UnderOk(s', u)
  {
    DLater(s, s', h);
    if u.Under? { EnvLater(s, s', u.env); }
  }

  lemma NodeTermLater(s: Snap, s': Snap, nd: Node, u: Under)
    requires Later(s, s') && Bounded(Parts(nd), |s.den|) && UnderOk(s, u)
    requires nd.ClosN? ==> UnderOk(s, Under(nd.env, nd.p))
    ensures NodeTerm(s', nd, u) == NodeTerm(s, nd, u)
  {
    var ps := Parts(nd);
    forall k | 0 <= k < |ps| ensures VD(s', ps[k], u) == VD(s, ps[k], u) && VD(s', ps[k], Shift(u)) == VD(s, ps[k], Shift(u)) {
      VDLater(s, s', ps[k], u);
      VDLater(s, s', ps[k], Shift(u));
    }
    if u.Under? { EnvLater(s, s', u.env); }
    match nd
    case AppN(f, a) => assert ps[0] == f && ps[1] == a;
    case LamN(d, b) => assert ps[0] == d && ps[1] == b;
    case PiN(d, b) => assert ps[0] == d && ps[1] == b;
    case LetN(y, v, b) => assert ps[0] == y && ps[1] == v && ps[2] == b;
    case ProjN(_, _, e) => assert ps[0] == e;
    case ClosN(t, env, p) => assert ps[0] == t; VDLater(s, s', t, Under(env, p));
    case _ =>
  }

  // ---------------------------------------------------------------- substitution under a node

  lemma UnderBinder(s: Snap, h: Expr, u: Under)
    requires u.Under?
    ensures Sub(D(s, h), Up(SubstOf(s, u))) == VD(s, h, Shift(u))
  {
    var es := EnvTerms(s, u.env);
    forall i: nat ensures Up(Entries(es, u.p))(i) == Entries(es, u.p + 1)(i) { EntriesUp(es, u.p, i); }
    SubExt(D(s, h), Up(Entries(es, u.p)), Entries(es, u.p + 1));
  }

  /** A view of a handle whose node is no closure: the node, its parts under the same substitution. */
  lemma ViewNode(s: Snap, h: Expr, u: Under)
    requires NodeOk(s, h) && !s.nodes[h].ClosN?
    ensures VD(s, h, u) == NodeTerm(s, s.nodes[h], u)
  {
    if u.Under? {
      match s.nodes[h]
      case LamN(d, b) => UnderBinder(s, b, u);
      case PiN(d, b) => UnderBinder(s, b, u);
      case LetN(y, v, b) => UnderBinder(s, b, u);
      case _ =>
    }
  }

  lemma ClosedEntry(es: seq<Term>, p: nat, i: nat)
    requires AllClosed(es) && p <= i < p + |es|
    ensures Entries(es, p)(i) == es[i - p]
  {
    ClosedRen(es[i - p], Plus(p));
  }

  /** The entries of two suspended substitutions, the inner one's in the middle of the outer's. */
  function Compose(outer: seq<Term>, p: nat, inner: seq<Term>, q: nat): seq<Term>
    requires p <= q <= p + |outer|
  {
    outer[..q - p] + inner + outer[q - p..]
  }

  lemma ComposeAt(outer: seq<Term>, p: nat, inner: seq<Term>, q: nat, i: nat)
    requires p <= q <= p + |outer| && AllClosed(outer) && AllClosed(inner)
    ensures Sub(Entries(inner, q)(i), Entries(outer, p)) == Entries(Compose(outer, p, inner, q), p)(i)
  {
    var all := Compose(outer, p, inner, q);
    assert AllClosed(all);
    if i < p {
    } else if i < q {
      ClosedEntry(outer, p, i);
      ClosedEntry(all, p, i);
    } else if i < q + |inner| {
      ClosedEntry(inner, q, i);
      ClosedSub(inner[i - q], Entries(outer, p));
      ClosedEntry(all, p, i);
      assert all[i - p] == inner[i - q];
    } else if i < p + |all| {
      ClosedEntry(outer, p, i - |inner|);
      ClosedEntry(all, p, i);
    }
  }

  /** Two suspended substitutions with closed entries compose into one. */
  lemma Composed(t: Term, outer: seq<Term>, p: nat, inner: seq<Term>, q: nat)
    requires p <= q <= p + |outer| && AllClosed(outer) && AllClosed(inner)
    ensures Sub(Sub(t, Entries(inner, q)), Entries(outer, p)) == Sub(t, Entries(Compose(outer, p, inner, q), p))
  {
    SubSub(t, Entries(inner, q), Entries(outer, p));
    forall i: nat
      ensures Then(Entries(inner, q), Entries(outer, p))(i) == Entries(Compose(outer, p, inner, q), p)(i)
    {
      ComposeAt(outer, p, inner, q, i);
    }
    SubExt(t, Then(Entries(inner, q), Entries(outer, p)), Entries(Compose(outer, p, inner, q), p));
  }

  lemma Untouched(t: Term, es: seq<Term>, p: nat)
    requires Range(t) <= p
    ensures Sub(t, Entries(es, p)) == t
  {
    RangeExact(t);
    SubFixed(t, Entries(es, p));
  }

  // ---------------------------------------------------------------- growing the table

  lemma LaterFits(s: Snap, s': Snap, nd: Node)
    requires Later(s, s') && |s.den| == |s.nodes| && Fits(s, nd)
    ensures Fits(s', nd)
  {
    if nd.ClosN? { DLater(s, s', nd.t); }
  }

  ghost function Appended(s: Snap, nd: Node, info: Info, d: Term): Snap {
    s.(nodes := s.nodes + [nd], infos := s.infos + [info], den := s.den + [d])
  }

  lemma AppendLater(s: Snap, nd: Node, info: Info, d: Term)
    ensures Later(s, Appended(s, nd, info, d))
  {
  }

  lemma ShapesLater(s: Snap, s': Snap)
    requires Later(s, s') && Shapes(s) && EnvsClosed(s) && |s.den| == |s.nodes| && |s'.den| == |s'.nodes|
    requires forall h: nat :: h < |s'.nodes| && (h >= |s.nodes| || s'.nodes[h] != s.nodes[h]) ==> NodeOk(s', h)
    ensures Shapes(s')
  {
    forall h: nat | h < |s'.nodes| ensures NodeOk(s', h) {
      if h < |s.nodes| && s'.nodes[h] == s.nodes[h] {
        assert NodeOk(s, h);
        LaterFits(s, s', s.nodes[h]);
        DLater(s, s', h);
        NodeTermLater(s, s', s.nodes[h], Plain);
      }
    }
  }

  lemma EnvsLater(s: Snap, s': Snap)
    requires Later(s, s') && EnvsClosed(s) && |s.den| == |s.nodes|
    ensures forall e :: 0 <= e < |s.envs| ==> Bounded(s'.envs[e], |s'.nodes|) && AllClosed(EnvTerms(s', e))
  {
    forall e | 0 <= e < |s.envs| ensures Bounded(s'.envs[e], |s'.nodes|) && AllClosed(EnvTerms(s', e)) {
      EnvLater(s, s', e);
    }
  }

  /** A node whose term no permanent handle denotes, and before the freeze no handle at all. */
  lemma AppendOk(H: Hashing, s: Snap, nd: Node, info: Info, d: Term)
    requires NodesOk(H, s) && Fits(s, nd) && d == NodeTerm(s, nd, Plain) && info == InfoOf(H, d) && NotPerm(s, d)
    ensures NodesOk(H, Appended(s, nd, info, d)) && Later(s, Appended(s, nd, info, d))
  {
    var s' := Appended(s, nd, info, d);
    AppendLater(s, nd, info, d);
    LaterFits(s, s', nd);
    NodeTermLater(s, s', nd, Plain);
    assert NodeOk(s', |s.nodes|);
    ShapesLater(s, s');
    EnvsLater(s, s');
    AppendUnique(s, nd, info, d);
    AppendInfos(H, s, nd, info, d);
  }

  lemma AppendInfos(H: Hashing, s: Snap, nd: Node, info: Info, d: Term)
    requires |s.infos| == |s.nodes| == |s.den| && PermTier(s) && Fits(s, nd) && info == InfoOf(H, d) && Infos(H, s)
    requires nd.ClosN? ==> s.frozen
    ensures PermTier(Appended(s, nd, info, d)) && Infos(H, Appended(s, nd, info, d))
  {
    var s' := Appended(s, nd, info, d);
    forall h: nat | h < |s'.nodes| ensures InfoOk(H, s', h) {
      if h < |s.nodes| { assert InfoOk(H, s, h) && D(s', h) == D(s, h); }
    }
  }

  lemma AppendUnique(s: Snap, nd: Node, info: Info, d: Term)
    requires |s.den| == |s.nodes| && Perm(s) <= |s.nodes| && PermUnique(s) && NotPerm(s, d)
    ensures PermUnique(Appended(s, nd, info, d))
  {
    var s' := Appended(s, nd, info, d);
    forall h: nat ensures h < |s.nodes| ==> D(s', h) == D(s, h) {}
  }

  lemma SameDens(H: Hashing, s: Snap, s': Snap)
    requires Infos(H, s) && s'.den == s.den && s'.infos == s.infos && |s'.nodes| == |s.nodes|
    ensures Infos(H, s') && forall h :: D(s', h) == D(s, h)
  {
    forall h: nat | h < |s'.nodes| ensures InfoOk(H, s', h) { assert InfoOk(H, s, h) && D(s', h) == D(s, h); }
  }

  ghost function WithEnv(s: Snap, hs: seq<Expr>): Snap { s.(envs := s.envs + [hs]) }

  lemma EnvOk(H: Hashing, s: Snap, hs: seq<Expr>)
    requires NodesOk(H, s) && Bounded(hs, |s.nodes|) && forall k :: 0 <= k < |hs| ==> Closed(D(s, hs[k]))
    ensures NodesOk(H, WithEnv(s, hs)) && Later(s, WithEnv(s, hs))
    ensures EnvTerms(WithEnv(s, hs), |s.envs|) == seq(|hs|, i requires 0 <= i < |hs| => D(s, hs[i]))
  {
    var s' := WithEnv(s, hs);
    ShapesLater(s, s');
    EnvsLater(s, s');
    SameDens(H, s, s');
    assert EnvTerms(s', |s.envs|) == seq(|hs|, i requires 0 <= i < |hs| => D(s, hs[i]));
  }

  ghost function Exposed(s: Snap, e: Expr, nd: Node): Snap
    requires e < |s.nodes|
  {
    s.(nodes := s.nodes[e := nd])
  }

  /** A closure node replaced by the root of its expansion. */
  lemma ExposeOk(H: Hashing, s: Snap, e: Expr, nd: Node)
    requires NodesOk(H, s) && Perm(s) <= e < |s.nodes| && !nd.ClosN? && !nd.BVarN?
    requires Fits(s, nd) && D(s, e) == NodeTerm(s, nd, Plain)
    ensures NodesOk(H, Exposed(s, e, nd)) && Later(s, Exposed(s, e, nd))
  {
    var s' := Exposed(s, e, nd);
    SameDens(H, s, s');
    LaterFits(s, s', nd);
    NodeTermLater(s, s', nd, Plain);
    assert NodeOk(s', e);
    ShapesLater(s, s');
    EnvsLater(s, s');
  }

  // ---------------------------------------------------------------- the permanent tier

  ghost predicate NotPerm(s: Snap, t: Term) { forall x :: 0 <= x < Perm(s) ==> D(s, x) != t }

  lemma NotPermLater(s: Snap, s': Snap, t: Term)
    requires Later(s, s') && s.frozen && s.wm <= |s.den| && NotPerm(s, t)
    ensures NotPerm(s', t)
  {
    forall x | 0 <= x < Perm(s') ensures D(s', x) != t { DLater(s, s', x); }
  }

  lemma TempNotPerm(s: Snap, h: Expr)
    requires PermUnique(s) && Perm(s) <= h < |s.nodes|
    ensures NotPerm(s, D(s, h))
  {
  }

  /** The permanent tier is closed under parts: a term with a part outside it is outside it. */
  lemma PartNotPerm(s: Snap, t: Term, u: Term)
    requires |s.den| == |s.nodes| && Shapes(s) && PermTier(s) && NotPerm(s, u)
    requires match t
             case App(f, x) => u == f || u == x
             case Lam(d, b) => u == d || u == b
             case Pi(d, b) => u == d || u == b
             case Let(y, v, b) => u == y || u == v || u == b
             case Proj(_, _, e) => u == e
             case _ => false
    ensures NotPerm(s, t)
  {
    forall x | 0 <= x < Perm(s) ensures D(s, x) != t {
      var nd := s.nodes[x];
      var ps := Parts(nd);
      assert NodeOk(s, x) && Bounded(ps, Perm(s));
      assert forall k :: 0 <= k < |ps| ==> D(s, ps[k]) != u;
      match nd
      case AppN(f, a) => assert ps[0] == f && ps[1] == a;
      case LamN(d, b) => assert ps[0] == d && ps[1] == b;
      case PiN(d, b) => assert ps[0] == d && ps[1] == b;
      case LetN(y, v, b) => assert ps[0] == y && ps[1] == v && ps[2] == b;
      case ProjN(_, _, e) => assert ps[0] == e;
      case _ =>
    }
  }

  /** A node with a part in the temporary tier denotes nothing permanent; nor does a free variable. */
  lemma TempPartNotPerm(s: Snap, nd: Node, d: Term)
    requires |s.den| == |s.nodes| && Shapes(s) && PermTier(s) && PermUnique(s) && s.frozen
    requires !nd.ClosN? && Bounded(Parts(nd), |s.nodes|) && d == NodeTerm(s, nd, Plain)
    requires nd.FVarN? || exists k :: 0 <= k < |Parts(nd)| && Parts(nd)[k] >= s.wm
    ensures NotPerm(s, d)
  {
    if nd.FVarN? {
      forall x | 0 <= x < Perm(s) ensures D(s, x) != d { assert NodeOk(s, x); }
    } else {
      var k :| 0 <= k < |Parts(nd)| && Parts(nd)[k] >= s.wm;
      TempNotPerm(s, Parts(nd)[k]);
      PartNotPerm(s, d, D(s, Parts(nd)[k]));
    }
  }

  lemma RangeAt(H: Hashing, s: Snap, h: Expr)
    requires NodesOk(H, s) && h < |s.nodes|
    ensures s.infos[h].lbr == Range(D(s, h))
  {
    assert InfoOk(H, s, h);
  }

  // ---------------------------------------------------------------- attributes of compound terms

  lemma AppInfoIs(H: Hashing, f: Term, x: Term)
    ensures AppInfo(H, InfoOf(H, f), InfoOf(H, x)) == InfoOf(H, App(f, x))
  {
  }

  lemma BinderInfoIs(H: Hashing, d: Term, b: Term)
    ensures BinderInfo(H, true, InfoOf(H, d), InfoOf(H, b)) == InfoOf(H, Lam(d, b))
    ensures BinderInfo(H, false, InfoOf(H, d), InfoOf(H, b)) == InfoOf(H, Pi(d, b))
  {
  }

  lemma LetInfoIs(H: Hashing, y: Term, v: Term, b: Term)
    ensures LetInfo(H, InfoOf(H, y), InfoOf(H, v), InfoOf(H, b)) == InfoOf(H, Let(y, v, b))
  {
  }

  lemma ProjInfoIs(H: Hashing, n: Name, i: nat, e: Term)
    ensures ProjInfo(H, n, i, InfoOf(H, e)) == InfoOf(H, Proj(n, i, e))
  {
  }

  lemma PartsBound(nd: Node, n: nat)
    requires Bounded(Parts(nd), n)
    ensures match nd
            case AppN(f, a) => f < n && a < n
            case LamN(d, b) => d < n && b < n
            case PiN(d, b) => d < n && b < n
            case LetN(y, v, b) => y < n && v < n && b < n
            case ProjN(_, _, e) => e < n
            case ClosN(t, _, _) => t < n
            case _ => true
  {
    var ps := Parts(nd);
    match nd
    case AppN(f, a) => assert ps[0] == f && ps[1] == a;
    case LamN(d, b) => assert ps[0] == d && ps[1] == b;
    case PiN(d, b) => assert ps[0] == d && ps[1] == b;
    case LetN(y, v, b) => assert ps[0] == y && ps[1] == v && ps[2] == b;
    case ProjN(_, _, e) => assert ps[0] == e;
    case ClosN(t, _, _) => assert ps[0] == t;
    case _ =>
  }

  // ---------------------------------------------------------------- the index

  function StartOf(H: Hashing, hash: nat, n: nat): (i: nat)
    requires n > 0
    ensures i < n
  {
    H.spread(hash) % n
  }

  /** The first n slots on a path are full, and (if sure) what they hold denotes another term. */
  ghost predicate Passed(s: Snap, slots: seq<Slot>, start: nat, n: nat, d: Term, sure: bool) {
    start < |slots| && forall k: nat {:trigger Pos(start, k, |slots|)} :: k < n ==>
      slots[Pos(start, k, |slots|)].Full? && (sure ==> D(s, slots[Pos(start, k, |slots|)].h) != d)
  }

  /** An index serves as long as the handles in it are hashed as they were. */
  lemma KeysSame(H: Hashing, infos: seq<Info>, infos': seq<Info>, x: Index)
    requires IndexOk(KeysOf(H, infos), x)
    requires forall h: nat {:trigger Has(x.slots, h)} :: Has(x.slots, h) ==> SpreadAt(H, infos, h) == SpreadAt(H, infos', h)
    ensures IndexOk(KeysOf(H, infos'), x)
  {
    var K, K' := KeysOf(H, infos), KeysOf(H, infos');
    forall i | 0 <= i < |x.slots| && x.slots[i].Full? ensures Reachable(K', x.slots, i) {
      var h := x.slots[i].h;
      assert Has(x.slots, h) && Reachable(K, x.slots, i);
      assert Home(K', h, |x.slots|) == Home(K, h, |x.slots|);
      var d: nat :| PathFull(K, x.slots, h, d) && Pos(Home(K, h, |x.slots|), d, |x.slots|) == i;
      assert PathFull(K', x.slots, h, d);
    }
  }

  lemma KeysGrow(H: Hashing, infos: seq<Info>, infos': seq<Info>, x: Index)
    requires IndexOk(KeysOf(H, infos), x) && |infos| <= |infos'| && infos'[..|infos|] == infos
    requires forall h: nat {:trigger Has(x.slots, h)} :: Has(x.slots, h) ==> h < |infos|
    ensures IndexOk(KeysOf(H, infos'), x)
  {
    forall h: nat | Has(x.slots, h) ensures SpreadAt(H, infos, h) == SpreadAt(H, infos', h) {
      assert infos'[h] == infos'[..|infos|][h];
    }
    KeysSame(H, infos, infos', x);
  }

  /** What was passed stays passed while the table changes around it, as long as the index has not grown. */
  lemma PassedLater(s: Snap, s': Snap, xs: seq<Slot>, ys: seq<Slot>, start: nat, n: nat, d: Term, sure: bool)
    requires Later(s, s') && SlotsLater(xs, ys) && Passed(s, xs, start, n, d, sure)
    requires forall h: nat {:trigger Has(xs, h)} :: Has(xs, h) ==> h < |s.den|
    ensures Passed(s', ys, start, n, d, sure)
  {
    forall k: nat | k < n
      ensures ys[Pos(start, k, |ys|)].Full? && (sure ==> D(s', ys[Pos(start, k, |ys|)].h) != d)
    {
      var i := Pos(start, k, |xs|);
      assert xs[i].Full? && ys[i] == xs[i];
      assert Has(xs, xs[i].h);
      DLater(s, s', xs[i].h);
    }
  }

  /** A path that ends at an empty slot past other terms: no handle of that index denotes the term. */
  lemma AbsentIn(H: Hashing, s: Snap, x: Index, lo: nat, hi: nat, e: nat, d: Term)
    requires NodesOk(H, s) && Indexes(H, s.infos, x, lo, hi) && hi <= |s.nodes|
    requires Passed(s, x.slots, StartOf(H, HashOf(H, d), |x.slots|), e, d, true)
    requires x.slots[Pos(StartOf(H, HashOf(H, d), |x.slots|), e, |x.slots|)].Empty?
    ensures forall h :: lo <= h < hi ==> D(s, h) != d
  {
    var n := |x.slots|;
    forall h: nat | lo <= h < hi ensures D(s, h) != d {
      assert InfoOk(H, s, h) && Has(x.slots, h);
      if s.infos[h].hash == HashOf(H, d) {
        var k := PlaceBefore(H, s.infos, x, h, e);
        assert x.slots[Pos(StartOf(H, HashOf(H, d), n), k, n)].h == h;
      }
    }
  }

  /** A handle of the index is met before the first empty slot of its path. */
  lemma PlaceBefore(H: Hashing, infos: seq<Info>, x: Index, h: nat, e: nat) returns (k: nat)
    requires IndexOk(KeysOf(H, infos), x) && h < |infos| && Has(x.slots, h)
    requires x.slots[Pos(StartOf(H, infos[h].hash, |x.slots|), e, |x.slots|)].Empty?
    ensures k < e && x.slots[Pos(StartOf(H, infos[h].hash, |x.slots|), k, |x.slots|)] == Full(h)
  {
    var K, n := KeysOf(H, infos), |x.slots|;
    var i :| 0 <= i < n && x.slots[i] == Full(h);
    assert Reachable(K, x.slots, i);
    k :| PathFull(K, x.slots, h, k) && Pos(Home(K, h, n), k, n) == i;
    assert Home(K, h, n) == StartOf(H, infos[h].hash, n);
    PathAt(K, x.slots, h, k, e);
  }

  lemma PathAt(K: Keys, slots: seq<Slot>, h: nat, k: nat, e: nat)
    requires PathFull(K, slots, h, k)
    ensures e < k ==> slots[Pos(Home(K, h, |slots|), e, |slots|)].Full?
  {
  }

  /** The next handle put in an empty slot of its tier's index. */
  ghost function Put(s: Snap, nd: Node, info: Info, d: Term, i: nat): Snap
    requires i < |(if s.frozen then s.temp else s.perm).slots|
  {
    var a := Appended(s, nd, info, d);
    if s.frozen then a.(temp := Filled(s.temp, i, |s.nodes|)) else a.(perm := Filled(s.perm, i, |s.nodes|))
  }

  lemma FillIndexes(H: Hashing, infos: seq<Info>, info: Info, x: Index, lo: nat, e: nat, i: nat)
    requires Indexes(H, infos, x, lo, |infos|) && lo <= |infos|
    requires i < |x.slots| && x.slots[i].Empty? && i == Pos(StartOf(H, info.hash, |x.slots|), e, |x.slots|)
    requires forall k: nat {:trigger Pos(StartOf(H, info.hash, |x.slots|), k, |x.slots|)} :: k < e ==>
      x.slots[Pos(StartOf(H, info.hash, |x.slots|), k, |x.slots|)].Full?
    ensures Indexes(H, infos + [info], Filled(x, i, |infos|), lo, |infos| + 1)
  {
    var infos', h, n := infos + [info], |infos|, |x.slots|;
    var K := KeysOf(H, infos');
    KeysGrow(H, infos, infos', x);
    assert Home(K, h, n) == StartOf(H, info.hash, n);
    forall k: nat | k < e ensures !K.eq(x.slots[Pos(Home(K, h, n), k, n)].h, h) {
      assert Has(x.slots, x.slots[Pos(Home(K, h, n), k, n)].h);
    }
    FilledOk(K, x, i, h, e);
  }

  lemma PutIndexed(H: Hashing, s: Snap, nd: Node, info: Info, d: Term, e: nat, i: nat)
    requires NodesOk(H, s) && Indexed(H, s) && info == InfoOf(H, d)
    requires var x := if s.frozen then s.temp else s.perm;
             i < |x.slots| && x.slots[i].Empty? && i == Pos(StartOf(H, info.hash, |x.slots|), e, |x.slots|)
             && Passed(s, x.slots, StartOf(H, info.hash, |x.slots|), e, d, false)
    requires !s.frozen ==> s.perm.count + 1 < |s.perm.slots|
    ensures Indexed(H, Put(s, nd, info, d, i)) && Later(s, Put(s, nd, info, d, i))
  {
    AppendLater(s, nd, info, d);
    if s.frozen {
      FillIndexes(H, s.infos, info, s.temp, s.wm, e, i);
      KeysGrow(H, s.infos, s.infos + [info], s.perm);
    } else {
      FillIndexes(H, s.infos, info, s.perm, 0, e, i);
      KeysGrow(H, s.infos, s.infos + [info], s.temp);
    }
  }
}
