// Reduction and convertibility of terms: the yardstick every fast representation is held to.
module Conversion {
  import opened Names
  import opened Terms
  import BitOps
  import L = Levels

  datatype Option<+T> = None | Some(value: T)

  datatype RecRule = RecRule(ctor: Name, nfields: nat, rhs: Term)

  /** What a constant contributes to reduction (src/env.h); definitions and theorems unfold. */
  datatype ConstInfo =
    | Axiom
    | Def(dparams: seq<Name>, value: Term)
    | Induct(structure: bool)
    | Ctor(induct: Name, clevels: nat, cparams: nat, cfields: nat)
    | Rec(rparams: seq<Name>, nparams: nat, nmotives: nat, nminors: nat, nindices: nat, k: bool,
          rules: seq<RecRule>, majorInduct: Name)
    | Quotient

  function FirstIndex(c: ConstInfo): nat
    requires c.Rec?
  {
    c.nparams + c.nmotives + c.nminors
  }

  function MajorIdx(c: ConstInfo): nat
    requires c.Rec?
  {
    FirstIndex(c) + c.nindices
  }

  /** A verified fixpoint rule (src/fix.h): one arm per constructor, over the earlier arguments and the fields. */
  datatype FixArm = FixArm(ctor: Name, nfields: nat, body: Term)
  datatype FixRule = FixRule(induct: Name, major: nat, nparams: nat, arms: seq<FixArm>)

  /**
   * Everything reduction depends on.  The two oracles answer the typing questions: the constructor
   * form of a K-like recursor's major premise, and of a structure's.  A term they do not change is
   * returned as it is.
   */
  datatype Env = Env(consts: map<Name, ConstInfo>, lets: map<nat, Term>, fix: map<Name, FixRule>,
                     kCtor: (Name, Term) -> Term, etaCtor: (Name, Term) -> Term)

  /** Declarations and let-bound values are closed terms. */
  ghost predicate ClosedDecls(E: Env) {
    && (forall n :: n in E.consts && E.consts[n].Def? ==> Closed(E.consts[n].value))
    && (forall n, k :: n in E.consts && E.consts[n].Rec? && 0 <= k < |E.consts[n].rules| ==>
          Closed(E.consts[n].rules[k].rhs))
    && (forall id :: id in E.lets ==> Closed(E.lets[id]))
  }

  function FindRule(rules: seq<RecRule>, c: Name): (r: Option<RecRule>)
    ensures r.Some? ==> r.value in rules && r.value.ctor == c
    ensures r.None? ==> forall k :: 0 <= k < |rules| ==> rules[k].ctor != c
  {
    if rules == [] then None else if rules[0].ctor == c then Some(rules[0]) else FindRule(rules[1..], c)
  }

  function FindArm(arms: seq<FixArm>, c: Name, n: nat, nparams: nat): (r: Option<FixArm>)
    ensures r.Some? ==> r.value in arms && r.value.ctor == c && n == nparams + r.value.nfields
    ensures r.None? ==> forall k :: 0 <= k < |arms| ==> arms[k].ctor != c || n != nparams + arms[k].nfields
  {
    if arms == [] then None
    else if arms[0].ctor == c && n == nparams + arms[0].nfields then Some(arms[0])
    else FindArm(arms[1..], c, n, nparams)
  }

  // ---------------------------------------------------------------- literals

  function Pow(b: nat, e: nat): nat { if e == 0 then 1 else b * Pow(b, e - 1) }

  function Gcd(a: nat, b: nat): nat
    decreases b
  {
    if b == 0 then a else Gcd(b, a % b)
  }

  function BoolConst(b: bool): Term { Const(if b then BOOL_TRUE else BOOL_FALSE, []) }

  function NatFn(op: string): Name { Str(NAT, op) }

  /** A shift by a machine word or more leaves nothing: no numeral has that many bits. */
  function ShiftRight(a: nat, b: nat): nat {
    if b >= 0x1_0000_0000_0000_0000 then 0 else if b == 0 then a else ShiftRight(a / 2, b - 1)
  }

  /** The value of a `Nat` primitive on two numerals. */
  function NatBinop(n: Name, a: nat, b: nat): Option<Term> {
    var lit := (m: nat) => Some(Lit(NatLit(m)));
    if n == NatFn("add") then lit(a + b)
    else if n == NatFn("sub") then lit(if a >= b then a - b else 0)
    else if n == NatFn("mul") then lit(a * b)
    else if n == NatFn("pow") then lit(Pow(a, b))
    else if n == NatFn("gcd") then lit(Gcd(a, b))
    else if n == NatFn("mod") then lit(if b == 0 then a else a % b)
    else if n == NatFn("div") then lit(if b == 0 then 0 else a / b)
    else if n == NatFn("beq") then Some(BoolConst(a == b))
    else if n == NatFn("ble") then Some(BoolConst(a <= b))
    else if n == NatFn("land") then lit(BitOps.And(a, b))
    else if n == NatFn("lor") then lit(BitOps.Or(a, b))
    else if n == NatFn("xor") then lit(BitOps.Xor(a, b))
    else if n == NatFn("shiftLeft") then lit(a * Pow(2, b))
    else if n == NatFn("shiftRight") then lit(ShiftRight(a, b))
    else None
  }

  predicate IsNatBinop(n: Name) { NatBinop(n, 0, 0).Some? }

  /** UTF-8 bytes to code points; a sequence cut short is decoded from the bytes there are. */
  function CodePoints(s: seq<nat>): seq<nat> {
    if s == [] then []
    else
      var c := s[0];
      var n := if c < 128 then 1 else if c / 32 == 6 then 2 else if c / 16 == 14 then 3 else 4;
      var lead := if n == 1 then c else if n == 2 then c % 32 else if n == 3 then c % 16 else c % 8;
      var len := if n <= |s| then n else |s|;
      [Continue(lead, s[1..len])] + CodePoints(s[len..])
  }

  function Continue(cp: nat, tail: seq<nat>): nat
    decreases |tail|
  {
    if tail == [] then cp else Continue(cp * 64 + tail[0] % 64, tail[1..])
  }

  function CharList(cps: seq<nat>): Term {
    if cps == [] then App(Const(LIST_NIL, [L.Zero]), Const(CHAR, []))
    else
      App(App(App(Const(LIST_CONS, [L.Zero]), Const(CHAR, [])),
              App(Const(CHAR_OF_NAT, []), Lit(NatLit(cps[0])))),
          CharList(cps[1..]))
  }

  function StrLitToCtor(s: seq<nat>): Term { App(Const(STRING_OF_LIST, []), CharList(CodePoints(s))) }

  // ---------------------------------------------------------------- root steps

  predicate IsBeta(a: Term, b: Term) { a.App? && a.f.Lam? && b == Instantiate1(a.f.body, a.x) }

  predicate IsZeta(a: Term, b: Term) { a.Let? && b == Instantiate1(a.body, a.val) }

  predicate IsDelta(E: Env, a: Term, b: Term) {
    a.Const? && a.n in E.consts && E.consts[a.n].Def? && |a.ls| == |E.consts[a.n].dparams|
    && b == InstantiateLParams(E.consts[a.n].value, E.consts[a.n].dparams, a.ls)
  }

  /** A recursor whose major premise is a constructor application, with the constructor's trailing fields. */
  predicate IsIota(E: Env, a: Term, b: Term) {
    var h, args := AppFn(a), AppArgs(a);
    if !(h.Const? && h.n in E.consts && E.consts[h.n].Rec?) then false
    else
      var rec := E.consts[h.n];
      if !(|args| == MajorIdx(rec) + 1 && |h.ls| == |rec.rparams|) then false
      else
        var mh, margs := AppFn(args[MajorIdx(rec)]), AppArgs(args[MajorIdx(rec)]);
        if !mh.Const? then false
        else
          var rule := FindRule(rec.rules, mh.n);
          rule.Some? && rule.value.nfields <= |margs|
          && b == MkApps(InstantiateLParams(rule.value.rhs, rec.rparams, h.ls),
                         args[..FirstIndex(rec)] + margs[|margs| - rule.value.nfields..])
  }

  predicate IsProjStep(E: Env, a: Term, b: Term) {
    if !a.Proj? then false
    else
      var h, args := AppFn(a.e), AppArgs(a.e);
      h.Const? && h.n in E.consts && E.consts[h.n].Ctor? && E.consts[h.n].induct == a.s
      && E.consts[h.n].cparams + a.idx < |args| && b == args[E.consts[h.n].cparams + a.idx]
  }

  predicate IsQuotStep(a: Term, b: Term) {
    var h, args := AppFn(a), AppArgs(a);
    if !(h.Const? && (h.n == QUOT_LIFT || h.n == QUOT_IND)) then false
    else
      var p := if h.n == QUOT_LIFT then 5 else 4;
      if |args| != p + 1 then false
      else
        var mh, margs := AppFn(args[p]), AppArgs(args[p]);
        mh.Const? && mh.n == QUOT_MK && |margs| == 3 && b == App(args[3], margs[2])
  }

  /** Literals and what they abbreviate; `Nat.zero` and `Nat.succ` have no universe parameters to speak of. */
  predicate IsLitStep(a: Term, b: Term) {
    a.Lit?
    && match a.v
       case NatLit(n) =>
         if n == 0 then b.Const? && b.n == NAT_ZERO
         else b.App? && b.f.Const? && b.f.n == NAT_SUCC && b.x == Lit(NatLit(n - 1))
       case StrLit(s) => b == StrLitToCtor(s)
  }

  predicate IsNatStep(a: Term, b: Term) {
    a.App? && a.x.Lit? && a.x.v.NatLit? && a.f.App? && a.f.f.Const? && a.f.x.Lit? && a.f.x.v.NatLit?
    && NatBinop(a.f.f.n, a.f.x.v.n, a.x.v.n) == Some(b)
  }

  predicate IsLetVar(E: Env, a: Term, b: Term) { a.FVar? && a.id in E.lets && b == E.lets[a.id] }

  predicate IsOracleStep(E: Env, a: Term, b: Term, n: Name) {
    n in E.consts && match E.consts[n]
      case Rec(_, _, _, _, _, k, _, _) => k && b == E.kCtor(n, a)
      case Induct(structure) => structure && b == E.etaCtor(n, a)
      case _ => false
  }

  /** A definition with a fixpoint rule, applied up to its recursive argument, a constructor application. */
  predicate IsFixStep(E: Env, a: Term, b: Term) {
    var h, args := AppFn(a), AppArgs(a);
    if !(h.Const? && h.n in E.fix && h.n in E.consts && E.consts[h.n].Def?) then false
    else
      var rule, ps := E.fix[h.n], E.consts[h.n].dparams;
      if !(|args| == rule.major + 1 && |h.ls| == |ps|) then false
      else
        var mh, margs := AppFn(args[rule.major]), AppArgs(args[rule.major]);
        if !mh.Const? then false
        else
          var arm := FindArm(rule.arms, mh.n, |margs|, rule.nparams);
          arm.Some?
          && b == InstantiateRev(InstantiateLParams(arm.value.body, ps, h.ls),
                                 args[..rule.major] + margs[|margs| - arm.value.nfields..])
  }

  ghost predicate Root(E: Env, a: Term, b: Term) {
    IsBeta(a, b) || IsZeta(a, b) || IsDelta(E, a, b) || IsIota(E, a, b) || IsProjStep(E, a, b)
    || IsQuotStep(a, b) || IsLitStep(a, b) || IsNatStep(a, b) || IsLetVar(E, a, b)
    || (exists n :: IsOracleStep(E, a, b, n)) || IsFixStep(E, a, b)
  }

  /** One step somewhere in the term. */
  ghost predicate Red(E: Env, a: Term, b: Term)
    decreases a, 1
  {
    Root(E, a, b) || Inside(E, a, b)
  }

  ghost predicate Inside(E: Env, a: Term, b: Term)
    decreases a, 0
  {
    match (a, b)
    case (App(f, x), App(f', x')) => (Red(E, f, f') && x == x') || (f == f' && Red(E, x, x'))
    case (Lam(d, t), Lam(d', t')) => (Red(E, d, d') && t == t') || (d == d' && Red(E, t, t'))
    case (Pi(d, t), Pi(d', t')) => (Red(E, d, d') && t == t') || (d == d' && Red(E, t, t'))
    case (Let(y, v, t), Let(y', v', t')) =>
      (Red(E, y, y') && v == v' && t == t') || (y == y' && Red(E, v, v') && t == t')
      || (y == y' && v == v' && Red(E, t, t'))
    case (Proj(s, i, e), Proj(s', i', e')) => s == s' && i == i' && Red(E, e, e')
    case _ => false
  }

  // ---------------------------------------------------------------- closures of the step relation

  type Relation = (Term, Term) -> bool

  // These three only name their bodies, so that a relation's laws are used where a proof asks for them.
  ghost predicate Chain(R: Relation, a: Term, b: Term, c: Term) { R(a, b) && R(b, c) }
  ghost predicate Flip(R: Relation, a: Term, b: Term) { R(b, a) }
  ghost predicate Both(R: Relation, a: Term, b: Term, c: Term, d: Term) { R(a, b) && R(c, d) }

  ghost predicate IsOrder(both: bool, R: Relation) {
    && (forall a :: R(a, a))
    && (forall a, b, c {:trigger Chain(R, a, b, c)} :: Chain(R, a, b, c) ==> R(a, c))
    && (both ==> forall a, b {:trigger Flip(R, a, b)} :: Flip(R, a, b) ==> R(a, b))
  }

  ghost predicate IsCongruence(R: Relation) {
    && (forall f, f', x, x' {:trigger R(App(f, x), App(f', x'))} :: Both(R, f, f', x, x') ==> R(App(f, x), App(f', x')))
    && (forall d, d', t, t' {:trigger R(Lam(d, t), Lam(d', t'))} :: Both(R, d, d', t, t') ==> R(Lam(d, t), Lam(d', t')))
    && (forall d, d', t, t' {:trigger R(Pi(d, t), Pi(d', t'))} :: Both(R, d, d', t, t') ==> R(Pi(d, t), Pi(d', t')))
    && (forall y, y', v, v', t, t' {:trigger R(Let(y, v, t), Let(y', v', t'))} ::
          R(y, y') && Both(R, v, v', t, t') ==> R(Let(y, v, t), Let(y', v', t')))
    && (forall s, i, e, e' {:trigger R(Proj(s, i, e), Proj(s, i, e'))} ::
          R(e, e') ==> R(Proj(s, i, e), Proj(s, i, e')))
  }

  /** A preorder, symmetric if asked, that contains the root steps and carries over to every context. */
  ghost predicate IsClosed(E: Env, both: bool, R: Relation) {
    IsOrder(both, R) && IsCongruence(R) && forall a, b :: Root(E, a, b) ==> R(a, b)
  }

  /** The least closed relation; `Paths.StarIsPath` says that it is the paths of single steps. */
  ghost predicate Star(E: Env, both: bool, a: Term, b: Term) {
    forall R: Relation :: IsClosed(E, both, R) ==> R(a, b)
  }

  /** b is reached from a by reduction steps. */
  ghost predicate Reds(E: Env, a: Term, b: Term) { Star(E, false, a, b) }

  /** a and b are linked by steps in either direction. */
  ghost predicate Conv(E: Env, a: Term, b: Term) { Star(E, true, a, b) }

  lemma StarRefl(E: Env, both: bool, a: Term)
    ensures Star(E, both, a, a)
  {
  }

  lemma StarTrans(E: Env, both: bool, a: Term, b: Term, c: Term)
    requires Star(E, both, a, b) && Star(E, both, b, c)
    ensures Star(E, both, a, c)
  {
    forall R: Relation | IsClosed(E, both, R) ensures R(a, c) { assert Chain(R, a, b, c); }
  }

  lemma RootStep(E: Env, both: bool, a: Term, b: Term)
    requires Root(E, a, b)
    ensures Star(E, both, a, b)
  {
  }

  lemma ConvSym(E: Env, a: Term, b: Term)
    requires Conv(E, a, b)
    ensures Conv(E, b, a)
  {
    forall R: Relation | IsClosed(E, true, R) ensures R(b, a) { assert Flip(R, b, a); }
  }

  lemma RedsConv(E: Env, a: Term, b: Term)
    requires Reds(E, a, b)
    ensures Conv(E, a, b)
  {
    forall R: Relation | IsClosed(E, true, R) ensures R(a, b) { assert IsClosed(E, false, R); }
  }

  lemma StarApp(E: Env, both: bool, f: Term, f': Term, x: Term, x': Term)
    requires Star(E, both, f, f') && Star(E, both, x, x')
    ensures Star(E, both, App(f, x), App(f', x'))
  {
    forall R: Relation | IsClosed(E, both, R) ensures R(App(f, x), App(f', x')) { assert R(f, f') && R(x, x'); }
  }

  lemma StarLam(E: Env, both: bool, d: Term, d': Term, b: Term, b': Term)
    requires Star(E, both, d, d') && Star(E, both, b, b')
    ensures Star(E, both, Lam(d, b), Lam(d', b'))
  {
    forall R: Relation | IsClosed(E, both, R) ensures R(Lam(d, b), Lam(d', b')) { assert R(d, d') && R(b, b'); }
  }

  lemma StarPi(E: Env, both: bool, d: Term, d': Term, b: Term, b': Term)
    requires Star(E, both, d, d') && Star(E, both, b, b')
    ensures Star(E, both, Pi(d, b), Pi(d', b'))
  {
    forall R: Relation | IsClosed(E, both, R) ensures R(Pi(d, b), Pi(d', b')) { assert R(d, d') && R(b, b'); }
  }

  lemma StarLet(E: Env, both: bool, y: Term, v: Term, v': Term, b: Term, b': Term)
    requires Star(E, both, v, v') && Star(E, both, b, b')
    ensures Star(E, both, Let(y, v, b), Let(y, v', b'))
  {
    forall R: Relation | IsClosed(E, both, R) ensures R(Let(y, v, b), Let(y, v', b')) {
      assert R(y, y) && R(v, v') && R(b, b');
    }
  }

  lemma StarProj(E: Env, both: bool, s: Name, i: nat, e: Term, e': Term)
    requires Star(E, both, e, e')
    ensures Star(E, both, Proj(s, i, e), Proj(s, i, e'))
  {
    forall R: Relation | IsClosed(E, both, R) ensures R(Proj(s, i, e), Proj(s, i, e')) { assert R(e, e'); }
  }

  lemma {:induction false} StarApps(E: Env, both: bool, f: Term, f': Term, xs: seq<Term>, ys: seq<Term>)
    requires Star(E, both, f, f') && |xs| == |ys|
    requires forall k :: 0 <= k < |xs| ==> Star(E, both, xs[k], ys[k])
    ensures Star(E, both, MkApps(f, xs), MkApps(f', ys))
    decreases |xs|
  {
    if xs != [] {
      var n := |xs| - 1;
      StarApps(E, both, f, f', xs[..n], ys[..n]);
      StarApp(E, both, MkApps(f, xs[..n]), MkApps(f', ys[..n]), xs[n], ys[n]);
    }
  }

  lemma StarHead(E: Env, both: bool, f: Term, f': Term, xs: seq<Term>)
    requires Star(E, both, f, f')
    ensures Star(E, both, MkApps(f, xs), MkApps(f', xs))
  {
    forall k | 0 <= k < |xs| ensures Star(E, both, xs[k], xs[k]) { StarRefl(E, both, xs[k]); }
    StarApps(E, both, f, f', xs, xs);
  }

  // ---------------------------------------------------------------- many beta steps at once

  predicate IsLams(t: Term, n: nat) { n == 0 || (t.Lam? && IsLams(t.body, n - 1)) }

  function LamBody(t: Term, n: nat): Term
    requires IsLams(t, n)
  {
    if n == 0 then t else LamBody(t.body, n - 1)
  }

  ghost function UpN(s: Subst, n: nat): Subst
    decreases n
  {
    if n == 0 then s else UpN(Up(s), n - 1)
  }

  lemma {:induction false} UpNAt(s: Subst, n: nat, k: nat)
    ensures UpN(s, n)(k) == if k < n then BVar(k) else Ren(s(k - n), Plus(n))
    decreases n
  {
    if n == 0 {
      RenZero(s(k));
    } else {
      UpNAt(Up(s), n - 1, k);
      if k >= n {
        RenPlus(s(k - n), 1, n - 1);
      } else if k == n - 1 {
        assert Ren(BVar(0), Plus(n - 1)) == BVar(k);
      }
    }
  }

  lemma RenZero(t: Term)
    ensures Ren(t, Plus(0)) == t
  {
    RenIsSub(t, Plus(0));
    SubFixed(t, AsSubst(Plus(0)));
  }

  lemma {:induction false} SubLams(t: Term, s: Subst, n: nat)
    requires IsLams(t, n)
    ensures IsLams(Sub(t, s), n) && LamBody(Sub(t, s), n) == Sub(LamBody(t, n), UpN(s, n))
    decreases n
  {
    if n > 0 { SubLams(t.body, Up(s), n - 1); }
  }

  lemma {:induction false} OccursLamBody(t: Term, n: nat, i: nat)
    requires IsLams(t, n) && Occurs(LamBody(t, n), i + n)
    ensures Occurs(t, i)
    decreases n
  {
    if n > 0 { OccursLamBody(t.body, n - 1, i + 1); }
  }

  /** Entries substituted under binders that are then instantiated join the instantiation. */
  lemma EntriesJoin(b: Term, outer: seq<Term>, inner: seq<Term>)
    ensures Sub(Sub(b, UpN(Entries(outer, 0), |inner|)), Entries(inner, 0)) == Sub(b, Entries(inner + outer, 0))
  {
    var n := |inner|;
    var s := UpN(Entries(outer, 0), n);
    SubSub(b, s, Entries(inner, 0));
    forall k: nat
      ensures Then(s, Entries(inner, 0))(k) == Entries(inner + outer, 0)(k)
    {
      EntriesJoinAt(outer, inner, k);
    }
    SubExt(b, Then(s, Entries(inner, 0)), Entries(inner + outer, 0));
  }

  lemma EntriesJoinAt(outer: seq<Term>, inner: seq<Term>, k: nat)
    ensures Sub(UpN(Entries(outer, 0), |inner|)(k), Entries(inner, 0)) == Entries(inner + outer, 0)(k)
  {
    var n := |inner|;
    UpNAt(Entries(outer, 0), n, k);
    if k < n {
      assert Sub(BVar(k), Entries(inner, 0)) == Entries(inner, 0)(k);
    } else if k < n + |outer| {
      var o := outer[k - n];
      RenZero(o);
      SubRen(o, Plus(n), Entries(inner, 0));
      SubFixed(o, ThenRS(Plus(n), Entries(inner, 0)));
    } else {
      assert Ren(BVar(k - n - |outer|), Plus(n)) == BVar(k - |outer|);
      assert Sub(BVar(k - |outer|), Entries(inner, 0)) == BVar(k - |outer| - n);
    }
  }

  lemma ReverseCons(x: Term, rest: seq<Term>)
    ensures Reverse([x] + rest) == Reverse(rest) + [x]
  {
  }

  /** The first argument goes in under the remaining binders, which the rest then fill. */
  lemma TelescopeJoin(b: Term, n: nat, x: Term, rest: seq<Term>)
    requires IsLams(b, n) && n == |rest|
    ensures IsLams(Instantiate1(b, x), n)
    ensures InstantiateRev(LamBody(Instantiate1(b, x), n), rest) == InstantiateRev(LamBody(b, n), [x] + rest)
  {
    InstantiateIsSub(b, [x]);
    SubLams(b, Entries([x], 0), n);
    InstantiateIsSub(LamBody(Instantiate1(b, x), n), Reverse(rest));
    EntriesJoin(LamBody(b, n), [x], Reverse(rest));
    ReverseCons(x, rest);
    InstantiateIsSub(LamBody(b, n), Reverse([x] + rest));
  }

  lemma BetaStep(E: Env, both: bool, d: Term, b: Term, x: Term)
    ensures Star(E, both, App(Lam(d, b), x), Instantiate1(b, x))
  {
    assert IsBeta(App(Lam(d, b), x), Instantiate1(b, x));
    RootStep(E, both, App(Lam(d, b), x), Instantiate1(b, x));
  }

  /** The first contraction of a telescope, followed by the others. */
  lemma BetaThen(E: Env, both: bool, d: Term, b: Term, x: Term, rest: seq<Term>)
    requires IsLams(b, |rest|) && IsLams(Instantiate1(b, x), |rest|)
    requires Star(E, both, MkApps(Instantiate1(b, x), rest), InstantiateRev(LamBody(Instantiate1(b, x), |rest|), rest))
    ensures Star(E, both, MkApps(Lam(d, b), [x] + rest), InstantiateRev(LamBody(b, |rest|), [x] + rest))
  {
    TelescopeJoin(b, |rest|, x, rest);
    MkAppsCons(Lam(d, b), x, rest);
    BetaStep(E, both, d, b, x);
    StarHead(E, both, App(Lam(d, b), x), Instantiate1(b, x), rest);
    StarTrans(E, both, MkApps(Lam(d, b), [x] + rest), MkApps(Instantiate1(b, x), rest),
              InstantiateRev(LamBody(b, |rest|), [x] + rest));
  }

  /**
   * Contracting a telescope of beta redexes one at a time, over open arguments, is one simultaneous
   * instantiation.
   */
  lemma {:induction false} BetaMany(E: Env, both: bool, t: Term, args: seq<Term>)
    requires IsLams(t, |args|)
    ensures Star(E, both, MkApps(t, args), InstantiateRev(LamBody(t, |args|), args))
    decreases |args|
  {
    if args == [] {
      assert InstantiateRev(LamBody(t, |args|), args) == t == MkApps(t, args);
      StarRefl(E, both, t);
    } else {
      var d, b, x, rest := t.dom, t.body, args[0], args[1..];
      TelescopeJoin(b, |rest|, x, rest);
      BetaMany(E, both, Instantiate1(b, x), rest);
      BetaThen(E, both, d, b, x, rest);
      assert args == [x] + rest && LamBody(t, |args|) == LamBody(b, |rest|);
    }
  }
}
