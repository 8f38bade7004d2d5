// Evaluation is sound: the value stands for a term convertible with the one evaluated, at any binder depth
// at which the environment is in scope.
module NbeSound {
  import opened Names
  import opened Terms
  import opened Conversion
  import opened NbeModel
  import opened NbeEval
  import opened Rules

  // ---------------------------------------------------------------- read-back

  /** x at index 0, the rest after it. */
  ghost function Cons(x: Term, s: Subst): Subst { (i: nat) => if i == 0 then x else s(i - 1) }

  lemma ShiftedAway(t: Term, x: Term)
    ensures Sub(Ren(t, Plus(1)), Entries([x], 0)) == t
  {
    SubRen(t, Plus(1), Entries([x], 0));
    SubFixed(t, ThenRS(Plus(1), Entries([x], 0)));
  }

  lemma ConsBetaAt(s: Subst, x: Term, i: nat)
    ensures Sub(Up(s)(i), Entries([x], 0)) == Cons(x, s)(i)
  {
    if i == 0 {
      RenZero(x);
      assert Up(s)(i) == BVar(0);
    } else {
      ShiftedAway(s(i - 1), x);
      assert Up(s)(i) == Ren(s(i - 1), Plus(1));
    }
  }

  lemma ConsBeta(b: Term, s: Subst, x: Term)
    ensures Instantiate1(Sub(b, Up(s)), x) == Sub(b, Cons(x, s))
  {
    InstantiateIsSub(Sub(b, Up(s)), [x]);
    SubSub(b, Up(s), Entries([x], 0));
    forall i: nat ensures Then(Up(s), Entries([x], 0))(i) == Cons(x, s)(i) { ConsBetaAt(s, x, i); }
    SubExt(b, Then(Up(s), Entries([x], 0)), Cons(x, s));
  }

  lemma ValsExt(d: nat, a: Value, env: VEnv, b: Term)
    requires forall i: nat :: Occurs(b, i + 1) ==> Lookup(env, i).Ok?
    ensures Inst(d, Ext(a, env), b) == Sub(InstL(LevelsOf(env), b), Cons(RB(d, a), Vals(d, env)))
  {
    InstLOccurs(LevelsOf(env), b);
    forall i: nat | Occurs(b, i) ensures Vals(d, Ext(a, env))(i) == Cons(RB(d, a), Vals(d, env))(i) {
      if i > 0 {
        var j: nat := i - 1;
        assert Occurs(b, j + 1);
        assert Lookup(Ext(a, env), i) == Lookup(env, j);
      }
    }
    SubExt(InstL(LevelsOf(env), b), Vals(d, Ext(a, env)), Cons(RB(d, a), Vals(d, env)));
  }

  lemma InstLam(d: nat, env: VEnv, t: Term)
    requires t.Lam?
    ensures Inst(d, env, t) == Lam(Inst(d, env, t.dom), Sub(InstL(LevelsOf(env), t.body), Up(Vals(d, env))))
  {
  }

  lemma InstPi(d: nat, env: VEnv, t: Term)
    requires t.Pi?
    ensures Inst(d, env, t) == Pi(Inst(d, env, t.dom), Sub(InstL(LevelsOf(env), t.body), Up(Vals(d, env))))
  {
  }

  lemma InstLet(d: nat, env: VEnv, t: Term)
    requires t.Let?
    ensures Inst(d, env, t)
         == Let(Inst(d, env, t.ty), Inst(d, env, t.val), Sub(InstL(LevelsOf(env), t.body), Up(Vals(d, env))))
  {
  }

  lemma InstProj(d: nat, env: VEnv, t: Term)
    requires t.Proj?
    ensures Inst(d, env, t) == Proj(t.s, t.idx, Inst(d, env, t.e))
  {
  }

  lemma InstApp(d: nat, env: VEnv, f: Term, x: Term)
    ensures Inst(d, env, App(f, x)) == App(Inst(d, env, f), Inst(d, env, x))
  {
  }

  ghost function InstAll(d: nat, env: VEnv, ts: seq<Term>): (r: seq<Term>)
    ensures |r| == |ts| && forall k :: 0 <= k < |ts| ==> r[k] == Inst(d, env, ts[k])
  {
    seq(|ts|, k requires 0 <= k < |ts| => Inst(d, env, ts[k]))
  }

  lemma {:induction false} InstMkApps(d: nat, env: VEnv, f: Term, ts: seq<Term>)
    ensures Inst(d, env, MkApps(f, ts)) == MkApps(Inst(d, env, f), InstAll(d, env, ts))
    decreases |ts|
  {
    if ts != [] {
      var n := |ts| - 1;
      InstMkApps(d, env, f, ts[..n]);
      InstApp(d, env, MkApps(f, ts[..n]), ts[n]);
      assert InstAll(d, env, ts)[..n] == InstAll(d, env, ts[..n]);
    }
  }

  /** A closure applied is its body under the extended environment. */
  lemma Beta(E: Env, d: nat, env: VEnv, lam: Term, a: Value)
    requires lam.Lam? && EnvOk(d, env, lam)
    ensures Conv(E, App(Inst(d, env, lam), RB(d, a)), Inst(d, Ext(a, env), lam.body))
  {
    var b := Sub(InstL(LevelsOf(env), lam.body), Up(Vals(d, env)));
    InstLam(d, env, lam);
    forall i: nat | Occurs(lam.body, i + 1) ensures Lookup(env, i).Ok? { assert Occurs(lam, i); }
    ValsExt(d, a, env, lam.body);
    ConsBeta(InstL(LevelsOf(env), lam.body), Vals(d, env), RB(d, a));
    BetaStep(E, true, Inst(d, env, lam.dom), b, RB(d, a));
  }

  lemma Zeta(E: Env, d: nat, env: VEnv, t: Term, a: Value)
    requires t.Let? && EnvOk(d, env, t) && Conv(E, Inst(d, env, t.val), RB(d, a))
    ensures Conv(E, Inst(d, env, t), Inst(d, Ext(a, env), t.body))
  {
    var y, v, b := Inst(d, env, t.ty), RB(d, a), Sub(InstL(LevelsOf(env), t.body), Up(Vals(d, env)));
    InstLet(d, env, t);
    forall i: nat | Occurs(t.body, i + 1) ensures Lookup(env, i).Ok? { assert Occurs(t, i); }
    ValsExt(d, a, env, t.body);
    ConsBeta(InstL(LevelsOf(env), t.body), Vals(d, env), v);
    StarRefl(E, true, b);
    StarLet(E, true, y, Inst(d, env, t.val), v, b, b);
    assert IsZeta(Let(y, v, b), Instantiate1(b, v));
    RootStep(E, true, Let(y, v, b), Instantiate1(b, v));
    StarTrans(E, true, Inst(d, env, t), Let(y, v, b), Instantiate1(b, v));
  }

  // ---------------------------------------------------------------- values in scope

  lemma EnvOkSub(d: nat, env: VEnv, t: Term, u: Term)
    requires EnvOk(d, env, t) && forall i: nat :: Occurs(u, i) ==> Occurs(t, i)
    ensures EnvOk(d, env, u)
  {
  }

  lemma EnvOkExt(d: nat, env: VEnv, t: Term, b: Term, a: Value)
    requires EnvOk(d, env, t) && ValOk(d, a)
    requires forall i: nat :: Occurs(b, i + 1) ==> Occurs(t, i)
    ensures EnvOk(d, Ext(a, env), b)
  {
    forall i: nat | Occurs(b, i)
      ensures Lookup(Ext(a, env), i).Ok? && ValOk(d, Lookup(Ext(a, env), i).v)
    {
      if i > 0 {
        var j: nat := i - 1;
        assert Occurs(b, j + 1);
        assert Lookup(Ext(a, env), i) == Lookup(env, j);
      }
    }
  }

  lemma SpinePush(d: nat, h: Term, sp: seq<Elim>, e: Elim)
    ensures Spine(d, h, sp + [e]) == Eliminate(d, Spine(d, h, sp), e)
  {
    assert (sp + [e])[..|sp|] == sp;
  }

  lemma PushOk(d: nat, f: Value, e: Elim)
    requires f.VNeu? && ValOk(d, f) && ElimOk(d, e)
    ensures ValOk(d, Push(f, e)) && RB(d, Push(f, e)) == Eliminate(d, RB(d, f), e)
  {
    SpinePush(d, HeadTerm(d, f.h), f.sp, e);
  }

  ghost function ElimTerms(d: nat, sp: seq<Elim>): (ts: seq<Term>)
    requires NoProj(sp)
    ensures |ts| == |sp| && forall k :: 0 <= k < |sp| ==> ts[k] == RB(d, sp[k].v)
  {
    seq(|sp|, k requires 0 <= k < |sp| => RB(d, sp[k].v))
  }

  lemma {:induction false} SpineArgs(d: nat, h: Term, sp: seq<Elim>)
    requires NoProj(sp)
    ensures Spine(d, h, sp) == MkApps(h, ElimTerms(d, sp))
    decreases |sp|
  {
    if sp != [] {
      var n := |sp| - 1;
      SpineArgs(d, h, sp[..n]);
      assert ElimTerms(d, sp)[..n] == ElimTerms(d, sp[..n]);
    }
  }

  lemma OkElim(d: nat, v: Value, k: nat)
    requires v.VNeu? && ValOk(d, v) && k < |v.sp| && v.sp[k].EApp?
    ensures ValOk(d, v.sp[k].v)
  {
    assert ElimOk(d, v.sp[k]);
  }

  // ---------------------------------------------------------------- application and projection

  /** A result in scope that stands for a term convertible with t, or a failure with no variable astray. */
  ghost predicate Good(E: Env, d: nat, t: Term, r: Res<Value>) {
    match r
    case Ok(v) => ValOk(d, v) && Conv(E, t, RB(d, v))
    case Err(e) => !Astray(e)
  }

  ghost predicate Sound(P: Params) {
    Exact(P.mk)
    && forall s, d: nat :: ValOk(d, P.strv(s)) && Conv(P.E, Lit(StrLit(s)), RB(d, P.strv(s)))
  }

  lemma GoodConv(E: Env, d: nat, t: Term, u: Term, r: Res<Value>)
    requires Good(E, d, u, r) && Conv(E, t, u)
    ensures Good(E, d, t, r)
  {
    if r.Ok? { StarTrans(E, true, t, u, RB(d, r.v)); }
  }

  lemma GoodPush(E: Env, d: nat, f: Value, e: Elim)
    requires f.VNeu? && ValOk(d, f) && ElimOk(d, e)
    ensures Good(E, d, Eliminate(d, RB(d, f), e), Ok(Push(f, e)))
  {
    PushOk(d, f, e);
    StarRefl(E, true, RB(d, Push(f, e)));
  }

  lemma BinopTerm(n: Name, a: nat, b: nat, d: nat)
    requires Binop(n, a, b).Some?
    ensures ValOk(d, Binop(n, a, b).value) && NatBinop(n, a, b) == Some(RB(d, Binop(n, a, b).value))
  {
    var r := Binop(n, a, b).value;
    var t := NatBinop(n, a, b).value;
    if t.Lit? && t.v.NatLit? {
      assert r == VNat(t.v.n);
    } else {
      assert r == VNeu(HConst(t.n, t.ls), []);
    }
  }

  lemma SpineOne(d: nat, h: Term, sp: seq<Elim>)
    requires |sp| == 1 && sp[0].EApp?
    ensures Spine(d, h, sp) == App(h, RB(d, sp[0].v))
  {
    assert sp[..0] == [];
  }

  lemma ApplyNeuSound(E: Env, d: nat, f: Value, a: Value)
    requires f.VNeu? && ValOk(d, f) && ValOk(d, a)
    ensures Good(E, d, App(RB(d, f), RB(d, a)), Ok(ApplyNeu(E, f, a)))
  {
    if a.VNat? && IsCtor(E, f.h) && f.h.n == NAT_SUCC && f.sp == [] {
      StarRefl(E, true, Lit(NatLit(a.n)));
      NatSuccConv(E, Lit(NatLit(a.n)), a.n, f.h.ls);
    } else if a.VNat? && IsDef(E, f.h) && |f.sp| == 1 && f.sp[0].EApp? && f.sp[0].v.VNat?
              && Binop(f.h.n, f.sp[0].v.n, a.n).Some? {
      var x := f.sp[0].v.n;
      BinopTerm(f.h.n, x, a.n, d);
      SpineOne(d, HeadTerm(d, f.h), f.sp);
      StarRefl(E, true, Lit(NatLit(x)));
      StarRefl(E, true, Lit(NatLit(a.n)));
      NatBinopConv(E, f.h.n, f.h.ls, Lit(NatLit(x)), x, Lit(NatLit(a.n)), a.n, RB(d, Binop(f.h.n, x, a.n).value));
    } else {
      GoodPush(E, d, f, EApp(a));
    }
  }

  lemma DoProjNeu(P: Params, d: nat, t: Term, v: Value, s: Name, idx: nat)
    requires v.VNeu? && ValOk(d, v) && Conv(P.E, t, RB(d, v))
    ensures Good(P.E, d, Proj(s, idx, t), DoProj(P, v, s, idx))
  {
    if IsCtor(P.E, v.h) && NoProj(v.sp) && P.E.consts[v.h.n].induct == s
       && P.E.consts[v.h.n].cparams + idx < |v.sp| {
      var k := P.E.consts[v.h.n].cparams + idx;
      OkElim(d, v, k);
      SpineArgs(d, HeadTerm(d, v.h), v.sp);
      ProjConv(P.E, s, idx, t, HeadTerm(d, v.h), ElimTerms(d, v.sp));
    } else {
      StarProj(P.E, true, s, idx, t, RB(d, v));
      GoodPush(P.E, d, v, EProj(s, idx));
      GoodConv(P.E, d, Proj(s, idx, t), Proj(s, idx, RB(d, v)), Ok(Push(v, EProj(s, idx))));
    }
  }

  lemma DoProjSound(P: Params, d: nat, t: Term, v: Value, s: Name, idx: nat)
    requires Sound(P) && ValOk(d, v) && Conv(P.E, t, RB(d, v))
    ensures Good(P.E, d, Proj(s, idx, t), DoProj(P, v, s, idx))
  {
    if v.VStr? {
      var w := P.strv(v.s);
      StarTrans(P.E, true, t, RB(d, v), RB(d, w));
      if w.VNeu? { DoProjNeu(P, d, t, w, s, idx); }
    } else if v.VNeu? {
      DoProjNeu(P, d, t, v, s, idx);
    }
  }

  /** A spine under a constant applies it to arguments only. */
  lemma {:induction false} ConstSpine(d: nat, h: Term, sp: seq<Elim>)
    requires AppFn(h) == h && AppFn(Spine(d, h, sp)).Const?
    ensures NoProj(sp) && AppFn(Spine(d, h, sp)) == h
    decreases |sp|
  {
    if sp != [] {
      var n := |sp| - 1;
      ConstSpine(d, h, sp[..n]);
      assert sp == sp[..n] + [sp[n]];
    }
  }

  lemma ConstRead(d: nat, v: Value)
    requires v.VNeu? && AppFn(RB(d, v)).Const?
    ensures NoProj(v.sp) && AppFn(RB(d, v)) == HeadTerm(d, v.h) && AppArgs(RB(d, v)) == ElimTerms(d, v.sp)
  {
    var h := HeadTerm(d, v.h);
    ConstSpine(d, h, v.sp);
    SpineArgs(d, h, v.sp);
    SpineOf(h, ElimTerms(d, v.sp));
    assert AppArgs(h) == [];
    assert [] + ElimTerms(d, v.sp) == ElimTerms(d, v.sp);
  }

  /** Projecting a field out of a constructor application of the structure gives the field, and nothing is left stuck. */
  lemma DoProjFires(P: Params, d: nat, v: Value, s: Name, idx: nat, b: Term)
    requires v.VNeu? && IsProjStep(P.E, Proj(s, idx, RB(d, v)), b)
    ensures DoProj(P, v, s, idx).Ok? && RB(d, DoProj(P, v, s, idx).v) == b
  {
    hide AppFn, AppArgs, RB;
    ConstRead(d, v);
  }

  // ---------------------------------------------------------------- evaluation

  ghost function ArgTerm(d: nat, a: Arg): Term {
    match a
    case Ready(v) => RB(d, v)
    case Delayed(env, t) => Inst(d, env, t)
  }

  ghost function ArgTerms(d: nat, xs: seq<Arg>): (ts: seq<Term>)
    ensures |ts| == |xs| && forall k :: 0 <= k < |xs| ==> ts[k] == ArgTerm(d, xs[k])
  {
    seq(|xs|, k requires 0 <= k < |xs| => ArgTerm(d, xs[k]))
  }

  ghost predicate ArgOk(d: nat, a: Arg) {
    match a
    case Ready(v) => ValOk(d, v)
    case Delayed(env, t) => EnvOk(d, env, t)
  }

  ghost predicate ArgsOk(d: nat, xs: seq<Arg>) { forall k :: 0 <= k < |xs| ==> ArgOk(d, xs[k]) }

  lemma ArgTermsCons(d: nat, f: Term, xs: seq<Arg>)
    requires xs != []
    ensures MkApps(f, ArgTerms(d, xs)) == MkApps(App(f, ArgTerm(d, xs[0])), ArgTerms(d, xs[1..]))
  {
    MkAppsCons(f, ArgTerm(d, xs[0]), ArgTerms(d, xs[1..]));
    assert ArgTerms(d, xs) == [ArgTerm(d, xs[0])] + ArgTerms(d, xs[1..]);
  }

  lemma KeyVals(mk: Mask, d: nat, env: VEnv, t: Term)
    requires Exact(mk) && EnvOk(d, env, t)
    ensures var ke := KeyEnv(mk, env, t); ke.Ok? && EnvOk(d, ke.v, t) && Inst(d, ke.v, t) == Inst(d, env, t)
  {
    KeyEnvKeeps(mk, env, t);
    var ke := KeyEnv(mk, env, t).v;
    InstLOccurs(LevelsOf(env), t);
    forall i: nat | Occurs(t, i) ensures Vals(d, ke)(i) == Vals(d, env)(i) {}
    SubExt(InstL(LevelsOf(env), t), Vals(d, ke), Vals(d, env));
  }

  lemma {:induction false} EvalSound(P: Params, d: nat, fuel: nat, env: VEnv, t: Term)
    requires Sound(P) && EnvOk(d, env, t)
    ensures Good(P.E, d, Inst(d, env, t), Eval(P, fuel, env, t))
    decreases fuel
  {
    if fuel > 0 {
      if t.BVar? {
        EvalVar(P, d, fuel, env, t.i);
      } else if t.Sort? || t.Const? || t.FVar? || t.Lit? {
        EvalLeaf(P, d, fuel, env, t);
      } else {
        KeyVals(P.mk, d, env, t);
        NodeSound(P, d, fuel - 1, if HasFVar(t) then env else KeyEnv(P.mk, env, t).v, t);
      }
    }
  }

  lemma EvalLeaf(P: Params, d: nat, fuel: nat, env: VEnv, t: Term)
    requires (t.Sort? || t.Const? || t.FVar? || t.Lit?) && fuel > 0
    ensures Good(P.E, d, Inst(d, env, t), Eval(P, fuel, env, t))
  {
    assert RB(d, Eval(P, fuel, env, t).v) == Inst(d, env, t);
    StarRefl(P.E, true, Inst(d, env, t));
  }

  lemma EvalVar(P: Params, d: nat, fuel: nat, env: VEnv, i: nat)
    requires EnvOk(d, env, BVar(i)) && fuel > 0
    ensures Good(P.E, d, Inst(d, env, BVar(i)), Eval(P, fuel, env, BVar(i)))
  {
    assert Occurs(BVar(i), i);
    StarRefl(P.E, true, RB(d, Lookup(env, i).v));
  }

  lemma {:induction false} NodeSound(P: Params, d: nat, fuel: nat, env: VEnv, t: Term)
    requires Sound(P) && EnvOk(d, env, t)
    ensures Good(P.E, d, Inst(d, env, t), Node(P, fuel, env, t))
    decreases fuel
  {
    if fuel > 0 {
      match t
      case Lam(_, _) => StarRefl(P.E, true, Inst(d, env, t));
      case Pi(_, _) => StarRefl(P.E, true, Inst(d, env, t));
      case Let(_, _, _) => LetsSound(P, d, fuel - 1, env, t);
      case Proj(s, i, e) =>
        EnvOkSub(d, env, t, e);
        EvalSound(P, d, fuel - 1, env, e);
        InstProj(d, env, t);
        var v := Eval(P, fuel - 1, env, e);
        if v.Ok? { DoProjSound(P, d, Inst(d, env, e), v.v, s, i); }
      case App(_, _) => SpineSound(P, d, fuel, env, t);
      case _ => EvalSound(P, d, fuel - 1, env, t);
    }
  }

  lemma {:induction false} SpineSound(P: Params, d: nat, fuel: nat, env: VEnv, t: Term)
    requires Sound(P) && EnvOk(d, env, t) && t.App? && fuel > 0
    ensures Good(P.E, d, Inst(d, env, t), Node(P, fuel, env, t))
    decreases fuel, 0
  {
    var h, ts := AppFn(t), AppArgs(t);
    forall i: nat ensures Occurs(h, i) ==> Occurs(t, i) { OccursSpine(t, i); }
    EnvOkSub(d, env, t, h);
    EvalSound(P, d, fuel - 1, env, h);
    var f, xs := Eval(P, fuel - 1, env, h), DelayAll(env, ts);
    forall k | 0 <= k < |xs| ensures ArgOk(d, xs[k]) {
      forall i: nat ensures Occurs(ts[k], i) ==> Occurs(t, i) { OccursSpine(t, i); }
      EnvOkSub(d, env, t, ts[k]);
    }
    SpineSplit(t);
    InstMkApps(d, env, h, ts);
    assert ArgTerms(d, xs) == InstAll(d, env, ts);
    if f.Ok? {
      ApplyAllSound(P, d, fuel - 1, f.v, xs);
      StarHead(P.E, true, Inst(d, env, h), RB(d, f.v), ArgTerms(d, xs));
      GoodConv(P.E, d, Inst(d, env, t), MkApps(RB(d, f.v), ArgTerms(d, xs)), ApplyAll(P, fuel - 1, f.v, xs));
    }
  }

  lemma {:induction false} LetsSound(P: Params, d: nat, fuel: nat, env: VEnv, t: Term)
    requires Sound(P) && EnvOk(d, env, t)
    ensures Good(P.E, d, Inst(d, env, t), Lets(P, fuel, env, t))
    decreases fuel
  {
    if fuel > 0 {
      if !t.Let? {
        EvalSound(P, d, fuel - 1, env, t);
      } else {
        EnvOkSub(d, env, t, t.val);
        EvalSound(P, d, fuel - 1, env, t.val);
        var v := Eval(P, fuel - 1, env, t.val);
        if v.Ok? {
          EnvOkExt(d, env, t, t.body, v.v);
          LetsSound(P, d, fuel - 1, Ext(v.v, env), t.body);
          Zeta(P.E, d, env, t, v.v);
          GoodConv(P.E, d, Inst(d, env, t), Inst(d, Ext(v.v, env), t.body), Lets(P, fuel, env, t));
        }
      }
    }
  }

  lemma {:induction false} TakeSound(P: Params, d: nat, fuel: nat, a: Arg)
    requires Sound(P) && ArgOk(d, a)
    ensures Good(P.E, d, ArgTerm(d, a), Take(P, fuel, a))
    decreases fuel
  {
    match a
    case Ready(v) => StarRefl(P.E, true, RB(d, v));
    case Delayed(env, t) => if fuel > 0 { EvalSound(P, d, fuel - 1, env, t); }
  }

  lemma {:induction false} ApplyAllSound(P: Params, d: nat, fuel: nat, f: Value, xs: seq<Arg>)
    requires Sound(P) && ValOk(d, f) && ArgsOk(d, xs)
    ensures Good(P.E, d, MkApps(RB(d, f), ArgTerms(d, xs)), ApplyAll(P, fuel, f, xs))
    decreases fuel
  {
    if xs == [] {
      StarRefl(P.E, true, RB(d, f));
    } else if fuel > 0 {
      assert ArgOk(d, xs[0]) && ArgsOk(d, xs[1..]);
      TakeSound(P, d, fuel - 1, xs[0]);
      var a := Take(P, fuel - 1, xs[0]);
      if a.Ok? {
        ApplyOneSound(P, d, fuel, f, xs, a.v);
      }
    }
  }

  /** One argument, taken, and then the others. */
  lemma {:induction false} ApplyOneSound(P: Params, d: nat, fuel: nat, f: Value, xs: seq<Arg>, a: Value)
    requires Sound(P) && ValOk(d, f) && xs != [] && ArgsOk(d, xs[1..]) && fuel > 0
    requires Take(P, fuel - 1, xs[0]) == Ok(a) && ValOk(d, a) && Conv(P.E, ArgTerm(d, xs[0]), RB(d, a))
    ensures Good(P.E, d, MkApps(RB(d, f), ArgTerms(d, xs)), ApplyAll(P, fuel, f, xs))
    decreases fuel, 0
  {
    var ts := ArgTerms(d, xs[1..]);
    ArgTermsCons(d, RB(d, f), xs);
    if f.VLam? {
      var lam := Lam(f.dom, f.body);
      EnvOkExt(d, f.env, lam, f.body, a);
      EnterSound(P, d, fuel - 1, Ext(a, f.env), f.body, xs[1..]);
      BetaUnder(P.E, d, f.env, lam, a, ArgTerm(d, xs[0]), ts);
      GoodConv(P.E, d, MkApps(RB(d, f), ArgTerms(d, xs)), MkApps(Inst(d, Ext(a, f.env), f.body), ts),
               ApplyAll(P, fuel, f, xs));
    } else {
      ApplySound(P, d, fuel - 1, f, ArgTerm(d, xs[0]), a);
      var r := Apply(P, fuel - 1, f, a);
      if r.Ok? {
        ApplyAllSound(P, d, fuel - 1, r.v, xs[1..]);
        StarHead(P.E, true, App(RB(d, f), ArgTerm(d, xs[0])), RB(d, r.v), ts);
        GoodConv(P.E, d, MkApps(RB(d, f), ArgTerms(d, xs)), MkApps(RB(d, r.v), ts), ApplyAll(P, fuel, f, xs));
      }
    }
  }

  lemma BetaUnder(E: Env, d: nat, env: VEnv, lam: Term, a: Value, x: Term, ts: seq<Term>)
    requires lam.Lam? && EnvOk(d, env, lam) && Conv(E, x, RB(d, a))
    ensures Conv(E, MkApps(App(Inst(d, env, lam), x), ts), MkApps(Inst(d, Ext(a, env), lam.body), ts))
  {
    var f, r := Inst(d, env, lam), Inst(d, Ext(a, env), lam.body);
    Beta(E, d, env, lam, a);
    StarRefl(E, true, f);
    StarApp(E, true, f, f, x, RB(d, a));
    StarTrans(E, true, App(f, x), App(f, RB(d, a)), r);
    StarHead(E, true, App(f, x), r, ts);
  }

  lemma {:induction false} EnterSound(P: Params, d: nat, fuel: nat, env: VEnv, body: Term, xs: seq<Arg>)
    requires Sound(P) && EnvOk(d, env, body) && ArgsOk(d, xs)
    ensures Good(P.E, d, MkApps(Inst(d, env, body), ArgTerms(d, xs)), Enter(P, fuel, env, body, xs))
    decreases fuel
  {
    if fuel > 0 {
      if xs != [] && body.Lam? {
        assert ArgOk(d, xs[0]) && ArgsOk(d, xs[1..]);
        TakeSound(P, d, fuel - 1, xs[0]);
        var a := Take(P, fuel - 1, xs[0]);
        if a.Ok? {
          EnvOkExt(d, env, body, body.body, a.v);
          EnterSound(P, d, fuel - 1, Ext(a.v, env), body.body, xs[1..]);
          ArgTermsCons(d, Inst(d, env, body), xs);
          BetaUnder(P.E, d, env, body, a.v, ArgTerm(d, xs[0]), ArgTerms(d, xs[1..]));
          GoodConv(P.E, d, MkApps(Inst(d, env, body), ArgTerms(d, xs)),
                   MkApps(Inst(d, Ext(a.v, env), body.body), ArgTerms(d, xs[1..])), Enter(P, fuel, env, body, xs));
        }
      } else {
        EvalSound(P, d, fuel - 1, env, body);
        var r := Eval(P, fuel - 1, env, body);
        if r.Ok? {
          ApplyAllSound(P, d, fuel - 1, r.v, xs);
          StarHead(P.E, true, Inst(d, env, body), RB(d, r.v), ArgTerms(d, xs));
          GoodConv(P.E, d, MkApps(Inst(d, env, body), ArgTerms(d, xs)), MkApps(RB(d, r.v), ArgTerms(d, xs)),
                   Enter(P, fuel, env, body, xs));
        }
      }
    }
  }

  lemma {:induction false} ApplySound(P: Params, d: nat, fuel: nat, f: Value, x: Term, a: Value)
    requires Sound(P) && ValOk(d, f) && ValOk(d, a) && Conv(P.E, x, RB(d, a))
    ensures Good(P.E, d, App(RB(d, f), x), Apply(P, fuel, f, a))
    decreases fuel
  {
    StarRefl(P.E, true, RB(d, f));
    StarApp(P.E, true, RB(d, f), RB(d, f), x, RB(d, a));
    if f.VLam? && fuel > 0 {
      var lam := Lam(f.dom, f.body);
      EnvOkExt(d, f.env, lam, f.body, a);
      EvalSound(P, d, fuel - 1, Ext(a, f.env), f.body);
      Beta(P.E, d, f.env, lam, a);
      GoodConv(P.E, d, App(RB(d, f), RB(d, a)), Inst(d, Ext(a, f.env), f.body), Apply(P, fuel, f, a));
    } else if f.VNeu? {
      ApplyNeuSound(P.E, d, f, a);
    }
    if Apply(P, fuel, f, a).Ok? {
      GoodConv(P.E, d, App(RB(d, f), x), App(RB(d, f), RB(d, a)), Apply(P, fuel, f, a));
    }
  }
}
