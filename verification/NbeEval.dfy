// Evaluation to values (src/nbe.cpp).  Two facts about it: evaluating under an environment cut down to a
// term's variables cannot be told from evaluating under the full one, and the value it returns stands
// for a term convertible with what was evaluated.
module NbeEval {
  import opened Names
  import opened Terms
  import opened Conversion
  import opened NbeModel
  import opened Rules
  import L = Levels

  /** The declarations, the mask memo, and the constructor form of a string literal in weak-head normal form. */
  datatype Params = Params(E: Env, mk: Mask, strv: seq<nat> -> Value)

  /** An argument of an application: a term still to be evaluated, or a value. */
  datatype Arg = Delayed(env: VEnv, t: Term) | Ready(v: Value)

  function InstLevel(s: LSub, l: L.Level): L.Level {
    if s.Levels? && |s.ps| == |s.vs| then L.InstLevel(l, s.ps, s.vs) else l
  }

  function InstLevelList(s: LSub, ls: seq<L.Level>): seq<L.Level> {
    if s.Levels? && |s.ps| == |s.vs| then InstLevels(ls, s.ps, s.vs) else ls
  }

  function Push(v: Value, e: Elim): Value
    requires v.VNeu?
  {
    VNeu(v.h, v.sp + [e])
  }

  predicate IsCtor(E: Env, h: Head) { h.HConst? && h.n in E.consts && E.consts[h.n].Ctor? }

  predicate IsDef(E: Env, h: Head) { h.HConst? && h.n in E.consts && E.consts[h.n].Def? }

  predicate NoProj(sp: seq<Elim>) { forall k :: 0 <= k < |sp| ==> sp[k].EApp? }

  /** A `Nat` primitive on numerals; a power or a shift too large to compute is left alone. */
  function Binop(n: Name, a: nat, b: nat): Option<Value> {
    if (n == NatFn("pow") && b > 0x100_0000) || (n == NatFn("shiftLeft") && b > 0x400_0000) then None
    else match NatBinop(n, a, b)
      case Some(t) =>
        if t.Lit? && t.v.NatLit? then Some(VNat(t.v.n))
        else if t.Const? then Some(VNeu(HConst(t.n, t.ls), []))
        else None
      case None => None
  }

  function ApplyNeu(E: Env, f: Value, a: Value): Value
    requires f.VNeu?
  {
    if !a.VNat? then Push(f, EApp(a))
    else if IsCtor(E, f.h) && f.h.n == NAT_SUCC && f.sp == [] then VNat(a.n + 1)
    else if IsDef(E, f.h) && |f.sp| == 1 && f.sp[0].EApp? && f.sp[0].v.VNat?
            && Binop(f.h.n, f.sp[0].v.n, a.n).Some? then Binop(f.h.n, f.sp[0].v.n, a.n).value
    else Push(f, EApp(a))
  }

  /** A field of a constructor application, or a stuck projection. */
  function DoProj(P: Params, v0: Value, s: Name, idx: nat): Res<Value> {
    var v := if v0.VStr? then P.strv(v0.s) else v0;
    if !v.VNeu? then Err(NotAStructure)
    else if IsCtor(P.E, v.h) && NoProj(v.sp) && P.E.consts[v.h.n].induct == s
            && P.E.consts[v.h.n].cparams + idx < |v.sp| then Ok(v.sp[P.E.consts[v.h.n].cparams + idx].v)
    else Ok(Push(v, EProj(s, idx)))
  }

  function Eval(P: Params, fuel: nat, env: VEnv, t: Term): Res<Value>
    decreases fuel
  {
    if fuel == 0 then Err(OutOfFuel)
    else match t
      case BVar(i) => Lookup(env, i)
      case Sort(l) => Ok(VSort(InstLevel(LevelsOf(env), l)))
      case Const(n, ls) => Ok(VNeu(HConst(n, InstLevelList(LevelsOf(env), ls)), []))
      case FVar(id) => Ok(VNeu(HFVar(id), []))
      case Lit(NatLit(n)) => Ok(VNat(n))
      case Lit(StrLit(s)) => Ok(VStr(s))
      case _ =>
        var ke := if HasFVar(t) then Ok(env) else KeyEnv(P.mk, env, t);
        if ke.Err? then Err(ke.e) else Node(P, fuel - 1, ke.v, t)
  }

  /** What a cache miss computes, under the environment the term is keyed on. */
  function Node(P: Params, fuel: nat, env: VEnv, t: Term): Res<Value>
    decreases fuel
  {
    if fuel == 0 then Err(OutOfFuel)
    else match t
      case Lam(d, b) => Ok(VLam(d, env, b))
      case Pi(d, b) => Ok(VPi(d, env, b))
      case Let(_, _, _) => Lets(P, fuel - 1, env, t)
      case Proj(s, i, e) =>
        var v := Eval(P, fuel - 1, env, e);
        if v.Err? then v else DoProj(P, v.v, s, i)
      case App(_, _) =>
        var f := Eval(P, fuel - 1, env, AppFn(t));
        if f.Err? then f else ApplyAll(P, fuel - 1, f.v, DelayAll(env, AppArgs(t)))
      case _ => Eval(P, fuel - 1, env, t)
  }

  function DelayAll(env: VEnv, ts: seq<Term>): seq<Arg> {
    seq(|ts|, k requires 0 <= k < |ts| => Delayed(env, ts[k]))
  }

  function Lets(P: Params, fuel: nat, env: VEnv, t: Term): Res<Value>
    decreases fuel
  {
    if fuel == 0 then Err(OutOfFuel)
    else if !t.Let? then Eval(P, fuel - 1, env, t)
    else
      var v := Eval(P, fuel - 1, env, t.val);
      if v.Err? then v else Lets(P, fuel - 1, Ext(v.v, env), t.body)
  }

  function Take(P: Params, fuel: nat, a: Arg): Res<Value>
    decreases fuel
  {
    match a
    case Ready(v) => Ok(v)
    case Delayed(env, t) => if fuel == 0 then Err(OutOfFuel) else Eval(P, fuel - 1, env, t)
  }

  /** All the arguments in turn; a lambda takes as many as it has binders before its body is evaluated. */
  function ApplyAll(P: Params, fuel: nat, f: Value, args: seq<Arg>): Res<Value>
    decreases fuel
  {
    if args == [] then Ok(f)
    else if fuel == 0 then Err(OutOfFuel)
    else
      var a := Take(P, fuel - 1, args[0]);
      if a.Err? then a
      else if f.VLam? then Enter(P, fuel - 1, Ext(a.v, f.env), f.body, args[1..])
      else
        var r := Apply(P, fuel - 1, f, a.v);
        if r.Err? then r else ApplyAll(P, fuel - 1, r.v, args[1..])
  }

  function Enter(P: Params, fuel: nat, env: VEnv, body: Term, args: seq<Arg>): Res<Value>
    decreases fuel
  {
    if fuel == 0 then Err(OutOfFuel)
    else if args != [] && body.Lam? then
      var a := Take(P, fuel - 1, args[0]);
      if a.Err? then a else Enter(P, fuel - 1, Ext(a.v, env), body.body, args[1..])
    else
      var r := Eval(P, fuel - 1, env, body);
      if r.Err? then r else ApplyAll(P, fuel - 1, r.v, args)
  }

  function Apply(P: Params, fuel: nat, f: Value, a: Value): Res<Value>
    decreases fuel
  {
    match f
    case VLam(_, env, body) => if fuel == 0 then Err(OutOfFuel) else Eval(P, fuel - 1, Ext(a, env), body)
    case VNeu(_, _) => Ok(ApplyNeu(P.E, f, a))
    case _ => Err(NotAFunction)
  }

  // ---------------------------------------------------------------- pruning cannot be seen

  /** Both fail alike, with no variable astray, or both return, with equivalent values. */
  ghost predicate ResEq(r: Res<Value>, s: Res<Value>) {
    match r
    case Ok(v) => s.Ok? && VEq(v, s.v)
    case Err(e) => s == r && !Astray(e)
  }

  ghost predicate ArgEq(a: Arg, b: Arg) {
    match a
    case Ready(v) => b.Ready? && VEq(v, b.v)
    case Delayed(env, t) => b.Delayed? && b.t == t && EnvEq(env, b.env, t)
  }

  ghost predicate ArgsEq(xs: seq<Arg>, ys: seq<Arg>) {
    |xs| == |ys| && forall k :: 0 <= k < |xs| ==> ArgEq(xs[k], ys[k])
  }

  /** The same parameters but for the mask memo, which is exact in both. */
  ghost predicate Like(P: Params, Q: Params) {
    Q == P.(mk := Q.mk) && Exact(P.mk) && Exact(Q.mk) && forall s :: VEq(P.strv(s), P.strv(s))
  }

  lemma EnvEqSub(env: VEnv, env': VEnv, t: Term, u: Term)
    requires EnvEq(env, env', t) && forall i: nat :: Occurs(u, i) ==> Occurs(t, i)
    ensures EnvEq(env, env', u)
  {
  }

  /** Going under a binder. */
  lemma EnvEqExt(env: VEnv, env': VEnv, t: Term, b: Term, a: Value, a': Value)
    requires EnvEq(env, env', t) && VEq(a, a')
    requires forall i: nat :: Occurs(b, i + 1) ==> Occurs(t, i)
    ensures EnvEq(Ext(a, env), Ext(a', env'), b)
  {
    forall i: nat | Occurs(b, i)
      ensures Lookup(Ext(a, env), i).Ok? && Lookup(Ext(a', env'), i).Ok?
              && VEq(Lookup(Ext(a, env), i).v, Lookup(Ext(a', env'), i).v)
    {
      if i > 0 {
        var j: nat := i - 1;
        assert Occurs(b, j + 1);
        assert Lookup(Ext(a, env), i) == Lookup(env, j) && Lookup(Ext(a', env'), i) == Lookup(env', j);
      }
    }
  }

  lemma OccursSpine(t: Term, i: nat)
    ensures Occurs(AppFn(t), i) ==> Occurs(t, i)
    ensures forall k :: 0 <= k < |AppArgs(t)| && Occurs(AppArgs(t)[k], i) ==> Occurs(t, i)
  {
    SpineSplit(t);
    OccursMkApps(AppFn(t), AppArgs(t), i);
  }

  lemma PushEq(f: Value, g: Value, e: Elim, e': Elim)
    requires f.VNeu? && VEq(f, g) && ElimEq(e, e')
    ensures VEq(Push(f, e), Push(g, e'))
  {
  }

  lemma BinopRefl(n: Name, a: nat, b: nat)
    requires Binop(n, a, b).Some?
    ensures VEq(Binop(n, a, b).value, Binop(n, a, b).value)
  {
    var r := Binop(n, a, b).value;
    assert r.VNat? || (r.VNeu? && r.sp == []);
  }

  lemma NatElim(e: Elim, f: Elim)
    requires ElimEq(e, f)
    ensures e.EApp? && e.v.VNat? ==> f == e
    ensures f.EApp? && f.v.VNat? ==> f == e
  {
    if e.EApp? && e.v.VNat? { assert f == EApp(f.v) && f.v == e.v; }
    if f.EApp? && f.v.VNat? { assert VEq(e.v, f.v) && e.v == f.v; }
  }

  lemma ApplyNeuAgree(E: Env, f: Value, g: Value, a: Value, b: Value)
    requires f.VNeu? && VEq(f, g) && VEq(a, b)
    ensures VEq(ApplyNeu(E, f, a), ApplyNeu(E, g, b))
  {
    PushEq(f, g, EApp(a), EApp(b));
    if a.VNat? {
      assert b == a;
      if |f.sp| == 1 {
        assert ElimEq(f.sp[0], g.sp[0]);
        NatElim(f.sp[0], g.sp[0]);
        if f.sp[0].EApp? && f.sp[0].v.VNat? {
          if IsDef(E, f.h) && Binop(f.h.n, f.sp[0].v.n, a.n).Some? { BinopRefl(f.h.n, f.sp[0].v.n, a.n); }
        }
      }
    }
  }

  lemma DoProjAgree(P: Params, Q: Params, v: Value, w: Value, s: Name, idx: nat)
    requires Like(P, Q) && VEq(v, w)
    ensures ResEq(DoProj(P, v, s, idx), DoProj(Q, w, s, idx))
  {
    var v', w' := if v.VStr? then P.strv(v.s) else v, if w.VStr? then Q.strv(w.s) else w;
    assert VEq(v', w');
    if v'.VNeu? {
      PushEq(v', w', EProj(s, idx), EProj(s, idx));
      assert NoProj(v'.sp) <==> NoProj(w'.sp) by {
        forall k | 0 <= k < |v'.sp| ensures v'.sp[k].EApp? <==> w'.sp[k].EApp? { assert ElimEq(v'.sp[k], w'.sp[k]); }
      }
      if IsCtor(P.E, v'.h) && P.E.consts[v'.h.n].cparams + idx < |v'.sp| {
        var k := P.E.consts[v'.h.n].cparams + idx;
        assert ElimEq(v'.sp[k], w'.sp[k]);
      }
    }
  }

  lemma {:induction false} EvalAgree(P: Params, Q: Params, fuel: nat, env: VEnv, env': VEnv, t: Term)
    requires Like(P, Q) && EnvEq(env, env', t)
    ensures ResEq(Eval(P, fuel, env, t), Eval(Q, fuel, env', t))
    decreases fuel
  {
    if fuel > 0 {
      match t
      case BVar(i) => assert Occurs(t, i);
      case Sort(_) =>
      case Const(_, _) =>
      case FVar(_) =>
      case Lit(_) =>
      case _ =>
        KeyEnvKeeps(P.mk, env, t);
        KeyEnvKeeps(Q.mk, env', t);
        var ke := if HasFVar(t) then env else KeyEnv(P.mk, env, t).v;
        var ke' := if HasFVar(t) then env' else KeyEnv(Q.mk, env', t).v;
        assert EnvEq(ke, ke', t);
        NodeAgree(P, Q, fuel - 1, ke, ke', t);
    }
  }

  lemma {:induction false} NodeAgree(P: Params, Q: Params, fuel: nat, env: VEnv, env': VEnv, t: Term)
    requires Like(P, Q) && EnvEq(env, env', t)
    ensures ResEq(Node(P, fuel, env, t), Node(Q, fuel, env', t))
    decreases fuel
  {
    if fuel > 0 {
      match t
      case Lam(_, _) =>
      case Pi(_, _) =>
      case Let(_, _, _) => LetsAgree(P, Q, fuel - 1, env, env', t);
      case Proj(s, i, e) =>
        EnvEqSub(env, env', t, e);
        EvalAgree(P, Q, fuel - 1, env, env', e);
        var v, w := Eval(P, fuel - 1, env, e), Eval(Q, fuel - 1, env', e);
        if v.Ok? { DoProjAgree(P, Q, v.v, w.v, s, i); }
      case App(_, _) => SpineAgree(P, Q, fuel, env, env', t);
      case _ => EvalAgree(P, Q, fuel - 1, env, env', t);
    }
  }

  lemma {:induction false} SpineAgree(P: Params, Q: Params, fuel: nat, env: VEnv, env': VEnv, t: Term)
    requires Like(P, Q) && EnvEq(env, env', t) && t.App? && fuel > 0
    ensures ResEq(Node(P, fuel, env, t), Node(Q, fuel, env', t))
    decreases fuel, 0
  {
    forall i: nat ensures Occurs(AppFn(t), i) ==> Occurs(t, i) { OccursSpine(t, i); }
    EnvEqSub(env, env', t, AppFn(t));
    EvalAgree(P, Q, fuel - 1, env, env', AppFn(t));
    var f, g := Eval(P, fuel - 1, env, AppFn(t)), Eval(Q, fuel - 1, env', AppFn(t));
    var xs, ys := DelayAll(env, AppArgs(t)), DelayAll(env', AppArgs(t));
    forall k | 0 <= k < |xs| ensures ArgEq(xs[k], ys[k]) {
      forall i: nat ensures Occurs(AppArgs(t)[k], i) ==> Occurs(t, i) { OccursSpine(t, i); }
      EnvEqSub(env, env', t, AppArgs(t)[k]);
    }
    if f.Ok? { ApplyAllAgree(P, Q, fuel - 1, f.v, g.v, xs, ys); }
  }

  lemma {:induction false} LetsAgree(P: Params, Q: Params, fuel: nat, env: VEnv, env': VEnv, t: Term)
    requires Like(P, Q) && EnvEq(env, env', t)
    ensures ResEq(Lets(P, fuel, env, t), Lets(Q, fuel, env', t))
    decreases fuel
  {
    if fuel > 0 {
      if !t.Let? {
        EvalAgree(P, Q, fuel - 1, env, env', t);
      } else {
        EnvEqSub(env, env', t, t.val);
        EvalAgree(P, Q, fuel - 1, env, env', t.val);
        var v, w := Eval(P, fuel - 1, env, t.val), Eval(Q, fuel - 1, env', t.val);
        if v.Ok? {
          EnvEqExt(env, env', t, t.body, v.v, w.v);
          LetsAgree(P, Q, fuel - 1, Ext(v.v, env), Ext(w.v, env'), t.body);
        }
      }
    }
  }

  lemma {:induction false} TakeAgree(P: Params, Q: Params, fuel: nat, a: Arg, b: Arg)
    requires Like(P, Q) && ArgEq(a, b)
    ensures ResEq(Take(P, fuel, a), Take(Q, fuel, b))
    decreases fuel
  {
    if a.Delayed? && fuel > 0 { EvalAgree(P, Q, fuel - 1, a.env, b.env, a.t); }
  }

  lemma {:induction false} ApplyAllAgree(P: Params, Q: Params, fuel: nat, f: Value, g: Value,
                                         xs: seq<Arg>, ys: seq<Arg>)
    requires Like(P, Q) && VEq(f, g) && ArgsEq(xs, ys)
    ensures ResEq(ApplyAll(P, fuel, f, xs), ApplyAll(Q, fuel, g, ys))
    decreases fuel
  {
    if xs != [] && fuel > 0 {
      TakeAgree(P, Q, fuel - 1, xs[0], ys[0]);
      var a, b := Take(P, fuel - 1, xs[0]), Take(Q, fuel - 1, ys[0]);
      assert ArgsEq(xs[1..], ys[1..]);
      if a.Ok? {
        if f.VLam? {
          EnvEqExt(f.env, g.env, Lam(f.dom, f.body), f.body, a.v, b.v);
          EnterAgree(P, Q, fuel - 1, Ext(a.v, f.env), Ext(b.v, g.env), f.body, xs[1..], ys[1..]);
        } else {
          ApplyAgree(P, Q, fuel - 1, f, g, a.v, b.v);
          var r, s := Apply(P, fuel - 1, f, a.v), Apply(Q, fuel - 1, g, b.v);
          if r.Ok? { ApplyAllAgree(P, Q, fuel - 1, r.v, s.v, xs[1..], ys[1..]); }
        }
      }
    }
  }

  lemma {:induction false} EnterAgree(P: Params, Q: Params, fuel: nat, env: VEnv, env': VEnv, body: Term,
                                      xs: seq<Arg>, ys: seq<Arg>)
    requires Like(P, Q) && EnvEq(env, env', body) && ArgsEq(xs, ys)
    ensures ResEq(Enter(P, fuel, env, body, xs), Enter(Q, fuel, env', body, ys))
    decreases fuel
  {
    if fuel > 0 {
      if xs != [] && body.Lam? {
        TakeAgree(P, Q, fuel - 1, xs[0], ys[0]);
        var a, b := Take(P, fuel - 1, xs[0]), Take(Q, fuel - 1, ys[0]);
        if a.Ok? {
          EnvEqExt(env, env', body, body.body, a.v, b.v);
          EnterAgree(P, Q, fuel - 1, Ext(a.v, env), Ext(b.v, env'), body.body, xs[1..], ys[1..]);
        }
      } else {
        EvalAgree(P, Q, fuel - 1, env, env', body);
        var r, s := Eval(P, fuel - 1, env, body), Eval(Q, fuel - 1, env', body);
        if r.Ok? { ApplyAllAgree(P, Q, fuel - 1, r.v, s.v, xs, ys); }
      }
    }
  }

  lemma {:induction false} ApplyAgree(P: Params, Q: Params, fuel: nat, f: Value, g: Value, a: Value, b: Value)
    requires Like(P, Q) && VEq(f, g) && VEq(a, b)
    ensures ResEq(Apply(P, fuel, f, a), Apply(Q, fuel, g, b))
    decreases fuel
  {
    if f.VLam? && fuel > 0 {
      EnvEqExt(f.env, g.env, Lam(f.dom, f.body), f.body, a, b);
      EvalAgree(P, Q, fuel - 1, Ext(a, f.env), Ext(b, g.env), f.body);
    } else if f.VNeu? {
      ApplyNeuAgree(P.E, f, g, a, b);
    }
  }

  function NoMask(t: Term): Option<set<nat>> { None }

  /**
   * Pruning is invisible: evaluating under the pruned environment, with everything pruned on the way,
   * gives what evaluating under the full environments gives, up to equivalence of values, and no
   * variable is ever outside its frame.
   */
  lemma PruningInvisible(P: Params, fuel: nat, env: VEnv, t: Term)
    requires Exact(P.mk) && EnvEq(env, env, t) && forall s :: VEq(P.strv(s), P.strv(s))
    ensures KeyEnv(P.mk, env, t).Ok?
    ensures ResEq(Eval(P, fuel, KeyEnv(P.mk, env, t).v, t), Eval(P.(mk := NoMask), fuel, env, t))
  {
    KeyEnvKeeps(P.mk, env, t);
    EvalAgree(P, P.(mk := NoMask), fuel, KeyEnv(P.mk, env, t).v, env, t);
  }
}
