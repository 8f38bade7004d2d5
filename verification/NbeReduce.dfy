// Weak-head reduction of values is sound, and with it the whole of normalisation by evaluation.
module NbeReduce {
  import opened Names
  import opened Terms
  import opened Conversion
  import opened NbeModel
  import opened NbeEval
  import opened NbeSound
  import opened NbeWhnf
  import opened NbeNormal
  import opened Rules
  import L = Levels

  /**
   * Fusion and the machine do what `Fusion.FuseTerm` and `LazyMachine.Machine.Whnf` promise, and the typing
   * oracles answer with convertible values.
   */
  ghost predicate SoundEngine(W: Engine) {
    Sound(W.P) && ClosedDecls(W.P.E)
    && (forall q {:trigger W.fuse(q)} :: Closed(q) ==> Closed(W.fuse(q)) && Reds(W.P.E, q, W.fuse(q)))
    && (forall q {:trigger W.machine(q)} :: Closed(q) && W.machine(q).Some? ==>
          Closed(W.machine(q).value) && Conv(W.P.E, q, W.machine(q).value))
    && (forall d: nat, n, v :: ValOk(d, v) && W.kCtor(d, n, v).Some? ==>
          ValOk(d, W.kCtor(d, n, v).value) && Conv(W.P.E, RB(d, v), RB(d, W.kCtor(d, n, v).value)))
    && (forall d: nat, n, v :: ValOk(d, v) ==>
          ValOk(d, W.structCtor(d, n, v)) && Conv(W.P.E, RB(d, v), RB(d, W.structCtor(d, n, v))))
  }

  ghost predicate GoodStep(E: Env, d: nat, t: Term, r: Res<Option<Value>>) {
    match r
    case Ok(o) => o.Some? ==> ValOk(d, o.value) && Conv(E, t, RB(d, o.value))
    case Err(e) => !Astray(e)
  }

  lemma SteppedGood(E: Env, d: nat, t: Term, u: Term, r: Res<Value>)
    requires Conv(E, t, u) && Good(E, d, u, r)
    ensures GoodStep(E, d, t, Stepped(r))
  {
    GoodConv(E, d, t, u, r);
  }

  lemma {:induction false} InstLParamsNone(t: Term, ps: seq<Name>, vs: seq<L.Level>)
    requires |ps| == |vs| && !HasLParam(t)
    ensures InstLParams(t, ps, vs) == t
  {
    match t
    case Const(_, ls) => assert InstLevels(ls, ps, vs) == ls;
    case App(f, x) => InstLParamsNone(f, ps, vs); InstLParamsNone(x, ps, vs);
    case Lam(d, b) => InstLParamsNone(d, ps, vs); InstLParamsNone(b, ps, vs);
    case Pi(d, b) => InstLParamsNone(d, ps, vs); InstLParamsNone(b, ps, vs);
    case Let(y, v, b) => InstLParamsNone(y, ps, vs); InstLParamsNone(v, ps, vs); InstLParamsNone(b, ps, vs);
    case Proj(_, _, e) => InstLParamsNone(e, ps, vs);
    case _ =>
  }

  lemma RootInst(d: nat, root: VEnv, t: Term)
    requires root.Root? && Closed(t)
    ensures EnvOk(d, root, t) && Inst(d, root, t) == InstL(root.ls, t)
  {
    RangeExact(t);
    InstLOccurs(root.ls, t);
    ClosedSub(InstL(root.ls, t), Vals(d, root));
  }

  /** A closed declaration's term under the root made for it. */
  lemma InstRootTerm(d: nat, ps: seq<Name>, ls: seq<L.Level>, t: Term)
    requires |ps| == |ls| && Closed(t)
    ensures EnvOk(d, InstRoot(ps, ls), t) && Inst(d, InstRoot(ps, ls), t) == InstantiateLParams(t, ps, ls)
  {
    RootInst(d, InstRoot(ps, ls), t);
    if !HasLParam(t) { InstLParamsNone(t, ps, ls); }
  }

  lemma UnfoldedGood(P: Params, d: nat, fuel: nat, h: Term, root: VEnv, t: Term, sp: seq<Elim>)
    requires Sound(P) && EnvOk(d, root, t) && ElimsOk(d, sp) && Conv(P.E, h, Inst(d, root, t))
    ensures GoodStep(P.E, d, Spine(d, h, sp), Unfolded(P, fuel, root, t, sp))
  {
    EvalSound(P, d, fuel, root, t);
    GoodConv(P.E, d, h, Inst(d, root, t), Eval(P, fuel, root, t));
    ElimsTo(P, d, fuel, h, Eval(P, fuel, root, t), sp);
  }

  lemma DeltaConv(E: Env, h: Term, d: nat)
    requires h.Const? && h.n in E.consts && E.consts[h.n].Def? && |h.ls| == |E.consts[h.n].dparams|
    requires ClosedDecls(E)
    ensures var c := E.consts[h.n];
            EnvOk(d, InstRoot(c.dparams, h.ls), c.value) && Conv(E, h, Inst(d, InstRoot(c.dparams, h.ls), c.value))
  {
    var c := E.consts[h.n];
    InstRootTerm(d, c.dparams, h.ls, c.value);
    var u := InstantiateLParams(c.value, c.dparams, h.ls);
    assert IsDelta(E, h, u);
    RootStep(E, true, h, u);
  }

  lemma LetVarConv(E: Env, id: nat, d: nat)
    requires id in E.lets && ClosedDecls(E)
    ensures EnvOk(d, GROOT, E.lets[id]) && Conv(E, FVar(id), Inst(d, GROOT, E.lets[id]))
  {
    RootInst(d, GROOT, E.lets[id]);
    assert IsLetVar(E, FVar(id), E.lets[id]);
    RootStep(E, true, FVar(id), E.lets[id]);
  }

  lemma MachineSound(W: Engine, fuel: nat, d: nat, v: Value)
    requires SoundEngine(W) && ValOk(d, v) && ClosedVal(v)
    ensures GoodStep(W.P.E, d, RB(d, v), MachineStep(W, fuel, v))
  {
    ClosedScope(d, v);
    QuoteSound(W.P, fuel, 0, v);
    var q := Quote(W.P, fuel, 0, v);
    if q.Ok? && W.machine(W.fuse(q.v)).Some? {
      var r := W.machine(W.fuse(q.v)).value;
      RedsConv(W.P.E, q.v, W.fuse(q.v));
      StarTrans(W.P.E, true, q.v, W.fuse(q.v), r);
      RootInst(d, GROOT, r);
      EvalSound(W.P, d, fuel, GROOT, r);
      DepthFree(d, v);
      StarTrans(W.P.E, true, RB(0, v), q.v, r);
      SteppedGood(W.P.E, d, RB(d, v), r, Eval(W.P, fuel, GROOT, r));
    }
  }

  /** A value in scope at depth zero reads back the same at every depth. */
  lemma {:induction false} DepthFree(d: nat, v: Value)
    requires ValOk(0, v)
    ensures ValOk(d, v) && RB(d, v) == RB(0, v) && Range(RB(0, v)) == 0
    decreases d
  {
    ScopeRange(0, v);
    if d > 0 {
      DepthFree(d - 1, v);
      ValOkUp(d - 1, v);
      RBShift(d - 1, v);
      ClosedRen(RB(0, v), Plus(1));
    }
  }

  lemma {:induction false} ScopeRange(d: nat, v: Value)
    requires ValOk(d, v)
    ensures Range(RB(d, v)) <= d
    decreases v, 2
  {
    match v
    case VNeu(h, sp) => SpineRange(d, HeadTerm(d, h), sp);
    case VLam(dom, env, body) => InstRange(d, env, Lam(dom, body));
    case VPi(dom, env, body) => InstRange(d, env, Pi(dom, body));
    case _ =>
  }

  lemma {:induction false} SpineRange(d: nat, h: Term, sp: seq<Elim>)
    requires Range(h) <= d && forall k :: 0 <= k < |sp| ==> ElimOk(d, sp[k])
    ensures Range(Spine(d, h, sp)) <= d
    decreases sp
  {
    if sp != [] {
      var n := |sp| - 1;
      SpineRange(d, h, sp[..n]);
      ElimRange(d, Spine(d, h, sp[..n]), sp[n]);
    }
  }

  lemma {:induction false} ElimRange(d: nat, t: Term, e: Elim)
    requires Range(t) <= d && ElimOk(d, e)
    ensures Range(Eliminate(d, t, e)) <= d
    decreases e, 3
  {
    if e.EApp? { ScopeRange(d, e.v); }
  }

  lemma {:induction false} InstRange(d: nat, env: VEnv, t: Term)
    requires EnvOk(d, env, t)
    ensures Range(Inst(d, env, t)) <= d
    decreases env
  {
    var u, r := InstL(LevelsOf(env), t), Inst(d, env, t);
    InstLOccurs(LevelsOf(env), t);
    RangeExact(r);
    if Range(r) > 0 {
      OccursSub(u, Vals(d, env), Range(r) - 1);
      var j: nat :| Occurs(u, j) && Occurs(Vals(d, env)(j), Range(r) - 1);
      ScopeRange(d, Lookup(env, j).v);
      RangeExact(RB(d, Lookup(env, j).v));
    }
  }

  // ---------------------------------------------------------------- primitives

  lemma NumeralZero(E: Env, d: nat, t: Term, v: Value)
    requires v.VNeu? && v.h.HConst? && v.h.n == NAT_ZERO && v.sp == [] && Conv(E, t, RB(d, v))
    ensures Conv(E, t, Lit(NatLit(0)))
  {
    NatLitConv(E, 0, v.h.ls);
    assert RB(d, v) == Const(NAT_ZERO, v.h.ls);
    ConvSym(E, Lit(NatLit(0)), RB(d, v));
    StarTrans(E, true, t, RB(d, v), Lit(NatLit(0)));
  }

  lemma NumeralSucc(E: Env, d: nat, t: Term, v: Value, n: nat)
    requires v.VNeu? && v.h.HConst? && v.h.n == NAT_SUCC && |v.sp| == 1 && v.sp[0].EApp?
    requires Conv(E, t, RB(d, v)) && Conv(E, RB(d, v.sp[0].v), Lit(NatLit(n)))
    ensures Conv(E, t, Lit(NatLit(n + 1)))
  {
    SpineOne(d, HeadTerm(d, v.h), v.sp);
    NatSuccConv(E, RB(d, v.sp[0].v), n, v.h.ls);
    StarTrans(E, true, t, RB(d, v), Lit(NatLit(n + 1)));
  }

  ghost predicate GoodNat(E: Env, t: Term, r: Res<Option<nat>>) {
    match r
    case Ok(o) => o.Some? ==> Conv(E, t, Lit(NatLit(o.value)))
    case Err(e) => !Astray(e)
  }

  lemma {:induction false} AsNatSound(W: Engine, fuel: nat, d: nat, v: Value)
    requires SoundEngine(W) && ValOk(d, v)
    ensures GoodNat(W.P.E, RB(d, v), AsNat(W, fuel, d, v))
    decreases fuel, 2
  {
    WhnfSound(W, fuel, d, v);
    var w := Whnf(W, fuel, d, v);
    if w.Ok? && w.v.VNeu? && IsCtor(W.P.E, w.v.h) {
      if w.v.h.n == NAT_ZERO && w.v.sp == [] {
        NumeralZero(W.P.E, d, RB(d, v), w.v);
      } else if w.v.h.n == NAT_SUCC && |w.v.sp| == 1 && w.v.sp[0].EApp? && fuel > 0 {
        OkElim(d, w.v, 0);
        AsNatSound(W, fuel - 1, d, w.v.sp[0].v);
        var n := AsNat(W, fuel - 1, d, w.v.sp[0].v);
        if n.Ok? && n.v.Some? { NumeralSucc(W.P.E, d, RB(d, v), w.v, n.v.value); }
      }
    }
  }

  lemma SpineTwo(d: nat, h: Term, sp: seq<Elim>)
    requires |sp| == 2 && sp[0].EApp? && sp[1].EApp?
    ensures Spine(d, h, sp) == App(App(h, RB(d, sp[0].v)), RB(d, sp[1].v))
  {
    SpineOne(d, h, sp[..1]);
  }

  lemma {:induction false} NatPrimitiveSound(W: Engine, fuel: nat, d: nat, v: Value)
    requires SoundEngine(W) && ValOk(d, v) && v.VNeu? && v.h.HConst?
    ensures GoodStep(W.P.E, d, RB(d, v), NatPrimitive(W, fuel, d, v))
    decreases fuel, 3
  {
    if |v.sp| == 2 && v.sp[0].EApp? && v.sp[1].EApp? {
      OkElim(d, v, 0);
      OkElim(d, v, 1);
      AsNatSound(W, fuel, d, v.sp[0].v);
      AsNatSound(W, fuel, d, v.sp[1].v);
      var r := NatPrimitive(W, fuel, d, v);
      if r.Ok? && r.v.Some? {
        var x, y := AsNat(W, fuel, d, v.sp[0].v).v.value, AsNat(W, fuel, d, v.sp[1].v).v.value;
        PrimitiveConv(W.P.E, d, v, x, y);
      }
    }
  }

  lemma PrimitiveConv(E: Env, d: nat, v: Value, x: nat, y: nat)
    requires v.VNeu? && v.h.HConst? && |v.sp| == 2 && v.sp[0].EApp? && v.sp[1].EApp?
    requires Conv(E, RB(d, v.sp[0].v), Lit(NatLit(x))) && Conv(E, RB(d, v.sp[1].v), Lit(NatLit(y)))
    requires Binop(v.h.n, x, y).Some?
    ensures ValOk(d, Binop(v.h.n, x, y).value) && Conv(E, RB(d, v), RB(d, Binop(v.h.n, x, y).value))
  {
    SpineTwo(d, HeadTerm(d, v.h), v.sp);
    BinopTerm(v.h.n, x, y, d);
    NatBinopConv(E, v.h.n, v.h.ls, RB(d, v.sp[0].v), x, RB(d, v.sp[1].v), y, RB(d, Binop(v.h.n, x, y).value));
  }

  lemma {:induction false} UnfoldSound(W: Engine, fuel: nat, d: nat, v: Value)
    requires SoundEngine(W) && ValOk(d, v) && v.VNeu? && IsDef(W.P.E, v.h)
    ensures GoodStep(W.P.E, d, RB(d, v), Unfold(W, fuel, d, v))
    decreases fuel, 4
  {
    NatPrimitiveSound(W, fuel, d, v);
    var c := W.P.E.consts[v.h.n];
    if |c.dparams| == |v.h.ls| {
      DeltaConv(W.P.E, HeadTerm(d, v.h), d);
      UnfoldedGood(W.P, d, fuel, HeadTerm(d, v.h), InstRoot(c.dparams, v.h.ls), c.value, v.sp);
    }
  }

  // ---------------------------------------------------------------- recursors and quotients

  lemma NatToCtorConv(E: Env, d: nat, n: nat)
    ensures ValOk(d, NatToCtor(n)) && Conv(E, Lit(NatLit(n)), RB(d, NatToCtor(n)))
  {
    NatLitConv(E, n, []);
    if n > 0 { SpineOne(d, Const(NAT_SUCC, []), NatToCtor(n).sp); }
  }

  lemma {:induction false} MajorSound(W: Engine, fuel: nat, d: nat, n: Name, v: Value)
    requires SoundEngine(W) && ValOk(d, v) && n in W.P.E.consts && W.P.E.consts[n].Rec?
    ensures Good(W.P.E, d, RB(d, v), Major(W, fuel, d, n, v))
    decreases fuel, 3
  {
    var rec := W.P.E.consts[n];
    var kc := if rec.k then W.kCtor(d, n, v) else None;
    var m := if kc.Some? then kc.value else v;
    StarRefl(W.P.E, true, RB(d, v));
    WhnfSound(W, fuel, d, m);
    GoodConv(W.P.E, d, RB(d, v), RB(d, m), Whnf(W, fuel, d, m));
    var w := Whnf(W, fuel, d, m);
    if w.Ok? {
      if w.v.VNat? {
        NatToCtorConv(W.P.E, d, w.v.n);
        StarTrans(W.P.E, true, RB(d, v), RB(d, w.v), RB(d, NatToCtor(w.v.n)));
      } else if w.v.VStr? {
        StarTrans(W.P.E, true, RB(d, v), RB(d, w.v), RB(d, W.P.strv(w.v.s)));
      } else {
        StarTrans(W.P.E, true, RB(d, v), RB(d, w.v), RB(d, W.structCtor(d, rec.majorInduct, w.v)));
      }
    }
  }

  /** What a rule makes of the arguments before the indices and the constructor's fields. */
  ghost function RuleSpine(d: nat, rec: ConstInfo, ls: seq<L.Level>, rule: RecRule, es: seq<Elim>, ms: seq<Elim>): Term
    requires rec.Rec? && |rec.rparams| == |ls| && FirstIndex(rec) <= |es| && rule.nfields <= |ms|
  {
    Spine(d, Spine(d, InstantiateLParams(rule.rhs, rec.rparams, ls), es[..FirstIndex(rec)]), ms[|ms| - rule.nfields..])
  }

  /** The fired rule, step by step: its right-hand side, then the arguments, the fields and the rest. */
  lemma FireSound(P: Params, d: nat, fuel: nat, rec: ConstInfo, ls: seq<L.Level>, rule: RecRule, es: seq<Elim>,
                  ms: seq<Elim>)
    requires Sound(P) && rec.Rec? && |rec.rparams| == |ls| && MajorIdx(rec) < LeadingApps(es)
    requires NoProj(ms) && rule.nfields <= |ms| && Closed(rule.rhs) && ElimsOk(d, es) && ElimsOk(d, ms)
    ensures GoodStep(P.E, d, Spine(d, RuleSpine(d, rec, ls, rule, es, ms), es[MajorIdx(rec) + 1..]),
                     Fire(P, fuel, rec, ls, rule, es, ms))
  {
    var rhs := InstantiateLParams(rule.rhs, rec.rparams, ls);
    InstRootTerm(d, rec.rparams, ls, rule.rhs);
    EvalSound(P, d, fuel, InstRoot(rec.rparams, ls), rule.rhs);
    FireParts(d, es, ms, FirstIndex(rec), MajorIdx(rec) + 1, |ms| - rule.nfields);
    var v, before := Eval(P, fuel, InstRoot(rec.rparams, ls), rule.rhs), es[..FirstIndex(rec)];
    var fields, after := ms[|ms| - rule.nfields..], es[MajorIdx(rec) + 1..];
    FireArgs(P, d, fuel, rhs, v, before, fields, after);
    FireIs(P, fuel, rec, ls, rule, es, ms, v, before);
  }

  lemma FireIs(P: Params, fuel: nat, rec: ConstInfo, ls: seq<L.Level>, rule: RecRule, es: seq<Elim>, ms: seq<Elim>,
               v: Res<Value>, before: seq<Elim>)
    requires rec.Rec? && |rec.rparams| == |ls| && MajorIdx(rec) < LeadingApps(es) && NoProj(ms) && rule.nfields <= |ms|
    requires before == es[..FirstIndex(rec)] && NoProj(before) && NoProj(ms[|ms| - rule.nfields..])
    requires v == Eval(P, fuel, InstRoot(rec.rparams, ls), rule.rhs)
    ensures Fire(P, fuel, rec, ls, rule, es, ms)
         == ThenElims(P, fuel, ThenApply(P, fuel, ThenApply(P, fuel, v, before), ms[|ms| - rule.nfields..]), es[MajorIdx(rec) + 1..])
  {
  }

  lemma FireParts(d: nat, es: seq<Elim>, ms: seq<Elim>, i: nat, j: nat, k: nat)
    requires i <= LeadingApps(es) && j <= |es| && k <= |ms| && NoProj(ms) && ElimsOk(d, es) && ElimsOk(d, ms)
    ensures NoProj(es[..i]) && NoProj(ms[k..])
    ensures ElimsOk(d, es[..i]) && ElimsOk(d, es[j..]) && ElimsOk(d, ms[k..])
  {
    LeadingTake(es, i);
    TakeOk(d, es, i);
    TakeOk(d, es, j);
    TakeOk(d, ms, k);
  }

  lemma LeadingTake(es: seq<Elim>, k: nat)
    requires k <= LeadingApps(es)
    ensures NoProj(es[..k])
  {
    assert es[..k] == es[..LeadingApps(es)][..k];
  }

  lemma FireArgs(P: Params, d: nat, fuel: nat, t: Term, r: Res<Value>, before: seq<Elim>, fields: seq<Elim>, after: seq<Elim>)
    requires Sound(P) && Good(P.E, d, t, r) && NoProj(before) && NoProj(fields)
    requires ElimsOk(d, before) && ElimsOk(d, fields) && ElimsOk(d, after)
    ensures GoodStep(P.E, d, Spine(d, Spine(d, Spine(d, t, before), fields), after),
                     ThenElims(P, fuel, ThenApply(P, fuel, ThenApply(P, fuel, r, before), fields), after))
  {
    var q := ThenApply(P, fuel, r, before);
    ApplySpineTo(P, d, fuel, t, r, before);
    ApplySpineTo(P, d, fuel, Spine(d, t, before), q, fields);
    ElimsTo(P, d, fuel, Spine(d, Spine(d, t, before), fields), ThenApply(P, fuel, q, fields), after);
  }

  lemma ApplySpineTo(P: Params, d: nat, fuel: nat, t: Term, r: Res<Value>, es: seq<Elim>)
    requires Sound(P) && Good(P.E, d, t, r) && NoProj(es) && ElimsOk(d, es)
    ensures Good(P.E, d, Spine(d, t, es), ThenApply(P, fuel, r, es))
  {
    if r.Ok? {
      ApplySpine(P, d, fuel, r.v, es);
      StarSpine(P.E, d, t, RB(d, r.v), es);
      GoodConv(P.E, d, Spine(d, t, es), Spine(d, RB(d, r.v), es), ThenApply(P, fuel, r, es));
    }
  }

  lemma ElimsTo(P: Params, d: nat, fuel: nat, t: Term, r: Res<Value>, es: seq<Elim>)
    requires Sound(P) && Good(P.E, d, t, r) && ElimsOk(d, es)
    ensures GoodStep(P.E, d, Spine(d, t, es), ThenElims(P, fuel, r, es))
  {
    if r.Ok? {
      ApplyElimsSound(P, d, fuel, r.v, es);
      StarSpine(P.E, d, t, RB(d, r.v), es);
      SteppedGood(P.E, d, Spine(d, t, es), Spine(d, RB(d, r.v), es), ApplyElims(P, fuel, r.v, es));
    }
  }

  lemma StepConv(E: Env, d: nat, t: Term, u: Term, r: Res<Option<Value>>)
    requires Conv(E, t, u) && GoodStep(E, d, u, r)
    ensures GoodStep(E, d, t, r)
  {
    if r.Ok? && r.v.Some? { StarTrans(E, true, t, u, RB(d, r.v.value)); }
  }

  lemma SpinePair(d: nat, h: Term, xs: seq<Elim>, ys: seq<Elim>, k: nat, n: nat)
    requires NoProj(xs) && NoProj(ys) && k <= |xs| && n <= |ys|
    ensures Spine(d, Spine(d, h, xs[..k]), ys[n..]) == MkApps(h, ElimTerms(d, xs)[..k] + ElimTerms(d, ys)[n..])
  {
    SpineArgs(d, h, xs[..k]);
    SpineArgs(d, Spine(d, h, xs[..k]), ys[n..]);
    assert ElimTerms(d, xs[..k]) == ElimTerms(d, xs)[..k];
    assert ElimTerms(d, ys[n..]) == ElimTerms(d, ys)[n..];
    MkAppsAppend(h, ElimTerms(d, xs)[..k], ElimTerms(d, ys)[n..]);
  }

  /** The recursor's spine up to the major premise is its rule's right-hand side on the rule's arguments. */
  lemma IotaSpine(E: Env, d: nat, h: Term, es: seq<Elim>, c: Term, ms: seq<Elim>, rule: RecRule)
    requires h.Const? && h.n in E.consts && E.consts[h.n].Rec? && |h.ls| == |E.consts[h.n].rparams|
    requires |es| == MajorIdx(E.consts[h.n]) + 1 && NoProj(es) && NoProj(ms)
    requires Conv(E, RB(d, es[|es| - 1].v), Spine(d, c, ms))
    requires c.Const? && FindRule(E.consts[h.n].rules, c.n) == Some(rule) && rule.nfields <= |ms|
    ensures Conv(E, Spine(d, h, es), RuleSpine(d, E.consts[h.n], h.ls, rule, es, ms))
  {
    var rec := E.consts[h.n];
    SpineArgs(d, h, es);
    SpineArgs(d, c, ms);
    SpinePair(d, InstantiateLParams(rule.rhs, rec.rparams, h.ls), es, ms, FirstIndex(rec), |ms| - rule.nfields);
    assert IotaResult(rec, h.ls, ElimTerms(d, es), ElimTerms(d, ms), rule) == RuleSpine(d, rec, h.ls, rule, es, ms);
    IotaConv(E, h, ElimTerms(d, es), c, ElimTerms(d, ms), rule);
  }

  lemma {:induction false} IotaSound(W: Engine, fuel: nat, d: nat, v: Value)
    requires SoundEngine(W) && ValOk(d, v) && v.VNeu? && IsRec(W.P.E, v.h)
    ensures GoodStep(W.P.E, d, RB(d, v), Iota(W, fuel, d, v))
    decreases fuel, 4
  {
    var rec, es := W.P.E.consts[v.h.n], v.sp;
    var mi := MajorIdx(rec);
    if LeadingApps(es) > mi && |rec.rparams| == |v.h.ls| {
      assert es[..LeadingApps(es)][mi] == es[mi];
      OkElim(d, v, mi);
      MajorSound(W, fuel, d, v.h.n, es[mi].v);
      var major := Major(W, fuel, d, v.h.n, es[mi].v);
      if major.Ok? && major.v.VNeu? && IsCtor(W.P.E, major.v.h) && NoProj(major.v.sp) {
        var rule := FindRule(rec.rules, major.v.h.n);
        if rule.Some? && rule.value.nfields <= |major.v.sp| {
          IotaFires(W, fuel, d, v, major.v, rule.value);
        }
      }
    }
  }

  /** A recursor's whole spine, its major premise reduced to a constructor application. */
  lemma IotaWhole(E: Env, d: nat, h: Term, es: seq<Elim>, c: Term, ms: seq<Elim>, rule: RecRule)
    requires h.Const? && h.n in E.consts && E.consts[h.n].Rec? && |h.ls| == |E.consts[h.n].rparams|
    requires MajorIdx(E.consts[h.n]) < LeadingApps(es) && es[MajorIdx(E.consts[h.n])].EApp? && NoProj(ms)
    requires Conv(E, RB(d, es[MajorIdx(E.consts[h.n])].v), Spine(d, c, ms))
    requires c.Const? && FindRule(E.consts[h.n].rules, c.n) == Some(rule) && rule.nfields <= |ms|
    ensures Conv(E, Spine(d, h, es),
                 Spine(d, RuleSpine(d, E.consts[h.n], h.ls, rule, es, ms), es[MajorIdx(E.consts[h.n]) + 1..]))
  {
    var rec := E.consts[h.n];
    var mi := MajorIdx(rec);
    var upto, after := es[..mi + 1], es[mi + 1..];
    assert upto == es[..LeadingApps(es)][..mi + 1];
    IotaSpine(E, d, h, upto, c, ms, rule);
    SpineCut(d, h, es, mi + 1);
    StarSpine(E, d, Spine(d, h, upto), RuleSpine(d, rec, h.ls, rule, upto, ms), after);
    assert upto[..FirstIndex(rec)] == es[..FirstIndex(rec)];
  }

  lemma SpineCut(d: nat, h: Term, es: seq<Elim>, n: nat)
    requires n <= |es|
    ensures Spine(d, h, es) == Spine(d, Spine(d, h, es[..n]), es[n..])
  {
    assert es == es[..n] + es[n..];
    SpineCat(d, h, es[..n], es[n..]);
  }

  lemma IotaFires(W: Engine, fuel: nat, d: nat, v: Value, m: Value, rule: RecRule)
    requires SoundEngine(W) && ValOk(d, v) && v.VNeu? && IsRec(W.P.E, v.h)
    requires var rec := W.P.E.consts[v.h.n];
             MajorIdx(rec) < LeadingApps(v.sp) && |rec.rparams| == |v.h.ls| && v.sp[MajorIdx(rec)].EApp?
             && Conv(W.P.E, RB(d, v.sp[MajorIdx(rec)].v), RB(d, m))
    requires ValOk(d, m) && m.VNeu? && m.h.HConst? && NoProj(m.sp) && rule.nfields <= |m.sp|
    requires FindRule(W.P.E.consts[v.h.n].rules, m.h.n) == Some(rule)
    ensures GoodStep(W.P.E, d, RB(d, v), Fire(W.P, fuel, W.P.E.consts[v.h.n], v.h.ls, rule, v.sp, m.sp))
  {
    var rec := W.P.E.consts[v.h.n];
    IotaWhole(W.P.E, d, HeadTerm(d, v.h), v.sp, HeadTerm(d, m.h), m.sp, rule);
    FireSound(W.P, d, fuel, rec, v.h.ls, rule, v.sp, m.sp);
    StepConv(W.P.E, d, RB(d, v), Spine(d, RuleSpine(d, rec, v.h.ls, rule, v.sp, m.sp), v.sp[MajorIdx(rec) + 1..]),
             Fire(W.P, fuel, rec, v.h.ls, rule, v.sp, m.sp));
  }

  lemma QuotSpine(E: Env, d: nat, h: Term, es: seq<Elim>, c: Term, ms: seq<Elim>)
    requires h.Const? && (h.n == QUOT_LIFT || h.n == QUOT_IND) && |es| == (if h.n == QUOT_LIFT then 6 else 5)
    requires NoProj(es) && NoProj(ms) && |ms| == 3 && c.Const? && c.n == QUOT_MK
    requires Conv(E, RB(d, es[|es| - 1].v), Spine(d, c, ms))
    ensures Conv(E, Spine(d, h, es), App(RB(d, es[3].v), RB(d, ms[2].v)))
  {
    SpineArgs(d, h, es);
    SpineArgs(d, c, ms);
    QuotConv(E, h, ElimTerms(d, es), c, ElimTerms(d, ms));
  }

  lemma {:induction false} QuotSound(W: Engine, fuel: nat, d: nat, v: Value)
    requires SoundEngine(W) && ValOk(d, v) && v.VNeu? && IsQuotHead(W.P.E, v.h)
    ensures GoodStep(W.P.E, d, RB(d, v), Quot(W, fuel, d, v))
    decreases fuel, 4
  {
    var pos, es := if v.h.n == QUOT_LIFT then 5 else 4, v.sp;
    if LeadingApps(es) > pos {
      assert es[..LeadingApps(es)][pos] == es[pos];
      OkElim(d, v, pos);
      WhnfSound(W, fuel, d, es[pos].v);
      var mk := Whnf(W, fuel, d, es[pos].v);
      if mk.Ok? && mk.v.VNeu? && mk.v.h.HConst? && mk.v.h.n == QUOT_MK && |mk.v.sp| == 3 && NoProj(mk.v.sp) {
        QuotFires(W.P, fuel, d, v, mk.v, pos);
      }
    }
  }

  lemma QuotFires(P: Params, fuel: nat, d: nat, v: Value, mk: Value, pos: nat)
    requires Sound(P) && ValOk(d, v) && v.VNeu? && IsQuotHead(P.E, v.h)
    requires pos == (if v.h.n == QUOT_LIFT then 5 else 4) && LeadingApps(v.sp) > pos && v.sp[pos].EApp? && v.sp[3].EApp?
    requires ValOk(d, mk) && mk.VNeu? && mk.h.HConst? && mk.h.n == QUOT_MK && |mk.sp| == 3 && NoProj(mk.sp)
    requires Conv(P.E, RB(d, v.sp[pos].v), RB(d, mk))
    ensures GoodStep(P.E, d, RB(d, v),
                     ThenElims(P, fuel, Apply(P, fuel, v.sp[3].v, mk.sp[2].v), v.sp[pos + 1..]))
  {
    var es, h := v.sp, HeadTerm(d, v.h);
    var upto, after := es[..pos + 1], es[pos + 1..];
    assert upto == es[..LeadingApps(es)][..pos + 1];
    QuotSpine(P.E, d, h, upto, HeadTerm(d, mk.h), mk.sp);
    OkElim(d, v, 3);
    OkElim(d, mk, 2);
    var f, a := es[3].v, mk.sp[2].v;
    StarRefl(P.E, true, RB(d, a));
    ApplySound(P, d, fuel, f, RB(d, a), a);
    var r := Apply(P, fuel, f, a);
    assert es == upto + after;
    SpineCat(d, h, upto, after);
    GoodConv(P.E, d, Spine(d, h, upto), App(RB(d, f), RB(d, a)), r);
    ElimsTo(P, d, fuel, Spine(d, h, upto), r, after);
  }

  // ---------------------------------------------------------------- the main theorems

  lemma {:induction false} StepSound(W: Engine, fuel: nat, d: nat, v: Value)
    requires SoundEngine(W) && ValOk(d, v) && v.VNeu?
    ensures GoodStep(W.P.E, d, RB(d, v), Step(W, fuel, d, v))
    decreases fuel, 5
  {
    var E := W.P.E;
    if v.h.HFVar? {
      if v.h.id in E.lets {
        LetVarConv(E, v.h.id, d);
        UnfoldedGood(W.P, d, fuel, HeadTerm(d, v.h), GROOT, E.lets[v.h.id], v.sp);
      }
    } else if IsDef(E, v.h) || IsRec(E, v.h) || IsQuotHead(E, v.h) {
      if W.useMachine && ClosedVal(v) {
        MachineSound(W, fuel, d, v);
      } else if IsDef(E, v.h) {
        UnfoldSound(W, fuel, d, v);
      } else if IsRec(E, v.h) {
        IotaSound(W, fuel, d, v);
      } else {
        QuotSound(W, fuel, d, v);
      }
    }
  }

  lemma {:induction false} WhnfSound(W: Engine, fuel: nat, d: nat, v: Value)
    requires SoundEngine(W) && ValOk(d, v)
    ensures Good(W.P.E, d, RB(d, v), Whnf(W, fuel, d, v))
    decreases fuel, 1
  {
    StarRefl(W.P.E, true, RB(d, v));
    if v.VNeu? && fuel > 0 {
      StepSound(W, fuel - 1, d, v);
      var r := Step(W, fuel - 1, d, v);
      if r.Ok? && r.v.Some? {
        WhnfSound(W, fuel - 1, d, r.v.value);
        GoodConv(W.P.E, d, RB(d, v), RB(d, r.v.value), Whnf(W, fuel - 1, d, r.v.value));
      }
    }
  }

  /** A closed term evaluated, reduced and read back. */
  function Normalised(W: Engine, fuel: nat, t: Term): Res<Term> {
    var v := Eval(W.P, fuel, GROOT, t);
    if v.Err? then Err(v.e)
    else
      var w := Whnf(W, fuel, 0, v.v);
      if w.Err? then Err(w.e) else Quote(W.P, fuel, 0, w.v)
  }

  /**
   * Whenever evaluating, reducing and reading back a closed term returns, the result is a closed term
   * convertible with it; and it never stops because a variable is out of scope or outside its frame.
   */
  lemma NormalisedSound(W: Engine, fuel: nat, t: Term)
    requires SoundEngine(W) && Closed(t)
    ensures GoodTerm(W.P.E, 0, t, Normalised(W, fuel, t))
  {
    RootInst(0, GROOT, t);
    EvalSound(W.P, 0, fuel, GROOT, t);
    var v := Eval(W.P, fuel, GROOT, t);
    if v.Ok? {
      WhnfSound(W, fuel, 0, v.v);
      var w := Whnf(W, fuel, 0, v.v);
      if w.Ok? {
        QuoteSound(W.P, fuel, 0, w.v);
        StarTrans(W.P.E, true, t, RB(0, v.v), RB(0, w.v));
        QuoteJoin(W.P.E, t, RB(0, w.v), Quote(W.P, fuel, 0, w.v));
      }
    }
  }

  /** A closed value, however deep it was made, reads back at depth zero with no variable out of scope. */
  lemma ClosedReadsBack(P: Params, fuel: nat, d: nat, v: Value)
    requires Sound(P) && ValOk(d, v) && ClosedVal(v)
    ensures GoodTerm(P.E, 0, RB(d, v), Quote(P, fuel, 0, v))
  {
    ClosedScope(d, v);
    DepthFree(d, v);
    QuoteSound(P, fuel, 0, v);
  }

  // ---------------------------------------------------------------- normality

  /** No beta redex and no let anywhere. */
  predicate BetaNormal(t: Term) {
    match t
    case App(f, x) => !f.Lam? && BetaNormal(f) && BetaNormal(x)
    case Lam(d, b) => BetaNormal(d) && BetaNormal(b)
    case Pi(d, b) => BetaNormal(d) && BetaNormal(b)
    case Let(_, _, _) => false
    case Proj(_, _, e) => BetaNormal(e)
    case _ => true
  }

  /** What quoting returns has neither, under binders included. */
  lemma {:induction false} QuoteNormal(P: Params, fuel: nat, d: nat, v: Value)
    ensures Quote(P, fuel, d, v).Ok? ==> BetaNormal(Quote(P, fuel, d, v).v)
    decreases fuel, 1
  {
    if fuel > 0 {
      match v
      case VLam(dom, env, body) => QuoteBinderNormal(P, fuel - 1, d, dom, env, body);
      case VPi(dom, env, body) => QuoteBinderNormal(P, fuel - 1, d, dom, env, body);
      case VNeu(h, sp) => QuoteSpineNormal(P, fuel - 1, d, HeadTerm(d, h), sp);
      case _ =>
    }
  }

  lemma {:induction false} EvalQuoteNormal(P: Params, fuel: nat, d: nat, env: VEnv, t: Term)
    ensures EvalQuote(P, fuel, d, env, t).Ok? ==> BetaNormal(EvalQuote(P, fuel, d, env, t).v)
    decreases fuel, 2
  {
    var v := Eval(P, fuel, env, t);
    if v.Ok? { QuoteNormal(P, fuel, d, v.v); }
  }

  lemma {:induction false} QuoteBinderNormal(P: Params, fuel: nat, d: nat, dom: Term, env: VEnv, body: Term)
    ensures var r := QuoteBinder(P, fuel, d, dom, env, body); r.Ok? ==> BetaNormal(r.v.0) && BetaNormal(r.v.1)
    decreases fuel, 3
  {
    EvalQuoteNormal(P, fuel, d, env, dom);
    EvalQuoteNormal(P, fuel, d + 1, Ext(Fresh(d), env), body);
  }

  lemma {:induction false} QuoteSpineNormal(P: Params, fuel: nat, d: nat, h: Term, sp: seq<Elim>)
    requires BetaNormal(h) && !h.Lam?
    ensures QuoteSpine(P, fuel, d, h, sp).Ok? ==> BetaNormal(QuoteSpine(P, fuel, d, h, sp).v)
    decreases fuel, 2, |sp|
  {
    if sp != [] {
      if sp[0].EProj? {
        QuoteSpineNormal(P, fuel, d, Proj(sp[0].s, sp[0].idx, h), sp[1..]);
      } else {
        QuoteNormal(P, fuel, d, sp[0].v);
        var x := Quote(P, fuel, d, sp[0].v);
        if x.Ok? { QuoteSpineNormal(P, fuel, d, App(h, x.v), sp[1..]); }
      }
    }
  }

  /** The machine is asked about the value, and answers for it. */
  predicate Delegated(W: Engine, v: Value) { W.useMachine && ClosedVal(v) }

  /** What is reduced for the major premise v: for a K-like recursor the constructor that its type gives, if any. */
  function Premise(W: Engine, d: nat, n: Name, v: Value): Value
    requires n in W.P.E.consts && W.P.E.consts[n].Rec?
  {
    if W.P.E.consts[n].k && W.kCtor(d, n, v).Some? then W.kCtor(d, n, v).value else v
  }

  /** m is the value w in constructor form: numerals one constructor deep, strings spelled out, structures eta-expanded. */
  predicate CtorForm(W: Engine, d: nat, n: Name, w: Value, m: Value)
    requires n in W.P.E.consts && W.P.E.consts[n].Rec?
  {
    match w
    case VNat(k) =>
      m.VNeu? && m.h.HConst? && m.h.ls == []
      && if k == 0 then m.h.n == NAT_ZERO && m.sp == [] else m.h.n == NAT_SUCC && m.sp == [EApp(VNat(k - 1))]
    case VStr(s) => m == W.P.strv(s)
    case _ => m == W.structCtor(d, W.P.E.consts[n].majorInduct, w)
  }

  /** A recursor that cannot fire: too few arguments, the wrong number of levels, or no constructor that a rule fits. */
  ghost predicate NoIota(W: Engine, left: nat, d: nat, v: Value)
    requires v.VNeu? && IsRec(W.P.E, v.h)
  {
    var rec, mi := W.P.E.consts[v.h.n], MajorIdx(W.P.E.consts[v.h.n]);
    LeadingApps(v.sp) <= mi || |rec.rparams| != |v.h.ls|
    || exists w, m {:trigger CtorForm(W, d, v.h.n, w, m)} ::
         Whnf(W, left, d, Premise(W, d, v.h.n, v.sp[mi].v)) == Ok(w) && CtorForm(W, d, v.h.n, w, m) && NoRule(W.P.E, rec, m)
  }

  predicate NoRule(E: Env, rec: ConstInfo, m: Value)
    requires rec.Rec?
  {
    m.VNeu? && IsCtor(E, m.h) && NoProj(m.sp) ==>
      FindRule(rec.rules, m.h.n).None? || FindRule(rec.rules, m.h.n).value.nfields > |m.sp|
  }

  /** A quotient's lift or induction that cannot fire: too few arguments, or no quotient constructor among them. */
  ghost predicate NoQuot(W: Engine, left: nat, d: nat, v: Value)
    requires v.VNeu? && v.h.HConst?
  {
    var pos := if v.h.n == QUOT_LIFT then 5 else 4;
    LeadingApps(v.sp) <= pos
    || exists m {:trigger NotMk(W.P.E, m)} :: Whnf(W, left, d, v.sp[pos].v) == Ok(m) && NotMk(W.P.E, m)
  }

  predicate NotMk(E: Env, m: Value) {
    m.VNeu? && IsAxiomHead(E, m.h) && m.h.n == QUOT_MK ==> |m.sp| != 3 || !NoProj(m.sp)
  }

  /** The machine takes the value's term, fused, back to that term. */
  predicate GivenBack(W: Engine, left: nat, v: Value) {
    var q := Quote(W.P, left, 0, v);
    q.Ok? && W.machine(W.fuse(q.v)) == Some(q.v)
  }

  /**
   * Nothing reduces at the head: it is no variable with a value; the machine, if asked, makes nothing of it;
   * and otherwise it is no definition at the right number of levels, no recursor that can fire and no
   * quotient that can.
   */
  ghost predicate Stuck(W: Engine, left: nat, d: nat, v: Value)
    requires v.VNeu?
  {
    && (v.h.HFVar? ==> v.h.id !in W.P.E.lets)
    && (Delegated(W, v) && (IsDef(W.P.E, v.h) || IsRec(W.P.E, v.h) || IsQuotHead(W.P.E, v.h)) ==> GivenBack(W, left, v))
    && (!Delegated(W, v) ==>
          && (IsDef(W.P.E, v.h) ==> |W.P.E.consts[v.h.n].dparams| != |v.h.ls|)
          && (IsRec(W.P.E, v.h) ==> NoIota(W, left, d, v))
          && (IsQuotHead(W.P.E, v.h) ==> NoQuot(W, left, d, v)))
  }

  lemma IotaStuck(W: Engine, left: nat, d: nat, v: Value)
    requires v.VNeu? && IsRec(W.P.E, v.h) && Iota(W, left, d, v) == Ok(None)
    ensures NoIota(W, left, d, v)
  {
    var rec, mi := W.P.E.consts[v.h.n], MajorIdx(W.P.E.consts[v.h.n]);
    if LeadingApps(v.sp) > mi && |rec.rparams| == |v.h.ls| {
      var m := Major(W, left, d, v.h.n, v.sp[mi].v).v;
      var w := Whnf(W, left, d, Premise(W, d, v.h.n, v.sp[mi].v)).v;
      assert CtorForm(W, d, v.h.n, w, m) && NoRule(W.P.E, rec, m);
    }
  }

  lemma QuotStuck(W: Engine, left: nat, d: nat, v: Value)
    requires v.VNeu? && v.h.HConst? && Quot(W, left, d, v) == Ok(None)
    ensures NoQuot(W, left, d, v)
  {
    var pos := if v.h.n == QUOT_LIFT then 5 else 4;
    if LeadingApps(v.sp) > pos { assert NotMk(W.P.E, Whnf(W, left, d, v.sp[pos].v).v); }
  }

  lemma StepStuck(W: Engine, left: nat, d: nat, v: Value)
    requires v.VNeu? && Step(W, left, d, v) == Ok(None)
    ensures Stuck(W, left, d, v)
  {
    if !v.h.HFVar? && !Delegated(W, v) {
      if IsRec(W.P.E, v.h) { IotaStuck(W, left, d, v); }
      if IsQuotHead(W.P.E, v.h) { QuotStuck(W, left, d, v); }
    }
  }

  /** What weak-head reduction returns is no neutral value, or one whose head is stuck. */
  lemma {:induction false} WhnfStuck(W: Engine, fuel: nat, d: nat, v: Value) returns (left: nat)
    requires Whnf(W, fuel, d, v).Ok?
    ensures var r := Whnf(W, fuel, d, v).v; r.VNeu? ==> Stuck(W, left, d, r)
    decreases fuel
  {
    left := 0;
    if v.VNeu? {
      left := fuel - 1;
      var r := Step(W, fuel - 1, d, v);
      if r.v.Some? { left := WhnfStuck(W, fuel - 1, d, r.v.value); } else { StepStuck(W, fuel - 1, d, v); }
    }
  }

  /** The result of evaluating, reducing and quoting a term is normal for beta and let. */
  lemma NormalisedNormal(W: Engine, fuel: nat, t: Term)
    ensures Normalised(W, fuel, t).Ok? ==> BetaNormal(Normalised(W, fuel, t).v)
  {
    var v := Eval(W.P, fuel, GROOT, t);
    if v.Ok? {
      var w := Whnf(W, fuel, 0, v.v);
      if w.Ok? { QuoteNormal(W.P, fuel, 0, w.v); }
    }
  }
}
