// Normalisation by evaluation is sound: evaluating, reducing and reading back a term gives a term
// convertible with it, in scope, and no variable goes astray on the way.
module NbeNormal {
  import opened Names
  import opened Terms
  import opened Conversion
  import opened NbeModel
  import opened NbeEval
  import opened NbeSound
  import opened NbeWhnf
  import opened Rules

  // ---------------------------------------------------------------- scope

  lemma {:induction false} ValOkUp(d: nat, v: Value)
    requires ValOk(d, v)
    ensures ValOk(d + 1, v)
    decreases v
  {
    match v
    case VNeu(_, sp) =>
      forall k | 0 <= k < |sp| ensures ElimOk(d + 1, sp[k]) {
        assert ElimOk(d, sp[k]);
        if sp[k].EApp? { ValOkUp(d, sp[k].v); }
      }
    case VLam(dom, env, body) => EnvOkUp(d, env, Lam(dom, body));
    case VPi(dom, env, body) => EnvOkUp(d, env, Pi(dom, body));
    case _ =>
  }

  lemma {:induction false} EnvOkUp(d: nat, env: VEnv, t: Term)
    requires EnvOk(d, env, t)
    ensures EnvOk(d + 1, env, t)
    decreases env
  {
    forall i: nat | Occurs(t, i) ensures Lookup(env, i).Ok? && ValOk(d + 1, Lookup(env, i).v) {
      ValOkUp(d, Lookup(env, i).v);
    }
  }

  /** A closed value is in scope at depth zero. */
  lemma {:induction false} ClosedScope(d: nat, v: Value)
    requires ValOk(d, v) && ClosedVal(v)
    ensures ValOk(0, v)
    decreases v
  {
    match v
    case VNeu(_, sp) =>
      forall k | 0 <= k < |sp| ensures ElimOk(0, sp[k]) {
        assert ElimOk(d, sp[k]) && ClosedElim(sp[k]);
        if sp[k].EApp? { ClosedScope(d, sp[k].v); }
      }
    case VLam(dom, env, body) => ClosedEnvScope(d, env, Lam(dom, body));
    case VPi(dom, env, body) => ClosedEnvScope(d, env, Pi(dom, body));
    case _ =>
  }

  lemma {:induction false} ClosedEnvScope(d: nat, env: VEnv, t: Term)
    requires EnvOk(d, env, t) && ClosedVEnv(env)
    ensures EnvOk(0, env, t)
    decreases env
  {
    forall i: nat | Occurs(t, i) ensures Lookup(env, i).Ok? && ValOk(0, Lookup(env, i).v) {
      ClosedLookup(env, i);
      ClosedScope(d, Lookup(env, i).v);
    }
  }

  lemma {:induction false} ClosedLookup(env: VEnv, i: nat)
    requires ClosedVEnv(env) && Walk(env, i).Ok?
    ensures ClosedVal(Walk(env, i).v)
    decreases env
  {
    if env.Ext? && i > 0 { ClosedLookup(env.parent, i - 1); }
  }

  // ---------------------------------------------------------------- one binder deeper

  /** Read back one binder deeper, every loose variable is shifted by one. */
  lemma {:induction false} RBShift(d: nat, v: Value)
    requires ValOk(d, v)
    ensures RB(d + 1, v) == Ren(RB(d, v), Plus(1))
    decreases v, 2
  {
    match v
    case VNeu(h, sp) => SpineShift(d, HeadTerm(d, h), HeadTerm(d + 1, h), sp);
    case VLam(dom, env, body) => InstShift(d, env, Lam(dom, body));
    case VPi(dom, env, body) => InstShift(d, env, Pi(dom, body));
    case _ =>
  }

  lemma {:induction false} InstShift(d: nat, env: VEnv, t: Term)
    requires EnvOk(d, env, t)
    ensures Inst(d + 1, env, t) == Ren(Inst(d, env, t), Plus(1))
    decreases env
  {
    var u := InstL(LevelsOf(env), t);
    InstLOccurs(LevelsOf(env), t);
    RenSub(u, Vals(d, env), Plus(1));
    forall i: nat | Occurs(u, i) ensures Vals(d + 1, env)(i) == ThenSR(Vals(d, env), Plus(1))(i) {
      assert Occurs(t, i);
      RBShift(d, Lookup(env, i).v);
    }
    SubExt(u, Vals(d + 1, env), ThenSR(Vals(d, env), Plus(1)));
  }

  lemma {:induction false} SpineShift(d: nat, h: Term, h': Term, sp: seq<Elim>)
    requires h' == Ren(h, Plus(1)) && forall k :: 0 <= k < |sp| ==> ElimOk(d, sp[k])
    ensures Spine(d + 1, h', sp) == Ren(Spine(d, h, sp), Plus(1))
    decreases sp
  {
    if sp != [] {
      var n := |sp| - 1;
      SpineShift(d, h, h', sp[..n]);
      EliminateShift(d, Spine(d, h, sp[..n]), sp[n]);
    }
  }

  lemma {:induction false} EliminateShift(d: nat, t: Term, e: Elim)
    requires ElimOk(d, e)
    ensures Eliminate(d + 1, Ren(t, Plus(1)), e) == Ren(Eliminate(d, t, e), Plus(1))
    decreases e, 3
  {
    if e.EApp? { RBShift(d, e.v); }
  }

  /** The body of a closure under a fresh variable is the body of its read-back. */
  lemma FreshBody(d: nat, env: VEnv, t: Term, b: Term)
    requires EnvOk(d, env, t) && forall i: nat :: Occurs(b, i + 1) ==> Occurs(t, i)
    ensures EnvOk(d + 1, Ext(Fresh(d), env), b)
    ensures Inst(d + 1, Ext(Fresh(d), env), b) == Sub(InstL(LevelsOf(env), b), Up(Vals(d, env)))
  {
    EnvOkUp(d, env, t);
    EnvOkExt(d + 1, env, t, b, Fresh(d));
    forall i: nat | Occurs(b, i + 1) ensures Lookup(env, i).Ok? { assert Occurs(t, i); }
    ValsExt(d + 1, Fresh(d), env, b);
    InstLOccurs(LevelsOf(env), b);
    forall i: nat | Occurs(b, i) ensures Cons(RB(d + 1, Fresh(d)), Vals(d + 1, env))(i) == Up(Vals(d, env))(i) {
      if i > 0 { assert Occurs(b, (i - 1) + 1); }
      FreshAt(d, env, t, b, i);
    }
    SubExt(InstL(LevelsOf(env), b), Cons(RB(d + 1, Fresh(d)), Vals(d + 1, env)), Up(Vals(d, env)));
  }

  lemma FreshAt(d: nat, env: VEnv, t: Term, b: Term, i: nat)
    requires EnvOk(d, env, t) && Occurs(b, i) && (i > 0 ==> Occurs(t, i - 1))
    ensures Cons(RB(d + 1, Fresh(d)), Vals(d + 1, env))(i) == Up(Vals(d, env))(i)
  {
    if i > 0 {
      RBShift(d, Lookup(env, i - 1).v);
    } else {
      assert RB(d + 1, Fresh(d)) == BVar(0);
    }
  }

  // ---------------------------------------------------------------- readback

  /** A term in scope at depth d and convertible with t, or a failure with no variable astray. */
  ghost predicate GoodTerm(E: Env, d: nat, t: Term, r: Res<Term>) {
    match r
    case Ok(u) => Range(u) <= d && Conv(E, t, u)
    case Err(e) => !Astray(e)
  }

  /** A binder's type and body, the body one variable deeper. */
  ghost predicate GoodPair(E: Env, d: nat, t: Term, u: Term, r: Res<(Term, Term)>) {
    match r
    case Ok(p) => GoodTerm(E, d, t, Ok(p.0)) && GoodTerm(E, d + 1, u, Ok(p.1))
    case Err(e) => !Astray(e)
  }

  lemma {:induction false} QuoteSound(P: Params, fuel: nat, d: nat, v: Value)
    requires Sound(P) && ValOk(d, v)
    ensures GoodTerm(P.E, d, RB(d, v), Quote(P, fuel, d, v))
    decreases fuel, 1
  {
    if fuel > 0 {
      match v
      case VNeu(h, sp) =>
        StarRefl(P.E, true, HeadTerm(d, h));
        QuoteSpineSound(P, fuel - 1, d, HeadTerm(d, h), HeadTerm(d, h), sp);
      case VLam(dom, env, body) =>
        BinderBody(d, env, dom, body);
        QuoteBinderSound(P, fuel - 1, d, dom, env, body);
        var r := QuoteBinder(P, fuel - 1, d, dom, env, body);
        if r.Ok? { StarLam(P.E, true, Inst(d, env, dom), r.v.0, Inst(d + 1, Ext(Fresh(d), env), body), r.v.1); }
      case VPi(dom, env, body) =>
        BinderBody(d, env, dom, body);
        QuoteBinderSound(P, fuel - 1, d, dom, env, body);
        var r := QuoteBinder(P, fuel - 1, d, dom, env, body);
        if r.Ok? { StarPi(P.E, true, Inst(d, env, dom), r.v.0, Inst(d + 1, Ext(Fresh(d), env), body), r.v.1); }
      case _ => StarRefl(P.E, true, RB(d, v));
    }
  }

  lemma BinderBody(d: nat, env: VEnv, dom: Term, body: Term)
    requires EnvOk(d, env, Lam(dom, body)) || EnvOk(d, env, Pi(dom, body))
    ensures EnvOk(d, env, dom) && EnvOk(d + 1, Ext(Fresh(d), env), body)
    ensures Inst(d, env, Lam(dom, body)) == Lam(Inst(d, env, dom), Inst(d + 1, Ext(Fresh(d), env), body))
    ensures Inst(d, env, Pi(dom, body)) == Pi(Inst(d, env, dom), Inst(d + 1, Ext(Fresh(d), env), body))
  {
    var t := if EnvOk(d, env, Lam(dom, body)) then Lam(dom, body) else Pi(dom, body);
    EnvOkSub(d, env, t, dom);
    FreshBody(d, env, t, body);
    InstLam(d, env, Lam(dom, body));
    InstPi(d, env, Pi(dom, body));
  }

  lemma {:induction false} QuoteBinderSound(P: Params, fuel: nat, d: nat, dom: Term, env: VEnv, body: Term)
    requires Sound(P) && EnvOk(d, env, dom) && EnvOk(d + 1, Ext(Fresh(d), env), body)
    ensures GoodPair(P.E, d, Inst(d, env, dom), Inst(d + 1, Ext(Fresh(d), env), body),
                     QuoteBinder(P, fuel, d, dom, env, body))
    decreases fuel, 3
  {
    var env' := Ext(Fresh(d), env);
    EvalQuoteSound(P, fuel, d, env, dom);
    EvalQuoteSound(P, fuel, d + 1, env', body);
    PairGood(P.E, d, Inst(d, env, dom), Inst(d + 1, env', body), EvalQuote(P, fuel, d, env, dom),
             EvalQuote(P, fuel, d + 1, env', body));
  }

  lemma PairGood(E: Env, d: nat, t: Term, u: Term, x: Res<Term>, y: Res<Term>)
    requires GoodTerm(E, d, t, x) && GoodTerm(E, d + 1, u, y)
    ensures GoodPair(E, d, t, u, Pair(x, y))
  {
  }

  /** A term evaluated and read back. */
  lemma {:induction false} EvalQuoteSound(P: Params, fuel: nat, d: nat, env: VEnv, t: Term)
    requires Sound(P) && EnvOk(d, env, t)
    ensures GoodTerm(P.E, d, Inst(d, env, t), EvalQuote(P, fuel, d, env, t))
    decreases fuel, 2
  {
    EvalSound(P, d, fuel, env, t);
    var v := Eval(P, fuel, env, t);
    if v.Ok? {
      QuoteSound(P, fuel, d, v.v);
      QuoteJoin(P.E, Inst(d, env, t), RB(d, v.v), Quote(P, fuel, d, v.v));
    }
  }

  lemma QuoteJoin(E: Env, t: Term, u: Term, r: Res<Term>)
    requires Conv(E, t, u) && (r.Ok? ==> Conv(E, u, r.v))
    ensures r.Ok? ==> Conv(E, t, r.v)
  {
    if r.Ok? { StarTrans(E, true, t, u, r.v); }
  }

  lemma {:induction false} QuoteSpineSound(P: Params, fuel: nat, d: nat, t: Term, h: Term, sp: seq<Elim>)
    requires Sound(P) && Range(h) <= d && Conv(P.E, t, h) && forall k :: 0 <= k < |sp| ==> ElimOk(d, sp[k])
    ensures GoodTerm(P.E, d, Spine(d, t, sp), QuoteSpine(P, fuel, d, h, sp))
    decreases fuel, 2, |sp|
  {
    if sp != [] {
      SpineCons(d, t, sp);
      assert ElimOk(d, sp[0]);
      if sp[0].EProj? {
        StarProj(P.E, true, sp[0].s, sp[0].idx, t, h);
        QuoteSpineSound(P, fuel, d, Proj(sp[0].s, sp[0].idx, t), Proj(sp[0].s, sp[0].idx, h), sp[1..]);
      } else {
        QuoteSound(P, fuel, d, sp[0].v);
        var x := Quote(P, fuel, d, sp[0].v);
        if x.Ok? {
          StarApp(P.E, true, t, h, RB(d, sp[0].v), x.v);
          QuoteSpineSound(P, fuel, d, App(t, RB(d, sp[0].v)), App(h, x.v), sp[1..]);
        }
      }
    }
  }

  lemma {:induction false} SpineCat(d: nat, h: Term, xs: seq<Elim>, ys: seq<Elim>)
    ensures Spine(d, h, xs + ys) == Spine(d, Spine(d, h, xs), ys)
    decreases |ys|
  {
    if ys == [] {
      assert xs + ys == xs;
    } else {
      var n := |ys| - 1;
      assert (xs + ys)[..|xs + ys| - 1] == xs + ys[..n];
      SpineCat(d, h, xs, ys[..n]);
    }
  }

  lemma SpineCons(d: nat, h: Term, sp: seq<Elim>)
    requires sp != []
    ensures Spine(d, h, sp) == Spine(d, Eliminate(d, h, sp[0]), sp[1..])
  {
    SpinePush(d, h, [], sp[0]);
    assert [] + [sp[0]] == [sp[0]];
    assert sp == [sp[0]] + sp[1..];
    SpineCat(d, h, [sp[0]], sp[1..]);
  }

  lemma {:induction false} StarSpine(E: Env, d: nat, t: Term, u: Term, sp: seq<Elim>)
    requires Conv(E, t, u)
    ensures Conv(E, Spine(d, t, sp), Spine(d, u, sp))
    decreases |sp|
  {
    if sp != [] {
      var n := |sp| - 1;
      StarSpine(E, d, t, u, sp[..n]);
      StarEliminate(E, d, Spine(d, t, sp[..n]), Spine(d, u, sp[..n]), sp[n]);
    }
  }

  lemma StarEliminate(E: Env, d: nat, t: Term, u: Term, e: Elim)
    requires Conv(E, t, u)
    ensures Conv(E, Eliminate(d, t, e), Eliminate(d, u, e))
  {
    match e
    case EApp(v) =>
      StarRefl(E, true, RB(d, v));
      StarApp(E, true, t, u, RB(d, v), RB(d, v));
    case EProj(s, i) => StarProj(E, true, s, i, t, u);
  }

  // ---------------------------------------------------------------- eliminations

  ghost predicate ElimsOk(d: nat, es: seq<Elim>) { forall k :: 0 <= k < |es| ==> ElimOk(d, es[k]) }

  lemma TakeOk(d: nat, es: seq<Elim>, n: nat)
    requires ElimsOk(d, es) && n <= |es|
    ensures ElimsOk(d, es[..n]) && ElimsOk(d, es[n..])
  {
  }

  lemma ReadiedOk(d: nat, es: seq<Elim>)
    requires NoProj(es) && ElimsOk(d, es)
    ensures ArgsOk(d, Readied(es)) && ArgTerms(d, Readied(es)) == ElimTerms(d, es)
  {
    forall k | 0 <= k < |es| ensures ArgOk(d, Readied(es)[k]) { assert ElimOk(d, es[k]); }
  }

  /** Arguments applied, in terms of the spine they came from. */
  lemma ApplySpine(P: Params, d: nat, fuel: nat, f: Value, es: seq<Elim>)
    requires Sound(P) && ValOk(d, f) && NoProj(es) && ElimsOk(d, es)
    ensures Good(P.E, d, Spine(d, RB(d, f), es), ApplyAll(P, fuel, f, Readied(es)))
  {
    ReadiedOk(d, es);
    ApplyAllSound(P, d, fuel, f, Readied(es));
    SpineArgs(d, RB(d, f), es);
  }

  lemma {:induction false} EnterAllSound(E: Env, d: nat, env: VEnv, t: Term, args: seq<Elim>)
    requires NoProj(args) && ElimsOk(d, args) && EnvOk(d, env, t)
    ensures var r := EnterAll(env, t, args);
            r.Some? ==> EnvOk(d, r.value.0, r.value.1)
                        && Conv(E, Spine(d, Inst(d, env, t), args), Inst(d, r.value.0, r.value.1))
    decreases |args|
  {
    if args == [] {
      StarRefl(E, true, Inst(d, env, t));
    } else if t.Lam? {
      var a, rest := args[0].v, args[1..];
      assert ElimOk(d, args[0]);
      EnvOkExt(d, env, t, t.body, a);
      EnterAllSound(E, d, Ext(a, env), t.body, rest);
      SpineCons(d, Inst(d, env, t), args);
      Beta(E, d, env, t, a);
      StarSpine(E, d, App(Inst(d, env, t), RB(d, a)), Inst(d, Ext(a, env), t.body), rest);
      var r := EnterAll(env, t, args);
      if r.Some? {
        StarTrans(E, true, Spine(d, Inst(d, env, t), args), Spine(d, Inst(d, Ext(a, env), t.body), rest),
                  Inst(d, r.value.0, r.value.1));
      }
    }
  }

  /** Projecting one field of an entered constructor application. */
  lemma FieldConv(E: Env, d: nat, env: VEnv, body: Term, t: Term, s: Name, idx: nat)
    requires EnvOk(d, env, body) && Conv(E, t, Inst(d, env, body))
    requires var h := AppFn(body); h.Const? && h.n in E.consts && E.consts[h.n].Ctor? && E.consts[h.n].induct == s
                                   && E.consts[h.n].cparams + idx < |AppArgs(body)|
    ensures var x := AppArgs(body)[E.consts[AppFn(body).n].cparams + idx];
            EnvOk(d, env, x) && Conv(E, Proj(s, idx, t), Inst(d, env, x))
  {
    var h, xs := AppFn(body), AppArgs(body);
    var k := E.consts[h.n].cparams + idx;
    SpineSplit(body);
    InstMkApps(d, env, h, xs);
    forall i: nat ensures Occurs(xs[k], i) ==> Occurs(body, i) { OccursSpine(body, i); }
    EnvOkSub(d, env, body, xs[k]);
    ProjConv(E, s, idx, t, Inst(d, env, h), InstAll(d, env, xs));
  }

  lemma ProjFieldSound(P: Params, d: nat, fuel: nat, f: Value, args: seq<Elim>, s: Name, idx: nat)
    requires Sound(P) && f.VLam? && ValOk(d, f) && NoProj(args) && ElimsOk(d, args)
    ensures var r := ApplyProjField(P, fuel, f, args, s, idx);
            r.Some? ==> Good(P.E, d, Proj(s, idx, Spine(d, RB(d, f), args)), r.value)
  {
    var r := ApplyProjField(P, fuel, f, args, s, idx);
    if r.Some? {
      EnterAllSound(P.E, d, f.env, Lam(f.dom, f.body), args);
      var (env, body) := EnterAll(f.env, Lam(f.dom, f.body), args).value;
      FieldConv(P.E, d, env, body, Spine(d, RB(d, f), args), s, idx);
      var x := AppArgs(body)[P.E.consts[AppFn(body).n].cparams + idx];
      EvalSound(P, d, fuel, env, x);
      GoodConv(P.E, d, Proj(s, idx, Spine(d, RB(d, f), args)), Inst(d, env, x), r.value);
    }
  }

  lemma FieldThen(P: Params, d: nat, fuel: nat, f: Value, es: seq<Elim>, n: nat)
    requires Sound(P) && f.VLam? && ValOk(d, f) && ElimsOk(d, es) && n < |es| && es[n].EProj? && NoProj(es[..n])
    ensures var r := ApplyProjField(P, fuel, f, es[..n], es[n].s, es[n].idx);
            r.Some? ==> Good(P.E, d, Spine(d, RB(d, f), es[..n + 1]), r.value)
  {
    TakeOk(d, es, n);
    ProjFieldSound(P, d, fuel, f, es[..n], es[n].s, es[n].idx);
    SpinePush(d, RB(d, f), es[..n], es[n]);
    assert es[..n] + [es[n]] == es[..n + 1];
  }

  lemma {:induction false} ApplyElimsSound(P: Params, d: nat, fuel: nat, f: Value, es: seq<Elim>)
    requires Sound(P) && ValOk(d, f) && ElimsOk(d, es)
    ensures Good(P.E, d, Spine(d, RB(d, f), es), ApplyElims(P, fuel, f, es))
    decreases |es|
  {
    if es == [] {
      StarRefl(P.E, true, RB(d, f));
    } else {
      var n := LeadingApps(es);
      if n == 0 {
        StarRefl(P.E, true, RB(d, f));
        DoProjSound(P, d, RB(d, f), f, es[0].s, es[0].idx);
        ElimsThen(P, d, fuel, RB(d, f), es, 1, DoProj(P, f, es[0].s, es[0].idx));
      } else {
        TakeOk(d, es, n);
        ApplySpine(P, d, fuel, f, es[..n]);
        if n < |es| && f.VLam? && ApplyProjField(P, fuel, f, es[..n], es[n].s, es[n].idx).Some? {
          FieldThen(P, d, fuel, f, es, n);
          ElimsThen(P, d, fuel, RB(d, f), es, n + 1, ApplyProjField(P, fuel, f, es[..n], es[n].s, es[n].idx).value);
        } else {
          ElimsThen(P, d, fuel, RB(d, f), es, n, ApplyAll(P, fuel, f, Readied(es[..n])));
        }
      }
    }
  }

  /** Some eliminations done, then the others. */
  lemma {:induction false} ElimsThen(P: Params, d: nat, fuel: nat, t: Term, es: seq<Elim>, n: nat, r: Res<Value>)
    requires Sound(P) && ElimsOk(d, es) && 0 < n <= |es| && Good(P.E, d, Spine(d, t, es[..n]), r)
    ensures r.Ok? ==> Good(P.E, d, Spine(d, t, es), ApplyElims(P, fuel, r.v, es[n..]))
    decreases |es|, 0
  {
    if r.Ok? {
      ApplyElimsSound(P, d, fuel, r.v, es[n..]);
      assert es == es[..n] + es[n..];
      SpineCat(d, t, es[..n], es[n..]);
      StarSpine(P.E, d, Spine(d, t, es[..n]), RB(d, r.v), es[n..]);
      GoodConv(P.E, d, Spine(d, t, es), Spine(d, RB(d, r.v), es[n..]), ApplyElims(P, fuel, r.v, es[n..]));
    }
  }
}
