// The reduction rules as convertibilities of spines: each rule fires once the argument it inspects is
// convertible with a constructor application.
module Rules {
  import opened Names
  import opened Terms
  import opened Conversion
  import L = Levels

  lemma {:induction false} ConvArg(E: Env, h: Term, args: seq<Term>, k: nat, x: Term)
    requires k < |args| && Conv(E, args[k], x)
    ensures Conv(E, MkApps(h, args), MkApps(h, args[k := x]))
  {
    StarRefl(E, true, h);
    forall i | 0 <= i < |args| ensures Conv(E, args[i], args[k := x][i]) { StarRefl(E, true, args[i]); }
    StarApps(E, true, h, h, args, args[k := x]);
  }

  lemma SpineOfConst(h: Term, args: seq<Term>)
    requires !h.App?
    ensures AppFn(MkApps(h, args)) == h && AppArgs(MkApps(h, args)) == args
  {
    SpineOf(h, args);
    assert [] + args == args;
  }

  /** The last argument of a spine replaced by the constructor application it is convertible with. */
  lemma MajorReplaced(E: Env, h: Term, args: seq<Term>, c: Term, cargs: seq<Term>) returns (args': seq<Term>)
    requires !h.App? && args != [] && !c.App? && Conv(E, args[|args| - 1], MkApps(c, cargs))
    ensures |args'| == |args| && args'[|args| - 1] == MkApps(c, cargs)
    ensures forall k :: 0 <= k < |args| - 1 ==> args'[k] == args[k]
    ensures Conv(E, MkApps(h, args), MkApps(h, args'))
    ensures AppFn(MkApps(h, args')) == h && AppArgs(MkApps(h, args')) == args'
    ensures AppFn(MkApps(c, cargs)) == c && AppArgs(MkApps(c, cargs)) == cargs
  {
    var m := |args| - 1;
    args' := args[m := MkApps(c, cargs)];
    ConvArg(E, h, args, m, MkApps(c, cargs));
    SpineOfConst(h, args');
    SpineOfConst(c, cargs);
  }

  /** The rule's right-hand side on the parameters, motives, minor premises and trailing fields. */
  function IotaResult(rec: ConstInfo, ls: seq<L.Level>, args: seq<Term>, cargs: seq<Term>, rule: RecRule): Term
    requires rec.Rec? && |ls| == |rec.rparams| && FirstIndex(rec) <= |args| && rule.nfields <= |cargs|
  {
    MkApps(InstantiateLParams(rule.rhs, rec.rparams, ls), args[..FirstIndex(rec)] + cargs[|cargs| - rule.nfields..])
  }

  lemma IotaRoot(E: Env, a: Term, h: Term, args: seq<Term>, c: Term, cargs: seq<Term>, rule: RecRule)
    requires h.Const? && h.n in E.consts && E.consts[h.n].Rec? && |h.ls| == |E.consts[h.n].rparams|
    requires |args| == MajorIdx(E.consts[h.n]) + 1 && AppFn(a) == h && AppArgs(a) == args
    requires AppFn(args[|args| - 1]) == c && AppArgs(args[|args| - 1]) == cargs
    requires c.Const? && FindRule(E.consts[h.n].rules, c.n) == Some(rule) && rule.nfields <= |cargs|
    ensures Conv(E, a, IotaResult(E.consts[h.n], h.ls, args, cargs, rule))
  {
    var r := IotaResult(E.consts[h.n], h.ls, args, cargs, rule);
    assert IsIota(E, a, r);
    RootStep(E, true, a, r);
  }

  /** A recursor fires once its major premise is convertible with a constructor application. */
  lemma IotaConv(E: Env, h: Term, args: seq<Term>, c: Term, cargs: seq<Term>, rule: RecRule)
    requires h.Const? && h.n in E.consts && E.consts[h.n].Rec? && |h.ls| == |E.consts[h.n].rparams|
    requires |args| == MajorIdx(E.consts[h.n]) + 1 && Conv(E, args[|args| - 1], MkApps(c, cargs))
    requires c.Const? && FindRule(E.consts[h.n].rules, c.n) == Some(rule) && rule.nfields <= |cargs|
    ensures Conv(E, MkApps(h, args), IotaResult(E.consts[h.n], h.ls, args, cargs, rule))
  {
    var args' := MajorReplaced(E, h, args, c, cargs);
    SamePrefix(args', args, FirstIndex(E.consts[h.n]));
    IotaRoot(E, MkApps(h, args'), h, args', c, cargs, rule);
    StarTrans(E, true, MkApps(h, args), MkApps(h, args'), IotaResult(E.consts[h.n], h.ls, args, cargs, rule));
  }

  lemma SamePrefix(xs: seq<Term>, ys: seq<Term>, k: nat)
    requires k <= |xs| && k <= |ys| && forall i :: 0 <= i < k ==> xs[i] == ys[i]
    ensures xs[..k] == ys[..k]
  {
  }

  lemma QuotConv(E: Env, h: Term, args: seq<Term>, c: Term, cargs: seq<Term>)
    requires h.Const? && (h.n == QUOT_LIFT || h.n == QUOT_IND)
    requires |args| == if h.n == QUOT_LIFT then 6 else 5
    requires Conv(E, args[|args| - 1], MkApps(c, cargs)) && c.Const? && c.n == QUOT_MK && |cargs| == 3
    ensures Conv(E, MkApps(h, args), App(args[3], cargs[2]))
  {
    var args' := MajorReplaced(E, h, args, c, cargs);
    assert IsQuotStep(MkApps(h, args'), App(args[3], cargs[2]));
    RootStep(E, true, MkApps(h, args'), App(args[3], cargs[2]));
    StarTrans(E, true, MkApps(h, args), MkApps(h, args'), App(args[3], cargs[2]));
  }

  lemma ProjConv(E: Env, s: Name, i: nat, e: Term, c: Term, cargs: seq<Term>)
    requires Conv(E, e, MkApps(c, cargs))
    requires c.Const? && c.n in E.consts && E.consts[c.n].Ctor? && E.consts[c.n].induct == s
    requires E.consts[c.n].cparams + i < |cargs|
    ensures Conv(E, Proj(s, i, e), cargs[E.consts[c.n].cparams + i])
  {
    var x := MkApps(c, cargs);
    SpineOfConst(c, cargs);
    StarProj(E, true, s, i, e, x);
    assert IsProjStep(E, Proj(s, i, x), cargs[E.consts[c.n].cparams + i]);
    RootStep(E, true, Proj(s, i, x), cargs[E.consts[c.n].cparams + i]);
    StarTrans(E, true, Proj(s, i, e), Proj(s, i, x), cargs[E.consts[c.n].cparams + i]);
  }

  /** A fixpoint rule's arm on the arguments before the recursive one and the constructor's fields. */
  function FixResult(body: Term, args: seq<Term>, cargs: seq<Term>, nfields: nat): Term
    requires args != [] && nfields <= |cargs|
  {
    InstantiateRev(body, args[..|args| - 1] + cargs[|cargs| - nfields..])
  }

  lemma FixRoot(E: Env, a: Term, h: Term, args: seq<Term>, c: Term, cargs: seq<Term>, arm: FixArm)
    requires h.Const? && h.n in E.fix && h.n in E.consts && E.consts[h.n].Def?
    requires |h.ls| == |E.consts[h.n].dparams| && |args| == E.fix[h.n].major + 1 && AppFn(a) == h && AppArgs(a) == args
    requires AppFn(args[|args| - 1]) == c && AppArgs(args[|args| - 1]) == cargs && c.Const?
    requires FindArm(E.fix[h.n].arms, c.n, |cargs|, E.fix[h.n].nparams) == Some(arm)
    ensures Conv(E, a, FixResult(InstantiateLParams(arm.body, E.consts[h.n].dparams, h.ls), args, cargs, arm.nfields))
  {
    var r := FixResult(InstantiateLParams(arm.body, E.consts[h.n].dparams, h.ls), args, cargs, arm.nfields);
    assert IsFixStep(E, a, r);
    RootStep(E, true, a, r);
  }

  lemma FixConv(E: Env, h: Term, args: seq<Term>, c: Term, cargs: seq<Term>, arm: FixArm)
    requires h.Const? && h.n in E.fix && h.n in E.consts && E.consts[h.n].Def?
    requires |h.ls| == |E.consts[h.n].dparams| && |args| == E.fix[h.n].major + 1
    requires Conv(E, args[|args| - 1], MkApps(c, cargs)) && c.Const?
    requires FindArm(E.fix[h.n].arms, c.n, |cargs|, E.fix[h.n].nparams) == Some(arm)
    ensures Conv(E, MkApps(h, args),
                 FixResult(InstantiateLParams(arm.body, E.consts[h.n].dparams, h.ls), args, cargs, arm.nfields))
  {
    var args' := MajorReplaced(E, h, args, c, cargs);
    SamePrefix(args', args, |args| - 1);
    FixRoot(E, MkApps(h, args'), h, args', c, cargs, arm);
    StarTrans(E, true, MkApps(h, args), MkApps(h, args'),
              FixResult(InstantiateLParams(arm.body, E.consts[h.n].dparams, h.ls), args, cargs, arm.nfields));
  }

  /** A literal and its constructor form, at any universe arguments. */
  lemma NatLitConv(E: Env, n: nat, ls: seq<L.Level>)
    ensures n == 0 ==> Conv(E, Lit(NatLit(0)), Const(NAT_ZERO, ls))
    ensures n > 0 ==> Conv(E, Lit(NatLit(n)), App(Const(NAT_SUCC, ls), Lit(NatLit(n - 1))))
  {
    if n == 0 {
      assert IsLitStep(Lit(NatLit(0)), Const(NAT_ZERO, ls));
      RootStep(E, true, Lit(NatLit(0)), Const(NAT_ZERO, ls));
    } else {
      var r := App(Const(NAT_SUCC, ls), Lit(NatLit(n - 1)));
      assert IsLitStep(Lit(NatLit(n)), r);
      RootStep(E, true, Lit(NatLit(n)), r);
    }
  }

  lemma NatSuccConv(E: Env, x: Term, n: nat, ls: seq<L.Level>)
    requires Conv(E, x, Lit(NatLit(n)))
    ensures Conv(E, App(Const(NAT_SUCC, ls), x), Lit(NatLit(n + 1)))
  {
    var h, l := Const(NAT_SUCC, ls), Lit(NatLit(n));
    StarRefl(E, true, h);
    StarApp(E, true, h, h, x, l);
    NatLitConv(E, n + 1, ls);
    ConvSym(E, Lit(NatLit(n + 1)), App(h, l));
    StarTrans(E, true, App(h, x), App(h, l), Lit(NatLit(n + 1)));
  }

  lemma NatBinopConv(E: Env, op: Name, ls: seq<L.Level>, x: Term, a: nat, y: Term, b: nat, r: Term)
    requires Conv(E, x, Lit(NatLit(a))) && Conv(E, y, Lit(NatLit(b))) && NatBinop(op, a, b) == Some(r)
    ensures Conv(E, App(App(Const(op, ls), x), y), r)
  {
    var h, p, q := Const(op, ls), Lit(NatLit(a)), Lit(NatLit(b));
    StarRefl(E, true, h);
    StarApp(E, true, h, h, x, p);
    StarApp(E, true, App(h, x), App(h, p), y, q);
    assert IsNatStep(App(App(h, p), q), r);
    RootStep(E, true, App(App(h, p), q), r);
    StarTrans(E, true, App(App(h, x), y), App(App(h, p), q), r);
  }
}
