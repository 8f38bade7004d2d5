// Weak-head reduction of values and their readback (src/nbe.cpp).
module NbeWhnf {
  import opened Names
  import opened Terms
  import opened Conversion
  import opened NbeModel
  import opened NbeEval
  import L = Levels

  /**
   * The engine: evaluation's parameters, fusion, the lazy machine (nothing if its fuel is spent), and the
   * constructors the typing rules find for a recursor's major premise whose type is K-like or a structure.
   */
  datatype Engine = Engine(P: Params, useMachine: bool, fuse: Term -> Term, machine: Term -> Option<Term>,
                           kCtor: (nat, Name, Value) -> Option<Value>, structCtor: (nat, Name, Value) -> Value)

  const GROOT: VEnv := Root(NoLevels)

  /** The root under which an instance of a declaration's term is evaluated. */
  function InstRoot(ps: seq<Name>, ls: seq<L.Level>): VEnv
    requires |ps| == |ls|
  {
    Root(if ps == [] || ls == OwnParams(ps) then NoLevels else Levels(ps, ls))
  }

  function LeadingApps(es: seq<Elim>): (n: nat)
    ensures n <= |es| && NoProj(es[..n]) && (n < |es| ==> es[n].EProj?)
    decreases |es|
  {
    if es == [] || es[0].EProj? then 0
    else
      var n := LeadingApps(es[1..]);
      assert es[..n + 1] == [es[0]] + es[1..][..n];
      n + 1
  }

  function Readied(es: seq<Elim>): seq<Arg>
    requires NoProj(es)
  {
    seq(|es|, k requires 0 <= k < |es| => Ready(es[k].v))
  }

  /** The environment and the body reached by entering all the arguments' lambdas, if there are as many. */
  function EnterAll(env: VEnv, t: Term, args: seq<Elim>): Option<(VEnv, Term)>
    requires NoProj(args)
    decreases |args|
  {
    if args == [] then Some((env, t))
    else if !t.Lam? then None
    else EnterAll(Ext(args[0].v, env), t.body, args[1..])
  }

  /** A lambda applied and projected, when its body is the structure's constructor: just that field. */
  function ApplyProjField(P: Params, fuel: nat, f: Value, args: seq<Elim>, s: Name, idx: nat): Option<Res<Value>>
    requires NoProj(args) && f.VLam?
  {
    var r := EnterAll(f.env, Lam(f.dom, f.body), args);
    if r.None? then None
    else
      var h, xs := AppFn(r.value.1), AppArgs(r.value.1);
      if !(h.Const? && h.n in P.E.consts && P.E.consts[h.n].Ctor?) then None
      else
        var c := P.E.consts[h.n];
        if c.induct != s || |xs| != c.cparams + c.cfields || idx >= c.cfields || |h.ls| != c.clevels then None
        else Some(Eval(P, fuel, r.value.0, xs[c.cparams + idx]))
  }

  /** A value applied to eliminations; arguments followed by a projection may need one field only. */
  function ApplyElims(P: Params, fuel: nat, f: Value, es: seq<Elim>): Res<Value>
    decreases |es|
  {
    if es == [] then Ok(f)
    else
      var n := LeadingApps(es);
      if n == 0 then
        var r := DoProj(P, f, es[0].s, es[0].idx);
        if r.Err? then r else ApplyElims(P, fuel, r.v, es[1..])
      else
        var field := if n < |es| && f.VLam? then ApplyProjField(P, fuel, f, es[..n], es[n].s, es[n].idx) else None;
        if field.Some? then
          if field.value.Err? then field.value else ApplyElims(P, fuel, field.value.v, es[n + 1..])
        else
          var r := ApplyAll(P, fuel, f, Readied(es[..n]));
          if r.Err? then r else ApplyElims(P, fuel, r.v, es[n..])
  }

  /** No bound variable anywhere in the value, the whole of its environments included. */
  predicate ClosedVal(v: Value)
    decreases v
  {
    match v
    case VNeu(h, sp) => !h.HBVar? && forall k :: 0 <= k < |sp| ==> ClosedElim(sp[k])
    case VLam(_, env, _) => ClosedVEnv(env)
    case VPi(_, env, _) => ClosedVEnv(env)
    case _ => true
  }

  predicate ClosedElim(e: Elim)
    decreases e
  {
    e.EApp? ==> ClosedVal(e.v)
  }

  predicate ClosedVEnv(env: VEnv)
    decreases env
  {
    match env
    case Root(_) => true
    case Ext(v, p) => ClosedVal(v) && ClosedVEnv(p)
    case Frame(_, vs, _) => forall k :: 0 <= k < |vs| ==> ClosedVal(vs[k])
  }

  // ---------------------------------------------------------------- readback

  function Fresh(d: nat): Value { VNeu(HBVar(d), []) }

  /** The term a value denotes at binder depth d. */
  function Quote(P: Params, fuel: nat, d: nat, v: Value): Res<Term>
    decreases fuel, 1
  {
    if fuel == 0 then Err(OutOfFuel)
    else match v
      case VSort(l) => Ok(Sort(l))
      case VNat(n) => Ok(Lit(NatLit(n)))
      case VStr(s) => Ok(Lit(StrLit(s)))
      case VLam(dom, env, body) =>
        var r := QuoteBinder(P, fuel - 1, d, dom, env, body);
        if r.Err? then Err(r.e) else Ok(Lam(r.v.0, r.v.1))
      case VPi(dom, env, body) =>
        var r := QuoteBinder(P, fuel - 1, d, dom, env, body);
        if r.Err? then Err(r.e) else Ok(Pi(r.v.0, r.v.1))
      case VNeu(h, sp) =>
        if h.HBVar? && h.level >= d then Err(OutOfScope) else QuoteSpine(P, fuel - 1, d, HeadTerm(d, h), sp)
  }

  function EvalQuote(P: Params, fuel: nat, d: nat, env: VEnv, t: Term): Res<Term>
    decreases fuel, 2
  {
    var v := Eval(P, fuel, env, t);
    if v.Err? then Err(v.e) else Quote(P, fuel, d, v.v)
  }

  /** A binder's type, and its body under a fresh variable. */
  function QuoteBinder(P: Params, fuel: nat, d: nat, dom: Term, env: VEnv, body: Term): Res<(Term, Term)>
    decreases fuel, 3
  {
    Pair(EvalQuote(P, fuel, d, env, dom), EvalQuote(P, fuel, d + 1, Ext(Fresh(d), env), body))
  }

  function Pair(x: Res<Term>, y: Res<Term>): Res<(Term, Term)> {
    if x.Err? then Err(x.e) else if y.Err? then Err(y.e) else Ok((x.v, y.v))
  }

  function QuoteSpine(P: Params, fuel: nat, d: nat, h: Term, sp: seq<Elim>): Res<Term>
    decreases fuel, 2, |sp|
  {
    if sp == [] then Ok(h)
    else if sp[0].EProj? then QuoteSpine(P, fuel, d, Proj(sp[0].s, sp[0].idx, h), sp[1..])
    else
      var x := Quote(P, fuel, d, sp[0].v);
      if x.Err? then x else QuoteSpine(P, fuel, d, App(h, x.v), sp[1..])
  }

  // ---------------------------------------------------------------- weak-head reduction

  function Whnf(W: Engine, fuel: nat, d: nat, v: Value): Res<Value>
    decreases fuel, 1
  {
    if !v.VNeu? then Ok(v)
    else if fuel == 0 then Err(OutOfFuel)
    else
      var r := Step(W, fuel - 1, d, v);
      if r.Err? then Err(r.e) else if r.v.None? then Ok(v) else Whnf(W, fuel - 1, d, r.v.value)
  }

  predicate IsRec(E: Env, h: Head) { h.HConst? && h.n in E.consts && E.consts[h.n].Rec? }

  predicate IsQuotHead(E: Env, h: Head) {
    h.HConst? && h.n in E.consts && E.consts[h.n].Quotient? && (h.n == QUOT_LIFT || h.n == QUOT_IND)
  }

  /** An opaque head: an axiom, an undeclared constant, or a quotient constant that does not reduce. */
  predicate IsAxiomHead(E: Env, h: Head) {
    h.HConst? && (h.n in E.consts ==> E.consts[h.n].Axiom? || (E.consts[h.n].Quotient? && !IsQuotHead(E, h)))
  }

  /** One head step, or nothing if there is none. */
  function Step(W: Engine, fuel: nat, d: nat, v: Value): Res<Option<Value>>
    requires v.VNeu?
    decreases fuel, 5
  {
    var E := W.P.E;
    if v.h.HFVar? then
      if v.h.id !in E.lets then Ok(None) else Unfolded(W.P, fuel, GROOT, E.lets[v.h.id], v.sp)
    else if !(IsDef(E, v.h) || IsRec(E, v.h) || IsQuotHead(E, v.h)) then Ok(None)
    else if W.useMachine && ClosedVal(v) then MachineStep(W, fuel, v)
    else if IsDef(E, v.h) then Unfold(W, fuel, d, v)
    else if IsRec(E, v.h) then Iota(W, fuel, d, v)
    else Quot(W, fuel, d, v)
  }

  function Stepped(r: Res<Value>): Res<Option<Value>> {
    if r.Err? then Err(r.e) else Ok(Some(r.v))
  }

  function ThenApply(P: Params, fuel: nat, r: Res<Value>, args: seq<Elim>): Res<Value>
    requires NoProj(args)
  {
    if r.Err? then r else ApplyAll(P, fuel, r.v, Readied(args))
  }

  function ThenElims(P: Params, fuel: nat, r: Res<Value>, es: seq<Elim>): Res<Option<Value>> {
    if r.Err? then Err(r.e) else Stepped(ApplyElims(P, fuel, r.v, es))
  }

  /** A head replaced by the value of a term, under the head's eliminations. */
  function Unfolded(P: Params, fuel: nat, root: VEnv, t: Term, sp: seq<Elim>): Res<Option<Value>> {
    ThenElims(P, fuel, Eval(P, fuel, root, t), sp)
  }

  /** Closed computation is fused and goes to the lazy machine; nothing if that gives the same term back. */
  function MachineStep(W: Engine, fuel: nat, v: Value): Res<Option<Value>> {
    var q := Quote(W.P, fuel, 0, v);
    if q.Err? then Err(q.e)
    else
      var r := W.machine(W.fuse(q.v));
      if r.None? then Err(OutOfFuel)
      else if r.value == q.v then Ok(None)
      else Stepped(Eval(W.P, fuel, GROOT, r.value))
  }

  /** A `Nat` primitive on closed numerals, or the definition's value. */
  function Unfold(W: Engine, fuel: nat, d: nat, v: Value): Res<Option<Value>>
    requires v.VNeu? && IsDef(W.P.E, v.h)
    decreases fuel, 4
  {
    var num := NatPrimitive(W, fuel, d, v);
    if num.Err? || num.v.Some? then num
    else
      var c := W.P.E.consts[v.h.n];
      if |c.dparams| != |v.h.ls| then Ok(None)
      else Unfolded(W.P, fuel, InstRoot(c.dparams, v.h.ls), c.value, v.sp)
  }

  function NatPrimitive(W: Engine, fuel: nat, d: nat, v: Value): Res<Option<Value>>
    requires v.VNeu? && v.h.HConst?
    decreases fuel, 3
  {
    if !(IsNatBinop(v.h.n) && |v.sp| == 2 && v.sp[0].EApp? && v.sp[1].EApp?) then Ok(None)
    else if !(ClosedVal(v.sp[0].v) && ClosedVal(v.sp[1].v)) then Ok(None)
    else
      var x := AsNat(W, fuel, d, v.sp[0].v);
      if x.Err? then Err(x.e)
      else if x.v.None? then Ok(None)
      else
        var y := AsNat(W, fuel, d, v.sp[1].v);
        if y.Err? then Err(y.e)
        else if y.v.None? then Ok(None)
        else Ok(Binop(v.h.n, x.v.value, y.v.value))
  }

  /** The numeral a value reduces to: a literal, `Nat.zero`, or `Nat.succ` of a numeral. */
  function AsNat(W: Engine, fuel: nat, d: nat, v: Value): Res<Option<nat>>
    decreases fuel, 2
  {
    var w := Whnf(W, fuel, d, v);
    if w.Err? then Err(w.e)
    else if w.v.VNat? then Ok(Some(w.v.n))
    else if !(w.v.VNeu? && IsCtor(W.P.E, w.v.h)) then Ok(None)
    else if w.v.h.n == NAT_ZERO && w.v.sp == [] then Ok(Some(0))
    else if w.v.h.n == NAT_SUCC && |w.v.sp| == 1 && w.v.sp[0].EApp? then
      if fuel == 0 then Err(OutOfFuel)
      else
        var n := AsNat(W, fuel - 1, d, w.v.sp[0].v);
        if n.Err? || n.v.None? then n else Ok(Some(n.v.value + 1))
    else Ok(None)
  }

  function NatToCtor(n: nat): Value {
    if n == 0 then VNeu(HConst(NAT_ZERO, []), []) else VNeu(HConst(NAT_SUCC, []), [EApp(VNat(n - 1))])
  }

  /** The recursor's major premise in constructor form, as far as it has one. */
  function Major(W: Engine, fuel: nat, d: nat, n: Name, v: Value): Res<Value>
    requires n in W.P.E.consts && W.P.E.consts[n].Rec?
    decreases fuel, 3
  {
    var rec := W.P.E.consts[n];
    var kc := if rec.k then W.kCtor(d, n, v) else None;
    var w := Whnf(W, fuel, d, if kc.Some? then kc.value else v);
    if w.Err? then w
    else if w.v.VNat? then Ok(NatToCtor(w.v.n))
    else if w.v.VStr? then Ok(W.P.strv(w.v.s))
    else Ok(W.structCtor(d, rec.majorInduct, w.v))
  }

  function Iota(W: Engine, fuel: nat, d: nat, v: Value): Res<Option<Value>>
    requires v.VNeu? && IsRec(W.P.E, v.h)
    decreases fuel, 4
  {
    var rec, es := W.P.E.consts[v.h.n], v.sp;
    var mi := MajorIdx(rec);
    if LeadingApps(es) <= mi || |rec.rparams| != |v.h.ls| then Ok(None)
    else
      var major := Major(W, fuel, d, v.h.n, es[mi].v);
      if major.Err? then Err(major.e)
      else if !(major.v.VNeu? && IsCtor(W.P.E, major.v.h) && NoProj(major.v.sp)) then Ok(None)
      else
        var rule := FindRule(rec.rules, major.v.h.n);
        if rule.None? || rule.value.nfields > |major.v.sp| then Ok(None)
        else Fire(W.P, fuel, rec, v.h.ls, rule.value, es, major.v.sp)
  }

  /** The rule's right-hand side on the arguments before the indices, the fields, and what follows the major premise. */
  function Fire(P: Params, fuel: nat, rec: ConstInfo, ls: seq<L.Level>, rule: RecRule, es: seq<Elim>, ms: seq<Elim>)
    : Res<Option<Value>>
    requires rec.Rec? && |rec.rparams| == |ls| && MajorIdx(rec) < LeadingApps(es)
    requires NoProj(ms) && rule.nfields <= |ms|
  {
    var rhs := Eval(P, fuel, InstRoot(rec.rparams, ls), rule.rhs);
    var before := ThenApply(P, fuel, rhs, es[..FirstIndex(rec)]);
    ThenElims(P, fuel, ThenApply(P, fuel, before, ms[|ms| - rule.nfields..]), es[MajorIdx(rec) + 1..])
  }

  function Quot(W: Engine, fuel: nat, d: nat, v: Value): Res<Option<Value>>
    requires v.VNeu? && v.h.HConst?
    decreases fuel, 4
  {
    var pos, es := if v.h.n == QUOT_LIFT then 5 else 4, v.sp;
    if LeadingApps(es) <= pos then Ok(None)
    else
      var mk := Whnf(W, fuel, d, es[pos].v);
      if mk.Err? then Err(mk.e)
      else if !(mk.v.VNeu? && IsAxiomHead(W.P.E, mk.v.h) && mk.v.h.n == QUOT_MK && |mk.v.sp| == 3 && NoProj(mk.v.sp)) then Ok(None)
      else
        ThenElims(W.P, fuel, Apply(W.P, fuel, es[3].v, mk.v.sp[2].v), es[pos + 1..])
  }
}
