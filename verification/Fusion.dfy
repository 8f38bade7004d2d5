// Wrapper fusion (src/fuse.cpp): a definition's value is reduced once, ahead of time.  Whatever its limits
// cut short, the result is reached from the term by reduction steps.
module Fusion {
  import opened Names
  import opened Terms
  import opened Conversion

  /** The declarations, and which definitions fusion may unfold. */
  datatype Params = Params(E: Env, unfoldable: Name -> bool)

  const MAX_DEPTH: nat := 48
  const MAX_UNFOLDS: nat := 64
  const MAX_VISITS: nat := 20000

  /** Reduction that brings in no loose variable. */
  ghost predicate Fuses(E: Env, a: Term, b: Term) { Reds(E, a, b) && forall i: nat :: Occurs(b, i) ==> Occurs(a, i) }

  lemma FusesRefl(E: Env, a: Term)
    ensures Fuses(E, a, a)
  {
    StarRefl(E, false, a);
  }

  lemma FusesTrans(E: Env, a: Term, b: Term, c: Term)
    requires Fuses(E, a, b) && Fuses(E, b, c)
    ensures Fuses(E, a, c)
  {
    StarTrans(E, false, a, b, c);
  }

  lemma FusesHead(E: Env, f: Term, g: Term, args: seq<Term>)
    requires Fuses(E, f, g)
    ensures Fuses(E, MkApps(f, args), MkApps(g, args))
  {
    StarHead(E, false, f, g, args);
    forall i: nat | Occurs(MkApps(g, args), i) ensures Occurs(MkApps(f, args), i) {
      OccursMkApps(g, args, i);
      OccursMkApps(f, args, i);
    }
  }

  lemma FusesArgs(E: Env, f: Term, xs: seq<Term>, ys: seq<Term>)
    requires |xs| == |ys| && forall k :: 0 <= k < |xs| ==> Fuses(E, xs[k], ys[k])
    ensures Fuses(E, MkApps(f, xs), MkApps(f, ys))
  {
    StarRefl(E, false, f);
    StarApps(E, false, f, f, xs, ys);
    forall i: nat | Occurs(MkApps(f, ys), i) ensures Occurs(MkApps(f, xs), i) {
      OccursMkApps(f, ys, i);
      OccursMkApps(f, xs, i);
      if k :| 0 <= k < |ys| && Occurs(ys[k], i) { assert Fuses(E, xs[k], ys[k]); }
    }
  }

  // ---------------------------------------------------------------- the reductions

  /** The number of lambdas that meet an argument. */
  function Redexes(f: Term, n: nat): (i: nat)
    ensures i <= n && IsLams(f, i) && (n > 0 && f.Lam? ==> i > 0)
  {
    if n == 0 || !f.Lam? then 0 else Redexes(f.body, n - 1) + 1
  }

  /** Several beta steps over open arguments, made as one simultaneous instantiation. */
  lemma FusesBeta(E: Env, f: Term, args: seq<Term>, i: nat)
    requires i <= |args| && IsLams(f, i)
    ensures Fuses(E, MkApps(f, args), MkApps(InstantiateRev(LamBody(f, i), args[..i]), args[i..]))
  {
    var t := InstantiateRev(LamBody(f, i), args[..i]);
    BetaMany(E, false, f, args[..i]);
    forall j: nat | Occurs(t, j) ensures Occurs(MkApps(f, args[..i]), j) { BetaOccurs(f, args[..i], j); }
    FusesHead(E, MkApps(f, args[..i]), t, args[i..]);
    assert args == args[..i] + args[i..];
    MkAppsAppend(f, args[..i], args[i..]);
  }

  lemma BetaOccurs(f: Term, args: seq<Term>, j: nat)
    requires IsLams(f, |args|) && Occurs(InstantiateRev(LamBody(f, |args|), args), j)
    ensures Occurs(MkApps(f, args), j)
  {
    var b, es := LamBody(f, |args|), Reverse(args);
    InstantiateIsSub(b, es);
    OccursSub(b, Entries(es, 0), j);
    var k: nat :| Occurs(b, k) && Occurs(Entries(es, 0)(k), j);
    OccursMkApps(f, args, j);
    if k < |args| {
      RenZero(es[k]);
      assert Occurs(args[|args| - 1 - k], j);
    } else {
      OccursLamBody(f, |args|, j);
    }
  }

  lemma FusesDelta(E: Env, f: Term)
    requires ClosedDecls(E) && f.Const? && f.n in E.consts && E.consts[f.n].Def? && |f.ls| == |E.consts[f.n].dparams|
    ensures Fuses(E, f, InstantiateLParams(E.consts[f.n].value, E.consts[f.n].dparams, f.ls))
  {
    var c := E.consts[f.n];
    var v := InstantiateLParams(c.value, c.dparams, f.ls);
    assert IsDelta(E, f, v);
    RootStep(E, false, f, v);
    InstantiateLParamsOccurs(c.value, c.dparams, f.ls);
    RangeExact(v);
  }

  /** The field of a syntactic, fully applied constructor. */
  function CtorAppField(E: Env, t: Term, s: Name, idx: nat): Option<Term> {
    var h, args := AppFn(t), AppArgs(t);
    if !(h.Const? && h.n in E.consts && E.consts[h.n].Ctor?) then None
    else
      var c := E.consts[h.n];
      if c.induct != s || |args| != c.cparams + c.cfields || idx >= c.cfields then None
      else Some(args[c.cparams + idx])
  }

  lemma FusesProj(E: Env, t: Term, s: Name, idx: nat)
    requires CtorAppField(E, t, s, idx).Some?
    ensures Fuses(E, Proj(s, idx, t), CtorAppField(E, t, s, idx).value)
  {
    var r := CtorAppField(E, t, s, idx).value;
    assert IsProjStep(E, Proj(s, idx, t), r);
    RootStep(E, false, Proj(s, idx, t), r);
    forall i: nat | Occurs(r, i) ensures Occurs(t, i) { ArgOccurs(t, E.consts[AppFn(t).n].cparams + idx, i); }
  }

  lemma ArgOccurs(t: Term, k: nat, i: nat)
    requires k < |AppArgs(t)| && Occurs(AppArgs(t)[k], i)
    ensures Occurs(t, i)
  {
    SpineSplit(t);
    OccursMkApps(AppFn(t), AppArgs(t), i);
  }

  /** A recursor on a major premise that is syntactically a fully applied constructor. */
  function TryIota(E: Env, f: Term, args: seq<Term>): Option<Term>
    requires f.Const? && f.n in E.consts && E.consts[f.n].Rec?
  {
    var rec := E.consts[f.n];
    if |args| <= MajorIdx(rec) then None
    else
      var mh, margs := AppFn(args[MajorIdx(rec)]), AppArgs(args[MajorIdx(rec)]);
      if !(mh.Const? && mh.n in E.consts && E.consts[mh.n].Ctor?) then None
      else
        var c := E.consts[mh.n];
        if |margs| != c.cparams + c.cfields then None
        else
          var rule := FindRule(rec.rules, mh.n);
          if rule.None? || rule.value.nfields != c.cfields || |f.ls| != |rec.rparams| then None
          else Some(MkApps(InstantiateLParams(rule.value.rhs, rec.rparams, f.ls),
                           args[..FirstIndex(rec)] + margs[c.cparams..] + args[MajorIdx(rec) + 1..]))
  }

  lemma FiresIota(E: Env, f: Term, upto: seq<Term>)
    requires ClosedDecls(E) && f.Const? && f.n in E.consts && E.consts[f.n].Rec? && TryIota(E, f, upto).Some?
    requires |upto| == MajorIdx(E.consts[f.n]) + 1
    ensures var rec := E.consts[f.n];
            var mh, margs := AppFn(upto[|upto| - 1]), AppArgs(upto[|upto| - 1]);
            var rhs := InstantiateLParams(FindRule(rec.rules, mh.n).value.rhs, rec.rparams, f.ls);
            Fuses(E, MkApps(f, upto), MkApps(rhs, upto[..FirstIndex(rec)] + margs[E.consts[mh.n].cparams..]))
  {
    var rec := E.consts[f.n];
    var mh, margs := AppFn(upto[|upto| - 1]), AppArgs(upto[|upto| - 1]);
    var rule, c := FindRule(rec.rules, mh.n).value, E.consts[mh.n];
    var rhs, fired := InstantiateLParams(rule.rhs, rec.rparams, f.ls), upto[..FirstIndex(rec)] + margs[c.cparams..];
    SpineOf(f, upto);
    assert [] + upto == upto;
    assert IsIota(E, MkApps(f, upto), MkApps(rhs, fired));
    RootStep(E, false, MkApps(f, upto), MkApps(rhs, fired));
    InstantiateLParamsOccurs(rule.rhs, rec.rparams, f.ls);
    RangeExact(rhs);
    forall i: nat | Occurs(MkApps(rhs, fired), i) ensures Occurs(MkApps(f, upto), i) {
      IotaOccurs(f, upto, rhs, FirstIndex(rec), c.cparams, i);
    }
  }

  lemma FusesIota(E: Env, f: Term, args: seq<Term>)
    requires ClosedDecls(E) && f.Const? && f.n in E.consts && E.consts[f.n].Rec? && TryIota(E, f, args).Some?
    ensures Fuses(E, MkApps(f, args), TryIota(E, f, args).value)
  {
    var rec := E.consts[f.n];
    var mi := MajorIdx(rec);
    var mh, margs := AppFn(args[mi]), AppArgs(args[mi]);
    var rule, c := FindRule(rec.rules, mh.n).value, E.consts[mh.n];
    var rhs := InstantiateLParams(rule.rhs, rec.rparams, f.ls);
    var upto, fired := args[..mi + 1], args[..FirstIndex(rec)] + margs[c.cparams..];
    assert upto[..FirstIndex(rec)] == args[..FirstIndex(rec)];
    FiresIota(E, f, upto);
    FusesHead(E, MkApps(f, upto), MkApps(rhs, fired), args[mi + 1..]);
    assert args == upto + args[mi + 1..];
    MkAppsAppend(f, upto, args[mi + 1..]);
    MkAppsAppend(rhs, fired, args[mi + 1..]);
  }

  lemma IotaOccurs(f: Term, upto: seq<Term>, rhs: Term, k: nat, p: nat, i: nat)
    requires upto != [] && k <= |upto| && p <= |AppArgs(upto[|upto| - 1])| && !Occurs(rhs, i)
    requires Occurs(MkApps(rhs, upto[..k] + AppArgs(upto[|upto| - 1])[p..]), i)
    ensures Occurs(MkApps(f, upto), i)
  {
    var margs := AppArgs(upto[|upto| - 1]);
    var all := upto[..k] + margs[p..];
    OccursMkApps(rhs, all, i);
    OccursMkApps(f, upto, i);
    var j :| 0 <= j < |all| && Occurs(all[j], i);
    if j < k {
      assert all[j] == upto[j];
    } else {
      assert all[j] == margs[p + (j - k)];
      ArgOccurs(upto[|upto| - 1], p + (j - k), i);
    }
  }

  // ---------------------------------------------------------------- sharing

  /** Copying this argument copies no work: an atom, a lambda, or a constructor applied to such. */
  predicate IsCheapArg(E: Env, a: Term, depth: nat)
    decreases a
  {
    match a
    case BVar(_) => true
    case FVar(_) => true
    case Const(_, _) => true
    case Sort(_) => true
    case Lit(_) => true
    case Lam(_, _) => true
    case App(_, _) =>
      var h, args := AppFn(a), AppArgs(a);
      depth <= 3 && h.Const? && h.n in E.consts && E.consts[h.n].Ctor?
      && |args| == E.consts[h.n].cparams + E.consts[h.n].cfields
      && forall k :: 0 <= k < |args| ==> (ArgSmaller(a, k); IsCheapArg(E, args[k], depth + 1))
    case _ => false
  }

  lemma {:induction false} ArgSmaller(t: Term, k: nat)
    requires k < |AppArgs(t)|
    ensures AppArgs(t)[k] < t
  {
    if k < |AppArgs(t)| - 1 { ArgSmaller(t.f, k); }
  }

  /** How often a variable occurs, in the tree. */
  function Occurrences(t: Term, i: nat): nat {
    match t
    case BVar(j) => if i == j then 1 else 0
    case App(f, x) => Occurrences(f, i) + Occurrences(x, i)
    case Lam(d, b) => Occurrences(d, i) + Occurrences(b, i + 1)
    case Pi(d, b) => Occurrences(d, i) + Occurrences(b, i + 1)
    case Let(y, v, b) => Occurrences(y, i) + Occurrences(v, i) + Occurrences(b, i + 1)
    case Proj(_, _, e) => Occurrences(e, i)
    case _ => 0
  }

  lemma {:induction false} OccurrencesZero(t: Term, i: nat)
    ensures Occurrences(t, i) == 0 <==> !Occurs(t, i)
  {
    match t
    case App(f, x) => OccurrencesZero(f, i); OccurrencesZero(x, i);
    case Lam(d, b) => OccurrencesZero(d, i); OccurrencesZero(b, i + 1);
    case Pi(d, b) => OccurrencesZero(d, i); OccurrencesZero(b, i + 1);
    case Let(y, v, b) => OccurrencesZero(y, i); OccurrencesZero(v, i); OccurrencesZero(b, i + 1);
    case Proj(_, _, e) => OccurrencesZero(e, i);
    case _ =>
  }

  /** What is still to be counted. */
  ghost function Todo(todo: seq<(Term, nat)>, i: nat): nat
    decreases |todo|
  {
    if todo == [] then 0
    else Todo(todo[..|todo| - 1], i) + Occurrences(todo[|todo| - 1].0, i + todo[|todo| - 1].1)
  }

  function Capped(n: nat): nat { if n < 2 then n else 2 }

  ghost predicate Counted(cnt: seq<nat>, b: Term, todo: seq<(Term, nat)>) {
    forall i :: 0 <= i < |cnt| ==> cnt[i] <= 2 && Capped(cnt[i] + Todo(todo, i)) == Capped(Occurrences(b, i))
  }

  lemma TodoTwo(init: seq<(Term, nat)>, x: (Term, nat), y: (Term, nat), i: nat)
    ensures Todo(init + [x, y], i) == Todo(init, i) + Occurrences(x.0, i + x.1) + Occurrences(y.0, i + y.1)
  {
    assert (init + [x, y])[..|init| + 1] == init + [x];
    assert (init + [x])[..|init|] == init;
  }

  lemma TodoOne(init: seq<(Term, nat)>, x: (Term, nat), i: nat)
    ensures Todo(init + [x], i) == Todo(init, i) + Occurrences(x.0, i + x.1)
  {
    assert (init + [x])[..|init|] == init;
  }

  lemma TodoThree(init: seq<(Term, nat)>, x: (Term, nat), y: (Term, nat), z: (Term, nat), i: nat)
    ensures Todo(init + [x, y, z], i)
         == Todo(init, i) + Occurrences(x.0, i + x.1) + Occurrences(y.0, i + y.1) + Occurrences(z.0, i + z.1)
  {
    TodoOne(init, x, i);
    TodoTwo(init + [x], y, z, i);
    assert init + [x, y, z] == init + [x] + [y, z];
  }

  /** The parts of a term still to be counted, in the order they are pushed. */
  function Pieces(x: Term, d: nat): seq<(Term, nat)> {
    match x
    case App(f, a) => [(f, d), (a, d)]
    case Lam(y, b) => [(y, d), (b, d + 1)]
    case Pi(y, b) => [(y, d), (b, d + 1)]
    case Let(y, v, b) => [(y, d), (v, d), (b, d + 1)]
    case Proj(_, _, e) => [(e, d)]
    case _ => []
  }

  lemma PiecesCount(init: seq<(Term, nat)>, x: Term, d: nat, i: nat)
    requires !x.BVar?
    ensures Todo(init + Pieces(x, d), i) == Todo(init, i) + Occurrences(x, i + d)
  {
    assert init + [] == init;
    match x
    case App(f, a) => TodoTwo(init, (f, d), (a, d), i);
    case Lam(y, b) => TodoTwo(init, (y, d), (b, d + 1), i);
    case Pi(y, b) => TodoTwo(init, (y, d), (b, d + 1), i);
    case Let(y, v, b) => TodoThree(init, (y, d), (v, d), (b, d + 1), i);
    case Proj(_, _, e) => TodoOne(init, (e, d), i);
    case _ =>
  }

  /** A term with none of the variables counted adds nothing. */
  lemma CountedSkip(cnt: seq<nat>, b: Term, init: seq<(Term, nat)>, x: Term, d: nat)
    requires Counted(cnt, b, init + [(x, d)]) && Range(x) <= d
    ensures Counted(cnt, b, init)
  {
    forall i | 0 <= i < |cnt| ensures Todo(init + [(x, d)], i) == Todo(init, i) {
      TodoOne(init, (x, d), i);
      RangeExact(x);
      OccurrencesZero(x, i + d);
    }
  }

  /** One more occurrence of variable j, seen under d binders. */
  function Bump(cnt: seq<nat>, j: nat, d: nat): seq<nat> {
    if j >= d && j - d < |cnt| && cnt[j - d] < 2 then cnt[j - d := cnt[j - d] + 1] else cnt
  }

  lemma CountedVar(cnt: seq<nat>, b: Term, init: seq<(Term, nat)>, j: nat, d: nat)
    requires Counted(cnt, b, init + [(BVar(j), d)])
    ensures Counted(Bump(cnt, j, d), b, init)
  {
    forall i: nat ensures Todo(init + [(BVar(j), d)], i) == Todo(init, i) + if i + d == j then 1 else 0 {
      TodoOne(init, (BVar(j), d), i);
    }
  }

  lemma CountedPieces(cnt: seq<nat>, b: Term, init: seq<(Term, nat)>, x: Term, d: nat)
    requires Counted(cnt, b, init + [(x, d)]) && !x.BVar?
    ensures Counted(cnt, b, init + Pieces(x, d))
  {
    forall i | 0 <= i < |cnt| ensures Todo(init + Pieces(x, d), i) == Todo(init + [(x, d)], i) {
      TodoOne(init, (x, d), i);
      PiecesCount(init, x, d, i);
    }
  }

  /** Occurrences of each of the n innermost variables, capped at two; all two if the traversal is cut short. */
  method CountBVars(b: Term, n: nat) returns (cnt: seq<nat>)
    ensures |cnt| == n
    ensures (forall i :: 0 <= i < n ==> cnt[i] == Capped(Occurrences(b, i))) || forall i :: 0 <= i < n ==> cnt[i] == 2
  {
    cnt := seq(n, i => 0);
    var todo, visits := [(b, 0)], 0;
    forall i: nat ensures Todo(todo, i) == Occurrences(b, i) {
      assert [] + [(b, 0)] == todo;
      TodoOne([], (b, 0), i);
    }
    while todo != []
      invariant |cnt| == n && visits <= MAX_VISITS && Counted(cnt, b, todo)
      decreases MAX_VISITS - visits, |todo|
    {
      var (x, d) := todo[|todo| - 1];
      var init := todo[..|todo| - 1];
      assert todo == init + [(x, d)];
      todo := init;
      if Range(x) <= d {
        CountedSkip(cnt, b, init, x, d);
        continue;
      }
      visits := visits + 1;
      if visits > MAX_VISITS { return seq(n, i => 2); }
      if x.BVar? {
        CountedVar(cnt, b, init, x.i, d);
        cnt := Bump(cnt, x.i, d);
      } else {
        CountedPieces(cnt, b, init, x, d);
        todo := init + Pieces(x, d);
      }
    }
  }

  /** The size of a term's tree, as far as the cap; the walk that measures it stops there. */
  function TreeSize(t: Term, cap: nat): nat { if Size(t) <= cap then Size(t) else cap + 1 }

  // ---------------------------------------------------------------- what fusion leaves

  /**
   * No step that fusion makes applies at the head of f on args: a lambda is applied only where one of the
   * arguments it takes is not cheap to copy, a recursor not to a constructor application with a rule, and no
   * definition worth unfolding is left.
   */
  ghost predicate HeadTight(P: Params, f: Term, args: seq<Term>) {
    && (f.Lam? && args != [] ==> exists j :: 0 <= j < Redexes(f, |args|) && !IsCheapArg(P.E, args[j], 0))
    && (f.Const? && f.n in P.E.consts ==>
          match P.E.consts[f.n]
          case Rec(_, _, _, _, _, _, _, _) => TryIota(P.E, f, args).None?
          case Def(dparams, _) => !P.unfoldable(f.n) || |f.ls| != |dparams|
          case _ => true)
  }

  lemma {:induction false} FnSmaller(t: Term)
    requires t.App?
    ensures AppFn(t) < t
  {
    if t.f.App? { FnSmaller(t.f); }
  }

  /** Nothing for fusion to do, types of binders and Pis aside: fused heads, and no projection of a constructor's field. */
  ghost predicate Tight(P: Params, t: Term)
    decreases t
  {
    match t
    case Lam(_, b) => Tight(P, b)
    case Let(_, v, b) => Tight(P, v) && Tight(P, b)
    case Proj(s, i, e) => Tight(P, e) && CtorAppField(P.E, e, s, i).None?
    case Const(_, _) => HeadTight(P, t, [])
    case App(_, _) =>
      && (FnSmaller(t); Tight(P, AppFn(t)))
      && HeadTight(P, AppFn(t), AppArgs(t))
      && forall k {:trigger AppArgs(t)[k]} :: 0 <= k < |AppArgs(t)| ==> (ArgSmaller(t, k); Tight(P, AppArgs(t)[k]))
    case _ => true
  }

  ghost predicate AllTight(P: Params, ts: seq<Term>) { forall k {:trigger ts[k]} :: 0 <= k < |ts| ==> Tight(P, ts[k]) }

  lemma TightParts(P: Params, t: Term)
    requires Tight(P, t)
    ensures Tight(P, AppFn(t)) && AllTight(P, AppArgs(t))
  {
  }

  lemma TightJoin(P: Params, g: Term, rest: seq<Term>)
    requires Tight(P, g) && AllTight(P, rest) && HeadTight(P, AppFn(g), AppArgs(g) + rest)
    ensures Tight(P, MkApps(g, rest))
  {
    if rest != [] {
      var t := MkApps(g, rest);
      SpineOf(g, rest);
      TightParts(P, g);
      forall k | 0 <= k < |AppArgs(t)| ensures Tight(P, AppArgs(t)[k]) {
        if k < |AppArgs(g)| { assert AppArgs(t)[k] == AppArgs(g)[k]; } else { assert AppArgs(t)[k] == rest[k - |AppArgs(g)|]; }
      }
    }
  }

  lemma TightField(P: Params, t: Term, s: Name, idx: nat)
    requires Tight(P, t) && CtorAppField(P.E, t, s, idx).Some?
    ensures Tight(P, CtorAppField(P.E, t, s, idx).value)
  {
    TightParts(P, t);
  }

  // ---------------------------------------------------------------- the fuser

  class Fuser {
    const P: Params
    var memo: map<Term, Term>      // what this call has fused so far
    var cache: map<Term, Term>     // kept between calls: nothing in it was cut short
    var budget: nat
    var depth: nat
    var overflow: bool
    var dirty: nat                 // how often a limit has stopped a reduction
    var dupBudget: nat             // how many more nodes substitutions may copy
    /** A limit has stopped a reduction, or a head fused in place was left without looking at it again. */
    ghost var cut: bool

    ghost predicate Table(m: map<Term, Term>)
      reads this`cut
    {
      forall t :: t in m ==> Fuses(P.E, t, m[t]) && (!cut ==> Tight(P, m[t]))
    }

    ghost predicate Valid()
      reads this
    {
      ClosedDecls(P.E) && Table(memo) && Table(cache) && (overflow ==> cut)
    }

    /** Unless something was cut, the term is tight; what was cut stays so. */
    twostate predicate Done(t: Term)
      reads this
    {
      (old(cut) ==> cut) && (!cut ==> Tight(P, t))
    }

    constructor (P: Params, cache: map<Term, Term>, budget: nat)
      requires ClosedDecls(P.E) && forall t :: t in cache ==> Fuses(P.E, t, cache[t])
      ensures Valid() && this.P == P && this.cache == cache
      ensures cut <==> exists t :: t in cache && !Tight(P, cache[t])
    {
      this.P, this.cache, this.budget := P, cache, budget;
      memo, depth, overflow, dirty, dupBudget := map[], 0, false, 0, 0x8000;
      cut := exists t :: t in cache && !Tight(P, cache[t]);
    }

    /** The redex may be contracted: an argument used twice is a cheap one. */
    method ShareOk(b: Term, i: nat, args: seq<Term>) returns (ok: bool)
      requires i <= |args|
      modifies this`dirty, this`dupBudget, this`cut
      ensures old(cut) ==> cut
      ensures !ok && !cut ==> exists j :: 0 <= j < i && !IsCheapArg(P.E, args[j], 0)
      ensures ok ==> forall j :: 0 <= j < i && Occurrences(b, i - 1 - j) >= 2 ==> IsCheapArg(P.E, args[j], 0)
      ensures dupBudget <= old(dupBudget) && (!ok ==> dupBudget == old(dupBudget))
    {
      if forall j :: 0 <= j < i ==> IsCheapArg(P.E, args[j], 0) && !args[j].Lam? && !args[j].App? { return true; }
      var cnt := CountBVars(b, i);
      var cost: nat := 0;
      for j := 0 to i
        invariant dupBudget == old(dupBudget) && cut == old(cut)
        invariant forall k :: 0 <= k < j && Occurrences(b, i - 1 - k) >= 2 ==> IsCheapArg(P.E, args[k], 0)
      {
        if cnt[i - 1 - j] < 2 { continue; }
        if !IsCheapArg(P.E, args[j], 0) { return false; }
        if args[j].Lam? || args[j].App? { cost := cost + TreeSize(args[j], dupBudget + 1); }
      }
      if cost > dupBudget {
        dirty, cut := dirty + 1, true;
        return false;
      }
      dupBudget := dupBudget - cost;
      return true;
    }

    /**
     * A term reached from e by reduction steps, with nothing left for fusion to do unless something was cut.
     * (fuel bounds the recursion: out of it, e is left as it is.)
     */
    method Fuse(e: Term, fuel: nat) returns (r: Term)
      requires Valid()
      modifies this
      ensures Valid() && Fuses(P.E, e, r) && Done(r)
      decreases fuel, 2
    {
      FusesRefl(P.E, e);
      if fuel == 0 { cut := true; }
      if overflow || fuel == 0 { return e; }
      if e.BVar? || e.FVar? || e.Sort? || e.Lit? || e.Pi? { return e; }
      if e in memo { return memo[e]; }
      if e in cache { return cache[e]; }
      if budget == 0 {
        overflow, dirty, cut := true, dirty + 1, true;
        return e;
      }
      budget := budget - 1;
      var dirty0 := dirty;
      r := FuseNode(e, fuel - 1);
      memo := memo[e := r];
      if dirty == dirty0 { cache := cache[e := r]; }
    }

    method FuseNode(e: Term, fuel: nat) returns (r: Term)
      requires Valid() && !e.BVar? && !e.FVar? && !e.Sort? && !e.Lit? && !e.Pi?
      modifies this
      ensures Valid() && Fuses(P.E, e, r) && Done(r)
      decreases fuel, 5
    {
      FusesRefl(P.E, e);
      match e
      case Lam(d, b) =>
        var b' := Fuse(b, fuel);
        FusesLam(P.E, d, b, b');
        r := Lam(d, b');
      case Let(y, v, b) =>
        var v' := Fuse(v, fuel);
        var b' := Fuse(b, fuel);
        FusesLet(P.E, y, v, v', b, b');
        r := Let(y, v', b');
      case Proj(s, idx, t) =>
        var t' := Fuse(t, fuel);
        FusesInProj(P.E, s, idx, t, t');
        var field := CtorAppField(P.E, t', s, idx);
        if field.Some? {
          FusesProj(P.E, t', s, idx);
          FusesTrans(P.E, e, Proj(s, idx, t'), field.value);
          if !cut { TightField(P, t', s, idx); }
          r := field.value;
        } else {
          r := Proj(s, idx, t');
        }
      case App(_, _) => r := FuseApp(e, fuel);
      case Const(_, _) => r := FuseApp(e, fuel);
      case _ => r := e;
    }

    method FuseAll(es: seq<Term>, fuel: nat) returns (rs: seq<Term>)
      requires Valid()
      modifies this
      ensures Valid() && |rs| == |es| && forall k :: 0 <= k < |es| ==> Fuses(P.E, es[k], rs[k])
      ensures (old(cut) ==> cut) && (!cut ==> AllTight(P, rs))
      decreases fuel, 3
    {
      rs := [];
      for k := 0 to |es|
        invariant Valid() && |rs| == k && forall j :: 0 <= j < k ==> Fuses(P.E, es[j], rs[j])
        invariant (old(cut) ==> cut) && (!cut ==> AllTight(P, rs))
      {
        var r := Fuse(es[k], fuel);
        rs := rs + [r];
      }
    }

    /** An application: its arguments, then its head for as long as something reduces there. */
    method FuseApp(e: Term, fuel: nat) returns (r: Term)
      requires Valid()
      modifies this
      ensures Valid() && Fuses(P.E, e, r) && Done(r)
      decreases fuel, 4
    {
      var f, args := AppFn(e), AppArgs(e);
      SpineSplit(e);
      var fused := FuseAll(args, fuel);
      FusesArgs(P.E, f, args, fused);
      args := fused;
      var unfolds, go, steps := 0, true, fuel;
      while go && !overflow && steps > 0
        invariant Valid() && Fuses(P.E, e, MkApps(f, args)) && steps <= fuel
        invariant (old(cut) ==> cut) && (!cut ==> AllTight(P, args) && (!go ==> Tight(P, MkApps(f, args))))
        decreases steps
      {
        ghost var cur := MkApps(f, args);
        steps := steps - 1;
        f, args, unfolds, go := Head(f, args, unfolds, steps);
        FusesTrans(P.E, e, cur, MkApps(f, args));
      }
      if go { cut := true; }
      r := MkApps(f, args);
    }

    /** One round at the head; `go` says whether to look again. */
    method Head(f: Term, args: seq<Term>, unfolds: nat, fuel: nat)
      returns (f': Term, args': seq<Term>, unfolds': nat, go: bool)
      requires Valid() && (!cut ==> AllTight(P, args))
      modifies this
      ensures Valid() && Fuses(P.E, MkApps(f, args), MkApps(f', args'))
      ensures Ready(f', args', go)
      decreases fuel, 5
    {
      f', args', unfolds', go := f, args, unfolds, false;
      FusesRefl(P.E, MkApps(f, args));
      if f.Lam? && args != [] {
        f', args', go := Beta(f, args, fuel);
      } else if f.Const? {
        if f.n !in P.E.consts {
          if !cut { TightJoin(P, f, args); }
          return;
        }
        if P.E.consts[f.n].Rec? {
          f', args' := Iota(f, args, fuel);
        } else if unfolds < MAX_UNFOLDS && P.unfoldable(f.n) && P.E.consts[f.n].Def?
                  && |f.ls| == |P.E.consts[f.n].dparams| {
          unfolds' := unfolds + 1;
          f', go := Unfold(f, args, fuel);
        } else {
          if unfolds >= MAX_UNFOLDS { cut := true; }
          if !cut { TightJoin(P, f, args); }
        }
      } else {
        f', args', go := InPlace(f, args, fuel);
      }
    }

    /** A lambda without arguments, a projection, a let and the like are fused in place. */
    method InPlace(f: Term, args: seq<Term>, fuel: nat) returns (f': Term, args': seq<Term>, go: bool)
      requires Valid() && (!cut ==> AllTight(P, args))
      modifies this
      ensures Valid() && Fuses(P.E, MkApps(f, args), MkApps(f', args'))
      ensures Ready(f', args', go)
      decreases fuel, 4
    {
      var g := Fuse(f, fuel);
      FusesHead(P.E, f, g, args);
      if g == f || !(g.App? || g.Lam?) {
        if !HeadTight(P, AppFn(g), AppArgs(g) + args) { cut := true; }
        if !cut { TightJoin(P, g, args); }
        return g, args, false;
      }
      if !cut { TightParts(P, g); }
      f', args' := Flatten(g, args);
      go := true;
    }

    /** Unless something was cut, the arguments are tight, and so is the application if the head is done. */
    twostate predicate Ready(f: Term, args: seq<Term>, go: bool)
      reads this
    {
      (old(cut) ==> cut) && (!cut ==> AllTight(P, args) && (!go ==> Tight(P, MkApps(f, args))))
    }

    method Beta(f: Term, args: seq<Term>, fuel: nat) returns (f': Term, args': seq<Term>, go: bool)
      requires Valid() && f.Lam? && args != [] && (!cut ==> AllTight(P, args))
      modifies this
      ensures Valid() && Fuses(P.E, MkApps(f, args), MkApps(f', args'))
      ensures Ready(f', args', go)
      decreases fuel, 4
    {
      var i := Redexes(f, |args|);
      var b := LamBody(f, i);
      var ok := ShareOk(b, i, args);
      if !ok {
        var g := Fuse(f, fuel);
        FusesHead(P.E, f, g, args);
        if !cut && g == f {
          assert AppArgs(f) + args == args;
          TightJoin(P, f, args);
        }
        return g, args, g != f;
      }
      var t, rest := InstantiateRev(b, args[..i]), args[i..];
      FusesBeta(P.E, f, args, i);
      if depth >= MAX_DEPTH {
        dirty, cut := dirty + 1, true;
        return t, rest, false;
      }
      var t' := FuseDeeper(t, fuel);
      FusesHead(P.E, t, t', rest);
      FusesTrans(P.E, MkApps(f, args), MkApps(t, rest), MkApps(t', rest));
      if rest == [] { return t', [], false; }
      if !cut { TightParts(P, t'); }
      f', args' := Flatten(t', rest);
      go := true;
    }

    method Iota(f: Term, args: seq<Term>, fuel: nat) returns (f': Term, args': seq<Term>)
      requires Valid() && f.Const? && f.n in P.E.consts && P.E.consts[f.n].Rec? && (!cut ==> AllTight(P, args))
      modifies this
      ensures Valid() && Fuses(P.E, MkApps(f, args), MkApps(f', args'))
      ensures Ready(f', args', false)
      decreases fuel, 4
    {
      FusesRefl(P.E, MkApps(f, args));
      var t := TryIota(P.E, f, args);
      if t.None? {
        if !cut { TightJoin(P, f, args); }
        return f, args;
      }
      if depth >= MAX_DEPTH {
        dirty, cut := dirty + 1, true;
        return f, args;
      }
      FusesIota(P.E, f, args);
      var t' := FuseDeeper(t.value, fuel);
      FusesTrans(P.E, MkApps(f, args), t.value, t');
      return t', [];
    }

    method Unfold(f: Term, args: seq<Term>, fuel: nat) returns (f': Term, go: bool)
      requires Valid() && f.Const? && f.n in P.E.consts && P.E.consts[f.n].Def? && |f.ls| == |P.E.consts[f.n].dparams|
      requires !cut ==> AllTight(P, args)
      modifies this
      ensures Valid() && Fuses(P.E, MkApps(f, args), MkApps(f', args))
      ensures Ready(f', args, go)
      decreases fuel, 4
    {
      var v := InstantiateLParams(P.E.consts[f.n].value, P.E.consts[f.n].dparams, f.ls);
      FusesDelta(P.E, f);
      f', go := v, args != [];
      if args == [] {
        f' := Fuse(v, fuel);
        FusesTrans(P.E, f, v, f');
      }
      FusesHead(P.E, f, f', args);
    }

    method FuseDeeper(t: Term, fuel: nat) returns (r: Term)
      requires Valid()
      modifies this
      ensures Valid() && Fuses(P.E, t, r) && Done(r)
      decreases fuel, 3
    {
      depth := depth + 1;
      r := Fuse(t, fuel);
      depth := if depth > 0 then depth - 1 else 0;
    }

    /** The spine of an application joined with further arguments. */
    method Flatten(t: Term, rest: seq<Term>) returns (f: Term, args: seq<Term>)
      ensures MkApps(f, args) == MkApps(t, rest) && args == AppArgs(t) + rest
    {
      f, args := AppFn(t), AppArgs(t) + rest;
      SpineSplit(t);
      MkAppsAppend(f, AppArgs(t), rest);
    }
  }

  lemma FusesLam(E: Env, d: Term, b: Term, b': Term)
    requires Fuses(E, b, b')
    ensures Fuses(E, Lam(d, b), Lam(d, b'))
  {
    StarRefl(E, false, d);
    StarLam(E, false, d, d, b, b');
  }

  lemma FusesLet(E: Env, y: Term, v: Term, v': Term, b: Term, b': Term)
    requires Fuses(E, v, v') && Fuses(E, b, b')
    ensures Fuses(E, Let(y, v, b), Let(y, v', b'))
  {
    StarLet(E, false, y, v, v', b, b');
  }

  lemma FusesInProj(E: Env, s: Name, i: nat, t: Term, t': Term)
    requires Fuses(E, t, t')
    ensures Fuses(E, Proj(s, i, t), Proj(s, i, t'))
  {
    StarProj(E, false, s, i, t, t');
  }

  /**
   * A definition's value, fused: reached from it by reduction, and closed if it is.  If nothing was cut, nothing
   * is left for fusion to do, in it and in the cache.
   */
  method FuseTerm(P: Params, cache: map<Term, Term>, e: Term, fuel: nat)
    returns (r: Term, cache': map<Term, Term>, ghost cut: bool)
    requires ClosedDecls(P.E) && forall t :: t in cache ==> Fuses(P.E, t, cache[t])
    ensures Reds(P.E, e, r) && (Closed(e) ==> Closed(r))
    ensures forall t :: t in cache' ==> Fuses(P.E, t, cache'[t])
    ensures (forall t :: t in cache ==> Tight(P, cache[t])) && !cut ==>
              Tight(P, r) && forall t :: t in cache' ==> Tight(P, cache'[t])
  {
    if e in cache {
      r, cache', cut := cache[e], cache, false;
    } else {
      var F := new Fuser(P, cache, 0x4_0000);
      r := F.Fuse(e, fuel);
      cache', cut := F.cache, F.cut;
    }
    RangeExact(e);
    RangeExact(r);
  }
}
