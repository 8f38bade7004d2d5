// Nested inductive types (src/inductive.cpp): what elimination makes of a constructor's type, and the
// restoration that undoes it.
module NestedModel {
  import opened Names
  import opened Terms
  import opened Conversion
  import opened Closing
  import L = Levels

  datatype Failure = IllFormed | LocalVariables | UnknownConstant | LevelCount | UnderApplied | OutOfFuel
  datatype Res<+T> = Ok(v: T) | Err(e: Failure)

  /** What elimination reads of a declared constant (src/env.h). */
  datatype Info = Info(induct: bool, lparams: seq<Name>, ty: Term, nparams: nat, all: seq<Name>, ctors: seq<Name>)

  // ---------------------------------------------------------------- names

  const NESTED := Str(Anonymous, "_nested")

  /** Names that no declaration of a block may use. */
  predicate Reserved(n: Name) { n == NESTED || (!n.Anonymous? && Reserved(n.parent)) }

  function ReplacePrefix(n: Name, from: Name, to: Name): Name {
    if n == from then to
    else match n
      case Anonymous => Anonymous
      case Str(p, s) => Str(ReplacePrefix(p, from, to), s)
      case Num(p, k) => Num(ReplacePrefix(p, from, to), k)
  }

  predicate HasPrefix(n: Name, p: Name) { n == p || (!n.Anonymous? && HasPrefix(n.parent, p)) }

  lemma {:induction false} NoPrefix(n: Name, from: Name, to: Name)
    requires !HasPrefix(n, from)
    ensures ReplacePrefix(n, from, to) == n
  {
    if !n.Anonymous? { NoPrefix(n.parent, from, to); }
  }

  function Depth(n: Name): nat { if n.Anonymous? then 0 else 1 + Depth(n.parent) }

  lemma {:induction false} PrefixDepth(n: Name, p: Name)
    requires HasPrefix(n, p)
    ensures Depth(p) <= Depth(n) && (Depth(p) == Depth(n) ==> n == p)
  {
    if n != p { PrefixDepth(n.parent, p); }
  }

  lemma {:induction false} ReplacedHasPrefix(n: Name, from: Name, to: Name)
    requires HasPrefix(n, from)
    ensures HasPrefix(ReplacePrefix(n, from, to), to)
  {
    if n != from { ReplacedHasPrefix(n.parent, from, to); }
  }

  /** A real constructor's name comes back from its auxiliary copy's. */
  lemma {:induction false} PrefixRoundTrip(n: Name, from: Name, to: Name)
    requires !HasPrefix(n, to)
    ensures ReplacePrefix(ReplacePrefix(n, from, to), to, from) == n
  {
    if n != from && !n.Anonymous? {
      PrefixRoundTrip(n.parent, from, to);
      if HasPrefix(n, from) {
        ReplacedHasPrefix(n.parent, from, to);
        PrefixDepth(ReplacePrefix(n.parent, from, to), to);
      } else {
        NoPrefix(n, from, to);
      }
    }
  }

  lemma {:induction false} ReservedPrefix(n: Name, p: Name)
    requires HasPrefix(n, p) && Reserved(p)
    ensures Reserved(n)
  {
    if n != p { ReservedPrefix(n.parent, p); }
  }

  // ---------------------------------------------------------------- occurrences

  /** The constant occurs. */
  predicate Mentions(t: Term, c: Name) {
    match t
    case Const(n, _) => n == c
    case App(f, x) => Mentions(f, c) || Mentions(x, c)
    case Lam(d, b) => Mentions(d, c) || Mentions(b, c)
    case Pi(d, b) => Mentions(d, c) || Mentions(b, c)
    case Let(y, v, b) => Mentions(y, c) || Mentions(v, c) || Mentions(b, c)
    case Proj(_, _, e) => Mentions(e, c)
    case _ => false
  }

  predicate MentionsAny(t: Term, names: seq<Name>) { exists k :: 0 <= k < |names| && Mentions(t, names[k]) }

  /** No reserved constant occurs. */
  ghost predicate Unreserved(t: Term) { forall c {:trigger Mentions(t, c)} :: Mentions(t, c) ==> !Reserved(c) }

  lemma {:induction false} RenameMentions(t: Term, fs: seq<nat>, gs: seq<nat>, c: Name)
    requires |fs| == |gs|
    ensures Mentions(Rename(t, fs, gs), c) == Mentions(t, c)
  {
    match t
    case App(f, x) => RenameMentions(f, fs, gs, c); RenameMentions(x, fs, gs, c);
    case Lam(d, b) => RenameMentions(d, fs, gs, c); RenameMentions(b, fs, gs, c);
    case Pi(d, b) => RenameMentions(d, fs, gs, c); RenameMentions(b, fs, gs, c);
    case Let(y, v, b) => RenameMentions(y, fs, gs, c); RenameMentions(v, fs, gs, c); RenameMentions(b, fs, gs, c);
    case Proj(_, _, e) => RenameMentions(e, fs, gs, c);
    case _ =>
  }

  lemma {:induction false} RenameSpine(t: Term, fs: seq<nat>, gs: seq<nat>)
    requires |fs| == |gs|
    ensures AppFn(Rename(t, fs, gs)) == Rename(AppFn(t), fs, gs)
    ensures AppArgs(Rename(t, fs, gs)) == RenameAll(AppArgs(t), fs, gs)
  {
    if t.App? { RenameSpine(t.f, fs, gs); }
  }

  lemma {:induction false} SpineMentions(t: Term, c: Name)
    ensures Mentions(AppFn(t), c) ==> Mentions(t, c)
    ensures forall k :: 0 <= k < |AppArgs(t)| && Mentions(AppArgs(t)[k], c) ==> Mentions(t, c)
  {
    if t.App? {
      SpineMentions(t.f, c);
      forall k | 0 <= k < |AppArgs(t)| && Mentions(AppArgs(t)[k], c) ensures Mentions(t, c) {
        if k < |AppArgs(t.f)| { assert AppArgs(t)[k] == AppArgs(t.f)[k]; }
      }
    }
  }

  lemma {:induction false} RenMentions(t: Term, r: Renaming, c: Name)
    ensures Mentions(Ren(t, r), c) == Mentions(t, c)
  {
    match t
    case App(f, x) => RenMentions(f, r, c); RenMentions(x, r, c);
    case Lam(d, b) => RenMentions(d, r, c); RenMentions(b, UpR(r), c);
    case Pi(d, b) => RenMentions(d, r, c); RenMentions(b, UpR(r), c);
    case Let(y, v, b) => RenMentions(y, r, c); RenMentions(v, r, c); RenMentions(b, UpR(r), c);
    case Proj(_, _, e) => RenMentions(e, r, c);
    case _ =>
  }

  lemma {:induction false} SubMentions(t: Term, s: Subst, c: Name)
    requires forall i: nat {:trigger s(i)} :: !Mentions(s(i), c)
    ensures Mentions(Sub(t, s), c) == Mentions(t, c)
  {
    forall i: nat ensures !Mentions(Up(s)(i), c) {
      if i > 0 { RenMentions(s(i - 1), Plus(1), c); }
    }
    match t
    case App(f, x) => SubMentions(f, s, c); SubMentions(x, s, c);
    case Lam(d, b) => SubMentions(d, s, c); SubMentions(b, Up(s), c);
    case Pi(d, b) => SubMentions(d, s, c); SubMentions(b, Up(s), c);
    case Let(y, v, b) => SubMentions(y, s, c); SubMentions(v, s, c); SubMentions(b, Up(s), c);
    case Proj(_, _, e) => SubMentions(e, s, c);
    case _ =>
  }

  /** Instantiation brings in no constants but the entries'. */
  lemma InstantiateMentions(t: Term, es: seq<Term>, c: Name)
    requires forall k {:trigger es[k]} :: 0 <= k < |es| ==> !Mentions(es[k], c)
    ensures Mentions(InstantiateRev(t, es), c) == Mentions(t, c)
  {
    InstantiateIsSub(t, Reverse(es));
    var s := Entries(Reverse(es), 0);
    forall i: nat ensures !Mentions(s(i), c) {
      if i < |es| { RenMentions(es[|es| - 1 - i], Plus(0), c); }
    }
    SubMentions(t, s, c);
  }

  lemma {:induction false} UnderMentions(t: Term, n: nat, c: Name)
    requires Binders(t, n) && Mentions(Under(t, n), c)
    ensures Mentions(t, c)
  {
    if n > 0 { UnderMentions(t.body, n - 1, c); }
  }

  // ---------------------------------------------------------------- elimination

  /** An inductive type applied to parameters one of which mentions a type being declared. */
  predicate IsNested(D: map<Name, Info>, news: seq<Name>, t: Term) {
    && t.App? && AppFn(t).Const? && AppFn(t).n in D && D[AppFn(t).n].induct
    && D[AppFn(t).n].nparams <= |AppArgs(t)|
    && exists k :: 0 <= k < D[AppFn(t).n].nparams && MentionsAny(AppArgs(t)[k], news)
  }

  /** The declarations, the block's own types, its universe arguments and parameters, and the auxiliary types. */
  datatype Spec = Spec(D: map<Name, Info>, block: seq<Name>, lvls: seq<L.Level>, params: seq<nat>, aux: map<Name, Term>)

  /** r is an auxiliary type over the block's parameters that stands for t's head and parameters, with t's indices. */
  ghost predicate Stands(S: Spec, t: Term, r: Term)
    requires AppFn(t).Const? && AppFn(t).n in S.D && S.D[AppFn(t).n].nparams <= |AppArgs(t)|
  {
    var np := S.D[AppFn(t).n].nparams;
    && AppFn(r).Const? && AppFn(r).n in S.aux
    && S.aux[AppFn(r).n] == MkApps(AppFn(t), AppArgs(t)[..np])
    && r == MkApps(MkApps(Const(AppFn(r).n, S.lvls), FVars(S.params)), AppArgs(t)[np..])
  }

  /**
   * r is t with its outermost nested applications replaced.  Both are opened with the block's
   * parameters.
   */
  ghost predicate Eliminates(S: Spec, t: Term, r: Term) {
    if IsNested(S.D, S.block, t) then Stands(S, t, r)
    else match t
      case App(f, x) => r.App? && Eliminates(S, f, r.f) && Eliminates(S, x, r.x)
      case Lam(d, b) => r.Lam? && Eliminates(S, d, r.dom) && Eliminates(S, b, r.body)
      case Pi(d, b) => r.Pi? && Eliminates(S, d, r.dom) && Eliminates(S, b, r.body)
      case Let(y, v, b) => r.Let? && Eliminates(S, y, r.ty) && Eliminates(S, v, r.val) && Eliminates(S, b, r.body)
      case Proj(s, i, e) => r.Proj? && r.s == s && r.idx == i && Eliminates(S, e, r.e)
      case _ => r == t
  }

  /** The eliminated form of a constructor's type: the parameters are kept, the rest is eliminated. */
  ghost predicate Eliminated(S: Spec, t: Term, r: Term) {
    var n := |S.params|;
    && AllPis(t, n) && AllPis(r, n) && Binders(t, n) && Binders(r, n)
    && Closed(r) && !HasFVar(r)
    && r == Rewrap(t, n, true, Under(r, n))
    && Eliminates(S, Opened(t, S.params), Opened(r, S.params))
  }

  ghost predicate KeyOk(key: Term, params: seq<nat>) { AppFn(key).Const? && Closed(key) && FVarsIn(key, params) }

  /** Auxiliary names are reserved, and stand for closed applications over the parameters. */
  ghost predicate AuxOk(aux: map<Name, Term>, params: seq<nat>) {
    && Distinct(params)
    && forall a {:trigger aux[a]} :: a in aux ==> Reserved(a) && KeyOk(aux[a], params)
  }

  lemma {:induction false} EliminatesMore(S: Spec, S': Spec, t: Term, r: Term)
    requires Eliminates(S, t, r) && S' == S.(aux := S'.aux)
    requires forall a :: a in S.aux ==> a in S'.aux && S'.aux[a] == S.aux[a]
    ensures Eliminates(S', t, r)
  {
    if !IsNested(S.D, S.block, t) {
      match t
      case App(f, x) => EliminatesMore(S, S', f, r.f); EliminatesMore(S, S', x, r.x);
      case Lam(d, b) => EliminatesMore(S, S', d, r.dom); EliminatesMore(S, S', b, r.body);
      case Pi(d, b) => EliminatesMore(S, S', d, r.dom); EliminatesMore(S, S', b, r.body);
      case Let(y, v, b) =>
        EliminatesMore(S, S', y, r.ty); EliminatesMore(S, S', v, r.val); EliminatesMore(S, S', b, r.body);
      case Proj(_, _, e) => EliminatesMore(S, S', e, r.e);
      case _ =>
    }
  }

  lemma NestedApplied(D: map<Name, Info>, news: seq<Name>, t: Term)
    requires t.App? && IsNested(D, news, t.f)
    ensures IsNested(D, news, t)
  {
    var k :| 0 <= k < D[AppFn(t.f).n].nparams && MentionsAny(AppArgs(t.f)[k], news);
    assert AppArgs(t)[k] == AppArgs(t.f)[k];
  }

  /** Partial applications of one that is not nested are not nested either, so its head is kept. */
  lemma {:induction false} HeadKept(S: Spec, t: Term, r: Term)
    requires Eliminates(S, t, r) && !IsNested(S.D, S.block, t)
    ensures AppFn(r).Const? ==> AppFn(t) == AppFn(r)
    ensures |AppArgs(r)| == |AppArgs(t)|
  {
    if t.App? {
      if IsNested(S.D, S.block, t.f) { NestedApplied(S.D, S.block, t); }
      HeadKept(S, t.f, r.f);
    }
  }

  lemma {:induction false} NothingToEliminate(S: Spec, t: Term, r: Term)
    requires Eliminates(S, t, r) && S.aux == map[]
    ensures r == t
  {
    match t
    case App(f, x) => NothingToEliminate(S, f, r.f); NothingToEliminate(S, x, r.x);
    case Lam(d, b) => NothingToEliminate(S, d, r.dom); NothingToEliminate(S, b, r.body);
    case Pi(d, b) => NothingToEliminate(S, d, r.dom); NothingToEliminate(S, b, r.body);
    case Let(y, v, b) =>
      NothingToEliminate(S, y, r.ty); NothingToEliminate(S, v, r.val); NothingToEliminate(S, b, r.body);
    case Proj(_, _, e) => NothingToEliminate(S, e, r.e);
    case _ =>
  }

  // ---------------------------------------------------------------- restoration

  /** The auxiliary types and constructors, the parameters their keys are over, and the recursors' new names. */
  datatype Restorer = Restorer(aux: map<Name, Term>, ctorOf: map<Name, Name>, params: seq<nat>, recs: map<Name, Name>)

  /** The nested application an auxiliary type stands for, over the given parameters. */
  function NestedOver(R: Restorer, a: Name, ps: seq<Term>): Term
    requires a in R.aux
  {
    InstantiateRev(AbstractFVars(R.aux[a], R.params), ps)
  }

  /** The real constructor behind c, a constructor of the auxiliary type a, at the nested parameters. */
  function CtorBack(nested: Term, c: Name, a: Name, rest: seq<Term>): Res<Term> {
    if !AppFn(nested).Const? then Err(IllFormed)
    else
      var ctor := Const(ReplacePrefix(c, a, AppFn(nested).n), AppFn(nested).ls);
      Ok(MkApps(MkApps(ctor, AppArgs(nested)), rest))
  }

  /** The restored form of constant c applied to args (restored), for parameters ps. */
  function RestoreHead(R: Restorer, c: Name, ps: seq<Term>, args: seq<Term>): Res<Term>
    requires |args| >= |R.params|
  {
    var rest := args[|R.params|..];
    if c in R.aux then Ok(MkApps(NestedOver(R, c, ps), rest))
    else if c in R.ctorOf && R.ctorOf[c] in R.aux then
      CtorBack(NestedOver(R, R.ctorOf[c], ps), c, R.ctorOf[c], rest)
    else Err(UnknownConstant)
  }

  predicate IsAux(R: Restorer, t: Term) { AppFn(t).Const? && (AppFn(t).n in R.aux || AppFn(t).n in R.ctorOf) }

  lemma {:induction false} ArgsSmaller(t: Term, k: nat)
    requires k < |AppArgs(t)|
    ensures Size(AppArgs(t)[k]) < Size(t)
  {
    if k < |AppArgs(t.f)| { ArgsSmaller(t.f, k); }
  }

  ghost predicate AllSmaller(ts: seq<Term>, m: nat) { forall k {:trigger ts[k]} :: 0 <= k < |ts| ==> Size(ts[k]) < m }

  /**
   * Auxiliary types, constructors and recursors become what they stand for.  An application is rebuilt
   * over the parameters it was opened with at the outermost level (outer), over its own first arguments below.
   */
  function RestoreIn(R: Restorer, t: Term, outer: Option<seq<Term>>): Res<Term>
    decreases Size(t), 1, 0
  {
    if t.Const? && t.n in R.recs then Ok(Const(R.recs[t.n], t.ls))
    else if IsAux(R, t) then
      var args := AppArgs(t);
      if |args| < |R.params| then Err(UnderApplied)
      else
        var ps := if outer.Some? then outer.value else args[..|R.params|];
        assert AllSmaller(args, Size(t)) by {
          forall k | 0 <= k < |args| ensures Size(args[k]) < Size(t) { ArgsSmaller(t, k); }
        }
        var done := RestoreAll(R, args, Size(t));
        if done.Err? then Err(done.e) else RestoreHead(R, AppFn(t).n, ps, done.v)
    else match t
      case App(f, x) => Pair(RestoreIn(R, f, outer), RestoreIn(R, x, outer), (a, b) => App(a, b))
      case Lam(d, b) => Pair(RestoreIn(R, d, outer), RestoreIn(R, b, outer), (a, c) => Lam(a, c))
      case Pi(d, b) => Pair(RestoreIn(R, d, outer), RestoreIn(R, b, outer), (a, c) => Pi(a, c))
      case Let(y, v, b) =>
        var ry := RestoreIn(R, y, outer);
        if ry.Err? then ry
        else Pair(RestoreIn(R, v, outer), RestoreIn(R, b, outer), (a, c) => Let(ry.v, a, c))
      case Proj(s, i, e) =>
        var r := RestoreIn(R, e, outer);
        if r.Err? then r else Ok(Proj(s, i, r.v))
      case _ => Ok(t)
  }

  function Pair(a: Res<Term>, b: Res<Term>, f: (Term, Term) -> Term): Res<Term> {
    if a.Err? then a else if b.Err? then b else Ok(f(a.v, b.v))
  }

  function RestoreAll(R: Restorer, ts: seq<Term>, m: nat): (r: Res<seq<Term>>)
    requires AllSmaller(ts, m)
    ensures r.Ok? ==> |r.v| == |ts|
    decreases m, 0, |ts|
  {
    if ts == [] then Ok([])
    else
      var init := RestoreAll(R, ts[..|ts| - 1], m);
      if init.Err? then init
      else
        var last := RestoreIn(R, ts[|ts| - 1], None);
        if last.Err? then Err(last.e) else Ok(init.v + [last.v])
  }

  /** A whole type or rule: opened with the parameters, restored, and closed again by binders of one kind. */
  function Restored(R: Restorer, t: Term): Res<Term> {
    if R.aux == map[] && R.recs == map[] then Ok(t)
    else if !Binders(t, |R.params|) then Err(IllFormed)
    else
      var r := RestoreIn(R, Opened(t, R.params), Some(FVars(R.params)));
      if r.Err? then r else Ok(Rewrap(t, |R.params|, t.Pi?, AbstractFVars(r.v, R.params)))
  }

  /** No constant that restoration would touch. */
  ghost predicate Untouched(R: Restorer, t: Term) {
    forall c {:trigger Mentions(t, c)} :: Mentions(t, c) ==> c !in R.aux && c !in R.ctorOf && c !in R.recs
  }

  lemma UntouchedHead(R: Restorer, t: Term)
    requires Untouched(R, t)
    ensures !IsAux(R, t) && !(t.Const? && t.n in R.recs)
  {
    if AppFn(t).Const? {
      SpineMentions(t, AppFn(t).n);
      assert Mentions(AppFn(t), AppFn(t).n);
      assert Mentions(t, AppFn(t).n);
    }
  }

  ghost predicate UntouchedNode(R: Restorer, t: Term) {
    match t
    case App(f, x) => Untouched(R, f) && Untouched(R, x)
    case Lam(d, b) => Untouched(R, d) && Untouched(R, b)
    case Pi(d, b) => Untouched(R, d) && Untouched(R, b)
    case Let(y, v, b) => Untouched(R, y) && Untouched(R, v) && Untouched(R, b)
    case Proj(_, _, e) => Untouched(R, e)
    case _ => true
  }

  lemma UntouchedParts(R: Restorer, t: Term)
    requires Untouched(R, t)
    ensures UntouchedNode(R, t)
  {
    match t
    case App(f, x) => assert forall c :: Mentions(f, c) || Mentions(x, c) ==> Mentions(t, c);
    case Lam(d, b) => assert forall c :: Mentions(d, c) || Mentions(b, c) ==> Mentions(t, c);
    case Pi(d, b) => assert forall c :: Mentions(d, c) || Mentions(b, c) ==> Mentions(t, c);
    case Let(y, v, b) => assert forall c :: Mentions(y, c) || Mentions(v, c) || Mentions(b, c) ==> Mentions(t, c);
    case Proj(_, _, e) => assert forall c :: Mentions(e, c) ==> Mentions(t, c);
    case _ =>
  }

  /** What restoration does not touch it returns. */
  lemma {:induction false} RestoreSame(R: Restorer, t: Term, outer: Option<seq<Term>>)
    requires Untouched(R, t)
    ensures RestoreIn(R, t, outer) == Ok(t)
  {
    UntouchedHead(R, t);
    UntouchedParts(R, t);
    match t
    case App(f, x) => RestoreSame(R, f, outer); RestoreSame(R, x, outer);
    case Lam(d, b) => RestoreSame(R, d, outer); RestoreSame(R, b, outer);
    case Pi(d, b) => RestoreSame(R, d, outer); RestoreSame(R, b, outer);
    case Let(y, v, b) => RestoreSame(R, y, outer); RestoreSame(R, v, outer); RestoreSame(R, b, outer);
    case Proj(_, _, e) => RestoreSame(R, e, outer);
    case _ =>
  }

  lemma {:induction false} RestoreAllSame(R: Restorer, ts: seq<Term>, m: nat)
    requires AllSmaller(ts, m) && forall k {:trigger ts[k]} :: 0 <= k < |ts| ==> Untouched(R, ts[k])
    ensures RestoreAll(R, ts, m) == Ok(ts)
    decreases |ts|
  {
    if ts != [] {
      RestoreAllSame(R, ts[..|ts| - 1], m);
      RestoreSame(R, ts[|ts| - 1], None);
      assert ts[..|ts| - 1] + [ts[|ts| - 1]] == ts;
    }
  }

  /** The restorer's tables go with the elimination's, and renamed recursors are not auxiliary types. */
  ghost predicate Matches(S: Spec, R: Restorer) {
    && AuxOk(S.aux, S.params)
    && R.aux == S.aux && R.params == S.params
    && R.aux.Keys !! R.recs.Keys
    && (forall c {:trigger R.ctorOf[c]} :: c in R.ctorOf ==> R.ctorOf[c] in R.aux)
    && (forall c {:trigger c in R.recs} :: c in R.recs ==> Reserved(c))
  }

  /** An auxiliary type applied to the parameters and untouched arguments: only its head is restored. */
  lemma RestoreAux(R: Restorer, r: Term, a: Name, ls: seq<L.Level>, ps: seq<Term>, rest: seq<Term>)
    requires r == MkApps(MkApps(Const(a, ls), ps), rest) && |ps| == |R.params|
    requires a in R.aux && a !in R.recs
    requires forall k {:trigger ps[k]} :: 0 <= k < |ps| ==> Untouched(R, ps[k])
    requires forall k {:trigger rest[k]} :: 0 <= k < |rest| ==> Untouched(R, rest[k])
    ensures RestoreIn(R, r, Some(ps)) == Ok(MkApps(NestedOver(R, a, ps), rest))
  {
    var args := ps + rest;
    AuxSpine(r, a, ls, ps, rest);
    assert AllSmaller(args, Size(r)) by { forall k | 0 <= k < |args| ensures Size(args[k]) < Size(r) { ArgsSmaller(r, k); } }
    RestoreAllSame(R, args, Size(r));
    assert args[|R.params|..] == rest;
    assert RestoreHead(R, a, ps, args) == Ok(MkApps(NestedOver(R, a, ps), rest));
  }

  lemma AuxSpine(r: Term, a: Name, ls: seq<L.Level>, ps: seq<Term>, rest: seq<Term>)
    requires r == MkApps(MkApps(Const(a, ls), ps), rest)
    ensures AppFn(r) == Const(a, ls) && AppArgs(r) == ps + rest && (r.Const? ==> r.n == a)
  {
    var c, h := Const(a, ls), MkApps(Const(a, ls), ps);
    SpineOf(c, ps);
    assert AppArgs(c) == [] && [] + ps == ps;
    SpineOf(h, rest);
    assert r.Const? ==> AppFn(r) == r;
  }

  lemma ArgsUntouched(R: Restorer, t: Term)
    requires Untouched(R, t)
    ensures forall k {:trigger AppArgs(t)[k]} :: 0 <= k < |AppArgs(t)| ==> Untouched(R, AppArgs(t)[k])
  {
    forall k | 0 <= k < |AppArgs(t)| ensures Untouched(R, AppArgs(t)[k]) {
      forall c | Mentions(AppArgs(t)[k], c) ensures Mentions(t, c) { SpineMentions(t, c); }
    }
  }

  lemma RestoreStands(S: Spec, R: Restorer, t: Term, r: Term)
    requires Matches(S, R) && Untouched(R, t)
    requires IsNested(S.D, S.block, t) && Stands(S, t, r)
    ensures RestoreIn(R, r, Some(FVars(S.params))) == Ok(t)
  {
    var np, a := S.D[AppFn(t).n].nparams, AppFn(r).n;
    var rest, ps := AppArgs(t)[np..], FVars(S.params);
    ArgsUntouched(R, t);
    forall k | 0 <= k < |rest| ensures Untouched(R, rest[k]) { assert rest[k] == AppArgs(t)[np + k]; }
    RestoreAux(R, r, a, S.lvls, ps, rest);
    Reopened(S.aux[a], S.params, S.params);
    RenameSame(S.aux[a], S.params);
    MkAppsAppend(AppFn(t), AppArgs(t)[..np], rest);
    assert AppArgs(t)[..np] + rest == AppArgs(t);
    SpineSplit(t);
  }

  /** Restoring the eliminated form of a term gives the term back. */
  lemma {:induction false} RestoreEliminated(S: Spec, R: Restorer, t: Term, r: Term)
    requires Matches(S, R) && Untouched(R, t) && Eliminates(S, t, r)
    ensures RestoreIn(R, r, Some(FVars(S.params))) == Ok(t)
  {
    if IsNested(S.D, S.block, t) {
      RestoreStands(S, R, t, r);
    } else {
      HeadKept(S, t, r);
      UntouchedHead(R, t);
      UntouchedParts(R, t);
      match t
      case App(f, x) => RestoreEliminated(S, R, f, r.f); RestoreEliminated(S, R, x, r.x);
      case Lam(d, b) => RestoreEliminated(S, R, d, r.dom); RestoreEliminated(S, R, b, r.body);
      case Pi(d, b) => RestoreEliminated(S, R, d, r.dom); RestoreEliminated(S, R, b, r.body);
      case Let(y, v, b) =>
        RestoreEliminated(S, R, y, r.ty); RestoreEliminated(S, R, v, r.val); RestoreEliminated(S, R, b, r.body);
      case Proj(_, _, e) => RestoreEliminated(S, R, e, r.e);
      case _ =>
    }
  }
}
