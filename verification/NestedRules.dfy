// Restored recursor rules (src/inductive.cpp): the auxiliary recursors are gone, and the renamed ones are in their places.
module NestedRules {
  import opened Names
  import opened Terms
  import opened Conversion
  import opened Closing
  import opened NestedModel
  import opened NestedTerms

  /** The term with its constants renamed by m. */
  function RenameConsts(t: Term, m: map<Name, Name>): Term {
    match t
    case Const(n, ls) => if n in m then Const(m[n], ls) else t
    case App(f, x) => App(RenameConsts(f, m), RenameConsts(x, m))
    case Lam(d, b) => Lam(RenameConsts(d, m), RenameConsts(b, m))
    case Pi(d, b) => Pi(RenameConsts(d, m), RenameConsts(b, m))
    case Let(y, v, b) => Let(RenameConsts(y, m), RenameConsts(v, m), RenameConsts(b, m))
    case Proj(s, i, e) => Proj(s, i, RenameConsts(e, m))
    case _ => t
  }

  /** The map m takes final recursor names to the auxiliary ones; restoration's table goes back. */
  ghost predicate Undoes(R: Restorer, m: map<Name, Name>) {
    forall n {:trigger m[n]} :: n in m ==>
      m[n] in R.recs && R.recs[m[n]] == n && m[n] !in R.aux && m[n] !in R.ctorOf
  }

  lemma {:induction false} RenamedHead(R: Restorer, t: Term, m: map<Name, Name>)
    requires Undoes(R, m) && !IsAux(R, t)
    ensures !IsAux(R, RenameConsts(t, m))
  {
    if t.App? { RenamedHead(R, t.f, m); }
  }

  /** A rule written with the auxiliary recursors' names comes back with the final ones. */
  lemma {:induction false} RenamedBack(R: Restorer, t: Term, m: map<Name, Name>, outer: Option<seq<Term>>)
    requires Undoes(R, m) && Untouched(R, t)
    ensures RestoreIn(R, RenameConsts(t, m), outer) == Ok(t)
  {
    UntouchedHead(R, t);
    RenamedHead(R, t, m);
    UntouchedParts(R, t);
    match t
    case App(f, x) => RenamedBack(R, f, m, outer); RenamedBack(R, x, m, outer);
    case Lam(d, b) => RenamedBack(R, d, m, outer); RenamedBack(R, b, m, outer);
    case Pi(d, b) => RenamedBack(R, d, m, outer); RenamedBack(R, b, m, outer);
    case Let(y, v, b) => RenamedBack(R, y, m, outer); RenamedBack(R, v, m, outer); RenamedBack(R, b, m, outer);
    case Proj(_, _, e) => RenamedBack(R, e, m, outer);
    case _ =>
  }

  // ---------------------------------------------------------------- no auxiliary recursor is left

  ghost predicate AllAvoid(ts: seq<Term>, c: Name) { forall k {:trigger ts[k]} :: 0 <= k < |ts| ==> !Mentions(ts[k], c) }

  /** Nothing the tables put in place of a constant is c. */
  ghost predicate TablesAvoid(R: Restorer, c: Name) {
    && (forall n {:trigger R.recs[n]} :: n in R.recs ==> R.recs[n] != c)
    && (forall a {:trigger R.aux[a]} :: a in R.aux ==> !Mentions(R.aux[a], c) && AppFn(R.aux[a]).Const?)
    && (forall n {:trigger R.ctorOf[n]} :: n in R.ctorOf && R.ctorOf[n] in R.aux ==>
          ReplacePrefix(n, R.ctorOf[n], AppFn(R.aux[R.ctorOf[n]]).n) != c)
  }

  /** Inside an auxiliary type or constructor's arguments, such applications have parameters without c. */
  ghost predicate ParamsAvoid(R: Restorer, t: Term, c: Name, inner: bool)
    decreases Size(t)
  {
    if IsAux(R, t) then
      var args := AppArgs(t);
      (inner ==> AllAvoid(args[..if |args| < |R.params| then |args| else |R.params|], c))
      && forall k {:trigger args[k]} :: 0 <= k < |args| ==> (ArgsSmaller(t, k); ParamsAvoid(R, args[k], c, true))
    else match t
      case App(f, x) => ParamsAvoid(R, f, c, inner) && ParamsAvoid(R, x, c, inner)
      case Lam(d, b) => ParamsAvoid(R, d, c, inner) && ParamsAvoid(R, b, c, inner)
      case Pi(d, b) => ParamsAvoid(R, d, c, inner) && ParamsAvoid(R, b, c, inner)
      case Let(y, v, b) => ParamsAvoid(R, y, c, inner) && ParamsAvoid(R, v, c, inner) && ParamsAvoid(R, b, c, inner)
      case Proj(_, _, e) => ParamsAvoid(R, e, c, inner)
      case _ => true
  }

  lemma {:induction false} MkAppsMentions(f: Term, ts: seq<Term>, c: Name)
    requires !Mentions(f, c) && AllAvoid(ts, c)
    ensures !Mentions(MkApps(f, ts), c)
    decreases |ts|
  {
    if ts != [] { MkAppsMentions(f, ts[..|ts| - 1], c); }
  }

  lemma {:induction false} AbsHead(t: Term, fs: seq<nat>, off: nat)
    requires AppFn(t).Const?
    ensures AppFn(AbsAt(t, fs, off)) == AppFn(t)
  {
    AbsNodes(t, fs, off);
    if t.App? { AbsHead(t.f, fs, off); }
  }

  lemma {:induction false} SubHead(t: Term, s: Subst)
    requires AppFn(t).Const?
    ensures AppFn(Sub(t, s)) == AppFn(t)
  {
    if t.App? { SubHead(t.f, s); }
  }

  lemma NestedOverAvoids(R: Restorer, a: Name, ps: seq<Term>, c: Name)
    requires a in R.aux && AppFn(R.aux[a]).Const? && !Mentions(R.aux[a], c) && AllAvoid(ps, c)
    ensures !Mentions(NestedOver(R, a, ps), c) && AppFn(NestedOver(R, a, ps)) == AppFn(R.aux[a])
  {
    var t := AbstractFVars(R.aux[a], R.params);
    AbsMentions(R.aux[a], R.params, 0, c);
    AbsHead(R.aux[a], R.params, 0);
    InstantiateMentions(t, ps, c);
    InstantiateIsSub(t, Reverse(ps));
    SubHead(t, Entries(Reverse(ps), 0));
  }

  lemma HeadAvoids(R: Restorer, n: Name, ps: seq<Term>, args: seq<Term>, c: Name)
    requires TablesAvoid(R, c) && AllAvoid(ps, c) && AllAvoid(args, c) && |args| >= |R.params|
    requires RestoreHead(R, n, ps, args).Ok?
    ensures !Mentions(RestoreHead(R, n, ps, args).v, c)
  {
    var rest := args[|R.params|..];
    if n in R.aux {
      NestedOverAvoids(R, n, ps, c);
      MkAppsMentions(NestedOver(R, n, ps), rest, c);
    } else {
      var a := R.ctorOf[n];
      NestedOverAvoids(R, a, ps, c);
      var nested := NestedOver(R, a, ps);
      var ctor := Const(ReplacePrefix(n, a, AppFn(nested).n), AppFn(nested).ls);
      SpineMentions(nested, c);
      MkAppsMentions(ctor, AppArgs(nested), c);
      MkAppsMentions(MkApps(ctor, AppArgs(nested)), rest, c);
    }
  }

  /** A restored term mentions no auxiliary recursor. */
  lemma {:induction false} RecGone(R: Restorer, t: Term, outer: Option<seq<Term>>, c: Name)
    requires c in R.recs && TablesAvoid(R, c) && ParamsAvoid(R, t, c, outer.None?)
    requires outer.Some? ==> AllAvoid(outer.value, c)
    requires RestoreIn(R, t, outer).Ok?
    ensures !Mentions(RestoreIn(R, t, outer).v, c)
    decreases Size(t), 1, 0
  {
    if t.Const? && t.n in R.recs {
    } else if IsAux(R, t) {
      var args := AppArgs(t);
      forall k | 0 <= k < |args| ensures Size(args[k]) < Size(t) && ParamsAvoid(R, args[k], c, true) { ArgsSmaller(t, k); }
      RecGoneAll(R, args, Size(t), c);
      var ps := if outer.Some? then outer.value else args[..|R.params|];
      HeadAvoids(R, AppFn(t).n, ps, RestoreAll(R, args, Size(t)).v, c);
    } else {
      match t
      case App(f, x) => RecGone(R, f, outer, c); RecGone(R, x, outer, c);
      case Lam(d, b) => RecGone(R, d, outer, c); RecGone(R, b, outer, c);
      case Pi(d, b) => RecGone(R, d, outer, c); RecGone(R, b, outer, c);
      case Let(y, v, b) => RecGone(R, y, outer, c); RecGone(R, v, outer, c); RecGone(R, b, outer, c);
      case Proj(_, _, e) => RecGone(R, e, outer, c);
      case _ =>
    }
  }

  lemma {:induction false} RecGoneAll(R: Restorer, ts: seq<Term>, m: nat, c: Name)
    requires c in R.recs && TablesAvoid(R, c) && AllSmaller(ts, m) && RestoreAll(R, ts, m).Ok?
    requires forall k {:trigger ts[k]} :: 0 <= k < |ts| ==> ParamsAvoid(R, ts[k], c, true)
    ensures AllAvoid(RestoreAll(R, ts, m).v, c)
    decreases m, 0, |ts|
  {
    if ts != [] {
      RecGoneAll(R, ts[..|ts| - 1], m, c);
      RecGone(R, ts[|ts| - 1], None, c);
    }
  }

  ghost predicate DomsAvoid(t: Term, n: nat, c: Name) {
    n == 0 || (IsBinder(t) && !Mentions(t.dom, c) && DomsAvoid(t.body, n - 1, c))
  }

  lemma {:induction false} RewrapMentions(t: Term, n: nat, pi: bool, r: Term, c: Name)
    requires Binders(t, n) && DomsAvoid(t, n, c) && !Mentions(r, c)
    ensures !Mentions(Rewrap(t, n, pi, r), c)
  {
    if n > 0 { RewrapMentions(t.body, n - 1, pi, r, c); }
  }

  lemma FVarsAvoid(fs: seq<nat>, c: Name)
    ensures AllAvoid(FVars(fs), c)
  {
  }

  /** A whole restored rule, binders included, mentions no auxiliary recursor. */
  lemma RuleRestored(R: Restorer, e: Term, c: Name)
    requires c in R.recs && TablesAvoid(R, c) && Restored(R, e).Ok?
    requires Binders(e, |R.params|) && DomsAvoid(e, |R.params|, c) && ParamsAvoid(R, Opened(e, R.params), c, false)
    ensures !Mentions(Restored(R, e).v, c)
  {
    var t := Opened(e, R.params);
    FVarsAvoid(R.params, c);
    RecGone(R, t, Some(FVars(R.params)), c);
    var r := RestoreIn(R, t, Some(FVars(R.params))).v;
    AbsMentions(r, R.params, 0, c);
    RewrapMentions(e, |R.params|, e.Pi?, AbstractFVars(r, R.params), c);
  }
}
