// Terms in nested elimination (src/inductive.cpp): constructor types opened, renamed and bound again, and
// instantiated at the parameters of a nested application.
module NestedTerms {
  import opened Names
  import opened Terms
  import opened Conversion
  import opened Closing
  import opened NestedModel
  import opened NestedRestore
  import L = Levels

  datatype CtorDecl = CtorDecl(name: Name, ty: Term)
  datatype IndType = IndType(name: Name, ty: Term, ctors: seq<CtorDecl>)

  /** A constructor's type as declared: closed, and clear of reserved names. */
  ghost predicate Declared(t: Term) { Closed(t) && !HasFVar(t) && Unreserved(t) }

  /** Declared constructors and the types of mutual blocks have such types, and none of the latter is anonymous. */
  ghost predicate WfDecls(D: map<Name, Info>) {
    && (forall j, k {:trigger D[j].ctors[k]} :: j in D && 0 <= k < |D[j].ctors| && D[j].ctors[k] in D ==>
          Declared(D[D[j].ctors[k]].ty))
    && (forall j, k {:trigger D[j].all[k]} :: j in D && 0 <= k < |D[j].all| ==>
          D[j].all[k] != Anonymous && (D[j].all[k] in D ==> Declared(D[D[j].all[k]].ty)))
  }

  function StripPis(t: Term, n: nat): Res<Term> {
    if n == 0 then Ok(t) else if !t.Pi? then Err(IllFormed) else StripPis(t.body, n - 1)
  }

  /** What is under the first n Pis, over the first n arguments. */
  function InstantiatePis(t: Term, n: nat, args: seq<Term>): Res<Term>
    requires n <= |args|
  {
    var b := StripPis(t, n);
    if b.Err? then b else Ok(InstantiateRev(b.v, args[..n]))
  }

  lemma {:induction false} StripIsUnder(t: Term, n: nat)
    requires StripPis(t, n).Ok?
    ensures AllPis(t, n) && Binders(t, n) && StripPis(t, n).v == Under(t, n)
  {
    if n > 0 { StripIsUnder(t.body, n - 1); }
  }

  /** Applied to free variables, it opens the Pis with them. */
  lemma InstantiatePisOpens(t: Term, fs: seq<nat>)
    requires AllPis(t, |fs|) && Binders(t, |fs|)
    ensures InstantiatePis(t, |fs|, FVars(fs)) == Ok(Opened(t, fs))
  {
    StripsAll(t, |fs|);
    StripIsUnder(t, |fs|);
    assert FVars(fs)[..|fs|] == FVars(fs);
  }

  lemma {:induction false} StripsAll(t: Term, n: nat)
    requires AllPis(t, n)
    ensures StripPis(t, n).Ok?
  {
    if n > 0 { StripsAll(t.body, n - 1); }
  }

  /** The type of constructor c of an existing type, at the levels and parameters of a nested application. */
  function TypeAt(D: map<Name, Info>, c: Name, key: Term): Res<Term> {
    if c !in D then Err(UnknownConstant)
    else if !AppFn(key).Const? then Err(IllFormed)
    else if |D[c].lparams| != |AppFn(key).ls| then Err(LevelCount)
    else InstantiatePis(InstantiateLParams(D[c].ty, D[c].lparams, AppFn(key).ls), |AppArgs(key)|, AppArgs(key))
  }

  /** t is the type of c, a type or a constructor, at the nested parameters, bound over the block's. */
  ghost predicate CopyOf(D: map<Name, Info>, key: Term, params: seq<nat>, c: Name, t: Term) {
    && AllPis(t, |params|) && Binders(t, |params|)
    && TypeAt(D, c, key) == Ok(Opened(t, params))
  }

  // ---------------------------------------------------------------- terms

  lemma {:induction false} LParamsKeep(t: Term, ps: seq<Name>, ls: seq<L.Level>, c: Name)
    requires |ps| == |ls|
    ensures HasFVar(InstLParams(t, ps, ls)) == HasFVar(t)
    ensures Mentions(InstLParams(t, ps, ls), c) == Mentions(t, c)
  {
    match t
    case App(f, x) => LParamsKeep(f, ps, ls, c); LParamsKeep(x, ps, ls, c);
    case Lam(d, b) => LParamsKeep(d, ps, ls, c); LParamsKeep(b, ps, ls, c);
    case Pi(d, b) => LParamsKeep(d, ps, ls, c); LParamsKeep(b, ps, ls, c);
    case Let(y, v, b) => LParamsKeep(y, ps, ls, c); LParamsKeep(v, ps, ls, c); LParamsKeep(b, ps, ls, c);
    case Proj(_, _, e) => LParamsKeep(e, ps, ls, c);
    case _ =>
  }

  lemma DeclaredAt(t: Term, ps: seq<Name>, ls: seq<L.Level>)
    requires |ps| == |ls| && Declared(t)
    ensures Declared(InstantiateLParams(t, ps, ls))
  {
    InstantiateLParamsOccurs(t, ps, ls);
    LParamsKeep(t, ps, ls, Anonymous);
    forall c | Mentions(InstantiateLParams(t, ps, ls), c) ensures Mentions(t, c) { LParamsKeep(t, ps, ls, c); }
  }

  lemma {:induction false} AbsMentions(t: Term, fs: seq<nat>, off: nat, c: Name)
    ensures Mentions(AbsAt(t, fs, off), c) == Mentions(t, c)
  {
    AbsNodes(t, fs, off);
    match t
    case App(f, x) => AbsMentions(f, fs, off, c); AbsMentions(x, fs, off, c);
    case Lam(d, b) => AbsMentions(d, fs, off, c); AbsMentions(b, fs, off + 1, c);
    case Pi(d, b) => AbsMentions(d, fs, off, c); AbsMentions(b, fs, off + 1, c);
    case Let(y, v, b) => AbsMentions(y, fs, off, c); AbsMentions(v, fs, off, c); AbsMentions(b, fs, off + 1, c);
    case Proj(_, _, e) => AbsMentions(e, fs, off, c);
    case _ =>
  }

  lemma AbstractUnreserved(t: Term, fs: seq<nat>)
    requires Unreserved(t)
    ensures Unreserved(AbstractFVars(t, fs))
  {
    EntryPoints(t, fs, []);
    forall c | Mentions(AbstractFVars(t, fs), c) ensures Mentions(t, c) { AbsMentions(t, fs, 0, c); }
  }

  /** Declarations that elimination opened: closed types over the earlier variables, clear of reserved names. */
  ghost predicate Plain(ds: seq<LocalDecl>, fs: seq<nat>) {
    Telescope(ds, fs) && forall i {:trigger ds[i]} :: 0 <= i < |ds| ==> Unreserved(ds[i].ty)
  }

  lemma {:induction false} BindClosed(ds: seq<LocalDecl>, fs: seq<nat>, k: nat, r: Term)
    requires Telescope(ds, fs) && k <= |fs| && Range(r) <= |fs| && !HasFVar(r)
    ensures Range(BindFrom(ds, fs, k, true, r)) <= k && !HasFVar(BindFrom(ds, fs, k, true, r))
    decreases |fs| - k
  {
    if k < |fs| {
      BindClosed(ds, fs, k + 1, r);
      assert PlainDecl(ds[k], fs[..k]);
      AbstractKeeps(ds[k].ty, fs[..k]);
    }
  }

  lemma {:induction false} BindUnreserved(ds: seq<LocalDecl>, fs: seq<nat>, k: nat, r: Term)
    requires Plain(ds, fs) && k <= |fs| && Unreserved(r)
    ensures Unreserved(BindFrom(ds, fs, k, true, r))
    decreases |fs| - k
  {
    if k < |fs| {
      BindUnreserved(ds, fs, k + 1, r);
      assert PlainDecl(ds[k], fs[..k]);
      AbstractUnreserved(ds[k].ty, fs[..k]);
    }
  }

  /** Closing over such declarations gives a type fit to be declared, that opens to the body renamed. */
  lemma CloseDeclared(ds: seq<LocalDecl>, fs: seq<nat>, t: Term, gs: seq<nat>)
    requires Plain(ds, fs) && |gs| == |fs|
    requires Closed(t) && FVarsIn(t, fs) && Unreserved(t)
    ensures Declared(CloseOver(ds, fs, true, t))
    ensures AllPis(CloseOver(ds, fs, true, t), |fs|) && Binders(CloseOver(ds, fs, true, t), |fs|)
    ensures Opened(CloseOver(ds, fs, true, t), gs) == Rename(t, fs, gs)
  {
    AbstractKeeps(t, fs);
    AbstractUnreserved(t, fs);
    BindClosed(ds, fs, 0, AbstractFVars(t, fs));
    BindUnreserved(ds, fs, 0, AbstractFVars(t, fs));
    assert NoValues(ds);
    BindFromShape(ds, fs, 0, true, AbstractFVars(t, fs));
    Reopened(t, fs, gs);
  }

  ghost predicate AllUnreserved(es: seq<Term>) { forall k {:trigger es[k]} :: 0 <= k < |es| ==> Unreserved(es[k]) }

  lemma InstantiateUnreserved(t: Term, es: seq<Term>)
    requires Unreserved(t) && AllUnreserved(es)
    ensures Unreserved(InstantiateRev(t, es))
  {
    forall c | Reserved(c) ensures !Mentions(InstantiateRev(t, es), c) { InstantiateMentions(t, es, c); }
  }

  lemma UnderDeclared(t: Term, n: nat)
    requires Declared(t) && Binders(t, n)
    ensures Range(Under(t, n)) <= n && !HasFVar(Under(t, n)) && Unreserved(Under(t, n))
  {
    UnderParts(t, n);
    forall c | Mentions(Under(t, n), c) ensures Mentions(t, c) { UnderMentions(t, n, c); }
  }

  /** A declared type at closed arguments over fs. */
  lemma InstantiatePisKeeps(t: Term, n: nat, args: seq<Term>, fs: seq<nat>, gs: seq<nat>)
    requires Declared(t) && n == |args| && ClosedOver(args, fs) && AllUnreserved(args) && |fs| == |gs|
    requires InstantiatePis(t, n, args).Ok?
    ensures var r := InstantiatePis(t, n, args).v;
      Closed(r) && FVarsIn(r, fs) && Unreserved(r) &&
      InstantiatePis(t, n, RenameAll(args, fs, gs)) == Ok(Rename(r, fs, gs))
  {
    StripIsUnder(t, n);
    UnderDeclared(t, n);
    NoFVars(Under(t, n), fs);
    assert args[..n] == args;
    assert RenameAll(args, fs, gs)[..n] == RenameAll(args, fs, gs);
    InstantiateKeeps(Under(t, n), args, fs);
    InstantiateUnreserved(Under(t, n), args);
    RenameInstantiate(Under(t, n), args, fs, gs);
  }

  /** What opening a declared type pushes is plain, and its body is closed over the new variables. */
  lemma OpenedPlain(t: Term, ds: seq<LocalDecl>, fs: seq<nat>)
    requires Declared(t) && NoValues(ds) && Distinct(fs) && OpenTypes(t, ds, fs)
    ensures Plain(ds, fs)
    ensures Closed(Opened(t, fs)) && FVarsIn(Opened(t, fs), fs) && Unreserved(Opened(t, fs))
  {
    forall i | 0 <= i < |fs| ensures PlainDecl(ds[i], fs[..i]) && Unreserved(ds[i].ty) {
      assert OpensAt(t, ds, fs, i);
      DomParts(t, i);
      NoFVars(Dom(t, i), fs[..i]);
      InstantiateKeeps(Dom(t, i), FVars(fs[..i]), fs[..i]);
      forall c | Mentions(Dom(t, i), c) ensures Mentions(t, c) { DomMentions(t, i, c); }
      InstantiateUnreserved(Dom(t, i), FVars(fs[..i]));
    }
    UnderDeclared(t, |fs|);
    NoFVars(Under(t, |fs|), fs);
    InstantiateKeeps(Under(t, |fs|), FVars(fs), fs);
    InstantiateUnreserved(Under(t, |fs|), FVars(fs));
  }

  lemma {:induction false} DomMentions(t: Term, i: nat, c: Name)
    requires Binders(t, i + 1) && Mentions(Dom(t, i), c)
    ensures Mentions(t, c)
  {
    if i > 0 { DomMentions(t.body, i - 1, c); }
  }

  /** Renaming the variables changes nothing about being nested. */
  lemma RenameNested(D: map<Name, Info>, news: seq<Name>, t: Term, fs: seq<nat>, gs: seq<nat>)
    requires |fs| == |gs|
    ensures IsNested(D, news, Rename(t, fs, gs)) == IsNested(D, news, t)
  {
    RenameSpine(t, fs, gs);
    var args, args' := AppArgs(t), AppArgs(Rename(t, fs, gs));
    forall k | 0 <= k < |args| ensures MentionsAny(args'[k], news) == MentionsAny(args[k], news) {
      forall c ensures Mentions(args'[k], c) == Mentions(args[k], c) { RenameMentions(args[k], fs, gs, c); }
      assert forall m :: 0 <= m < |news| ==> Mentions(args'[k], news[m]) == Mentions(args[k], news[m]);
    }
    if t.App? && AppFn(t).Const? && AppFn(t).n in D && D[AppFn(t).n].nparams <= |args| {
      var np := D[AppFn(t).n].nparams;
      assert (exists k :: 0 <= k < np && MentionsAny(args'[k], news)) <==>
        (exists k :: 0 <= k < np && MentionsAny(args[k], news));
    }
  }

  /** An auxiliary type applied to the opened parameters and to indices, renamed. */
  lemma RenameAux(h: Term, fs: seq<nat>, gs: seq<nat>, rest: seq<Term>)
    requires |fs| == |gs| && Distinct(fs) && h.Const?
    ensures Rename(MkApps(MkApps(h, FVars(fs)), rest), fs, gs) == MkApps(MkApps(h, FVars(gs)), RenameAll(rest, fs, gs))
  {
    RenameMkApps(MkApps(h, FVars(fs)), rest, fs, gs);
    RenameMkApps(h, FVars(fs), fs, gs);
    RenameFVars(fs, gs);
  }

  /** The auxiliary type a applied to the opened parameters stands for a nested application. */
  lemma StandsFor(S: Spec, e: Term, fs: seq<nat>, a: Name)
    requires IsNested(S.D, S.block, e) && |fs| == |S.params| && Distinct(fs)
    requires a in S.aux && S.aux[a] == Rename(MkApps(AppFn(e), AppArgs(e)[..S.D[AppFn(e).n].nparams]), fs, S.params)
    ensures var r := MkApps(MkApps(Const(a, S.lvls), FVars(fs)), AppArgs(e)[S.D[AppFn(e).n].nparams..]);
      var t := Rename(e, fs, S.params);
      IsNested(S.D, S.block, t) && Stands(S, t, Rename(r, fs, S.params))
  {
    var np, gs := S.D[AppFn(e).n].nparams, S.params;
    var rest, t := AppArgs(e)[np..], Rename(e, fs, gs);
    RenameNested(S.D, S.block, e, fs, gs);
    RenameSpine(e, fs, gs);
    RenameMkApps(AppFn(e), AppArgs(e)[..np], fs, gs);
    assert RenameAll(AppArgs(e)[..np], fs, gs) == AppArgs(t)[..np];
    RenameAux(Const(a, S.lvls), fs, gs, rest);
    assert RenameAll(rest, fs, gs) == AppArgs(t)[np..];
    StandsIntro(S, t, a);
  }

  lemma StandsIntro(S: Spec, t: Term, a: Name)
    requires AppFn(t).Const? && AppFn(t).n in S.D && S.D[AppFn(t).n].nparams <= |AppArgs(t)|
    requires a in S.aux && S.aux[a] == MkApps(AppFn(t), AppArgs(t)[..S.D[AppFn(t).n].nparams])
    ensures Stands(S, t, MkApps(MkApps(Const(a, S.lvls), FVars(S.params)), AppArgs(t)[S.D[AppFn(t).n].nparams..]))
  {
    SpineOf(MkApps(Const(a, S.lvls), FVars(S.params)), AppArgs(t)[S.D[AppFn(t).n].nparams..]);
    SpineOf(Const(a, S.lvls), FVars(S.params));
  }

  lemma AuxOver(h: Term, fs: seq<nat>, rest: seq<Term>, n: nat)
    requires h.Const? && AllOver(rest, fs) && forall k {:trigger rest[k]} :: 0 <= k < |rest| ==> Range(rest[k]) <= n
    ensures FVarsIn(MkApps(MkApps(h, FVars(fs)), rest), fs) && Range(MkApps(MkApps(h, FVars(fs)), rest)) <= n
  {
    AppsOver(h, FVars(fs), fs);
    AppsOver(MkApps(h, FVars(fs)), rest, fs);
    AppsRange(h, FVars(fs), n);
    AppsRange(MkApps(h, FVars(fs)), rest, n);
  }

  lemma {:induction false} AppsRange(f: Term, args: seq<Term>, n: nat)
    requires Range(f) <= n && forall k {:trigger args[k]} :: 0 <= k < |args| ==> Range(args[k]) <= n
    ensures Range(MkApps(f, args)) <= n
    decreases |args|
  {
    if args != [] { AppsRange(f, args[..|args| - 1], n); }
  }

  lemma {:induction false} ArgsRange(t: Term)
    ensures forall k {:trigger AppArgs(t)[k]} :: 0 <= k < |AppArgs(t)| ==> Range(AppArgs(t)[k]) <= Range(t)
  {
    if t.App? {
      ArgsRange(t.f);
      forall k | 0 <= k < |AppArgs(t)| ensures Range(AppArgs(t)[k]) <= Range(t) {
        if k < |AppArgs(t.f)| { assert AppArgs(t)[k] == AppArgs(t.f)[k]; }
      }
    }
  }

  lemma AppsClosed(h: Term, pargs: seq<Term>, fs: seq<nat>)
    requires h.Const? && ClosedOver(pargs, fs)
    ensures Closed(MkApps(h, pargs)) && FVarsIn(MkApps(h, pargs), fs)
  {
    AppsRange(h, pargs, 0);
    AppsOver(h, pargs, fs);
  }

  lemma KeySpine(h: Term, pargs: seq<Term>, fs: seq<nat>, params: seq<nat>)
    requires h.Const? && |fs| == |params|
    ensures AppFn(Rename(MkApps(h, pargs), fs, params)) == h
    ensures AppArgs(Rename(MkApps(h, pargs), fs, params)) == RenameAll(pargs, fs, params)
  {
    RenameMkApps(h, pargs, fs, params);
    SpineOf(h, RenameAll(pargs, fs, params));
  }

  /** The nested application's key over the block's parameters. */
  lemma KeyOf(h: Term, pargs: seq<Term>, fs: seq<nat>, params: seq<nat>)
    requires h.Const? && ClosedOver(pargs, fs) && |fs| == |params|
    ensures InstantiateRev(AbstractFVars(MkApps(h, pargs), fs), FVars(params)) == Rename(MkApps(h, pargs), fs, params)
    ensures KeyOk(Rename(MkApps(h, pargs), fs, params), params)
  {
    AppsClosed(h, pargs, fs);
    Reopened(MkApps(h, pargs), fs, params);
    RenameKeeps(MkApps(h, pargs), fs, params);
    KeySpine(h, pargs, fs, params);
  }

  /** The type of c, an existing type or a constructor of one, at closed arguments over fs, bound over the declarations of fs. */
  lemma CopiedType(D: map<Name, Info>, c: Name, h: Term, pargs: seq<Term>, fs: seq<nat>, ds: seq<LocalDecl>, params: seq<nat>)
    requires c in D && Declared(D[c].ty) && h.Const? && |D[c].lparams| == |h.ls|
    requires ClosedOver(pargs, fs) && AllUnreserved(pargs) && Plain(ds, fs) && |fs| == |params|
    requires InstantiatePis(InstantiateLParams(D[c].ty, D[c].lparams, h.ls), |pargs|, pargs).Ok?
    ensures var ct := InstantiatePis(InstantiateLParams(D[c].ty, D[c].lparams, h.ls), |pargs|, pargs).v;
      var t := CloseOver(ds, fs, true, ct);
      Declared(t) && CopyOf(D, Rename(MkApps(h, pargs), fs, params), params, c, t)
  {
    var ty := InstantiateLParams(D[c].ty, D[c].lparams, h.ls);
    DeclaredAt(D[c].ty, D[c].lparams, h.ls);
    InstantiatePisKeeps(ty, |pargs|, pargs, fs, params);
    CloseDeclared(ds, fs, InstantiatePis(ty, |pargs|, pargs).v, params);
    KeySpine(h, pargs, fs, params);
  }

  lemma UnreservedArgs(t: Term)
    requires Unreserved(t)
    ensures AllUnreserved(AppArgs(t))
  {
    forall k | 0 <= k < |AppArgs(t)| ensures Unreserved(AppArgs(t)[k]) {
      forall c | Mentions(AppArgs(t)[k], c) ensures Mentions(t, c) { SpineMentions(t, c); }
    }
  }

  lemma ReplacedBy(S: Spec, e: Term, fs: seq<nat>, a: Name)
    requires IsNested(S.D, S.block, e) && |fs| == |S.params| && Distinct(fs) && FVarsIn(e, fs)
    requires a in S.aux && S.aux[a] == Rename(MkApps(AppFn(e), AppArgs(e)[..S.D[AppFn(e).n].nparams]), fs, S.params)
    ensures var r := MkApps(MkApps(Const(a, S.lvls), FVars(fs)), AppArgs(e)[S.D[AppFn(e).n].nparams..]);
      var t := Rename(e, fs, S.params);
      IsNested(S.D, S.block, t) && Stands(S, t, Rename(r, fs, S.params)) && FVarsIn(r, fs) && Range(r) <= Range(e)
  {
    var rest := AppArgs(e)[S.D[AppFn(e).n].nparams..];
    StandsFor(S, e, fs, a);
    SpineOver(e, fs);
    ArgsRange(e);
    AuxOver(Const(a, S.lvls), fs, rest, Range(e));
  }

  /** r, over the parameters just opened, is the eliminated form of e. */
  ghost predicate Rewritten(S: Spec, e: Term, fs: seq<nat>, r: Term) {
    && |fs| == |S.params|
    && Eliminates(S, Rename(e, fs, S.params), Rename(r, fs, S.params))
    && FVarsIn(r, fs) && Range(r) <= Range(e)
  }

  lemma RewrittenMore(S: Spec, S': Spec, e: Term, fs: seq<nat>, r: Term)
    requires Rewritten(S, e, fs, r) && S' == S.(aux := S'.aux)
    requires forall a :: a in S.aux ==> a in S'.aux && S'.aux[a] == S.aux[a]
    ensures Rewritten(S', e, fs, r)
  {
    EliminatesMore(S, S', Rename(e, fs, S.params), Rename(r, fs, S.params));
  }

  /** A constructor's type opened with fresh parameters, rewritten and bound again is eliminated. */
  lemma EliminatedBy(S: Spec, t: Term, ds: seq<LocalDecl>, fs: seq<nat>, r: Term)
    requires Declared(t) && AllPis(t, |fs|) && |fs| == |S.params|
    requires Telescope(ds, fs) && OpenTypes(t, ds, fs)
    requires Closed(Opened(t, fs)) && Rewritten(S, Opened(t, fs), fs, r)
    ensures Eliminated(S, t, CloseOver(ds, fs, true, r))
  {
    var e, a := CloseOver(ds, fs, true, r), AbstractFVars(r, fs);
    assert NoValues(ds);
    AbstractKeeps(r, fs);
    BindClosed(ds, fs, 0, a);
    BindFromShape(ds, fs, 0, true, a);
    CloseRewraps(t, ds, fs, true, r);
    UnderParts(t, |fs|);
    RenameInstantiate(Under(t, |fs|), FVars(fs), fs, S.params);
    RenameFVars(fs, S.params);
    Reopened(r, fs, S.params);
  }
}
