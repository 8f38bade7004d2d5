// Restoring eliminated constructor types (src/inductive.cpp): when it gives back what was declared, and why
// the free variables it opens them with do not matter.
module NestedRestore {
  import opened Names
  import opened Terms
  import opened Conversion
  import opened Closing
  import opened NestedModel
  import L = Levels

  lemma {:induction false} RewrapTwice(t: Term, n: nat, r: Term, u: Term)
    requires Binders(t, n)
    ensures Binders(Rewrap(t, n, true, r), n)
    ensures Rewrap(Rewrap(t, n, true, r), n, true, u) == Rewrap(t, n, true, u)
    ensures Under(Rewrap(t, n, true, r), n) == r
  {
    if n > 0 { RewrapTwice(t.body, n - 1, r, u); }
  }

  /** Restoring the eliminated form of a constructor's type gives the type back. */
  lemma RoundTrip(S: Spec, R: Restorer, t: Term, r: Term)
    requires Matches(S, R) && Closed(t) && !HasFVar(t)
    requires Eliminated(S, t, r) && Untouched(R, Opened(t, S.params))
    ensures Restored(R, r) == Ok(t)
  {
    var n := |S.params|;
    UnderParts(t, n);
    UnderParts(r, n);
    NoFVars(Under(t, n), S.params);
    NoFVars(Under(r, n), S.params);
    Reclosed(Under(t, n), S.params);
    Reclosed(Under(r, n), S.params);
    RewrapSame(t, n);
    if R.aux == map[] && R.recs == map[] {
      NothingToEliminate(S, Opened(t, S.params), Opened(r, S.params));
    } else {
      RestoreEliminated(S, R, Opened(t, S.params), Opened(r, S.params));
      RewrapTwice(t, n, Under(r, n), Under(t, n));
      if n > 0 { assert r.Pi?; }
    }
  }

  // ---------------------------------------------------------------- when the round trip holds

  lemma OpenedMentions(t: Term, fs: seq<nat>, c: Name)
    requires Binders(t, |fs|) && Mentions(Opened(t, fs), c)
    ensures Mentions(t, c)
  {
    InstantiateMentions(Under(t, |fs|), FVars(fs), c);
    UnderMentions(t, |fs|, c);
  }

  /** Every auxiliary constructor has a reserved name. */
  ghost predicate ReservedCtors(R: Restorer) { forall c {:trigger R.ctorOf[c]} :: c in R.ctorOf ==> Reserved(c) }

  /** A closed type without free variables or reserved names, and what elimination makes of it. */
  ghost predicate Candidate(S: Spec, t: Term, r: Term) {
    Closed(t) && !HasFVar(t) && Unreserved(t) && Eliminated(S, t, r)
  }

  ghost predicate AlwaysRestored(S: Spec, R: Restorer) {
    forall t, r {:trigger Candidate(S, t, r)} :: Candidate(S, t, r) ==> Restored(R, r) == Ok(t)
  }

  /** Every constant that restoration touches is reserved. */
  lemma KeysReserved(S: Spec, R: Restorer)
    requires Matches(S, R)
    ensures forall a {:trigger a in R.aux} :: a in R.aux ==> Reserved(a)
    ensures ReservedCtors(R) ==> forall c {:trigger c in R.ctorOf} :: c in R.ctorOf ==> Reserved(c)
  {
    forall a | a in R.aux ensures Reserved(a) { assert KeyOk(R.aux[a], S.params); }
    if ReservedCtors(R) {
      forall c | c in R.ctorOf ensures Reserved(c) { var _ := R.ctorOf[c]; }
    }
  }

  lemma ReservedSuffices(S: Spec, R: Restorer, t: Term, r: Term)
    requires Matches(S, R) && ReservedCtors(R) && Candidate(S, t, r)
    ensures Restored(R, r) == Ok(t)
  {
    KeysReserved(S, R);
    forall c | Mentions(Opened(t, S.params), c) ensures c !in R.aux && c !in R.ctorOf && c !in R.recs {
      OpenedMentions(t, S.params, c);
      assert Mentions(t, c);
    }
    RoundTrip(S, R, t, r);
  }

  function Pis(n: nat, b: Term): Term { if n == 0 then b else Pi(Sort(L.Zero), Pis(n - 1, b)) }

  lemma {:induction false} PisShape(n: nat, c: Name, ls: seq<L.Level>)
    ensures AllPis(Pis(n, Const(c, ls)), n) && Binders(Pis(n, Const(c, ls)), n)
    ensures Under(Pis(n, Const(c, ls)), n) == Const(c, ls)
    ensures Closed(Pis(n, Const(c, ls))) && !HasFVar(Pis(n, Const(c, ls)))
    ensures forall d :: Mentions(Pis(n, Const(c, ls)), d) ==> d == c
  {
    if n > 0 { PisShape(n - 1, c, ls); }
  }

  /** A type that ends in an auxiliary constructor with the name of an existing one: it does not come back. */
  lemma UnreservedFails(S: Spec, R: Restorer, c: Name)
    requires Matches(S, R) && c in R.ctorOf && !Reserved(c)
    ensures exists t, r :: Candidate(S, t, r) && Restored(R, r) != Ok(t)
  {
    var n, a := |S.params|, R.ctorOf[c];
    var nested := NestedOver(R, a, FVars(S.params));
    var ls := if AppFn(nested).Const? then AppFn(nested).ls + [L.Zero] else [];
    var t := Pis(n, Const(c, ls));
    PisShape(n, c, ls);
    RewrapSame(t, n);
    EntryPoints(Const(c, ls), [], Reverse(FVars(S.params)));
    assert Opened(t, S.params) == Const(c, ls);
    assert Eliminated(S, t, t);
    assert Candidate(S, t, t);
    KeysReserved(S, R);
    if n == 0 {
      RestoredConst(R, c, ls, nested);
    } else {
      assert RestoreIn(R, Const(c, ls), Some(FVars(S.params))) == Err(UnderApplied);
    }
  }

  lemma RestoredConst(R: Restorer, c: Name, ls: seq<L.Level>, nested: Term)
    requires R.params == [] && c in R.ctorOf && R.ctorOf[c] in R.aux && c !in R.aux && c !in R.recs
    requires nested == NestedOver(R, R.ctorOf[c], [])
    requires AppFn(nested).Const? ==> ls != AppFn(nested).ls
    ensures Restored(R, Const(c, ls)) != Ok(Const(c, ls))
  {
    EntryPoints(Const(c, ls), [], []);
    assert FVars([]) == [];
    assert Opened(Const(c, ls), []) == Const(c, ls);
    assert RestoreAll(R, [], Size(Const(c, ls))) == Ok([]);
    if AppFn(nested).Const? {
      var ctor := Const(ReplacePrefix(c, R.ctorOf[c], AppFn(nested).n), AppFn(nested).ls);
      SpineOf(ctor, AppArgs(nested));
      var back := MkApps(ctor, AppArgs(nested));
      assert AppFn(back) == ctor;
      assert RestoreHead(R, c, [], []) == Ok(back);
      EntryPoints(back, [], []);
      AbsNone(back, 0);
    }
  }

  /**
   * The round trip holds for every constructor type a block may declare exactly when the auxiliary
   * constructors' names are reserved.  One that is not is the name of an existing constructor without its
   * type's name, and adding the auxiliary constructor to the environment fails on it.
   */
  lemma RoundTripExactly(S: Spec, R: Restorer)
    requires Matches(S, R)
    ensures AlwaysRestored(S, R) <==> ReservedCtors(R)
  {
    if ReservedCtors(R) {
      forall t, r | Candidate(S, t, r) ensures Restored(R, r) == Ok(t) { ReservedSuffices(S, R, t, r); }
    } else {
      var c :| c in R.ctorOf && !Reserved(c);
      UnreservedFails(S, R, c);
    }
  }

  /** A constructor that carries its type's name gets a reserved one; any other keeps its own. */
  lemma AuxCtorReserved(c: Name, j: Name, a: Name)
    requires Reserved(a)
    ensures if HasPrefix(c, j) then Reserved(ReplacePrefix(c, j, a)) else ReplacePrefix(c, j, a) == c
  {
    if HasPrefix(c, j) { CarriedReserved(c, j, a); } else { NoPrefix(c, j, a); }
  }

  lemma CarriedReserved(c: Name, j: Name, a: Name)
    requires HasPrefix(c, j) && Reserved(a)
    ensures Reserved(ReplacePrefix(c, j, a))
  {
    ReplacedHasPrefix(c, j, a);
    ReservedPrefix(ReplacePrefix(c, j, a), a);
  }

  // ---------------------------------------------------------------- the choice of free variables

  function RenameRes(r: Res<Term>, fs: seq<nat>, gs: seq<nat>): Res<Term>
    requires |fs| == |gs|
  {
    if r.Ok? then Ok(Rename(r.v, fs, gs)) else r
  }

  function RenameOuter(o: Option<seq<Term>>, fs: seq<nat>, gs: seq<nat>): Option<seq<Term>>
    requires |fs| == |gs|
  {
    if o.Some? then Some(RenameAll(o.value, fs, gs)) else None
  }

  lemma RenameNestedOver(R: Restorer, a: Name, ps: seq<Term>, gs: seq<nat>)
    requires AuxOk(R.aux, R.params) && a in R.aux && |gs| == |R.params|
    ensures NestedOver(R, a, RenameAll(ps, R.params, gs)) == Rename(NestedOver(R, a, ps), R.params, gs)
  {
    assert KeyOk(R.aux[a], R.params);
    AbstractKeeps(R.aux[a], R.params);
    RenameInstantiate(AbstractFVars(R.aux[a], R.params), ps, R.params, gs);
  }

  lemma RenameHead(R: Restorer, c: Name, ps: seq<Term>, args: seq<Term>, gs: seq<nat>)
    requires AuxOk(R.aux, R.params) && |gs| == |R.params| <= |args|
    ensures RestoreHead(R, c, RenameAll(ps, R.params, gs), RenameAll(args, R.params, gs)) ==
      RenameRes(RestoreHead(R, c, ps, args), R.params, gs)
  {
    var fs, n := R.params, |R.params|;
    var rest := args[n..];
    assert RenameAll(args, fs, gs)[n..] == RenameAll(rest, fs, gs);
    if c in R.aux {
      RenameNestedOver(R, c, ps, gs);
      RenameMkApps(NestedOver(R, c, ps), rest, fs, gs);
    } else if c in R.ctorOf && R.ctorOf[c] in R.aux {
      RenameNestedOver(R, R.ctorOf[c], ps, gs);
      RenameCtor(NestedOver(R, R.ctorOf[c], ps), c, R.ctorOf[c], rest, fs, gs);
    }
  }

  lemma RenameCtor(nested: Term, c: Name, a: Name, rest: seq<Term>, fs: seq<nat>, gs: seq<nat>)
    requires |fs| == |gs|
    ensures CtorBack(Rename(nested, fs, gs), c, a, RenameAll(rest, fs, gs)) ==
      RenameRes(CtorBack(nested, c, a, rest), fs, gs)
  {
    RenameSpine(nested, fs, gs);
    if AppFn(nested).Const? {
      RenameApps(Const(ReplacePrefix(c, a, AppFn(nested).n), AppFn(nested).ls), AppArgs(nested), rest, fs, gs);
    }
  }

  lemma RenameApps(h: Term, xs: seq<Term>, ys: seq<Term>, fs: seq<nat>, gs: seq<nat>)
    requires |fs| == |gs| && h.Const?
    ensures Rename(MkApps(MkApps(h, xs), ys), fs, gs) == MkApps(MkApps(h, RenameAll(xs, fs, gs)), RenameAll(ys, fs, gs))
  {
    RenameMkApps(h, xs, fs, gs);
    RenameMkApps(MkApps(h, xs), ys, fs, gs);
  }

  lemma {:induction false} RenameSize(t: Term, fs: seq<nat>, gs: seq<nat>)
    requires |fs| == |gs|
    ensures Size(Rename(t, fs, gs)) == Size(t)
  {
    match t
    case App(f, x) => RenameSize(f, fs, gs); RenameSize(x, fs, gs);
    case Lam(d, b) => RenameSize(d, fs, gs); RenameSize(b, fs, gs);
    case Pi(d, b) => RenameSize(d, fs, gs); RenameSize(b, fs, gs);
    case Let(y, v, b) => RenameSize(y, fs, gs); RenameSize(v, fs, gs); RenameSize(b, fs, gs);
    case Proj(_, _, e) => RenameSize(e, fs, gs);
    case _ =>
  }

  lemma RenameSmaller(ts: seq<Term>, m: nat, fs: seq<nat>, gs: seq<nat>)
    requires |fs| == |gs| && AllSmaller(ts, m)
    ensures AllSmaller(RenameAll(ts, fs, gs), m)
  {
    forall k | 0 <= k < |ts| ensures Size(RenameAll(ts, fs, gs)[k]) < m { RenameSize(ts[k], fs, gs); }
  }

  ghost predicate AllRenamed(R: Restorer, ts: seq<Term>, m: nat, gs: seq<nat>)
    requires |gs| == |R.params| && AllSmaller(ts, m)
  {
    RenameSmaller(ts, m, R.params, gs);
    var a, b := RestoreAll(R, RenameAll(ts, R.params, gs), m), RestoreAll(R, ts, m);
    if b.Err? then a == b else a == Ok(RenameAll(b.v, R.params, gs))
  }

  lemma ArgsAllSmaller(t: Term)
    ensures AllSmaller(AppArgs(t), Size(t))
  {
    forall k | 0 <= k < |AppArgs(t)| ensures Size(AppArgs(t)[k]) < Size(t) { ArgsSmaller(t, k); }
  }

  ghost predicate RestoresRenamed(R: Restorer, t: Term, outer: Option<seq<Term>>, gs: seq<nat>)
    requires |gs| == |R.params|
  {
    RestoreIn(R, Rename(t, R.params, gs), RenameOuter(outer, R.params, gs)) ==
    RenameRes(RestoreIn(R, t, outer), R.params, gs)
  }

  /** Restoring a term whose parameters were renamed is renaming what restoring it gives. */
  lemma {:induction false} RestoreRenamed(R: Restorer, t: Term, outer: Option<seq<Term>>, gs: seq<nat>)
    requires AuxOk(R.aux, R.params) && |gs| == |R.params|
    ensures RestoresRenamed(R, t, outer, gs)
    decreases Size(t), 1, 0
  {
    if IsAux(R, t) && !(t.Const? && t.n in R.recs) {
      RestoreRenamedAux(R, t, outer, gs);
    } else {
      match t
      case App(f, x) =>
        RestoreRenamed(R, f, outer, gs); RestoreRenamed(R, x, outer, gs);
        RenamedApp(R, t, outer, gs);
      case Lam(d, b) => RestoreRenamed(R, d, outer, gs); RestoreRenamed(R, b, outer, gs);
      case Pi(d, b) => RestoreRenamed(R, d, outer, gs); RestoreRenamed(R, b, outer, gs);
      case Let(y, v, b) =>
        RestoreRenamed(R, y, outer, gs); RestoreRenamed(R, v, outer, gs); RestoreRenamed(R, b, outer, gs);
        RenamedLet(R, t, outer, gs);
      case Proj(_, _, e) => RestoreRenamed(R, e, outer, gs);
      case _ =>
    }
  }

  lemma RenamedApp(R: Restorer, t: Term, outer: Option<seq<Term>>, gs: seq<nat>)
    requires |gs| == |R.params| && t.App? && !IsAux(R, t)
    requires RestoresRenamed(R, t.f, outer, gs)
    requires RestoresRenamed(R, t.x, outer, gs)
    ensures RestoresRenamed(R, t, outer, gs)
  {
    var fs := R.params;
    var u, o := Rename(t, fs, gs), RenameOuter(outer, fs, gs);
    assert !IsAux(R, u) by { RenameSpine(t, fs, gs); }
    assert RestoreIn(R, u, o) == Pair(RestoreIn(R, u.f, o), RestoreIn(R, u.x, o), (a, b) => App(a, b));
  }

  lemma RenamedLet(R: Restorer, t: Term, outer: Option<seq<Term>>, gs: seq<nat>)
    requires |gs| == |R.params| && t.Let?
    requires RestoresRenamed(R, t.ty, outer, gs)
    requires RestoresRenamed(R, t.val, outer, gs)
    requires RestoresRenamed(R, t.body, outer, gs)
    ensures RestoresRenamed(R, t, outer, gs)
  {
  }

  lemma {:induction false} RestoreRenamedAux(R: Restorer, t: Term, outer: Option<seq<Term>>, gs: seq<nat>)
    requires AuxOk(R.aux, R.params) && |gs| == |R.params|
    requires IsAux(R, t) && !(t.Const? && t.n in R.recs)
    ensures RestoresRenamed(R, t, outer, gs)
    decreases Size(t), 0, |AppArgs(t)| + 1
  {
    var fs, args := R.params, AppArgs(t);
    RenameSpine(t, fs, gs);
    RenameSize(t, fs, gs);
    ArgsAllSmaller(t);
    ArgsAllSmaller(Rename(t, fs, gs));
    RestoreRenamedAll(R, args, Size(t), gs);
    if |args| >= |fs| {
      var ps := if outer.Some? then outer.value else args[..|fs|];
      assert RenameAll(args, fs, gs)[..|fs|] == RenameAll(args[..|fs|], fs, gs);
      var done := RestoreAll(R, args, Size(t));
      if done.Ok? { RenameHead(R, AppFn(t).n, ps, done.v, gs); }
    }
  }

  lemma {:induction false} RestoreRenamedAll(R: Restorer, ts: seq<Term>, m: nat, gs: seq<nat>)
    requires AuxOk(R.aux, R.params) && |gs| == |R.params| && AllSmaller(ts, m)
    ensures AllRenamed(R, ts, m, gs)
    decreases m, 0, |ts|
  {
    var fs := R.params;
    RenameSmaller(ts, m, fs, gs);
    if ts != [] {
      var init, last := ts[..|ts| - 1], ts[|ts| - 1];
      assert RenameAll(ts, fs, gs)[..|ts| - 1] == RenameAll(init, fs, gs);
      RestoreRenamedAll(R, init, m, gs);
      RestoreRenamed(R, last, None, gs);
      var a := RestoreAll(R, init, m);
      var b := RestoreIn(R, last, None);
      if a.Ok? && b.Ok? { assert RenameAll(a.v + [b.v], fs, gs) == RenameAll(a.v, fs, gs) + [Rename(b.v, fs, gs)]; }
    }
  }

  ghost predicate AllOver(ts: seq<Term>, fs: seq<nat>) {
    forall k {:trigger ts[k]} :: 0 <= k < |ts| ==> FVarsIn(ts[k], fs)
  }

  lemma {:induction false} SpineOver(t: Term, fs: seq<nat>)
    requires FVarsIn(t, fs)
    ensures FVarsIn(AppFn(t), fs) && AllOver(AppArgs(t), fs)
  {
    if t.App? { SpineOver(t.f, fs); }
  }

  lemma {:induction false} AppsOver(f: Term, args: seq<Term>, fs: seq<nat>)
    requires FVarsIn(f, fs) && AllOver(args, fs)
    ensures FVarsIn(MkApps(f, args), fs)
    decreases |args|
  {
    if args != [] { AppsOver(f, args[..|args| - 1], fs); }
  }

  lemma HeadOver(R: Restorer, c: Name, ps: seq<Term>, args: seq<Term>, fs: seq<nat>)
    requires AuxOk(R.aux, R.params) && |args| >= |R.params| && AllOver(ps, fs) && AllOver(args, fs)
    requires RestoreHead(R, c, ps, args).Ok?
    ensures FVarsIn(RestoreHead(R, c, ps, args).v, fs)
  {
    var a := if c in R.aux then c else R.ctorOf[c];
    var rest := args[|R.params|..];
    assert KeyOk(R.aux[a], R.params);
    AbstractKeeps(R.aux[a], R.params);
    NoFVars(AbstractFVars(R.aux[a], R.params), fs);
    InstantiateFVars(AbstractFVars(R.aux[a], R.params), ps, fs);
    var nested := NestedOver(R, a, ps);
    assert AllOver(rest, fs);
    if c in R.aux {
      AppsOver(nested, rest, fs);
    } else {
      SpineOver(nested, fs);
      var ctor := Const(ReplacePrefix(c, R.ctorOf[c], AppFn(nested).n), AppFn(nested).ls);
      AppsOver(ctor, AppArgs(nested), fs);
      AppsOver(MkApps(ctor, AppArgs(nested)), rest, fs);
    }
  }

  ghost predicate OuterOver(o: Option<seq<Term>>, fs: seq<nat>) { o.Some? ==> AllOver(o.value, fs) }

  /** Restoration brings in no free variables. */
  lemma {:induction false} RestoreOver(R: Restorer, t: Term, outer: Option<seq<Term>>, fs: seq<nat>)
    requires AuxOk(R.aux, R.params) && FVarsIn(t, fs) && OuterOver(outer, fs)
    ensures RestoreIn(R, t, outer).Ok? ==> FVarsIn(RestoreIn(R, t, outer).v, fs)
    decreases Size(t), 1, 0
  {
    if t.Const? && t.n in R.recs {
    } else if IsAux(R, t) {
      ArgsAllSmaller(t);
      SpineOver(t, fs);
      var args := AppArgs(t);
      RestoreAllOver(R, args, Size(t), fs);
      var done := RestoreAll(R, args, Size(t));
      if |args| >= |R.params| && done.Ok? {
        var ps := if outer.Some? then outer.value else args[..|R.params|];
        if RestoreHead(R, AppFn(t).n, ps, done.v).Ok? { HeadOver(R, AppFn(t).n, ps, done.v, fs); }
      }
    } else {
      match t
      case App(f, x) => RestoreOver(R, f, outer, fs); RestoreOver(R, x, outer, fs);
      case Lam(d, b) => RestoreOver(R, d, outer, fs); RestoreOver(R, b, outer, fs);
      case Pi(d, b) => RestoreOver(R, d, outer, fs); RestoreOver(R, b, outer, fs);
      case Let(y, v, b) => RestoreOver(R, y, outer, fs); RestoreOver(R, v, outer, fs); RestoreOver(R, b, outer, fs);
      case Proj(_, _, e) => RestoreOver(R, e, outer, fs);
      case _ =>
    }
  }

  lemma {:induction false} RestoreAllOver(R: Restorer, ts: seq<Term>, m: nat, fs: seq<nat>)
    requires AuxOk(R.aux, R.params) && AllSmaller(ts, m) && AllOver(ts, fs)
    ensures RestoreAll(R, ts, m).Ok? ==> AllOver(RestoreAll(R, ts, m).v, fs)
    decreases m, 0, |ts|
  {
    if ts != [] {
      RestoreAllOver(R, ts[..|ts| - 1], m, fs);
      RestoreOver(R, ts[|ts| - 1], None, fs);
    }
  }

  /** Opening with other variables, restoring, and abstracting those again comes to the same. */
  lemma FreshRestores(R: Restorer, t: Term, gs: seq<nat>, ds: seq<LocalDecl>)
    requires AuxOk(R.aux, R.params) && |gs| == |R.params| && Distinct(gs)
    requires Closed(t) && !HasFVar(t) && NoValues(ds) && OpenTypes(t, ds, gs)
    requires R.aux != map[] || R.recs != map[]
    ensures var r := RestoreIn(R, Opened(t, gs), Some(FVars(gs)));
      Restored(R, t) == if r.Err? then r else Ok(CloseOver(ds, gs, t.Pi?, r.v))
  {
    var fs := R.params;
    var u, o := Opened(t, fs), Some(FVars(fs));
    UnderParts(t, |fs|);
    RenameInstantiate(Under(t, |fs|), FVars(fs), fs, gs);
    RenameFVars(fs, gs);
    RestoreRenamed(R, u, o, gs);
    var r := RestoreIn(R, u, o);
    if r.Ok? {
      NoFVars(Under(t, |fs|), fs);
      InstantiateFVars(Under(t, |fs|), FVars(fs), fs);
      RestoreOver(R, u, o, fs);
      AbstractRename(r.v, fs, gs);
      CloseRewraps(t, ds, gs, t.Pi?, Rename(r.v, fs, gs));
    }
  }
}
