// Free variables: abstracting them (src/expr.cpp), and closing binders over them (src/kernel.cpp).
module Closing {
  import opened Terms
  import opened Conversion

  function FVars(fs: seq<nat>): (r: seq<Term>)
    ensures |r| == |fs|
    ensures forall k :: 0 <= k < |fs| ==> r[k] == FVar(fs[k])
  {
    seq(|fs|, k requires 0 <= k < |fs| => FVar(fs[k]))
  }

  ghost predicate Distinct(fs: seq<nat>) { forall i, j :: 0 <= i < j < |fs| ==> fs[i] != fs[j] }

  /** The last place a variable is listed. */
  function PlaceOf(fs: seq<nat>, x: nat): (r: Option<nat>)
    ensures r.Some? ==> r.value < |fs| && fs[r.value] == x
    ensures r.None? <==> x !in fs
  {
    if fs == [] then None
    else if fs[|fs| - 1] == x then Some(|fs| - 1)
    else PlaceOf(fs[..|fs| - 1], x)
  }

  /** Every free variable of the term is listed. */
  predicate FVarsIn(t: Term, fs: seq<nat>) {
    match t
    case FVar(x) => x in fs
    case App(f, x) => FVarsIn(f, fs) && FVarsIn(x, fs)
    case Lam(d, b) => FVarsIn(d, fs) && FVarsIn(b, fs)
    case Pi(d, b) => FVarsIn(d, fs) && FVarsIn(b, fs)
    case Let(y, v, b) => FVarsIn(y, fs) && FVarsIn(v, fs) && FVarsIn(b, fs)
    case Proj(_, _, e) => FVarsIn(e, fs)
    case _ => true
  }

  /** No free variable of the term is listed. */
  predicate Avoids(t: Term, fs: seq<nat>) {
    match t
    case FVar(x) => x !in fs
    case App(f, x) => Avoids(f, fs) && Avoids(x, fs)
    case Lam(d, b) => Avoids(d, fs) && Avoids(b, fs)
    case Pi(d, b) => Avoids(d, fs) && Avoids(b, fs)
    case Let(y, v, b) => Avoids(y, fs) && Avoids(v, fs) && Avoids(b, fs)
    case Proj(_, _, e) => Avoids(e, fs)
    case _ => true
  }

  lemma {:induction false} NoFVars(t: Term, fs: seq<nat>)
    requires !HasFVar(t)
    ensures Avoids(t, fs) && FVarsIn(t, fs)
  {
    match t
    case App(f, x) => NoFVars(f, fs); NoFVars(x, fs);
    case Lam(d, b) => NoFVars(d, fs); NoFVars(b, fs);
    case Pi(d, b) => NoFVars(d, fs); NoFVars(b, fs);
    case Let(y, v, b) => NoFVars(y, fs); NoFVars(v, fs); NoFVars(b, fs);
    case Proj(_, _, e) => NoFVars(e, fs);
    case _ =>
  }

  lemma {:induction false} NoneListed(t: Term)
    requires FVarsIn(t, [])
    ensures !HasFVar(t)
  {
    match t
    case App(f, x) => NoneListed(f); NoneListed(x);
    case Lam(d, b) => NoneListed(d); NoneListed(b);
    case Pi(d, b) => NoneListed(d); NoneListed(b);
    case Let(y, v, b) => NoneListed(y); NoneListed(v); NoneListed(b);
    case Proj(_, _, e) => NoneListed(e);
    case _ =>
  }

  // ---------------------------------------------------------------- abstraction

  /** Under off binders; the last listed variable becomes the innermost. */
  function AbsAt(t: Term, fs: seq<nat>, off: nat): Term {
    if !HasFVar(t) then t
    else match t
      case FVar(x) =>
        var p := PlaceOf(fs, x);
        if p.Some? then BVar(off + (|fs| - 1 - p.value)) else t
      case App(f, x) => App(AbsAt(f, fs, off), AbsAt(x, fs, off))
      case Lam(d, b) => Lam(AbsAt(d, fs, off), AbsAt(b, fs, off + 1))
      case Pi(d, b) => Pi(AbsAt(d, fs, off), AbsAt(b, fs, off + 1))
      case Let(y, v, b) => Let(AbsAt(y, fs, off), AbsAt(v, fs, off), AbsAt(b, fs, off + 1))
      case Proj(s, i, e) => Proj(s, i, AbsAt(e, fs, off))
      case _ => t
  }

  /** Instantiation goes through every node, early exits or not. */
  ghost predicate InstNode(t: Term, es: seq<Term>, off: nat) {
    match t
    case App(f, x) => InstAt(t, es, off) == App(InstAt(f, es, off), InstAt(x, es, off))
    case Lam(d, b) => InstAt(t, es, off) == Lam(InstAt(d, es, off), InstAt(b, es, off + 1))
    case Pi(d, b) => InstAt(t, es, off) == Pi(InstAt(d, es, off), InstAt(b, es, off + 1))
    case Let(y, v, b) => InstAt(t, es, off) == Let(InstAt(y, es, off), InstAt(v, es, off), InstAt(b, es, off + 1))
    case Proj(s, i, e) => InstAt(t, es, off) == Proj(s, i, InstAt(e, es, off))
    case _ => true
  }

  lemma InstNodes(t: Term, es: seq<Term>, off: nat)
    ensures InstNode(t, es, off)
  {
  }

  /** So does abstraction. */
  ghost predicate AbsNode(t: Term, fs: seq<nat>, off: nat) {
    match t
    case App(f, x) => AbsAt(t, fs, off) == App(AbsAt(f, fs, off), AbsAt(x, fs, off))
    case Lam(d, b) => AbsAt(t, fs, off) == Lam(AbsAt(d, fs, off), AbsAt(b, fs, off + 1))
    case Pi(d, b) => AbsAt(t, fs, off) == Pi(AbsAt(d, fs, off), AbsAt(b, fs, off + 1))
    case Let(y, v, b) => AbsAt(t, fs, off) == Let(AbsAt(y, fs, off), AbsAt(v, fs, off), AbsAt(b, fs, off + 1))
    case Proj(s, i, e) => AbsAt(t, fs, off) == Proj(s, i, AbsAt(e, fs, off))
    case _ => true
  }

  lemma AbsNodes(t: Term, fs: seq<nat>, off: nat)
    ensures AbsNode(t, fs, off)
  {
  }

  function AbstractFVars(t: Term, fs: seq<nat>): Term {
    if |fs| == 0 || !HasFVar(t) then t else AbsAt(t, fs, 0)
  }

  /** Each listed variable replaced by its counterpart. */
  function Rename(t: Term, fs: seq<nat>, gs: seq<nat>): Term
    requires |fs| == |gs|
  {
    match t
    case FVar(x) =>
      var p := PlaceOf(fs, x);
      if p.Some? then FVar(gs[p.value]) else t
    case App(f, x) => App(Rename(f, fs, gs), Rename(x, fs, gs))
    case Lam(d, b) => Lam(Rename(d, fs, gs), Rename(b, fs, gs))
    case Pi(d, b) => Pi(Rename(d, fs, gs), Rename(b, fs, gs))
    case Let(y, v, b) => Let(Rename(y, fs, gs), Rename(v, fs, gs), Rename(b, fs, gs))
    case Proj(s, i, e) => Proj(s, i, Rename(e, fs, gs))
    case _ => t
  }

  lemma {:induction false} RenameOther(t: Term, fs: seq<nat>, gs: seq<nat>)
    requires |fs| == |gs| && Avoids(t, fs)
    ensures Rename(t, fs, gs) == t
  {
    match t
    case App(f, x) => RenameOther(f, fs, gs); RenameOther(x, fs, gs);
    case Lam(d, b) => RenameOther(d, fs, gs); RenameOther(b, fs, gs);
    case Pi(d, b) => RenameOther(d, fs, gs); RenameOther(b, fs, gs);
    case Let(y, v, b) => RenameOther(y, fs, gs); RenameOther(v, fs, gs); RenameOther(b, fs, gs);
    case Proj(_, _, e) => RenameOther(e, fs, gs);
    case _ =>
  }

  lemma {:induction false} RenameSame(t: Term, fs: seq<nat>)
    ensures Rename(t, fs, fs) == t
  {
    match t
    case App(f, x) => RenameSame(f, fs); RenameSame(x, fs);
    case Lam(d, b) => RenameSame(d, fs); RenameSame(b, fs);
    case Pi(d, b) => RenameSame(d, fs); RenameSame(b, fs);
    case Let(y, v, b) => RenameSame(y, fs); RenameSame(v, fs); RenameSame(b, fs);
    case Proj(_, _, e) => RenameSame(e, fs);
    case _ =>
  }

  lemma PlaceAt(fs: seq<nat>, k: nat)
    requires Distinct(fs) && k < |fs|
    ensures PlaceOf(fs, fs[k]) == Some(k)
  {
    var p := PlaceOf(fs, fs[k]).value;
    assert fs[p] == fs[k];
  }

  lemma {:induction false} RenameTwice(t: Term, fs: seq<nat>, gs: seq<nat>, hs: seq<nat>)
    requires |fs| == |gs| == |hs| && Distinct(gs) && FVarsIn(t, fs)
    ensures Rename(Rename(t, fs, gs), gs, hs) == Rename(t, fs, hs)
  {
    match t
    case FVar(x) => PlaceAt(gs, PlaceOf(fs, x).value);
    case App(f, x) => RenameTwice(f, fs, gs, hs); RenameTwice(x, fs, gs, hs);
    case Lam(d, b) => RenameTwice(d, fs, gs, hs); RenameTwice(b, fs, gs, hs);
    case Pi(d, b) => RenameTwice(d, fs, gs, hs); RenameTwice(b, fs, gs, hs);
    case Let(y, v, b) => RenameTwice(y, fs, gs, hs); RenameTwice(v, fs, gs, hs); RenameTwice(b, fs, gs, hs);
    case Proj(_, _, e) => RenameTwice(e, fs, gs, hs);
    case _ =>
  }

  lemma {:induction false} RenameKeeps(t: Term, fs: seq<nat>, gs: seq<nat>)
    requires |fs| == |gs|
    ensures Range(Rename(t, fs, gs)) == Range(t)
    ensures FVarsIn(t, fs) ==> FVarsIn(Rename(t, fs, gs), gs)
  {
    match t
    case App(f, x) => RenameKeeps(f, fs, gs); RenameKeeps(x, fs, gs);
    case Lam(d, b) => RenameKeeps(d, fs, gs); RenameKeeps(b, fs, gs);
    case Pi(d, b) => RenameKeeps(d, fs, gs); RenameKeeps(b, fs, gs);
    case Let(y, v, b) => RenameKeeps(y, fs, gs); RenameKeeps(v, fs, gs); RenameKeeps(b, fs, gs);
    case Proj(_, _, e) => RenameKeeps(e, fs, gs);
    case _ =>
  }

  /** Abstracting a term's variables and instantiating others in their place renames them. */
  lemma {:induction false} InstAbs(t: Term, fs: seq<nat>, gs: seq<nat>, es: seq<Term>, off: nat)
    requires |fs| == |gs| == |es| && Range(t) <= off
    requires forall k {:trigger es[k]} :: 0 <= k < |es| ==> es[k] == FVar(gs[|gs| - 1 - k])
    ensures InstAt(AbsAt(t, fs, off), es, off) == Rename(t, fs, gs)
  {
    if !HasFVar(t) {
      NoFVars(t, fs);
      RenameOther(t, fs, gs);
    } else {
      InstNodes(AbsAt(t, fs, off), es, off);
      match t
      case App(f, x) => InstAbs(f, fs, gs, es, off); InstAbs(x, fs, gs, es, off);
      case Lam(d, b) => InstAbs(d, fs, gs, es, off); InstAbs(b, fs, gs, es, off + 1);
      case Pi(d, b) => InstAbs(d, fs, gs, es, off); InstAbs(b, fs, gs, es, off + 1);
      case Let(y, v, b) =>
        InstAbs(y, fs, gs, es, off); InstAbs(v, fs, gs, es, off); InstAbs(b, fs, gs, es, off + 1);
      case Proj(_, _, e) => InstAbs(e, fs, gs, es, off);
      case FVar(x) => InstAbsVar(x, fs, gs, es, off);
      case _ =>
    }
  }

  lemma InstAbsVar(x: nat, fs: seq<nat>, gs: seq<nat>, es: seq<Term>, off: nat)
    requires |fs| == |gs| == |es|
    requires forall k {:trigger es[k]} :: 0 <= k < |es| ==> es[k] == FVar(gs[|gs| - 1 - k])
    ensures InstAt(AbsAt(FVar(x), fs, off), es, off) == Rename(FVar(x), fs, gs)
  {
    var p := PlaceOf(fs, x);
    if p.Some? { assert es[|fs| - 1 - p.value] == FVar(gs[p.value]); }
  }

  /** Instantiating by fresh distinct variables and abstracting them again changes nothing. */
  lemma {:induction false} AbsInst(t: Term, fs: seq<nat>, off: nat)
    requires Distinct(fs) && Avoids(t, fs) && Range(t) <= off + |fs|
    ensures AbsAt(InstAt(t, Reverse(FVars(fs)), off), fs, off) == t
  {
    InstNodes(t, Reverse(FVars(fs)), off);
    AbsNodes(InstAt(t, Reverse(FVars(fs)), off), fs, off);
    match t
    case BVar(i) => if i >= off { PlaceAt(fs, |fs| - 1 - (i - off)); }
    case App(f, x) => AbsInst(f, fs, off); AbsInst(x, fs, off);
    case Lam(d, b) => AbsInst(d, fs, off); AbsInst(b, fs, off + 1);
    case Pi(d, b) => AbsInst(d, fs, off); AbsInst(b, fs, off + 1);
    case Let(y, v, b) => AbsInst(y, fs, off); AbsInst(v, fs, off); AbsInst(b, fs, off + 1);
    case Proj(_, _, e) => AbsInst(e, fs, off);
    case _ =>
  }

  lemma {:induction false} AbsNone(t: Term, off: nat)
    ensures AbsAt(t, [], off) == t
  {
    match t
    case App(f, x) => AbsNone(f, off); AbsNone(x, off);
    case Lam(d, b) => AbsNone(d, off); AbsNone(b, off + 1);
    case Pi(d, b) => AbsNone(d, off); AbsNone(b, off + 1);
    case Let(y, v, b) => AbsNone(y, off); AbsNone(v, off); AbsNone(b, off + 1);
    case Proj(_, _, e) => AbsNone(e, off);
    case _ =>
  }

  lemma {:induction false} InstNone(t: Term, off: nat)
    ensures InstAt(t, [], off) == t
  {
    match t
    case App(f, x) => InstNone(f, off); InstNone(x, off);
    case Lam(d, b) => InstNone(d, off); InstNone(b, off + 1);
    case Pi(d, b) => InstNone(d, off); InstNone(b, off + 1);
    case Let(y, v, b) => InstNone(y, off); InstNone(v, off); InstNone(b, off + 1);
    case Proj(_, _, e) => InstNone(e, off);
    case _ =>
  }

  /** The shortcuts of the two entry points do not matter. */
  lemma EntryPoints(t: Term, fs: seq<nat>, es: seq<Term>)
    ensures AbstractFVars(t, fs) == AbsAt(t, fs, 0)
    ensures Instantiate(t, es) == InstAt(t, es, 0)
  {
    if |fs| == 0 { AbsNone(t, 0); }
    if |es| == 0 { InstNone(t, 0); }
  }

  lemma Reopened(t: Term, fs: seq<nat>, gs: seq<nat>)
    requires |fs| == |gs| && Closed(t)
    ensures InstantiateRev(AbstractFVars(t, fs), FVars(gs)) == Rename(t, fs, gs)
  {
    EntryPoints(t, fs, []);
    EntryPoints(AbsAt(t, fs, 0), fs, Reverse(FVars(gs)));
    InstAbs(t, fs, gs, Reverse(FVars(gs)), 0);
  }

  lemma Reclosed(t: Term, fs: seq<nat>)
    requires Distinct(fs) && Avoids(t, fs) && Range(t) <= |fs|
    ensures AbstractFVars(InstantiateRev(t, FVars(fs)), fs) == t
  {
    EntryPoints(t, fs, Reverse(FVars(fs)));
    EntryPoints(InstantiateRev(t, FVars(fs)), fs, []);
    AbsInst(t, fs, 0);
  }

  /** For a closed term over the listed variables: abstraction leaves none, and no other loose variable. */
  lemma {:induction false} AbsKeeps(t: Term, fs: seq<nat>, off: nat)
    requires Range(t) <= off && FVarsIn(t, fs)
    ensures Range(AbsAt(t, fs, off)) <= off + |fs| && !HasFVar(AbsAt(t, fs, off))
  {
    AbsNodes(t, fs, off);
    match t
    case App(f, x) => AbsKeeps(f, fs, off); AbsKeeps(x, fs, off);
    case Lam(d, b) => AbsKeeps(d, fs, off); AbsKeeps(b, fs, off + 1);
    case Pi(d, b) => AbsKeeps(d, fs, off); AbsKeeps(b, fs, off + 1);
    case Let(y, v, b) => AbsKeeps(y, fs, off); AbsKeeps(v, fs, off); AbsKeeps(b, fs, off + 1);
    case Proj(_, _, e) => AbsKeeps(e, fs, off);
    case _ =>
  }

  lemma AbstractKeeps(t: Term, fs: seq<nat>)
    requires Closed(t) && FVarsIn(t, fs)
    ensures Range(AbstractFVars(t, fs)) <= |fs| && !HasFVar(AbstractFVars(t, fs))
  {
    EntryPoints(t, fs, []);
    AbsKeeps(t, fs, 0);
  }

  ghost predicate ClosedOver(es: seq<Term>, fs: seq<nat>) {
    forall k {:trigger es[k]} :: 0 <= k < |es| ==> Closed(es[k]) && FVarsIn(es[k], fs)
  }

  lemma {:induction false} RenFVars(t: Term, r: Renaming, fs: seq<nat>)
    ensures FVarsIn(Ren(t, r), fs) == FVarsIn(t, fs)
  {
    match t
    case App(f, x) => RenFVars(f, r, fs); RenFVars(x, r, fs);
    case Lam(d, b) => RenFVars(d, r, fs); RenFVars(b, UpR(r), fs);
    case Pi(d, b) => RenFVars(d, r, fs); RenFVars(b, UpR(r), fs);
    case Let(y, v, b) => RenFVars(y, r, fs); RenFVars(v, r, fs); RenFVars(b, UpR(r), fs);
    case Proj(_, _, e) => RenFVars(e, r, fs);
    case _ =>
  }

  ghost predicate SubstOver(s: Subst, fs: seq<nat>) { forall i: nat {:trigger s(i)} :: FVarsIn(s(i), fs) }

  lemma {:induction false} SubFVars(t: Term, s: Subst, fs: seq<nat>)
    requires FVarsIn(t, fs) && SubstOver(s, fs)
    ensures FVarsIn(Sub(t, s), fs)
  {
    forall i: nat ensures FVarsIn(Up(s)(i), fs) {
      if i > 0 { RenFVars(s(i - 1), Plus(1), fs); }
    }
    match t
    case App(f, x) => SubFVars(f, s, fs); SubFVars(x, s, fs);
    case Lam(d, b) => SubFVars(d, s, fs); SubFVars(b, Up(s), fs);
    case Pi(d, b) => SubFVars(d, s, fs); SubFVars(b, Up(s), fs);
    case Let(y, v, b) => SubFVars(y, s, fs); SubFVars(v, s, fs); SubFVars(b, Up(s), fs);
    case Proj(_, _, e) => SubFVars(e, s, fs);
    case _ =>
  }

  /** Instantiation puts in no free variables but those of the entries. */
  lemma InstantiateFVars(t: Term, es: seq<Term>, fs: seq<nat>)
    requires FVarsIn(t, fs) && forall k {:trigger es[k]} :: 0 <= k < |es| ==> FVarsIn(es[k], fs)
    ensures FVarsIn(InstantiateRev(t, es), fs)
  {
    InstantiateIsSub(t, Reverse(es));
    var s := Entries(Reverse(es), 0);
    forall i: nat ensures FVarsIn(s(i), fs) {
      if i < |es| { RenFVars(es[|es| - 1 - i], Plus(0), fs); }
    }
    SubFVars(t, s, fs);
  }

  lemma EntryClosed(es: seq<Term>, fs: seq<nat>, j: nat, i: nat)
    requires ClosedOver(es, fs) && j < |es|
    ensures !Occurs(Entries(Reverse(es), 0)(j), i)
  {
    var e := es[|es| - 1 - j];
    ClosedRen(e, Plus(0));
    RangeExact(e);
  }

  /** Instantiating closed entries over the listed variables leaves only those. */
  lemma InstantiateKeeps(t: Term, es: seq<Term>, fs: seq<nat>)
    requires Range(t) <= |es| && FVarsIn(t, fs) && ClosedOver(es, fs)
    ensures Closed(InstantiateRev(t, es)) && FVarsIn(InstantiateRev(t, es), fs)
  {
    InstantiateFVars(t, es, fs);
    var r, s := InstantiateRev(t, es), Entries(Reverse(es), 0);
    InstantiateIsSub(t, Reverse(es));
    RangeExact(r);
    RangeExact(t);
    forall i: nat ensures !Occurs(r, i) {
      OccursSub(t, s, i);
      forall j: nat | Occurs(t, j) ensures !Occurs(s(j), i) { EntryClosed(es, fs, j, i); }
    }
  }

  // ---------------------------------------------------------------- renaming what is put in

  function RenameAll(es: seq<Term>, fs: seq<nat>, gs: seq<nat>): (r: seq<Term>)
    requires |fs| == |gs|
    ensures |r| == |es|
    ensures forall k :: 0 <= k < |es| ==> r[k] == Rename(es[k], fs, gs)
  {
    seq(|es|, k requires 0 <= k < |es| => Rename(es[k], fs, gs))
  }

  lemma {:induction false} RenameRen(t: Term, r: Renaming, fs: seq<nat>, gs: seq<nat>)
    requires |fs| == |gs|
    ensures Rename(Ren(t, r), fs, gs) == Ren(Rename(t, fs, gs), r)
  {
    match t
    case App(f, x) => RenameRen(f, r, fs, gs); RenameRen(x, r, fs, gs);
    case Lam(y, b) => RenameRen(y, r, fs, gs); RenameRen(b, UpR(r), fs, gs);
    case Pi(y, b) => RenameRen(y, r, fs, gs); RenameRen(b, UpR(r), fs, gs);
    case Let(y, v, b) => RenameRen(y, r, fs, gs); RenameRen(v, r, fs, gs); RenameRen(b, UpR(r), fs, gs);
    case Proj(_, _, e) => RenameRen(e, r, fs, gs);
    case _ =>
  }

  ghost function RenameSubst(s: Subst, fs: seq<nat>, gs: seq<nat>): Subst
    requires |fs| == |gs|
  {
    (i: nat) => Rename(s(i), fs, gs)
  }

  lemma {:induction false} RenameSub(t: Term, s: Subst, fs: seq<nat>, gs: seq<nat>)
    requires |fs| == |gs|
    ensures Rename(Sub(t, s), fs, gs) == Sub(Rename(t, fs, gs), RenameSubst(s, fs, gs))
    decreases t, 0
  {
    match t
    case App(f, x) => RenameSub(f, s, fs, gs); RenameSub(x, s, fs, gs);
    case Lam(d, b) => RenameSub(d, s, fs, gs); RenameSubUp(b, s, fs, gs);
    case Pi(d, b) => RenameSub(d, s, fs, gs); RenameSubUp(b, s, fs, gs);
    case Let(y, v, b) => RenameSub(y, s, fs, gs); RenameSub(v, s, fs, gs); RenameSubUp(b, s, fs, gs);
    case Proj(_, _, e) => RenameSub(e, s, fs, gs);
    case _ =>
  }

  lemma {:induction false} RenameSubUp(b: Term, s: Subst, fs: seq<nat>, gs: seq<nat>)
    requires |fs| == |gs|
    ensures Rename(Sub(b, Up(s)), fs, gs) == Sub(Rename(b, fs, gs), Up(RenameSubst(s, fs, gs)))
    decreases b, 1
  {
    RenameSub(b, Up(s), fs, gs);
    forall i: nat ensures RenameSubst(Up(s), fs, gs)(i) == Up(RenameSubst(s, fs, gs))(i) {
      if i > 0 { RenameRen(s(i - 1), Plus(1), fs, gs); } else { assert Rename(BVar(0), fs, gs) == BVar(0); }
    }
    SubExt(Rename(b, fs, gs), RenameSubst(Up(s), fs, gs), Up(RenameSubst(s, fs, gs)));
  }

  lemma RenameEntries(es: seq<Term>, fs: seq<nat>, gs: seq<nat>, i: nat)
    requires |fs| == |gs|
    ensures RenameSubst(Entries(Reverse(es), 0), fs, gs)(i) == Entries(Reverse(RenameAll(es, fs, gs)), 0)(i)
  {
    if i < |es| {
      RenameRen(es[|es| - 1 - i], Plus(0), fs, gs);
    } else {
      assert Rename(BVar(i - |es|), fs, gs) == BVar(i - |es|);
    }
  }

  /** Renaming an instantiated term: the term and what was put in are renamed. */
  lemma RenameInstantiate(t: Term, es: seq<Term>, fs: seq<nat>, gs: seq<nat>)
    requires |fs| == |gs|
    ensures Rename(InstantiateRev(t, es), fs, gs) == InstantiateRev(Rename(t, fs, gs), RenameAll(es, fs, gs))
    ensures !HasFVar(t) ==> Rename(t, fs, gs) == t
  {
    var u := Rename(t, fs, gs);
    InstantiateIsSub(t, Reverse(es));
    InstantiateIsSub(u, Reverse(RenameAll(es, fs, gs)));
    RenameSub(t, Entries(Reverse(es), 0), fs, gs);
    forall i: nat
      ensures RenameSubst(Entries(Reverse(es), 0), fs, gs)(i) == Entries(Reverse(RenameAll(es, fs, gs)), 0)(i)
    {
      RenameEntries(es, fs, gs, i);
    }
    SubExt(u, RenameSubst(Entries(Reverse(es), 0), fs, gs), Entries(Reverse(RenameAll(es, fs, gs)), 0));
    if !HasFVar(t) {
      NoFVars(t, fs);
      RenameOther(t, fs, gs);
    }
  }

  lemma RenameFVars(fs: seq<nat>, gs: seq<nat>)
    requires |fs| == |gs| && Distinct(fs)
    ensures RenameAll(FVars(fs), fs, gs) == FVars(gs)
  {
    forall k | 0 <= k < |fs| ensures Rename(FVar(fs[k]), fs, gs) == FVar(gs[k]) { PlaceAt(fs, k); }
  }

  lemma {:induction false} RenameMkApps(f: Term, es: seq<Term>, fs: seq<nat>, gs: seq<nat>)
    requires |fs| == |gs|
    ensures Rename(MkApps(f, es), fs, gs) == MkApps(Rename(f, fs, gs), RenameAll(es, fs, gs))
    decreases |es|
  {
    if es != [] {
      RenameMkApps(f, es[..|es| - 1], fs, gs);
      assert RenameAll(es, fs, gs)[..|es| - 1] == RenameAll(es[..|es| - 1], fs, gs);
    }
  }

  // ---------------------------------------------------------------- binders

  predicate IsBinder(t: Term) { t.Pi? || t.Lam? }

  function Bind(pi: bool, d: Term, b: Term): Term { if pi then Pi(d, b) else Lam(d, b) }

  /** At least n leading binders. */
  predicate Binders(t: Term, n: nat) { n == 0 || (IsBinder(t) && Binders(t.body, n - 1)) }

  /** The type of leading binder k, under those before it. */
  function Dom(t: Term, k: nat): Term
    requires Binders(t, k + 1)
  {
    if k == 0 then t.dom else Dom(t.body, k - 1)
  }

  /** What is under the n leading binders. */
  function Under(t: Term, n: nat): Term
    requires Binders(t, n)
  {
    if n == 0 then t else Under(t.body, n - 1)
  }

  predicate AllPis(t: Term, n: nat) { n == 0 || (t.Pi? && AllPis(t.body, n - 1)) }

  predicate AllLams(t: Term, n: nat) { n == 0 || (t.Lam? && AllLams(t.body, n - 1)) }

  /** A free variable's declaration; one with a value stands for a let. */
  datatype LocalDecl = LocalDecl(ty: Term, value: Option<Term>)

  /** A binder for declaration d, whose earlier variables are fs. */
  function BindOne(d: LocalDecl, fs: seq<nat>, pi: bool, r: Term): Term {
    var ty := AbstractFVars(d.ty, fs);
    if d.value.Some? then Let(ty, AbstractFVars(d.value.value, fs), r) else Bind(pi, ty, r)
  }

  /** Binders for variables k, k+1, … around r; ds are the variables' declarations. */
  function BindFrom(ds: seq<LocalDecl>, fs: seq<nat>, k: nat, pi: bool, r: Term): Term
    requires k <= |fs| == |ds|
    decreases |fs| - k
  {
    if k == |fs| then r else BindOne(ds[k], fs[..k], pi, BindFrom(ds, fs, k + 1, pi, r))
  }

  function CloseOver(ds: seq<LocalDecl>, fs: seq<nat>, pi: bool, body: Term): Term
    requires |fs| == |ds|
  {
    BindFrom(ds, fs, 0, pi, AbstractFVars(body, fs))
  }

  ghost predicate PlainDecl(d: LocalDecl, fs: seq<nat>) { d.value.None? && Closed(d.ty) && FVarsIn(d.ty, fs) }

  /** Distinct variables, each with a closed type over those before it and no value. */
  ghost predicate Telescope(ds: seq<LocalDecl>, fs: seq<nat>) {
    && |ds| == |fs|
    && Distinct(fs)
    && forall i {:trigger ds[i]} :: 0 <= i < |fs| ==> PlainDecl(ds[i], fs[..i])
  }

  ghost predicate OpensAt(t: Term, ds: seq<LocalDecl>, fs: seq<nat>, i: nat)
    requires i < |fs| == |ds|
  {
    Binders(t, i + 1) && InstantiateRev(Dom(t, i), FVars(fs[..i])) == ds[i].ty
  }

  /** The leading binders of t, opened with fs, have the declared types. */
  ghost predicate OpenTypes(t: Term, ds: seq<LocalDecl>, fs: seq<nat>) {
    && |ds| == |fs|
    && Binders(t, |fs|)
    && forall i {:trigger OpensAt(t, ds, fs, i)} :: 0 <= i < |fs| ==> OpensAt(t, ds, fs, i)
  }

  /** What is under the n leading binders, with fs for the bound variables. */
  function Opened(t: Term, fs: seq<nat>): Term
    requires Binders(t, |fs|)
  {
    InstantiateRev(Under(t, |fs|), FVars(fs))
  }

  /** The n leading binders of t, all of one kind, around r. */
  function Rewrap(t: Term, n: nat, pi: bool, r: Term): Term
    requires Binders(t, n)
  {
    if n == 0 then r else Bind(pi, t.dom, Rewrap(t.body, n - 1, pi, r))
  }

  lemma {:induction false} BindersLess(t: Term, n: nat, k: nat)
    requires Binders(t, n) && k <= n
    ensures Binders(t, k)
  {
    if k > 0 { BindersLess(t.body, n - 1, k - 1); }
  }

  ghost predicate NoValues(ds: seq<LocalDecl>) { forall i {:trigger ds[i]} :: 0 <= i < |ds| ==> ds[i].value.None? }

  /** The shape of what binding builds. */
  lemma {:induction false} BindFromShape(ds: seq<LocalDecl>, fs: seq<nat>, k: nat, pi: bool, r: Term)
    requires NoValues(ds) && k <= |fs| == |ds|
    ensures Binders(BindFrom(ds, fs, k, pi, r), |fs| - k)
    ensures if pi then AllPis(BindFrom(ds, fs, k, pi, r), |fs| - k) else AllLams(BindFrom(ds, fs, k, pi, r), |fs| - k)
    ensures Under(BindFrom(ds, fs, k, pi, r), |fs| - k) == r
    decreases |fs| - k
  {
    if k < |fs| {
      assert ds[k].value.None?;
      BindFromShape(ds, fs, k + 1, pi, r);
    }
  }

  /** A declaration whose type and value, if it has one, have no loose variables. */
  ghost predicate ClosedDecl(d: LocalDecl) { Closed(d.ty) && (d.value.Some? ==> Closed(d.value.value)) }

  /**
   * Opened with fs from the k-th on, t is lets at the declarations with values and binders of the kind asked
   * for at the others, with the declared types and values, and body is under them.
   */
  ghost predicate Reopens(t: Term, ds: seq<LocalDecl>, fs: seq<nat>, k: nat, pi: bool, body: Term)
    requires k <= |fs| == |ds|
    decreases |fs| - k
  {
    if k == |fs| then InstantiateRev(t, FVars(fs)) == body
    else match ds[k].value
      case None =>
        (if pi then t.Pi? else t.Lam?) && InstantiateRev(t.dom, FVars(fs[..k])) == ds[k].ty
        && Reopens(t.body, ds, fs, k + 1, pi, body)
      case Some(v) =>
        t.Let? && InstantiateRev(t.ty, FVars(fs[..k])) == ds[k].ty && InstantiateRev(t.val, FVars(fs[..k])) == v
        && Reopens(t.body, ds, fs, k + 1, pi, body)
  }

  /** What is closed over declarations reopens, with the same variables, to their types and values and the body. */
  lemma CloseReopens(ds: seq<LocalDecl>, fs: seq<nat>, pi: bool, body: Term)
    requires |ds| == |fs| && Closed(body) && forall i {:trigger ds[i]} :: 0 <= i < |ds| ==> ClosedDecl(ds[i])
    ensures Reopens(CloseOver(ds, fs, pi, body), ds, fs, 0, pi, body)
  {
    BoundReopens(ds, fs, 0, pi, body);
  }

  lemma {:induction false} BoundReopens(ds: seq<LocalDecl>, fs: seq<nat>, k: nat, pi: bool, body: Term)
    requires k <= |fs| == |ds| && Closed(body) && forall i {:trigger ds[i]} :: 0 <= i < |ds| ==> ClosedDecl(ds[i])
    ensures Reopens(BindFrom(ds, fs, k, pi, AbstractFVars(body, fs)), ds, fs, k, pi, body)
    decreases |fs| - k
  {
    if k == |fs| {
      SameAgain(body, fs);
    } else {
      assert ClosedDecl(ds[k]);
      SameAgain(ds[k].ty, fs[..k]);
      if ds[k].value.Some? { SameAgain(ds[k].value.value, fs[..k]); }
      BoundReopens(ds, fs, k + 1, pi, body);
    }
  }

  lemma SameAgain(t: Term, fs: seq<nat>)
    requires Closed(t)
    ensures InstantiateRev(AbstractFVars(t, fs), FVars(fs)) == t
  {
    Reopened(t, fs, fs);
    RenameSame(t, fs);
  }

  lemma {:induction false} UnderParts(t: Term, n: nat)
    requires Binders(t, n)
    ensures Range(Under(t, n)) <= Range(t) + n && (HasFVar(Under(t, n)) ==> HasFVar(t))
  {
    if n > 0 { UnderParts(t.body, n - 1); }
  }

  lemma {:induction false} DomParts(t: Term, i: nat)
    requires Binders(t, i + 1)
    ensures Range(Dom(t, i)) <= Range(t) + i && (HasFVar(Dom(t, i)) ==> HasFVar(t))
  {
    if i > 0 { DomParts(t.body, i - 1); }
  }

  /** The term under the first k binders. */
  lemma {:induction false} UnderStep(t: Term, n: nat, k: nat)
    requires Binders(t, n) && k < n
    ensures Binders(t, k) && Binders(t, k + 1) && IsBinder(Under(t, k))
    ensures Under(t, k).dom == Dom(t, k) && Under(t, k).body == Under(t, k + 1)
    ensures Binders(Under(t, k), n - k) && Binders(Under(t, k + 1), n - k - 1)
  {
    if k > 0 { UnderStep(t.body, n - 1, k - 1); }
  }

  lemma {:induction false} Rebound(t: Term, ds: seq<LocalDecl>, fs: seq<nat>, k: nat, pi: bool, r: Term)
    requires Closed(t) && !HasFVar(t) && NoValues(ds) && Distinct(fs)
    requires OpenTypes(t, ds, fs)
    requires k <= |fs| && Binders(t, k) && Binders(Under(t, k), |fs| - k)
    ensures BindFrom(ds, fs, k, pi, r) == Rewrap(Under(t, k), |fs| - k, pi, r)
    decreases |fs| - k
  {
    if k < |fs| {
      UnderStep(t, |fs|, k);
      Rebound(t, ds, fs, k + 1, pi, r);
      assert OpensAt(t, ds, fs, k) && ds[k].value.None?;
      DomParts(t, k);
      NoFVars(Dom(t, k), fs[..k]);
      Reclosed(Dom(t, k), fs[..k]);
    }
  }

  /** Closing over the variables a closed term was opened with puts its own binders around the new body. */
  lemma CloseRewraps(t: Term, ds: seq<LocalDecl>, fs: seq<nat>, pi: bool, body: Term)
    requires Closed(t) && !HasFVar(t) && NoValues(ds) && Distinct(fs) && OpenTypes(t, ds, fs)
    ensures CloseOver(ds, fs, pi, body) == Rewrap(t, |fs|, pi, AbstractFVars(body, fs))
  {
    Rebound(t, ds, fs, 0, pi, AbstractFVars(body, fs));
  }

  lemma {:induction false} RewrapSame(t: Term, n: nat)
    requires AllPis(t, n) && Binders(t, n)
    ensures Rewrap(t, n, true, Under(t, n)) == t
  {
    if n > 0 { RewrapSame(t.body, n - 1); }
  }

  lemma {:induction false} PisBind(t: Term, n: nat)
    requires AllPis(t, n)
    ensures Binders(t, n)
  {
    if n > 0 { PisBind(t.body, n - 1); }
  }

  /** Opening a closed type's leading Pis with fresh variables and closing over them again gives the type back. */
  lemma OpenRecloses(t: Term, ds: seq<LocalDecl>, fs: seq<nat>)
    requires Closed(t) && !HasFVar(t) && AllPis(t, |fs|)
    requires NoValues(ds) && Distinct(fs) && OpenTypes(t, ds, fs)
    ensures CloseOver(ds, fs, true, Opened(t, fs)) == t
  {
    CloseRewraps(t, ds, fs, true, Opened(t, fs));
    UnderParts(t, |fs|);
    NoFVars(Under(t, |fs|), fs);
    Reclosed(Under(t, |fs|), fs);
    RewrapSame(t, |fs|);
  }

  /** The declarations the rest of a declaration is checked under, in the order they were pushed. */
  class LocalCtx {
    var decls: seq<LocalDecl>

    constructor ()
      ensures decls == []
    {
      decls := [];
    }

    ghost predicate InScope(fs: seq<nat>)
      reads this
    {
      forall i {:trigger fs[i]} :: 0 <= i < |fs| ==> fs[i] < |decls|
    }

    ghost function DeclsOf(fs: seq<nat>): (ds: seq<LocalDecl>)
      requires InScope(fs)
      reads this
      ensures |ds| == |fs|
      ensures forall i {:trigger ds[i]} :: 0 <= i < |fs| ==> ds[i] == decls[fs[i]]
    {
      seq(|fs|, i requires 0 <= i < |fs| reads this requires InScope(fs) => (assert fs[i] < |decls|; decls[fs[i]]))
    }

    method Push(ty: Term) returns (id: nat)
      modifies this
      ensures id == old(|decls|) && decls == old(decls) + [LocalDecl(ty, None)]
    {
      id := |decls|;
      decls := decls + [LocalDecl(ty, None)];
    }

    /** Binders over the given variables, from the innermost out. */
    method Close(fs: seq<nat>, pi: bool, body: Term) returns (r: Term)
      requires InScope(fs)
      ensures r == CloseOver(DeclsOf(fs), fs, pi, body)
    {
      r := AbstractFVars(body, fs);
      var i := |fs|;
      while i > 0
        invariant 0 <= i <= |fs|
        invariant BindFrom(DeclsOf(fs), fs, i, pi, AbstractFVars(body, fs)) == r
      {
        i := i - 1;
        assert fs[i] < |decls|;
        r := BindOne(decls[fs[i]], fs[..i], pi, r);
      }
    }
  }

  function Fresh(base: nat, n: nat): (fs: seq<nat>)
    ensures |fs| == n
    ensures forall k {:trigger fs[k]} :: 0 <= k < n ==> fs[k] == base + k
  {
    seq(n, k requires 0 <= k < n => base + k)
  }

  ghost predicate Openable(t: Term, n: nat, lams: bool) { if lams then Binders(t, n) else AllPis(t, n) }

  lemma {:induction false} OpenableStep(t: Term, n: nat, k: nat, lams: bool)
    requires k < n && Binders(t, k)
    requires Openable(t, k, lams)
    ensures Openable(t, k + 1, lams) <==> Under(t, k).Pi? || (lams && Under(t, k).Lam?)
    ensures !Openable(t, k + 1, lams) ==> !Openable(t, n, lams)
    ensures Openable(t, k + 1, lams) ==>
      Binders(t, k + 1) && Dom(t, k) == Under(t, k).dom && Under(t, k + 1) == Under(t, k).body
    decreases k
  {
    if k == 0 {
      assert AllPis(t, 1) <==> t.Pi?;
      assert Binders(t, 1) <==> IsBinder(t);
    } else {
      OpenableStep(t.body, n - 1, k - 1, lams);
      assert AllPis(t, k + 1) <==> t.Pi? && AllPis(t.body, k);
      assert Binders(t, k + 1) <==> IsBinder(t) && Binders(t.body, k);
    }
  }

  /** The n leading binders opened with fresh variables, each declared with its instantiated type. */
  method Open(ctx: LocalCtx, t: Term, n: nat, lams: bool) returns (r: Option<(seq<nat>, Term)>)
    modifies ctx
    ensures r.Some? <==> Openable(t, n, lams)
    ensures |ctx.decls| >= old(|ctx.decls|) && ctx.decls[..old(|ctx.decls|)] == old(ctx.decls)
    ensures r.Some? ==> r.value.0 == Fresh(old(|ctx.decls|), n) && |ctx.decls| == old(|ctx.decls|) + n
    ensures r.Some? ==> ctx.InScope(r.value.0) && NoValues(ctx.DeclsOf(r.value.0))
    ensures r.Some? ==> OpenTypes(t, ctx.DeclsOf(r.value.0), r.value.0) && r.value.1 == Opened(t, r.value.0)
  {
    var fs: seq<nat>, u, p := [], t, 0;
    ghost var base := |ctx.decls|;
    ghost var ds: seq<LocalDecl> := [];
    while p < n
      invariant p <= n && Binders(t, p) && Openable(t, p, lams)
      invariant u == Under(t, p) && fs == Fresh(base, p)
      invariant ctx.decls == old(ctx.decls) + ds && |ds| == p && NoValues(ds)
      invariant forall i {:trigger OpensAt(t, ds, fs, i)} :: 0 <= i < p ==> OpensAt(t, ds, fs, i)
    {
      OpenableStep(t, n, p, lams);
      if !(u.Pi? || (lams && u.Lam?)) { return None; }
      ghost var fs0, ds0 := fs, ds;
      var ty := InstantiateRev(u.dom, FVars(fs));
      var id := ctx.Push(ty);
      fs := fs + [id];
      ds := ds + [LocalDecl(ty, None)];
      u := u.body;
      forall i | 0 <= i < p + 1 ensures OpensAt(t, ds, fs, i) {
        assert fs[..i] == fs0[..i];
        if i < p { assert OpensAt(t, ds0, fs0, i); } else { assert fs0[..p] == fs0; }
      }
      p := p + 1;
    }
    assert ctx.DeclsOf(fs) == ds;
    return Some((fs, InstantiateRev(u, FVars(fs))));
  }

  /** The canonical choice of variables does not matter to what is abstracted. */
  lemma {:induction false} AbsRename(t: Term, fs: seq<nat>, gs: seq<nat>, off: nat)
    requires |fs| == |gs| && Distinct(gs) && FVarsIn(t, fs)
    ensures AbsAt(Rename(t, fs, gs), gs, off) == AbsAt(t, fs, off)
  {
    if !HasFVar(t) {
      NoFVars(t, fs);
      RenameOther(t, fs, gs);
    } else {
      HasFVarRename(t, fs, gs);
      match t
      case FVar(x) => PlaceAt(gs, PlaceOf(fs, x).value);
      case App(f, x) => AbsRename(f, fs, gs, off); AbsRename(x, fs, gs, off);
      case Lam(d, b) => AbsRename(d, fs, gs, off); AbsRename(b, fs, gs, off + 1);
      case Pi(d, b) => AbsRename(d, fs, gs, off); AbsRename(b, fs, gs, off + 1);
      case Let(y, v, b) => AbsRename(y, fs, gs, off); AbsRename(v, fs, gs, off); AbsRename(b, fs, gs, off + 1);
      case Proj(_, _, e) => AbsRename(e, fs, gs, off);
    }
  }

  lemma {:induction false} HasFVarRename(t: Term, fs: seq<nat>, gs: seq<nat>)
    requires |fs| == |gs|
    ensures HasFVar(Rename(t, fs, gs)) == HasFVar(t)
  {
    match t
    case App(f, x) => HasFVarRename(f, fs, gs); HasFVarRename(x, fs, gs);
    case Lam(d, b) => HasFVarRename(d, fs, gs); HasFVarRename(b, fs, gs);
    case Pi(d, b) => HasFVarRename(d, fs, gs); HasFVarRename(b, fs, gs);
    case Let(y, v, b) => HasFVarRename(y, fs, gs); HasFVarRename(v, fs, gs); HasFVarRename(b, fs, gs);
    case Proj(_, _, e) => HasFVarRename(e, fs, gs);
    case _ =>
  }

  lemma AbstractRename(t: Term, fs: seq<nat>, gs: seq<nat>)
    requires |fs| == |gs| && Distinct(gs) && FVarsIn(t, fs)
    ensures AbstractFVars(Rename(t, fs, gs), gs) == AbstractFVars(t, fs)
  {
    EntryPoints(t, fs, []);
    EntryPoints(Rename(t, fs, gs), gs, []);
    AbsRename(t, fs, gs, 0);
  }
}
