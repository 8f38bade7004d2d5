// Lean terms with de Bruijn indices, and the substitution functions of src/expr.cpp.  Every one of
// them is shown to be an instance of one parallel substitution, whose laws are proved once.
module Terms {
  import opened Names
  import L = Levels

  datatype Literal = NatLit(n: nat) | StrLit(s: seq<nat>)

  /** Terms up to binder names and binder annotations, which are no part of a term's identity. */
  datatype Term =
    | BVar(i: nat)
    | FVar(id: nat)
    | Sort(l: L.Level)
    | Const(n: Name, ls: seq<L.Level>)
    | App(f: Term, x: Term)
    | Lam(dom: Term, body: Term)
    | Pi(dom: Term, body: Term)
    | Let(ty: Term, val: Term, body: Term)
    | Proj(s: Name, idx: nat, e: Term)
    | Lit(v: Literal)

  function Max(x: nat, y: nat): nat { if x < y then y else x }

  function Pred(x: nat): nat { if x == 0 then 0 else x - 1 }

  /** One more than the largest loose variable, or zero. */
  function Range(t: Term): nat {
    match t
    case BVar(i) => i + 1
    case App(f, x) => Max(Range(f), Range(x))
    case Lam(d, b) => Max(Range(d), Pred(Range(b)))
    case Pi(d, b) => Max(Range(d), Pred(Range(b)))
    case Let(y, v, b) => Max(Max(Range(y), Range(v)), Pred(Range(b)))
    case Proj(_, _, e) => Range(e)
    case _ => 0
  }

  /** Variable i occurs loose in t. */
  predicate Occurs(t: Term, i: nat) {
    match t
    case BVar(j) => i == j
    case App(f, x) => Occurs(f, i) || Occurs(x, i)
    case Lam(d, b) => Occurs(d, i) || Occurs(b, i + 1)
    case Pi(d, b) => Occurs(d, i) || Occurs(b, i + 1)
    case Let(y, v, b) => Occurs(y, i) || Occurs(v, i) || Occurs(b, i + 1)
    case Proj(_, _, e) => Occurs(e, i)
    case _ => false
  }

  predicate HasFVar(t: Term) {
    match t
    case FVar(_) => true
    case App(f, x) => HasFVar(f) || HasFVar(x)
    case Lam(d, b) => HasFVar(d) || HasFVar(b)
    case Pi(d, b) => HasFVar(d) || HasFVar(b)
    case Let(y, v, b) => HasFVar(y) || HasFVar(v) || HasFVar(b)
    case Proj(_, _, e) => HasFVar(e)
    case _ => false
  }

  predicate Closed(t: Term) { Range(t) == 0 }

  /** Number of nodes. */
  function Size(t: Term): (n: nat)
    ensures n > 0
  {
    match t
    case App(f, x) => 1 + Size(f) + Size(x)
    case Lam(d, b) => 1 + Size(d) + Size(b)
    case Pi(d, b) => 1 + Size(d) + Size(b)
    case Let(y, v, b) => 1 + Size(y) + Size(v) + Size(b)
    case Proj(_, _, e) => 1 + Size(e)
    case _ => 1
  }

  // ---------------------------------------------------------------- parallel substitution

  type Renaming = nat -> nat
  type Subst = nat -> Term

  ghost function UpR(r: Renaming): Renaming { (i: nat) => if i == 0 then 0 else r(i - 1) + 1 }

  ghost function Ren(t: Term, r: Renaming): Term {
    match t
    case BVar(i) => BVar(r(i))
    case App(f, x) => App(Ren(f, r), Ren(x, r))
    case Lam(d, b) => Lam(Ren(d, r), Ren(b, UpR(r)))
    case Pi(d, b) => Pi(Ren(d, r), Ren(b, UpR(r)))
    case Let(y, v, b) => Let(Ren(y, r), Ren(v, r), Ren(b, UpR(r)))
    case Proj(s, i, e) => Proj(s, i, Ren(e, r))
    case _ => t
  }

  ghost function Plus(d: nat): Renaming { (i: nat) => i + d }

  ghost function Up(s: Subst): Subst { (i: nat) => if i == 0 then BVar(0) else Ren(s(i - 1), Plus(1)) }

  ghost function Sub(t: Term, s: Subst): Term {
    match t
    case BVar(i) => s(i)
    case App(f, x) => App(Sub(f, s), Sub(x, s))
    case Lam(d, b) => Lam(Sub(d, s), Sub(b, Up(s)))
    case Pi(d, b) => Pi(Sub(d, s), Sub(b, Up(s)))
    case Let(y, v, b) => Let(Sub(y, s), Sub(v, s), Sub(b, Up(s)))
    case Proj(n, i, e) => Proj(n, i, Sub(e, s))
    case _ => t
  }

  lemma {:induction false} RenExt(t: Term, r: Renaming, r': Renaming)
    requires forall i: nat :: Occurs(t, i) ==> r(i) == r'(i)
    ensures Ren(t, r) == Ren(t, r')
  {
    match t
    case App(f, x) => RenExt(f, r, r'); RenExt(x, r, r');
    case Lam(d, b) => RenExt(d, r, r'); RenExt(b, UpR(r), UpR(r'));
    case Pi(d, b) => RenExt(d, r, r'); RenExt(b, UpR(r), UpR(r'));
    case Let(y, v, b) => RenExt(y, r, r'); RenExt(v, r, r'); RenExt(b, UpR(r), UpR(r'));
    case Proj(_, _, e) => RenExt(e, r, r');
    case BVar(i) => assert Occurs(t, i);
    case _ =>
  }

  /** Substitutions that agree on the variables of a term act alike on it. */
  lemma {:induction false} SubExt(t: Term, s: Subst, s': Subst)
    requires forall i: nat :: Occurs(t, i) ==> s(i) == s'(i)
    ensures Sub(t, s) == Sub(t, s')
  {
    match t
    case App(f, x) => SubExt(f, s, s'); SubExt(x, s, s');
    case Lam(d, b) => SubExt(d, s, s'); SubExt(b, Up(s), Up(s'));
    case Pi(d, b) => SubExt(d, s, s'); SubExt(b, Up(s), Up(s'));
    case Let(y, v, b) => SubExt(y, s, s'); SubExt(v, s, s'); SubExt(b, Up(s), Up(s'));
    case Proj(_, _, e) => SubExt(e, s, s');
    case BVar(i) => assert Occurs(t, i);
    case _ =>
  }

  ghost function AsSubst(r: Renaming): Subst { (i: nat) => BVar(r(i)) }

  lemma UpAsSubst(r: Renaming)
    ensures forall i: nat :: AsSubst(UpR(r))(i) == Up(AsSubst(r))(i)
  {
    forall i: nat ensures AsSubst(UpR(r))(i) == Up(AsSubst(r))(i) {
      if i > 0 { assert Ren(BVar(r(i - 1)), Plus(1)) == BVar(r(i - 1) + 1); }
    }
  }

  lemma {:induction false} RenIsSub(t: Term, r: Renaming)
    ensures Ren(t, r) == Sub(t, AsSubst(r))
  {
    UpAsSubst(r);
    match t
    case App(f, x) => RenIsSub(f, r); RenIsSub(x, r);
    case Lam(d, b) => RenIsSub(d, r); RenIsSub(b, UpR(r)); SubExt(b, AsSubst(UpR(r)), Up(AsSubst(r)));
    case Pi(d, b) => RenIsSub(d, r); RenIsSub(b, UpR(r)); SubExt(b, AsSubst(UpR(r)), Up(AsSubst(r)));
    case Let(y, v, b) =>
      RenIsSub(y, r); RenIsSub(v, r); RenIsSub(b, UpR(r)); SubExt(b, AsSubst(UpR(r)), Up(AsSubst(r)));
    case Proj(_, _, e) => RenIsSub(e, r);
    case _ =>
  }

  ghost function ThenRR(r: Renaming, q: Renaming): Renaming { (i: nat) => q(r(i)) }
  ghost function ThenRS(r: Renaming, s: Subst): Subst { (i: nat) => s(r(i)) }
  ghost function ThenSR(s: Subst, r: Renaming): Subst { (i: nat) => Ren(s(i), r) }
  ghost function Then(s: Subst, t: Subst): Subst { (i: nat) => Sub(s(i), t) }

  lemma {:induction false} RenRen(t: Term, r: Renaming, q: Renaming)
    ensures Ren(Ren(t, r), q) == Ren(t, ThenRR(r, q))
    decreases t, 0
  {
    match t
    case App(f, x) => RenRen(f, r, q); RenRen(x, r, q);
    case Lam(d, b) => RenRen(d, r, q); RenRenUp(b, r, q);
    case Pi(d, b) => RenRen(d, r, q); RenRenUp(b, r, q);
    case Let(y, v, b) => RenRen(y, r, q); RenRen(v, r, q); RenRenUp(b, r, q);
    case Proj(_, _, e) => RenRen(e, r, q);
    case _ =>
  }

  lemma UpRZero(r: Renaming)
    ensures UpR(r)(0) == 0
  {
  }

  lemma UpRSucc(r: Renaming, m: nat)
    ensures UpR(r)(m + 1) == r(m) + 1
  {
  }

  /** Maps that agree at zero and at a successor agree there. */
  lemma SameAt<T>(a: nat -> T, b: nat -> T, i: nat, j: nat)
    requires a(0) == b(0) && (i > 0 ==> i == j + 1 && a(j + 1) == b(j + 1))
    ensures a(i) == b(i)
  {
  }

  lemma ThenUpRSucc(r: Renaming, q: Renaming, j: nat)
    ensures ThenRR(UpR(r), UpR(q))(j + 1) == q(r(j)) + 1
  {
    UpRSucc(r, j);
    UpRSucc(q, r(j));
  }

  lemma UpThenRSucc(r: Renaming, q: Renaming, j: nat)
    ensures UpR(ThenRR(r, q))(j + 1) == q(r(j)) + 1
  {
    UpRSucc(ThenRR(r, q), j);
  }

  lemma UpRThenZero(r: Renaming, q: Renaming)
    ensures ThenRR(UpR(r), UpR(q))(0) == UpR(ThenRR(r, q))(0)
  {
    UpRZero(r);
    UpRZero(q);
    UpRZero(ThenRR(r, q));
  }

  lemma UpRThen(r: Renaming, q: Renaming, i: nat)
    ensures ThenRR(UpR(r), UpR(q))(i) == UpR(ThenRR(r, q))(i)
  {
    var j := Pred(i);
    UpRThenZero(r, q);
    ThenUpRSucc(r, q, j);
    UpThenRSucc(r, q, j);
    SameAt(ThenRR(UpR(r), UpR(q)), UpR(ThenRR(r, q)), i, j);
  }

  lemma {:induction false} RenRenUp(b: Term, r: Renaming, q: Renaming)
    ensures Ren(Ren(b, UpR(r)), UpR(q)) == Ren(b, UpR(ThenRR(r, q)))
    decreases b, 1
  {
    RenRen(b, UpR(r), UpR(q));
    forall i: nat ensures ThenRR(UpR(r), UpR(q))(i) == UpR(ThenRR(r, q))(i) { UpRThen(r, q, i); }
    RenExt(b, ThenRR(UpR(r), UpR(q)), UpR(ThenRR(r, q)));
  }

  lemma {:induction false} SubRen(t: Term, r: Renaming, s: Subst)
    ensures Sub(Ren(t, r), s) == Sub(t, ThenRS(r, s))
    decreases t, 0
  {
    match t
    case App(f, x) => SubRen(f, r, s); SubRen(x, r, s);
    case Lam(d, b) => SubRen(d, r, s); SubRenUp(b, r, s);
    case Pi(d, b) => SubRen(d, r, s); SubRenUp(b, r, s);
    case Let(y, v, b) => SubRen(y, r, s); SubRen(v, r, s); SubRenUp(b, r, s);
    case Proj(_, _, e) => SubRen(e, r, s);
    case _ =>
  }

  lemma UpZero(s: Subst)
    ensures Up(s)(0) == BVar(0)
  {
  }

  lemma UpSucc(s: Subst, m: nat)
    ensures Up(s)(m + 1) == Ren(s(m), Plus(1))
  {
  }

  lemma ThenUpRSSucc(r: Renaming, s: Subst, j: nat)
    ensures ThenRS(UpR(r), Up(s))(j + 1) == Ren(s(r(j)), Plus(1))
  {
    UpRSucc(r, j);
    UpSucc(s, r(j));
  }

  lemma UpThenRSSucc(r: Renaming, s: Subst, j: nat)
    ensures Up(ThenRS(r, s))(j + 1) == Ren(s(r(j)), Plus(1))
  {
    UpSucc(ThenRS(r, s), j);
  }

  lemma UpRSZero(r: Renaming, s: Subst)
    ensures ThenRS(UpR(r), Up(s))(0) == Up(ThenRS(r, s))(0)
  {
    UpRZero(r);
    UpZero(s);
    UpZero(ThenRS(r, s));
  }

  lemma UpRS(r: Renaming, s: Subst, i: nat)
    ensures ThenRS(UpR(r), Up(s))(i) == Up(ThenRS(r, s))(i)
  {
    var j := Pred(i);
    UpRSZero(r, s);
    ThenUpRSSucc(r, s, j);
    UpThenRSSucc(r, s, j);
    SameAt(ThenRS(UpR(r), Up(s)), Up(ThenRS(r, s)), i, j);
  }

  lemma {:induction false} SubRenUp(b: Term, r: Renaming, s: Subst)
    ensures Sub(Ren(b, UpR(r)), Up(s)) == Sub(b, Up(ThenRS(r, s)))
    decreases b, 1
  {
    SubRen(b, UpR(r), Up(s));
    forall i: nat ensures ThenRS(UpR(r), Up(s))(i) == Up(ThenRS(r, s))(i) { UpRS(r, s, i); }
    SubExt(b, ThenRS(UpR(r), Up(s)), Up(ThenRS(r, s)));
  }

  lemma PlusUpR(r: Renaming)
    ensures forall i: nat :: ThenRR(Plus(1), UpR(r))(i) == ThenRR(r, Plus(1))(i)
  {
    forall i: nat ensures ThenRR(Plus(1), UpR(r))(i) == ThenRR(r, Plus(1))(i) {
      assert Plus(1)(i) == i + 1;
      assert UpR(r)(i + 1) == r(i) + 1;
    }
  }

  lemma RenShift(t: Term, r: Renaming)
    ensures Ren(Ren(t, Plus(1)), UpR(r)) == Ren(Ren(t, r), Plus(1))
  {
    RenRen(t, Plus(1), UpR(r));
    RenRen(t, r, Plus(1));
    PlusUpR(r);
    RenExt(t, ThenRR(Plus(1), UpR(r)), ThenRR(r, Plus(1)));
  }

  lemma UpThenSR(s: Subst, r: Renaming, i: nat)
    ensures ThenSR(Up(s), UpR(r))(i) == Up(ThenSR(s, r))(i)
  {
    if i > 0 {
      RenShift(s(i - 1), r);
    } else {
      assert Ren(BVar(0), UpR(r)) == BVar(0);
    }
  }

  lemma {:induction false} RenSub(t: Term, s: Subst, r: Renaming)
    ensures Ren(Sub(t, s), r) == Sub(t, ThenSR(s, r))
    decreases t, 0
  {
    match t
    case App(f, x) => RenSub(f, s, r); RenSub(x, s, r);
    case Lam(d, b) => RenSub(d, s, r); RenSubUp(b, s, r);
    case Pi(d, b) => RenSub(d, s, r); RenSubUp(b, s, r);
    case Let(y, v, b) => RenSub(y, s, r); RenSub(v, s, r); RenSubUp(b, s, r);
    case Proj(_, _, e) => RenSub(e, s, r);
    case _ =>
  }

  lemma {:induction false} RenSubUp(b: Term, s: Subst, r: Renaming)
    ensures Ren(Sub(b, Up(s)), UpR(r)) == Sub(b, Up(ThenSR(s, r)))
    decreases b, 1
  {
    RenSub(b, Up(s), UpR(r));
    forall i: nat ensures ThenSR(Up(s), UpR(r))(i) == Up(ThenSR(s, r))(i) { UpThenSR(s, r, i); }
    SubExt(b, ThenSR(Up(s), UpR(r)), Up(ThenSR(s, r)));
  }

  lemma UpThen(s: Subst, u: Subst, i: nat)
    ensures Then(Up(s), Up(u))(i) == Up(Then(s, u))(i)
  {
    if i > 0 {
      SubRen(s(i - 1), Plus(1), Up(u));
      RenSub(s(i - 1), u, Plus(1));
      SubExt(s(i - 1), ThenRS(Plus(1), Up(u)), ThenSR(u, Plus(1)));
    } else {
      assert Sub(BVar(0), Up(u)) == Up(u)(0);
    }
  }

  /** Substituting twice is substituting once by the composition. */
  lemma {:induction false} SubSub(t: Term, s: Subst, u: Subst)
    ensures Sub(Sub(t, s), u) == Sub(t, Then(s, u))
    decreases t, 0
  {
    match t
    case App(f, x) => SubSub(f, s, u); SubSub(x, s, u);
    case Lam(d, b) => SubSub(d, s, u); SubSubUp(b, s, u);
    case Pi(d, b) => SubSub(d, s, u); SubSubUp(b, s, u);
    case Let(y, v, b) => SubSub(y, s, u); SubSub(v, s, u); SubSubUp(b, s, u);
    case Proj(_, _, e) => SubSub(e, s, u);
    case _ =>
  }

  lemma {:induction false} SubSubUp(b: Term, s: Subst, u: Subst)
    ensures Sub(Sub(b, Up(s)), Up(u)) == Sub(b, Up(Then(s, u)))
    decreases b, 1
  {
    SubSub(b, Up(s), Up(u));
    forall i: nat ensures Then(Up(s), Up(u))(i) == Up(Then(s, u))(i) { UpThen(s, u, i); }
    SubExt(b, Then(Up(s), Up(u)), Up(Then(s, u)));
  }

  ghost function Ident(): Subst { (i: nat) => BVar(i) }

  lemma UpIdent()
    ensures forall i: nat :: Up(Ident())(i) == Ident()(i)
  {
    forall i: nat ensures Up(Ident())(i) == Ident()(i) {
      if i > 0 { assert Ren(BVar(i - 1), Plus(1)) == BVar(i); }
    }
  }

  lemma {:induction false} SubIdent(t: Term)
    ensures Sub(t, Ident()) == t
  {
    UpIdent();
    match t
    case App(f, x) => SubIdent(f); SubIdent(x);
    case Lam(d, b) => SubIdent(d); SubIdent(b); SubExt(b, Up(Ident()), Ident());
    case Pi(d, b) => SubIdent(d); SubIdent(b); SubExt(b, Up(Ident()), Ident());
    case Let(y, v, b) => SubIdent(y); SubIdent(v); SubIdent(b); SubExt(b, Up(Ident()), Ident());
    case Proj(_, _, e) => SubIdent(e);
    case _ =>
  }

  /** The loose-variable range is exact: it bounds the variables and the last one below it occurs. */
  lemma {:induction false} RangeExact(t: Term)
    ensures forall i: nat :: Occurs(t, i) ==> i < Range(t)
    ensures Range(t) > 0 ==> Occurs(t, Range(t) - 1)
  {
    match t
    case App(f, x) => RangeExact(f); RangeExact(x);
    case Lam(d, b) => RangeExact(d); RangeExact(b);
    case Pi(d, b) => RangeExact(d); RangeExact(b);
    case Let(y, v, b) => RangeExact(y); RangeExact(v); RangeExact(b);
    case Proj(_, _, e) => RangeExact(e);
    case _ =>
  }

  lemma SubFixed(t: Term, s: Subst)
    requires forall i: nat :: Occurs(t, i) ==> s(i) == BVar(i)
    ensures Sub(t, s) == t
  {
    SubExt(t, s, Ident());
    SubIdent(t);
  }

  lemma ClosedSub(t: Term, s: Subst)
    requires Closed(t)
    ensures Sub(t, s) == t
  {
    RangeExact(t);
    SubFixed(t, s);
  }

  lemma ClosedRen(t: Term, r: Renaming)
    requires Closed(t)
    ensures Ren(t, r) == t
  {
    RenIsSub(t, r);
    ClosedSub(t, AsSubst(r));
  }

  /** Where the variables of a substituted term come from. */
  lemma {:induction false} OccursRen(t: Term, r: Renaming, i: nat)
    ensures Occurs(Ren(t, r), i) ==> exists j: nat :: Occurs(t, j) && r(j) == i
    decreases t, 0
  {
    match t
    case BVar(j) => assert Occurs(t, j);
    case App(f, x) => OccursRen(f, r, i); OccursRen(x, r, i);
    case Lam(d, b) => OccursRen(d, r, i); OccursRenUp(t, b, r, i);
    case Pi(d, b) => OccursRen(d, r, i); OccursRenUp(t, b, r, i);
    case Let(y, v, b) => OccursRen(y, r, i); OccursRen(v, r, i); OccursRenUp(t, b, r, i);
    case Proj(_, _, e) => OccursRen(e, r, i);
    case _ =>
  }

  lemma {:induction false} OccursRenUp(t: Term, b: Term, r: Renaming, i: nat)
    requires forall j: nat :: Occurs(b, j + 1) ==> Occurs(t, j)
    ensures Occurs(Ren(b, UpR(r)), i + 1) ==> exists j: nat :: Occurs(t, j) && r(j) == i
    decreases b, 1
  {
    OccursRen(b, UpR(r), i + 1);
    if Occurs(Ren(b, UpR(r)), i + 1) {
      var j: nat :| Occurs(b, j) && UpR(r)(j) == i + 1;
      assert Occurs(b, (j - 1) + 1);
    }
  }

  lemma {:induction false} OccursSub(t: Term, s: Subst, i: nat)
    ensures Occurs(Sub(t, s), i) ==> exists j: nat :: Occurs(t, j) && Occurs(s(j), i)
    decreases t, 0
  {
    match t
    case BVar(j) => assert Occurs(t, j);
    case App(f, x) => OccursSub(f, s, i); OccursSub(x, s, i);
    case Lam(d, b) => OccursSub(d, s, i); OccursSubUp(t, b, s, i);
    case Pi(d, b) => OccursSub(d, s, i); OccursSubUp(t, b, s, i);
    case Let(y, v, b) => OccursSub(y, s, i); OccursSub(v, s, i); OccursSubUp(t, b, s, i);
    case Proj(_, _, e) => OccursSub(e, s, i);
    case _ =>
  }

  lemma {:induction false} OccursSubUp(t: Term, b: Term, s: Subst, i: nat)
    requires forall j: nat :: Occurs(b, j + 1) ==> Occurs(t, j)
    ensures Occurs(Sub(b, Up(s)), i + 1) ==> exists j: nat :: Occurs(t, j) && Occurs(s(j), i)
    decreases b, 1
  {
    OccursSub(b, Up(s), i + 1);
    if Occurs(Sub(b, Up(s)), i + 1) {
      var j: nat :| Occurs(b, j) && Occurs(Up(s)(j), i + 1);
      assert j > 0;
      assert Occurs(b, (j - 1) + 1);
      OccursRen(s(j - 1), Plus(1), i + 1);
    }
  }

  // ---------------------------------------------------------------- the source's substitutions

  /** Variables from s up are shifted by d; subterms without such variables are returned as they are. */
  function Lift(t: Term, s: nat, d: nat): Term {
    if d == 0 || Range(t) <= s then t
    else match t
      case BVar(i) => BVar(i + d)
      case App(f, x) => App(Lift(f, s, d), Lift(x, s, d))
      case Lam(y, b) => Lam(Lift(y, s, d), Lift(b, s + 1, d))
      case Pi(y, b) => Pi(Lift(y, s, d), Lift(b, s + 1, d))
      case Let(y, v, b) => Let(Lift(y, s, d), Lift(v, s, d), Lift(b, s + 1, d))
      case Proj(n, i, e) => Proj(n, i, Lift(e, s, d))
      case _ => t
  }

  ghost function PlusFrom(s: nat, d: nat): Renaming { (i: nat) => if i < s then i else i + d }

  lemma {:induction false} LiftIsRen(t: Term, s: nat, d: nat)
    ensures Lift(t, s, d) == Ren(t, PlusFrom(s, d))
    decreases t, 0
  {
    RangeExact(t);
    if d == 0 || Range(t) <= s {
      RenIsSub(t, PlusFrom(s, d));
      SubFixed(t, AsSubst(PlusFrom(s, d)));
    } else {
      match t
      case App(f, x) => LiftIsRen(f, s, d); LiftIsRen(x, s, d);
      case Lam(y, b) => LiftIsRen(y, s, d); LiftIsRenUp(b, s, d);
      case Pi(y, b) => LiftIsRen(y, s, d); LiftIsRenUp(b, s, d);
      case Let(y, v, b) => LiftIsRen(y, s, d); LiftIsRen(v, s, d); LiftIsRenUp(b, s, d);
      case Proj(_, _, e) => LiftIsRen(e, s, d);
      case _ =>
    }
  }

  lemma {:induction false} LiftIsRenUp(b: Term, s: nat, d: nat)
    ensures Lift(b, s + 1, d) == Ren(b, UpR(PlusFrom(s, d)))
    decreases b, 1
  {
    LiftIsRen(b, s + 1, d);
    RenExt(b, PlusFrom(s + 1, d), UpR(PlusFrom(s, d)));
  }

  lemma LiftIsPlus(t: Term, d: nat)
    ensures Lift(t, 0, d) == Ren(t, Plus(d))
  {
    LiftIsRen(t, 0, d);
    RenExt(t, PlusFrom(0, d), Plus(d));
  }

  /** Variable off + k is replaced by entry k, lifted over the off binders passed. */
  function InstAt(t: Term, es: seq<Term>, off: nat): Term {
    if Range(t) <= off then t
    else match t
      case BVar(i) =>
        if i < off then t
        else if i - off < |es| then Lift(es[i - off], 0, off)
        else BVar(i - |es|)
      case App(f, x) => App(InstAt(f, es, off), InstAt(x, es, off))
      case Lam(d, b) => Lam(InstAt(d, es, off), InstAt(b, es, off + 1))
      case Pi(d, b) => Pi(InstAt(d, es, off), InstAt(b, es, off + 1))
      case Let(y, v, b) => Let(InstAt(y, es, off), InstAt(v, es, off), InstAt(b, es, off + 1))
      case Proj(n, i, e) => Proj(n, i, InstAt(e, es, off))
      case _ => t
  }

  function Instantiate(t: Term, es: seq<Term>): Term {
    if |es| == 0 || Range(t) == 0 then t else InstAt(t, es, 0)
  }

  function Reverse(es: seq<Term>): seq<Term> {
    seq(|es|, k requires 0 <= k < |es| => es[|es| - 1 - k])
  }

  /** The last argument is variable 0. */
  function InstantiateRev(t: Term, es: seq<Term>): Term { Instantiate(t, Reverse(es)) }

  function Instantiate1(t: Term, e: Term): Term { Instantiate(t, [e]) }

  ghost function Entries(es: seq<Term>, off: nat): Subst {
    (i: nat) =>
      if i < off then BVar(i)
      else if i - off < |es| then Ren(es[i - off], Plus(off))
      else BVar(i - |es|)
  }

  lemma RenPlus(t: Term, a: nat, b: nat)
    ensures Ren(Ren(t, Plus(a)), Plus(b)) == Ren(t, Plus(a + b))
  {
    RenRen(t, Plus(a), Plus(b));
    RenExt(t, ThenRR(Plus(a), Plus(b)), Plus(a + b));
  }

  lemma EntriesUp(es: seq<Term>, off: nat, i: nat)
    ensures Up(Entries(es, off))(i) == Entries(es, off + 1)(i)
  {
    if i > 0 {
      if off <= i - 1 < off + |es| {
        RenPlus(es[i - 1 - off], off, 1);
      } else if i - 1 < off {
        assert Ren(BVar(i - 1), Plus(1)) == BVar(i);
      } else {
        assert Ren(BVar(i - 1 - |es|), Plus(1)) == BVar(i - |es|);
      }
    }
  }

  /** Instantiation, with its early exits, is the parallel substitution by the entries. */
  lemma {:induction false} InstIsSub(t: Term, es: seq<Term>, off: nat)
    ensures InstAt(t, es, off) == Sub(t, Entries(es, off))
    decreases t, 0
  {
    RangeExact(t);
    if Range(t) <= off {
      SubFixed(t, Entries(es, off));
    } else {
      match t
      case BVar(i) => if i - off < |es| { LiftIsPlus(es[i - off], off); }
      case App(f, x) => InstIsSub(f, es, off); InstIsSub(x, es, off);
      case Lam(d, b) => InstIsSub(d, es, off); InstIsSubUp(b, es, off);
      case Pi(d, b) => InstIsSub(d, es, off); InstIsSubUp(b, es, off);
      case Let(y, v, b) => InstIsSub(y, es, off); InstIsSub(v, es, off); InstIsSubUp(b, es, off);
      case Proj(_, _, e) => InstIsSub(e, es, off);
      case _ =>
    }
  }

  lemma {:induction false} InstIsSubUp(b: Term, es: seq<Term>, off: nat)
    ensures InstAt(b, es, off + 1) == Sub(b, Up(Entries(es, off)))
    decreases b, 1
  {
    InstIsSub(b, es, off + 1);
    forall i: nat ensures Up(Entries(es, off))(i) == Entries(es, off + 1)(i) { EntriesUp(es, off, i); }
    SubExt(b, Entries(es, off + 1), Up(Entries(es, off)));
  }

  lemma InstantiateIsSub(t: Term, es: seq<Term>)
    ensures Instantiate(t, es) == Sub(t, Entries(es, 0))
  {
    if |es| == 0 {
      SubFixed(t, Entries(es, 0));
    } else if Range(t) == 0 {
      ClosedSub(t, Entries(es, 0));
    } else {
      InstIsSub(t, es, 0);
    }
  }

  // ---------------------------------------------------------------- application spines

  function MkApps(f: Term, args: seq<Term>): Term
    decreases |args|
  {
    if args == [] then f else App(MkApps(f, args[..|args| - 1]), args[|args| - 1])
  }

  function AppFn(t: Term): (f: Term)
    ensures !f.App?
  {
    if t.App? then AppFn(t.f) else t
  }

  function AppArgs(t: Term): seq<Term> {
    if t.App? then AppArgs(t.f) + [t.x] else []
  }

  lemma {:induction false} SpineSplit(t: Term)
    ensures MkApps(AppFn(t), AppArgs(t)) == t
  {
    if t.App? { SpineSplit(t.f); }
  }

  lemma {:induction false} SpineOf(f: Term, args: seq<Term>)
    ensures AppFn(MkApps(f, args)) == AppFn(f)
    ensures AppArgs(MkApps(f, args)) == AppArgs(f) + args
    decreases |args|
  {
    if args != [] { SpineOf(f, args[..|args| - 1]); }
  }

  lemma {:induction false} MkAppsAppend(f: Term, xs: seq<Term>, ys: seq<Term>)
    ensures MkApps(f, xs + ys) == MkApps(MkApps(f, xs), ys)
    decreases |ys|
  {
    if ys == [] {
      assert xs + ys == xs;
    } else {
      assert (xs + ys)[..|xs + ys| - 1] == xs + ys[..|ys| - 1];
      MkAppsAppend(f, xs, ys[..|ys| - 1]);
    }
  }

  lemma {:induction false} MkAppsCons(f: Term, x: Term, ys: seq<Term>)
    ensures MkApps(f, [x] + ys) == MkApps(App(f, x), ys)
  {
    MkAppsAppend(f, [x], ys);
  }

  ghost function SubAll(ts: seq<Term>, s: Subst): (r: seq<Term>)
    ensures |r| == |ts|
    ensures forall k :: 0 <= k < |ts| ==> r[k] == Sub(ts[k], s)
  {
    if ts == [] then [] else SubAll(ts[..|ts| - 1], s) + [Sub(ts[|ts| - 1], s)]
  }

  lemma {:induction false} SubMkApps(f: Term, args: seq<Term>, s: Subst)
    ensures Sub(MkApps(f, args), s) == MkApps(Sub(f, s), SubAll(args, s))
    decreases |args|
  {
    if args != [] { SubMkApps(f, args[..|args| - 1], s); }
  }

  lemma {:induction false} OccursMkApps(f: Term, args: seq<Term>, i: nat)
    ensures Occurs(MkApps(f, args), i) <==> Occurs(f, i) || exists k :: 0 <= k < |args| && Occurs(args[k], i)
    decreases |args|
  {
    if args != [] {
      var init := args[..|args| - 1];
      OccursMkApps(f, init, i);
      assert forall k :: 0 <= k < |init| ==> init[k] == args[k];
    }
  }

  // ---------------------------------------------------------------- universe instantiation

  predicate HasLParam(t: Term) {
    match t
    case Sort(l) => L.HasParam(l)
    case Const(_, ls) => exists k :: 0 <= k < |ls| && L.HasParam(ls[k])
    case App(f, x) => HasLParam(f) || HasLParam(x)
    case Lam(d, b) => HasLParam(d) || HasLParam(b)
    case Pi(d, b) => HasLParam(d) || HasLParam(b)
    case Let(y, v, b) => HasLParam(y) || HasLParam(v) || HasLParam(b)
    case Proj(_, _, e) => HasLParam(e)
    case _ => false
  }

  function InstLevels(ls: seq<L.Level>, ps: seq<Name>, vs: seq<L.Level>): (r: seq<L.Level>)
    requires |ps| == |vs|
    ensures |r| == |ls|
    ensures forall k :: 0 <= k < |ls| ==> r[k] == L.InstLevel(ls[k], ps, vs)
  {
    seq(|ls|, k requires 0 <= k < |ls| => L.InstLevel(ls[k], ps, vs))
  }

  function InstLParams(t: Term, ps: seq<Name>, vs: seq<L.Level>): Term
    requires |ps| == |vs|
  {
    match t
    case Sort(l) => Sort(L.InstLevel(l, ps, vs))
    case Const(n, ls) => Const(n, InstLevels(ls, ps, vs))
    case App(f, x) => App(InstLParams(f, ps, vs), InstLParams(x, ps, vs))
    case Lam(d, b) => Lam(InstLParams(d, ps, vs), InstLParams(b, ps, vs))
    case Pi(d, b) => Pi(InstLParams(d, ps, vs), InstLParams(b, ps, vs))
    case Let(y, v, b) => Let(InstLParams(y, ps, vs), InstLParams(v, ps, vs), InstLParams(b, ps, vs))
    case Proj(n, i, e) => Proj(n, i, InstLParams(e, ps, vs))
    case _ => t
  }

  lemma {:induction false} InstLParamsOccurs(t: Term, ps: seq<Name>, vs: seq<L.Level>)
    requires |ps| == |vs|
    ensures Range(InstLParams(t, ps, vs)) == Range(t)
    ensures forall i: nat :: Occurs(InstLParams(t, ps, vs), i) == Occurs(t, i)
  {
    match t
    case App(f, x) => InstLParamsOccurs(f, ps, vs); InstLParamsOccurs(x, ps, vs);
    case Lam(d, b) => InstLParamsOccurs(d, ps, vs); InstLParamsOccurs(b, ps, vs);
    case Pi(d, b) => InstLParamsOccurs(d, ps, vs); InstLParamsOccurs(b, ps, vs);
    case Let(y, v, b) => InstLParamsOccurs(y, ps, vs); InstLParamsOccurs(v, ps, vs); InstLParamsOccurs(b, ps, vs);
    case Proj(_, _, e) => InstLParamsOccurs(e, ps, vs);
    case _ =>
  }

  function OwnParams(ps: seq<Name>): (ls: seq<L.Level>)
    ensures |ls| == |ps|
  {
    seq(|ps|, k requires 0 <= k < |ps| => L.Param(ps[k]))
  }

  /** A term whose parameters are instantiated by themselves, or that mentions none, is returned as it is. */
  function InstantiateLParams(t: Term, ps: seq<Name>, vs: seq<L.Level>): Term
    requires |ps| == |vs|
  {
    if ps == [] || !HasLParam(t) || vs == OwnParams(ps) then t else InstLParams(t, ps, vs)
  }

  lemma InstantiateLParamsOccurs(t: Term, ps: seq<Name>, vs: seq<L.Level>)
    requires |ps| == |vs|
    ensures Range(InstantiateLParams(t, ps, vs)) == Range(t)
    ensures forall i: nat :: Occurs(InstantiateLParams(t, ps, vs), i) == Occurs(t, i)
  {
    InstLParamsOccurs(t, ps, vs);
  }

  /** The same term, its levels under v worth what the other's are under w. */
  ghost predicate SameUnder(t: Term, v: L.Assignment, u: Term, w: L.Assignment) {
    match (t, u)
    case (Sort(l), Sort(m)) => L.Value(l, v) == L.Value(m, w)
    case (Const(n, ls), Const(m, ms)) => n == m && |ls| == |ms| && forall k :: 0 <= k < |ls| ==> L.Value(ls[k], v) == L.Value(ms[k], w)
    case (App(f, x), App(g, y)) => SameUnder(f, v, g, w) && SameUnder(x, v, y, w)
    case (Lam(d, b), Lam(e, c)) => SameUnder(d, v, e, w) && SameUnder(b, v, c, w)
    case (Pi(d, b), Pi(e, c)) => SameUnder(d, v, e, w) && SameUnder(b, v, c, w)
    case (Let(y, x, b), Let(z, q, c)) => SameUnder(y, v, z, w) && SameUnder(x, v, q, w) && SameUnder(b, v, c, w)
    case (Proj(n, i, e), Proj(m, j, f)) => n == m && i == j && SameUnder(e, v, f, w)
    case _ => t == u
  }

  /** A term, or one without parameters, under assignments that agree. */
  lemma {:induction false} SameTerm(t: Term, v: L.Assignment, w: L.Assignment)
    requires (forall p {:trigger v(p)} :: v(p) == w(p)) || !HasLParam(t)
    ensures SameUnder(t, v, t, w)
  {
    match t
    case Sort(l) => L.SameValue(l, v, w);
    case Const(_, ls) => forall k | 0 <= k < |ls| ensures L.Value(ls[k], v) == L.Value(ls[k], w) { L.SameValue(ls[k], v, w); }
    case App(f, x) => SameTerm(f, v, w); SameTerm(x, v, w);
    case Lam(d, b) => SameTerm(d, v, w); SameTerm(b, v, w);
    case Pi(d, b) => SameTerm(d, v, w); SameTerm(b, v, w);
    case Let(y, x, b) => SameTerm(y, v, w); SameTerm(x, v, w); SameTerm(b, v, w);
    case Proj(_, _, e) => SameTerm(e, v, w);
    case _ =>
  }

  lemma {:induction false} InstLParamsValue(t: Term, ps: seq<Name>, vs: seq<L.Level>, v: L.Assignment)
    requires |ps| == |vs|
    ensures SameUnder(InstLParams(t, ps, vs), v, t, L.Through(ps, vs, v))
  {
    match t
    case Sort(l) => L.InstLevelValue(l, ps, vs, v);
    case Const(_, ls) =>
      forall k | 0 <= k < |ls| ensures L.Value(InstLevels(ls, ps, vs)[k], v) == L.Value(ls[k], L.Through(ps, vs, v)) {
        L.InstLevelValue(ls[k], ps, vs, v);
      }
    case App(f, x) => InstLParamsValue(f, ps, vs, v); InstLParamsValue(x, ps, vs, v);
    case Lam(d, b) => InstLParamsValue(d, ps, vs, v); InstLParamsValue(b, ps, vs, v);
    case Pi(d, b) => InstLParamsValue(d, ps, vs, v); InstLParamsValue(b, ps, vs, v);
    case Let(y, x, b) => InstLParamsValue(y, ps, vs, v); InstLParamsValue(x, ps, vs, v); InstLParamsValue(b, ps, vs, v);
    case Proj(_, _, e) => InstLParamsValue(e, ps, vs, v);
    case _ =>
  }

  /**
   * Instantiating universe parameters, its shortcuts included, leaves the term as it is but for its levels,
   * and those are worth what the old ones are when parameters are read through the arguments.
   */
  lemma InstantiateLParamsValue(t: Term, ps: seq<Name>, vs: seq<L.Level>, v: L.Assignment)
    requires |ps| == |vs|
    ensures SameUnder(InstantiateLParams(t, ps, vs), v, t, L.Through(ps, vs, v))
  {
    if !HasLParam(t) {
      SameTerm(t, v, L.Through(ps, vs, v));
    } else if ps == [] || vs == OwnParams(ps) {
      forall p ensures L.Through(ps, vs, v)(p) == v(p) { OwnParam(ps, p); }
      SameTerm(t, v, L.Through(ps, vs, v));
    } else {
      InstLParamsValue(t, ps, vs, v);
    }
  }

  lemma {:induction false} OwnParam(ps: seq<Name>, p: Name)
    ensures L.InstParam(p, ps, OwnParams(ps)) == L.Param(p)
  {
    if ps != [] {
      OwnParam(ps[1..], p);
      assert OwnParams(ps)[1..] == OwnParams(ps[1..]);
    }
  }
}
