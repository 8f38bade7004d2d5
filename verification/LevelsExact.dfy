// Levels without impredicative maxima: comparison and equivalence say yes whenever the values do.
module LevelsExact {
  import opened Names
  import opened Levels

  /** No `IMax` anywhere. */
  predicate Plain(l: Level) {
    match l
    case Succ(a) => Plain(a)
    case Max(a, b) => Plain(a) && Plain(b)
    case IMax(_, _) => false
    case _ => true
  }

  /** A number, or a parameter plus a number. */
  predicate Atom(l: Level) { Base(l).Zero? || Base(l).Param? }

  /** A tree of maxima over atoms: what normalisation makes of a plain level. */
  predicate AtomTree(l: Level) { if l.Max? then AtomTree(l.a) && AtomTree(l.b) else Atom(l) }

  ghost predicate Atoms(s: seq<Level>) { forall i :: 0 <= i < |s| ==> Atom(s[i]) }

  lemma {:induction false} AtomSuccN(l: Level, k: nat)
    ensures Base(SuccN(l, k)) == Base(l) && Offset(SuccN(l, k)) == Offset(l) + k
  {
    if k > 0 { AtomSuccN(l, k - 1); }
  }

  lemma {:induction false} PlainBase(l: Level)
    ensures Plain(Base(l)) == Plain(l)
  {
    if l.Succ? { PlainBase(l.a); }
  }

  lemma {:induction false} FlattenAtoms(l: Level)
    requires AtomTree(l)
    ensures Atoms(Flatten(l))
  {
    if l.Max? { FlattenAtoms(l.a); FlattenAtoms(l.b); }
  }

  lemma {:induction false} AtomTreePlain(l: Level)
    requires AtomTree(l)
    ensures Plain(l)
  {
    if l.Max? { AtomTreePlain(l.a); AtomTreePlain(l.b); } else { PlainBase(l); }
  }

  lemma {:induction false} AtomsMaxList(s: seq<Level>)
    requires s != [] && Atoms(s)
    ensures AtomTree(MkMaxList(s))
  {
    if |s| > 1 { AtomsMaxList(s[1..]); }
  }

  /** The sorted and reduced arguments, lifted by k: what the normal form of a maximum is built from. */
  function Rebuilt(args: seq<Level>, k: nat): (r: seq<Level>)
    requires args != []
    ensures r != []
  {
    SortMultiset(args);
    PermutationMembers(args, Sort(args));
    AddSuccs(Reduced(Sort(args)), k)
  }

  lemma RebuiltAtoms(args: seq<Level>, k: nat)
    requires args != [] && Atoms(args)
    ensures Atoms(Rebuilt(args, k))
  {
    var s := Sort(args);
    SortMultiset(args);
    PermutationMembers(s, args);
    PermutationMembers(args, s);
    ReducedMembers(s);
    forall i | 0 <= i < |Reduced(s)| ensures Atom(SuccN(Reduced(s)[i], k)) {
      assert Reduced(s)[i] in s && Reduced(s)[i] in args;
      AtomSuccN(Reduced(s)[i], k);
    }
  }

  lemma {:induction false} NormalizeAtoms(l: Level)
    requires Plain(l)
    ensures AtomTree(Normalize(l))
    decreases l, 2
  {
    var r := Base(l);
    PlainBase(l);
    if r.Max? {
      NormalArgsAtoms(r);
      RebuiltAtoms(NormalArgs(r), Offset(l));
      AtomsMaxList(Rebuilt(NormalArgs(r), Offset(l)));
    }
  }

  lemma {:induction false} NormalArgsAtoms(r: Level)
    requires Plain(r)
    ensures Atoms(NormalArgs(r))
    decreases r, if r.Max? then 1 else 3
  {
    if r.Max? {
      NormalArgsAtoms(r.a);
      NormalArgsAtoms(r.b);
    } else {
      NormalizeAtoms(r);
      FlattenAtoms(Normalize(r));
    }
  }

  // ---------------------------------------------------------------- assignments that tell atoms apart

  /** The value of a is at least that of b under every assignment. */
  ghost predicate AlwaysGeq(a: Level, b: Level) { forall v: Assignment :: Value(a, v) >= Value(b, v) }

  ghost predicate AlwaysEqual(a: Level, b: Level) { forall v: Assignment :: Value(a, v) == Value(b, v) }

  /** Larger than every offset in the tree. */
  function Above(l: Level): nat { if l.Max? then Above(l.a) + Above(l.b) else Offset(l) + 1 }

  /** n at the parameter of x, zero elsewhere. */
  ghost function Peak(x: Level, n: nat): Assignment { p => if Base(x) == Param(p) then n else 0 }

  lemma AtomValue(x: Level, v: Assignment)
    requires Atom(x)
    ensures Value(x, v) == Offset(x) + if Base(x).Param? then v(Base(x).p) else 0
  {
    OffsetValue(x, v);
  }

  /** A tree that reaches an atom at a high peak reaches it everywhere. */
  lemma {:induction false} PeakDecides(t: Level, x: Level, n: nat, v: Assignment)
    requires AtomTree(t) && Atom(x) && n >= Above(t) && Value(t, Peak(x, n)) >= Value(x, Peak(x, n))
    ensures Value(t, v) >= Value(x, v)
  {
    if t.Max? {
      if Value(t.a, Peak(x, n)) >= Value(x, Peak(x, n)) {
        PeakDecides(t.a, x, n, v);
      } else {
        PeakDecides(t.b, x, n, v);
      }
    } else {
      AtomValue(t, v);
      AtomValue(x, v);
      AtomValue(t, Peak(x, n));
      AtomValue(x, Peak(x, n));
    }
  }

  /** An atom under a maximum is under one of the two arguments. */
  lemma AtomUnderMax(t: Level, x: Level)
    requires t.Max? && AtomTree(t) && Atom(x) && AlwaysGeq(t, x)
    ensures AlwaysGeq(t.a, x) || AlwaysGeq(t.b, x)
  {
    var n := Above(t);
    assert Value(t, Peak(x, n)) >= Value(x, Peak(x, n));
    forall v: Assignment
      ensures Value(t.a, Peak(x, n)) >= Value(x, Peak(x, n)) ==> Value(t.a, v) >= Value(x, v)
      ensures Value(t.b, Peak(x, n)) >= Value(x, Peak(x, n)) ==> Value(t.b, v) >= Value(x, v)
    {
      if Value(t.a, Peak(x, n)) >= Value(x, Peak(x, n)) { PeakDecides(t.a, x, n, v); }
      if Value(t.b, Peak(x, n)) >= Value(x, Peak(x, n)) { PeakDecides(t.b, x, n, v); }
    }
  }

  /** One atom is at least another exactly when the offset is, over the same parameter or over a number. */
  lemma AtomsOrdered(y: Level, x: Level)
    requires Atom(y) && Atom(x)
    ensures AlwaysGeq(y, x) <==> (Base(x) == Base(y) || Base(x).Zero?) && Offset(y) >= Offset(x)
  {
    var w := Peak(x, Offset(y) + 1);
    AtomValue(y, w);
    AtomValue(x, w);
    var z := Peak(x, 0);
    AtomValue(y, z);
    AtomValue(x, z);
    forall v: Assignment
      ensures (Base(x) == Base(y) || Base(x).Zero?) && Offset(y) >= Offset(x) ==> Value(y, v) >= Value(x, v)
    {
      AtomValue(y, v);
      AtomValue(x, v);
    }
    if AlwaysGeq(y, x) { assert Value(y, w) >= Value(x, w) && Value(y, z) >= Value(x, z); }
  }

  // ---------------------------------------------------------------- comparison

  lemma {:induction false} GeqComplete(a: Level, b: Level)
    requires Proper(a) && Proper(b) && Plain(a) && Plain(b) && AlwaysGeq(a, b)
    ensures IsGeq(a, b)
    decreases Weight(a) + Weight(b), 1
  {
    NormalizeWeight(a);
    NormalizeWeight(b);
    ProperNormalize(a);
    ProperNormalize(b);
    NormalizeAtoms(a);
    NormalizeAtoms(b);
    forall v: Assignment ensures Value(Normalize(a), v) >= Value(Normalize(b), v) {
      NormalizeValue(a, v);
      NormalizeValue(b, v);
      assert Value(a, v) >= Value(b, v);
    }
    GeqCoreComplete(Normalize(a), Normalize(b));
  }

  lemma {:induction false} GeqCoreComplete(l1: Level, l2: Level)
    requires Proper(l1) && Proper(l2) && AtomTree(l1) && AtomTree(l2) && AlwaysGeq(l1, l2)
    ensures IsGeqCore(l1, l2)
    decreases Weight(l1) + Weight(l2), 0
  {
    AtomTreePlain(l1);
    AtomTreePlain(l2);
    if l2.Max? {
      assert AlwaysGeq(l1, l2.a) && AlwaysGeq(l1, l2.b) by {
        forall v: Assignment ensures Value(l1, v) >= Value(l2.a, v) && Value(l1, v) >= Value(l2.b, v) {
          assert Value(l1, v) >= Value(l2, v);
        }
      }
      GeqComplete(l1, l2.a);
      GeqComplete(l1, l2.b);
    } else if l1.Max? {
      AtomUnderMax(l1, l2);
      if AlwaysGeq(l1.a, l2) { GeqComplete(l1.a, l2); } else { GeqComplete(l1.b, l2); }
    } else {
      AtomsOrdered(l1, l2);
    }
  }

  /** On levels without `IMax` the checker's comparison is the order of values. */
  lemma GeqExactly(a: Level, b: Level)
    requires Proper(a) && Proper(b) && Plain(a) && Plain(b)
    ensures IsGeq(a, b) <==> AlwaysGeq(a, b)
  {
    if IsGeq(a, b) {
      forall v: Assignment ensures Value(a, v) >= Value(b, v) { GeqSound(a, b, v); }
    } else if AlwaysGeq(a, b) {
      GeqComplete(a, b);
    }
  }

  // ---------------------------------------------------------------- canonical sequences

  ghost predicate Ascends(s: seq<Level>) {
    AllProper(s) && forall i, j :: 0 <= i < j < |s| ==> IsNormLt(Base(s[i]), Base(s[j]))
  }

  /** Bases strictly ascend, and a number is there only if it exceeds every other offset. */
  ghost predicate Canonical(s: seq<Level>) {
    && s != [] && Atoms(s) && Ascends(s)
    && (Base(s[0]).Zero? ==> forall j :: 0 < j < |s| ==> Offset(s[j]) < Offset(s[0]))
  }

  /** The base of y is the base of x or a later one. */
  predicate Upto(x: Level, y: Level) { Base(x) == Base(y) || IsNormLt(Base(x), Base(y)) }

  lemma BasesOrdered(x: Level, y: Level)
    requires Proper(x) && Proper(y) && !IsNormLt(y, x)
    ensures Upto(x, y)
  {
    ProperBase(x);
    ProperBase(y);
    NormLtAsymmetric(Base(x), Base(y));
  }

  lemma {:induction false} MergeAscends(last: Level, rest: seq<Level>)
    requires Proper(last) && AllProper(rest)
    requires forall j :: 0 <= j < |rest| ==> Upto(last, rest[j])
    requires forall i, j :: 0 <= i < j < |rest| ==> Upto(rest[i], rest[j])
    ensures Base(Merge(last, rest)[0]) == Base(last)
    ensures forall i, j :: 0 <= i < j < |Merge(last, rest)| ==>
              IsNormLt(Base(Merge(last, rest)[i]), Base(Merge(last, rest)[j]))
    decreases |rest|
  {
    if rest != [] {
      var m := if Base(last) == Base(rest[0]) then if Offset(last) < Offset(rest[0]) then rest[0] else last else rest[0];
      var t := Merge(m, rest[1..]);
      MergeAscends(m, rest[1..]);
      if Base(last) != Base(rest[0]) {
        forall j | 0 <= j < |t| ensures IsNormLt(Base(last), Base(t[j])) {
          if j > 0 {
            MergeMembers(m, rest[1..], j);
            ProperBase(last);
            ProperBase(m);
            ProperBase(t[j]);
            NormLtTransitive(Base(last), Base(m), Base(t[j]));
          }
        }
      }
    }
  }

  lemma StartExplicit(s: seq<Level>)
    requires s != [] && Sorted(s) && AllProper(s)
    ensures IsExplicit(s[Start(s)]) ==>
              forall j :: Start(s) < j < |s| ==> !IsExplicit(s[j]) && Offset(s[j]) < Offset(s[Start(s)])
  {
    if IsExplicit(s[0]) {
      var i := LastExplicit(s, 0);
      LastExplicitStops(s, 0);
      LastExplicitRun(s, 0, i);
      forall j | i < j < |s| ensures !IsExplicit(s[j]) {
        if j > i + 1 { SortedFar(s, i + 1, j); }
      }
      forall j | i < j < |s| && !OffsetReached(s[i + 1..], Offset(s[i])) ensures Offset(s[j]) < Offset(s[i]) {
        NotReached(s[i + 1..], Offset(s[i]), j - i - 1);
      }
    } else {
      forall j | 0 < j < |s| ensures !IsExplicit(s[j]) { SortedFar(s, 0, j); }
    }
  }

  lemma {:induction false} LastExplicitStops(s: seq<Level>, i: nat)
    requires i < |s|
    ensures LastExplicit(s, i) + 1 < |s| ==> !IsExplicit(s[LastExplicit(s, i) + 1])
    decreases |s| - i
  {
    if i + 1 < |s| && IsExplicit(s[i + 1]) { LastExplicitStops(s, i + 1); }
  }

  lemma {:induction false} NotReached(s: seq<Level>, k: nat, j: nat)
    requires !OffsetReached(s, k) && j < |s|
    ensures Offset(s[j]) < k
  {
    if j > 0 { NotReached(s[1..], k, j - 1); }
  }

  /** An explicit level ahead of levels that are not is never merged away. */
  lemma {:induction false} MergeKeepsExplicit(last: Level, rest: seq<Level>)
    requires IsExplicit(last) && forall j :: 0 <= j < |rest| ==> !IsExplicit(rest[j])
    ensures Merge(last, rest)[0] == last
    ensures forall j :: 0 < j < |Merge(last, rest)| ==> Merge(last, rest)[j] in rest
  {
    if rest != [] {
      forall j | 0 <= j < |Merge(rest[0], rest[1..])| ensures Merge(rest[0], rest[1..])[j] in rest {
        MergeMembers(rest[0], rest[1..], j);
      }
    }
  }

  lemma ReducedCanonical(s: seq<Level>)
    requires s != [] && Sorted(s) && AllProper(s) && Atoms(s)
    ensures Canonical(Reduced(s))
  {
    var n := Start(s);
    var last, rest := s[n], s[n + 1..];
    forall i, j | n <= i < j < |s| ensures Upto(s[i], s[j]) {
      SortedFar(s, i, j);
      BasesOrdered(s[i], s[j]);
    }
    MergeAscends(last, rest);
    ReducedMembers(s);
    StartExplicit(s);
    if IsExplicit(last) { MergeKeepsExplicit(last, rest); }
  }

  lemma LiftedCanonical(s: seq<Level>, k: nat)
    requires Canonical(s)
    ensures Canonical(AddSuccs(s, k))
  {
    forall i | 0 <= i < |s|
      ensures Base(SuccN(s[i], k)) == Base(s[i]) && Offset(SuccN(s[i], k)) == Offset(s[i]) + k && Proper(SuccN(s[i], k))
    {
      AtomSuccN(s[i], k);
      ProperSuccN(s[i], k);
    }
  }

  /** The atoms a plain level's normal form is the maximum of. */
  function NormalAtoms(l: Level): (s: seq<Level>)
    ensures s != []
  {
    if Base(l).Max? then Rebuilt(NormalArgs(Base(l)), Offset(l)) else [l]
  }

  lemma NormalAtomsCanonical(l: Level)
    requires Plain(l) && Proper(l)
    ensures Normalize(l) == MkMaxList(NormalAtoms(l)) && Canonical(NormalAtoms(l))
  {
    var r := Base(l);
    PlainBase(l);
    ProperBase(l);
    if r.Max? {
      var args := NormalArgs(r);
      NormalArgsAtoms(r);
      ProperNormalArgs(r);
      SortSorted(args);
      SortMultiset(args);
      PermutationMembers(Sort(args), args);
      ReducedCanonical(Sort(args));
      LiftedCanonical(Reduced(Sort(args)), Offset(l));
    }
  }

  // ---------------------------------------------------------------- canonical sequences are fixed by their values

  ghost predicate SameMax(s: seq<Level>, t: seq<Level>)
    requires s != [] && t != []
  {
    forall v: Assignment :: MaxValue(s, v) == MaxValue(t, v)
  }

  /** An offset no element of the sequence exceeds. */
  function Height(s: seq<Level>): nat { if s == [] then 0 else Offset(s[0]) + Height(s[1..]) }

  lemma {:induction false} HeightBounds(s: seq<Level>, i: nat)
    requires i < |s|
    ensures Offset(s[i]) <= Height(s)
  {
    if i > 0 { HeightBounds(s[1..], i - 1); }
  }

  /** A member over a parameter is matched by one over the same parameter and no lower. */
  lemma Matched(s: seq<Level>, t: seq<Level>, i: nat) returns (j: nat)
    requires s != [] && t != [] && Atoms(s) && Atoms(t) && SameMax(s, t)
    requires i < |s| && Base(s[i]).Param?
    ensures j < |t| && Base(t[j]) == Base(s[i]) && Offset(t[j]) >= Offset(s[i])
  {
    var w := Peak(s[i], Height(t) + 1);
    MaxValueBound(s, w, i);
    j := MaxValueReached(t, w);
    assert MaxValue(s, w) == MaxValue(t, w);
    AtomValue(s[i], w);
    AtomValue(t[j], w);
    HeightBounds(t, j);
  }

  /** A member of one canonical sequence is a member of any other with the same values. */
  lemma SameMembers(s: seq<Level>, t: seq<Level>, i: nat)
    requires Canonical(s) && Canonical(t) && SameMax(s, t) && i < |s|
    ensures s[i] in t
  {
    if Base(s[i]).Param? {
      var j := Matched(s, t, i);
      var k := Matched(t, s, j);
      OnePerBase(s, i, k);
      SameAtom(s[i], t[j]);
    } else {
      ExplicitFirst(s, i);
      ExplicitMatched(s, t);
    }
  }

  lemma OnePerBase(s: seq<Level>, i: nat, k: nat)
    requires Canonical(s) && i < |s| && k < |s| && Base(s[i]) == Base(s[k])
    ensures i == k
  {
    ProperBase(s[i]);
    NormLtAsymmetric(Base(s[i]), Base(s[i]));
  }

  lemma SameAtom(x: Level, y: Level)
    requires Base(x) == Base(y) && Offset(x) == Offset(y)
    ensures x == y
  {
  }

  lemma ExplicitFirst(s: seq<Level>, i: nat)
    requires Canonical(s) && i < |s| && Base(s[i]).Zero?
    ensures i == 0
  {
    NoneBelowZero(Base(s[0]));
  }

  lemma NoneBelowZero(x: Level)
    ensures !IsNormLt(x, Zero)
  {
  }

  /** Over a parameter no offset reaches the number of a sequence with the same values. */
  lemma OverParam(s: seq<Level>, t: seq<Level>, j: nat)
    requires Canonical(s) && Canonical(t) && SameMax(s, t) && Base(s[0]).Zero?
    requires j < |t| && Base(t[j]).Param?
    ensures Offset(t[j]) < Offset(s[0])
  {
    var k := Matched(t, s, j);
  }

  /** With everything at zero the number decides: it is above every other offset. */
  lemma ExplicitMatched(s: seq<Level>, t: seq<Level>)
    requires Canonical(s) && Canonical(t) && SameMax(s, t) && Base(s[0]).Zero?
    ensures s[0] in t
  {
    var z: Assignment := p => 0;
    MaxValueBound(s, z, 0);
    AtomValue(s[0], z);
    var i := MaxValueReached(s, z);
    AtomValue(s[i], z);
    assert i == 0;
    var j := MaxValueReached(t, z);
    AtomValue(t[j], z);
    assert Offset(t[j]) == Offset(s[0]);
    if Base(t[j]).Param? { OverParam(s, t, j); }
    SameAtom(s[0], t[j]);
  }

  lemma AscendsOnce(s: seq<Level>, k: nat)
    requires Ascends(s) && 0 < k < |s|
    ensures s[k] != s[0]
  {
    ProperBase(s[0]);
    NormLtAsymmetric(Base(s[0]), Base(s[0]));
  }

  ghost predicate Within(s: seq<Level>, t: seq<Level>) { forall i :: 0 <= i < |s| ==> s[i] in t }

  lemma AscendingHead(s: seq<Level>, t: seq<Level>)
    requires Ascends(s) && Ascends(t) && Within(s, t) && Within(t, s) && s != [] && t != []
    ensures s[0] == t[0]
  {
    var i :| 0 <= i < |t| && t[i] == s[0];
    var j :| 0 <= j < |s| && s[j] == t[0];
    ProperBase(s[0]);
    ProperBase(t[0]);
    NormLtAsymmetric(Base(s[0]), Base(t[0]));
  }

  lemma AscendingTail(s: seq<Level>, t: seq<Level>)
    requires Ascends(s) && Within(s, t) && s != [] && t != [] && s[0] == t[0]
    ensures Ascends(s[1..]) && Within(s[1..], t[1..])
  {
    forall k | 0 < k < |s| ensures s[k] in t[1..] {
      AscendsOnce(s, k);
      assert s[k] in t && t == [t[0]] + t[1..];
    }
  }

  lemma {:induction false} AscendingUnique(s: seq<Level>, t: seq<Level>)
    requires Ascends(s) && Ascends(t) && Within(s, t) && Within(t, s)
    ensures s == t
  {
    if s == [] {
      assert t == [];
    } else {
      assert s[0] in t;
      AscendingHead(s, t);
      AscendingTail(s, t);
      AscendingTail(t, s);
      hide Ascends, Within;
      AscendingUnique(s[1..], t[1..]);
      assert s == [s[0]] + s[1..] && t == [t[0]] + t[1..];
    }
  }

  lemma CanonicalUnique(s: seq<Level>, t: seq<Level>)
    requires Canonical(s) && Canonical(t) && SameMax(s, t)
    ensures s == t
  {
    forall i | 0 <= i < |s| ensures s[i] in t { SameMembers(s, t, i); }
    forall i | 0 <= i < |t| ensures t[i] in s { SameMembers(t, s, i); }
    AscendingUnique(s, t);
  }

  /** On levels without `IMax` the checker's equivalence is equality of values. */
  lemma EquivalentExactly(a: Level, b: Level)
    requires Proper(a) && Proper(b) && Plain(a) && Plain(b)
    ensures IsEquivalent(a, b) <==> AlwaysEqual(a, b)
  {
    forall v: Assignment ensures IsEquivalent(a, b) ==> Value(a, v) == Value(b, v) {
      if IsEquivalent(a, b) { EquivalentSound(a, b, v); }
    }
    if AlwaysEqual(a, b) {
      var s, t := NormalAtoms(a), NormalAtoms(b);
      NormalAtomsCanonical(a);
      NormalAtomsCanonical(b);
      forall v: Assignment ensures MaxValue(s, v) == MaxValue(t, v) {
        NormalizeValue(a, v);
        NormalizeValue(b, v);
        MkMaxListValue(s, v);
        MkMaxListValue(t, v);
        assert Value(a, v) == Value(b, v);
      }
      CanonicalUnique(s, t);
    }
  }

  // ---------------------------------------------------------------- where comparison is incomplete

  /** An impredicative maximum under one parameter is not found at least another parameter. */
  lemma IMaxNotGeq(y: Level, u: Name, v: Name)
    requires u != v
    ensures !IsGeq(Param(v), Param(u)) && !IsGeq(IMax(y, Param(v)), Param(u))
  {
    assert !IsGeqCore(Param(v), Param(u));
    assert !IsGeq(Param(v), Param(u));
    NormalOfIMax(y, v);
    assert !IsGeqCore(IMax(Normalize(y), Param(v)), Param(u));
  }

  /** With `IMax` the comparison overlooks levels: for any three parameters these two are such a pair. */
  lemma GeqMissesIMax(u: Name, v: Name, w: Name)
    requires !u.Anonymous? && !v.Anonymous? && !w.Anonymous? && u != v && v != w && u != w
    ensures AlwaysGeq(IMax(Max(Param(u), Param(w)), Param(v)), IMax(Param(u), Param(v)))
    ensures !IsGeq(IMax(Max(Param(u), Param(w)), Param(v)), IMax(Param(u), Param(v)))
  {
    hide Normalize, IsGeq, IsGeqCore, Value;
    var m, a, b := Max(Param(u), Param(w)), IMax(Max(Param(u), Param(w)), Param(v)), IMax(Param(u), Param(v));
    forall z: Assignment ensures Value(a, z) >= Value(b, z) { TheirValues(u, v, w, z); }
    var z: Assignment := p => if p == u then 0 else if p == v then 1 else 2;
    TheirValues(u, v, w, z);
    NormalOfIMax(m, v);
    NormalizeValue(a, z);
    NormalOfIMax(Param(u), v);
    NormalParam(u);
    IMaxNotGeq(Normalize(m), u, v);
    OverlookedCore(a, b);
  }

  lemma TheirValues(u: Name, v: Name, w: Name, z: Assignment)
    ensures Value(IMax(Max(Param(u), Param(w)), Param(v)), z) ==
            if z(v) == 0 then 0 else MaxNat(MaxNat(z(u), z(w)), z(v))
    ensures Value(IMax(Param(u), Param(v)), z) == if z(v) == 0 then 0 else MaxNat(z(u), z(v))
  {
    assert Value(Max(Param(u), Param(w)), z) == MaxNat(z(u), z(w));
  }

  lemma NormalOfIMax(y: Level, v: Name)
    ensures Normalize(IMax(y, Param(v))) == MkIMaxS(Normalize(y), Param(v))
    ensures Normalize(IMax(y, Param(v))) in {Param(v), IMax(Normalize(y), Param(v))}
  {
  }

  lemma NormalParam(u: Name)
    ensures Normalize(Param(u)) == Param(u)
  {
  }

  lemma OverlookedCore(a: Level, b: Level)
    requires Normalize(b) == b && b.IMax? && Normalize(a) != b && !Normalize(a).Max? && !IsGeq(Normalize(a), b.a)
    ensures !IsGeq(a, b)
  {
  }
}
