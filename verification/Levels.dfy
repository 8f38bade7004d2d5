// Universe levels: smart constructors, normalisation and comparison (src/level.cpp), checked
// against the value of a level under every assignment of naturals to its parameters.
module Levels {
  import opened Names

  datatype Level = Zero | Succ(a: Level) | Max(a: Level, b: Level) | IMax(a: Level, b: Level) | Param(p: Name)

  type Assignment = Name -> nat

  function MaxNat(x: nat, y: nat): nat { if x < y then y else x }

  /** What a level denotes: `IMax` is zero whenever its second argument is. */
  ghost function Value(l: Level, v: Assignment): nat {
    match l
    case Zero => 0
    case Succ(a) => Value(a, v) + 1
    case Max(a, b) => MaxNat(Value(a, v), Value(b, v))
    case IMax(a, b) => if Value(b, v) == 0 then 0 else MaxNat(Value(a, v), Value(b, v))
    case Param(p) => v(p)
  }

  // ---------------------------------------------------------------- operations

  function SuccN(l: Level, k: nat): (r: Level)
    ensures k == 0 || r.Succ?
  {
    if k == 0 then l else Succ(SuccN(l, k - 1))
  }

  /** The level under the leading successors, and how many there are. */
  function ToOffset(l: Level): (r: (Level, nat))
    ensures !r.0.Succ?
    ensures r.0 == l || r.0 < l
    ensures l == SuccN(r.0, r.1)
  {
    if l.Succ? then
      var p := ToOffset(l.a);
      (p.0, p.1 + 1)
    else
      (l, 0)
  }

  function Base(l: Level): Level { ToOffset(l).0 }

  function Offset(l: Level): nat { ToOffset(l).1 }

  predicate IsExplicit(l: Level) { Base(l).Zero? }

  predicate IsNeverZero(l: Level) {
    match l
    case Zero => false
    case Param(_) => false
    case Succ(_) => true
    case Max(a, b) => IsNeverZero(a) || IsNeverZero(b)
    case IMax(_, b) => IsNeverZero(b)
  }

  /** The evaluation engine's own zero test, which does not normalise. */
  predicate IsZeroLevel(l: Level) {
    match l
    case Zero => true
    case Succ(_) => false
    case Param(_) => false
    case Max(a, b) => IsZeroLevel(a) && IsZeroLevel(b)
    case IMax(_, b) => IsZeroLevel(b)
  }

  function MkMaxS(a: Level, b: Level): Level {
    if IsExplicit(a) && IsExplicit(b) then if Offset(a) >= Offset(b) then a else b
    else if a == b then a
    else if a.Zero? then b
    else if b.Zero? then a
    else if b.Max? && (b.a == a || b.b == a) then b
    else if Base(a) == Base(b) then if Offset(a) > Offset(b) then a else b
    else Max(a, b)
  }

  function MkIMaxS(a: Level, b: Level): Level {
    if IsNeverZero(b) then MkMaxS(a, b)
    else if b.Zero? then b
    else if a.Zero? then b
    else if a.Succ? && a.a.Zero? then b
    else if a == b then a
    else IMax(a, b)
  }

  /** The arguments of nested `Max` nodes, left to right. */
  function Flatten(l: Level): (r: seq<Level>)
    ensures r != []
  {
    if l.Max? then Flatten(l.a) + Flatten(l.b) else [l]
  }

  function Rank(l: Level): nat {
    match l
    case Zero => 0
    case Succ(_) => 1
    case Max(_, _) => 2
    case IMax(_, _) => 3
    case Param(_) => 4
  }

  /** The order normalisation sorts by: bases first, then offsets. */
  predicate IsNormLt(a: Level, b: Level) {
    if a == b then false
    else
      var l1, l2 := Base(a), Base(b);
      if l1 == l2 then Offset(a) < Offset(b)
      else if Rank(l1) != Rank(l2) then Rank(l1) < Rank(l2)
      else match l1
        case Param(p) => Lt(p, l2.p)
        case Max(x, y) => if x != l2.a then IsNormLt(x, l2.a) else IsNormLt(y, l2.b)
        case IMax(x, y) => if x != l2.a then IsNormLt(x, l2.a) else IsNormLt(y, l2.b)
        case _ => false
  }

  function Insert(x: Level, s: seq<Level>): seq<Level> {
    if s == [] || IsNormLt(x, s[0]) then [x] + s else [s[0]] + Insert(x, s[1..])
  }

  /** The library sort, as the one sorted arrangement of its input (see `SortIsUnique`). */
  function Sort(s: seq<Level>): seq<Level> {
    if s == [] then [] else Insert(s[0], Sort(s[1..]))
  }

  ghost predicate Sorted(s: seq<Level>) {
    forall i :: 0 <= i < |s| - 1 ==> !IsNormLt(s[i + 1], s[i])
  }

  /** The last of the leading explicit levels, from index i on. */
  function LastExplicit(s: seq<Level>, i: nat): (r: nat)
    requires i < |s|
    ensures i <= r < |s|
    decreases |s| - i
  {
    if i + 1 < |s| && IsExplicit(s[i + 1]) then LastExplicit(s, i + 1) else i
  }

  predicate OffsetReached(s: seq<Level>, k: nat) {
    s != [] && (Offset(s[0]) >= k || OffsetReached(s[1..], k))
  }

  /** Where the arguments worth keeping start: one explicit level at most, and none that a later offset covers. */
  function Start(s: seq<Level>): (r: nat)
    requires s != []
    ensures r < |s|
  {
    if !IsExplicit(s[0]) then 0
    else
      var i := LastExplicit(s, 0);
      if OffsetReached(s[i + 1..], Offset(s[i])) then i + 1 else i
  }

  /** Neighbours over the same base are merged into the one with the larger offset. */
  function Merge(last: Level, rest: seq<Level>): (r: seq<Level>)
    ensures r != []
    decreases |rest|
  {
    if rest == [] then [last]
    else if Base(last) == Base(rest[0]) then
      Merge(if Offset(last) < Offset(rest[0]) then rest[0] else last, rest[1..])
    else [last] + Merge(rest[0], rest[1..])
  }

  function Reduced(s: seq<Level>): (r: seq<Level>)
    requires s != []
    ensures r != []
  {
    Merge(s[Start(s)], s[Start(s) + 1..])
  }

  function AddSuccs(s: seq<Level>, k: nat): (r: seq<Level>)
    ensures |r| == |s|
    ensures forall i :: 0 <= i < |s| ==> r[i] == SuccN(s[i], k)
  {
    if s == [] then [] else [SuccN(s[0], k)] + AddSuccs(s[1..], k)
  }

  function MkMaxList(s: seq<Level>): Level
    requires s != []
  {
    if |s| == 1 then s[0] else MkMaxS(s[0], MkMaxList(s[1..]))
  }

  function Normalize(l: Level): Level
    decreases l, 2
  {
    var r, k := Base(l), Offset(l);
    match r
    case IMax(a, b) => SuccN(MkIMaxS(Normalize(a), Normalize(b)), k)
    case Max(_, _) => MkMaxList(AddSuccs(Reduced(Sort(NormalArgs(r))), k))
    case _ => l
  }

  /** The normalised, flattened arguments of a tree of `Max` nodes. */
  function NormalArgs(r: Level): (s: seq<Level>)
    ensures s != []
    decreases r, if r.Max? then 1 else 3
  {
    if r.Max? then NormalArgs(r.a) + NormalArgs(r.b) else Flatten(Normalize(r))
  }

  predicate IsEquivalent(a: Level, b: Level) { a == b || Normalize(a) == Normalize(b) }

  function InstParam(p: Name, ps: seq<Name>, ls: seq<Level>): Level
    requires |ps| == |ls|
  {
    if ps == [] then Param(p) else if ps[0] == p then ls[0] else InstParam(p, ps[1..], ls[1..])
  }

  predicate HasParam(l: Level) {
    match l
    case Zero => false
    case Succ(a) => HasParam(a)
    case Max(a, b) => HasParam(a) || HasParam(b)
    case IMax(a, b) => HasParam(a) || HasParam(b)
    case Param(_) => true
  }

  function InstLevel(l: Level, ps: seq<Name>, ls: seq<Level>): Level
    requires |ps| == |ls|
  {
    if !HasParam(l) then l
    else match l
      case Zero => l
      case Succ(a) => Succ(InstLevel(a, ps, ls))
      case Max(a, b) => MkMaxS(InstLevel(a, ps, ls), InstLevel(b, ps, ls))
      case IMax(a, b) => MkIMaxS(InstLevel(a, ps, ls), InstLevel(b, ps, ls))
      case Param(p) => InstParam(p, ps, ls)
  }

  // ---------------------------------------------------------------- values

  lemma {:induction false} SuccNValue(l: Level, k: nat, v: Assignment)
    ensures Value(SuccN(l, k), v) == Value(l, v) + k
  {
    if k > 0 { SuccNValue(l, k - 1, v); }
  }

  lemma OffsetValue(l: Level, v: Assignment)
    ensures Value(l, v) == Value(Base(l), v) + Offset(l)
  {
    SuccNValue(Base(l), Offset(l), v);
  }

  lemma MkMaxSValue(a: Level, b: Level, v: Assignment)
    ensures Value(MkMaxS(a, b), v) == MaxNat(Value(a, v), Value(b, v))
  {
    OffsetValue(a, v);
    OffsetValue(b, v);
    var r := MkMaxS(a, b);
    if IsExplicit(a) && IsExplicit(b) {
    } else if a == b || a.Zero? || b.Zero? {
      assert r == if a == b then a else if a.Zero? then b else a;
    } else if b.Max? && (b.a == a || b.b == a) {
      assert r == b;
    } else if Base(a) == Base(b) {
    } else {
      assert r == Max(a, b);
    }
  }

  lemma {:induction false} NeverZeroPositive(l: Level, v: Assignment)
    requires IsNeverZero(l)
    ensures Value(l, v) > 0
  {
    match l
    case Max(a, b) => if IsNeverZero(a) { NeverZeroPositive(a, v); } else { NeverZeroPositive(b, v); }
    case IMax(_, b) => NeverZeroPositive(b, v);
    case _ =>
  }

  lemma MkIMaxSValue(a: Level, b: Level, v: Assignment)
    ensures Value(MkIMaxS(a, b), v) == Value(IMax(a, b), v)
  {
    if IsNeverZero(b) {
      NeverZeroPositive(b, v);
      MkMaxSValue(a, b, v);
    }
  }

  ghost function MaxValue(s: seq<Level>, v: Assignment): nat
    requires s != []
  {
    if |s| == 1 then Value(s[0], v) else MaxNat(Value(s[0], v), MaxValue(s[1..], v))
  }

  lemma {:induction false} MaxValueBound(s: seq<Level>, v: Assignment, i: nat)
    requires i < |s|
    ensures Value(s[i], v) <= MaxValue(s, v)
  {
    if |s| > 1 && i > 0 { MaxValueBound(s[1..], v, i - 1); }
  }

  lemma {:induction false} MaxValueReached(s: seq<Level>, v: Assignment) returns (i: nat)
    requires s != []
    ensures i < |s| && Value(s[i], v) == MaxValue(s, v)
  {
    i := 0;
    if |s| > 1 && Value(s[0], v) < MaxValue(s[1..], v) {
      i := MaxValueReached(s[1..], v);
      i := i + 1;
    }
  }

  /** Every level of s is covered by some level of t. */
  ghost predicate Covers(t: seq<Level>, s: seq<Level>, v: Assignment) {
    forall i :: 0 <= i < |s| ==> exists j :: 0 <= j < |t| && Value(s[i], v) <= Value(t[j], v)
  }

  lemma CoveredMaxValue(t: seq<Level>, s: seq<Level>, v: Assignment)
    requires s != [] && t != [] && Covers(t, s, v)
    ensures MaxValue(s, v) <= MaxValue(t, v)
  {
    var i := MaxValueReached(s, v);
    var j :| 0 <= j < |t| && Value(s[i], v) <= Value(t[j], v);
    MaxValueBound(t, v, j);
  }

  lemma {:induction false} MaxValueAppend(s: seq<Level>, t: seq<Level>, v: Assignment)
    requires s != [] && t != []
    ensures MaxValue(s + t, v) == MaxNat(MaxValue(s, v), MaxValue(t, v))
  {
    if |s| > 1 {
      assert (s + t)[1..] == s[1..] + t;
      MaxValueAppend(s[1..], t, v);
    } else {
      assert (s + t)[1..] == t;
    }
  }

  lemma {:induction false} FlattenValue(l: Level, v: Assignment)
    ensures MaxValue(Flatten(l), v) == Value(l, v)
  {
    if l.Max? {
      FlattenValue(l.a, v);
      FlattenValue(l.b, v);
      MaxValueAppend(Flatten(l.a), Flatten(l.b), v);
    }
  }

  lemma {:induction false} MkMaxListValue(s: seq<Level>, v: Assignment)
    requires s != []
    ensures Value(MkMaxList(s), v) == MaxValue(s, v)
  {
    if |s| > 1 {
      MkMaxListValue(s[1..], v);
      MkMaxSValue(s[0], MkMaxList(s[1..]), v);
    }
  }

  // ---------------------------------------------------------------- sorting

  lemma {:induction false} InsertMultiset(x: Level, s: seq<Level>)
    ensures multiset(Insert(x, s)) == multiset(s) + multiset{x}
  {
    if s != [] && !IsNormLt(x, s[0]) {
      InsertMultiset(x, s[1..]);
      assert s == [s[0]] + s[1..];
    }
  }

  lemma {:induction false} SortMultiset(s: seq<Level>)
    ensures multiset(Sort(s)) == multiset(s)
  {
    if s != [] {
      SortMultiset(s[1..]);
      InsertMultiset(s[0], Sort(s[1..]));
      assert s == [s[0]] + s[1..];
    }
  }

  /** Parameters are never the anonymous name, on which the order of names is not an order. */
  predicate Proper(l: Level) {
    match l
    case Zero => true
    case Succ(a) => Proper(a)
    case Max(a, b) => Proper(a) && Proper(b)
    case IMax(a, b) => Proper(a) && Proper(b)
    case Param(p) => !p.Anonymous?
  }

  lemma {:induction false} ProperBase(l: Level)
    requires Proper(l)
    ensures Proper(Base(l))
  {
    if l.Succ? { ProperBase(l.a); }
  }

  lemma {:induction false} NormLtAsymmetric(a: Level, b: Level)
    requires Proper(a) && Proper(b)
    ensures !IsNormLt(a, a)
    ensures !(IsNormLt(a, b) && IsNormLt(b, a))
    ensures IsNormLt(a, b) || IsNormLt(b, a) || a == b
    decreases a
  {
    var l1, l2 := Base(a), Base(b);
    ProperBase(a);
    ProperBase(b);
    if l1 != l2 && Rank(l1) == Rank(l2) {
      match l1
      case Param(p) => LtStrictTotal(p, l2.p, p);
      case Max(x, y) => NormLtAsymmetric(x, l2.a); NormLtAsymmetric(y, l2.b);
      case IMax(x, y) => NormLtAsymmetric(x, l2.a); NormLtAsymmetric(y, l2.b);
      case _ =>
    }
  }

  lemma {:induction false} NormLtTransitive(a: Level, b: Level, c: Level)
    requires Proper(a) && Proper(b) && Proper(c)
    requires IsNormLt(a, b) && IsNormLt(b, c)
    ensures IsNormLt(a, c)
    decreases a
  {
    var l1, l2, l3 := Base(a), Base(b), Base(c);
    ProperBase(a);
    ProperBase(b);
    ProperBase(c);
    NormLtAsymmetric(a, b);
    if l1 != l2 && l2 != l3 && Rank(l1) == Rank(l2) && Rank(l2) == Rank(l3) {
      if l1.Param? {
        LtStrictTotal(l1.p, l2.p, l3.p);
        LtStrictTotal(l1.p, l2.p, l2.p);
      } else {
        NormLtAsymmetric(l1.a, l2.a);
        NormLtAsymmetric(l1.b, l2.b);
        if l1.a != l2.a && l2.a != l3.a {
          NormLtTransitive(l1.a, l2.a, l3.a);
        } else if l1.a == l2.a && l2.a == l3.a {
          NormLtTransitive(l1.b, l2.b, l3.b);
        }
      }
    }
  }

  lemma SortedTail(s: seq<Level>)
    requires s != [] && Sorted(s)
    ensures Sorted(s[1..])
  {
    forall i | 0 <= i < |s| - 2
      ensures !IsNormLt(s[1..][i + 1], s[1..][i])
    {
      assert !IsNormLt(s[i + 1 + 1], s[i + 1]);
    }
  }

  /** Inserting into a sorted sequence of proper levels keeps it sorted. */
  lemma {:induction false} InsertSorted(x: Level, s: seq<Level>)
    requires Proper(x) && (forall i :: 0 <= i < |s| ==> Proper(s[i])) && Sorted(s)
    ensures Sorted(Insert(x, s))
    ensures forall i :: 0 <= i < |Insert(x, s)| ==> Proper(Insert(x, s)[i])
  {
    var r := Insert(x, s);
    if s != [] {
      NormLtAsymmetric(x, s[0]);
      if !IsNormLt(x, s[0]) {
        var t := s[1..];
        SortedTail(s);
        InsertSorted(x, t);
        var u := Insert(x, t);
        assert r == [s[0]] + u;
        assert !IsNormLt(u[0], s[0]);
        forall i | 0 <= i < |r| - 1
          ensures !IsNormLt(r[i + 1], r[i])
        {
          if i > 0 { assert r[i] == u[i - 1] && r[i + 1] == u[i]; }
        }
      }
    }
  }

  lemma {:induction false} SortSorted(s: seq<Level>)
    requires forall i :: 0 <= i < |s| ==> Proper(s[i])
    ensures Sorted(Sort(s))
    ensures forall i :: 0 <= i < |Sort(s)| ==> Proper(Sort(s)[i])
  {
    if s != [] {
      SortSorted(s[1..]);
      InsertSorted(s[0], Sort(s[1..]));
    }
  }

  /** In a sorted sequence no later element is below an earlier one. */
  lemma {:induction false} SortedFar(s: seq<Level>, i: nat, j: nat)
    requires Sorted(s) && (forall k :: 0 <= k < |s| ==> Proper(s[k]))
    requires i < j < |s|
    ensures !IsNormLt(s[j], s[i])
    decreases j - i
  {
    if i + 1 < j {
      SortedFar(s, i + 1, j);
      SortedFar(s, i, i + 1);
      NotLtTransitive(s[j], s[i + 1], s[i]);
    }
  }

  lemma NotLtTransitive(a: Level, b: Level, c: Level)
    requires Proper(a) && Proper(b) && Proper(c) && !IsNormLt(a, b) && !IsNormLt(b, c)
    ensures !IsNormLt(a, c)
  {
    NormLtAsymmetric(a, b);
    NormLtAsymmetric(b, c);
    if IsNormLt(a, c) && a != b && b != c { NormLtTransitive(b, a, c); }
  }

  lemma SameHead(s: seq<Level>, t: seq<Level>)
    requires s != [] && t != [] && Sorted(s) && Sorted(t)
    requires forall k :: 0 <= k < |s| ==> Proper(s[k]) && s[k] in t
    requires forall k :: 0 <= k < |t| ==> Proper(t[k]) && t[k] in s
    ensures s[0] == t[0]
  {
    var i :| 0 <= i < |t| && t[i] == s[0];
    var j :| 0 <= j < |s| && s[j] == t[0];
    if i > 0 && j > 0 {
      SortedFar(t, 0, i);
      SortedFar(s, 0, j);
      NormLtAsymmetric(s[0], t[0]);
    }
  }

  lemma PermutationMembers(s: seq<Level>, t: seq<Level>)
    requires multiset(s) == multiset(t)
    ensures forall k :: 0 <= k < |s| ==> s[k] in t
    ensures s == [] <==> t == []
  {
    forall k | 0 <= k < |s| ensures s[k] in t {
      assert s[k] in multiset(t);
    }
    assert |s| == |multiset(s)| == |multiset(t)| == |t|;
  }

  lemma PermutationTail(s: seq<Level>, t: seq<Level>)
    requires multiset(s) == multiset(t) && s != [] && t != [] && s[0] == t[0]
    ensures multiset(s[1..]) == multiset(t[1..])
  {
    assert s == [s[0]] + s[1..] && t == [t[0]] + t[1..];
    assert multiset(s[1..]) == multiset(s) - multiset{s[0]};
    assert multiset(t[1..]) == multiset(t) - multiset{t[0]};
  }

  /** Sorting has one possible result: two sorted arrangements of the same proper levels are equal. */
  lemma {:induction false} SortIsUnique(s: seq<Level>, t: seq<Level>)
    requires Sorted(s) && Sorted(t) && multiset(s) == multiset(t)
    requires forall k :: 0 <= k < |s| ==> Proper(s[k])
    ensures s == t
  {
    PermutationMembers(s, t);
    PermutationMembers(t, s);
    if s != [] {
      forall k | 0 <= k < |t| ensures Proper(t[k]) {}
      SameHead(s, t);
      PermutationTail(s, t);
      SortedTail(s);
      SortedTail(t);
      SortIsUnique(s[1..], t[1..]);
      assert s == [s[0]] + s[1..] && t == [t[0]] + t[1..];
    }
  }

  // ---------------------------------------------------------------- normalisation keeps values

  lemma {:induction false} LastExplicitRun(s: seq<Level>, i: nat, m: nat)
    requires i < |s| && IsExplicit(s[i]) && i <= m <= LastExplicit(s, i)
    ensures IsExplicit(s[m])
    decreases |s| - i
  {
    if i < m { LastExplicitRun(s, i + 1, m); }
  }

  lemma {:induction false} OffsetReachedWitness(s: seq<Level>, k: nat) returns (j: nat)
    requires OffsetReached(s, k)
    ensures j < |s| && Offset(s[j]) >= k
  {
    j := 0;
    if Offset(s[0]) < k {
      j := OffsetReachedWitness(s[1..], k);
      j := j + 1;
    }
  }

  /** What the explicit-constant step drops is covered by what it keeps. */
  lemma StartCovers(s: seq<Level>, v: Assignment, m: nat) returns (j: nat)
    requires s != [] && Sorted(s) && (forall k :: 0 <= k < |s| ==> Proper(s[k]))
    requires m < |s|
    ensures Start(s) <= j < |s| && Value(s[m], v) <= Value(s[j], v)
  {
    j := m;
    if m < Start(s) {
      var i := LastExplicit(s, 0);
      LastExplicitRun(s, 0, m);
      LastExplicitRun(s, 0, i);
      if m < i { SortedFar(s, m, i); }
      OffsetValue(s[m], v);
      OffsetValue(s[i], v);
      j := i;
      if Start(s) == i + 1 {
        var n := OffsetReachedWitness(s[i + 1..], Offset(s[i]));
        j := i + 1 + n;
        OffsetValue(s[j], v);
      }
    }
  }

  /** What merging drops is covered by what it keeps. */
  lemma {:induction false} MergeCovers(last: Level, rest: seq<Level>, v: Assignment, i: nat) returns (j: nat)
    requires i <= |rest|
    ensures j < |Merge(last, rest)|
    ensures Value(if i == 0 then last else rest[i - 1], v) <= Value(Merge(last, rest)[j], v)
    decreases |rest|
  {
    j := 0;
    if rest != [] {
      OffsetValue(last, v);
      OffsetValue(rest[0], v);
      if Base(last) == Base(rest[0]) {
        var kept := if Offset(last) < Offset(rest[0]) then rest[0] else last;
        j := MergeCovers(kept, rest[1..], v, if i <= 1 then 0 else i - 1);
      } else if i > 0 {
        j := MergeCovers(rest[0], rest[1..], v, i - 1);
        j := j + 1;
      }
    }
  }

  /** Merging invents no level. */
  lemma {:induction false} MergeMembers(last: Level, rest: seq<Level>, i: nat)
    requires i < |Merge(last, rest)|
    ensures Merge(last, rest)[i] == last || Merge(last, rest)[i] in rest
    decreases |rest|
  {
    if rest != [] {
      if Base(last) == Base(rest[0]) {
        MergeMembers(if Offset(last) < Offset(rest[0]) then rest[0] else last, rest[1..], i);
      } else if i > 0 {
        MergeMembers(rest[0], rest[1..], i - 1);
      }
    }
  }

  lemma ReducedMembers(s: seq<Level>)
    requires s != []
    ensures forall i :: 0 <= i < |Reduced(s)| ==> Reduced(s)[i] in s
  {
    forall i | 0 <= i < |Reduced(s)| ensures Reduced(s)[i] in s {
      MergeMembers(s[Start(s)], s[Start(s) + 1..], i);
    }
  }

  lemma ReducedValue(s: seq<Level>, v: Assignment)
    requires s != [] && Sorted(s) && (forall k :: 0 <= k < |s| ==> Proper(s[k]))
    ensures MaxValue(Reduced(s), v) == MaxValue(s, v)
  {
    var r := Reduced(s);
    forall m | 0 <= m < |s|
      ensures exists j :: 0 <= j < |r| && Value(s[m], v) <= Value(r[j], v)
    {
      var i := StartCovers(s, v, m);
      var j := MergeCovers(s[Start(s)], s[Start(s) + 1..], v, i - Start(s));
    }
    CoveredMaxValue(r, s, v);
    ReducedMembers(s);
    CoveredMaxValue(s, r, v);
  }

  lemma SortValue(s: seq<Level>, v: Assignment)
    requires s != []
    ensures Sort(s) != [] && MaxValue(Sort(s), v) == MaxValue(s, v)
  {
    var t := Sort(s);
    SortMultiset(s);
    PermutationMembers(s, t);
    PermutationMembers(t, s);
    CoveredMaxValue(s, t, v);
    CoveredMaxValue(t, s, v);
  }

  lemma {:induction false} AddSuccsValue(s: seq<Level>, k: nat, v: Assignment)
    requires s != []
    ensures MaxValue(AddSuccs(s, k), v) == MaxValue(s, v) + k
  {
    SuccNValue(s[0], k, v);
    if |s| > 1 { AddSuccsValue(s[1..], k, v); }
  }

  ghost predicate AllProper(s: seq<Level>) { forall i :: 0 <= i < |s| ==> Proper(s[i]) }

  lemma {:induction false} ProperFlatten(l: Level)
    requires Proper(l)
    ensures AllProper(Flatten(l))
  {
    if l.Max? { ProperFlatten(l.a); ProperFlatten(l.b); }
  }

  lemma {:induction false} ProperSuccN(l: Level, k: nat)
    requires Proper(l)
    ensures Proper(SuccN(l, k))
  {
    if k > 0 { ProperSuccN(l, k - 1); }
  }

  lemma ProperMkIMaxS(a: Level, b: Level)
    requires Proper(a) && Proper(b)
    ensures Proper(MkMaxS(a, b)) && Proper(MkIMaxS(a, b))
  {
  }

  lemma {:induction false} ProperMaxList(s: seq<Level>)
    requires s != [] && AllProper(s)
    ensures Proper(MkMaxList(s))
  {
    if |s| > 1 { ProperMaxList(s[1..]); }
  }

  lemma ProperReduced(args: seq<Level>, k: nat)
    requires args != [] && AllProper(args)
    ensures Sort(args) != [] && Proper(MkMaxList(AddSuccs(Reduced(Sort(args)), k)))
  {
    var s := Sort(args);
    SortSorted(args);
    SortMultiset(args);
    PermutationMembers(args, s);
    var r := Reduced(s);
    ReducedMembers(s);
    forall i | 0 <= i < |r| ensures Proper(SuccN(r[i], k)) {
      var j :| 0 <= j < |s| && s[j] == r[i];
      ProperSuccN(r[i], k);
    }
    ProperMaxList(AddSuccs(r, k));
  }

  lemma {:induction false} ProperNormalize(l: Level)
    requires Proper(l)
    ensures Proper(Normalize(l))
    decreases l, 2
  {
    var r, k := Base(l), Offset(l);
    ProperBase(l);
    if r.IMax? {
      ProperNormalize(r.a);
      ProperNormalize(r.b);
      ProperMkIMaxS(Normalize(r.a), Normalize(r.b));
      ProperSuccN(MkIMaxS(Normalize(r.a), Normalize(r.b)), k);
    } else if r.Max? {
      ProperNormalArgs(r);
      ProperReduced(NormalArgs(r), k);
    }
  }

  lemma {:induction false} ProperNormalArgs(r: Level)
    requires Proper(r)
    ensures AllProper(NormalArgs(r))
    decreases r, if r.Max? then 1 else 3
  {
    if r.Max? {
      ProperNormalArgs(r.a);
      ProperNormalArgs(r.b);
    } else {
      ProperNormalize(r);
      ProperFlatten(Normalize(r));
    }
  }

  /** Normalisation keeps the value of a level under every assignment. */
  lemma {:induction false} NormalizeValue(l: Level, v: Assignment)
    requires Proper(l)
    ensures Value(Normalize(l), v) == Value(l, v)
    decreases l, 2
  {
    var r, k := Base(l), Offset(l);
    ProperBase(l);
    OffsetValue(l, v);
    if r.IMax? {
      NormalizeValue(r.a, v);
      NormalizeValue(r.b, v);
      MkIMaxSValue(Normalize(r.a), Normalize(r.b), v);
      SuccNValue(MkIMaxS(Normalize(r.a), Normalize(r.b)), k, v);
    } else if r.Max? {
      NormalArgsValue(r, v);
      ProperNormalArgs(r);
      SortSorted(NormalArgs(r));
      SortValue(NormalArgs(r), v);
      var s := Sort(NormalArgs(r));
      ReducedValue(s, v);
      AddSuccsValue(Reduced(s), k, v);
      MkMaxListValue(AddSuccs(Reduced(s), k), v);
    }
  }

  lemma {:induction false} NormalArgsValue(r: Level, v: Assignment)
    requires Proper(r)
    ensures MaxValue(NormalArgs(r), v) == Value(r, v)
    decreases r, if r.Max? then 1 else 3
  {
    if r.Max? {
      NormalArgsValue(r.a, v);
      NormalArgsValue(r.b, v);
      MaxValueAppend(NormalArgs(r.a), NormalArgs(r.b), v);
    } else {
      NormalizeValue(r, v);
      FlattenValue(Normalize(r), v);
    }
  }

  /** Levels the checker calls equivalent agree under every assignment. */
  lemma EquivalentSound(a: Level, b: Level, v: Assignment)
    requires Proper(a) && Proper(b) && IsEquivalent(a, b)
    ensures Value(a, v) == Value(b, v)
  {
    NormalizeValue(a, v);
    NormalizeValue(b, v);
  }

  // ---------------------------------------------------------------- zero and never zero

  /** Never zero means positive under every assignment. */
  lemma {:induction false} NeverZeroExactly(l: Level)
    ensures IsNeverZero(l) <==> forall v: Assignment :: Value(l, v) > 0
  {
    if IsNeverZero(l) {
      forall v: Assignment ensures Value(l, v) > 0 { NeverZeroPositive(l, v); }
    } else {
      ZeroAtZero(l, p => 0);
    }
  }

  lemma {:induction false} ZeroAtZero(l: Level, z: Assignment)
    requires !IsNeverZero(l) && forall p :: z(p) == 0
    ensures Value(l, z) == 0
  {
    match l
    case Max(a, b) => ZeroAtZero(a, z); ZeroAtZero(b, z);
    case IMax(_, b) => ZeroAtZero(b, z);
    case _ =>
  }

  lemma {:induction false} ZeroLevelValue(l: Level, v: Assignment)
    ensures IsZeroLevel(l) ==> Value(l, v) == 0
    ensures !IsZeroLevel(l) && (forall p :: v(p) > 0) ==> Value(l, v) > 0
  {
    match l
    case Max(a, b) => ZeroLevelValue(a, v); ZeroLevelValue(b, v);
    case IMax(_, b) => ZeroLevelValue(b, v);
    case _ =>
  }

  lemma {:induction false} ZeroArgsReduce(s: seq<Level>)
    requires s != [] && forall i :: 0 <= i < |s| ==> s[i] == Zero
    ensures MkMaxList(AddSuccs(Reduced(s), 0)) == Zero
  {
    var st := Start(s);
    ZeroMerge(s[st + 1..]);
    assert Reduced(s) == [Zero];
    assert AddSuccs([Zero], 0) == [Zero];
  }

  lemma {:induction false} ZeroMerge(rest: seq<Level>)
    requires forall i :: 0 <= i < |rest| ==> rest[i] == Zero
    ensures Merge(Zero, rest) == [Zero]
  {
    if rest != [] { ZeroMerge(rest[1..]); }
  }

  lemma {:induction false} ZeroLevelNormalizes(l: Level)
    requires IsZeroLevel(l)
    ensures Normalize(l) == Zero
    decreases l, 2
  {
    if l.Max? {
      ZeroLevelArgs(l);
      var s := NormalArgs(l);
      SortMultiset(s);
      PermutationMembers(Sort(s), s);
      PermutationMembers(s, Sort(s));
      ZeroArgsReduce(Sort(s));
    } else if l.IMax? {
      ZeroLevelNormalizes(l.b);
    }
  }

  lemma {:induction false} ZeroLevelArgs(l: Level)
    requires IsZeroLevel(l)
    ensures forall i :: 0 <= i < |NormalArgs(l)| ==> NormalArgs(l)[i] == Zero
    decreases l, if l.Max? then 1 else 3
  {
    if l.Max? {
      ZeroLevelArgs(l.a);
      ZeroLevelArgs(l.b);
    } else {
      ZeroLevelNormalizes(l);
    }
  }

  /** The direct zero test, being zero everywhere, and normalising to zero are the same thing. */
  lemma ZeroLevelExactly(l: Level)
    requires Proper(l)
    ensures IsZeroLevel(l) <==> forall v: Assignment :: Value(l, v) == 0
    ensures IsZeroLevel(l) <==> Normalize(l) == Zero
  {
    forall v: Assignment | IsZeroLevel(l) ensures Value(l, v) == 0 { ZeroLevelValue(l, v); }
    var one: Assignment := p => 1;
    ZeroLevelValue(l, one);
    NormalizeValue(l, one);
    if IsZeroLevel(l) { ZeroLevelNormalizes(l); }
  }

  // ---------------------------------------------------------------- comparison

  /** The measure comparison descends by: a successor doubles it. */
  function Weight(l: Level): (w: nat)
    ensures w >= 2
  {
    match l
    case Zero => 2
    case Param(_) => 2
    case Succ(a) => 2 * Weight(a)
    case Max(a, b) => Weight(a) + Weight(b)
    case IMax(a, b) => Weight(a) + Weight(b)
  }

  ghost function Doubled(x: nat, k: nat): nat {
    if k == 0 then x else 2 * Doubled(x, k - 1)
  }

  ghost function TotalWeight(s: seq<Level>): nat {
    if s == [] then 0 else Weight(s[0]) + TotalWeight(s[1..])
  }

  lemma {:induction false} SuccNWeight(l: Level, k: nat)
    ensures Weight(SuccN(l, k)) == Doubled(Weight(l), k)
  {
    if k > 0 { SuccNWeight(l, k - 1); }
  }

  lemma {:induction false} DoubledLinear(x: nat, y: nat, k: nat)
    ensures Doubled(x + y, k) == Doubled(x, k) + Doubled(y, k)
    ensures x <= y ==> Doubled(x, k) <= Doubled(y, k)
    ensures Doubled(x, k) >= x
    ensures Doubled(0, k) == 0
  {
    if k > 0 { DoubledLinear(x, y, k - 1); }
  }

  lemma {:induction false} TotalWeightAppend(s: seq<Level>, t: seq<Level>)
    ensures TotalWeight(s + t) == TotalWeight(s) + TotalWeight(t)
  {
    if s == [] {
      assert s + t == t;
    } else {
      assert (s + t)[1..] == s[1..] + t;
      TotalWeightAppend(s[1..], t);
    }
  }

  lemma {:induction false} FlattenWeight(l: Level)
    ensures TotalWeight(Flatten(l)) == Weight(l)
  {
    if l.Max? {
      FlattenWeight(l.a);
      FlattenWeight(l.b);
      TotalWeightAppend(Flatten(l.a), Flatten(l.b));
    }
  }

  lemma {:induction false} SortWeight(s: seq<Level>)
    ensures TotalWeight(Sort(s)) == TotalWeight(s)
  {
    if s != [] {
      SortWeight(s[1..]);
      InsertWeight(s[0], Sort(s[1..]));
    }
  }

  lemma {:induction false} InsertWeight(x: Level, s: seq<Level>)
    ensures TotalWeight(Insert(x, s)) == Weight(x) + TotalWeight(s)
  {
    if s == [] || IsNormLt(x, s[0]) {
      assert ([x] + s)[1..] == s;
    } else {
      InsertWeight(x, s[1..]);
      assert ([s[0]] + Insert(x, s[1..]))[1..] == Insert(x, s[1..]);
    }
  }

  lemma {:induction false} MergeWeight(last: Level, rest: seq<Level>)
    ensures TotalWeight(Merge(last, rest)) <= Weight(last) + TotalWeight(rest)
    decreases |rest|
  {
    if rest != [] {
      if Base(last) == Base(rest[0]) {
        MergeWeight(if Offset(last) < Offset(rest[0]) then rest[0] else last, rest[1..]);
      } else {
        MergeWeight(rest[0], rest[1..]);
        assert ([last] + Merge(rest[0], rest[1..]))[1..] == Merge(rest[0], rest[1..]);
      }
    }
  }

  lemma {:induction false} AddSuccsWeight(s: seq<Level>, k: nat)
    ensures TotalWeight(AddSuccs(s, k)) == Doubled(TotalWeight(s), k)
  {
    if s == [] {
      DoubledLinear(0, 0, k);
    } else {
      AddSuccsWeight(s[1..], k);
      SuccNWeight(s[0], k);
      DoubledLinear(Weight(s[0]), TotalWeight(s[1..]), k);
      assert AddSuccs(s, k)[1..] == AddSuccs(s[1..], k);
    }
  }

  lemma {:induction false} MkMaxListWeight(s: seq<Level>)
    requires s != []
    ensures Weight(MkMaxList(s)) <= TotalWeight(s)
  {
    if |s| > 1 { MkMaxListWeight(s[1..]); }
  }

  lemma ReducedWeight(s: seq<Level>)
    requires s != []
    ensures TotalWeight(Reduced(s)) <= TotalWeight(s)
  {
    var st := Start(s);
    MergeWeight(s[st], s[st + 1..]);
    TotalWeightAppend(s[..st], s[st..]);
    assert s[..st] + s[st..] == s;
    assert s[st..][1..] == s[st + 1..];
  }

  lemma RebuiltWeight(s: seq<Level>, w: nat, k: nat)
    requires s != [] && TotalWeight(s) <= w
    ensures AddSuccs(Reduced(s), k) != [] && Weight(MkMaxList(AddSuccs(Reduced(s), k))) <= Doubled(w, k)
  {
    ReducedWeight(s);
    AddSuccsWeight(Reduced(s), k);
    DoubledLinear(TotalWeight(Reduced(s)), w, k);
    MkMaxListWeight(AddSuccs(Reduced(s), k));
  }

  lemma NormalMaxWeight(r: Level, k: nat)
    requires r.Max? && TotalWeight(NormalArgs(r)) <= Weight(r)
    ensures AddSuccs(Reduced(Sort(NormalArgs(r))), k) != []
    ensures Weight(MkMaxList(AddSuccs(Reduced(Sort(NormalArgs(r))), k))) <= Doubled(Weight(r), k)
  {
    SortWeight(NormalArgs(r));
    SortMultiset(NormalArgs(r));
    PermutationMembers(NormalArgs(r), Sort(NormalArgs(r)));
    RebuiltWeight(Sort(NormalArgs(r)), Weight(r), k);
  }

  lemma MkMaxSWeight(a: Level, b: Level)
    ensures Weight(MkMaxS(a, b)) <= Weight(Max(a, b))
  {
  }

  lemma MkIMaxSWeight(a: Level, b: Level)
    ensures Weight(MkIMaxS(a, b)) <= Weight(IMax(a, b))
  {
    MkMaxSWeight(a, b);
  }

  /** A lifted impredicative maximum of levels no heavier than a and b. */
  lemma LiftedIMaxWeight(x: Level, y: Level, a: Level, b: Level, k: nat)
    requires Weight(x) <= Weight(a) && Weight(y) <= Weight(b)
    ensures Weight(SuccN(MkIMaxS(x, y), k)) <= Doubled(Weight(IMax(a, b)), k)
  {
    MkIMaxSWeight(x, y);
    SuccNWeight(MkIMaxS(x, y), k);
    DoubledLinear(Weight(MkIMaxS(x, y)), Weight(IMax(a, b)), k);
  }

  /** Normalisation can enlarge a level, but never its weight. */
  lemma {:induction false} NormalizeWeight(l: Level)
    ensures Weight(Normalize(l)) <= Weight(l)
    decreases l, 2
  {
    var r, k := Base(l), Offset(l);
    SuccNWeight(r, k);
    if r.IMax? {
      NormalizeWeight(r.a);
      NormalizeWeight(r.b);
      LiftedIMaxWeight(Normalize(r.a), Normalize(r.b), r.a, r.b, k);
    } else if r.Max? {
      NormalArgsWeight(r);
      NormalMaxWeight(r, k);
    }
  }

  lemma {:induction false} NormalArgsWeight(r: Level)
    ensures TotalWeight(NormalArgs(r)) <= Weight(r)
    decreases r, if r.Max? then 1 else 3
  {
    if r.Max? {
      NormalArgsWeight(r.a);
      NormalArgsWeight(r.b);
      TotalWeightAppend(NormalArgs(r.a), NormalArgs(r.b));
    } else {
      NormalizeWeight(r);
      FlattenWeight(Normalize(r));
    }
  }

  lemma OffsetWeight(l: Level)
    ensures Weight(Base(l)) <= Weight(l)
    ensures Offset(l) > 0 ==> Weight(Base(l)) < Weight(l)
  {
    SuccNWeight(Base(l), Offset(l));
    if Offset(l) > 0 { DoubledLinear(Weight(Base(l)), 0, Offset(l) - 1); }
  }

  /** Comparison normalises its arguments again at every call; the weights show that it terminates. */
  predicate IsGeq(a: Level, b: Level)
    decreases Weight(a) + Weight(b), 1
  {
    NormalizeWeight(a);
    NormalizeWeight(b);
    IsGeqCore(Normalize(a), Normalize(b))
  }

  predicate IsGeqCore(l1: Level, l2: Level)
    decreases Weight(l1) + Weight(l2), 0
  {
    if l1 == l2 || l2.Zero? then true
    else if l2.Max? then IsGeq(l1, l2.a) && IsGeq(l1, l2.b)
    else if l1.Max? && (IsGeq(l1.a, l2) || IsGeq(l1.b, l2)) then true
    else if l2.IMax? then IsGeq(l1, l2.a) && IsGeq(l1, l2.b)
    else if l1.IMax? then IsGeq(l1.b, l2)
    else if Base(l1) == Base(l2) || Base(l2).Zero? then Offset(l1) >= Offset(l2)
    else if Offset(l1) == Offset(l2) && Offset(l1) > 0 then
      OffsetWeight(l1);
      OffsetWeight(l2);
      IsGeq(Base(l1), Base(l2))
    else false
  }

  /** A level the checker calls at least another one is at least it under every assignment. */
  lemma {:induction false} GeqSound(a: Level, b: Level, v: Assignment)
    requires Proper(a) && Proper(b) && IsGeq(a, b)
    ensures Value(a, v) >= Value(b, v)
    decreases Weight(a) + Weight(b), 1
  {
    NormalizeWeight(a);
    NormalizeWeight(b);
    ProperNormalize(a);
    ProperNormalize(b);
    NormalizeValue(a, v);
    NormalizeValue(b, v);
    GeqCoreSound(Normalize(a), Normalize(b), v);
  }

  lemma {:induction false} GeqCoreSound(l1: Level, l2: Level, v: Assignment)
    requires Proper(l1) && Proper(l2) && IsGeqCore(l1, l2)
    ensures Value(l1, v) >= Value(l2, v)
    decreases Weight(l1) + Weight(l2), 0
  {
    if l1 == l2 || l2.Zero? {
    } else if l2.Max? {
      GeqSound(l1, l2.a, v);
      GeqSound(l1, l2.b, v);
    } else if l1.Max? && IsGeq(l1.a, l2) {
      GeqSound(l1.a, l2, v);
    } else if l1.Max? && IsGeq(l1.b, l2) {
      GeqSound(l1.b, l2, v);
    } else if l2.IMax? {
      GeqSound(l1, l2.a, v);
      GeqSound(l1, l2.b, v);
    } else if l1.IMax? {
      GeqSound(l1.b, l2, v);
    } else {
      OffsetValue(l1, v);
      OffsetValue(l2, v);
      if !(Base(l1) == Base(l2) || Base(l2).Zero?) {
        OffsetWeight(l1);
        OffsetWeight(l2);
        ProperBase(l1);
        ProperBase(l2);
        GeqSound(Base(l1), Base(l2), v);
      }
    }
  }

  // ---------------------------------------------------------------- instantiation

  /** The assignment a substitution for parameters amounts to. */
  ghost function Through(ps: seq<Name>, ls: seq<Level>, v: Assignment): Assignment
    requires |ps| == |ls|
  {
    p => Value(InstParam(p, ps, ls), v)
  }

  lemma {:induction false} SameValue(l: Level, v: Assignment, w: Assignment)
    requires (forall p {:trigger v(p)} :: v(p) == w(p)) || !HasParam(l)
    ensures Value(l, v) == Value(l, w)
  {
    match l
    case Succ(a) => SameValue(a, v, w);
    case Max(a, b) => SameValue(a, v, w); SameValue(b, v, w);
    case IMax(a, b) => SameValue(a, v, w); SameValue(b, v, w);
    case _ =>
  }

  /** Instantiating parameters, simplifications included, is evaluation under the composed assignment. */
  lemma {:induction false} InstLevelValue(l: Level, ps: seq<Name>, ls: seq<Level>, v: Assignment)
    requires |ps| == |ls|
    ensures Value(InstLevel(l, ps, ls), v) == Value(l, Through(ps, ls, v))
  {
    if !HasParam(l) {
      SameValue(l, v, Through(ps, ls, v));
    } else {
      match l
      case Succ(a) => InstLevelValue(a, ps, ls, v);
      case Max(a, b) =>
        InstLevelValue(a, ps, ls, v);
        InstLevelValue(b, ps, ls, v);
        MkMaxSValue(InstLevel(a, ps, ls), InstLevel(b, ps, ls), v);
      case IMax(a, b) =>
        InstLevelValue(a, ps, ls, v);
        InstLevelValue(b, ps, ls, v);
        MkIMaxSValue(InstLevel(a, ps, ls), InstLevel(b, ps, ls), v);
      case _ =>
    }
  }

  // ---------------------------------------------------------------- the memoised normaliser

  ghost function NormalAll(todo: seq<Level>): seq<Level> {
    if todo == [] then [] else NormalAll(todo[..|todo| - 1]) + Flatten(Normalize(todo[|todo| - 1]))
  }

  lemma {:induction false} NormalAllAppend(s: seq<Level>, t: seq<Level>)
    ensures NormalAll(s + t) == NormalAll(s) + NormalAll(t)
  {
    if t == [] {
      assert s + t == s;
    } else {
      assert (s + t)[..|s + t| - 1] == s + t[..|t| - 1];
      NormalAllAppend(s, t[..|t| - 1]);
    }
  }

  lemma {:induction false} NormalAllFlatten(r: Level)
    ensures NormalAll(Flatten(r)) == NormalArgs(r)
  {
    if r.Max? {
      NormalAllFlatten(r.a);
      NormalAllFlatten(r.b);
      NormalAllAppend(Flatten(r.a), Flatten(r.b));
    } else {
      assert [r][..0] == [];
    }
  }

  lemma {:induction false} FlattenSmaller(r: Level, i: nat)
    requires i < |Flatten(r)|
    ensures Flatten(r)[i] == r || Flatten(r)[i] < r
    ensures r.Max? ==> Flatten(r)[i] < r
    ensures !Flatten(r)[i].Max?
  {
    if r.Max? {
      if i < |Flatten(r.a)| { FlattenSmaller(r.a, i); } else { FlattenSmaller(r.b, i - |Flatten(r.a)|); }
    }
  }

  /** Normalisation as the source runs it: memoised by level, the `Max` case in place on vectors. */
  class Normalizer {
    var memo: map<Level, Level>

    ghost predicate Valid()
      reads this
    {
      forall l :: l in memo ==> memo[l] == Normalize(l)
    }

    constructor ()
      ensures Valid()
    {
      memo := map[];
    }

    method Run(l: Level) returns (r: Level)
      requires Valid()
      modifies this
      ensures Valid() && r == Normalize(l)
      ensures l in memo && old(memo).Keys <= memo.Keys
      decreases l, 2
    {
      if l in memo { return memo[l]; }
      r := Core(l);
      memo := memo[l := r];
    }

    method Core(l: Level) returns (r: Level)
      requires Valid()
      modifies this
      ensures Valid() && r == Normalize(l)
      ensures old(memo).Keys <= memo.Keys
      decreases l, 1
    {
      var (base, k) := ToOffset(l);
      match base
      case IMax(a, b) =>
        var l1 := Run(a);
        var l2 := Run(b);
        r := SuccN(MkIMaxS(l1, l2), k);
      case Max(_, _) =>
        var args := CollectArgs(base);
        SortMultiset(args);
        PermutationMembers(args, Sort(args));
        var start := FindStart(Sort(args));
        var rargs := MergeFrom(Sort(args), start);
        r := Rebuild(rargs, k);
      case _ => r := l;
    }

    /** Flatten the maximum, normalise each argument, and flatten the results. */
    method CollectArgs(base: Level) returns (args: seq<Level>)
      requires Valid() && base.Max?
      modifies this
      ensures Valid() && args == NormalArgs(base)
      ensures old(memo).Keys <= memo.Keys
      decreases base, 0
    {
      var todo := Flatten(base);
      args := [];
      var i := 0;
      while i < |todo|
        invariant i <= |todo| && Valid() && old(memo).Keys <= memo.Keys
        invariant args == NormalAll(todo[..i])
      {
        FlattenSmaller(base, i);
        var n := Run(todo[i]);
        args := args + Flatten(n);
        assert todo[..i + 1][..i] == todo[..i];
        i := i + 1;
      }
      assert todo[..i] == todo;
      NormalAllFlatten(base);
    }

    /** Skip the explicit levels that a larger constant, or a later offset, covers. */
    static method FindStart(args: seq<Level>) returns (i: nat)
      requires args != []
      ensures i == Start(args)
    {
      i := 0;
      if IsExplicit(args[i]) {
        while i + 1 < |args| && IsExplicit(args[i + 1])
          invariant i < |args| && LastExplicit(args, i) == LastExplicit(args, 0)
        {
          i := i + 1;
        }
        var k := Offset(args[i]);
        var j := i + 1;
        while j < |args| && Offset(args[j]) < k
          invariant i < j <= |args|
          invariant OffsetReached(args[j..], k) == OffsetReached(args[i + 1..], k)
        {
          assert args[j..][1..] == args[j + 1..];
          j := j + 1;
        }
        if j < |args| { i := i + 1; }
      }
    }

    /** Walk the sorted arguments, keeping one level per base. */
    static method MergeFrom(args: seq<Level>, start: nat) returns (rargs: seq<Level>)
      requires start < |args|
      ensures rargs == Merge(args[start], args[start + 1..])
    {
      rargs := [args[start]];
      var i := start + 1;
      while i < |args|
        invariant start < i <= |args| && rargs != []
        invariant Merge(args[start], args[start + 1..]) == rargs[..|rargs| - 1] + Merge(rargs[|rargs| - 1], args[i..])
      {
        var prev := rargs[|rargs| - 1];
        assert args[i..][1..] == args[i + 1..];
        if Base(prev) == Base(args[i]) {
          if Offset(prev) < Offset(args[i]) {
            rargs := rargs[|rargs| - 1 := args[i]];
          }
        } else {
          rargs := rargs + [args[i]];
        }
        i := i + 1;
      }
    }

    /** Successors pushed into the arguments, which are then folded into one maximum from the right. */
    static method Rebuild(rargs: seq<Level>, k: nat) returns (r: Level)
      requires rargs != []
      ensures r == MkMaxList(AddSuccs(rargs, k))
    {
      var args := seq(|rargs|, i requires 0 <= i < |rargs| => SuccN(rargs[i], k));
      assert args == AddSuccs(rargs, k);
      r := args[|args| - 1];
      var i := |args| - 1;
      while i > 0
        invariant 0 <= i < |args| && r == MkMaxList(args[i..])
      {
        i := i - 1;
        assert args[i..][1..] == args[i + 1..];
        r := MkMaxS(args[i], r);
      }
      assert args[0..] == args;
    }
  }
}
