// Names of auxiliary types (src/inductive.cpp): a base name with a running index is never used twice.
module NestedNames {
  import opened Names
  import opened NestedModel

  function Digit(d: nat): char
    requires d < 10
  {
    '0' + d as char
  }

  function Decimal(n: nat): (s: string)
    ensures s != []
  {
    if n < 10 then [Digit(n)] else Decimal(n / 10) + [Digit(n % 10)]
  }

  function Dotted(n: Name): string {
    match n
    case Anonymous => "[anonymous]"
    case Str(p, s) => (if p.Anonymous? then "" else Dotted(p) + ".") + s
    case Num(p, k) => (if p.Anonymous? then "" else Dotted(p) + ".") + Decimal(k)
  }

  /** The last component is followed by the index; a number gets a component of its own below it. */
  function AppendIndex(n: Name, i: nat): Name {
    match n
    case Anonymous => Str(Anonymous, "_" + Decimal(i))
    case Str(p, s) => Str(p, s + "_" + Decimal(i))
    case Num(_, _) => Num(n, i)
  }

  /** The name's components below a reserved root. */
  function Under(n: Name): Name {
    match n
    case Anonymous => NESTED
    case Str(p, s) => Str(Under(p), s)
    case Num(p, k) => Num(Under(p), k)
  }

  lemma {:induction false} UnderReserved(n: Name)
    ensures Reserved(Under(n))
    ensures n != Anonymous ==> Under(n).parent == Under(n.parent)
  {
    if !n.Anonymous? { UnderReserved(n.parent); }
  }

  lemma AppendReserved(n: Name, i: nat)
    requires n != Anonymous
    ensures Reserved(AppendIndex(Under(n), i))
  {
    UnderReserved(n);
    UnderReserved(n.parent);
  }

  lemma {:induction false} SuffixIndex(a: string, i: nat, b: string, j: nat)
    requires a + "_" + Decimal(i) == b + "_" + Decimal(j)
    ensures i == j
  {
    var x, y := a + "_" + Decimal(i), b + "_" + Decimal(j);
    assert x[|x| - 1] == Digit(i % 10) && y[|y| - 1] == Digit(j % 10);
    var x', y' := x[..|x| - 1], y[..|y| - 1];
    if i < 10 {
      assert x' == a + "_" && x'[|x'| - 1] == '_';
    } else {
      assert x' == a + "_" + Decimal(i / 10) && x'[|x'| - 1] == Digit(i / 10 % 10);
    }
    if j < 10 {
      assert y' == b + "_" && y'[|y'| - 1] == '_';
    } else {
      assert y' == b + "_" + Decimal(j / 10) && y'[|y'| - 1] == Digit(j / 10 % 10);
    }
    if i >= 10 && j >= 10 { SuffixIndex(a, i / 10, b, j / 10); }
  }

  /** Equal indexed names carry the same index, whatever their bases. */
  lemma AppendInjective(m: Name, i: nat, n: Name, j: nat)
    requires AppendIndex(m, i) == AppendIndex(n, j)
    ensures i == j
  {
    if !m.Num? {
      var a, b := if m.Str? then m.s else "", if n.Str? then n.s else "";
      assert "" + "_" + Decimal(i) == "_" + Decimal(i) && "" + "_" + Decimal(j) == "_" + Decimal(j);
      SuffixIndex(a, i, b, j);
    }
  }

  /** A recursor's name is not an indexed one. */
  lemma AppendNotRec(m: Name, i: nat, a: Name)
    ensures AppendIndex(m, i) != Str(a, "rec")
  {
    if !m.Num? {
      var s := (if m.Str? then m.s else "") + "_" + Decimal(i);
      assert "" + "_" + Decimal(i) == "_" + Decimal(i);
      assert s[|s| - 1] == Digit(i % 10);
      assert "rec"[2] == 'c';
    }
  }

  /** The name has an index below the bound. */
  ghost predicate Indexed(a: Name, bound: nat) { exists m: Name, i: nat {:trigger AppendIndex(m, i)} :: i < bound && a == AppendIndex(m, i) }

  lemma IndexNew(a: Name, m: Name, i: nat)
    requires Indexed(a, i)
    ensures a != AppendIndex(m, i)
  {
    var n: Name, j: nat :| j < i && a == AppendIndex(n, j);
    if a == AppendIndex(m, i) { AppendInjective(n, j, m, i); }
  }

  lemma {:induction false} SubsetSize<A>(a: set<A>, b: set<A>)
    requires a <= b
    ensures |a| <= |b|
  {
    if a != {} {
      var x :| x in a;
      SubsetSize(a - {x}, b - {x});
    }
  }

  /** A name more was tried, and is a declared one: fewer declared names are left. */
  lemma FewerLeft(D: set<Name>, tried: set<Name>, r: Name)
    requires r in D && r !in tried
    ensures |D - (tried + {r})| < |D - tried|
  {
    assert D - tried == (D - (tried + {r})) + {r};
  }

  /** Indices below start are not used again once the counter has passed them. */
  lemma IndexedStay(r: Name, base: Name, i: nat, start: nat, a: Name)
    requires r == AppendIndex(base, i) && start <= i && Indexed(a, start)
    ensures a != r && Indexed(a, i + 1)
  {
    var m: Name, j: nat :| j < start && a == AppendIndex(m, j);
    assert Indexed(a, i);
    IndexNew(a, base, i);
  }

  ghost predicate AllIndexed(names: set<Name>, bound: nat) { forall a {:trigger a in names} :: a in names ==> Indexed(a, bound) }

  lemma TriedNew(tried: set<Name>, base: Name, i: nat)
    requires AllIndexed(tried, i)
    ensures AppendIndex(base, i) !in tried && AllIndexed(tried + {AppendIndex(base, i)}, i + 1)
  {
    var r := AppendIndex(base, i);
    if r in tried { IndexNew(r, base, i); }
    forall a | a in tried + {r} ensures Indexed(a, i + 1) {
      if a in tried { IndexedStay(r, base, i, i, a); }
    }
  }

  /** Every name indexed below start is another one than the name just indexed. */
  ghost predicate NewFor(r: Name, start: nat, bound: nat) {
    forall a {:trigger Indexed(a, start)} :: Indexed(a, start) ==> a != r && Indexed(a, bound)
  }

  lemma NewName(base: Name, i: nat, start: nat)
    requires start <= i
    ensures NewFor(AppendIndex(base, i), start, i + 1)
  {
    var r := AppendIndex(base, i);
    forall a | Indexed(a, start) ensures a != r && Indexed(a, i + 1) { IndexedStay(r, base, i, start, a); }
  }

  /** An indexed name that no declaration has; indices only grow. */
  method Unique(D: map<Name, Info>, base: Name, next: nat) returns (r: Name, after: nat)
    ensures r !in D && next < after && r == AppendIndex(base, after - 1)
    ensures NewFor(r, next, after)
  {
    ghost var tried: set<Name> := {};
    var i := next;
    r := AppendIndex(base, i);
    while r in D
      invariant next <= i && r == AppendIndex(base, i)
      invariant AllIndexed(tried, i)
      decreases |D.Keys - tried|
    {
      TriedNew(tried, base, i);
      FewerLeft(D.Keys, tried, r);
      tried := tried + {r};
      i := i + 1;
      r := AppendIndex(base, i);
    }
    after := i + 1;
    NewName(base, i, next);
  }
}
