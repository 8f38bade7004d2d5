// Hierarchical names and the order that level normalisation sorts parameters by (src/name.cpp).
module Names {

  /** The root is the anonymous name; every other name adds one component to its parent. */
  datatype Name = Anonymous | Str(parent: Name, s: string) | Num(parent: Name, n: nat)

  /** The last component of a name, detached from its parent. */
  datatype Component = StrPart(s: string) | NumPart(n: nat)

  function Components(a: Name): seq<Component> {
    match a
    case Anonymous => []
    case Str(p, s) => Components(p) + [StrPart(s)]
    case Num(p, n) => Components(p) + [NumPart(n)]
  }

  // The names the evaluation engines know about.
  const NAT := Str(Anonymous, "Nat")
  const NAT_ZERO := Str(NAT, "zero")
  const NAT_SUCC := Str(NAT, "succ")
  const BOOL_TRUE := Str(Str(Anonymous, "Bool"), "true")
  const BOOL_FALSE := Str(Str(Anonymous, "Bool"), "false")
  const QUOT := Str(Anonymous, "Quot")
  const QUOT_MK := Str(QUOT, "mk")
  const QUOT_LIFT := Str(QUOT, "lift")
  const QUOT_IND := Str(QUOT, "ind")
  const CHAR := Str(Anonymous, "Char")
  const CHAR_OF_NAT := Str(CHAR, "ofNat")
  const LIST_NIL := Str(Str(Anonymous, "List"), "nil")
  const LIST_CONS := Str(Str(Anonymous, "List"), "cons")
  const STRING_OF_LIST := Str(Str(Anonymous, "String"), "ofList")

  /** Byte-string order: lexicographic, a proper prefix first. */
  predicate StringLt(a: string, b: string) {
    b != [] && (a == [] || a[0] < b[0] || (a[0] == b[0] && StringLt(a[1..], b[1..])))
  }

  /** Numbers before strings; numbers and strings by their own orders. */
  predicate ComponentLt(x: Component, y: Component) {
    match (x, y)
    case (NumPart(m), NumPart(n)) => m < n
    case (NumPart(_), StrPart(_)) => true
    case (StrPart(_), NumPart(_)) => false
    case (StrPart(s), StrPart(t)) => StringLt(s, t)
  }

  /** Component lists compared from the root; a proper prefix comes first. */
  predicate ComponentsLt(a: seq<Component>, b: seq<Component>) {
    b != [] && (a == [] || ComponentLt(a[0], b[0]) || (a[0] == b[0] && ComponentsLt(a[1..], b[1..])))
  }

  /** A name as the table stores it: the anonymous name's node reads as an empty string under the root. */
  function Parent(a: Name): Name {
    if a.Anonymous? then Anonymous else a.parent
  }

  function LastPart(a: Name): Component {
    match a
    case Anonymous => StrPart("")
    case Str(_, s) => StrPart(s)
    case Num(_, n) => NumPart(n)
  }

  /** The table's comparison: names under one parent are decided by their last components alone. */
  predicate Lt(a: Name, b: Name) {
    if a == b then false
    else if Parent(a) == Parent(b) then ComponentLt(LastPart(a), LastPart(b))
    else ComponentsLt(Components(a), Components(b))
  }

  lemma {:induction false} ComponentsInjective(a: Name, b: Name)
    requires Components(a) == Components(b)
    ensures a == b
  {
    var ca, cb := Components(a), Components(b);
    if !a.Anonymous? && !b.Anonymous? {
      assert ca[|ca| - 1] == LastPart(a) && cb[|cb| - 1] == LastPart(b);
      assert ca[..|ca| - 1] == Components(a.parent) && cb[..|cb| - 1] == Components(b.parent);
      ComponentsInjective(a.parent, b.parent);
    }
  }

  lemma {:induction false} StringLtTotal(a: string, b: string)
    ensures StringLt(a, b) || StringLt(b, a) || a == b
    ensures !(StringLt(a, b) && StringLt(b, a))
    ensures !StringLt(a, a)
  {
    if a != [] {
      StringLtTotal(a[1..], if b == [] then [] else b[1..]);
      if b != [] && a[0] == b[0] && a[1..] == b[1..] {
        assert a == [a[0]] + a[1..] && b == [b[0]] + b[1..];
      }
    }
  }

  lemma {:induction false} StringLtTransitive(a: string, b: string, c: string)
    requires StringLt(a, b) && StringLt(b, c)
    ensures StringLt(a, c)
  {
    if a != [] && a[0] == b[0] && b[0] == c[0] {
      StringLtTransitive(a[1..], b[1..], c[1..]);
    }
  }

  lemma ComponentLtStrict(x: Component, y: Component)
    ensures ComponentLt(x, y) || ComponentLt(y, x) || x == y
    ensures !(ComponentLt(x, y) && ComponentLt(y, x))
    ensures !ComponentLt(x, x)
  {
    if x.StrPart? {
      StringLtTotal(x.s, if y.StrPart? then y.s else x.s);
    }
  }

  lemma ComponentLtTransitive(x: Component, y: Component, z: Component)
    requires ComponentLt(x, y) && ComponentLt(y, z)
    ensures ComponentLt(x, z)
  {
    if x.StrPart? && y.StrPart? && z.StrPart? {
      StringLtTransitive(x.s, y.s, z.s);
    }
  }

  lemma {:induction false} ComponentsLtTotal(a: seq<Component>, b: seq<Component>)
    ensures ComponentsLt(a, b) || ComponentsLt(b, a) || a == b
    ensures !(ComponentsLt(a, b) && ComponentsLt(b, a))
    ensures !ComponentsLt(a, a)
  {
    if a != [] {
      ComponentLtStrict(a[0], if b == [] then a[0] else b[0]);
      ComponentsLtTotal(a[1..], if b == [] then [] else b[1..]);
      if b != [] && a[0] == b[0] && a[1..] == b[1..] {
        assert a == [a[0]] + a[1..] && b == [b[0]] + b[1..];
      }
    }
  }

  lemma {:induction false} ComponentsLtTransitive(a: seq<Component>, b: seq<Component>, c: seq<Component>)
    requires ComponentsLt(a, b) && ComponentsLt(b, c)
    ensures ComponentsLt(a, c)
  {
    if a != [] {
      ComponentLtStrict(a[0], b[0]);
      ComponentLtStrict(b[0], c[0]);
      if a[0] == b[0] && b[0] == c[0] {
        ComponentsLtTransitive(a[1..], b[1..], c[1..]);
      } else if a[0] != b[0] && b[0] != c[0] {
        ComponentLtTransitive(a[0], b[0], c[0]);
      }
    }
  }

  /** A common prefix does not matter to the lexicographic order. */
  lemma {:induction false} ComponentsLtPrefix(p: seq<Component>, x: seq<Component>, y: seq<Component>)
    ensures ComponentsLt(p + x, p + y) == ComponentsLt(x, y)
  {
    if p == [] {
      assert p + x == x && p + y == y;
    } else {
      ComponentLtStrict(p[0], p[0]);
      ComponentsLtPrefix(p[1..], x, y);
      assert (p + x)[1..] == p[1..] + x && (p + y)[1..] == p[1..] + y;
    }
  }

  /** On names other than the anonymous one the short cut decides what the full comparison decides. */
  lemma LtIsLexicographic(a: Name, b: Name)
    requires !a.Anonymous? && !b.Anonymous?
    ensures Lt(a, b) == ComponentsLt(Components(a), Components(b))
  {
    ComponentsLtTotal(Components(a), Components(b));
    if a.parent == b.parent {
      var x, y := LastPart(a), LastPart(b);
      ComponentsLtPrefix(Components(a.parent), [x], [y]);
      assert ComponentsLt([x], [y]) == ComponentLt(x, y) by {
        assert [x][1..] == [] && [y][1..] == [];
      }
      ComponentLtStrict(x, y);
    }
  }

  /** The table's order is a strict total order on names other than the anonymous one. */
  lemma LtStrictTotal(a: Name, b: Name, c: Name)
    requires !a.Anonymous? && !b.Anonymous? && !c.Anonymous?
    ensures !Lt(a, a)
    ensures Lt(a, b) || Lt(b, a) || a == b
    ensures !(Lt(a, b) && Lt(b, a))
    ensures Lt(a, b) && Lt(b, c) ==> Lt(a, c)
  {
    LtIsLexicographic(a, b);
    LtIsLexicographic(b, a);
    LtIsLexicographic(b, c);
    LtIsLexicographic(a, c);
    ComponentsLtTotal(Components(a), Components(b));
    if Components(a) == Components(b) {
      ComponentsInjective(a, b);
    }
    if Lt(a, b) && Lt(b, c) {
      ComponentsLtTransitive(Components(a), Components(b), Components(c));
    }
  }

  /**
   * With the anonymous name the order has a cycle: it reads as an empty string under the root, so a
   * number sorts before it, while it is a proper prefix of every deeper name.
   */
  lemma LtCyclesThroughAnonymous()
    ensures exists a, b :: Lt(Anonymous, a) && Lt(a, b) && Lt(b, Anonymous)
  {
    var b := Num(Anonymous, 1);
    var a := Num(Num(Anonymous, 0), 0);
    assert Components(a.parent) == [NumPart(0)];
    assert Components(a) == [NumPart(0), NumPart(0)];
    assert Components(b) == [NumPart(1)];
    assert Lt(Anonymous, a) && Lt(a, b) && Lt(b, Anonymous);
  }

  /** A name and its ancestors short of the root, the name itself first. */
  function Chain(a: Name): (c: seq<Name>)
    ensures |c| == |Components(a)|
    ensures forall k :: 0 <= k < |c| ==> !c[k].Anonymous? && LastPart(c[k]) == Components(a)[|c| - 1 - k]
  {
    if a.Anonymous? then [] else [a] + Chain(a.parent)
  }

  method CollectChain(a: Name) returns (c: seq<Name>)
    ensures c == Chain(a)
  {
    c := [];
    var x := a;
    while x != Anonymous
      invariant c + Chain(x) == Chain(a)
      decreases x
    {
      c := c + [x];
      x := x.parent;
    }
  }

  lemma ComponentsLtStep(a: seq<Component>, b: seq<Component>, k: nat)
    requires k < |a| && k < |b|
    ensures a[k] == b[k] ==> ComponentsLt(a[k..], b[k..]) == ComponentsLt(a[k + 1..], b[k + 1..])
    ensures a[k] != b[k] ==> ComponentsLt(a[k..], b[k..]) == ComponentLt(a[k], b[k])
  {
    ComponentLtStrict(a[k], b[k]);
    assert a[k..][1..] == a[k + 1..] && b[k..][1..] == b[k + 1..];
  }

  /** The comparison as the table runs it: both chains collected from the leaf, then walked from the root. */
  method Less(a: Name, b: Name) returns (r: bool)
    ensures r == Lt(a, b)
  {
    if a == b { return false; }
    if Parent(a) == Parent(b) { return ComponentLt(LastPart(a), LastPart(b)); }
    var ca := CollectChain(a);
    var cb := CollectChain(b);
    r := WalkFromRoot(ca, cb, Components(a), Components(b));
  }

  method WalkFromRoot(ca: seq<Name>, cb: seq<Name>, ghost pa: seq<Component>, ghost pb: seq<Component>)
    returns (r: bool)
    requires |ca| == |pa| && forall k :: 0 <= k < |ca| ==> LastPart(ca[k]) == pa[|ca| - 1 - k]
    requires |cb| == |pb| && forall k :: 0 <= k < |cb| ==> LastPart(cb[k]) == pb[|cb| - 1 - k]
    ensures r == ComponentsLt(pa, pb)
  {
    var i, j := |ca|, |cb|;
    ghost var k := 0;
    assert pa[0..] == pa && pb[0..] == pb;
    while i > 0 && j > 0
      invariant 0 <= i <= |ca| && 0 <= j <= |cb| && k == |ca| - i == |cb| - j
      invariant ComponentsLt(pa, pb) == ComponentsLt(pa[k..], pb[k..])
      decreases i
    {
      var u, w := LastPart(ca[i - 1]), LastPart(cb[j - 1]);
      ComponentsLtStep(pa, pb, k);
      if u != w { return ComponentLt(u, w); }
      i, j, k := i - 1, j - 1, k + 1;
    }
    return i == 0 && j > 0;
  }
}
