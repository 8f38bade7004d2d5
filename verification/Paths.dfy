// The least closed relation of Conversion is what it is meant to be: the paths of single steps, taken
// forwards only for reduction and in either direction for convertibility.
module Paths {
  import opened Terms
  import opened Conversion

  ghost predicate Link(E: Env, both: bool, a: Term, b: Term) { Red(E, a, b) || (both && Red(E, b, a)) }

  datatype Path = Stop | Next(t: Term, rest: Path)

  ghost predicate IsPath(E: Env, both: bool, a: Term, p: Path, b: Term)
    decreases p
  {
    match p
    case Stop => a == b
    case Next(t, rest) => Link(E, both, a, t) && IsPath(E, both, t, rest, b)
  }

  ghost predicate Joined(E: Env, both: bool, a: Term, b: Term) { exists p: Path :: IsPath(E, both, a, p, b) }

  ghost function Append(p: Path, q: Path): Path {
    match p
    case Stop => q
    case Next(t, rest) => Next(t, Append(rest, q))
  }

  lemma {:induction false} PathTrans(E: Env, both: bool, a: Term, p: Path, b: Term, q: Path, c: Term)
    requires IsPath(E, both, a, p, b) && IsPath(E, both, b, q, c)
    ensures IsPath(E, both, a, Append(p, q), c)
    decreases p
  {
    match p
    case Stop =>
    case Next(t, rest) => PathTrans(E, both, t, rest, b, q, c);
  }

  lemma JoinedTrans(E: Env, both: bool, a: Term, b: Term, c: Term)
    requires Joined(E, both, a, b) && Joined(E, both, b, c)
    ensures Joined(E, both, a, c)
  {
    var p :| IsPath(E, both, a, p, b);
    var q :| IsPath(E, both, b, q, c);
    PathTrans(E, both, a, p, b, q, c);
  }

  lemma JoinedStep(E: Env, both: bool, a: Term, b: Term)
    requires Link(E, both, a, b)
    ensures Joined(E, both, a, b)
  {
    assert IsPath(E, both, b, Stop, b);
    assert IsPath(E, both, a, Next(b, Stop), b);
  }

  lemma JoinedRefl(E: Env, both: bool, a: Term)
    ensures Joined(E, both, a, a)
  {
    assert IsPath(E, both, a, Stop, a);
  }

  lemma {:induction false} PathSym(E: Env, a: Term, p: Path, b: Term)
    requires IsPath(E, true, a, p, b)
    ensures Joined(E, true, b, a)
    decreases p
  {
    match p
    case Stop => JoinedRefl(E, true, a);
    case Next(t, rest) =>
      PathSym(E, t, rest, b);
      JoinedStep(E, true, t, a);
      JoinedTrans(E, true, b, t, a);
  }

  // ---------------------------------------------------------------- contexts

  /** A term with a hole for one immediate subterm. */
  datatype Hole =
    | InF(x: Term) | InX(f: Term)
    | InLamDom(body: Term) | InLamBody(dom: Term)
    | InPiDom(body: Term) | InPiBody(dom: Term)
    | InTy(val: Term, body: Term) | InVal(ty: Term, body: Term) | InLetBody(ty: Term, val: Term)
    | InProj(t: Term)

  function Fill(h: Hole, t: Term): Term {
    match h
    case InF(x) => App(t, x)
    case InX(f) => App(f, t)
    case InLamDom(b) => Lam(t, b)
    case InLamBody(d) => Lam(d, t)
    case InPiDom(b) => Pi(t, b)
    case InPiBody(d) => Pi(d, t)
    case InTy(v, b) => Let(t, v, b)
    case InVal(y, b) => Let(y, t, b)
    case InLetBody(y, v) => Let(y, v, t)
    case InProj(p) => if p.Proj? then Proj(p.s, p.idx, t) else t
  }

  lemma FillStep(E: Env, h: Hole, a: Term, b: Term)
    requires Red(E, a, b)
    ensures Red(E, Fill(h, a), Fill(h, b))
  {
    match h
    case InF(x) => assert Inside(E, App(a, x), App(b, x));
    case InX(f) => assert Inside(E, App(f, a), App(f, b));
    case InLamDom(t) => assert Inside(E, Lam(a, t), Lam(b, t));
    case InLamBody(d) => assert Inside(E, Lam(d, a), Lam(d, b));
    case InPiDom(t) => assert Inside(E, Pi(a, t), Pi(b, t));
    case InPiBody(d) => assert Inside(E, Pi(d, a), Pi(d, b));
    case InTy(v, t) => assert Inside(E, Let(a, v, t), Let(b, v, t));
    case InVal(y, t) => assert Inside(E, Let(y, a, t), Let(y, b, t));
    case InLetBody(y, v) => assert Inside(E, Let(y, v, a), Let(y, v, b));
    case InProj(p) => if p.Proj? { assert Inside(E, Proj(p.s, p.idx, a), Proj(p.s, p.idx, b)); }
  }

  lemma {:induction false} FillPath(E: Env, both: bool, h: Hole, a: Term, p: Path, b: Term)
    requires IsPath(E, both, a, p, b)
    ensures Joined(E, both, Fill(h, a), Fill(h, b))
    decreases p
  {
    match p
    case Stop => JoinedRefl(E, both, Fill(h, a));
    case Next(t, rest) =>
      if Red(E, a, t) { FillStep(E, h, a, t); } else { FillStep(E, h, t, a); }
      JoinedStep(E, both, Fill(h, a), Fill(h, t));
      FillPath(E, both, h, t, rest, b);
      JoinedTrans(E, both, Fill(h, a), Fill(h, t), Fill(h, b));
  }

  lemma FillJoined(E: Env, both: bool, h: Hole, a: Term, b: Term)
    requires Joined(E, both, a, b)
    ensures Joined(E, both, Fill(h, a), Fill(h, b))
  {
    var p :| IsPath(E, both, a, p, b);
    FillPath(E, both, h, a, p, b);
  }

  /** Two holes of one term, moved one after the other. */
  lemma FillTwo(E: Env, both: bool, h: Hole, g: Hole, a: Term, a': Term, b: Term, b': Term)
    requires Joined(E, both, a, a') && Joined(E, both, b, b')
    requires Fill(h, a') == Fill(g, b)
    ensures Joined(E, both, Fill(h, a), Fill(g, b'))
  {
    FillJoined(E, both, h, a, a');
    FillJoined(E, both, g, b, b');
    JoinedTrans(E, both, Fill(h, a), Fill(g, b), Fill(g, b'));
  }

  lemma JoinedLet(E: Env, both: bool, y: Term, y': Term, v: Term, v': Term, t: Term, t': Term)
    requires Joined(E, both, y, y') && Joined(E, both, v, v') && Joined(E, both, t, t')
    ensures Joined(E, both, Let(y, v, t), Let(y', v', t'))
  {
    FillTwo(E, both, InTy(v, t), InVal(y', t), y, y', v, v');
    FillJoined(E, both, InLetBody(y', v'), t, t');
    JoinedTrans(E, both, Let(y, v, t), Let(y', v', t), Let(y', v', t'));
  }

  // ---------------------------------------------------------------- the two definitions agree

  ghost function PathRelation(E: Env, both: bool): Relation { (a, b) => Joined(E, both, a, b) }

  lemma PathsAreOrder(E: Env, both: bool)
    ensures IsOrder(both, PathRelation(E, both))
  {
    var R := PathRelation(E, both);
    forall a ensures R(a, a) { JoinedRefl(E, both, a); }
    forall a, b, c | Chain(R, a, b, c) ensures R(a, c) { JoinedTrans(E, both, a, b, c); }
    if both {
      forall a, b | Flip(R, a, b) ensures R(a, b) {
        var p :| IsPath(E, true, b, p, a);
        PathSym(E, b, p, a);
      }
    }
  }

  lemma PathsAreCongruence(E: Env, both: bool)
    ensures IsCongruence(PathRelation(E, both))
  {
    var R := PathRelation(E, both);
    forall f, f', x, x' | Both(R, f, f', x, x') ensures R(App(f, x), App(f', x')) {
      FillTwo(E, both, InF(x), InX(f'), f, f', x, x');
    }
    forall d, d', t, t' | Both(R, d, d', t, t') ensures R(Lam(d, t), Lam(d', t')) {
      FillTwo(E, both, InLamDom(t), InLamBody(d'), d, d', t, t');
    }
    forall d, d', t, t' | Both(R, d, d', t, t') ensures R(Pi(d, t), Pi(d', t')) {
      FillTwo(E, both, InPiDom(t), InPiBody(d'), d, d', t, t');
    }
    forall y, y', v, v', t, t' | R(y, y') && Both(R, v, v', t, t') ensures R(Let(y, v, t), Let(y', v', t')) {
      JoinedLet(E, both, y, y', v, v', t, t');
    }
    forall s, i, e, e' | R(e, e') ensures R(Proj(s, i, e), Proj(s, i, e')) {
      FillJoined(E, both, InProj(Proj(s, i, e)), e, e');
    }
  }

  lemma PathsAreClosed(E: Env, both: bool)
    ensures IsClosed(E, both, PathRelation(E, both))
  {
    PathsAreOrder(E, both);
    PathsAreCongruence(E, both);
    forall a, b | Root(E, a, b) ensures PathRelation(E, both)(a, b) {
      assert Red(E, a, b);
      JoinedStep(E, both, a, b);
    }
  }

  lemma {:induction false} RedClosed(E: Env, both: bool, R: Relation, a: Term, b: Term)
    requires IsClosed(E, both, R) && Red(E, a, b)
    ensures R(a, b)
    decreases Size(a), 0
  {
    if !Root(E, a, b) {
      match (a, b)
      case (App(f, x), App(f', x')) => RedEither(E, both, R, f, f', x, x');
      case (Lam(d, t), Lam(d', t')) => RedEither(E, both, R, d, d', t, t');
      case (Pi(d, t), Pi(d', t')) => RedEither(E, both, R, d, d', t, t');
      case (Let(y, v, t), Let(y', v', t')) =>
        if v == v' && t == t' {
          if y != y' { RedClosed(E, both, R, y, y'); }
        } else {
          RedEither(E, both, R, v, v', t, t');
        }
      case (Proj(_, _, e), Proj(_, _, e')) => RedClosed(E, both, R, e, e');
    }
  }

  lemma {:induction false} RedEither(E: Env, both: bool, R: Relation, f: Term, f': Term, x: Term, x': Term)
    requires IsClosed(E, both, R)
    requires (Red(E, f, f') && x == x') || (f == f' && Red(E, x, x'))
    ensures R(f, f') && R(x, x')
    decreases Max(Size(f), Size(x)), 1
  {
    if Red(E, f, f') && x == x' { RedClosed(E, both, R, f, f'); } else { RedClosed(E, both, R, x, x'); }
  }

  lemma RedStar(E: Env, both: bool, a: Term, b: Term)
    requires Red(E, a, b)
    ensures Star(E, both, a, b)
  {
    forall R: Relation | IsClosed(E, both, R) ensures R(a, b) { RedClosed(E, both, R, a, b); }
  }

  lemma {:induction false} PathStar(E: Env, both: bool, a: Term, p: Path, b: Term)
    requires IsPath(E, both, a, p, b)
    ensures Star(E, both, a, b)
    decreases p
  {
    match p
    case Stop => StarRefl(E, both, a);
    case Next(t, rest) =>
      if Red(E, a, t) {
        RedStar(E, both, a, t);
      } else {
        RedStar(E, both, t, a);
        ConvSym(E, t, a);
      }
      PathStar(E, both, t, rest, b);
      StarTrans(E, both, a, t, b);
  }

  /** Reduction, or convertibility, is exactly the existence of a path of single steps. */
  lemma StarIsPath(E: Env, both: bool, a: Term, b: Term)
    ensures Star(E, both, a, b) <==> Joined(E, both, a, b)
  {
    if Star(E, both, a, b) {
      PathsAreClosed(E, both);
      assert PathRelation(E, both)(a, b);
    }
    if Joined(E, both, a, b) {
      var p :| IsPath(E, both, a, p, b);
      PathStar(E, both, a, p, b);
    }
  }
}
