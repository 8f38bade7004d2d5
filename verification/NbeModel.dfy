// The values, environments and pruning of the normalisation-by-evaluation engine (src/nbe.cpp), and the
// terms they stand for.
module NbeModel {
  import opened Names
  import opened Terms
  import opened Conversion
  import L = Levels

  /** The level substitution an environment carries at its root. */
  datatype LSub = NoLevels | Levels(ps: seq<Name>, vs: seq<L.Level>)

  datatype Head = HBVar(level: nat) | HFVar(id: nat) | HConst(n: Name, ls: seq<L.Level>)

  datatype Elim = EApp(v: Value) | EProj(s: Name, idx: nat)

  /** A bound variable is a de Bruijn level; a constant head stays folded. */
  datatype Value =
    | VNeu(h: Head, sp: seq<Elim>)
    | VLam(dom: Term, env: VEnv, body: Term)
    | VPi(dom: Term, env: VEnv, body: Term)
    | VSort(l: L.Level)
    | VNat(n: nat)
    | VStr(s: seq<nat>)

  /** A frame holds the values of the variables of its mask only, in ascending order. */
  datatype VEnv = Root(ls: LSub) | Ext(v: Value, parent: VEnv) | Frame(mask: set<nat>, vs: seq<Value>, fls: LSub)

  datatype Failure = LooseVariable | OutsideFrame | OutOfScope | NotAFunction | NotAStructure | OutOfFuel

  datatype Res<+T> = Ok(v: T) | Err(e: Failure)

  /** The failures that would mean a variable went astray. */
  predicate Astray(e: Failure) { e.LooseVariable? || e.OutsideFrame? || e.OutOfScope? }

  function LevelsOf(env: VEnv): LSub {
    match env
    case Root(ls) => ls
    case Ext(_, p) => LevelsOf(p)
    case Frame(_, _, ls) => ls
  }

  /** The number of elements of the mask below i: the population count of the masked word. */
  function Rank(mask: set<nat>, i: nat): nat {
    if i == 0 then 0 else Rank(mask, i - 1) + if i - 1 in mask then 1 else 0
  }

  function Len(env: VEnv): nat {
    match env
    case Root(_) => 0
    case Ext(_, p) => Len(p) + 1
    case Frame(mask, _, _) => Top(mask, 64)
  }

  /** One more than the largest element below i. */
  function Top(mask: set<nat>, i: nat): (n: nat)
    ensures n <= i && forall j: nat :: j in mask && j < i ==> j < n
  {
    if i == 0 then 0 else if i - 1 in mask then i else Top(mask, i - 1)
  }

  /** The walk that follows the length check. */
  function Walk(env: VEnv, i: nat): (r: Res<Value>)
    ensures r.Ok? ==> (env decreases to r.v)
  {
    match env
    case Root(_) => Err(LooseVariable)
    case Ext(v, p) => if i == 0 then Ok(v) else Walk(p, i - 1)
    case Frame(mask, vs, _) =>
      if i >= 64 || i !in mask then Err(OutsideFrame)
      else if Rank(mask, i) < |vs| then Ok(vs[Rank(mask, i)])
      else Err(OutsideFrame)
  }

  function Lookup(env: VEnv, i: nat): (r: Res<Value>)
    ensures r.Ok? ==> (env decreases to r.v)
  {
    if i >= Len(env) then Err(LooseVariable) else Walk(env, i)
  }

  // ---------------------------------------------------------------- pruning

  /**
   * The values of the mask's variables from i up.  c is the environment reached so far, at offset off:
   * the walk resumes where the previous variable left it.
   */
  function Collect(c: VEnv, off: nat, mask: set<nat>, i: nat): Res<seq<Value>>
    requires off <= i
    decreases 64 - i
  {
    if i >= 64 then Ok([])
    else if i !in mask then Collect(c, off, mask, i + 1)
    else
      var at := Advance(c, i - off);
      var off' := i - at.1;
      var v := if at.0.Frame? then Lookup(at.0, at.1)
               else if at.0.Ext? && at.1 == 0 then Ok(at.0.v)
               else Err(LooseVariable);
      if v.Err? then Err(v.e)
      else
        var rest := Collect(at.0, off', mask, i + 1);
        if rest.Err? then Err(rest.e) else Ok([v.v] + rest.v)
  }

  /** Up to n parents up, stopping at a frame; what is left to go comes with it. */
  function Advance(c: VEnv, n: nat): (r: (VEnv, nat))
    ensures r.1 <= n
  {
    if n == 0 || !c.Ext? then (c, n) else Advance(c.parent, n - 1)
  }

  function Prune(env: VEnv, mask: set<nat>): Res<VEnv> {
    var vs := Collect(env, 0, mask, 0);
    if vs.Err? then Err(vs.e) else Ok(Frame(mask, vs.v, LevelsOf(env)))
  }

  /** What fv_mask answers: the variables of a term, or nothing. */
  type Mask = Term -> Option<set<nat>>

  ghost predicate Exact(mk: Mask) {
    forall t: Term :: mk(t).Some? ==>
      (forall i :: i in mk(t).value ==> i < 64) && forall i: nat :: i in mk(t).value <==> Occurs(t, i)
  }

  predicate IsFull(env: VEnv, mask: set<nat>) {
    Len(env) < 64 && (forall i :: 0 <= i < Len(env) ==> i in mask) && (forall i :: i in mask ==> i < Len(env))
  }

  /** The environment a term is keyed on and evaluated under. */
  function KeyEnv(mk: Mask, env: VEnv, t: Term): Res<VEnv> {
    if Range(t) == 0 then Ok(Root(LevelsOf(env)))
    else if mk(t).None? then Ok(env)
    else
      var m := mk(t).value;
      if (if env.Frame? then env.mask == m else IsFull(env, m)) then Ok(env) else Prune(env, m)
  }

  lemma {:induction false} AdvanceWalk(c: VEnv, n: nat, j: nat)
    requires j >= n
    ensures var r := Advance(c, n); Walk(c, j) == Walk(r.0, j - n + r.1) && LevelsOf(r.0) == LevelsOf(c)
    ensures Advance(c, n).1 > 0 ==> !Advance(c, n).0.Ext?
    decreases n
  {
    if n > 0 && c.Ext? { AdvanceWalk(c.parent, n - 1, j - 1); }
  }

  lemma {:induction false} WalkIsLookup(env: VEnv, i: nat)
    ensures Walk(env, i).Ok? ==> i < Len(env)
    ensures Lookup(env, i).Ok? <==> Walk(env, i).Ok?
    ensures Lookup(env, i).Ok? ==> Lookup(env, i).v == Walk(env, i).v
    decreases env
  {
    match env
    case Ext(_, p) => if i > 0 { WalkIsLookup(p, i - 1); }
    case _ =>
  }

  lemma {:induction false} RankStep(mask: set<nat>, i: nat, j: nat)
    requires i <= j
    ensures Rank(mask, i) <= Rank(mask, j)
    ensures i < j && i in mask ==> Rank(mask, i) < Rank(mask, j)
    decreases j - i
  {
    if i < j {
      assert Rank(mask, i + 1) == Rank(mask, i) + if i in mask then 1 else 0;
      RankStep(mask, i + 1, j);
    }
  }

  /** From the i-th variable on, walking from c at offset off is walking from env. */
  ghost predicate Reached(env: VEnv, c: VEnv, off: nat, i: nat)
    requires off <= i
  {
    forall j: nat {:trigger Walk(env, j)} :: i <= j ==> Walk(c, j - off) == Walk(env, j)
  }

  lemma ReachedAdvance(env: VEnv, c: VEnv, off: nat, i: nat)
    requires off <= i && Reached(env, c, off, i)
    ensures var at := Advance(c, i - off); Reached(env, at.0, i - at.1, i)
  {
    var at := Advance(c, i - off);
    forall j: nat {:trigger Walk(env, j)} | i <= j ensures Walk(at.0, j - (i - at.1)) == Walk(env, j) {
      AdvanceWalk(c, i - off, j - off);
    }
  }

  /** The values collected are those of the mask's variables, each at its rank. */
  lemma {:induction false} CollectAt(env: VEnv, c: VEnv, off: nat, mask: set<nat>, i: nat, k: nat)
    requires off <= i && Reached(env, c, off, i)
    requires forall j: nat :: i <= j < 64 && j in mask ==> Walk(env, j).Ok?
    ensures var r := Collect(c, off, mask, i);
            r.Ok? && (i <= k < 64 && k in mask ==>
              0 <= Rank(mask, k) - Rank(mask, i) < |r.v| && Ok(r.v[Rank(mask, k) - Rank(mask, i)]) == Walk(env, k))
    decreases 64 - i
  {
    if i < 64 {
      assert Rank(mask, i + 1) == Rank(mask, i) + if i in mask then 1 else 0;
      if i !in mask {
        CollectAt(env, c, off, mask, i + 1, k);
      } else {
        var at := Advance(c, i - off);
        assert Walk(c, i - off) == Walk(env, i);
        CollectHead(c, off, i);
        ReachedAdvance(env, c, off, i);
        CollectAt(env, at.0, i - at.1, mask, i + 1, k);
        if i < k { RankStep(mask, i + 1, k); }
      }
    }
  }

  lemma CollectHead(c: VEnv, off: nat, i: nat)
    requires off <= i && Walk(c, i - off).Ok?
    ensures var at := Advance(c, i - off);
            (at.0.Frame? && Lookup(at.0, at.1) == Walk(c, i - off))
            || (at.0.Ext? && at.1 == 0 && Ok(at.0.v) == Walk(c, i - off))
  {
    var at := Advance(c, i - off);
    AdvanceWalk(c, i - off, i - off);
    WalkIsLookup(at.0, at.1);
  }

  /** Pruning keeps the values of the term's variables, and the level substitution. */
  lemma KeyEnvKeeps(mk: Mask, env: VEnv, t: Term)
    requires Exact(mk) && forall i: nat :: Occurs(t, i) ==> Lookup(env, i).Ok?
    ensures KeyEnv(mk, env, t).Ok? && LevelsOf(KeyEnv(mk, env, t).v) == LevelsOf(env)
    ensures forall i: nat :: Occurs(t, i) ==> Lookup(KeyEnv(mk, env, t).v, i) == Lookup(env, i)
  {
    RangeExact(t);
    if Range(t) > 0 && mk(t).Some? {
      var m := mk(t).value;
      forall j: nat | 0 <= j < 64 && j in m ensures Walk(env, j).Ok? {
        assert Occurs(t, j) && Lookup(env, j).Ok?;
        WalkIsLookup(env, j);
      }
      CollectAt(env, env, 0, m, 0, 0);
      var vs := Collect(env, 0, m, 0).v;
      forall i: nat | Occurs(t, i) ensures Lookup(Frame(m, vs, LevelsOf(env)), i) == Lookup(env, i) {
        assert i in m && i < 64;
        CollectAt(env, env, 0, m, 0, i);
        WalkIsLookup(env, i);
      }
    }
  }

  // ---------------------------------------------------------------- what values stand for

  function InstL(s: LSub, t: Term): Term {
    if s.Levels? && |s.ps| == |s.vs| then InstLParams(t, s.ps, s.vs) else t
  }

  lemma InstLOccurs(s: LSub, t: Term)
    ensures Range(InstL(s, t)) == Range(t)
    ensures forall i: nat :: Occurs(InstL(s, t), i) <==> Occurs(t, i)
  {
    if s.Levels? && |s.ps| == |s.vs| { InstLParamsOccurs(t, s.ps, s.vs); }
  }

  function HeadTerm(d: nat, h: Head): Term {
    match h
    case HBVar(l) => if l < d then BVar(d - 1 - l) else BVar(0)
    case HFVar(id) => FVar(id)
    case HConst(n, ls) => Const(n, ls)
  }

  /** The term a value stands for at binder depth d. */
  ghost function RB(d: nat, v: Value): Term
    decreases v, 1
  {
    match v
    case VNeu(h, sp) => Spine(d, HeadTerm(d, h), sp)
    case VLam(dom, env, body) => Inst(d, env, Lam(dom, body))
    case VPi(dom, env, body) => Inst(d, env, Pi(dom, body))
    case VSort(l) => Sort(l)
    case VNat(n) => Lit(NatLit(n))
    case VStr(s) => Lit(StrLit(s))
  }

  ghost function Spine(d: nat, h: Term, sp: seq<Elim>): Term
    decreases sp
  {
    if sp == [] then h
    else
      var e, rest := sp[|sp| - 1], sp[..|sp| - 1];
      Eliminate(d, Spine(d, h, rest), e)
  }

  ghost function Eliminate(d: nat, t: Term, e: Elim): Term
    decreases e, 0
  {
    match e
    case EApp(v) => App(t, RB(d, v))
    case EProj(s, i) => Proj(s, i, t)
  }

  ghost function Vals(d: nat, env: VEnv): Subst
    decreases env, 0
  {
    (i: nat) => if Lookup(env, i).Ok? then RB(d, Lookup(env, i).v) else BVar(i)
  }

  /** A term under an environment. */
  ghost function Inst(d: nat, env: VEnv, t: Term): Term
    decreases env, 1
  {
    Sub(InstL(LevelsOf(env), t), Vals(d, env))
  }

  /** In scope at depth d, with every loose variable of a closure bound. */
  ghost predicate ValOk(d: nat, v: Value)
    decreases v
  {
    match v
    case VNeu(h, sp) => (h.HBVar? ==> h.level < d) && forall k :: 0 <= k < |sp| ==> ElimOk(d, sp[k])
    case VLam(dom, env, body) => EnvOk(d, env, Lam(dom, body))
    case VPi(dom, env, body) => EnvOk(d, env, Pi(dom, body))
    case _ => true
  }

  ghost predicate ElimOk(d: nat, e: Elim)
    decreases e
  {
    e.EApp? ==> ValOk(d, e.v)
  }

  ghost predicate EnvOk(d: nat, env: VEnv, t: Term)
    decreases env
  {
    forall i: nat :: Occurs(t, i) ==> Lookup(env, i).Ok? && ValOk(d, Lookup(env, i).v)
  }

  /** Same head and spine; closures of the same term whose environments agree on the term's variables. */
  ghost predicate VEq(v: Value, w: Value)
    decreases v
  {
    match v
    case VNeu(h, sp) =>
      w.VNeu? && w.h == h && |w.sp| == |sp| && forall k :: 0 <= k < |sp| ==> ElimEq(sp[k], w.sp[k])
    case VLam(dom, env, body) => w.VLam? && w.dom == dom && w.body == body && EnvEq(env, w.env, Lam(dom, body))
    case VPi(dom, env, body) => w.VPi? && w.dom == dom && w.body == body && EnvEq(env, w.env, Pi(dom, body))
    case _ => w == v
  }

  ghost predicate ElimEq(e: Elim, f: Elim)
    decreases e
  {
    if e.EApp? then f.EApp? && VEq(e.v, f.v) else e == f
  }

  /** Both environments bind every variable of the term, to equivalent values. */
  ghost predicate EnvEq(env: VEnv, env': VEnv, t: Term)
    decreases env
  {
    LevelsOf(env) == LevelsOf(env')
    && forall i: nat :: Occurs(t, i) ==>
         Lookup(env, i).Ok? && Lookup(env', i).Ok? && VEq(Lookup(env, i).v, Lookup(env', i).v)
  }
}
