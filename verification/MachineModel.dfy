// What the lazy machine's heap and stack mean as terms (src/kam.h, src/kam.cpp).
//
// Every thunk has one read-back: the term its original closure stands for.  It is fixed when the
// thunk is made, so it is kept here as a ghost sequence beside the heap, and everything the machine
// knows -- values, frames, memo entries -- is tied to it.
module MachineModel {
  import opened Names
  import opened Terms
  import opened Conversion

  type Ref = nat

  /** The placeholder cell for an induction hypothesis nobody mentions. */
  const UNUSED: Ref := 0

  datatype Phase = Delayed | Forcing | Core | Full

  /** A delayed closure and, once forced, a head under an environment with its arguments. */
  datatype Thunk = Thunk(phase: Phase, term: Option<Term>, env: seq<Ref>,
                         vterm: Term, venv: seq<Ref>, args: seq<Ref>, rb: Option<Term>)

  datatype Kind = RecK | NatK | QuotK | ProjK

  datatype Frame =
    | Arg(th: Ref)
    | Upd(th: Ref)
    | Cont(kind: Kind, head: Term, env: seq<Ref>, args: seq<Ref>, th: Ref, saved: bool)

  // ---------------------------------------------------------------- meanings

  ghost function At(mng: seq<Term>, r: Ref): Term { if r < |mng| then mng[r] else BVar(0) }

  ghost function Mngs(mng: seq<Term>, rs: seq<Ref>): (ts: seq<Term>)
    ensures |ts| == |rs|
    ensures forall i :: 0 <= i < |rs| ==> ts[i] == At(mng, rs[i])
  {
    seq(|rs|, i requires 0 <= i < |rs| => At(mng, rs[i]))
  }

  /** The term a closure stands for. */
  ghost function Clos(mng: seq<Term>, t: Term, env: seq<Ref>): Term { Instantiate(t, Mngs(mng, env)) }

  ghost function ValueOf(mng: seq<Term>, t: Thunk): Term {
    MkApps(Clos(mng, t.vterm, t.venv), Mngs(mng, t.args))
  }

  ghost predicate EnvOk(n: nat, env: seq<Ref>) { forall i :: 0 <= i < |env| ==> env[i] < n }

  ghost predicate RefsOk(n: nat, rs: seq<Ref>) { forall i :: 0 <= i < |rs| ==> UNUSED < rs[i] < n }

  /** Every variable of the term is bound, and not to the placeholder. */
  ghost predicate ClosOk(n: nat, t: Term, env: seq<Ref>) {
    EnvOk(n, env) && forall i: nat :: Occurs(t, i) ==> i < |env| && env[i] != UNUSED
  }

  ghost predicate ThunkOk(E: Env, mng: seq<Term>, r: Ref, t: Thunk)
    requires r < |mng|
  {
    && Closed(mng[r])
    && (t.term.Some? ==> ClosOk(r, t.term.value, t.env) && mng[r] == Clos(mng, t.term.value, t.env))
    && (t.term.None? ==>
          t.phase == Full && EnvOk(r, t.venv) && RefsOk(r, t.args) && mng[r] == ValueOf(mng, t))
    && (t.phase == Core || t.phase == Full ==>
          ClosOk(|mng|, t.vterm, t.venv) && RefsOk(|mng|, t.args) && Conv(E, mng[r], ValueOf(mng, t)))
    && (t.rb.Some? ==> t.rb.value == mng[r])
  }

  ghost predicate HeapOk(E: Env, heap: seq<Thunk>, mng: seq<Term>) {
    |heap| == |mng| && forall r {:trigger ThunkOk(E, mng, r, heap[r])} :: 0 <= r < |heap| ==> ThunkOk(E, mng, r, heap[r])
  }

  ghost predicate MapOk(closed: map<Term, Ref>, mng: seq<Term>) {
    forall k :: k in closed ==> UNUSED < closed[k] < |mng| && mng[closed[k]] == k
  }

  ghost predicate ContOk(mng: seq<Term>, f: Frame)
    requires f.Cont?
  {
    ClosOk(|mng|, f.head, f.env) && RefsOk(|mng|, f.args) && UNUSED < f.th < |mng|
    && (f.kind == ProjK ==> f.args == [] && f.head.Proj? && Clos(mng, f.head.e, f.env) == mng[f.th])
  }

  /**
   * The stack invariant, from the top down: the segment above every update mark is convertible with
   * the marked thunk's read-back, the segment above every continuation with the read-back of the thunk
   * it waits for, and the whole with the goal.
   */
  ghost predicate StackOk(E: Env, mng: seq<Term>, cur: Term, st: seq<Frame>, goal: Term)
    decreases |st|
  {
    if st == [] then Conv(E, cur, goal)
    else
      var rest := st[..|st| - 1];
      match st[|st| - 1]
      case Arg(r) => UNUSED < r < |mng| && StackOk(E, mng, App(cur, mng[r]), rest, goal)
      case Upd(r) => UNUSED < r < |mng| && Conv(E, cur, mng[r]) && StackOk(E, mng, mng[r], rest, goal)
      case Cont(_, head, env, args, th, _) =>
        ContOk(mng, st[|st| - 1]) && Conv(E, cur, mng[th])
        && StackOk(E, mng, MkApps(Clos(mng, head, env), Mngs(mng, args)), rest, goal)
  }

  /** What the machine asks of its environment: constants are closed, and the oracles keep terms closed. */
  ghost predicate WfEnv(E: Env) {
    && ClosedDecls(E)
    && (forall n, k :: n in E.fix && 0 <= k < |E.fix[n].arms| ==>
          Range(E.fix[n].arms[k].body) <= E.fix[n].major + E.fix[n].arms[k].nfields)
    && (forall n, t :: Closed(t) ==> Closed(E.kCtor(n, t)))
    && (forall n, t :: Closed(t) ==> Closed(E.etaCtor(n, t)))
  }

  /** What fusion does to a definition's value: `Fusion.FuseTerm` says that it does. */
  ghost predicate WfFused(E: Env, fused: Term -> Term) {
    forall t {:trigger fused(t)} :: Closed(t) ==> Closed(fused(t)) && Reds(E, t, fused(t))
  }

  // ---------------------------------------------------------------- closures

  ghost predicate Extends(mng: seq<Term>, mng': seq<Term>) {
    |mng| <= |mng'| && forall r :: 0 <= r < |mng| ==> mng'[r] == mng[r]
  }

  lemma MngsExtend(mng: seq<Term>, mng': seq<Term>, rs: seq<Ref>)
    requires Extends(mng, mng') && EnvOk(|mng|, rs)
    ensures Mngs(mng', rs) == Mngs(mng, rs)
  {
  }

  lemma ClosExtend(mng: seq<Term>, mng': seq<Term>, t: Term, env: seq<Ref>)
    requires Extends(mng, mng') && EnvOk(|mng|, env)
    ensures Clos(mng', t, env) == Clos(mng, t, env)
  {
    MngsExtend(mng, mng', env);
  }

  lemma ClosIsSub(mng: seq<Term>, t: Term, env: seq<Ref>)
    ensures Clos(mng, t, env) == Sub(t, Entries(Mngs(mng, env), 0))
  {
    InstantiateIsSub(t, Mngs(mng, env));
  }

  lemma ClosOfClosed(mng: seq<Term>, t: Term, env: seq<Ref>)
    requires Closed(t)
    ensures Clos(mng, t, env) == t
    ensures EnvOk(|mng|, env) ==> ClosOk(|mng|, t, env)
  {
    RangeExact(t);
  }

  lemma ClosClosed(mng: seq<Term>, t: Term, env: seq<Ref>)
    requires ClosOk(|mng|, t, env) && forall r :: 0 <= r < |mng| ==> Closed(mng[r])
    ensures Closed(Clos(mng, t, env))
  {
    ClosIsSub(mng, t, env);
    var vals := Mngs(mng, env);
    var u := Clos(mng, t, env);
    RangeExact(u);
    if Range(u) > 0 {
      var i: nat := Range(u) - 1;
      OccursSub(t, Entries(vals, 0), i);
      var j: nat :| Occurs(t, j) && Occurs(Entries(vals, 0)(j), i);
      RenZero(vals[j]);
      RangeExact(vals[j]);
    }
  }

  /** Only the cells of variables that occur matter to a closure. */
  lemma ClosAgree(mng: seq<Term>, t: Term, env: seq<Ref>, vals: seq<Term>)
    requires forall i: nat :: Occurs(t, i) ==> i < |env| && i < |vals| && At(mng, env[i]) == vals[i]
    ensures Clos(mng, t, env) == Sub(t, Entries(vals, 0))
  {
    ClosIsSub(mng, t, env);
    SubExt(t, Entries(Mngs(mng, env), 0), Entries(vals, 0));
  }

  lemma ClosVar(mng: seq<Term>, i: nat, env: seq<Ref>)
    requires i < |env| && env[i] < |mng|
    ensures Clos(mng, BVar(i), env) == mng[env[i]]
  {
    ClosIsSub(mng, BVar(i), env);
    RenZero(mng[env[i]]);
  }

  lemma ClosApp(mng: seq<Term>, f: Term, x: Term, env: seq<Ref>)
    ensures Clos(mng, App(f, x), env) == App(Clos(mng, f, env), Clos(mng, x, env))
  {
    ClosIsSub(mng, App(f, x), env);
    ClosIsSub(mng, f, env);
    ClosIsSub(mng, x, env);
  }

  lemma ClosProj(mng: seq<Term>, s: Name, i: nat, e: Term, env: seq<Ref>)
    ensures Clos(mng, Proj(s, i, e), env) == Proj(s, i, Clos(mng, e, env))
  {
    ClosIsSub(mng, Proj(s, i, e), env);
    ClosIsSub(mng, e, env);
  }

  lemma MngsCons(mng: seq<Term>, r: Ref, env: seq<Ref>)
    ensures Mngs(mng, [r] + env) == [At(mng, r)] + Mngs(mng, env)
  {
  }

  /** Beta is a cons onto the environment. */
  lemma ClosBeta(E: Env, mng: seq<Term>, d: Term, b: Term, env: seq<Ref>, r: Ref)
    requires r < |mng|
    ensures Conv(E, App(Clos(mng, Lam(d, b), env), mng[r]), Clos(mng, b, [r] + env))
  {
    var s := Entries(Mngs(mng, env), 0);
    ClosIsSub(mng, Lam(d, b), env);
    ClosIsSub(mng, b, [r] + env);
    MngsCons(mng, r, env);
    InstantiateIsSub(Sub(b, Up(s)), [mng[r]]);
    EntriesJoin(b, Mngs(mng, env), [mng[r]]);
    assert UpN(s, 1) == UpN(Up(s), 0) == Up(s);
    RootStep(E, true, App(Clos(mng, Lam(d, b), env), mng[r]), Clos(mng, b, [r] + env));
  }

  lemma ClosZeta(E: Env, mng: seq<Term>, y: Term, v: Term, b: Term, env: seq<Ref>, r: Ref)
    requires r < |mng| && mng[r] == Clos(mng, v, env)
    ensures Conv(E, Clos(mng, Let(y, v, b), env), Clos(mng, b, [r] + env))
  {
    var s := Entries(Mngs(mng, env), 0);
    ClosIsSub(mng, Let(y, v, b), env);
    ClosIsSub(mng, v, env);
    ClosIsSub(mng, b, [r] + env);
    MngsCons(mng, r, env);
    InstantiateIsSub(Sub(b, Up(s)), [mng[r]]);
    EntriesJoin(b, Mngs(mng, env), [mng[r]]);
    assert UpN(s, 1) == UpN(Up(s), 0) == Up(s);
    RootStep(E, true, Clos(mng, Let(y, v, b), env), Clos(mng, b, [r] + env));
  }

  lemma ClosOkSub(n: nat, t: Term, u: Term, env: seq<Ref>)
    requires ClosOk(n, t, env) && forall i: nat :: Occurs(u, i) ==> Occurs(t, i)
    ensures ClosOk(n, u, env)
  {
  }

  lemma ClosOkApp(n: nat, f: Term, x: Term, env: seq<Ref>)
    requires ClosOk(n, App(f, x), env)
    ensures ClosOk(n, f, env) && ClosOk(n, x, env)
  {
    forall i: nat | Occurs(f, i) ensures Occurs(App(f, x), i) {}
    forall i: nat | Occurs(x, i) ensures Occurs(App(f, x), i) {}
    ClosOkSub(n, App(f, x), f, env);
    ClosOkSub(n, App(f, x), x, env);
  }

  lemma ClosOkProj(n: nat, s: Name, k: nat, e: Term, env: seq<Ref>)
    requires ClosOk(n, Proj(s, k, e), env)
    ensures ClosOk(n, e, env)
  {
    forall i: nat | Occurs(e, i) ensures Occurs(Proj(s, k, e), i) {}
    ClosOkSub(n, Proj(s, k, e), e, env);
  }

  lemma ClosOkLetVal(n: nat, y: Term, v: Term, b: Term, env: seq<Ref>)
    requires ClosOk(n, Let(y, v, b), env)
    ensures ClosOk(n, v, env)
  {
    forall i: nat | Occurs(v, i) ensures Occurs(Let(y, v, b), i) {}
    ClosOkSub(n, Let(y, v, b), v, env);
  }

  /** Going under a binder. */
  lemma ClosOkBody(n: nat, t: Term, b: Term, env: seq<Ref>, r: Ref)
    requires ClosOk(n, t, env) && UNUSED < r < n
    requires forall i: nat :: Occurs(b, i + 1) ==> Occurs(t, i)
    ensures ClosOk(n, b, [r] + env)
  {
    forall i: nat | Occurs(b, i)
      ensures i < |[r] + env| && ([r] + env)[i] != UNUSED
    {
      if i > 0 {
        var j: nat := i - 1;
        assert Occurs(b, j + 1);
        assert Occurs(t, j);
        assert ([r] + env)[i] == env[j];
      }
    }
  }

  // ---------------------------------------------------------------- heap and stack

  lemma ThunkExtend(E: Env, mng: seq<Term>, mng': seq<Term>, r: Ref, t: Thunk)
    requires r < |mng| && ThunkOk(E, mng, r, t) && Extends(mng, mng')
    ensures ThunkOk(E, mng', r, t)
  {
    if t.term.Some? { ClosExtend(mng, mng', t.term.value, t.env); }
    if t.term.None? || t.phase == Core || t.phase == Full {
      ClosExtend(mng, mng', t.vterm, t.venv);
      MngsExtend(mng, mng', t.args);
    }
  }

  lemma HeapExtend(E: Env, heap: seq<Thunk>, mng: seq<Term>, t: Thunk, m: Term)
    requires HeapOk(E, heap, mng) && ThunkOk(E, mng + [m], |heap|, t)
    ensures HeapOk(E, heap + [t], mng + [m]) && Extends(mng, mng + [m])
  {
    forall r | 0 <= r < |heap| ensures ThunkOk(E, mng + [m], r, (heap + [t])[r]) {
      ThunkExtend(E, mng, mng + [m], r, heap[r]);
    }
  }

  lemma ContExtend(mng: seq<Term>, mng': seq<Term>, f: Frame)
    requires f.Cont? && ContOk(mng, f) && Extends(mng, mng')
    ensures ContOk(mng', f)
    ensures MkApps(Clos(mng', f.head, f.env), Mngs(mng', f.args)) == MkApps(Clos(mng, f.head, f.env), Mngs(mng, f.args))
  {
    ClosExtend(mng, mng', f.head, f.env);
    if f.kind == ProjK { ClosExtend(mng, mng', f.head.e, f.env); }
    MngsExtend(mng, mng', f.args);
  }

  lemma {:induction false} StackExtend(E: Env, mng: seq<Term>, mng': seq<Term>, cur: Term, st: seq<Frame>, goal: Term)
    requires StackOk(E, mng, cur, st, goal) && Extends(mng, mng')
    ensures StackOk(E, mng', cur, st, goal)
    decreases |st|
  {
    if st != [] {
      var rest, f := st[..|st| - 1], st[|st| - 1];
      if f.Arg? {
        StackExtend(E, mng, mng', App(cur, mng[f.th]), rest, goal);
      } else if f.Upd? {
        StackExtend(E, mng, mng', mng[f.th], rest, goal);
      } else {
        ContExtend(mng, mng', f);
        StackExtend(E, mng, mng', MkApps(Clos(mng, f.head, f.env), Mngs(mng, f.args)), rest, goal);
      }
    }
  }

  /** The head may be replaced by a convertible one. */
  lemma {:induction false} StackConv(E: Env, mng: seq<Term>, cur: Term, cur': Term, st: seq<Frame>, goal: Term)
    requires StackOk(E, mng, cur, st, goal) && Conv(E, cur', cur)
    ensures StackOk(E, mng, cur', st, goal)
    decreases |st|
  {
    if st == [] {
      StarTrans(E, true, cur', cur, goal);
    } else {
      var rest, f := st[..|st| - 1], st[|st| - 1];
      if f.Arg? {
        var x := mng[f.th];
        assert StackOk(E, mng, App(cur, x), rest, goal);
        StarRefl(E, true, x);
        StarApp(E, true, cur', cur, x, x);
        StackConv(E, mng, App(cur, x), App(cur', x), rest, goal);
      } else {
        StackConvMark(E, mng, cur, cur', st, goal);
        StackSwap(E, mng, cur, cur', st, goal);
      }
    }
  }

  lemma StackConvMark(E: Env, mng: seq<Term>, cur: Term, cur': Term, st: seq<Frame>, goal: Term)
    requires st != [] && !st[|st| - 1].Arg? && StackOk(E, mng, cur, st, goal) && Conv(E, cur', cur)
    ensures Conv(E, cur', mng[st[|st| - 1].th])
  {
    StarTrans(E, true, cur', cur, mng[st[|st| - 1].th]);
  }

  /** A mark or a continuation looks at the segment above it only through the thunk it waits for. */
  lemma StackSwap(E: Env, mng: seq<Term>, cur: Term, cur': Term, st: seq<Frame>, goal: Term)
    requires st != [] && !st[|st| - 1].Arg? && StackOk(E, mng, cur, st, goal)
    requires Conv(E, cur', mng[st[|st| - 1].th])
    ensures StackOk(E, mng, cur', st, goal)
  {
  }

  function PushArgs(st: seq<Frame>, args: seq<Ref>): seq<Frame>
    decreases |args|
  {
    if args == [] then st else PushArgs(st + [Arg(args[|args| - 1])], args[..|args| - 1])
  }

  lemma {:induction false} StackPush(E: Env, mng: seq<Term>, cur: Term, st: seq<Frame>, args: seq<Ref>, goal: Term)
    requires RefsOk(|mng|, args) && StackOk(E, mng, MkApps(cur, Mngs(mng, args)), st, goal)
    ensures StackOk(E, mng, cur, PushArgs(st, args), goal)
    decreases |args|
  {
    if args != [] {
      var n := |args| - 1;
      assert Mngs(mng, args)[..n] == Mngs(mng, args[..n]);
      assert (st + [Arg(args[n])])[..|st|] == st;
      StackPush(E, mng, cur, st + [Arg(args[n])], args[..n], goal);
    }
  }

  lemma {:induction false} PushMembers(st: seq<Frame>, args: seq<Ref>, f: Frame)
    ensures f in st ==> f in PushArgs(st, args)
    ensures f in PushArgs(st, args) && !f.Arg? ==> f in st
    decreases |args|
  {
    if args != [] { PushMembers(st + [Arg(args[|args| - 1])], args[..|args| - 1], f); }
  }
}
