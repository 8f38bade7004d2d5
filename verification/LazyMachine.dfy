// The lazy abstract machine of src/kam.cpp: a heap of thunks, an explicit stack of frames and a loop.
module LazyMachine {
  import opened Names
  import opened Terms
  import opened Conversion
  import opened MachineModel
  import opened MachineStack
  import opened MachineSteps
  import opened Rules
  import L = Levels

  /** The heap of thunks and the tables that persist across runs. */
  class Machine {
    const E: Env
    const fused: Term -> Term       // fusion of a definition's value
    var heap: seq<Thunk>
    var closed: map<Term, Ref>      // closed terms, and read-backs of entered applications, by term
    ghost var mng: seq<Term>        // every thunk's read-back

    ghost predicate Valid()
      reads this
    {
      WfEnv(E) && WfFused(E, fused) && |mng| == |heap| > 0 && HeapOk(E, heap, mng) && MapOk(closed, mng)
    }

    /** Closures, read-backs and delta values never change, and a thunk once entered is never delayed again. */
    twostate predicate Grew()
      reads this
    {
      Grows(old(heap), heap, old(mng), mng) && Entered(old(heap), heap)
    }

    /** A run inside a run leaves the thunks being forced as they were. */
    twostate predicate Settled()
      reads this
    {
      Grew() && SameForcing(old(heap), heap)
    }

    /** A run with delta leaves no new value that is only a core one. */
    twostate predicate Deepened()
      reads this
    {
      Settled() && NoNewCore(old(heap), heap)
    }

    /** Only thunks were added: none was entered or forced. */
    twostate predicate Quiet()
      reads this
    {
      Extends(old(mng), mng) && |old(heap)| <= |heap|
      && (forall r {:trigger heap[r]} :: 0 <= r < |old(heap)| ==> SameBut(old(heap)[r], heap[r]))
      && forall r {:trigger heap[r]} :: |old(heap)| <= r < |heap| ==> heap[r].phase != Forcing && heap[r].phase != Core
    }

    constructor (E: Env, fused: Term -> Term)
      requires WfEnv(E) && WfFused(E, fused)
      ensures Valid() && this.E == E && |heap| == 1 && heap[0].phase == Delayed
    {
      this.E, this.fused := E, fused;
      var unused := Const(Str(Str(Anonymous, "lazylean"), "unused_hypothesis"), []);
      heap := [Thunk(Delayed, Some(unused), [], unused, [], [], None)];
      closed := map[];
      mng := [unused];
      new;
      ClosOfClosed(mng, unused, []);
    }

    /** Append a thunk with a known read-back. */
    method Alloc(t: Thunk, ghost m: Term) returns (r: Ref)
      requires Valid() && t.phase != Forcing && t.phase != Core && ThunkOk(E, mng + [m], |heap|, t)
      modifies this`heap, this`mng
      ensures Valid() && Quiet() && r == |old(heap)| && heap == old(heap) + [t] && mng == old(mng) + [m]
    {
      r := |heap|;
      HeapExtend(E, heap, mng, t, m);
      heap := heap + [t];
      mng := mng + [m];
    }

    /** A thunk for a closure; a variable is resolved to its cell, and a closed term has one shared thunk. */
    method MkThunk(term: Term, env: seq<Ref>) returns (r: Ref)
      requires Valid() && ClosOk(|heap|, term, env)
      modifies this
      ensures Valid() && Quiet()
      ensures UNUSED < r < |heap| && mng[r] == Clos(old(mng), term, env)
    {
      if term.BVar? {
        assert Occurs(term, term.i);
        ClosVar(mng, term.i, env);
        return env[term.i];
      }
      ghost var m := Clos(mng, term, env);
      HeapClosed(E, heap, mng);
      ClosClosed(mng, term, env);
      if Range(term) == 0 {
        ClosOfClosed(mng, term, env);
        ClosOfClosed(mng + [m], term, []);
        var t := Thunk(Delayed, Some(term), [], term, [], [], None);
        RangeExact(term);
        if term.App? || term.Proj? || term.Let? || term.Const? {
          if term in closed { return closed[term]; }
          r := Alloc(t, m);
          closed := closed[term := r];
        } else {
          r := Alloc(t, m);
        }
      } else {
        ClosExtend(mng, mng + [m], term, env);
        r := Alloc(Thunk(Delayed, Some(term), env, term, [], [], None), m);
      }
    }

    /** A forced thunk made from a head and arguments. */
    method MkValue(head: Term, args: seq<Ref>) returns (r: Ref)
      requires Valid() && Closed(head) && RefsOk(|heap|, args)
      modifies this
      ensures Valid() && Quiet()
      ensures UNUSED < r < |heap| && heap[r].phase == Full && heap[r].vterm == head && heap[r].args == args
      ensures mng[r] == MkApps(head, Mngs(old(mng), args))
    {
      ghost var m := MkApps(head, Mngs(mng, args));
      var t := Thunk(Full, None, [], head, [], args, None);
      MngsExtend(mng, mng + [m], args);
      ClosOfClosed(mng + [m], head, []);
      HeapClosed(E, heap, mng);
      ClosedMkApps(head, Mngs(mng, args));
      StarRefl(E, true, m);
      r := Alloc(t, m);
    }

    /** The term a thunk was made from; it is the same whatever has been forced. */
    method Readback(th: Ref) returns (t: Term)
      requires Valid() && th < |heap|
      modifies this`heap
      ensures Valid() && Quiet() && |heap| == |old(heap)|
      ensures t == mng[th]
      decreases th, 2
    {
      var x := heap[th];
      assert ThunkOk(E, mng, th, x);
      if x.rb.Some? { return x.rb.value; }
      if x.term.Some? {
        t := ReadbackClosure(x.term.value, x.env, th);
      } else {
        t := ReadbackValue(x.vterm, x.venv, x.args, th);
      }
      SetCache(th, t);
    }

    method SetCache(th: Ref, t: Term)
      requires Valid() && th < |heap| && t == mng[th]
      modifies this`heap
      ensures Valid() && Quiet() && |heap| == |old(heap)|
    {
      ghost var before := heap;
      heap := heap[th := heap[th].(rb := Some(t))];
      forall r | 0 <= r < |heap| ensures ThunkOk(E, mng, r, heap[r]) {
        assert ThunkOk(E, mng, r, before[r]);
      }
    }

    method ReadbackClosure(term: Term, env: seq<Ref>, ghost bound: Ref) returns (t: Term)
      requires Valid() && EnvOk(bound, env) && bound <= |heap|
      requires forall i: nat :: Occurs(term, i) ==> i < |env|
      modifies this`heap
      ensures Valid() && Quiet() && |heap| == |old(heap)|
      ensures t == Clos(mng, term, env)
      decreases bound, 0
    {
      RangeExact(term);
      var r := Range(term);
      if r == 0 {
        ClosOfClosed(mng, term, env);
        return term;
      }
      var subst := [];
      var i := 0;
      while i < r
        invariant Valid() && Quiet() && |heap| == |old(heap)|
        invariant i <= r && |subst| == i && forall k :: 0 <= k < i ==> subst[k] == mng[env[k]]
      {
        var x := Readback(env[i]);
        subst := subst + [x];
        i := i + 1;
      }
      InstantiateIsSub(term, subst);
      ClosAgree(mng, term, env, subst);
      t := Instantiate(term, subst);
    }

    method ReadbackValue(head: Term, venv: seq<Ref>, args: seq<Ref>, ghost bound: Ref) returns (t: Term)
      requires Valid() && EnvOk(bound, venv) && RefsOk(bound, args) && bound <= |heap|
      requires forall i: nat :: Occurs(head, i) ==> i < |venv|
      modifies this`heap
      ensures Valid() && Quiet() && |heap| == |old(heap)|
      ensures t == MkApps(Clos(mng, head, venv), Mngs(mng, args))
      decreases bound, 1
    {
      t := ReadbackClosure(head, venv, bound);
      var i := 0;
      while i < |args|
        invariant Valid() && Quiet() && |heap| == |old(heap)| && i <= |args|
        invariant t == MkApps(Clos(mng, head, venv), Mngs(mng, args[..i]))
      {
        var x := Readback(args[i]);
        assert Mngs(mng, args[..i + 1])[..i] == Mngs(mng, args[..i]);
        t := App(t, x);
        i := i + 1;
      }
      assert args[..i] == args;
    }

    /** Force a thunk by a run of its own. */
    method Force(th: Ref, delta: bool, fuel: nat) returns (ok: bool)
      requires Valid() && UNUSED < th < |heap|
      modifies this
      ensures Valid() && (ok ==> Settled() && (heap[th].phase == Core || heap[th].phase == Full))
      ensures ok && delta ==> Deepened() && heap[th].phase == Full
      decreases fuel, 5
    {
      if heap[th].phase == Full || (heap[th].phase == Core && !delta) { return true; }
      hide Marked, Depths, StackOk, HeapOk, MapOk, Final, Grows, Entered, NoNewCore, SameForcing;
      ghost var heap0, mng0 := heap, mng;
      var R := new Run(this, heap[th].vterm, [], delta, false, mng[th]);
      ok := R.Enter(th);
      if !ok { return; }
      ghost var heap1, mng1 := heap, mng;
      var rest;
      ghost var n;
      ok, rest, n := R.Loop(fuel);
      if ok {
        R.GrownTwice(heap0, mng0, heap1, mng1);
        OuterSettled(heap0, heap, R.outer);
        Finished(heap0, heap1, heap, th, delta);
      }
    }

    /** The numeral a forced operand stands for: a literal, `Nat.zero`, or `Nat.succ` of a numeral. */
    method LitValue(th: Ref, fuel: nat) returns (ok: bool, v: Option<nat>)
      requires Valid() && UNUSED < th < |heap| && IsFull(heap, th)
      modifies this
      ensures Valid() && (ok ==> Deepened())
      ensures ok && v.Some? ==> Conv(E, mng[th], Lit(NatLit(v.value)))
      ensures ok && v.None? ==> NotNumeral(heap, th)
      decreases fuel, 6
    {
      ValueFacts(th);
      var head, args := heap[th].vterm, heap[th].args;
      if args == [] {
        if head.Lit? && head.v.NatLit? { return true, Some(head.v.n); }
        if head.Const? && head.n == NAT_ZERO {
          NatLitConv(E, 0, head.ls);
          ConvSym(E, Lit(NatLit(0)), head);
          StarTrans(E, true, mng[th], head, Lit(NatLit(0)));
          return true, Some(0);
        }
        NoDigits(heap, th);
        return true, None;
      }
      if |args| != 1 || !head.Const? || head.n != NAT_SUCC {
        NoDigits(heap, th);
        return true, None;
      }
      if fuel == 0 { return false, None; }
      ghost var whole, part := mng[th], mng[args[0]];
      assert Mngs(mng, args)[..0] == [] && MkApps(head, Mngs(mng, args)) == App(head, part);
      ok, v := SuccValue(args[0], fuel - 1);
      if ok && v.Some? {
        NatSuccConv(E, part, v.value, head.ls);
        StarTrans(E, true, whole, App(head, part), Lit(NatLit(v.value + 1)));
        v := Some(v.value + 1);
      }
      if ok && v.None? { NoDigitsUnder(heap, th); }
    }

    method SuccValue(a: Ref, fuel: nat) returns (ok: bool, v: Option<nat>)
      requires Valid() && UNUSED < a < |heap|
      modifies this
      ensures Valid() && (ok ==> Deepened())
      ensures ok && v.Some? ==> Conv(E, mng[a], Lit(NatLit(v.value)))
      ensures ok && v.None? ==> NotNumeral(heap, a)
      decreases fuel, 7
    {
      ok := Force(a, true, fuel);
      v := None;
      if ok { ok, v := LitValue(a, fuel); }
    }

    /** A forced major premise, with literals and structures put in constructor form. */
    method MajorCtor(th: Ref, induct: Name, fuel: nat) returns (ok: bool, r: Ref)
      requires Valid() && UNUSED < th < |heap| && IsFull(heap, th)
      modifies this
      ensures Valid() && (ok ==> Deepened() && UNUSED < r < |heap|)
      ensures ok ==> IsFull(heap, th) && IsFull(heap, r) && CtorForm(E, heap, mng, th, induct, r)
      ensures ok ==> Conv(E, mng[th], mng[r])
      decreases fuel, 8
    {
      ValueFacts(th);
      var head := heap[th].vterm;
      if head.Lit? && heap[th].args == [] {
        ok, r := LitCtor(th, induct, fuel);
      } else if !IsCtorConst(E, head) && IsStructure(E, induct) {
        ok, r := StructCtor(th, induct, fuel);
      } else {
        StarRefl(E, true, mng[th]);
        return true, th;
      }
    }

    method LitCtor(th: Ref, induct: Name, fuel: nat) returns (ok: bool, r: Ref)
      requires Valid() && UNUSED < th < |heap| && IsFull(heap, th)
      requires heap[th].vterm.Lit? && heap[th].args == []
      modifies this
      ensures Valid() && (ok ==> Deepened() && UNUSED < r < |heap|)
      ensures ok ==> IsFull(heap, th) && CtorForm(E, heap, mng, th, induct, r) && Conv(E, mng[th], mng[r])
      decreases fuel, 7
    {
      ValueFacts(th);
      var head := heap[th].vterm;
      ghost var whole := mng[th];
      assert SameBut(heap[th], heap[th]);
      if head.v.NatLit? {
        ok := true;
        r := NatCtor(head.v.n);
      } else {
        ok, r := StrCtor(head.v.s, fuel);
      }
      if ok { StarTrans(E, true, whole, head, mng[r]); }
    }

    /** Structure eta, as the kernel answers it; a premise it leaves alone is returned. */
    method StructCtor(th: Ref, induct: Name, fuel: nat) returns (ok: bool, r: Ref)
      requires Valid() && UNUSED < th < |heap| && IsFull(heap, th)
      requires !(heap[th].vterm.Lit? && heap[th].args == []) && !IsCtorConst(E, heap[th].vterm) && IsStructure(E, induct)
      modifies this
      ensures Valid() && (ok ==> Deepened() && UNUSED < r < |heap|)
      ensures ok ==> IsFull(heap, th) && CtorForm(E, heap, mng, th, induct, r) && Conv(E, mng[th], mng[r])
      decreases fuel, 7
    {
      ValueFacts(th);
      var x := heap[th];
      var m := ReadbackValue(x.vterm, x.venv, x.args, |heap|);
      HeapClosed(E, heap, mng);
      ClosClosed(mng, x.vterm, x.venv);
      ClosedMkApps(Clos(mng, x.vterm, x.venv), Mngs(mng, x.args));
      var m2 := E.etaCtor(induct, m);
      if m2 == m {
        StarRefl(E, true, mng[th]);
        return true, th;
      }
      EtaConv(mng[th], m, induct);
      ClosOfClosed(mng, m2, []);
      ghost var mng0 := mng;
      r := MkThunk(m2, []);
      ok := Force(r, true, fuel);
      if ok { ValueExtend(mng0, mng, x); }
    }

    /**
     * Weak-head normalisation of a closed term.  Whatever the flags, the shared thunks left by earlier
     * runs, and the moment the fuel runs out, an answer is closed, convertible with the input, and has
     * no redex at its head that the machine would still fire: recursors, quotient primitives, projections
     * and, with delta, definitions at its head are stuck.
     */
    method Whnf(e: Term, delta: bool, cheapProj: bool, fuel: nat) returns (r: Option<Term>)
      requires Valid() && Closed(e)
      modifies this
      ensures Valid()
      ensures r.Some? ==> Closed(r.value) && Conv(E, e, r.value) && Settled()
      ensures r.Some? ==> WeakHead(E, r.value) && Answered(r.value, delta, cheapProj)
    {
      ClosOfClosed(mng, e, []);
      hide Marked, Depths, StackOk, HeapOk, MapOk, Final;
      ghost var heap0 := heap;
      var R := new Run(this, e, [], delta, cheapProj, e);
      var ok, rest;
      ghost var n;
      ok, rest, n := R.Loop(fuel);
      if !ok { return None; }
      ghost var heap1 := heap;
      OuterSettled(heap0, heap, R.outer);
      var t := ReadbackValue(R.h, R.env, rest, |heap|);
      FinalKept(E, cheapProj, heap1, mng, heap, mng, Answer(R.h, R.env, rest), delta, n);
      HeapClosed(E, heap, mng);
      ClosClosed(mng, R.h, R.env);
      ClosedMkApps(Clos(mng, R.h, R.env), Mngs(mng, rest));
      ConvSym(E, t, e);
      ReadHead(E, mng, R.h, R.env, Mngs(mng, rest));
      return Some(t);
    }

    /** The term is what an answer that no step applies to stands for. */
    ghost predicate Answered(t: Term, delta: bool, cheap: bool)
      reads this
    {
      exists a: Answer, n: nat {:trigger Final(E, cheap, heap, mng, a, delta, n)} ::
        Final(E, cheap, heap, mng, a, delta, n) && InScope(|mng|, a) && t == Meaning(mng, a)
        && (a.h.Lam? ==> a.args == [])
    }

    lemma ValueFacts(th: Ref)
      requires Valid() && UNUSED < th < |heap| && (heap[th].phase == Core || heap[th].phase == Full)
      ensures var x := heap[th];
              ClosOk(|heap|, x.vterm, x.venv) && RefsOk(|heap|, x.args) && Conv(E, mng[th], ValueOf(mng, x))
              && (Closed(x.vterm) ==> ValueOf(mng, x) == MkApps(x.vterm, Mngs(mng, x.args)))
    {
      var x := heap[th];
      assert ThunkOk(E, mng, th, x);
      if Closed(x.vterm) { ClosOfClosed(mng, x.vterm, x.venv); }
    }

    lemma EtaConv(whole: Term, m: Term, induct: Name)
      requires Conv(E, whole, m) && induct in E.consts && E.consts[induct].Induct? && E.consts[induct].structure
      ensures Conv(E, whole, E.etaCtor(induct, m))
    {
      assert IsOracleStep(E, m, E.etaCtor(induct, m), induct);
      RootStep(E, true, m, E.etaCtor(induct, m));
      StarTrans(E, true, whole, m, E.etaCtor(induct, m));
    }

    /** A numeral's constructor form, one constructor deep. */
    method NatCtor(n: nat) returns (r: Ref)
      requires Valid()
      modifies this
      ensures Valid() && Quiet() && UNUSED < r < |heap| && heap[r].phase == Full && NatForm(heap[r], mng, n)
      ensures Conv(E, Lit(NatLit(n)), mng[r])
    {
      NatLitConv(E, n, []);
      if n == 0 {
        r := MkValue(Const(NAT_ZERO, []), []);
        assert Mngs(old(mng), []) == [];
      } else {
        var pred := Lit(NatLit(n - 1));
        ClosOfClosed(mng, pred, []);
        var p := MkThunk(pred, []);
        ghost var mid := mng;
        r := MkValue(Const(NAT_SUCC, []), [p]);
        assert Mngs(mid, [p]) == [pred];
        assert [pred][..0] == [];
      }
    }

    method StrCtor(s: seq<nat>, fuel: nat) returns (ok: bool, r: Ref)
      requires Valid()
      modifies this
      ensures Valid()
      ensures ok ==> Deepened() && UNUSED < r < |heap| && heap[r].phase == Full
      ensures ok ==> mng[r] == StrLitToCtor(s) && Conv(E, Lit(StrLit(s)), mng[r])
      decreases fuel, 6
    {
      var c := StrLitToCtor(s);
      ClosedStrCtor(s);
      ClosOfClosed(mng, c, []);
      r := MkThunk(c, []);
      assert IsLitStep(Lit(StrLit(s)), c);
      RootStep(E, true, Lit(StrLit(s)), c);
      ok := Force(r, true, fuel);
    }
  }

  lemma MngsSnoc(mng: seq<Term>, rs: seq<Ref>, r: Ref)
    ensures Mngs(mng, rs + [r])[..|rs|] == Mngs(mng, rs) && Mngs(mng, rs + [r])[|rs|] == At(mng, r)
  {
  }

  lemma ValueExtend(mng: seq<Term>, mng': seq<Term>, x: Thunk)
    requires Extends(mng, mng') && EnvOk(|mng|, x.venv) && RefsOk(|mng|, x.args)
    ensures ValueOf(mng', x) == ValueOf(mng, x)
  {
    MngsExtend(mng, mng', x.args);
    ClosExtend(mng, mng', x.vterm, x.venv);
  }

  lemma HeapClosed(E: Env, heap: seq<Thunk>, mng: seq<Term>)
    requires HeapOk(E, heap, mng)
    ensures forall r :: 0 <= r < |mng| ==> Closed(mng[r])
  {
    forall r | 0 <= r < |mng| ensures Closed(mng[r]) { assert ThunkOk(E, mng, r, heap[r]); }
  }

  lemma {:induction false} ClosedCharList(cps: seq<nat>)
    ensures Closed(CharList(cps))
  {
    if cps != [] { ClosedCharList(cps[1..]); }
  }

  lemma ClosedStrCtor(s: seq<nat>)
    ensures Closed(StrLitToCtor(s))
  {
    ClosedCharList(CodePoints(s));
  }

  lemma {:induction false} ClosedMkApps(f: Term, args: seq<Term>)
    requires Closed(f) && forall i :: 0 <= i < |args| ==> Closed(args[i])
    ensures Closed(MkApps(f, args))
    decreases |args|
  {
    if args != [] { ClosedMkApps(f, args[..|args| - 1]); }
  }

  /** Every one of the nb innermost binders the body mentions is in the mask, counted from the outermost. */
  ghost predicate MaskCovers(body: Term, nb: nat, mask: set<nat>) {
    forall i: nat :: i < nb && Occurs(body, i) ==> nb - 1 - i in mask
  }

  function Below(n: nat): (s: set<nat>)
    ensures forall i: nat :: i in s <==> i < n
  {
    if n == 0 then {} else Below(n - 1) + {n - 1}
  }

  ghost predicate Pending(todo: seq<(Term, nat)>, i: nat)
    decreases |todo|
  {
    todo != [] && (Occurs(todo[|todo| - 1].0, i + todo[|todo| - 1].1) || Pending(todo[..|todo| - 1], i))
  }

  /** Replacing an entry by its parts loses no pending variable. */
  lemma PendingPush(before: seq<(Term, nat)>, after: seq<(Term, nat)>, x: Term, d: nat)
    requires before != [] && before[|before| - 1] == (x, d)
    requires var init := before[..|before| - 1];
             match x
             case App(f, a) => after == init + [(f, d), (a, d)]
             case Lam(y, b) => after == init + [(y, d), (b, d + 1)]
             case Pi(y, b) => after == init + [(y, d), (b, d + 1)]
             case Let(y, v, b) => after == init + [(y, d), (v, d), (b, d + 1)]
             case Proj(_, _, e) => after == init + [(e, d)]
             case _ => false
    ensures forall i: nat :: Pending(before, i) ==> Pending(after, i)
  {
    var init := before[..|before| - 1];
    forall i: nat | Pending(before, i) ensures Pending(after, i) {
      match x
      case App(f, a) => PendingTwo(init, (f, d), (a, d), i);
      case Lam(y, b) => PendingTwo(init, (y, d), (b, d + 1), i);
      case Pi(y, b) => PendingTwo(init, (y, d), (b, d + 1), i);
      case Let(y, v, b) =>
        PendingTwo(init + [(y, d)], (v, d), (b, d + 1), i);
        assert init + [(y, d)] + [(v, d), (b, d + 1)] == after;
        assert (init + [(y, d)])[..|init|] == init;
      case Proj(_, _, e) => assert after[..|init|] == init;
    }
  }

  lemma PendingTwo(init: seq<(Term, nat)>, x: (Term, nat), y: (Term, nat), i: nat)
    ensures Pending(init + [x, y], i) <==> Pending(init, i) || Occurs(x.0, i + x.1) || Occurs(y.0, i + y.1)
  {
    assert (init + [x, y])[..|init| + 1] == init + [x];
    assert (init + [x])[..|init|] == init;
  }

  lemma KConv(E: Env, h: Term, args: seq<Term>, m2: Term)
    requires h.Const? && h.n in E.consts && E.consts[h.n].Rec? && E.consts[h.n].k && args != []
    requires m2 == E.kCtor(h.n, args[|args| - 1])
    ensures Conv(E, MkApps(h, args[|args| - 1 := m2]), MkApps(h, args))
  {
    var m := args[|args| - 1];
    assert IsOracleStep(E, m, m2, h.n);
    RootStep(E, true, m, m2);
    ConvArg(E, h, args, |args| - 1, m2);
    ConvSym(E, MkApps(h, args), MkApps(h, args[|args| - 1 := m2]));
  }

  lemma RuleClosed(E: Env, n: Name, rule: RecRule, ls: seq<L.Level>)
    requires WfEnv(E) && n in E.consts && E.consts[n].Rec? && rule in E.consts[n].rules
    requires |ls| == |E.consts[n].rparams|
    ensures Closed(InstantiateLParams(rule.rhs, E.consts[n].rparams, ls))
  {
    InstantiateLParamsOccurs(rule.rhs, E.consts[n].rparams, ls);
  }

  lemma SpineOfRule(mng: seq<Term>, args: seq<Ref>, margs: seq<Ref>, k: nat, nfields: nat)
    requires k <= |args| && nfields <= |margs|
    ensures Mngs(mng, args)[..k] + Mngs(mng, margs)[|margs| - nfields..]
         == Mngs(mng, args[..k] + margs[|margs| - nfields..])
  {
  }

  lemma IotaMeaning(E: Env, mng: seq<Term>, h: Term, args: seq<Ref>, head: Term, margs: seq<Ref>, rule: RecRule)
    requires WfEnv(E) && h.Const? && h.n in E.consts && E.consts[h.n].Rec? && |h.ls| == |E.consts[h.n].rparams|
    requires |args| == MajorIdx(E.consts[h.n]) + 1 && RefsOk(|mng|, args)
    requires Conv(E, mng[args[|args| - 1]], MkApps(head, Mngs(mng, margs)))
    requires head.Const? && FindRule(E.consts[h.n].rules, head.n) == Some(rule) && rule.nfields <= |margs|
    ensures var rec := E.consts[h.n];
            var rhs := InstantiateLParams(rule.rhs, rec.rparams, h.ls);
            Closed(rhs)
            && Conv(E, MkApps(rhs, Mngs(mng, args[..FirstIndex(rec)] + margs[|margs| - rule.nfields..])),
                    MkApps(h, Mngs(mng, args)))
  {
    var rec := E.consts[h.n];
    RuleClosed(E, h.n, rule, h.ls);
    IotaConv(E, h, Mngs(mng, args), head, Mngs(mng, margs), rule);
    SpineOfRule(mng, args, margs, FirstIndex(rec), rule.nfields);
    ConvSym(E, MkApps(h, Mngs(mng, args)), IotaResult(rec, h.ls, Mngs(mng, args), Mngs(mng, margs), rule));
  }

  lemma FixResultClos(mng: seq<Term>, body: Term, args: seq<Ref>, margs: seq<Ref>, n: nat, refs: seq<Ref>)
    requires args != [] && n <= |margs| && refs == args[..|args| - 1] + margs[|margs| - n..]
    ensures FixResult(body, Mngs(mng, args), Mngs(mng, margs), n) == Clos(mng, body, Rev(refs))
  {
    SpineOfRule(mng, args, margs, |args| - 1, n);
    RevMngs(mng, refs);
  }

  lemma FixBodyOk(E: Env, n: Name, ls: seq<L.Level>, arm: FixArm, refs: seq<Ref>, bound: nat)
    requires WfEnv(E) && n in E.fix && n in E.consts && E.consts[n].Def? && |ls| == |E.consts[n].dparams|
    requires arm in E.fix[n].arms && |refs| == E.fix[n].major + arm.nfields && RefsOk(bound, refs)
    ensures ClosOk(bound, InstantiateLParams(arm.body, E.consts[n].dparams, ls), Rev(refs))
  {
    var k :| 0 <= k < |E.fix[n].arms| && E.fix[n].arms[k] == arm;
    assert Range(E.fix[n].arms[k].body) <= E.fix[n].major + E.fix[n].arms[k].nfields;
    InstantiateLParamsOccurs(arm.body, E.consts[n].dparams, ls);
    RangeExact(arm.body);
  }

  lemma FixMeaning(E: Env, mng: seq<Term>, h: Term, args: seq<Ref>, head: Term, margs: seq<Ref>, arm: FixArm,
                   refs: seq<Ref>)
    requires h.Const? && h.n in E.fix && h.n in E.consts && E.consts[h.n].Def?
    requires |h.ls| == |E.consts[h.n].dparams| && |args| == E.fix[h.n].major + 1 && args[|args| - 1] < |mng|
    requires head.Const? && FindArm(E.fix[h.n].arms, head.n, |margs|, E.fix[h.n].nparams) == Some(arm)
    requires Conv(E, mng[args[|args| - 1]], MkApps(head, Mngs(mng, margs)))
    requires refs == args[..|args| - 1] + margs[|margs| - arm.nfields..]
    ensures Conv(E, Clos(mng, InstantiateLParams(arm.body, E.consts[h.n].dparams, h.ls), Rev(refs)),
                 MkApps(h, Mngs(mng, args)))
  {
    var body := InstantiateLParams(arm.body, E.consts[h.n].dparams, h.ls);
    var ts, us := Mngs(mng, args), Mngs(mng, margs);
    FixConv(E, h, ts, head, us, arm);
    FixResultClos(mng, body, args, margs, arm.nfields, refs);
    ConvSym(E, MkApps(h, ts), FixResult(body, ts, us, arm.nfields));
  }

  lemma QuotMeaning(E: Env, mng: seq<Term>, h: Term, args: seq<Ref>, head: Term, margs: seq<Ref>)
    requires h.Const? && (h.n == QUOT_LIFT || h.n == QUOT_IND) && RefsOk(|mng|, args) && RefsOk(|mng|, margs)
    requires |args| == (if h.n == QUOT_LIFT then 6 else 5)
    requires Conv(E, mng[args[|args| - 1]], MkApps(head, Mngs(mng, margs)))
    requires head.Const? && head.n == QUOT_MK && |margs| == 3
    ensures Conv(E, App(mng[args[3]], mng[margs[2]]), MkApps(h, Mngs(mng, args)))
  {
    QuotConv(E, h, Mngs(mng, args), head, Mngs(mng, margs));
    ConvSym(E, MkApps(h, Mngs(mng, args)), App(mng[args[3]], mng[margs[2]]));
  }

  lemma ShapeOccurs(rhs: Term, nbefore: nat, nfields: nat, nminors: nat, sh: Shape, j: nat, i: nat)
    requires RuleShape(rhs, nbefore, nfields, nminors) == Some(sh) && j < |sh.ihs| && Occurs(sh.ihs[j], i)
    ensures Occurs(LamBody(rhs, nbefore + nfields), i)
  {
    var b := LamBody(rhs, nbefore + nfields);
    SpineSplit(b);
    OccursMkApps(AppFn(b), AppArgs(b), i);
    assert AppArgs(b)[nfields + j] == sh.ihs[j];
  }

  lemma HypothesisOk(n: nat, rhs: Term, before: seq<Ref>, fields: seq<Ref>, ih: Term)
    requires Closed(rhs) && IsLams(rhs, |before| + |fields|) && RefsOk(n, before) && RefsOk(n, fields)
    requires forall i: nat :: Occurs(ih, i) ==> Occurs(LamBody(rhs, |before| + |fields|), i)
    ensures ClosOk(n, ih, Rev(before + fields))
  {
    forall i: nat | Occurs(ih, i)
      ensures i < |before + fields| && Rev(before + fields)[i] != UNUSED
    {
      RuleBodyBound(rhs, |before + fields|, i);
    }
  }

  /** A definition's instantiated and fused value stands for the definition. */
  lemma DeltaMeaning(E: Env, fused: Term -> Term, h: Term)
    requires WfEnv(E) && WfFused(E, fused)
    requires h.Const? && h.n in E.consts && E.consts[h.n].Def? && |h.ls| == |E.consts[h.n].dparams|
    ensures var v := fused(InstantiateLParams(E.consts[h.n].value, E.consts[h.n].dparams, h.ls));
            Closed(v) && Conv(E, v, h)
  {
    var u := InstantiateLParams(E.consts[h.n].value, E.consts[h.n].dparams, h.ls);
    InstantiateLParamsOccurs(E.consts[h.n].value, E.consts[h.n].dparams, h.ls);
    assert IsDelta(E, h, u);
    RootStep(E, true, h, u);
    RedsConv(E, u, fused(u));
    StarTrans(E, true, h, u, fused(u));
    ConvSym(E, h, fused(u));
  }

  lemma MkAppsOne(mng: seq<Term>, h: Term, args: seq<Ref>)
    requires |args| == 1
    ensures MkApps(h, Mngs(mng, args)) == App(h, At(mng, args[0]))
  {
    assert Mngs(mng, args)[..0] == [];
  }

  lemma MkAppsTwo(mng: seq<Term>, h: Term, args: seq<Ref>)
    requires |args| == 2
    ensures MkApps(h, Mngs(mng, args)) == App(App(h, At(mng, args[0])), At(mng, args[1]))
  {
    var ts := Mngs(mng, args);
    assert ts[..1] == [ts[0]];
    assert [ts[0]][..0] == [];
    assert MkApps(h, [ts[0]]) == App(h, ts[0]);
  }

  /** A head that is done, and no argument for it if it is a lambda. */
  ghost predicate WeakHead(E: Env, t: Term) { HeadDone(E, AppFn(t)) && (AppFn(t).Lam? ==> !t.App?) }

  lemma ReadHead(E: Env, mng: seq<Term>, h: Term, env: seq<Ref>, args: seq<Term>)
    requires ClosOk(|mng|, h, env) && HeadDone(E, h) && (h.Lam? ==> args == [])
    ensures WeakHead(E, MkApps(Clos(mng, h, env), args))
  {
    ClosIsSub(mng, h, env);
    SpineOf(Clos(mng, h, env), args);
  }

  datatype Status = Reduced | IsValue | Failed

  /** One run of the machine: a head under an environment, and the frames below it. */
  class Run {
    const M: Machine
    var h: Term
    var env: seq<Ref>
    var delta: bool
    const cheapProj: bool
    var st: seq<Frame>
    ghost const start: bool      // the flag it began with
    ghost const goal: Term       // what the run reduces
    ghost const outer: set<Ref>  // thunks already being forced when it began

    ghost predicate Holding(cur: Term)
      reads this, M
    {
      M.Valid() && StackOk(M.E, M.mng, cur, st, goal) && Marked(M.heap, st, outer)
      && Depths(st, delta, start, cheapProj)
    }

    /** The heap has grown, and under delta no value is only a core one. */
    twostate predicate Grown()
      reads this, M
    {
      M.Grew() && (start ==> NoNewCore(old(M.heap), M.heap))
    }

    /** No step applies to the head with the given arguments. */
    ghost predicate Ended(args: seq<Ref>, n: nat)
      reads this, M
    {
      Final(M.E, cheapProj, M.heap, M.mng, Answer(h, env, args), delta, n)
    }

    /** The state, read back, is convertible with the goal, and so is every segment with its mark. */
    ghost predicate Ok()
      reads this, M
    {
      ClosOk(|M.heap|, h, env) && Holding(Clos(M.mng, h, env))
    }

    constructor (M: Machine, h: Term, env: seq<Ref>, delta: bool, cheapProj: bool, ghost goal: Term)
      ensures this.M == M && this.h == h && this.env == env && this.delta == delta && this.cheapProj == cheapProj
      ensures st == [] && this.goal == goal && this.start == delta
      ensures outer == set r | 0 <= r < |M.heap| && M.heap[r].phase == Forcing
      ensures M.Valid() ==> Holding(goal)
    {
      this.M, this.h, this.env, this.delta, this.cheapProj := M, h, env, delta, cheapProj;
      this.start, this.goal := delta, goal;
      this.st := [];
      this.outer := set r | 0 <= r < |M.heap| && M.heap[r].phase == Forcing;
      new;
      StarRefl(M.E, true, goal);
    }

    method PushAll(args: seq<Ref>)
      requires RefsOk(|M.heap|, args) && ClosOk(|M.heap|, h, env)
      requires Holding(MkApps(Clos(M.mng, h, env), Mngs(M.mng, args)))
      modifies this`st
      ensures Ok() && UpperArgs(st) == args + UpperArgs(old(st)) && old(st) <= st
    {
      hide Marked, Depths, StackOk, HeapOk, MapOk;
      UpperPushed(st, args);
      PushDepths(st, args, delta, start, cheapProj);
      PushMarked(M.heap, st, args, outer);
      StackPush(M.E, M.mng, Clos(M.mng, h, env), st, args, goal);
      st := PushArgs(st, args);
    }

    // ---- entering and updating thunks

    /** Use the value x of a forced thunk as the head. */
    method UseValue(x: Thunk, ghost t: Ref)
      requires UNUSED < t < |M.heap| && Holding(At(M.mng, t))
      requires ClosOk(|M.heap|, x.vterm, x.venv) && RefsOk(|M.heap|, x.args) && Conv(M.E, M.mng[t], ValueOf(M.mng, x))
      modifies this`h, this`env, this`st
      ensures Ok() && old(st) <= st
    {
      hide Marked, Depths, StackOk, HeapOk, MapOk;
      h, env := x.vterm, x.venv;
      ConvSym(M.E, M.mng[t], ValueOf(M.mng, x));
      StackConv(M.E, M.mng, M.mng[t], ValueOf(M.mng, x), st, goal);
      PushAll(x.args);
    }

    method UseClosure(t: Ref)
      requires UNUSED < t < |M.heap| && Holding(At(M.mng, t)) && M.heap[t].term.Some?
      modifies this`h, this`env
      ensures Ok()
    {
      var x := M.heap[t];
      assert ThunkOk(M.E, M.mng, t, x);
      h, env := x.term.value, x.env;
    }

    /** Evaluate thunk t under an update mark, from its core value if it has one, else from its closure. */
    method Mark(t: Ref)
      requires UNUSED < t < |M.heap| && Holding(At(M.mng, t))
      requires M.heap[t].phase == Delayed || M.heap[t].phase == Core
      modifies this`h, this`env, this`st, M`heap
      ensures Ok() && Grown() && M.heap[t].phase == Forcing && |M.heap| == |old(M.heap)| && old(st) <= st
    {
      var x := M.heap[t];
      assert ThunkOk(M.E, M.mng, t, x);
      if x.phase == Core { M.ValueFacts(t); }
      SetForcing(t);
      StarRefl(M.E, true, M.mng[t]);
      assert (st + [Upd(t)])[..|st|] == st;
      st := st + [Upd(t)];
      if x.phase == Core { UseValue(x, t); } else { UseClosure(t); }
    }

    /** The thunk is being forced from now on; its mark goes on the stack next. */
    method SetForcing(t: Ref)
      requires M.Valid() && UNUSED < t < |M.heap| && Marked(M.heap, st, outer)
      requires M.heap[t].phase == Delayed || M.heap[t].phase == Core
      modifies M`heap
      ensures M.Valid() && Grown() && |M.heap| == |old(M.heap)| && M.heap[t].phase == Forcing
      ensures M.heap[t].term == old(M.heap)[t].term && M.heap[t].term.Some? && Marked(M.heap, st + [Upd(t)], outer)
    {
      ghost var before := M.heap;
      var x := M.heap[t];
      assert ThunkOk(M.E, M.mng, t, x);
      var x' := if x.phase == Core then x.(phase := Forcing, venv := [], args := [], rb := None)
                else x.(phase := Forcing, rb := None);
      M.heap := M.heap[t := x'];
      forall r | 0 <= r < |M.heap| ensures ThunkOk(M.E, M.mng, r, M.heap[r]) {
        assert ThunkOk(M.E, M.mng, r, before[r]);
      }
      PushMark(before, st, outer, t, x');
    }

    /** Use the thunk's value if it has one for the current flag, else evaluate it; refused if it is being forced. */
    method Enter(t: Ref) returns (ok: bool)
      requires UNUSED < t < |M.heap| && Holding(At(M.mng, t))
      modifies this`h, this`env, this`st, M
      ensures M.Valid() && Grown()
      ensures ok ==> Ok() && M.heap[t].phase != Delayed && (delta ==> M.heap[t].phase != Core) && old(st) <= st
      ensures ok <==> old(M.heap[t].phase) != Forcing
    {
      var x := M.heap[t];
      assert ThunkOk(M.E, M.mng, t, x);
      if x.phase == Full && !delta && x.term.Some? { UseClosure(t); return true; }
      if x.phase == Full || (x.phase == Core && !delta) { M.ValueFacts(t); UseValue(x, t); return true; }
      if x.phase == Forcing { return false; }
      if delta && x.phase == Delayed && x.term.value.App? && Range(x.term.value) > 0 {
        var hit := Recall(t);
        if hit { M.ValueFacts(t); UseValue(M.heap[t], t); return true; }
      }
      Mark(t);
      return true;
    }

    /**
     * Delayed applications are found by what they read back to: equal closures share
     * one value.  On a hit the value is copied into the thunk.
     */
    method Recall(t: Ref) returns (hit: bool)
      requires UNUSED < t < |M.heap| && Holding(At(M.mng, t)) && M.heap[t].phase == Delayed
      modifies M
      ensures Grown() && M.mng == old(M.mng) && Holding(At(M.mng, t))
      ensures M.heap[t].phase == if hit then Full else Delayed
    {
      ghost var before := M.heap;
      var key := M.Readback(t);
      KeptMarked(before, M.heap, st, outer);
      assert SameBut(before[t], M.heap[t]);
      StackExtend(M.E, old(M.mng), M.mng, At(M.mng, t), st, goal);
      assert forall r :: 0 <= r < |M.heap| ==> SameBut(before[r], M.heap[r]);
      if key !in M.closed {
        M.closed := M.closed[key := t];
        return false;
      }
      var u := M.closed[key];
      if u == t || M.heap[u].phase != Full { return false; }
      assert ThunkOk(M.E, M.mng, u, M.heap[u]) && ThunkOk(M.E, M.mng, t, M.heap[t]);
      CopyValue(t, u);
      return true;
    }

    method CopyValue(t: Ref, u: Ref)
      requires M.Valid() && Marked(M.heap, st, outer)
      requires UNUSED < t < |M.heap| && UNUSED < u < |M.heap| && M.mng[t] == M.mng[u]
      requires M.heap[t].phase == Delayed && M.heap[u].phase == Full
      modifies M`heap
      ensures M.Valid() && Grown() && Marked(M.heap, st, outer)
      ensures M.heap[t].phase == Full && |M.heap| == |old(M.heap)|
    {
      ghost var before := M.heap;
      var y := M.heap[u];
      M.heap := M.heap[t := M.heap[t].(phase := Full, vterm := y.vterm, venv := y.venv, args := y.args)];
      forall r | 0 <= r < |M.heap| ensures ThunkOk(M.E, M.mng, r, M.heap[r]) {
        assert ThunkOk(M.E, M.mng, r, before[r]) && ThunkOk(M.E, M.mng, u, before[u]);
      }
      KeptMarked(before, M.heap, st, outer);
    }

    /** Overwrite a marked thunk with the head and the arguments gathered above its mark. */
    method Assign(t: Ref, args: seq<Ref>)
      requires M.Valid() && UNUSED < t < |M.heap| && ClosOk(|M.heap|, h, env) && RefsOk(|M.heap|, args)
      requires M.heap[t].term.Some?
      requires Conv(M.E, M.mng[t], MkApps(Clos(M.mng, h, env), Mngs(M.mng, args)))
      modifies M`heap
      ensures M.Valid() && |M.heap| == |old(M.heap)|
      ensures forall r {:trigger M.heap[r]} :: 0 <= r < |M.heap| && r != t ==> M.heap[r] == old(M.heap)[r]
      ensures M.heap[t].phase == (if delta then Full else Core) && M.heap[t].term == old(M.heap)[t].term
    {
      ghost var before := M.heap;
      var keep := if Range(h) > 0 then env else [];
      if Range(h) == 0 {
        ClosOfClosed(M.mng, h, env);
        ClosOfClosed(M.mng, h, []);
      }
      M.heap := M.heap[t := M.heap[t].(phase := if delta then Full else Core, vterm := h, venv := keep, args := args,
                                       rb := None)];
      forall r | 0 <= r < |M.heap| ensures ThunkOk(M.E, M.mng, r, M.heap[r]) {
        assert ThunkOk(M.E, M.mng, r, before[r]);
      }
    }
  
    lemma TopMark(cur: Term)
      requires Holding(cur) && st != [] && st[|st| - 1].Upd?
      ensures var t := st[|st| - 1].th;
              UNUSED < t < |M.heap| && M.heap[t].phase == Forcing && M.heap[t].term.Some? && Conv(M.E, cur, M.mng[t])
              && StackOk(M.E, M.mng, M.mng[t], st[..|st| - 1], goal) && Depths(st[..|st| - 1], delta, start, cheapProj)
      ensures start ==> delta
    {
      assert Upd(st[|st| - 1].th) in st;
      if start { DeltaStays(st, delta, start, cheapProj); }
    }

    /** Pop the update mark on top, overwriting its thunk with the current head on the given arguments. */
    method Update(args: seq<Ref>)
      requires ClosOk(|M.heap|, h, env) && RefsOk(|M.heap|, args)
      requires Holding(MkApps(Clos(M.mng, h, env), Mngs(M.mng, args)))
      requires st != [] && st[|st| - 1].Upd?
      modifies this`st, M`heap
      ensures Holding(MkApps(Clos(M.mng, h, env), Mngs(M.mng, args)))
      ensures st == old(st)[..|old(st)| - 1] && UpperArgs(st) == UpperArgs(old(st))
      ensures |M.heap| == |old(M.heap)| && Grown()
    {
      hide Marked, Depths, StackOk, HeapOk, MapOk;
      var t := st[|st| - 1].th;
      ghost var cur := MkApps(Clos(M.mng, h, env), Mngs(M.mng, args));
      ghost var before := M.heap;
      TopMark(cur);
      ConvSym(M.E, cur, M.mng[t]);
      Assign(t, args);
      PopMark(before, M.heap, st, outer, t);
      st := st[..|st| - 1];
      StackConv(M.E, M.mng, M.mng[t], cur, st, goal);
    }

    /** Are there k arguments above the first continuation? */
    method Enough(k: nat) returns (enough: bool)
      ensures enough <==> |UpperArgs(st)| >= k
    {
      var avail, i := 0, |st|;
      assert st[..i] == st;
      while i > 0 && avail < k && !st[i - 1].Cont?
        invariant 0 <= i <= |st| && avail <= k && avail + |UpperArgs(st[..i])| == |UpperArgs(st)|
        decreases i
      {
        assert st[..i][..i - 1] == st[..i - 1];
        if st[i - 1].Arg? { avail := avail + 1; }
        i := i - 1;
      }
      return avail >= k;
    }

    /**
     * The first k pending arguments, read through update marks: a partial application is a value, so
     * each mark met gets it as its value.
     */
    method TakeArgs(k: nat) returns (have: bool, out: seq<Ref>)
      requires Ok()
      modifies this`st, M`heap
      ensures Grown() && M.mng == old(M.mng) && |M.heap| == |old(M.heap)|
      ensures !have ==> Ok() && st == old(st) && |UpperArgs(st)| < k
      ensures have ==> out + UpperArgs(st) == UpperArgs(old(st))
      ensures have ==> |out| == k && RefsOk(|M.heap|, out) && ClosOk(|M.heap|, h, env)
      ensures have ==> Holding(MkApps(Clos(M.mng, h, env), Mngs(M.mng, out)))
    {
      hide Marked, Depths, StackOk, HeapOk, MapOk;
      out := [];
      have := Enough(k);
      if !have { return; }
      assert Mngs(M.mng, []) == [];
      while |out| < k
        invariant Grown() && M.mng == old(M.mng) && |M.heap| == |old(M.heap)|
        invariant |out| <= k <= |out| + |UpperArgs(st)| && RefsOk(|M.heap|, out) && ClosOk(|M.heap|, h, env)
        invariant out + UpperArgs(st) == UpperArgs(old(st))
        invariant Holding(MkApps(Clos(M.mng, h, env), Mngs(M.mng, out)))
        decreases |st|
      {
        if st[|st| - 1].Arg? {
          out := TakeOne(out);
        } else {
          Update(out);
        }
      }
    }

    method TakeOne(out: seq<Ref>) returns (out': seq<Ref>)
      requires RefsOk(|M.heap|, out) && Holding(MkApps(Clos(M.mng, h, env), Mngs(M.mng, out)))
      requires st != [] && st[|st| - 1].Arg?
      modifies this`st
      ensures out' == out + [old(st)[|old(st)| - 1].th] && RefsOk(|M.heap|, out')
      ensures Holding(MkApps(Clos(M.mng, h, env), Mngs(M.mng, out'))) && st == old(st)[..|old(st)| - 1]
      ensures out' + UpperArgs(st) == out + UpperArgs(old(st))
    {
      hide Marked, HeapOk, MapOk;
      var r := st[|st| - 1].th;
      MngsSnoc(M.mng, out, r);
      TakenNext(out, st);
      PopMarked(M.heap, st, outer);
      st := st[..|st| - 1];
      out' := out + [r];
    }

    /** Suspend on a continuation and evaluate the thunk it waits for. */
    method ForceVia(f: Frame) returns (ok: bool)
      requires f.Cont? && f.kind != ProjK && f.saved == delta && M.Valid() && ContOk(M.mng, f)
      requires Holding(MkApps(Clos(M.mng, f.head, f.env), Mngs(M.mng, f.args)))
      modifies this`h, this`env, this`st, this`delta, M
      ensures M.Valid() && (ok ==> Grown() && Ok() && old(st) + [f] <= st)
    {
      hide Marked, HeapOk, MapOk;
      StarRefl(M.E, true, M.mng[f.th]);
      PushContMarked(M.heap, st, f, outer);
      assert (st + [f])[..|st|] == st;
      st := st + [f];
      delta := true;
      ok := Enter(f.th);
    }
  
    /** Growth of the heap that leaves no thunk newly being forced keeps the invariant. */
    twostate lemma Keep(cur: Term)
      requires old(Holding(cur)) && M.Valid() && M.Settled() && st == old(st) && delta == old(delta)
      ensures Holding(cur)
    {
      StackExtend(M.E, old(M.mng), M.mng, cur, st, goal);
      KeptMarked(old(M.heap), M.heap, st, outer);
    }

    /** Wait for argument i of a constant head. */
    method Await(kind: Kind, args: seq<Ref>, i: nat) returns (s: Status)
      requires h.Const? && kind != ProjK && M.Valid() && i < |args| && RefsOk(|M.heap|, args) && EnvOk(|M.heap|, env)
      requires Holding(MkApps(h, Mngs(M.mng, args)))
      modifies this`h, this`env, this`st, this`delta, M
      ensures M.Valid() && s != IsValue && (s != Failed ==> Grown() && Ok())
      ensures s == Reduced ==> Cont(kind, old(h), old(env), args, args[i], old(delta)) in st
    {
      hide Marked, Depths, StackOk, HeapOk, MapOk;
      ClosOfClosed(M.mng, h, env);
      var f := Cont(kind, h, env, args, args[i], delta);
      var ok := ForceVia(f);
      if ok { assert (old(st) + [f])[|old(st)|] == f; }
      return if ok then Reduced else Failed;
    }

    /** A constant head with its arguments given back is a value. */
    method Stuck(args: seq<Ref>)
      requires h.Const? && M.Valid() && RefsOk(|M.heap|, args) && EnvOk(|M.heap|, env)
      requires Holding(MkApps(h, Mngs(M.mng, args)))
      modifies this`st
      ensures Ok() && UpperArgs(st) == args + UpperArgs(old(st))
    {
      hide Marked, Depths, StackOk, HeapOk, MapOk;
      ClosOfClosed(M.mng, h, env);
      PushAll(args);
    }

    // ---- recursors

    /** The recursor at the head does not fire on the arguments that are pending. */
    ghost predicate RecHeld()
      reads this, M
    {
      h.Const? && h.n in M.E.consts && M.E.consts[h.n].Rec? && RecStuck(M.E, M.heap, M.mng, h, UpperArgs(st))
    }

    /** A recursor: wait for its major premise, then fire or stay stuck. */
    method StepRec(fuel: nat) returns (s: Status)
      requires Ok() && h.Const? && h.n in M.E.consts && M.E.consts[h.n].Rec?
      modifies this`h, this`env, this`st, this`delta, M
      ensures M.Valid() && (s != Failed ==> Grown() && Ok())
      ensures s == IsValue ==> h == old(h) && RecHeld()
      decreases fuel, 11
    {
      var have, args := TakeArgs(MajorIdx(M.E.consts[h.n]) + 1);
      if !have { return IsValue; }
      ClosOfClosed(M.mng, h, env);
      s := RecMajor(args, fuel);
    }

    /** The term has a thunk that has a value, or that a recursor on the stack waits for. */
    ghost predicate Asked(m: Term)
      reads this, M
    {
      exists r: Ref {:trigger IsFull(M.heap, r)} :: At(M.mng, r) == m && (IsFull(M.heap, r) || Awaited(r))
    }

    ghost predicate Awaited(r: Ref)
      reads this
    {
      exists f :: f in st && f.Cont? && f.kind == RecK && f.th == r
    }

    method RecMajor(args: seq<Ref>, fuel: nat) returns (s: Status)
      requires M.Valid() && h.Const? && h.n in M.E.consts && M.E.consts[h.n].Rec?
      requires |args| == MajorIdx(M.E.consts[h.n]) + 1 && RefsOk(|M.heap|, args) && EnvOk(|M.heap|, env)
      requires Holding(MkApps(h, Mngs(M.mng, args)))
      modifies this`h, this`env, this`st, this`delta, M
      ensures M.Valid() && (s != Failed ==> Grown() && Ok())
      ensures s == IsValue ==> h == old(h) && RecHeld()
      ensures s != Failed && M.E.consts[old(h).n].k && old(M.heap[args[|args| - 1]].phase != Full) ==>
        Asked(M.E.kCtor(old(h).n, old(At(M.mng, args[|args| - 1]))))
      decreases fuel, 10
    {
      hide Marked, Depths, StackOk, HeapOk, MapOk, Final;
      var major := |args| - 1;
      var args' := args;
      if M.E.consts[h.n].k && M.heap[args[major]].phase != Full { args' := KMajor(args); }
      ghost var r := args'[major];
      if M.heap[args'[major]].phase == Full {
        s := Iota(args', fuel);
      } else {
        s := Await(RecK, args', major);
      }
      assert s != Failed ==> IsFull(M.heap, r) || Awaited(r);
    }

    /** A K-like recursor's major premise, replaced by the constructor the kernel says it equals. */
    method KMajor(args: seq<Ref>) returns (args': seq<Ref>)
      requires M.Valid() && h.Const? && h.n in M.E.consts && M.E.consts[h.n].Rec? && M.E.consts[h.n].k
      requires args != [] && RefsOk(|M.heap|, args) && Holding(MkApps(h, Mngs(M.mng, args)))
      modifies M
      ensures Grown() && |args'| == |args| && RefsOk(|M.heap|, args') && Holding(MkApps(h, Mngs(M.mng, args')))
      ensures At(M.mng, args'[|args| - 1]) == M.E.kCtor(h.n, old(At(M.mng, args[|args| - 1])))
    {
      hide Marked, Depths, StackOk, HeapOk, MapOk;
      ghost var cur := MkApps(h, Mngs(M.mng, args));
      var major := args[|args| - 1];
      var m := M.Readback(major);
      HeapClosed(M.E, M.heap, M.mng);
      var m2 := M.E.kCtor(h.n, m);
      if m2 == m {
        Keep(cur);
        MngsExtend(old(M.mng), M.mng, args);
        return args;
      }
      ClosOfClosed(M.mng, m2, []);
      var r := M.MkThunk(m2, []);
      args' := args[|args| - 1 := r];
      Keep(cur);
      MngsExtend(old(M.mng), M.mng, args);
      KConv(M.E, h, Mngs(M.mng, args), m2);
      assert Mngs(M.mng, args') == Mngs(M.mng, args)[|args| - 1 := m2];
      StackConv(M.E, M.mng, cur, MkApps(h, Mngs(M.mng, args')), st, goal);
    }

    /** Fire the rule of the major premise's constructor. */
    method Iota(args: seq<Ref>, fuel: nat) returns (s: Status)
      requires M.Valid() && h.Const? && h.n in M.E.consts && M.E.consts[h.n].Rec?
      requires |args| == MajorIdx(M.E.consts[h.n]) + 1 && RefsOk(|M.heap|, args) && EnvOk(|M.heap|, env)
      requires M.heap[args[|args| - 1]].phase == Full && Holding(MkApps(h, Mngs(M.mng, args)))
      modifies this`h, this`env, this`st, M
      ensures M.Valid() && (s != Failed ==> Grown() && Ok())
      ensures s == IsValue ==> h == old(h) && RecHeld()
      decreases fuel, 9
    {
      hide Marked, Depths, StackOk, HeapOk, MapOk;
      var rec := M.E.consts[h.n];
      ghost var cur := MkApps(h, Mngs(M.mng, args));
      var major := args[|args| - 1];
      var ok, r := M.MajorCtor(major, rec.majorInduct, fuel);
      if !ok { return Failed; }
      Keep(cur);
      MngsExtend(old(M.mng), M.mng, args);
      s := IotaOn(args, r);
    }

    /** The major premise's constructor form is the value of thunk r. */
    method IotaOn(args: seq<Ref>, r: Ref) returns (s: Status)
      requires M.Valid() && h.Const? && h.n in M.E.consts && M.E.consts[h.n].Rec?
      requires |args| == MajorIdx(M.E.consts[h.n]) + 1 && RefsOk(|M.heap|, args) && EnvOk(|M.heap|, env)
      requires Holding(MkApps(h, Mngs(M.mng, args))) && UNUSED < r < |M.heap| && IsFull(M.heap, r)
      requires IsFull(M.heap, args[|args| - 1]) && Conv(M.E, M.mng[args[|args| - 1]], M.mng[r])
      requires CtorForm(M.E, M.heap, M.mng, args[|args| - 1], M.E.consts[h.n].majorInduct, r)
      modifies this`h, this`env, this`st, M
      ensures Grown() && Ok()
      ensures s == IsValue ==> h == old(h) && RecHeld()
    {
      hide Marked, Depths, StackOk, HeapOk, MapOk, CtorForm, MkApps, InstantiateLParams, Clos;
      var rec, x := M.E.consts[h.n], M.heap[r];
      ghost var cur := MkApps(h, Mngs(M.mng, args));
      var rule := if x.vterm.Const? then FindRule(rec.rules, x.vterm.n) else None;
      if rule.None? || rule.value.nfields > |x.args| || |h.ls| != |rec.rparams| {
        Stuck(args);
        assert (args + UpperArgs(old(st)))[|args| - 1] == args[|args| - 1];
        return IsValue;
      }
      M.ValueFacts(r);
      StarTrans(M.E, true, M.mng[args[|args| - 1]], M.mng[r], MkApps(x.vterm, Mngs(M.mng, x.args)));
      var rhs := InstantiateLParams(rule.value.rhs, rec.rparams, h.ls);
      var before, fields := args[..FirstIndex(rec)], x.args[|x.args| - rule.value.nfields..];
      IotaMeaning(M.E, M.mng, h, args, x.vterm, x.args, rule.value);
      StackConv(M.E, M.mng, cur, MkApps(rhs, Mngs(M.mng, before + fields)), st, goal);
      Fire(rhs, before, fields, rec.nminors);
      return Reduced;
    }

    /** Select the branch directly if the rule and the minor premise have the shape for it, else replay the rule. */
    method Fire(rhs: Term, before: seq<Ref>, fields: seq<Ref>, nminors: nat)
      requires M.Valid() && Closed(rhs) && nminors <= |before|
      requires RefsOk(|M.heap|, before) && RefsOk(|M.heap|, fields)
      requires Holding(MkApps(rhs, Mngs(M.mng, before + fields)))
      modifies this`h, this`env, this`st, M
      ensures Grown() && Ok()
    {
      hide Marked, Depths, StackOk, HeapOk, MapOk;
      var selected := SelectBranch(rhs, before, fields, nminors);
      if !selected {
        h, env := rhs, [];
        ClosOfClosed(M.mng, rhs, []);
        PushAll(before + fields);
      }
    }

    method SelectBranch(rhs: Term, before: seq<Ref>, fields: seq<Ref>, nminors: nat) returns (selected: bool)
      requires M.Valid() && Closed(rhs) && nminors <= |before|
      requires RefsOk(|M.heap|, before) && RefsOk(|M.heap|, fields)
      requires Holding(MkApps(rhs, Mngs(M.mng, before + fields)))
      modifies this`h, this`env, M
      ensures Grown() && (selected ==> Ok())
      ensures !selected ==> M.heap == old(M.heap) && M.mng == old(M.mng) && M.closed == old(M.closed)
    {
      hide Marked, Depths, StackOk, HeapOk, MapOk;
      var shape := RuleShape(rhs, |before|, |fields|, nminors);
      if shape.None? { return false; }
      var sh := shape.value;
      var minor := before[|before| - 1 - (sh.minor - |fields|)];
      var found, mt, menv := MinorClosure(minor);
      var nb := |fields| + |sh.ihs|;
      if !found || !mt.Lam? || !IsLams(mt, nb) || nb > 64 { return false; }
      var body := LamBody(mt, nb);
      var mask := UsedBinders(body, nb);
      var cells := MakeCells(rhs, before, fields, nminors, sh, mt, menv, mask);
      EnterBranch(rhs, before, fields, nminors, sh, mt, menv, cells);
      return true;
    }

    method MakeCells(rhs: Term, before: seq<Ref>, fields: seq<Ref>, nminors: nat, sh: Shape, mt: Term, menv: seq<Ref>,
                     mask: set<nat>)
      returns (cells: seq<Ref>)
      requires M.Valid() && Closed(rhs) && nminors <= |before| && IsLams(mt, |fields| + |sh.ihs|)
      requires RuleShape(rhs, |before|, |fields|, nminors) == Some(sh)
      requires RefsOk(|M.heap|, before) && RefsOk(|M.heap|, fields) && ClosOk(|M.heap|, mt, menv)
      requires Conv(M.E, At(M.mng, before[|before| - 1 - (sh.minor - |fields|)]), Clos(M.mng, mt, menv))
      requires MaskCovers(LamBody(mt, |fields| + |sh.ihs|), |fields| + |sh.ihs|, mask)
      requires Holding(MkApps(rhs, Mngs(M.mng, before + fields)))
      modifies M
      ensures M.Quiet() && Holding(MkApps(rhs, Mngs(M.mng, before + fields))) && |cells| == |sh.ihs|
      ensures ClosOk(|M.heap|, mt, menv)
      ensures Conv(M.E, At(M.mng, before[|before| - 1 - (sh.minor - |fields|)]), Clos(M.mng, mt, menv))
      ensures CellsOk(M.mng, LamBody(mt, |fields| + |sh.ihs|), sh.ihs, Rev(before + fields), cells)
    {
      hide Marked, Depths, StackOk, HeapOk, MapOk;
      ghost var cur := MkApps(rhs, Mngs(M.mng, before + fields));
      forall j, i: nat | 0 <= j < |sh.ihs| && Occurs(sh.ihs[j], i)
        ensures Occurs(LamBody(rhs, |before| + |fields|), i)
      {
        ShapeOccurs(rhs, |before|, |fields|, nminors, sh, j, i);
      }
      cells := BuildCells(rhs, before, fields, sh, LamBody(mt, |fields| + |sh.ihs|), mask);
      Keep(cur);
      MngsExtend(old(M.mng), M.mng, before + fields);
      ClosExtend(old(M.mng), M.mng, mt, menv);
    }

    /** The closure a minor premise stands for, as long as it is not waiting for arguments. */
    method MinorClosure(r: Ref) returns (found: bool, mt: Term, menv: seq<Ref>)
      requires M.Valid() && UNUSED < r < |M.heap|
      ensures found ==> ClosOk(|M.heap|, mt, menv) && Conv(M.E, M.mng[r], Clos(M.mng, mt, menv))
    {
      var x := M.heap[r];
      assert ThunkOk(M.E, M.mng, r, x);
      if x.phase == Delayed {
        StarRefl(M.E, true, M.mng[r]);
        return true, x.term.value, x.env;
      }
      return x.phase != Forcing && x.args == [], x.vterm, x.venv;
    }

    method EnterBranch(rhs: Term, before: seq<Ref>, fields: seq<Ref>, nminors: nat, sh: Shape, mt: Term,
                       menv: seq<Ref>, cells: seq<Ref>)
      requires RuleShape(rhs, |before|, |fields|, nminors) == Some(sh) && nminors <= |before|
      requires RefsOk(|M.heap|, before) && RefsOk(|M.heap|, fields)
      requires Holding(MkApps(rhs, Mngs(M.mng, before + fields)))
      requires var minor := before[|before| - 1 - (sh.minor - |fields|)];
               minor < |M.mng| && Conv(M.E, M.mng[minor], Clos(M.mng, mt, menv))
      requires ClosOk(|M.mng|, mt, menv) && IsLams(mt, |fields| + |sh.ihs|)
      requires |cells| == |sh.ihs|
      requires CellsOk(M.mng, LamBody(mt, |fields| + |sh.ihs|), sh.ihs, Rev(before + fields), cells)
      modifies this`h, this`env
      ensures Ok()
    {
      hide Marked, Depths, StackOk, HeapOk, MapOk;
      ghost var cur := MkApps(rhs, Mngs(M.mng, before + fields));
      BranchRefinesReplay(M.E, M.mng, rhs, before, fields, nminors, sh, mt, menv, cells);
      h, env := LamBody(mt, |fields| + |sh.ihs|), BranchEnv(menv, fields, cells);
      ConvSym(M.E, cur, Clos(M.mng, h, env));
      StackConv(M.E, M.mng, cur, Clos(M.mng, h, env), st, goal);
    }

    /** One cell per induction hypothesis: a thunk if the body mentions it, else the placeholder. */
    method BuildCells(rhs: Term, before: seq<Ref>, fields: seq<Ref>, sh: Shape, body: Term, mask: set<nat>)
      returns (cells: seq<Ref>)
      requires M.Valid() && Closed(rhs) && IsLams(rhs, |before| + |fields|)
      requires forall j, i: nat :: 0 <= j < |sh.ihs| && Occurs(sh.ihs[j], i) ==>
                 Occurs(LamBody(rhs, |before| + |fields|), i)
      requires RefsOk(|M.heap|, before) && RefsOk(|M.heap|, fields)
      requires MaskCovers(body, |fields| + |sh.ihs|, mask)
      modifies M
      ensures M.Valid() && M.Quiet() && |cells| == |sh.ihs|
      ensures CellsOk(M.mng, body, sh.ihs, Rev(before + fields), cells)
    {
      var renv := Rev(before + fields);
      cells := [];
      while |cells| < |sh.ihs|
        invariant M.Valid() && M.Quiet() && CellsOk(M.mng, body, sh.ihs, renv, cells)
      {
        var j := |cells|;
        HypothesisOk(|M.heap|, rhs, before, fields, sh.ihs[j]);
        cells := AddCell(body, sh.ihs, renv, cells, |fields| + j in mask);
      }
    }

    method AddCell(body: Term, ihs: seq<Term>, renv: seq<Ref>, cells: seq<Ref>, used: bool) returns (cells': seq<Ref>)
      requires M.Valid() && |cells| < |ihs| && CellsOk(M.mng, body, ihs, renv, cells)
      requires ClosOk(|M.heap|, ihs[|cells|], renv) && (Occurs(body, |ihs| - 1 - |cells|) ==> used)
      modifies M
      ensures M.Valid() && M.Quiet() && |cells'| == |cells| + 1 && CellsOk(M.mng, body, ihs, renv, cells')
    {
      var r := UNUSED;
      if used {
        r := M.MkThunk(ihs[|cells|], renv);
        ClosExtend(old(M.mng), M.mng, ihs[|cells|], renv);
      }
      CellsExtend(old(M.mng), M.mng, body, ihs, renv, cells);
      cells' := cells + [r];
    }

    /**
     * Which of the nb innermost binders the body mentions, counted from the outermost; every one of
     * them when the traversal is cut short.
     */
    method UsedBinders(body: Term, nb: nat) returns (mask: set<nat>)
      requires nb <= 64
      ensures MaskCovers(body, nb, mask)
    {
      mask := {};
      var todo, visits := [(body, 0)], 0;
      while todo != []
        invariant visits <= 20000
        invariant forall i: nat :: i < nb && Occurs(body, i) ==> nb - 1 - i in mask || Pending(todo, i)
        decreases 20000 - visits, |todo|
      {
        var (x, d) := todo[|todo| - 1];
        ghost var all := todo;
        todo := todo[..|todo| - 1];
        RangeExact(x);
        if Range(x) <= d { continue; }
        visits := visits + 1;
        if visits > 20000 { return Below(nb); }
        match x
        case BVar(k) => if k >= d && k - d < nb { mask := mask + {nb - 1 - (k - d)}; }
        case App(f, a) => todo := todo + [(f, d), (a, d)]; PendingPush(all, todo, x, d);
        case Lam(y, b) => todo := todo + [(y, d), (b, d + 1)]; PendingPush(all, todo, x, d);
        case Pi(y, b) => todo := todo + [(y, d), (b, d + 1)]; PendingPush(all, todo, x, d);
        case Let(y, v, b) => todo := todo + [(y, d), (v, d), (b, d + 1)]; PendingPush(all, todo, x, d);
        case Proj(_, _, e) => todo := todo + [(e, d)]; PendingPush(all, todo, x, d);
        case _ =>
      }
    }

    // ---- the other heads

    method StepQuot() returns (s: Status)
      requires Ok() && h.Const? && h.n in M.E.consts
      modifies this`h, this`env, this`st, this`delta, M
      ensures M.Valid() && (s != Failed ==> Grown() && Ok())
      ensures s == IsValue ==> h == old(h) && QuotStuck(M.heap, h, UpperArgs(st))
    {
      hide Marked, Depths, StackOk, HeapOk, MapOk;
      if h.n != QUOT_LIFT && h.n != QUOT_IND { return IsValue; }
      var pos := if h.n == QUOT_LIFT then 5 else 4;
      var have, args := TakeArgs(pos + 1);
      if !have { return IsValue; }
      ClosOfClosed(M.mng, h, env);
      var mk := args[pos];
      if M.heap[mk].phase != Full { s := Await(QuotK, args, pos); return; }
      if !(M.heap[mk].vterm.Const? && M.heap[mk].vterm.n == QUOT_MK && |M.heap[mk].args| == 3) {
        Stuck(args);
        assert (args + UpperArgs(old(st)))[pos] == mk;
        return IsValue;
      }
      s := QuotApply(args, mk);
    }

    /** `Quot.lift f _ (Quot.mk _ a)` is `f a`. */
    method QuotApply(args: seq<Ref>, mk: Ref) returns (s: Status)
      requires M.Valid() && h.Const? && (h.n == QUOT_LIFT || h.n == QUOT_IND) && RefsOk(|M.heap|, args)
      requires |args| == (if h.n == QUOT_LIFT then 6 else 5) && mk == args[|args| - 1]
      requires M.heap[mk].phase == Full && M.heap[mk].vterm.Const? && M.heap[mk].vterm.n == QUOT_MK
      requires |M.heap[mk].args| == 3 && Holding(MkApps(h, Mngs(M.mng, args)))
      modifies this`h, this`env, this`st, M
      ensures M.Valid() && (s != Failed ==> Grown() && Ok())
      ensures s != IsValue
    {
      hide Marked, HeapOk, MapOk;
      M.ValueFacts(mk);
      var x := M.heap[mk];
      var f, a := args[3], x.args[2];
      QuotMeaning(M.E, M.mng, h, args, x.vterm, x.args);
      StackConv(M.E, M.mng, MkApps(h, Mngs(M.mng, args)), App(M.mng[f], M.mng[a]), st, goal);
      PushContMarked(M.heap, st, Arg(a), outer);
      assert (st + [Arg(a)])[..|st|] == st;
      st := st + [Arg(a)];
      var ok := Enter(f);
      return if ok then Reduced else Failed;
    }

    /** Compute a `Nat` primitive on numerals; not applicable (None) leaves the arguments to the caller. */
    method NatCompute(args: seq<Ref>, fuel: nat) returns (ok: bool, done: bool)
      requires M.Valid() && h.Const? && RefsOk(|M.heap|, args) && EnvOk(|M.heap|, env)
      requires |args| == if h.n == NAT_SUCC then 1 else 2
      requires forall i :: 0 <= i < |args| ==> M.heap[args[i]].phase == Full
      requires Holding(MkApps(h, Mngs(M.mng, args)))
      modifies this`h, this`env, M
      ensures M.Valid() && (ok ==> Grown())
      ensures ok && done ==> Ok()
      ensures ok && !done ==> h == old(h) && env == old(env) && RefsOk(|M.heap|, args) && EnvOk(|M.heap|, env)
      ensures ok && !done ==> Holding(MkApps(h, Mngs(M.mng, args)))
      ensures ok && !done && h.n == NAT_SUCC ==> NotNumeral(M.heap, args[0])
      decreases fuel, 8
    {
      hide Marked, Depths, StackOk, HeapOk, MapOk;
      ghost var cur := MkApps(h, Mngs(M.mng, args));
      var r;
      ok, r := NatResult(args, fuel);
      if !ok { return false, false; }
      Keep(cur);
      MngsExtend(old(M.mng), M.mng, args);
      if r.None? { return true, false; }
      ConvSym(M.E, cur, r.value);
      StackConv(M.E, M.mng, cur, r.value, st, goal);
      h, env := r.value, [];
      ClosOfClosed(M.mng, h, env);
      return true, true;
    }

    method NatResult(args: seq<Ref>, fuel: nat) returns (ok: bool, r: Option<Term>)
      requires M.Valid() && h.Const? && RefsOk(|M.heap|, args)
      requires |args| == if h.n == NAT_SUCC then 1 else 2
      requires forall i :: 0 <= i < |args| ==> M.heap[args[i]].phase == Full
      modifies M
      ensures M.Valid() && (ok ==> M.Deepened())
      ensures ok && r.Some? ==> Closed(r.value) && Conv(M.E, MkApps(h, Mngs(M.mng, args)), r.value)
      ensures ok && r.None? && h.n == NAT_SUCC ==> NotNumeral(M.heap, args[0])
      decreases fuel, 7
    {
      var x;
      ok, x := M.LitValue(args[0], fuel);
      if !ok || x.None? { return ok, None; }
      if h.n == NAT_SUCC {
        NatSuccConv(M.E, M.mng[args[0]], x.value, h.ls);
        MkAppsOne(M.mng, h, args);
        return true, Some(Lit(NatLit(x.value + 1)));
      }
      ok, r := NatSecond(args, x.value, fuel);
    }

    method NatSecond(args: seq<Ref>, x: nat, fuel: nat) returns (ok: bool, r: Option<Term>)
      requires M.Valid() && h.Const? && |args| == 2 && RefsOk(|M.heap|, args)
      requires IsFull(M.heap, args[1])
      requires Conv(M.E, M.mng[args[0]], Lit(NatLit(x)))
      modifies M
      ensures M.Valid() && (ok ==> M.Deepened())
      ensures ok && r.Some? ==> Closed(r.value) && Conv(M.E, MkApps(h, Mngs(M.mng, args)), r.value)
      decreases fuel, 7, 0
    {
      var y;
      ok, y := M.LitValue(args[1], fuel);
      if !ok || y.None? { return ok, None; }
      if h.n == NatFn("pow") && y.value > 0x100_0000 { return true, None; }
      if h.n == NatFn("shiftLeft") && y.value >= 0x1_0000_0000_0000_0000 { return false, None; }
      r := NatBinop(h.n, x, y.value);
      if r.Some? { BinopMeaning(args, x, y.value, r.value); }
    }

    lemma BinopMeaning(args: seq<Ref>, x: nat, y: nat, r: Term)
      requires h.Const? && |args| == 2 && NatBinop(h.n, x, y) == Some(r)
      requires Conv(M.E, At(M.mng, args[0]), Lit(NatLit(x))) && Conv(M.E, At(M.mng, args[1]), Lit(NatLit(y)))
      ensures Closed(r) && Conv(M.E, MkApps(h, Mngs(M.mng, args)), r)
    {
      hide Pow, Gcd, ShiftRight, MkApps, Mngs;
      NatBinopConv(M.E, h.n, h.ls, At(M.mng, args[0]), x, At(M.mng, args[1]), y, r);
      MkAppsTwo(M.mng, h, args);
    }

    /** A `Nat.succ` at the head with an argument has one that is no numeral. */
    ghost predicate NumeralHeld()
      reads this, M
    {
      h.Const? && h.n == NAT_SUCC ==> UpperArgs(st) == [] || NotNumeral(M.heap, UpperArgs(st)[0])
    }

    /** A `Nat` primitive: its operands are evaluated left to right, then it is computed. */
    method StepNat(fuel: nat) returns (s: Option<Status>)
      requires Ok() && h.Const? && (h.n == NAT_SUCC || IsNatBinop(h.n))
      modifies this`h, this`env, this`st, this`delta, M
      ensures M.Valid() && (s != Some(Failed) ==> Grown() && Ok())
      ensures s != Some(IsValue)
      ensures s.None? ==> h == old(h) && delta == old(delta) && NumeralHeld()
      decreases fuel, 9
    {
      hide Marked, Depths, StackOk, HeapOk, MapOk;
      var arity := if h.n == NAT_SUCC then 1 else 2;
      var have, args := TakeArgs(arity);
      if !have { return None; }
      ClosOfClosed(M.mng, h, env);
      s := NatOperands(args, fuel);
    }

    method NatOperands(args: seq<Ref>, fuel: nat) returns (s: Option<Status>)
      requires M.Valid() && h.Const? && RefsOk(|M.heap|, args) && EnvOk(|M.heap|, env)
      requires |args| == if h.n == NAT_SUCC then 1 else 2
      requires Holding(MkApps(h, Mngs(M.mng, args)))
      modifies this`h, this`env, this`st, this`delta, M
      ensures M.Valid() && (s != Some(Failed) ==> Grown() && Ok())
      ensures s != Some(IsValue)
      ensures s.None? ==> h == old(h) && delta == old(delta) && NumeralHeld()
      decreases fuel, 9, 0
    {
      hide Marked, Depths, StackOk, HeapOk, MapOk;
      var i := 0;
      while i < |args| && M.heap[args[i]].phase == Full
        invariant i <= |args| && forall k :: 0 <= k < i ==> M.heap[args[k]].phase == Full
      {
        i := i + 1;
      }
      if i < |args| {
        var t := Await(NatK, args, i);
        return Some(t);
      }
      var ok, done := NatCompute(args, fuel);
      if !ok { return Some(Failed); }
      if done { return Some(Reduced); }
      Stuck(args);
      return None;
    }

    /** A fixpoint rule: straight to the arm once the recursive argument is a constructor application. */
    method StepFix() returns (s: Option<Status>)
      requires Ok() && h.Const? && h.n in M.E.fix && h.n in M.E.consts && M.E.consts[h.n].Def?
      requires |h.ls| == |M.E.consts[h.n].dparams|
      modifies this`h, this`env, this`st, this`delta, M
      ensures M.Valid() && (s != Some(Failed) ==> Grown() && Ok())
      ensures s != Some(IsValue)
      ensures s.None? ==> h == old(h) && delta == old(delta)
    {
      hide Marked, Depths, StackOk, HeapOk, MapOk;
      var rule := M.E.fix[h.n];
      var have, args := TakeArgs(rule.major + 1);
      if !have { return None; }
      ClosOfClosed(M.mng, h, env);
      var major := args[rule.major];
      if M.heap[major].phase != Full {
        var t := Await(RecK, args, rule.major);
        return Some(t);
      }
      var head, margs := FixMajor(major, rule.induct, MkApps(h, Mngs(M.mng, args)));
      MngsExtend(old(M.mng), M.mng, args);
      s := FixArmStep(args, head, margs);
    }

    /** The recursive argument's value, a numeral in constructor form. */
    method FixMajor(major: Ref, induct: Name, ghost cur: Term) returns (head: Term, margs: seq<Ref>)
      requires M.Valid() && UNUSED < major < |M.heap| && M.heap[major].phase == Full && Holding(cur)
      modifies M
      ensures Holding(cur) && Grown() && RefsOk(|M.heap|, margs)
      ensures head.Const? ==> Conv(M.E, M.mng[major], MkApps(head, Mngs(M.mng, margs)))
    {
      M.ValueFacts(major);
      head, margs := M.heap[major].vterm, M.heap[major].args;
      if induct == NAT && head.Lit? && head.v.NatLit? && margs == [] {
        ghost var whole := M.mng[major];
        var c := M.NatCtor(head.v.n);
        Keep(cur);
        StarTrans(M.E, true, whole, head, M.mng[c]);
        M.ValueFacts(c);
        head, margs := M.heap[c].vterm, M.heap[c].args;
        if head.Const? { StarTrans(M.E, true, whole, M.mng[c], MkApps(head, Mngs(M.mng, margs))); }
      }
    }

    method FixArmStep(args: seq<Ref>, head: Term, margs: seq<Ref>) returns (s: Option<Status>)
      requires M.Valid() && h.Const? && h.n in M.E.fix && h.n in M.E.consts && M.E.consts[h.n].Def?
      requires |h.ls| == |M.E.consts[h.n].dparams| && |args| == M.E.fix[h.n].major + 1
      requires RefsOk(|M.heap|, args) && RefsOk(|M.heap|, margs) && EnvOk(|M.heap|, env)
      requires head.Const? ==> Conv(M.E, M.mng[args[|args| - 1]], MkApps(head, Mngs(M.mng, margs)))
      requires Holding(MkApps(h, Mngs(M.mng, args)))
      modifies this`h, this`env, this`st
      ensures s != Some(Failed) && s != Some(IsValue) && Ok()
      ensures s.None? ==> h == old(h)
    {
      hide Marked, Depths, StackOk, HeapOk, MapOk;
      var rule, ps := M.E.fix[h.n], M.E.consts[h.n].dparams;
      var arm := if head.Const? then FindArm(rule.arms, head.n, |margs|, rule.nparams) else None;
      if arm.None? {
        Stuck(args);
        return None;
      }
      var refs := args[..rule.major] + margs[|margs| - arm.value.nfields..];
      FixMeaning(M.E, M.mng, h, args, head, margs, arm.value, refs);
      FixBodyOk(M.E, h.n, h.ls, arm.value, refs, |M.mng|);
      ghost var cur := MkApps(h, Mngs(M.mng, args));
      h, env := InstantiateLParams(arm.value.body, ps, h.ls), Rev(refs);
      StackConv(M.E, M.mng, cur, Clos(M.mng, h, env), st, goal);
      return Some(Reduced);
    }

    /** Definitions unfold to their instantiated value, fused. */
    method StepDelta() returns (s: Status)
      requires Ok() && h.Const? && h.n in M.E.consts && M.E.consts[h.n].Def?
      requires |h.ls| == |M.E.consts[h.n].dparams|
      modifies this`h, this`env
      ensures s == Reduced && Ok()
    {
      hide Marked, Depths, StackOk, HeapOk, MapOk;
      var v := M.fused(InstantiateLParams(M.E.consts[h.n].value, M.E.consts[h.n].dparams, h.ls));
      ClosOfClosed(M.mng, h, env);
      DeltaMeaning(M.E, M.fused, h);
      ClosOfClosed(M.mng, v, []);
      StackConv(M.E, M.mng, h, v, st, goal);
      h, env := v, [];
      return Reduced;
    }

    method StepConst(fuel: nat) returns (s: Status)
      requires Ok() && h.Const?
      modifies this`h, this`env, this`st, this`delta, M
      ensures M.Valid() && (s != Failed ==> Grown() && Ok())
      ensures s == IsValue ==> h == old(h) && ConstStuck(M.E, M.heap, M.mng, h, UpperArgs(st), delta)
      decreases fuel, 12
    {
      hide Marked, Depths, StackOk, HeapOk, MapOk, Final;
      if h.n !in M.E.consts { return Failed; }
      var c := M.E.consts[h.n];
      if c.Rec? { s := StepRec(fuel); return; }
      if c.Quotient? { s := StepQuot(); return; }
      if delta && (h.n == NAT_SUCC || IsNatBinop(h.n)) {
        var t := StepNat(fuel);
        if t.Some? { return t.value; }
      }
      if delta && c.Def? && |h.ls| == |c.dparams| && h.n in M.E.fix {
        var t := StepFix();
        if t.Some? { return t.value; }
      }
      if delta && c.Def? && |h.ls| == |c.dparams| { s := StepDelta(); return; }
      return IsValue;
    }

    /** A projection: evaluate the structure first. */
    method StepProj() returns (s: Status)
      requires Ok() && h.Proj?
      modifies this`h, this`env, this`st, this`delta, M
      ensures M.Valid() && (s != Failed ==> Grown() && Ok())
      ensures s != IsValue
    {
      hide Marked, HeapOk, MapOk, Grows, Entered, NoNewCore, SameForcing;
      ghost var cur := Clos(M.mng, h, env);
      ClosOkProj(|M.heap|, h.s, h.idx, h.e, env);
      ClosProj(M.mng, h.s, h.idx, h.e, env);
      var th := M.MkThunk(h.e, env);
      QuietGrown();
      ghost var heap1, mng1 := M.heap, M.mng;
      Keep(cur);
      ClosExtend(old(M.mng), M.mng, h, env);
      ClosExtend(old(M.mng), M.mng, h.e, env);
      assert Mngs(M.mng, []) == [];
      var f := Cont(ProjK, h, env, [], th, delta);
      StarRefl(M.E, true, M.mng[th]);
      PushContMarked(M.heap, st, f, outer);
      assert (st + [f])[..|st|] == st;
      st := st + [f];
      if !cheapProj { delta := true; }
      var ok := Enter(th);
      GrownTwice(old(M.heap), old(M.mng), heap1, mng1);
      return if ok then Reduced else Failed;
    }

    /** One argument thunk per application node on the spine. */
    method StepApp()
      requires Ok() && h.App?
      modifies this`h, this`st, M
      ensures M.Valid() && Grown() && Ok()
    {
      while h.App?
        invariant Ok() && Grown() && M.Deepened()
        decreases h
      {
        PushArg();
      }
    }

    method PushArg()
      requires Ok() && h.App?
      modifies this`h, this`st, M
      ensures Ok() && M.Deepened() && h == old(h.f)
    {
      hide Marked, HeapOk, MapOk;
      var f, x := h.f, h.x;
      ghost var cur := Clos(M.mng, h, env);
      ClosOkApp(|M.heap|, f, x, env);
      ClosApp(M.mng, f, x, env);
      var th := M.MkThunk(x, env);
      Keep(cur);
      ClosExtend(old(M.mng), M.mng, f, env);
      PushContMarked(M.heap, st, Arg(th), outer);
      assert (st + [Arg(th)])[..|st|] == st;
      st := st + [Arg(th)];
      h := f;
    }

    /** Beta: the argument on top of the stack becomes a cell of the environment. */
    method Beta()
      requires Ok() && h.Lam? && st != [] && st[|st| - 1].Arg?
      modifies this`h, this`env, this`st
      ensures Ok() && h == old(h.body) && |st| == |old(st)| - 1
    {
      hide Marked, HeapOk, MapOk;
      var r := st[|st| - 1].th;
      ghost var cur, next := App(Clos(M.mng, h, env), M.mng[r]), Clos(M.mng, h.body, [r] + env);
      PopMarked(M.heap, st, outer);
      ClosBeta(M.E, M.mng, h.dom, h.body, env, r);
      forall i: nat | Occurs(h.body, i + 1) ensures Occurs(h, i) {}
      ClosOkBody(|M.heap|, h, h.body, env, r);
      st := st[..|st| - 1];
      h, env := h.body, [r] + env;
      ConvSym(M.E, cur, next);
      StackConv(M.E, M.mng, cur, next, st, goal);
    }

    method StepLet()
      requires Ok() && h.Let?
      modifies this`h, this`env, M
      ensures M.Valid() && Grown() && Ok()
    {
      hide Marked, Depths, StackOk, HeapOk, MapOk;
      ghost var cur := Clos(M.mng, h, env);
      ClosOkLetVal(|M.heap|, h.ty, h.val, h.body, env);
      var th := M.MkThunk(h.val, env);
      Keep(cur);
      ClosExtend(old(M.mng), M.mng, h, env);
      ClosExtend(old(M.mng), M.mng, h.val, env);
      ClosZeta(M.E, M.mng, h.ty, h.val, h.body, env, th);
      forall i: nat | Occurs(h.body, i + 1) ensures Occurs(h, i) {}
      ClosOkBody(|M.heap|, h, h.body, env, th);
      ghost var next := Clos(M.mng, h.body, [th] + env);
      h, env := h.body, [th] + env;
      ConvSym(M.E, cur, next);
      StackConv(M.E, M.mng, cur, next, st, goal);
    }

    method StepVar() returns (s: Status)
      requires Ok() && h.BVar?
      modifies this`h, this`env, this`st, M
      ensures M.Valid() && (s != Failed ==> Grown() && Ok())
      ensures s != IsValue
    {
      hide Marked, Depths, StackOk, HeapOk, MapOk;
      assert Occurs(h, h.i);
      ClosVar(M.mng, h.i, env);
      var ok := Enter(env[h.i]);
      return if ok then Reduced else Failed;
    }

    method StepFVar() returns (s: Status)
      requires Ok() && h.FVar?
      modifies this`h, this`env
      ensures s != Failed && Ok()
      ensures s == IsValue ==> h == old(h) && h.id !in M.E.lets
    {
      hide Marked, Depths, StackOk, HeapOk, MapOk;
      if h.id !in M.E.lets { return IsValue; }
      var v := M.E.lets[h.id];
      ClosOfClosed(M.mng, h, env);
      ClosOfClosed(M.mng, v, []);
      assert IsLetVar(M.E, h, v);
      RootStep(M.E, true, h, v);
      ConvSym(M.E, h, v);
      StackConv(M.E, M.mng, h, v, st, goal);
      h, env := v, [];
      return Reduced;
    }

    /** Reduce the head one step, or find that it is a value. */
    method Step(fuel: nat) returns (s: Status)
      requires Ok()
      modifies this`h, this`env, this`st, this`delta, M
      ensures M.Valid() && (s != Failed ==> Grown() && Ok())
      ensures s == IsValue ==> Ended(UpperArgs(st), 0)
      decreases fuel, 13
    {
      hide Marked, Depths, StackOk, HeapOk, MapOk;
      match h
      case BVar(_) => s := StepVar();
      case App(_, _) => StepApp(); s := Reduced;
      case Lam(_, _) =>
        if st == [] || !st[|st| - 1].Arg? { return IsValue; }
        while h.Lam? && st != [] && st[|st| - 1].Arg?
          invariant Ok() && Grown()
          decreases |st|
        {
          Beta();
        }
        s := Reduced;
      case Let(_, _, _) => StepLet(); s := Reduced;
      case FVar(_) => s := StepFVar();
      case Const(_, _) => s := StepConst(fuel);
      case Proj(_, _, _) => s := StepProj();
      case _ => s := IsValue;
    }

    // ---- unwinding

    /** Give a value to the frames below it, until one resumes reduction or none is left. */
    method Unwind(fuel: nat) returns (ok: bool, done: bool, result: seq<Ref>, ghost n: nat)
      requires Ok() && Ended(UpperArgs(st), 0)
      modifies this`h, this`env, this`st, this`delta, M
      ensures M.Valid() && (ok ==> Grown())
      ensures ok && !done ==> Ok()
      ensures ok && done ==> Ended(result, n) && (h.Lam? ==> result == []) && delta == start
      ensures ok && done ==> st == [] && ClosOk(|M.heap|, h, env) && RefsOk(|M.heap|, result)
      ensures ok && done ==> Holding(MkApps(Clos(M.mng, h, env), Mngs(M.mng, result)))
      decreases fuel, 10
    {
      hide Marked, Depths, StackOk, HeapOk, MapOk, Final, Grows, Entered, NoNewCore;
      GrownNot();
      result, n := [], 0;
      assert Mngs(M.mng, []) == [];
      assert [] + UpperArgs(st) == UpperArgs(st);
      while st != []
        invariant Grown() && ClosOk(|M.heap|, h, env) && RefsOk(|M.heap|, result)
        invariant Holding(MkApps(Clos(M.mng, h, env), Mngs(M.mng, result)))
        invariant Ended(result + UpperArgs(st), n) && (h.Lam? ==> result == [])
        decreases |st|
      {
        var f := st[|st| - 1];
        ghost var heap1, mng1 := M.heap, M.mng;
        if f.Arg? {
          if h.Lam? {
            Beta();
            return true, false, [], 0;
          }
          result := TakeOne(result);
        } else if f.Upd? {
          UpdateEnded(result, n);
          GrownTwice(old(M.heap), old(M.mng), heap1, mng1);
        } else if f.kind != ProjK {
          Resume(result);
          return true, false, [], 0;
        } else {
          var entered;
          assert result + UpperArgs(st) == result;
          ok, entered := Project(result, n, fuel);
          if ok { GrownTwice(old(M.heap), old(M.mng), heap1, mng1); }
          if !ok || entered { return ok, false, [], 0; }
          result, n := [], n + 1;
          assert Mngs(M.mng, []) == [];
          assert [] + UpperArgs(st) == UpperArgs(st);
        }
      }
      assert result + UpperArgs(st) == result;
      FlagRestored(MkApps(Clos(M.mng, h, env), Mngs(M.mng, result)));
      return true, true, result, n;
    }

    twostate lemma QuietGrown()
      requires M.Quiet() && |M.heap| == |M.mng|
      ensures Grown() && M.Deepened() && Extends(old(M.mng), M.mng)
    {
    }

    twostate lemma GrownNot()
      requires M.heap == old(M.heap) && M.mng == old(M.mng) && |M.heap| == |M.mng|
      ensures Grown()
    {
    }

    lemma GrownTwice(heap0: seq<Thunk>, mng0: seq<Term>, heap1: seq<Thunk>, mng1: seq<Term>)
      requires Grows(heap0, heap1, mng0, mng1) && Entered(heap0, heap1) && (start ==> NoNewCore(heap0, heap1))
      requires Grows(heap1, M.heap, mng1, M.mng) && Entered(heap1, M.heap) && (start ==> NoNewCore(heap1, M.heap))
      ensures Grows(heap0, M.heap, mng0, M.mng) && Entered(heap0, M.heap) && (start ==> NoNewCore(heap0, M.heap))
    {
    }

    lemma FlagRestored(cur: Term)
      requires Holding(cur) && st == []
      ensures delta == start
    {
    }

    /** Giving the marked thunk its value changes nothing about the answer. */
    method UpdateEnded(args: seq<Ref>, ghost n: nat)
      requires ClosOk(|M.heap|, h, env) && RefsOk(|M.heap|, args)
      requires Holding(MkApps(Clos(M.mng, h, env), Mngs(M.mng, args)))
      requires st != [] && st[|st| - 1].Upd? && Ended(args + UpperArgs(st), n)
      modifies this`st, M`heap
      ensures Holding(MkApps(Clos(M.mng, h, env), Mngs(M.mng, args)))
      ensures st == old(st)[..|old(st)| - 1] && |M.heap| == |old(M.heap)| && Grown()
      ensures Ended(args + UpperArgs(st), n)
    {
      ghost var a := Answer(h, env, args + UpperArgs(st));
      UpperOk(M.E, M.mng, MkApps(Clos(M.mng, h, env), Mngs(M.mng, args)), st, goal);
      Update(args);
      FinalKept(M.E, cheapProj, old(M.heap), old(M.mng), M.heap, M.mng, a, delta, n);
    }

    /** The awaited argument has a value now: dispatch the suspended head again. */
    method Resume(args: seq<Ref>)
      requires st != [] && st[|st| - 1].Cont? && Holding(MkApps(Clos(M.mng, h, env), Mngs(M.mng, args)))
      modifies this`h, this`env, this`st, this`delta
      ensures Ok()
    {
      hide Marked, HeapOk, MapOk;
      var f := st[|st| - 1];
      PopMarked(M.heap, st, outer);
      st := st[..|st| - 1];
      delta := f.saved;
      h, env := f.head, f.env;
      PushAll(f.args);
    }

    /** The structure of a projection has a value: enter the field, or leave the projection stuck. */
    method Project(args: seq<Ref>, ghost n: nat, fuel: nat) returns (ok: bool, entered: bool)
      requires st != [] && st[|st| - 1].Cont? && st[|st| - 1].kind == ProjK
      requires ClosOk(|M.heap|, h, env) && RefsOk(|M.heap|, args)
      requires Holding(MkApps(Clos(M.mng, h, env), Mngs(M.mng, args))) && Ended(args, n)
      modifies this`h, this`env, this`st, this`delta, M
      ensures M.Valid() && (ok ==> Grown() && Ok())
      ensures ok && !entered ==> |st| < |old(st)| && h.Proj? && Ended(UpperArgs(st), n + 1)
      decreases fuel, 9
    {
      hide Marked, Depths, StackOk, HeapOk, MapOk, Final;
      ghost var v := Answer(h, env, args);
      StructureValue(v);
      var head, fargs;
      ok, head, fargs := FieldSource(args, fuel);
      if !ok { return false, false; }
      Keep(Meaning(old(M.mng), v));
      FinalKept(M.E, cheapProj, old(M.heap), old(M.mng), M.heap, M.mng, v, delta, n);
      MeaningExtend(old(M.mng), M.mng, v);
      if head.Const? {
        StarTrans(M.E, true, At(M.mng, st[|st| - 1].th), Meaning(M.mng, v), MkApps(head, Mngs(M.mng, fargs)));
      }
      ok, entered := TakeField(head, fargs, v, n);
    }

    /** Pop the projection on top, whose structure's value v has the given head and arguments in constructor form. */
    method TakeField(head: Term, fargs: seq<Ref>, ghost v: Answer, ghost n: nat) returns (ok: bool, entered: bool)
      requires st != [] && st[|st| - 1].Cont? && st[|st| - 1].kind == ProjK
      requires Holding(Meaning(M.mng, v)) && RefsOk(|M.heap|, fargs) && InScope(|M.heap|, v)
      requires Final(M.E, cheapProj, M.heap, M.mng, v, delta, n)
      requires head.Const? ==> Conv(M.E, At(M.mng, st[|st| - 1].th), MkApps(head, Mngs(M.mng, fargs)))
      requires st[|st| - 1].head.Proj?
      requires NoFieldIn(M.E, st[|st| - 1].head, head, fargs) ==> NoField(M.E, M.heap, M.mng, st[|st| - 1].head, v)
      modifies this`h, this`env, this`st, this`delta, M
      ensures M.Valid() && (ok ==> Grown() && Ok())
      ensures ok && !entered ==> |st| < |old(st)| && h.Proj? && Ended(UpperArgs(st), n + 1)
    {
      hide Marked, Depths, StackOk, HeapOk, MapOk, Final, NoField;
      var f := st[|st| - 1];
      ghost var d, proj := delta, Clos(M.mng, f.head, f.env);
      StructureValue(v);
      ClosProj(M.mng, f.head.s, f.head.idx, f.head.e, f.env);
      PopProj();
      if head.Const? && head.n in M.E.consts && M.E.consts[head.n].Ctor? && M.E.consts[head.n].induct == f.head.s
         && M.E.consts[head.n].cparams + f.head.idx < |fargs| {
        var field := fargs[M.E.consts[head.n].cparams + f.head.idx];
        ProjConv(M.E, f.head.s, f.head.idx, M.mng[f.th], head, Mngs(M.mng, fargs));
        ConvSym(M.E, proj, M.mng[field]);
        StackConv(M.E, M.mng, proj, M.mng[field], st, goal);
        ok := Enter(field);
        return ok, true;
      }
      h, env := f.head, f.env;
      ProjEnded(M.E, cheapProj, M.heap, M.mng, Answer(h, env, UpperArgs(st)), v, delta, n);
      return true, false;
    }

    method PopProj()
      requires st != [] && st[|st| - 1].Cont? && st[|st| - 1].kind == ProjK
      requires exists cur :: Holding(cur)
      modifies this`st, this`delta
      ensures var f := old(st)[|old(st)| - 1];
              st == old(st)[..|old(st)| - 1] && delta == f.saved && ClosOk(|M.heap|, f.head, f.env)
              && Holding(Clos(M.mng, f.head, f.env))
    {
      hide Marked, HeapOk, MapOk;
      var f := st[|st| - 1];
      assert Mngs(M.mng, []) == [];
      PopMarked(M.heap, st, outer);
      st := st[..|st| - 1];
      delta := f.saved;
    }

    /** What the projection on top of the stack knows of its structure's value. */
    lemma StructureValue(v: Answer)
      requires st != [] && st[|st| - 1].Cont? && st[|st| - 1].kind == ProjK && Holding(Meaning(M.mng, v))
      ensures var f := st[|st| - 1];
              f.head.Proj? && UNUSED < f.th < |M.mng| && Clos(M.mng, f.head.e, f.env) == M.mng[f.th]
              && Conv(M.E, Meaning(M.mng, v), M.mng[f.th]) && Conv(M.E, M.mng[f.th], Meaning(M.mng, v))
              && (delta <==> f.saved || !cheapProj)
    {
      ConvSym(M.E, Meaning(M.mng, v), M.mng[st[|st| - 1].th]);
    }

    /** The structure's value, a string in constructor form. */
    method FieldSource(args: seq<Ref>, fuel: nat) returns (ok: bool, head: Term, fargs: seq<Ref>)
      requires M.Valid() && ClosOk(|M.heap|, h, env) && RefsOk(|M.heap|, args)
      modifies M
      ensures M.Valid() && (ok ==> M.Deepened() && RefsOk(|M.heap|, fargs))
      ensures ok && head.Const? ==> Conv(M.E, Meaning(old(M.mng), Answer(h, env, args)), MkApps(head, Mngs(M.mng, fargs)))
      ensures ok ==> forall p: Term {:trigger NoFieldIn(M.E, p, head, fargs)} ::
        p.Proj? && NoFieldIn(M.E, p, head, fargs) ==> NoField(M.E, M.heap, M.mng, p, Answer(h, env, args))
      decreases fuel, 8
    {
      head, fargs := h, args;
      ghost var cur := MkApps(Clos(M.mng, h, env), Mngs(M.mng, args));
      if Range(h) == 0 { ClosOfClosed(M.mng, h, env); }
      if !(h.Lit? && h.v.StrLit? && args == []) {
        StarRefl(M.E, true, cur);
        return true, h, args;
      }
      assert cur == h by { assert Mngs(M.mng, []) == []; }
      var r;
      ok, r := M.StrCtor(h.v.s, fuel);
      if !ok { return; }
      M.ValueFacts(r);
      head, fargs := M.heap[r].vterm, M.heap[r].args;
      if head.Const? { StarTrans(M.E, true, h, M.mng[r], MkApps(head, Mngs(M.mng, fargs))); }
    }

    /** Run to weak-head normal form, for at most the given number of rounds. */
    method Loop(fuel: nat) returns (ok: bool, result: seq<Ref>, ghost last: nat)
      requires Ok()
      modifies this`h, this`env, this`st, this`delta, M
      ensures M.Valid() && (ok ==> Grown())
      ensures ok ==> ClosOk(|M.heap|, h, env) && RefsOk(|M.heap|, result)
      ensures ok ==> Ended(result, last) && (h.Lam? ==> result == []) && delta == start
      ensures ok ==> Conv(M.E, MkApps(Clos(M.mng, h, env), Mngs(M.mng, result)), goal)
      ensures ok ==> Marked(M.heap, [], outer)
      decreases fuel, 4
    {
      hide Marked, Depths, HeapOk, MapOk, Final;
      var n := fuel;
      while n > 0
        invariant n <= fuel && Ok() && Grown()
      {
        n := n - 1;
        var s := Step(n);
        if s == Failed { return false, [], 0; }
        if s == IsValue {
          var done;
          ok, done, result, last := Unwind(n);
          if !ok || done { return; }
        }
      }
      return false, [], 0;
    }
  }
}
