// The machine's stack and its answers (src/kam.cpp): update marks, pending arguments, the delta flag, and
// what it means that a run stopped at a head.
module MachineStack {
  import opened Names
  import opened Terms
  import opened Conversion
  import opened MachineModel
  import L = Levels

  /** The same thunk up to its cached read-back. */
  ghost predicate SameBut(t: Thunk, t': Thunk) { t' == t.(rb := t'.rb) }

  // ---------------------------------------------------------------- how the heap changes

  /** The heap has grown, and values computed with delta are as they were. */
  ghost predicate Grows(heap: seq<Thunk>, heap': seq<Thunk>, mng: seq<Term>, mng': seq<Term>) {
    && Extends(mng, mng') && |heap| <= |heap'|
    && forall r {:trigger heap[r]} {:trigger heap'[r]} :: 0 <= r < |heap| && heap[r].phase == Full ==> SameBut(heap[r], heap'[r])
  }

  /** Closures never change, and a thunk once entered is never delayed again. */
  ghost predicate Entered(heap: seq<Thunk>, heap': seq<Thunk>) {
    |heap| <= |heap'|
    && forall r {:trigger heap[r]} {:trigger heap'[r]} :: 0 <= r < |heap| ==>
         heap'[r].term == heap[r].term && (heap[r].phase != Delayed ==> heap'[r].phase != Delayed)
  }

  /** The thunks being forced are the same. */
  ghost predicate SameForcing(heap: seq<Thunk>, heap': seq<Thunk>) {
    && |heap| <= |heap'|
    && (forall r {:trigger heap[r]} {:trigger heap'[r]} :: 0 <= r < |heap| ==>
          (heap'[r].phase == Forcing <==> heap[r].phase == Forcing))
    && (forall r {:trigger heap'[r]} :: |heap| <= r < |heap'| ==> heap'[r].phase != Forcing)
  }

  /** No thunk has got a value that is only a core one. */
  ghost predicate NoNewCore(heap: seq<Thunk>, heap': seq<Thunk>) {
    forall r {:trigger heap'[r]} :: 0 <= r < |heap'| && heap'[r].phase == Core ==> r < |heap| && heap[r].phase == Core
  }

  // ---------------------------------------------------------------- update marks

  /** No two update marks are on one thunk. */
  ghost predicate OneMark(st: seq<Frame>) {
    forall i, j {:trigger st[i], st[j]} :: 0 <= i < j < |st| && st[i].Upd? ==> st[i] != st[j]
  }

  /**
   * The thunks being forced are those already being forced when the run began (outer) and those with an
   * update mark; a marked thunk has a closure and one mark.
   */
  ghost predicate Marked(heap: seq<Thunk>, st: seq<Frame>, outer: set<Ref>) {
    && (forall r :: 0 <= r < |heap| && heap[r].phase == Forcing ==> r in outer || Upd(r) in st)
    && (forall r: nat :: Upd(r) in st ==> r < |heap| && heap[r].phase == Forcing && heap[r].term.Some? && r !in outer)
    && (forall r :: r in outer ==> r < |heap| && heap[r].phase == Forcing)
    && OneMark(st)
  }

  lemma KeptMarked(heap: seq<Thunk>, heap': seq<Thunk>, st: seq<Frame>, outer: set<Ref>)
    requires Marked(heap, st, outer) && SameForcing(heap, heap') && Entered(heap, heap')
    ensures Marked(heap', st, outer)
  {
  }

  lemma PushContMarked(heap: seq<Thunk>, st: seq<Frame>, f: Frame, outer: set<Ref>)
    requires Marked(heap, st, outer) && !f.Upd?
    ensures Marked(heap, st + [f], outer)
  {
    forall r ensures Upd(r) in st <==> Upd(r) in st + [f] {}
  }

  lemma {:induction false} PushMarked(heap: seq<Thunk>, st: seq<Frame>, args: seq<Ref>, outer: set<Ref>)
    requires Marked(heap, st, outer)
    ensures Marked(heap, PushArgs(st, args), outer)
    decreases |args|
  {
    if args != [] {
      PushContMarked(heap, st, Arg(args[|args| - 1]), outer);
      PushMarked(heap, st + [Arg(args[|args| - 1])], args[..|args| - 1], outer);
    }
  }

  lemma PopMarked(heap: seq<Thunk>, st: seq<Frame>, outer: set<Ref>)
    requires Marked(heap, st, outer) && st != [] && !st[|st| - 1].Upd?
    ensures Marked(heap, st[..|st| - 1], outer)
  {
    var rest := st[..|st| - 1];
    assert st == rest + [st[|st| - 1]];
    forall r ensures Upd(r) in rest <==> Upd(r) in st {}
  }

  /** A thunk not being forced gets its mark. */
  lemma PushMark(heap: seq<Thunk>, st: seq<Frame>, outer: set<Ref>, t: Ref, x: Thunk)
    requires Marked(heap, st, outer) && t < |heap| && heap[t].phase != Forcing
    requires x.phase == Forcing && x.term.Some?
    ensures Marked(heap[t := x], st + [Upd(t)], outer)
  {
    forall r ensures Upd(r) in st + [Upd(t)] <==> Upd(r) in st || r == t {}
    assert Upd(t) !in st;
    forall i | 0 <= i < |st| ensures st[i] != Upd(t) { assert st[i] in st; }
  }

  /** The mark on top is popped when its thunk has been given a value. */
  lemma PopMark(heap: seq<Thunk>, heap': seq<Thunk>, st: seq<Frame>, outer: set<Ref>, t: Ref)
    requires Marked(heap, st, outer) && st != [] && st[|st| - 1] == Upd(t) && |heap'| == |heap| && t < |heap|
    requires heap'[t].phase != Forcing
    requires forall r {:trigger heap'[r]} :: 0 <= r < |heap| && r != t ==> heap'[r] == heap[r]
    ensures heap[t].phase == Forcing && Marked(heap', st[..|st| - 1], outer)
  {
    var rest := st[..|st| - 1];
    assert st == rest + [Upd(t)];
    assert Upd(t) in st;
    forall i | 0 <= i < |rest| ensures rest[i] != Upd(t) { assert st[i] == rest[i]; }
    forall r ensures Upd(r) in st <==> Upd(r) in rest || r == t {}
    assert OneMark(rest) by {
      forall i, j | 0 <= i < j < |rest| && rest[i].Upd? ensures rest[i] != rest[j] {
        assert st[i] == rest[i] && st[j] == rest[j];
      }
    }
  }

  /** When a run's stack is empty, the thunks being forced are those that were when it began. */
  lemma OuterSettled(heap: seq<Thunk>, heap': seq<Thunk>, outer: set<Ref>)
    requires Marked(heap', [], outer) && |heap| <= |heap'|
    requires outer == set r | 0 <= r < |heap| && heap[r].phase == Forcing
    ensures SameForcing(heap, heap')
  {
  }

  /** A thunk entered and no longer being forced has a value, and a full one if the run was with delta. */
  lemma Finished(heap: seq<Thunk>, mid: seq<Thunk>, heap': seq<Thunk>, t: Ref, delta: bool)
    requires SameForcing(heap, heap') && Entered(mid, heap') && t < |heap| && t < |mid|
    requires heap[t].phase != Forcing && mid[t].phase != Delayed
    requires delta ==> mid[t].phase != Core && NoNewCore(mid, heap')
    ensures heap'[t].phase == Full || heap'[t].phase == Core
    ensures delta ==> heap'[t].phase == Full
  {
  }

  // ---------------------------------------------------------------- pending arguments

  /** The arguments above the first continuation, the next one first. */
  function UpperArgs(st: seq<Frame>): seq<Ref>
    decreases |st|
  {
    if st == [] then []
    else match st[|st| - 1]
      case Arg(r) => [r] + UpperArgs(st[..|st| - 1])
      case Upd(_) => UpperArgs(st[..|st| - 1])
      case Cont(_, _, _, _, _, _) => []
  }

  lemma {:induction false} UpperPushed(st: seq<Frame>, args: seq<Ref>)
    ensures UpperArgs(PushArgs(st, args)) == args + UpperArgs(st) && st <= PushArgs(st, args)
    decreases |args|
  {
    if args != [] {
      var n := |args| - 1;
      assert (st + [Arg(args[n])])[..|st|] == st;
      UpperPushed(st + [Arg(args[n])], args[..n]);
      assert args[..n] + ([args[n]] + UpperArgs(st)) == args + UpperArgs(st);
    } else {
      assert args + UpperArgs(st) == UpperArgs(st);
    }
  }

  lemma TakenNext(out: seq<Ref>, st: seq<Frame>)
    requires st != [] && st[|st| - 1].Arg?
    ensures (out + [st[|st| - 1].th]) + UpperArgs(st[..|st| - 1]) == out + UpperArgs(st)
  {
  }

  /** The pending arguments are thunks. */
  lemma {:induction false} UpperOk(E: Env, mng: seq<Term>, cur: Term, st: seq<Frame>, goal: Term)
    requires StackOk(E, mng, cur, st, goal)
    ensures RefsOk(|mng|, UpperArgs(st))
    decreases |st|
  {
    if st != [] {
      var rest, f := st[..|st| - 1], st[|st| - 1];
      if f.Arg? { UpperOk(E, mng, App(cur, mng[f.th]), rest, goal); }
      if f.Upd? { UpperOk(E, mng, mng[f.th], rest, goal); }
    }
  }

  // ---------------------------------------------------------------- the delta flag

  /**
   * The flag is the one the run started with, or what the topmost continuation sets it to: on, except
   * for a projection when those are cheap.  Every continuation saves the flag that held below it.
   */
  ghost predicate Depths(st: seq<Frame>, delta: bool, start: bool, cheap: bool)
    decreases |st|
  {
    if st == [] then delta <==> start
    else
      var rest, f := st[..|st| - 1], st[|st| - 1];
      if f.Cont? then (delta <==> f.kind != ProjK || !cheap || f.saved) && Depths(rest, f.saved, start, cheap)
      else Depths(rest, delta, start, cheap)
  }

  /** A run started with delta never turns it off. */
  lemma {:induction false} DeltaStays(st: seq<Frame>, delta: bool, start: bool, cheap: bool)
    requires Depths(st, delta, start, cheap) && start
    ensures delta
    decreases |st|
  {
    if st != [] {
      var rest, f := st[..|st| - 1], st[|st| - 1];
      DeltaStays(rest, if f.Cont? then f.saved else delta, start, cheap);
    }
  }

  lemma {:induction false} PushDepths(st: seq<Frame>, args: seq<Ref>, delta: bool, start: bool, cheap: bool)
    requires Depths(st, delta, start, cheap)
    ensures Depths(PushArgs(st, args), delta, start, cheap)
    decreases |args|
  {
    if args != [] {
      var n := |args| - 1;
      assert (st + [Arg(args[n])])[..|st|] == st;
      PushDepths(st + [Arg(args[n])], args[..n], delta, start, cheap);
    }
  }

  // ---------------------------------------------------------------- answers

  /** A head under an environment with the arguments gathered for it. */
  datatype Answer = Answer(h: Term, env: seq<Ref>, args: seq<Ref>)

  ghost function Meaning(mng: seq<Term>, a: Answer): Term { MkApps(Clos(mng, a.h, a.env), Mngs(mng, a.args)) }

  ghost predicate InScope(n: nat, a: Answer) { ClosOk(n, a.h, a.env) && RefsOk(n, a.args) }

  /** A head that no beta, let or let-variable step applies to; a projection is one the machine found stuck. */
  ghost predicate HeadDone(E: Env, h: Term) {
    !h.App? && !h.Let? && !h.BVar? && (h.FVar? ==> h.id !in E.lets)
  }

  ghost predicate IsFull(heap: seq<Thunk>, r: Ref) { r < |heap| && heap[r].phase == Full }

  predicate IsCtorConst(E: Env, h: Term) { h.Const? && h.n in E.consts && E.consts[h.n].Ctor? }

  predicate IsStructure(E: Env, n: Name) { n in E.consts && E.consts[n].Induct? && E.consts[n].structure }

  /** r has the constructor form of the value of thunk th: literals spelled out, structures eta-expanded. */
  ghost predicate CtorForm(E: Env, heap: seq<Thunk>, mng: seq<Term>, th: Ref, induct: Name, r: Ref)
    requires IsFull(heap, th)
  {
    var x := heap[th];
    && IsFull(heap, r)
    && if x.vterm.Lit? && x.args == [] then
         match x.vterm.v
         case NatLit(n) => NatForm(heap[r], mng, n)
         case StrLit(s) => At(mng, r) == StrLitToCtor(s)
       else if !IsCtorConst(E, x.vterm) && IsStructure(E, induct) && E.etaCtor(induct, ValueOf(mng, x)) != ValueOf(mng, x)
       then At(mng, r) == E.etaCtor(induct, ValueOf(mng, x))
       else r == th
  }

  /** `Nat.zero`, or `Nat.succ` of the numeral before. */
  ghost predicate NatForm(t: Thunk, mng: seq<Term>, n: nat) {
    if n == 0 then t.vterm == Const(NAT_ZERO, []) && t.args == []
    else t.vterm == Const(NAT_SUCC, []) && |t.args| == 1 && At(mng, t.args[0]) == Lit(NatLit(n - 1))
  }

  /** The head and its arguments are no constructor application with a rule and enough fields for it. */
  predicate NoRule(rules: seq<RecRule>, head: Term, args: seq<Ref>) {
    !head.Const? || FindRule(rules, head.n).None? || FindRule(rules, head.n).value.nfields > |args|
  }

  /** A recursor that does not fire: too few arguments, no rule for the major premise's value, or the wrong number of levels. */
  ghost predicate RecStuck(E: Env, heap: seq<Thunk>, mng: seq<Term>, h: Term, args: seq<Ref>)
    requires h.Const? && h.n in E.consts && E.consts[h.n].Rec?
  {
    var rec := E.consts[h.n];
    var m := MajorIdx(rec);
    |args| <= m
    || (IsFull(heap, args[m])
        && exists r: Ref {:trigger CtorForm(E, heap, mng, args[m], rec.majorInduct, r)} ::
             CtorForm(E, heap, mng, args[m], rec.majorInduct, r)
             && (NoRule(rec.rules, heap[r].vterm, heap[r].args) || |h.ls| != |rec.rparams|))
  }

  /** A quotient primitive that does not fire: too few arguments, or a value that is no `Quot.mk` application. */
  ghost predicate QuotStuck(heap: seq<Thunk>, h: Term, args: seq<Ref>)
    requires h.Const?
  {
    h.n == QUOT_LIFT || h.n == QUOT_IND ==>
      var pos := if h.n == QUOT_LIFT then 5 else 4;
      |args| <= pos
      || (IsFull(heap, args[pos])
          && !(heap[args[pos]].vterm.Const? && heap[args[pos]].vterm.n == QUOT_MK && |heap[args[pos]].args| == 3))
  }

  /** A value that is no numeral: k successors, and under them neither a literal nor zero. */
  ghost predicate NoDigit(heap: seq<Thunk>, r: Ref, k: nat)
    decreases k
  {
    IsFull(heap, r)
    && var x := heap[r];
       if x.args == [] then !(x.vterm.Lit? && x.vterm.v.NatLit?) && !(x.vterm.Const? && x.vterm.n == NAT_ZERO)
       else if |x.args| == 1 && x.vterm.Const? && x.vterm.n == NAT_SUCC then k > 0 && NoDigit(heap, x.args[0], k - 1)
       else true
  }

  ghost predicate NotNumeral(heap: seq<Thunk>, r: Ref) { exists k: nat :: NoDigit(heap, r, k) }

  lemma NoDigits(heap: seq<Thunk>, r: Ref)
    requires IsFull(heap, r) && NoDigit(heap, r, 0)
    ensures NotNumeral(heap, r)
  {
  }

  lemma NoDigitsUnder(heap: seq<Thunk>, r: Ref)
    requires IsFull(heap, r) && |heap[r].args| == 1 && NotNumeral(heap, heap[r].args[0])
    ensures NotNumeral(heap, r)
  {
    var k: nat :| NoDigit(heap, heap[r].args[0], k);
    assert NoDigit(heap, r, k + 1);
  }

  lemma {:induction false} NoDigitKept(heap: seq<Thunk>, heap': seq<Thunk>, mng: seq<Term>, mng': seq<Term>, r: Ref, k: nat)
    requires Grows(heap, heap', mng, mng') && NoDigit(heap, r, k)
    ensures NoDigit(heap', r, k)
    decreases k
  {
    assert SameBut(heap[r], heap'[r]);
    var x := heap[r];
    if x.args != [] && |x.args| == 1 && x.vterm.Const? && x.vterm.n == NAT_SUCC {
      NoDigitKept(heap, heap', mng, mng', x.args[0], k - 1);
    }
  }

  /**
   * A constant that does not reduce.  A definition may stay folded only without delta or at the wrong number
   * of levels, and with delta `Nat.succ` stays only on what is no numeral.
   */
  ghost predicate ConstStuck(E: Env, heap: seq<Thunk>, mng: seq<Term>, h: Term, args: seq<Ref>, d: bool)
    requires h.Const?
  {
    h.n in E.consts && match E.consts[h.n]
      case Rec(_, _, _, _, _, _, _, _) => RecStuck(E, heap, mng, h, args)
      case Quotient => QuotStuck(heap, h, args)
      case Def(dparams, _) => d ==> |h.ls| != |dparams|
      case _ => d && h.n == NAT_SUCC ==> args == [] || NotNumeral(heap, args[0])
  }

  /** Not a constructor application of projection p's structure that has the field. */
  predicate NoFieldIn(E: Env, p: Term, head: Term, args: seq<Ref>)
    requires p.Proj?
  {
    !(IsCtorConst(E, head) && E.consts[head.n].induct == p.s && E.consts[head.n].cparams + p.idx < |args|)
  }

  /** The structure's value v, a string in constructor form, has no such field. */
  ghost predicate NoField(E: Env, heap: seq<Thunk>, mng: seq<Term>, p: Term, v: Answer)
    requires p.Proj?
  {
    if v.h.Lit? && v.h.v.StrLit? && v.args == [] then
      exists r: Ref {:trigger heap[r]} :: IsFull(heap, r) && At(mng, r) == StrLitToCtor(v.h.v.s)
        && NoFieldIn(E, p, heap[r].vterm, heap[r].args)
    else NoFieldIn(E, p, v.h, v.args)
  }

  /**
   * No step of the machine applies to the answer: its head is done, a constant is stuck, and the
   * structure under a projection has itself such an answer, one without the field.
   */
  ghost predicate Final(E: Env, cheap: bool, heap: seq<Thunk>, mng: seq<Term>, a: Answer, d: bool, n: nat)
    decreases n
  {
    && HeadDone(E, a.h)
    && (a.h.Const? ==> ConstStuck(E, heap, mng, a.h, a.args, d))
    && (a.h.Proj? ==>
          n > 0 && exists v: Answer {:trigger NoField(E, heap, mng, a.h, v)} ::
              NoField(E, heap, mng, a.h, v) && InScope(|mng|, v)
              && Conv(E, Clos(mng, a.h.e, a.env), Meaning(mng, v))
              && Final(E, cheap, heap, mng, v, d || !cheap, n - 1))
  }

  /** A projection from a final answer that has no such field is final. */
  lemma ProjEnded(E: Env, cheap: bool, heap: seq<Thunk>, mng: seq<Term>, a: Answer, v: Answer, d: bool, n: nat)
    requires a.h.Proj? && NoField(E, heap, mng, a.h, v) && InScope(|mng|, v)
    requires Conv(E, Clos(mng, a.h.e, a.env), Meaning(mng, v)) && Final(E, cheap, heap, mng, v, d || !cheap, n)
    ensures Final(E, cheap, heap, mng, a, d, n + 1)
  {
  }

  // ---------------------------------------------------------------- answers persist

  lemma MeaningExtend(mng: seq<Term>, mng': seq<Term>, a: Answer)
    requires Extends(mng, mng') && InScope(|mng|, a)
    ensures Meaning(mng', a) == Meaning(mng, a)
  {
    ClosExtend(mng, mng', a.h, a.env);
    MngsExtend(mng, mng', a.args);
  }

  lemma CtorFormKept(E: Env, heap: seq<Thunk>, mng: seq<Term>, heap': seq<Thunk>, mng': seq<Term>, th: Ref, induct: Name, r: Ref)
    requires HeapOk(E, heap, mng) && Grows(heap, heap', mng, mng')
    requires IsFull(heap, th) && CtorForm(E, heap, mng, th, induct, r)
    ensures IsFull(heap', th) && IsFull(heap', r) && CtorForm(E, heap', mng', th, induct, r)
    ensures heap'[r].vterm == heap[r].vterm && heap'[r].args == heap[r].args
  {
    assert ThunkOk(E, mng, th, heap[th]) && ThunkOk(E, mng, r, heap[r]);
    assert SameBut(heap[th], heap'[th]) && SameBut(heap[r], heap'[r]);
    ClosExtend(mng, mng', heap[th].vterm, heap[th].venv);
    MngsExtend(mng, mng', heap[th].args);
  }

  lemma RecStuckKept(E: Env, heap: seq<Thunk>, mng: seq<Term>, heap': seq<Thunk>, mng': seq<Term>, h: Term, args: seq<Ref>)
    requires HeapOk(E, heap, mng) && Grows(heap, heap', mng, mng')
    requires h.Const? && h.n in E.consts && E.consts[h.n].Rec? && RecStuck(E, heap, mng, h, args)
    ensures RecStuck(E, heap', mng', h, args)
  {
    var rec := E.consts[h.n];
    var m := MajorIdx(rec);
    if |args| > m {
      var r: Ref :| CtorForm(E, heap, mng, args[m], rec.majorInduct, r)
               && (NoRule(rec.rules, heap[r].vterm, heap[r].args) || |h.ls| != |rec.rparams|);
      CtorFormKept(E, heap, mng, heap', mng', args[m], rec.majorInduct, r);
    }
  }

  lemma ConstStuckKept(E: Env, heap: seq<Thunk>, mng: seq<Term>, heap': seq<Thunk>, mng': seq<Term>, h: Term, args: seq<Ref>, d: bool)
    requires HeapOk(E, heap, mng) && Grows(heap, heap', mng, mng') && h.Const? && ConstStuck(E, heap, mng, h, args, d)
    ensures ConstStuck(E, heap', mng', h, args, d)
  {
    if E.consts[h.n].Rec? { RecStuckKept(E, heap, mng, heap', mng', h, args); }
    if args != [] && NotNumeral(heap, args[0]) {
      var k: nat :| NoDigit(heap, args[0], k);
      NoDigitKept(heap, heap', mng, mng', args[0], k);
    }
  }

  lemma NoFieldKept(E: Env, heap: seq<Thunk>, mng: seq<Term>, heap': seq<Thunk>, mng': seq<Term>, p: Term, v: Answer)
    requires |heap| == |mng| && Grows(heap, heap', mng, mng') && p.Proj? && NoField(E, heap, mng, p, v)
    ensures NoField(E, heap', mng', p, v)
  {
    if v.h.Lit? && v.h.v.StrLit? && v.args == [] {
      var r: Ref :| IsFull(heap, r) && At(mng, r) == StrLitToCtor(v.h.v.s) && NoFieldIn(E, p, heap[r].vterm, heap[r].args);
      assert SameBut(heap[r], heap'[r]);
    }
  }

  /** A final answer stays final whatever is forced later. */
  lemma {:induction false} FinalKept(E: Env, cheap: bool, heap: seq<Thunk>, mng: seq<Term>, heap': seq<Thunk>, mng': seq<Term>,
                                     a: Answer, d: bool, n: nat)
    requires HeapOk(E, heap, mng) && Grows(heap, heap', mng, mng') && InScope(|mng|, a)
    requires Final(E, cheap, heap, mng, a, d, n)
    ensures Final(E, cheap, heap', mng', a, d, n)
    decreases n
  {
    hide HeapOk, Grows, HeadDone, ConstStuck, NoField, Clos, Mngs;
    ScopeGrows(E, heap, mng, heap', mng');
    if a.h.Const? { ConstStuckKept(E, heap, mng, heap', mng', a.h, a.args, d); }
    if a.h.Proj? {
      var v: Answer :| NoField(E, heap, mng, a.h, v) && InScope(|mng|, v)
                       && Conv(E, Clos(mng, a.h.e, a.env), Meaning(mng, v))
                       && Final(E, cheap, heap, mng, v, d || !cheap, n - 1);
      NoFieldKept(E, heap, mng, heap', mng', a.h, v);
      FinalKept(E, cheap, heap, mng, heap', mng', v, d || !cheap, n - 1);
      ClosExtend(mng, mng', a.h.e, a.env);
      ClosExtend(mng, mng', v.h, v.env);
      MngsExtend(mng, mng', v.args);
    }
  }

  lemma ScopeGrows(E: Env, heap: seq<Thunk>, mng: seq<Term>, heap': seq<Thunk>, mng': seq<Term>)
    requires HeapOk(E, heap, mng) && Grows(heap, heap', mng, mng')
    ensures Extends(mng, mng') && |heap| == |mng|
  {
  }
}
