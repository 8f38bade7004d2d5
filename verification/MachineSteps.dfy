// Branch selection: why entering a minor premise's body directly is replaying the recursor's rule.
module MachineSteps {
  import opened Names
  import opened Terms
  import opened Conversion
  import opened MachineModel

  // ---------------------------------------------------------------- branch selection

  /**
   * The right-hand side of a rule with this shape is
   * `fun params motive minors fields => minor fields ih_1 .. ih_r`.
   */
  datatype Shape = Shape(minor: nat, ihs: seq<Term>)

  function RuleShape(rhs: Term, nbefore: nat, nfields: nat, nminors: nat): (r: Option<Shape>)
    ensures r.Some? ==> IsLams(rhs, nbefore + nfields) && nfields <= r.value.minor < nfields + nminors
    ensures r.Some? ==> var b := LamBody(rhs, nbefore + nfields);
                        AppFn(b) == BVar(r.value.minor) && nfields <= |AppArgs(b)|
                        && AppArgs(b)[nfields..] == r.value.ihs
                        && forall i :: 0 <= i < nfields ==> AppArgs(b)[i] == BVar(nfields - 1 - i)
  {
    if !IsLams(rhs, nbefore + nfields) then None
    else
      var b := LamBody(rhs, nbefore + nfields);
      var h, args := AppFn(b), AppArgs(b);
      if h.BVar? && nfields <= h.i < nfields + nminors && |args| >= nfields
         && (forall i :: 0 <= i < nfields ==> args[i] == BVar(nfields - 1 - i))
      then Some(Shape(h.i, args[nfields..]))
      else None
  }

  function Rev(rs: seq<Ref>): seq<Ref> {
    seq(|rs|, k requires 0 <= k < |rs| => rs[|rs| - 1 - k])
  }

  lemma RevMngs(mng: seq<Term>, rs: seq<Ref>)
    ensures Mngs(mng, Rev(rs)) == Reverse(Mngs(mng, rs))
  {
  }

  lemma RuleBodyBound(rhs: Term, n: nat, i: nat)
    requires Closed(rhs) && IsLams(rhs, n) && Occurs(LamBody(rhs, n), i)
    ensures i < n
  {
    if i >= n {
      OccursLamBody(rhs, n, i - n);
      RangeExact(rhs);
    }
  }

  lemma ReverseEntry(es: seq<Term>, k: nat)
    requires k < |es|
    ensures Entries(Reverse(es), 0)(k) == es[|es| - 1 - k]
  {
    RenZero(Reverse(es)[k]);
  }

  lemma FieldValue(before: seq<Term>, fields: seq<Term>, i: nat)
    requires i < |fields|
    ensures Sub(BVar(|fields| - 1 - i), Entries(Reverse(before + fields), 0)) == fields[i]
  {
    ReverseEntry(before + fields, |fields| - 1 - i);
    assert (before + fields)[|before| + i] == fields[i];
  }

  /** The rule's own arguments on the fields: the fields, then the induction hypotheses. */
  lemma RuleArgsValue(bargs: seq<Term>, before: seq<Term>, fields: seq<Term>, ihs: seq<Term>)
    requires |fields| <= |bargs| && bargs[|fields|..] == ihs
    requires forall i :: 0 <= i < |fields| ==> bargs[i] == BVar(|fields| - 1 - i)
    ensures var s := Entries(Reverse(before + fields), 0); SubAll(bargs, s) == fields + SubAll(ihs, s)
  {
    var s, nf := Entries(Reverse(before + fields), 0), |fields|;
    var got, want := SubAll(bargs, s), fields + SubAll(ihs, s);
    assert |got| == |want|;
    forall i | 0 <= i < |got| ensures got[i] == want[i] {
      if i < nf {
        FieldValue(before, fields, i);
        assert want[i] == fields[i];
      } else {
        assert bargs[i] == ihs[i - nf];
        assert want[i] == SubAll(ihs, s)[i - nf];
      }
    }
  }

  lemma RuleHeadValue(before: seq<Term>, fields: seq<Term>, minor: nat)
    requires |fields| <= minor < |fields| + |before|
    ensures Sub(BVar(minor), Entries(Reverse(before + fields), 0)) == before[|before| - 1 - (minor - |fields|)]
  {
    ReverseEntry(before + fields, minor);
  }

  lemma SubSpine(b: Term, s: Subst)
    ensures Sub(b, s) == MkApps(Sub(AppFn(b), s), SubAll(AppArgs(b), s))
  {
    SpineSplit(b);
    SubMkApps(AppFn(b), AppArgs(b), s);
  }

  lemma RuleBodyValue(b: Term, before: seq<Term>, fields: seq<Term>, minor: nat, ihs: seq<Term>)
    requires |fields| <= minor < |fields| + |before| && AppFn(b) == BVar(minor)
    requires |fields| <= |AppArgs(b)| && AppArgs(b)[|fields|..] == ihs
    requires forall i :: 0 <= i < |fields| ==> AppArgs(b)[i] == BVar(|fields| - 1 - i)
    ensures var s := Entries(Reverse(before + fields), 0);
            Sub(b, s) == MkApps(before[|before| - 1 - (minor - |fields|)], fields + SubAll(ihs, s))
  {
    var s := Entries(Reverse(before + fields), 0);
    RuleHeadValue(before, fields, minor);
    RuleArgsValue(AppArgs(b), before, fields, ihs);
    SubSpine(b, s);
  }

  /** What replaying the rule's lambdas would give: the minor premise on the fields and the hypotheses. */
  lemma RuleReplay(E: Env, rhs: Term, before: seq<Term>, fields: seq<Term>, nminors: nat, sh: Shape)
    requires RuleShape(rhs, |before|, |fields|, nminors) == Some(sh) && nminors <= |before|
    ensures Conv(E, MkApps(rhs, before + fields),
                 MkApps(before[|before| - 1 - (sh.minor - |fields|)],
                        fields + SubAll(sh.ihs, Entries(Reverse(before + fields), 0))))
  {
    var all := before + fields;
    assert IsLams(rhs, |all|);
    var b := LamBody(rhs, |all|);
    BetaMany(E, true, rhs, all);
    InstantiateIsSub(b, Reverse(all));
    RuleBodyValue(b, before, fields, sh.minor, sh.ihs);
  }

  lemma EnterBodyValue(mng: seq<Term>, mt: Term, menv: seq<Ref>, args: seq<Term>, env: seq<Ref>)
    requires IsLams(mt, |args|)
    requires |env| == |args| + |menv| && forall i :: 0 <= i < |menv| ==> env[|args| + i] == menv[i]
    requires forall i: nat :: Occurs(mt, i) ==> i < |menv|
    requires forall i: nat :: Occurs(LamBody(mt, |args|), i) && i < |args| ==> At(mng, env[i]) == args[|args| - 1 - i]
    ensures Clos(mng, LamBody(mt, |args|), env)
         == Sub(LamBody(mt, |args|), Entries(Reverse(args) + Mngs(mng, menv), 0))
  {
    var n := |args|;
    var all := Reverse(args) + Mngs(mng, menv);
    forall i: nat | Occurs(LamBody(mt, n), i)
      ensures i < |env| && i < |all| && At(mng, env[i]) == all[i]
    {
      if i >= n {
        OccursLamBody(mt, n, i - n);
        assert env[n + (i - n)] == menv[i - n];
      }
    }
    ClosAgree(mng, LamBody(mt, n), env, all);
  }

  /** Entering the body of a lambda closure under its environment extended with the arguments. */
  lemma EnterBody(E: Env, mng: seq<Term>, f: Term, mt: Term, menv: seq<Ref>, args: seq<Term>, env: seq<Ref>)
    requires Conv(E, f, Clos(mng, mt, menv)) && IsLams(mt, |args|)
    requires |env| == |args| + |menv| && forall i :: 0 <= i < |menv| ==> env[|args| + i] == menv[i]
    requires forall i: nat :: Occurs(mt, i) ==> i < |menv|
    requires forall i: nat :: Occurs(LamBody(mt, |args|), i) && i < |args| ==> At(mng, env[i]) == args[|args| - 1 - i]
    ensures Conv(E, MkApps(f, args), Clos(mng, LamBody(mt, |args|), env))
  {
    var n := |args|;
    var vals := Mngs(mng, menv);
    var f' := Clos(mng, mt, menv);
    ClosIsSub(mng, mt, menv);
    SubLams(mt, Entries(vals, 0), n);
    StarHead(E, true, f, f', args);
    BetaMany(E, true, f', args);
    InstantiateIsSub(LamBody(f', n), Reverse(args));
    EntriesJoin(LamBody(mt, n), vals, Reverse(args));
    EnterBodyValue(mng, mt, menv, args, env);
    StarTrans(E, true, MkApps(f, args), MkApps(f', args), Clos(mng, LamBody(mt, n), env));
  }

  /** The environment branch selection builds: the fields, then one cell per induction hypothesis. */
  function BranchEnv(menv: seq<Ref>, fields: seq<Ref>, cells: seq<Ref>): seq<Ref> {
    Rev(fields + cells) + menv
  }

  /** The minor premise's arguments: the fields, then the induction hypotheses of the rule. */
  ghost function BranchArgs(mng: seq<Term>, before: seq<Ref>, fields: seq<Ref>, sh: Shape): (args: seq<Term>)
    ensures |args| == |fields| + |sh.ihs|
  {
    Mngs(mng, fields) + SubAll(sh.ihs, Entries(Reverse(Mngs(mng, before + fields)), 0))
  }

  /** Cells made so far stand for the hypotheses the body mentions. */
  ghost predicate CellsOk(mng: seq<Term>, body: Term, ihs: seq<Term>, renv: seq<Ref>, cells: seq<Ref>) {
    |cells| <= |ihs| && EnvOk(|mng|, cells)
    && forall j :: 0 <= j < |cells| && Occurs(body, |ihs| - 1 - j) ==>
         cells[j] != UNUSED && At(mng, cells[j]) == Clos(mng, ihs[j], renv)
  }

  lemma CellsExtend(mng: seq<Term>, mng': seq<Term>, body: Term, ihs: seq<Term>, renv: seq<Ref>, cells: seq<Ref>)
    requires CellsOk(mng, body, ihs, renv, cells) && Extends(mng, mng') && EnvOk(|mng|, renv)
    ensures CellsOk(mng', body, ihs, renv, cells)
  {
    forall j | 0 <= j < |cells| && Occurs(body, |ihs| - 1 - j)
      ensures cells[j] != UNUSED && At(mng', cells[j]) == Clos(mng', ihs[j], renv)
    {
      ClosExtend(mng, mng', ihs[j], renv);
    }
  }

  lemma BranchRefs(n: nat, menv: seq<Ref>, fields: seq<Ref>, cells: seq<Ref>)
    requires RefsOk(n, fields) && EnvOk(n, menv) && EnvOk(n, cells)
    ensures EnvOk(n, BranchEnv(menv, fields, cells))
  {
    var all, env := fields + cells, BranchEnv(menv, fields, cells);
    forall i | 0 <= i < |env| ensures env[i] < n {
      if i < |all| { assert env[i] == all[|all| - 1 - i]; } else { assert env[i] == menv[i - |all|]; }
    }
  }

  lemma BranchOuter(menv: seq<Ref>, fields: seq<Ref>, cells: seq<Ref>, i: nat)
    requires i < |menv|
    ensures var k := i + |fields| + |cells|;
            k < |BranchEnv(menv, fields, cells)| && BranchEnv(menv, fields, cells)[k] == menv[i]
  {
  }

  lemma BranchEnvOk(mng: seq<Term>, before: seq<Ref>, fields: seq<Ref>, sh: Shape, mt: Term, menv: seq<Ref>,
                    cells: seq<Ref>)
    requires RefsOk(|mng|, fields) && ClosOk(|mng|, mt, menv) && IsLams(mt, |fields| + |sh.ihs|)
    requires |cells| == |sh.ihs|
    requires CellsOk(mng, LamBody(mt, |fields| + |sh.ihs|), sh.ihs, Rev(before + fields), cells)
    ensures ClosOk(|mng|, LamBody(mt, |fields| + |sh.ihs|), BranchEnv(menv, fields, cells))
  {
    var n := |fields| + |sh.ihs|;
    var body, env := LamBody(mt, n), BranchEnv(menv, fields, cells);
    BranchRefs(|mng|, menv, fields, cells);
    forall i: nat | Occurs(body, i)
      ensures i < |env| && env[i] != UNUSED
    {
      if i >= n {
        OccursLamBody(mt, n, i - n);
        BranchOuter(menv, fields, cells, i - n);
      } else {
        BranchCell(mng, before, fields, sh, body, menv, cells, i);
      }
    }
  }

  /**
   * Branch selection refines rule replay: entering the minor premise's body directly, with a cell
   * built only for the hypotheses the body mentions, reads back to what the rule's right-hand side
   * reduces to on the same arguments.
   */
  lemma BranchRefinesReplay(E: Env, mng: seq<Term>, rhs: Term, before: seq<Ref>, fields: seq<Ref>, nminors: nat,
                            sh: Shape, mt: Term, menv: seq<Ref>, cells: seq<Ref>)
    requires RuleShape(rhs, |before|, |fields|, nminors) == Some(sh) && nminors <= |before|
    requires RefsOk(|mng|, before) && RefsOk(|mng|, fields)
    requires var minor := before[|before| - 1 - (sh.minor - |fields|)]; Conv(E, mng[minor], Clos(mng, mt, menv))
    requires ClosOk(|mng|, mt, menv) && IsLams(mt, |fields| + |sh.ihs|)
    requires |cells| == |sh.ihs|
    requires CellsOk(mng, LamBody(mt, |fields| + |sh.ihs|), sh.ihs, Rev(before + fields), cells)
    ensures ClosOk(|mng|, LamBody(mt, |fields| + |sh.ihs|), BranchEnv(menv, fields, cells))
    ensures Conv(E, MkApps(rhs, Mngs(mng, before + fields)),
                 Clos(mng, LamBody(mt, |fields| + |sh.ihs|), BranchEnv(menv, fields, cells)))
  {
    BranchEnvOk(mng, before, fields, sh, mt, menv, cells);
    var bs, fs := Mngs(mng, before), Mngs(mng, fields);
    assert Mngs(mng, before + fields) == bs + fs;
    RuleReplay(E, rhs, bs, fs, nminors, sh);
    var k := |before| - 1 - (sh.minor - |fields|);
    assert bs[k] == mng[before[k]];
    BranchEnter(E, mng, mng[before[k]], before, fields, sh, mt, menv, cells);
    StarTrans(E, true, MkApps(rhs, bs + fs), MkApps(bs[k], BranchArgs(mng, before, fields, sh)),
              Clos(mng, LamBody(mt, |fields| + |sh.ihs|), BranchEnv(menv, fields, cells)));
  }

  lemma BranchEnter(E: Env, mng: seq<Term>, f: Term, before: seq<Ref>, fields: seq<Ref>, sh: Shape, mt: Term,
                    menv: seq<Ref>, cells: seq<Ref>)
    requires RefsOk(|mng|, fields) && Conv(E, f, Clos(mng, mt, menv))
    requires ClosOk(|mng|, mt, menv) && IsLams(mt, |fields| + |sh.ihs|)
    requires |cells| == |sh.ihs|
    requires CellsOk(mng, LamBody(mt, |fields| + |sh.ihs|), sh.ihs, Rev(before + fields), cells)
    ensures Conv(E, MkApps(f, BranchArgs(mng, before, fields, sh)),
                 Clos(mng, LamBody(mt, |fields| + |sh.ihs|), BranchEnv(menv, fields, cells)))
  {
    var args := BranchArgs(mng, before, fields, sh);
    var n := |fields| + |sh.ihs|;
    var body, env := LamBody(mt, n), BranchEnv(menv, fields, cells);
    assert |args| == n;
    forall i: nat | Occurs(LamBody(mt, |args|), i) && i < |args|
      ensures At(mng, env[i]) == args[|args| - 1 - i]
    {
      BranchCell(mng, before, fields, sh, body, menv, cells, i);
    }
    BranchTail(menv, fields, cells);
    assert forall i :: 0 <= i < |menv| ==> env[|args| + i] == menv[i];
    EnterBody(E, mng, f, mt, menv, args, env);
  }

  lemma BranchTail(menv: seq<Ref>, fields: seq<Ref>, cells: seq<Ref>)
    ensures var n := |fields| + |cells|;
            var env := BranchEnv(menv, fields, cells);
            |env| == n + |menv| && forall i :: 0 <= i < |menv| ==> env[n + i] == menv[i]
  {
  }

  lemma BranchCell(mng: seq<Term>, before: seq<Ref>, fields: seq<Ref>, sh: Shape, body: Term, menv: seq<Ref>,
                   cells: seq<Ref>, i: nat)
    requires RefsOk(|mng|, fields) && CellsOk(mng, body, sh.ihs, Rev(before + fields), cells) && |cells| == |sh.ihs|
    requires i < |fields| + |sh.ihs| && Occurs(body, i)
    ensures var env := BranchEnv(menv, fields, cells);
            env[i] != UNUSED && At(mng, env[i]) == BranchArgs(mng, before, fields, sh)[|fields| + |sh.ihs| - 1 - i]
  {
    var n := |fields| + |sh.ihs|;
    var env := BranchEnv(menv, fields, cells);
    assert env[i] == (fields + cells)[n - 1 - i];
    if i < |cells| {
      var j := |cells| - 1 - i;
      assert env[i] == cells[j];
      ClosIsSub(mng, sh.ihs[j], Rev(before + fields));
      RevMngs(mng, before + fields);
    } else {
      assert env[i] == fields[n - 1 - i];
    }
  }
}
