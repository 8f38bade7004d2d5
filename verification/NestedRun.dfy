// The elimination's state and loops (src/inductive.cpp): types and tables grow while constructor types are
// rewritten, auxiliary types' own constructors included.
module NestedRun {
  import opened Names
  import opened Terms
  import opened Conversion
  import opened Closing
  import opened NestedModel
  import opened NestedRestore
  import opened NestedTerms
  import NestedNames
  import L = Levels

  /** The table of nested applications and the map from auxiliary names agree; names carry used indices. */
  ghost predicate TablesOk(aux: map<Name, Term>, list: seq<(Term, Name)>, params: seq<nat>, next: nat) {
    && AuxOk(aux, params)
    && (forall k {:trigger list[k]} :: 0 <= k < |list| ==> list[k].1 in aux && aux[list[k].1] == list[k].0)
    && (list == [] ==> aux == map[])
    && (forall a {:trigger a in aux} :: a in aux ==> NestedNames.Indexed(a, next))
  }

  /** An auxiliary constructor has a reserved name, or keeps the name of the constructor it copies. */
  ghost predicate CtorsOk(D: map<Name, Info>, aux: map<Name, Term>, ctorOf: map<Name, Name>) {
    forall c {:trigger c in ctorOf} :: c in ctorOf ==> ctorOf[c] in aux && (Reserved(c) || c in D)
  }

  /** An auxiliary type's type, and those of its constructors as first written, are the real ones at the nested parameters. */
  ghost predicate CopiesOf(D: map<Name, Info>, a: Name, key: Term, params: seq<nat>, ty: Term, names: seq<Name>, tys: seq<Term>) {
    && AppFn(key).Const? && AppFn(key).n in D && CopyOf(D, key, params, AppFn(key).n, ty)
    && |tys| == |names| == |D[AppFn(key).n].ctors|
    && forall k {:trigger tys[k]} :: 0 <= k < |tys| ==>
         && names[k] == ReplacePrefix(D[AppFn(key).n].ctors[k], AppFn(key).n, a)
         && CopyOf(D, key, params, D[AppFn(key).n].ctors[k], tys[k])
  }

  ghost function CtorNames(t: IndType): (r: seq<Name>)
    ensures |r| == |t.ctors|
    ensures forall k {:trigger r[k]} :: 0 <= k < |r| ==> r[k] == t.ctors[k].name
  {
    seq(|t.ctors|, k requires 0 <= k < |t.ctors| => t.ctors[k].name)
  }

  ghost predicate AllDeclared(tys: seq<Term>) { forall k {:trigger tys[k]} :: 0 <= k < |tys| ==> Declared(tys[k]) }

  /** A type of the state against the constructor types it started with: of the block, or auxiliary. */
  ghost predicate TypeOk(S: Spec, i: nat, t: IndType, tys: seq<Term>) {
    && |tys| == |t.ctors| && AllDeclared(tys)
    && if i < |S.block| then t.name == S.block[i]
       else Reserved(t.name) && t.name in S.aux && CopiesOf(S.D, t.name, S.aux[t.name], S.params, t.ty, CtorNames(t), tys)
  }

  ghost predicate TypesOk(S: Spec, types: seq<IndType>, orig: seq<seq<Term>>) {
    && |orig| == |types| >= |S.block|
    && forall i {:trigger types[i]} :: 0 <= i < |types| ==> TypeOk(S, i, types[i], orig[i])
  }

  ghost predicate Extends(aux: map<Name, Term>, aux': map<Name, Term>) {
    forall a {:trigger a in aux'} :: a in aux ==> a in aux' && aux'[a] == aux[a]
  }

  lemma TypesExtend(S: Spec, S': Spec, types: seq<IndType>, orig: seq<seq<Term>>)
    requires TypesOk(S, types, orig) && S' == S.(aux := S'.aux) && Extends(S.aux, S'.aux)
    ensures TypesOk(S', types, orig)
  {
    forall i | 0 <= i < |types| ensures TypeOk(S', i, types[i], orig[i]) {
      assert TypeOk(S, i, types[i], orig[i]);
      if i >= |S.block| { assert types[i].name in S'.aux; }
    }
  }

  /** Auxiliary types change nothing about which declared types are mentioned. */
  lemma MentionsGrown(S: Spec, types: seq<IndType>, orig: seq<seq<Term>>, names: seq<Name>, t: Term)
    requires TypesOk(S, types, orig) && Unreserved(t)
    requires |names| == |types| && forall i {:trigger names[i]} :: 0 <= i < |names| ==> names[i] == types[i].name
    ensures MentionsAny(t, names) == MentionsAny(t, S.block)
  {
    if k :| 0 <= k < |names| && Mentions(t, names[k]) {
      assert TypeOk(S, k, types[k], orig[k]);
      assert Mentions(t, S.block[k]);
    }
    if k :| 0 <= k < |S.block| && Mentions(t, S.block[k]) {
      assert TypeOk(S, k, types[k], orig[k]);
      assert Mentions(t, names[k]);
    }
  }

  lemma HeadsKept(types0: seq<IndType>, types1: seq<IndType>, types: seq<IndType>)
    requires SameHeads(types0, types1) && SameHeads(types1, types)
    ensures SameHeads(types0, types)
  {
    forall i | 0 <= i < |types0| ensures types[i].name == types0[i].name && types[i].ty == types0[i].ty
      ensures CtorNames(types[i]) == CtorNames(types0[i])
    {
      assert types1[i].name == types0[i].name && types[i].name == types1[i].name;
    }
  }

  lemma SetHeads(types0: seq<IndType>, types: seq<IndType>, i: nat, k: nat, ty: Term)
    requires |types0| <= |types| && types[..|types0|] == types0 && i < |types0| && k < |types[i].ctors|
    ensures SameHeads(types0, types[i := SetCtor(types[i], k, ty)])
  {
    var types' := types[i := SetCtor(types[i], k, ty)];
    forall p | 0 <= p < |types0| ensures types'[p].name == types0[p].name && types'[p].ty == types0[p].ty
      ensures CtorNames(types'[p]) == CtorNames(types0[p])
    {
      assert types[p] == types0[p];
    }
  }

  ghost predicate Cell(types: seq<IndType>, orig: seq<seq<Term>>, p: nat, q: nat) {
    p < |types| && p < |orig| && q < |types[p].ctors| && q < |orig[p]|
  }

  /** A constructor's type, eliminated or still as first written. */
  ghost predicate Settled(S: Spec, types: seq<IndType>, orig: seq<seq<Term>>, p: nat, q: nat, done: bool)
    requires Cell(types, orig, p, q)
  {
    if done then Eliminated(S, orig[p][q], types[p].ctors[q].ty) else types[p].ctors[q].ty == orig[p][q]
  }

  /** Constructors before (i, k) are eliminated, those from there on are as first written. */
  ghost predicate Progress(S: Spec, types: seq<IndType>, orig: seq<seq<Term>>, i: nat, k: nat) {
    forall p: nat, q: nat {:trigger Cell(types, orig, p, q)} :: Cell(types, orig, p, q) ==>
      Settled(S, types, orig, p, q, p < i || (p == i && q < k))
  }

  /** The types there were keep their names, their own types and their constructors' names. */
  ghost predicate SameHeads(types0: seq<IndType>, types: seq<IndType>) {
    && |types0| <= |types|
    && forall i {:trigger types[i]} {:trigger types0[i]} :: 0 <= i < |types0| ==>
         types[i].name == types0[i].name && types[i].ty == types0[i].ty && CtorNames(types[i]) == CtorNames(types0[i])
  }

  ghost predicate GrownFrom(types0: seq<IndType>, orig0: seq<seq<Term>>, types: seq<IndType>, orig: seq<seq<Term>>) {
    && |types0| <= |types| && types[..|types0|] == types0
    && |orig| == |types| && |orig0| == |types0| && orig[..|orig0|] == orig0
    && forall i {:trigger types[i]} :: |types0| <= i < |types| ==> CtorTypes(types[i]) == orig[i]
  }

  lemma GrownProgress(S0: Spec, S: Spec, types0: seq<IndType>, orig0: seq<seq<Term>>,
                      types: seq<IndType>, orig: seq<seq<Term>>, i: nat, k: nat)
    requires S == S0.(aux := S.aux) && Extends(S0.aux, S.aux) && GrownFrom(types0, orig0, types, orig)
    requires i < |types0| && Progress(S0, types0, orig0, i, k)
    ensures Progress(S, types, orig, i, k)
  {
    forall p: nat, q: nat | Cell(types, orig, p, q)
      ensures Settled(S, types, orig, p, q, p < i || (p == i && q < k))
    {
      if p < |types0| {
        assert types[p] == types0[p] && orig[p] == orig0[p];
        assert Cell(types0, orig0, p, q);
        if p < i || (p == i && q < k) { EliminatedMore(S0, S, orig[p][q], types[p].ctors[q].ty); }
      } else {
        assert CtorTypes(types[p]) == orig[p];
        assert CtorTypes(types[p])[q] == types[p].ctors[q].ty;
      }
    }
  }

  lemma EliminatedMore(S0: Spec, S: Spec, t: Term, r: Term)
    requires Eliminated(S0, t, r) && S == S0.(aux := S.aux) && Extends(S0.aux, S.aux)
    ensures Eliminated(S, t, r)
  {
    forall a | a in S0.aux ensures a in S.aux && S.aux[a] == S0.aux[a] { assert a in S.aux; }
    EliminatesMore(S0, S, Opened(t, S.params), Opened(r, S.params));
  }

  function SetCtor(t: IndType, k: nat, ty: Term): IndType
    requires k < |t.ctors|
  {
    t.(ctors := t.ctors[k := CtorDecl(t.ctors[k].name, ty)])
  }

  lemma SetProgress(S: Spec, types: seq<IndType>, orig: seq<seq<Term>>, i: nat, k: nat, ty: Term)
    requires Cell(types, orig, i, k) && Progress(S, types, orig, i, k) && Eliminated(S, orig[i][k], ty)
    ensures Progress(S, types[i := SetCtor(types[i], k, ty)], orig, i, k + 1)
  {
    var types' := types[i := SetCtor(types[i], k, ty)];
    forall p: nat, q: nat | Cell(types', orig, p, q)
      ensures Settled(S, types', orig, p, q, p < i || (p == i && q < k + 1))
    {
      assert Cell(types, orig, p, q);
    }
  }

  lemma SetTypesOk(S: Spec, types: seq<IndType>, orig: seq<seq<Term>>, i: nat, k: nat, ty: Term)
    requires TypesOk(S, types, orig) && Cell(types, orig, i, k)
    ensures TypesOk(S, types[i := SetCtor(types[i], k, ty)], orig)
  {
    var types' := types[i := SetCtor(types[i], k, ty)];
    forall p | 0 <= p < |types'| ensures TypeOk(S, p, types'[p], orig[p]) {
      assert TypeOk(S, p, types[p], orig[p]);
      if p == i { assert CtorNames(types'[i]) == CtorNames(types[i]); }
    }
  }

  class NestedElim {
    const D: map<Name, Info>
    const lvls: seq<L.Level>
    const params: seq<nat>
    const ctx: LocalCtx
    var types: seq<IndType>
    var nestedAux: seq<(Term, Name)>
    var aux2nested: map<Name, Term>
    var auxCtorOf: map<Name, Name>
    var next: nat
    /** The block's own type names, and the constructor types as first written. */
    ghost const block: seq<Name>
    ghost var orig: seq<seq<Term>>

    ghost function S(): Spec
      reads this
    {
      Spec(D, block, lvls, params, aux2nested)
    }

    ghost predicate Valid()
      reads this
    {
      && WfDecls(D)
      && TablesOk(aux2nested, nestedAux, params, next)
      && CtorsOk(D, aux2nested, auxCtorOf)
      && TypesOk(S(), types, orig)
    }

    /** Parameters opened for one constructor. */
    ghost predicate Opening(fs: seq<nat>)
      reads this, ctx
    {
      |fs| == |params| && ctx.InScope(fs) && Plain(ctx.DeclsOf(fs), fs)
    }

    /** Every type has constructors of declared types, and the parameters are distinct variables. */
    constructor (D: map<Name, Info>, lvls: seq<L.Level>, params: seq<nat>, ctx: LocalCtx, types: seq<IndType>)
      requires WfDecls(D) && Distinct(params)
      requires forall i, k {:trigger types[i].ctors[k]} :: 0 <= i < |types| && 0 <= k < |types[i].ctors| ==>
        Declared(types[i].ctors[k].ty)
      ensures Valid() && this.D == D && this.lvls == lvls && this.params == params && this.ctx == ctx
      ensures this.types == types && aux2nested == map[] && |block| == |types|
      ensures Progress(S(), types, orig, 0, 0)
    {
      this.D, this.lvls, this.params, this.ctx, this.types := D, lvls, params, ctx, types;
      nestedAux, aux2nested, auxCtorOf, next := [], map[], map[], 1;
      block := seq(|types|, i requires 0 <= i < |types| => types[i].name);
      orig := seq(|types|, i requires 0 <= i < |types| =>
        seq(|types[i].ctors|, k requires 0 <= k < |types[i].ctors| => types[i].ctors[k].ty));
      new;
      forall i | 0 <= i < |types| ensures TypeOk(S(), i, types[i], orig[i]) {
        forall k | 0 <= k < |orig[i]| ensures Declared(orig[i][k]) { assert Declared(types[i].ctors[k].ty); }
      }
      forall p: nat, q: nat | Cell(types, orig, p, q) ensures Settled(S(), types, orig, p, q, false) {
        assert orig[p][q] == types[p].ctors[q].ty;
      }
    }

    /** The name of the auxiliary type for j: reserved, new, and indexed. */
    method NewName(j: Name) returns (a: Name)
      requires Valid() && j != Anonymous
      modifies this`next
      ensures Valid() && Reserved(a) && a !in aux2nested && a !in D && NestedNames.Indexed(a, next)
    {
      ghost var start := next;
      var skipped, n := NestedNames.Unique(D, Str(NESTED, NestedNames.Dotted(j)), next);
      var m: nat;
      a, m := NestedNames.Unique(D, NestedNames.Under(j), n);
      NestedNames.AppendReserved(j, m - 1);
      assert NestedNames.Indexed(a, m);
      forall b | b in aux2nested ensures b != a && NestedNames.Indexed(b, m) {
        assert NestedNames.Indexed(b, start);
        assert NestedNames.Indexed(b, n);
      }
      next := m;
    }

    /** The constructors of the auxiliary type a for j at parameters pargs. */
    method AuxCtors(j: Name, a: Name, h: Term, pargs: seq<Term>, fs: seq<nat>) returns (r: Res<seq<CtorDecl>>)
      requires Valid() && Opening(fs) && ClosedOver(pargs, fs) && AllUnreserved(pargs)
      requires j in D && h.Const? && h.n == j && a in aux2nested && Reserved(a)
      modifies this`auxCtorOf
      ensures CtorsOk(D, aux2nested, auxCtorOf)
      ensures r.Ok? ==> |r.v| == |D[j].ctors|
      ensures r.Ok? ==> forall k {:trigger r.v[k]} :: 0 <= k < |r.v| ==>
        CtorFor(D, j, a, Rename(MkApps(h, pargs), fs, params), params, k, r.v[k])
    {
      var cs: seq<CtorDecl>, k := [], 0;
      while k < |D[j].ctors|
        invariant 0 <= k <= |D[j].ctors| && |cs| == k
        invariant CtorsOk(D, aux2nested, auxCtorOf)
        invariant forall i {:trigger cs[i]} :: 0 <= i < k ==>
          CtorFor(D, j, a, Rename(MkApps(h, pargs), fs, params), params, i, cs[i])
      {
        var c := D[j].ctors[k];
        if c !in D { return Err(UnknownConstant); }
        if |D[c].lparams| != |h.ls| { return Err(LevelCount); }
        var ct := InstantiatePis(InstantiateLParams(D[c].ty, D[c].lparams, h.ls), |pargs|, pargs);
        if ct.Err? { return Err(ct.e); }
        CopiedType(D, c, h, pargs, fs, ctx.DeclsOf(fs), params);
        var ty := ctx.Close(fs, true, ct.v);
        var name := ReplacePrefix(c, j, a);
        AuxCtorReserved(c, j, a);
        cs := cs + [CtorDecl(name, ty)];
        auxCtorOf := auxCtorOf[name := a];
        k := k + 1;
      }
      return Ok(cs);
    }
  
    method PushKey(a: Name, key: Term)
      requires Valid() && Reserved(a) && KeyOk(key, params) && a !in aux2nested && NestedNames.Indexed(a, next)
      modifies this`nestedAux, this`aux2nested
      ensures Valid() && aux2nested == old(aux2nested)[a := key] && nestedAux == old(nestedAux) + [(key, a)]
    {
      ghost var S0 := S();
      nestedAux := nestedAux + [(key, a)];
      aux2nested := aux2nested[a := key];
      TypesExtend(S0, S(), types, orig);
    }

    method PushType(t: IndType, j: Name)
      requires Valid() && Reserved(t.name) && t.name in aux2nested
      requires AppFn(aux2nested[t.name]).Const? && AppFn(aux2nested[t.name]).n == j && j in D
      requires CopyOf(D, aux2nested[t.name], params, j, t.ty) && |t.ctors| == |D[j].ctors|
      requires forall k {:trigger t.ctors[k]} :: 0 <= k < |t.ctors| ==>
        CtorFor(D, j, t.name, aux2nested[t.name], params, k, t.ctors[k])
      modifies this`types, this`orig
      ensures Valid() && types == old(types) + [t] && orig == old(orig) + [CtorTypes(t)]
    {
      ghost var tys := CtorTypes(t);
      assert TypeOk(S(), |types|, t, tys) by {
        assert AllDeclared(tys);
        assert CopiesOf(D, t.name, aux2nested[t.name], params, t.ty, CtorNames(t), tys) by {
          forall k | 0 <= k < |tys|
            ensures CtorNames(t)[k] == ReplacePrefix(D[j].ctors[k], j, t.name)
            ensures CopyOf(D, aux2nested[t.name], params, D[j].ctors[k], tys[k])
          {
            assert CtorFor(D, j, t.name, aux2nested[t.name], params, k, t.ctors[k]);
          }
        }
      }
      types := types + [t];
      orig := orig + [tys];
      forall i | 0 <= i < |types| ensures TypeOk(S(), i, types[i], orig[i]) {
        if i < |types| - 1 { assert TypeOk(S(), i, old(types)[i], old(orig)[i]); }
      }
    }

    /** What the state has grown to from the given one. */
    ghost predicate Grown(types0: seq<IndType>, orig0: seq<seq<Term>>, aux0: map<Name, Term>)
      reads this
    {
      GrownFrom(types0, orig0, types, orig) && Extends(aux0, aux2nested)
    }

    /** The type of h.n at parameters pargs, bound over the block's. */
    method AuxType(h: Term, pargs: seq<Term>, fs: seq<nat>) returns (r: Res<Term>)
      requires Opening(fs) && ClosedOver(pargs, fs) && AllUnreserved(pargs)
      requires h.Const? && h.n in D && |D[h.n].lparams| == |h.ls| && Declared(D[h.n].ty)
      ensures r.Ok? ==> CopyOf(D, Rename(MkApps(h, pargs), fs, params), params, h.n, r.v)
    {
      var jt := InstantiatePis(InstantiateLParams(D[h.n].ty, D[h.n].lparams, h.ls), |pargs|, pargs);
      if jt.Err? { return Err(jt.e); }
      CopiedType(D, h.n, h, pargs, fs, ctx.DeclsOf(fs), params);
      var ty := ctx.Close(fs, true, jt.v);
      return Ok(ty);
    }

    /** Adds the auxiliary type for type h.n of a mutual block at parameters pargs. */
    method AddAux(h: Term, pargs: seq<Term>, fs: seq<nat>) returns (r: Res<Name>)
      requires Valid() && Opening(fs) && ClosedOver(pargs, fs) && AllUnreserved(pargs)
      requires h.Const? && h.n != Anonymous && (h.n in D ==> Declared(D[h.n].ty))
      modifies this
      ensures r.Ok? ==> Valid() && Grown(old(types), old(orig), old(aux2nested))
      ensures r.Ok? ==> r.v in aux2nested && aux2nested[r.v] == Rename(MkApps(h, pargs), fs, params)
    {
      if h.n !in D { return Err(UnknownConstant); }
      var J := D[h.n];
      if |J.lparams| != |h.ls| { return Err(LevelCount); }
      var a := NewName(h.n);
      var ty := AuxType(h, pargs, fs);
      if ty.Err? { return Err(ty.e); }
      var key := InstantiateRev(AbstractFVars(MkApps(h, pargs), fs), FVars(params));
      KeyOf(h, pargs, fs, params);
      KeySpine(h, pargs, fs, params);
      PushKey(a, key);
      var cs := AuxCtors(h.n, a, h, pargs, fs);
      if cs.Err? { return Err(cs.e); }
      PushType(IndType(a, ty.v, cs.v), h.n);
      return Ok(a);
    }
  
    /** Whether one of the first np arguments mentions a new type, and whether one has loose variables. */
    method Scan(args: seq<Term>, np: nat) returns (nested: bool, loose: bool)
      requires Valid() && np <= |args| && AllUnreserved(args)
      ensures nested <==> exists k :: 0 <= k < np && MentionsAny(args[k], block)
      ensures loose <==> exists k :: 0 <= k < np && !Closed(args[k])
    {
      nested, loose := false, false;
      var names := seq(|types|, i requires 0 <= i < |types| reads this => types[i].name);
      var k := 0;
      while k < np
        invariant 0 <= k <= np
        invariant nested <==> exists i :: 0 <= i < k && MentionsAny(args[i], block)
        invariant loose <==> exists i :: 0 <= i < k && !Closed(args[i])
      {
        MentionsGrown(S(), types, orig, names, args[k]);
        if !Closed(args[k]) { loose := true; }
        if MentionsAny(args[k], names) { nested := true; }
        k := k + 1;
      }
    }

    method FindKey(key: Term) returns (r: Option<Name>)
      requires Valid()
      ensures r.Some? ==> r.value in aux2nested && aux2nested[r.value] == key
      ensures r.None? ==> forall k {:trigger nestedAux[k]} :: 0 <= k < |nestedAux| ==> nestedAux[k].0 != key
    {
      var k := 0;
      while k < |nestedAux|
        invariant 0 <= k <= |nestedAux|
        invariant forall i {:trigger nestedAux[i]} :: 0 <= i < k ==> nestedAux[i].0 != key
      {
        if nestedAux[k].0 == key { return Some(nestedAux[k].1); }
        k := k + 1;
      }
      return None;
    }

    /** Auxiliary types for every type of h.n's mutual block; the one for h.n itself is returned. */
    method AddBlock(h: Term, pargs: seq<Term>, fs: seq<nat>) returns (r: Res<Name>)
      requires Valid() && Opening(fs) && ClosedOver(pargs, fs) && AllUnreserved(pargs)
      requires h.Const? && h.n in D
      modifies this
      ensures r.Ok? ==> Valid() && Grown(old(types), old(orig), old(aux2nested))
      ensures r.Ok? ==> r.v in aux2nested && aux2nested[r.v] == Rename(MkApps(h, pargs), fs, params)
    {
      var found: Option<Name>, k := None, 0;
      ghost var key := Rename(MkApps(h, pargs), fs, params);
      while k < |D[h.n].all|
        invariant 0 <= k <= |D[h.n].all|
        invariant Valid() && Grown(old(types), old(orig), old(aux2nested))
        invariant found.Some? ==> found.value in aux2nested && aux2nested[found.value] == key
      {
        var j := D[h.n].all[k];
        ghost var types1, orig1, aux1 := types, orig, aux2nested;
        var a := AddAux(Const(j, h.ls), pargs, fs);
        if a.Err? { return a; }
        GrownTwice(old(types), old(orig), old(aux2nested), types1, orig1, aux1);
        if j == h.n { found := Some(a.v); }
        k := k + 1;
      }
      return if found.Some? then Ok(found.value) else Err(IllFormed);
    }

    lemma GrownTwice(types0: seq<IndType>, orig0: seq<seq<Term>>, aux0: map<Name, Term>,
                     types1: seq<IndType>, orig1: seq<seq<Term>>, aux1: map<Name, Term>)
      requires GrownFrom(types0, orig0, types1, orig1) && Extends(aux0, aux1)
      requires Grown(types1, orig1, aux1)
      ensures Grown(types0, orig0, aux0)
    {
      forall a | a in aux0 ensures a in aux2nested && aux2nested[a] == aux0[a] {
        assert a in aux1;
      }
      forall i | |types0| <= i < |types| ensures CtorTypes(types[i]) == orig[i] {
        if i < |types1| { assert types[i] == types1[i] && orig[i] == orig1[i]; }
      }
    }

    /** Some auxiliary application when e is a nested one, and None when it is not. */
    method ReplaceIfNested(e: Term, fs: seq<nat>) returns (r: Res<Option<Term>>)
      requires Valid() && Opening(fs) && FVarsIn(e, fs) && Unreserved(e)
      modifies this
      ensures r.Ok? ==> Valid() && Grown(old(types), old(orig), old(aux2nested))
      ensures r.Ok? ==> (r.v.Some? <==> IsNested(D, block, e))
      ensures r.Ok? && r.v.Some? ==> Replaced(e, fs, r.v.value)
      ensures r.Ok? && old(Known(e, fs)) ==> types == old(types) && nestedAux == old(nestedAux)
    {
      var h, args := AppFn(e), AppArgs(e);
      if !e.App? || !h.Const? || h.n !in D || !D[h.n].induct || D[h.n].nparams > |args| { return Ok(None); }
      var np := D[h.n].nparams;
      UnreservedArgs(e);
      var nested, loose := Scan(args, np);
      if !nested { return Ok(None); }
      if loose { return Err(LocalVariables); }
      var pargs := args[..np];
      SpineOver(e, fs);
      assert ClosedOver(pargs, fs) by {
        forall k | 0 <= k < np ensures Closed(pargs[k]) && FVarsIn(pargs[k], fs) { assert pargs[k] == args[k]; }
      }
      KeyOf(h, pargs, fs, params);
      var a := FindKey(InstantiateRev(AbstractFVars(MkApps(h, pargs), fs), FVars(params)));
      if a.None? {
        var b := AddBlock(h, pargs, fs);
        if b.Err? { return Err(b.e); }
        a := Some(b.v);
      }
      var t := MkApps(MkApps(Const(a.value, lvls), FVars(fs)), args[np..]);
      ReplacedBy(S(), e, fs, a.value);
      return Ok(Some(t));
    }

    /** The nested application's key is in the table. */
    ghost predicate Known(e: Term, fs: seq<nat>)
      reads this
    {
      && AppFn(e).Const? && AppFn(e).n in D && D[AppFn(e).n].nparams <= |AppArgs(e)| && |fs| == |params|
      && exists k {:trigger nestedAux[k]} :: 0 <= k < |nestedAux|
           && nestedAux[k].0 == Rename(MkApps(AppFn(e), AppArgs(e)[..D[AppFn(e).n].nparams]), fs, params)
    }

    /** r, over the parameters just opened, stands for e. */
    ghost predicate Replaced(e: Term, fs: seq<nat>, r: Term)
      reads this
    {
      && |fs| == |params|
      && IsNested(D, block, Rename(e, fs, params))
      && Stands(S(), Rename(e, fs, params), Rename(r, fs, params))
      && FVarsIn(r, fs) && Range(r) <= Range(e)
    }

    /** The term with its outermost nested applications replaced, auxiliary types added as they are met. */
    method ReplaceAll(e: Term, fs: seq<nat>) returns (r: Res<Term>)
      requires Valid() && Opening(fs) && FVarsIn(e, fs) && Unreserved(e)
      modifies this
      ensures r.Ok? ==> Valid() && Grown(old(types), old(orig), old(aux2nested))
      ensures r.Ok? ==> Rewritten(S(), e, fs, r.v)
      decreases e, 1
    {
      var q := ReplaceIfNested(e, fs);
      if q.Err? { return Err(q.e); }
      if q.v.Some? { return Ok(q.v.value); }
      RenameNested(D, block, e, fs, params);
      ghost var types1, orig1, aux1 := types, orig, aux2nested;
      r := ReplaceParts(e, fs);
      if r.Ok? { GrownTwice(old(types), old(orig), old(aux2nested), types1, orig1, aux1); }
    }

    method ReplaceParts(e: Term, fs: seq<nat>) returns (r: Res<Term>)
      requires Valid() && Opening(fs) && FVarsIn(e, fs) && Unreserved(e)
      requires !IsNested(D, block, Rename(e, fs, params))
      modifies this
      ensures r.Ok? ==> Valid() && Grown(old(types), old(orig), old(aux2nested))
      ensures r.Ok? ==> Rewritten(S(), e, fs, r.v)
      decreases e, 0, 2
    {
      match e
      case App(_, _) => r := ReplacePair(e, fs);
      case Lam(_, _) => r := ReplacePair(e, fs);
      case Pi(_, _) => r := ReplacePair(e, fs);
      case Let(_, _, _) => r := ReplaceLet(e, fs);
      case Proj(s, i, x) =>
        UnreservedParts(e);
        var p := ReplaceAll(x, fs);
        return if p.Err? then p else Ok(Proj(s, i, p.v));
      case _ => return Ok(e);
    }

    method ReplacePair(e: Term, fs: seq<nat>) returns (r: Res<Term>)
      requires Valid() && Opening(fs) && FVarsIn(e, fs) && Unreserved(e)
      requires !IsNested(D, block, Rename(e, fs, params)) && (e.App? || e.Lam? || e.Pi?)
      modifies this
      ensures r.Ok? ==> Valid() && Grown(old(types), old(orig), old(aux2nested))
      ensures r.Ok? ==> Rewritten(S(), e, fs, r.v)
      decreases e, 0, 1
    {
      UnreservedParts(e);
      var a, b := if e.App? then e.f else e.dom, if e.App? then e.x else e.body;
      var p := ReplaceTwo(e, a, b, fs);
      if p.Err? { return Err(p.e); }
      return Ok(if e.App? then App(p.v.0, p.v.1) else Bind(e.Pi?, p.v.0, p.v.1));
    }

    method ReplaceLet(e: Term, fs: seq<nat>) returns (r: Res<Term>)
      requires Valid() && Opening(fs) && FVarsIn(e, fs) && Unreserved(e) && e.Let?
      modifies this
      ensures r.Ok? ==> Valid() && Grown(old(types), old(orig), old(aux2nested))
      ensures r.Ok? ==> Rewritten(S(), e, fs, r.v)
      decreases e, 0, 1
    {
      UnreservedParts(e);
      var p := ReplaceTwo(e, e.ty, e.val, fs);
      if p.Err? { return Err(p.e); }
      ghost var types1, orig1, aux1, S1 := types, orig, aux2nested, S();
      var q := ReplaceAll(e.body, fs);
      if q.Err? { return q; }
      GrownTwice(old(types), old(orig), old(aux2nested), types1, orig1, aux1);
      RewrittenMore(S1, S(), e.ty, fs, p.v.0);
      RewrittenMore(S1, S(), e.val, fs, p.v.1);
      return Ok(Let(p.v.0, p.v.1, q.v));
    }

    method ReplaceTwo(ghost e: Term, a: Term, b: Term, fs: seq<nat>) returns (r: Res<(Term, Term)>)
      requires Valid() && Opening(fs) && FVarsIn(a, fs) && FVarsIn(b, fs) && Unreserved(a) && Unreserved(b)
      requires (e decreases to a) && (e decreases to b)
      modifies this
      ensures r.Ok? ==> Valid() && Grown(old(types), old(orig), old(aux2nested))
      ensures r.Ok? ==> Rewritten(S(), a, fs, r.v.0) && Rewritten(S(), b, fs, r.v.1)
      decreases e, 0, 0
    {
      var p := ReplaceAll(a, fs);
      if p.Err? { return Err(p.e); }
      ghost var types1, orig1, aux1, S1 := types, orig, aux2nested, S();
      var q := ReplaceAll(b, fs);
      if q.Err? { return Err(q.e); }
      GrownTwice(old(types), old(orig), old(aux2nested), types1, orig1, aux1);
      RewrittenMore(S1, S(), a, fs, p.v);
      return Ok((p.v, q.v));
    }
  
    /** One constructor's type: opened with fresh parameters, rewritten, and bound again. */
    method ProcessCtor(i: nat, k: nat) returns (r: Res<bool>)
      requires Valid() && Cell(types, orig, i, k) && Progress(S(), types, orig, i, k)
      modifies this, ctx
      ensures r.Ok? ==> Valid() && Progress(S(), types, orig, i, k + 1)
      ensures r.Ok? ==> SameHeads(old(types), types) && orig[..|old(types)|] == old(orig)
    {
      var t := types[i].ctors[k].ty;
      assert Declared(t) by {
        assert TypeOk(S(), i, types[i], orig[i]);
        assert Settled(S(), types, orig, i, k, false);
      }
      var o := Open(ctx, t, |params|, false);
      if o.None? { return Err(IllFormed); }
      var (fs, u) := o.value;
      ghost var ds := ctx.DeclsOf(fs);
      OpenedPlain(t, ds, fs);
      ghost var types0, orig0, S0 := types, orig, S();
      var p := ReplaceAll(u, fs);
      if p.Err? { return Err(p.e); }
      var ty := ctx.Close(fs, true, p.v);
      GrownProgress(S0, S(), types0, orig0, types, orig, i, k);
      assert types[i] == types0[i] && orig[i] == orig0[i];
      EliminatedBy(S(), t, ds, fs, p.v);
      SetProgress(S(), types, orig, i, k, ty);
      SetTypesOk(S(), types, orig, i, k, ty);
      SetHeads(types0, types, i, k, ty);
      types := types[i := SetCtor(types[i], k, ty)];
      return Ok(true);
    }

    /**
     * Every constructor type of every type, those added on the way included.  The number of types
     * processed is bounded by fuel: a block can nest without end.
     */
    method Run(fuel: nat) returns (r: Res<bool>)
      requires Valid() && Progress(S(), types, orig, 0, 0)
      modifies this, ctx
      ensures r.Ok? ==> Valid() && AllEliminated()
      ensures r.Ok? ==> SameHeads(old(types), types)
      ensures r.Ok? ==> |old(orig)| <= |orig| && orig[..|old(orig)|] == old(orig)
    {
      var i := 0;
      while i < |types|
        invariant i <= |types|
        invariant Valid() && Progress(S(), types, orig, i, 0) && SameHeads(old(types), types)
        invariant |old(orig)| <= |orig| && orig[..|old(orig)|] == old(orig)
        decreases fuel - i
      {
        if i >= fuel { return Err(OutOfFuel); }
        var k := 0;
        while k < |types[i].ctors|
          invariant i < |types| && k <= |types[i].ctors|
          invariant Valid() && Progress(S(), types, orig, i, k) && SameHeads(old(types), types)
          invariant |old(orig)| <= |orig| && orig[..|old(orig)|] == old(orig)
        {
          assert TypeOk(S(), i, types[i], orig[i]);
          ghost var orig1, types1 := orig, types;
          var p := ProcessCtor(i, k);
          if p.Err? { return p; }
          HeadsKept(old(types), types1, types);
          assert orig[..|old(orig)|] == orig[..|orig1|][..|old(orig)|];
          k := k + 1;
        }
        i := i + 1;
      }
      return Ok(true);
    }

    /** Each constructor's type is the eliminated form of the one first written. */
    ghost predicate AllEliminated()
      reads this
    {
      Progress(S(), types, orig, |types|, 0)
    }

    ghost function R(recs: map<Name, Name>): Restorer
      reads this
    {
      Restorer(aux2nested, auxCtorOf, params, recs)
    }

    /** A type or rule brought back to the nested form; the variables it is opened with are fresh. */
    method Restore(e: Term, recs: map<Name, Name>) returns (r: Res<Term>)
      requires Valid() && Closed(e) && !HasFVar(e)
      modifies ctx
      ensures r == Restored(R(recs), e)
    {
      if nestedAux == [] && recs == map[] { return Ok(e); }
      assert nestedAux != [] ==> nestedAux[0].1 in aux2nested;
      var o := Open(ctx, e, |params|, true);
      if o.None? { return Err(IllFormed); }
      var (fs, u) := o.value;
      var t := RestoreIn(Restorer(aux2nested, auxCtorOf, params, recs), u, Some(FVars(fs)));
      FreshRestores(R(recs), e, fs, ctx.DeclsOf(fs));
      if t.Err? { return t; }
      var c := ctx.Close(fs, e.Pi?, t.v);
      return Ok(c);
    }

    /** The renamed recursors are those of auxiliary types. */
    ghost predicate AuxRecursors(recs: map<Name, Name>)
      reads this
    {
      forall c {:trigger c in recs} :: c in recs ==> exists a :: a in aux2nested && c == Str(a, "rec")
    }

    /** The auxiliary constructors' names are new: what adding them to the environment tests. */
    ghost predicate CtorsNew()
      reads this
    {
      forall c {:trigger c in auxCtorOf} :: c in auxCtorOf ==> c !in D
    }

    /**
     * After a run, once the auxiliary types and constructors could be added to the environment, restoring any
     * constructor's type gives back the type first written.
     */
    lemma RunRestores(recs: map<Name, Name>, i: nat, k: nat)
      requires Valid() && AllEliminated() && AuxRecursors(recs) && CtorsNew()
      requires Cell(types, orig, i, k)
      ensures Restored(R(recs), types[i].ctors[k].ty) == Ok(orig[i][k])
    {
      assert TypeOk(S(), i, types[i], orig[i]) && Settled(S(), types, orig, i, k, true);
      forall c | c in recs ensures Reserved(c) && c !in aux2nested {
        var a :| a in aux2nested && c == Str(a, "rec");
        assert KeyOk(aux2nested[a], params);
        if c in aux2nested {
          assert NestedNames.Indexed(c, next);
          var m: Name, n: nat :| n < next && c == NestedNames.AppendIndex(m, n);
          NestedNames.AppendNotRec(m, n, a);
        }
      }
      ReservedSuffices(S(), R(recs), orig[i][k], types[i].ctors[k].ty);
    }
  }

  ghost predicate UnreservedNode(t: Term) {
    match t
    case App(f, x) => Unreserved(f) && Unreserved(x)
    case Lam(d, b) => Unreserved(d) && Unreserved(b)
    case Pi(d, b) => Unreserved(d) && Unreserved(b)
    case Let(y, v, b) => Unreserved(y) && Unreserved(v) && Unreserved(b)
    case Proj(_, _, e) => Unreserved(e)
    case _ => true
  }

  lemma UnreservedParts(t: Term)
    requires Unreserved(t)
    ensures UnreservedNode(t)
  {
    match t
    case App(f, x) => assert forall c :: Mentions(f, c) || Mentions(x, c) ==> Mentions(t, c);
    case Lam(d, b) => assert forall c :: Mentions(d, c) || Mentions(b, c) ==> Mentions(t, c);
    case Pi(d, b) => assert forall c :: Mentions(d, c) || Mentions(b, c) ==> Mentions(t, c);
    case Let(y, v, b) => assert forall c :: Mentions(y, c) || Mentions(v, c) || Mentions(b, c) ==> Mentions(t, c);
    case Proj(_, _, e) => assert forall c :: Mentions(e, c) ==> Mentions(t, c);
    case _ =>
  }

  ghost function CtorTypes(t: IndType): (r: seq<Term>)
    ensures |r| == |t.ctors|
    ensures forall k {:trigger r[k]} :: 0 <= k < |r| ==> r[k] == t.ctors[k].ty
  {
    seq(|t.ctors|, k requires 0 <= k < |t.ctors| => t.ctors[k].ty)
  }

  /** Constructor k of the auxiliary type a for j. */
  ghost predicate CtorFor(D: map<Name, Info>, j: Name, a: Name, key: Term, params: seq<nat>, k: nat, c: CtorDecl) {
    && j in D && k < |D[j].ctors|
    && c.name == ReplacePrefix(D[j].ctors[k], j, a)
    && Declared(c.ty) && CopyOf(D, key, params, D[j].ctors[k], c.ty)
  }
}
