// The reduction rules on applications written out segment by segment: what each of them does to the
// parameters, motives, minor premises, indices and fields it meets.
module Shapes {
  import opened Names
  import opened Terms
  import opened Conversion
  import opened Rules
  import L = Levels

  /**
   * A recursor on its parameters, motives, minor premises, indices and a constructor application whose last
   * arguments are the rule's fields reduces to the rule's right-hand side on the parameters, motives, minor
   * premises and fields, and to nothing else.
   */
  lemma IotaShape(E: Env, h: Term, params: seq<Term>, motives: seq<Term>, minors: seq<Term>, indices: seq<Term>,
                  c: Term, cparams: seq<Term>, fields: seq<Term>, rule: RecRule, b: Term)
    requires h.Const? && h.n in E.consts && E.consts[h.n].Rec? && |h.ls| == |E.consts[h.n].rparams|
    requires |params| == E.consts[h.n].nparams && |motives| == E.consts[h.n].nmotives
    requires |minors| == E.consts[h.n].nminors && |indices| == E.consts[h.n].nindices
    requires c.Const? && FindRule(E.consts[h.n].rules, c.n) == Some(rule) && |fields| == rule.nfields
    ensures var major := MkApps(c, cparams + fields);
            IsIota(E, MkApps(h, params + motives + minors + indices + [major]), b) <==>
            b == MkApps(InstantiateLParams(rule.rhs, E.consts[h.n].rparams, h.ls), params + motives + minors + fields)
  {
    hide AppFn, AppArgs, MkApps;
    var rec := E.consts[h.n];
    var major := MkApps(c, cparams + fields);
    var args := params + motives + minors + indices + [major];
    SpineOfConst(h, args);
    SpineOfConst(c, cparams + fields);
    assert |args| == MajorIdx(rec) + 1 && args[MajorIdx(rec)] == major;
    assert args[..FirstIndex(rec)] == params + motives + minors;
    assert (cparams + fields)[|cparams + fields| - rule.nfields..] == fields;
  }

  /** A projection from a constructor on its parameters and fields reduces to the field with that number, if there is one. */
  lemma ProjShape(E: Env, s: Name, idx: nat, c: Term, params: seq<Term>, fields: seq<Term>, b: Term)
    requires c.Const? && c.n in E.consts && E.consts[c.n].Ctor? && E.consts[c.n].induct == s
    requires |params| == E.consts[c.n].cparams
    ensures IsProjStep(E, Proj(s, idx, MkApps(c, params + fields)), b) <==> idx < |fields| && b == fields[idx]
  {
    hide AppFn, AppArgs, MkApps;
    SpineOfConst(c, params + fields);
    if idx < |fields| { assert (params + fields)[E.consts[c.n].cparams + idx] == fields[idx]; }
  }

  /** `Quot.lift f h (Quot.mk r a)` and `Quot.ind f (Quot.mk r a)` reduce to `f a`. */
  lemma QuotShape(ls: seq<L.Level>, ms: seq<L.Level>, ty: Term, rel: Term, other: Term, f: Term, proof: Term, a: Term, b: Term)
    ensures var q := MkApps(Const(QUOT_MK, ms), [ty, rel, a]);
            (IsQuotStep(MkApps(Const(QUOT_LIFT, ls), [ty, rel, other, f, proof, q]), b) <==> b == App(f, a))
            && (IsQuotStep(MkApps(Const(QUOT_IND, ls), [ty, rel, other, f, q]), b) <==> b == App(f, a))
  {
    var q := MkApps(Const(QUOT_MK, ms), [ty, rel, a]);
    SpineOfConst(Const(QUOT_MK, ms), [ty, rel, a]);
    SpineOfConst(Const(QUOT_LIFT, ls), [ty, rel, other, f, proof, q]);
    SpineOfConst(Const(QUOT_IND, ls), [ty, rel, other, f, q]);
  }
}
