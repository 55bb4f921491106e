/**
 * The checker consults a type environment only by looking names up in it:
 * two environments that answer every lookup alike give every expression
 * the same result. A consequence is that a binding shadowed by an inner
 * one of the same name can never influence a type.
 */
module L5Scope {
  import opened Wrappers
  import opened TExps
  import opened TEnvs
  import opened L5Ast
  import opened L5Typecheck

  /** `t1` and `t2` answer every lookup alike. */
  ghost predicate SameLookups(t1: TEnv, t2: TEnv)
  {
    forall v :: ApplyTEnv(t1, v) == ApplyTEnv(t2, v)
  }

  /** Adding the same frame on top of two lookup-equivalent environments keeps them equivalent. */
  lemma ExtendSameLookups(vars: seq<string>, texps: seq<TExp>, t1: TEnv, t2: TEnv)
    requires |vars| == |texps|
    requires SameLookups(t1, t2)
    ensures SameLookups(MakeExtendTEnv(vars, texps, t1), MakeExtendTEnv(vars, texps, t2))
  {
    var e1, e2 := MakeExtendTEnv(vars, texps, t1), MakeExtendTEnv(vars, texps, t2);
    assert e1.frame == e2.frame;
    forall v ensures ApplyTEnv(e1, v) == ApplyTEnv(e2, v) {
      assert ApplyTEnv(t1, v) == ApplyTEnv(t2, v);
    }
  }

  lemma {:induction false} TypeofExpSameLookups(e: Exp, t1: TEnv, t2: TEnv)
    requires SameLookups(t1, t2)
    ensures TypeofExp(e, t1) == TypeofExp(e, t2)
    decreases ExpSize(e), 1
  {
    match e
    case VarRef(v) =>
      assert ApplyTEnv(t1, v) == ApplyTEnv(t2, v);
    case IfExp(test, conseq, alt) =>
      TypeofExpSameLookups(test, t1, t2);
      TypeofExpSameLookups(conseq, t1, t2);
      TypeofExpSameLookups(alt, t1, t2);
    case ProcExp(args, body, _) =>
      ExtendSameLookups(DeclNames(args), DeclTExps(args), t1, t2);
      TypeofExpsSameLookups(body, ParamsEnv(args, t1), ParamsEnv(args, t2));
    case AppExp(rator, rands) =>
      TypeofExpSameLookups(rator, t1, t2);
      var f := TypeofExp(rator, t1);
      if f.Success? && f.value.ProcTExp? && |rands| == |f.value.paramTEs| {
        CheckRandsSameLookups(rands, f.value.paramTEs, t1, t2);
      }
    case LetExp(bs, body) =>
      CheckBindingsSameLookups(bs, t1, t2);
      var ds := BindingDecls(bs);
      ExtendSameLookups(DeclNames(ds), DeclTExps(ds), t1, t2);
      TypeofExpsSameLookups(body, BindingsEnv(bs, t1), BindingsEnv(bs, t2));
    case LetrecExp(bs, body) =>
      if AllProcs(bs) {
        ExtendSameLookups(DeclNames(BindingDecls(bs)), Signatures(bs), t1, t2);
        var env1, env2 := LetrecEnv(bs, t1), LetrecEnv(bs, t2);
        LambdaBodiesSameLookups(bs, env1, env2);
        TypeofExpsSameLookups(body, env1, env2);
      }
    case DefineExp(d, val) =>
      ExtendSameLookups([d.name], [d.texp], t1, t2);
      TypeofExpSameLookups(val, DefineEnv(d, t1), DefineEnv(d, t2));
    case _ =>
  }

  lemma {:induction false} TypeofExpsSameLookups(es: seq<Exp>, t1: TEnv, t2: TEnv)
    requires SameLookups(t1, t2)
    ensures TypeofExps(es, t1) == TypeofExps(es, t2)
    decreases ExpsSize(es), 2
  {
    if |es| > 0 {
      TypeofExpSameLookups(es[0], t1, t2);
      if |es| > 1 {
        TypeofExpsSameLookups(es[1..], t1, t2);
      }
    }
  }

  lemma {:induction false} CheckRandsSameLookups(rands: seq<Exp>, params: seq<TExp>, t1: TEnv, t2: TEnv)
    requires |rands| == |params|
    requires SameLookups(t1, t2)
    ensures CheckRands(rands, params, t1) == CheckRands(rands, params, t2)
    decreases ExpsSize(rands), 2
  {
    if |rands| > 0 {
      TypeofExpSameLookups(rands[0], t1, t2);
      CheckRandsSameLookups(rands[1..], params[1..], t1, t2);
    }
  }

  lemma {:induction false} CheckBindingsSameLookups(bs: seq<Binding>, t1: TEnv, t2: TEnv)
    requires SameLookups(t1, t2)
    ensures CheckBindings(bs, t1) == CheckBindings(bs, t2)
    decreases BindingsSize(bs), 2
  {
    if |bs| > 0 {
      assert BindingsSize(bs) == 1 + ExpSize(bs[0].val) + BindingsSize(bs[1..]);
      TypeofExpSameLookups(bs[0].val, t1, t2);
      CheckBindingsSameLookups(bs[1..], t1, t2);
    }
  }

  lemma {:induction false} LambdaBodiesSameLookups(bs: seq<Binding>, t1: TEnv, t2: TEnv)
    requires AllProcs(bs)
    requires SameLookups(t1, t2)
    ensures TypeofLambdaBodies(bs, t1) == TypeofLambdaBodies(bs, t2)
    decreases BindingsSize(bs), 2
  {
    if |bs| > 0 {
      var p := bs[0].val;
      assert BindingsSize(bs) == 1 + ExpSize(p) + BindingsSize(bs[1..]);
      ExtendSameLookups(DeclNames(p.args), DeclTExps(p.args), t1, t2);
      TypeofExpsSameLookups(p.body, ParamsEnv(p.args, t1), ParamsEnv(p.args, t2));
      LambdaBodiesSameLookups(bs[1..], t1, t2);
    }
  }

  /**
   * An outer binding of a name that an inner binding shadows never
   * affects the type of anything checked under the inner one.
   */
  lemma ShadowedBindingIrrelevant(e: Exp, x: string, inner: TExp, outer: TExp, tenv: TEnv)
    ensures TypeofExp(e, MakeExtendTEnv([x], [inner], MakeExtendTEnv([x], [outer], tenv)))
         == TypeofExp(e, MakeExtendTEnv([x], [inner], tenv))
  {
    var t1 := MakeExtendTEnv([x], [inner], MakeExtendTEnv([x], [outer], tenv));
    var t2 := MakeExtendTEnv([x], [inner], tenv);
    forall v ensures ApplyTEnv(t1, v) == ApplyTEnv(t2, v) {
      if v != x {
        ExtendTEnvLookup([x], [inner], MakeExtendTEnv([x], [outer], tenv), v);
        ExtendTEnvLookup([x], [outer], tenv, v);
        ExtendTEnvLookup([x], [inner], tenv, v);
      }
    }
    TypeofExpSameLookups(e, t1, t2);
  }
}
