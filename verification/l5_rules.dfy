/**
 * The typing rules the comments of L5-typecheck.ts state, proved of the
 * checker: each rule says exactly when a form type-checks and what its
 * type then is, in terms of the types of its parts.
 */
module L5Rules {
  import opened Wrappers
  import opened TExps
  import opened TypeErrors
  import opened TEnvs
  import opened Compat
  import opened Unions
  import opened L5Ast
  import opened L5Typecheck

  // ---------------------------------------------------------------------
  // Sequences of expressions, operands, bindings and lambda bodies
  // ---------------------------------------------------------------------

  /**
   * A body is checked expression by expression: it fails with the first
   * failure, otherwise its type is the type of the last expression; an
   * empty body is an error.
   */
  lemma {:induction false} TypeofExpsSpec(es: seq<Exp>, tenv: TEnv)
    ensures |es| == 0 ==> TypeofExps(es, tenv) == Failure(EmptyExps)
    ensures TypeofExps(es, tenv).Success? ==>
              |es| > 0 && forall i :: 0 <= i < |es| ==> TypeofExp(es[i], tenv).Success?
    ensures |es| > 0 && (forall i :: 0 <= i < |es| ==> TypeofExp(es[i], tenv).Success?) ==>
              TypeofExps(es, tenv) == TypeofExp(es[|es| - 1], tenv)
    ensures forall k :: 0 <= k < |es| && TypeofExp(es[k], tenv).Failure?
                        && (forall j :: 0 <= j < k ==> TypeofExp(es[j], tenv).Success?) ==>
              TypeofExps(es, tenv) == TypeofExp(es[k], tenv)
    decreases |es|
  {
    if |es| > 1 {
      var tail := es[1..];
      TypeofExpsSpec(tail, tenv);
      assert forall i :: 1 <= i < |es| ==> es[i] == tail[i - 1];
      if TypeofExp(es[0], tenv).Success? {
        forall k | 0 < k < |es| && TypeofExp(es[k], tenv).Failure?
                   && (forall j :: 0 <= j < k ==> TypeofExp(es[j], tenv).Success?)
          ensures TypeofExps(es, tenv) == TypeofExp(es[k], tenv)
        {
          assert tail[k - 1] == es[k];
          assert forall j :: 0 <= j < k - 1 ==> TypeofExp(tail[j], tenv).Success? by {
            forall j | 0 <= j < k - 1 ensures TypeofExp(tail[j], tenv).Success? {
              assert tail[j] == es[j + 1];
            }
          }
        }
        if TypeofExps(es, tenv).Success? {
          forall i | 0 <= i < |es| ensures TypeofExp(es[i], tenv).Success? {
            if i > 0 { assert es[i] == tail[i - 1]; }
          }
        }
      }
    }
  }

  /** The operands pass exactly when each one types and its parameter type accepts that type. */
  lemma {:induction false} CheckRandsIff(rands: seq<Exp>, params: seq<TExp>, tenv: TEnv)
    requires |rands| == |params|
    ensures CheckRands(rands, params, tenv).Success? <==>
      forall i :: 0 <= i < |rands| ==>
        TypeofExp(rands[i], tenv).Success? && Compatible(params[i], TypeofExp(rands[i], tenv).value)
    decreases |rands|
  {
    if |rands| > 0 {
      CheckRandsIff(rands[1..], params[1..], tenv);
      assert forall i :: 1 <= i < |rands| ==> rands[i] == rands[1..][i - 1] && params[i] == params[1..][i - 1];
    }
  }

  /** The bindings pass exactly when each value types and its declared type accepts that type. */
  lemma {:induction false} CheckBindingsIff(bs: seq<Binding>, tenv: TEnv)
    ensures CheckBindings(bs, tenv).Success? <==>
      forall i :: 0 <= i < |bs| ==>
        TypeofExp(bs[i].val, tenv).Success? && Compatible(bs[i].decl.texp, TypeofExp(bs[i].val, tenv).value)
    decreases |bs|
  {
    if |bs| > 0 {
      CheckBindingsIff(bs[1..], tenv);
      assert forall i :: 1 <= i < |bs| ==> bs[i] == bs[1..][i - 1];
    }
  }

  /** The type of a lambda's body under its parameters over `env`. */
  function LambdaBodyType(p: Exp, env: TEnv): Result<TExp, TypeError>
    requires p.ProcExp?
  {
    TypeofExps(p.body, ParamsEnv(p.args, env))
  }

  /** All lambda bodies are typed, in order; the i-th type is that of the i-th body. */
  lemma {:induction false} LambdaBodiesSpec(bs: seq<Binding>, env: TEnv)
    requires AllProcs(bs)
    ensures TypeofLambdaBodies(bs, env).Success? <==>
      forall i :: 0 <= i < |bs| ==> LambdaBodyType(bs[i].val, env).Success?
    ensures TypeofLambdaBodies(bs, env).Success? ==>
      forall i :: 0 <= i < |bs| ==> TypeofLambdaBodies(bs, env).value[i] == LambdaBodyType(bs[i].val, env).value
    decreases |bs|
  {
    if |bs| > 0 {
      var tail := bs[1..];
      LambdaBodiesSpec(tail, env);
      assert forall i :: 1 <= i < |bs| ==> bs[i] == tail[i - 1];
    }
  }

  // ---------------------------------------------------------------------
  // Environments built by the rules
  // ---------------------------------------------------------------------

  /** Inside a procedure body each parameter (its first occurrence) has its declared type. */
  lemma ParamsEnvLookup(args: seq<VarDecl>, tenv: TEnv, i: int)
    requires 0 <= i < |args|
    requires forall j :: 0 <= j < i ==> args[j].name != args[i].name
    ensures ApplyTEnv(ParamsEnv(args, tenv), args[i].name) == Success(args[i].texp)
  {
    var names := DeclNames(args);
    assert names[..i] == DeclNames(args[..i]);
    ExtendTEnvLookup(names, DeclTExps(args), tenv, args[i].name);
  }

  /** Names a procedure does not bind are looked up in the enclosing environment. */
  lemma ParamsEnvDefers(args: seq<VarDecl>, tenv: TEnv, v: string)
    requires forall j :: 0 <= j < |args| ==> args[j].name != v
    ensures ApplyTEnv(ParamsEnv(args, tenv), v) == ApplyTEnv(tenv, v)
  {
    ExtendTEnvLookup(DeclNames(args), DeclTExps(args), tenv, v);
  }

  /** Inside a letrec every bound name (first occurrence) has the signature its lambda declares. */
  lemma LetrecEnvLookup(bs: seq<Binding>, tenv: TEnv, i: int)
    requires AllProcs(bs)
    requires 0 <= i < |bs|
    requires forall j :: 0 <= j < i ==> bs[j].decl.name != bs[i].decl.name
    ensures ApplyTEnv(LetrecEnv(bs, tenv), bs[i].decl.name) ==
            Success(ProcTExp(DeclTExps(bs[i].val.args), bs[i].val.returnTE))
  {
    var names := DeclNames(BindingDecls(bs));
    ExtendTEnvLookup(names, Signatures(bs), tenv, bs[i].decl.name);
  }

  // ---------------------------------------------------------------------
  // One rule per form
  // ---------------------------------------------------------------------

  /** Primitive operators: exactly the known ones have a type, and it is always a procedure type. */
  lemma PrimRule(op: string)
    ensures TypeofPrim(op).Success? <==> op in PrimOps
    ensures TypeofPrim(op).Success? ==> TypeofPrim(op).value.ProcTExp?
    ensures TypeofPrim(op).Failure? ==> TypeofPrim(op).error == UnknownPrimitive(op)
  {
  }

  /** A variable has the type of its innermost binding; an unbound one is an error naming it. */
  lemma VarRefRule(v: string, tenv: TEnv)
    ensures TypeofExp(VarRef(v), tenv).Success? <==> v in Domain(tenv)
    ensures TypeofExp(VarRef(v), tenv).Failure? ==> TypeofExp(VarRef(v), tenv).error == UnboundVariable(v)
  {
    ApplyTEnvSucceedsIffBound(tenv, v);
  }

  /** Exactly boolean and the unions holding a boolean component are accepted as an if test. */
  lemma CompatibleWithBoolean(t: TExp)
    ensures Compatible(t, BoolTExp) <==> t == BoolTExp || (t.UnionTExp? && BoolTag in Tags(t.components))
  {
    if t.UnionTExp? {
      UnionAtomicCompatibleIffTagIn(t.components, BoolTExp);
    }
  }

  /**
   * If: it checks exactly when the test's type fits boolean and both
   * branches check; its type is the union of the branch types.
   */
  lemma IfRule(test: Exp, conseq: Exp, alt: Exp, tenv: TEnv)
    ensures var r := TypeofExp(IfExp(test, conseq, alt), tenv);
            var tt, ct, at := TypeofExp(test, tenv), TypeofExp(conseq, tenv), TypeofExp(alt, tenv);
            && (r.Success? <==> tt.Success? && Compatible(tt.value, BoolTExp) && ct.Success? && at.Success?)
            && (r.Success? ==> r.value == MakeUnion(ct.value, at.value))
            && (tt.Success? && !Compatible(tt.value, BoolTExp) ==> r == Failure(IncompatibleTypes))
  {
  }

  /**
   * The type of a checked if is in normal form and admits exactly the
   * members of both branch types.
   */
  lemma IfCoversBranches(test: Exp, conseq: Exp, alt: Exp, tenv: TEnv)
    requires TypeofExp(IfExp(test, conseq, alt), tenv).Success?
    ensures var t := TypeofExp(IfExp(test, conseq, alt), tenv).value;
            && TypeofExp(conseq, tenv).Success? && TypeofExp(alt, tenv).Success?
            && Canonical(t)
            && Elems(Flatten(t)) ==
               Elems(Flatten(TypeofExp(conseq, tenv).value)) + Elems(Flatten(TypeofExp(alt, tenv).value))
  {
    IfRule(test, conseq, alt, tenv);
  }

  /** Swapping the branches of a checked if does not change its type. */
  lemma IfBranchesCommute(test: Exp, conseq: Exp, alt: Exp, tenv: TEnv)
    requires TypeofExp(IfExp(test, conseq, alt), tenv).Success?
    ensures TypeofExp(IfExp(test, alt, conseq), tenv) == TypeofExp(IfExp(test, conseq, alt), tenv)
  {
    IfRule(test, conseq, alt, tenv);
    IfRule(test, alt, conseq, tenv);
    MakeUnionCommutative(TypeofExp(conseq, tenv).value, TypeofExp(alt, tenv).value);
  }

  /** When both branches have the same normal-form type, the if has that type and no union is built. */
  lemma IfSameBranchTypes(test: Exp, conseq: Exp, alt: Exp, tenv: TEnv, t: TExp)
    requires Canonical(t)
    requires TypeofExp(test, tenv) == Success(BoolTExp)
    requires TypeofExp(conseq, tenv) == Success(t) && TypeofExp(alt, tenv) == Success(t)
    ensures TypeofExp(IfExp(test, conseq, alt), tenv) == Success(t)
  {
    MakeUnionIdempotent(t);
  }

  /**
   * Procedure: it checks exactly when its body checks under the parameters
   * and the body's type fits the declared return type; its type is the
   * declared signature.
   */
  lemma ProcRule(args: seq<VarDecl>, body: seq<Exp>, ret: TExp, tenv: TEnv)
    ensures var r := TypeofExp(ProcExp(args, body, ret), tenv);
            var b := TypeofExps(body, ParamsEnv(args, tenv));
            && (r.Success? <==> b.Success? && Compatible(b.value, ret))
            && (r.Success? ==> r.value == ProcTExp(DeclTExps(args), ret))
    ensures var r := TypeofExp(ProcExp(args, body, ret), tenv);
            r.Success? ==> |r.value.paramTEs| == |args| && forall i :: 0 <= i < |args| ==> r.value.paramTEs[i] == args[i].texp
  {
  }

  /**
   * Application: the operator must have a procedure type with one
   * parameter per operand, each operand's type must fit its parameter,
   * and the type is the procedure's return type.
   */
  lemma AppRule(rator: Exp, rands: seq<Exp>, tenv: TEnv)
    ensures var r := TypeofExp(AppExp(rator, rands), tenv);
            var f := TypeofExp(rator, tenv);
            && (f.Failure? ==> r == Failure(f.error))
            && (f.Success? && !f.value.ProcTExp? ==> r == Failure(NonProcedure))
            && (f.Success? && f.value.ProcTExp? && |rands| != |f.value.paramTEs| ==> r == Failure(WrongArity))
            && (r.Success? <==>
                  && f.Success? && f.value.ProcTExp? && |rands| == |f.value.paramTEs|
                  && forall i :: 0 <= i < |rands| ==>
                       TypeofExp(rands[i], tenv).Success?
                       && Compatible(f.value.paramTEs[i], TypeofExp(rands[i], tenv).value))
            && (r.Success? ==> r.value == f.value.returnTE)
  {
    var f := TypeofExp(rator, tenv);
    if f.Success? && f.value.ProcTExp? && |rands| == |f.value.paramTEs| {
      CheckRandsIff(rands, f.value.paramTEs, tenv);
    }
  }

  /**
   * Let: every value, typed in the outer environment, must fit its
   * declared type; the let has the type of its body, checked with the
   * declared types in scope.
   */
  lemma LetRule(bs: seq<Binding>, body: seq<Exp>, tenv: TEnv)
    ensures var r := TypeofExp(LetExp(bs, body), tenv);
            && (r.Success? <==>
                  && (forall i :: 0 <= i < |bs| ==>
                        TypeofExp(bs[i].val, tenv).Success?
                        && Compatible(bs[i].decl.texp, TypeofExp(bs[i].val, tenv).value))
                  && TypeofExps(body, BindingsEnv(bs, tenv)).Success?)
            && (r.Success? ==> r == TypeofExps(body, BindingsEnv(bs, tenv)))
  {
    CheckBindingsIff(bs, tenv);
  }

  /**
   * Letrec: only lambdas may be bound; each lambda body, typed with all the
   * letrec's names in scope, must fit its declared return type; the letrec
   * has the type of its body in that same scope.
   */
  lemma LetrecRule(bs: seq<Binding>, body: seq<Exp>, tenv: TEnv)
    ensures !AllProcs(bs) ==> TypeofExp(LetrecExp(bs, body), tenv) == Failure(LetrecNonProcedure)
    ensures AllProcs(bs) ==>
            var env := LetrecEnv(bs, tenv);
            var r := TypeofExp(LetrecExp(bs, body), tenv);
            && (r.Success? <==>
                  && (forall i :: 0 <= i < |bs| ==>
                        LambdaBodyType(bs[i].val, env).Success?
                        && Compatible(LambdaBodyType(bs[i].val, env).value, bs[i].val.returnTE))
                  && TypeofExps(body, env).Success?)
            && (r.Success? ==> r == TypeofExps(body, env))
  {
    var e := LetrecExp(bs, body);
    assert TypeofExp(e, tenv) == TypeofLetrec(e, tenv);
    if AllProcs(bs) {
      var env := LetrecEnv(bs, tenv);
      var rets := ReturnTypes(bs);
      LambdaBodiesSpec(bs, env);
      var ts := TypeofLambdaBodies(bs, env);
      if ts.Success? {
        var types := ts.value;
        var fits := forall i :: 0 <= i < |types| ==> Compatible(types[i], rets[i]);
        assert fits <==> forall i :: 0 <= i < |bs| ==>
          Compatible(LambdaBodyType(bs[i].val, env).value, bs[i].val.returnTE);
        assert TypeofLetrec(e, tenv) == if fits then TypeofExps(body, env) else Failure(IncompatibleTypes);
      } else {
        assert TypeofLetrec(e, tenv) == Failure(ts.error);
      }
    }
  }

  /** Define, as written: it checks exactly when its value does, with the name in scope, and is void. */
  lemma DefineRule(d: VarDecl, val: Exp, tenv: TEnv)
    ensures var r := TypeofExp(DefineExp(d, val), tenv);
            && (r.Success? <==> TypeofExp(val, DefineEnv(d, tenv)).Success?)
            && (r.Success? ==> r.value == VoidTExp)
  {
  }

  /**
   * Program, as written: an empty program is an error; otherwise it checks
   * exactly when every form checks in the given environment, has the last
   * form's type, and fails with the first failing form's error.
   */
  lemma ProgramRule(exps: seq<Exp>, tenv: TEnv)
    ensures var r := TypeofParsed(ParsedProgram(Program(exps)), tenv);
            && (|exps| == 0 ==> r == Failure(EmptyExps))
            && (r.Success? <==> |exps| > 0 && forall i :: 0 <= i < |exps| ==> TypeofExp(exps[i], tenv).Success?)
            && (r.Success? ==> r.value == TypeofExp(exps[|exps| - 1], tenv).value)
            && (forall k :: 0 <= k < |exps| && TypeofExp(exps[k], tenv).Failure?
                            && (forall j :: 0 <= j < k ==> TypeofExp(exps[j], tenv).Success?) ==>
                  r == TypeofExp(exps[k], tenv))
  {
    TypeofExpsSpec(exps, tenv);
  }
}
