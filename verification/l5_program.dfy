/**
 * Checking whole L5 programs. The comment above `typeofDefine` in
 * L5-typecheck.ts states the define rule as "the value must have the
 * declared type", and a program's later forms are meant to see the names
 * defined before them (the TODO above it asks for the environment to be
 * threaded). As written, neither holds: `TypeofDefine` never compares
 * the value's type with the declaration, and `TypeofProgram` checks every
 * form in the initial environment. This module exhibits both and gives
 * the corrected checker: each define is checked against its declaration
 * and extends the environment of the forms after it.
 */
module L5Programs {
  import opened Wrappers
  import opened TExps
  import opened TypeErrors
  import opened TEnvs
  import opened Compat
  import opened L5Ast
  import opened L5Typecheck
  import opened L5Rules

  // ---------------------------------------------------------------------
  // As written
  // ---------------------------------------------------------------------

  /** `(define (x : boolean) 5)` is accepted although 5 is not a boolean. */
  lemma DefineIgnoresDeclaredType()
    ensures !Compatible(NumTExp, BoolTExp)
    ensures TypeofExp(DefineExp(VarDecl("x", BoolTExp), NumExp(5)), EmptyTEnv) == Success(VoidTExp)
  {
  }

  /** `(define (x : number) 5) x` is rejected: the reference does not see the define. */
  lemma ProgramForgetsDefines()
    ensures TypeofProgram(Program([DefineExp(VarDecl("x", NumTExp), NumExp(5)), VarRef("x")]), EmptyTEnv)
         == Failure(UnboundVariable("x"))
  {
    var exps := [DefineExp(VarDecl("x", NumTExp), NumExp(5)), VarRef("x")];
    assert exps[1..] == [VarRef("x")];
  }

  // ---------------------------------------------------------------------
  // Corrected
  // ---------------------------------------------------------------------

  /** A define whose value, typed with the name in scope, must fit the declared type. */
  function TypeofDefineChecked(d: VarDecl, val: Exp, tenv: TEnv): (r: Result<TExp, TypeError>)
    ensures r.Success? ==> r.value == VoidTExp
    ensures r.Success? <==>
      TypeofExp(val, DefineEnv(d, tenv)).Success? && Compatible(TypeofExp(val, DefineEnv(d, tenv)).value, d.texp)
  {
    var t :- TypeofExp(val, DefineEnv(d, tenv));
    if Compatible(t, d.texp) then Success(VoidTExp) else Failure(IncompatibleTypes)
  }

  /** How a top-level form is checked: a define against its declaration, anything else as an expression. */
  function TypeofTopLevel(e: Exp, tenv: TEnv): Result<TExp, TypeError>
  {
    if e.DefineExp? then TypeofDefineChecked(e.decl, e.val, tenv) else TypeofExp(e, tenv)
  }

  /** The environment after a top-level form: a define adds its name, anything else leaves it unchanged. */
  function NextEnv(e: Exp, tenv: TEnv): TEnv
  {
    if e.DefineExp? then DefineEnv(e.decl, tenv) else tenv
  }

  /** Each form is checked in the scope of the defines before it; the type is that of the last form. */
  function TypeofProgramThreaded(exps: seq<Exp>, tenv: TEnv): Result<TExp, TypeError>
    decreases |exps|
  {
    if |exps| == 0 then Failure(EmptyExps)
    else
      var t :- TypeofTopLevel(exps[0], tenv);
      if |exps| == 1 then Success(t) else TypeofProgramThreaded(exps[1..], NextEnv(exps[0], tenv))
  }

  /** The corrected entry point for programs. */
  function TypeofProgramCorrected(p: Program, tenv: TEnv): Result<TExp, TypeError>
  {
    TypeofProgramThreaded(p.exps, tenv)
  }

  /** The corrected define accepts only what the written one accepts, and then agrees with it. */
  lemma DefineCheckedRefines(d: VarDecl, val: Exp, tenv: TEnv)
    requires TypeofDefineChecked(d, val, tenv).Success?
    ensures TypeofExp(DefineExp(d, val), tenv) == TypeofDefineChecked(d, val, tenv)
  {
  }

  /** A value whose type is exactly the declared one is always accepted. */
  lemma DefineCheckedAcceptsDeclared(d: VarDecl, val: Exp, tenv: TEnv)
    requires TypeofExp(val, DefineEnv(d, tenv)) == Success(d.texp)
    ensures TypeofDefineChecked(d, val, tenv) == Success(VoidTExp)
  {
    CompatibleReflexive(d.texp);
  }

  /** The corrected define rejects `(define (x : boolean) 5)`. */
  lemma DefineCheckedRejectsMismatch()
    ensures TypeofDefineChecked(VarDecl("x", BoolTExp), NumExp(5), EmptyTEnv) == Failure(IncompatibleTypes)
  {
  }

  /** After a define that checks, a reference to the defined name has the declared type. */
  lemma ThreadedDefineThenReference(d: VarDecl, val: Exp, tenv: TEnv)
    requires TypeofDefineChecked(d, val, tenv).Success?
    ensures TypeofProgramThreaded([DefineExp(d, val), VarRef(d.name)], tenv) == Success(d.texp)
  {
    var exps := [DefineExp(d, val), VarRef(d.name)];
    assert exps[1..] == [VarRef(d.name)];
    ExtendTEnvLookup([d.name], [d.texp], tenv, d.name);
    assert [d.name][..0] == [];
  }

  /** `(define (x : number) 5) x` has type number under the corrected checker. */
  lemma ThreadedProgramSeesDefine()
    ensures TypeofProgramCorrected(Program([DefineExp(VarDecl("x", NumTExp), NumExp(5)), VarRef("x")]), EmptyTEnv)
         == Success(NumTExp)
  {
    ThreadedDefineThenReference(VarDecl("x", NumTExp), NumExp(5), EmptyTEnv);
  }

  /** On programs without defines the corrected checker and the written one agree. */
  lemma {:induction false} ThreadedAgreesWithoutDefines(exps: seq<Exp>, tenv: TEnv)
    requires forall i :: 0 <= i < |exps| ==> !exps[i].DefineExp?
    ensures TypeofProgramThreaded(exps, tenv) == TypeofProgram(Program(exps), tenv)
    decreases |exps|
  {
    if |exps| > 1 {
      assert forall i :: 1 <= i < |exps| ==> exps[i] == exps[1..][i - 1];
      ThreadedAgreesWithoutDefines(exps[1..], tenv);
    }
  }

  /** The environment in force after a sequence of top-level forms. */
  function EnvAfter(exps: seq<Exp>, tenv: TEnv): TEnv
    decreases |exps|
  {
    if |exps| == 0 then tenv else EnvAfter(exps[1..], NextEnv(exps[0], tenv))
  }

  /**
   * A threaded program checks exactly when every form checks in the
   * environment the forms before it leave; its type is then that of the
   * last form.
   */
  lemma {:induction false} ThreadedSpec(exps: seq<Exp>, tenv: TEnv)
    ensures TypeofProgramThreaded(exps, tenv).Success? <==>
      |exps| > 0 && forall k :: 0 <= k < |exps| ==> TypeofTopLevel(exps[k], EnvAfter(exps[..k], tenv)).Success?
    ensures TypeofProgramThreaded(exps, tenv).Success? ==>
      TypeofProgramThreaded(exps, tenv) == TypeofTopLevel(exps[|exps| - 1], EnvAfter(exps[..|exps| - 1], tenv))
    decreases |exps|
  {
    if |exps| > 0 {
      var tail := exps[1..];
      var env1 := NextEnv(exps[0], tenv);
      assert exps[..0] == [];
      forall k | 1 <= k <= |exps|
        ensures EnvAfter(exps[..k], tenv) == EnvAfter(tail[..k - 1], env1)
      {
        assert exps[..k][1..] == tail[..k - 1];
      }
      assert forall k :: 1 <= k < |exps| ==> exps[k] == tail[k - 1];
      if |exps| > 1 {
        ThreadedSpec(tail, env1);
        if TypeofTopLevel(exps[0], tenv).Success? &&
           (forall k :: 0 <= k < |tail| ==> TypeofTopLevel(tail[k], EnvAfter(tail[..k], env1)).Success?) {
          forall k | 0 <= k < |exps|
            ensures TypeofTopLevel(exps[k], EnvAfter(exps[..k], tenv)).Success?
          {
            if k > 0 {
              assert TypeofTopLevel(tail[k - 1], EnvAfter(tail[..k - 1], env1)).Success?;
            }
          }
        }
        if forall k :: 0 <= k < |exps| ==> TypeofTopLevel(exps[k], EnvAfter(exps[..k], tenv)).Success? {
          forall k | 0 <= k < |tail|
            ensures TypeofTopLevel(tail[k], EnvAfter(tail[..k], env1)).Success?
          {
            assert TypeofTopLevel(exps[k + 1], EnvAfter(exps[..k + 1], tenv)).Success?;
          }
        }
      }
    }
  }
}
