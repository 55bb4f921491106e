/**
 * The L5 type checker of L5-typecheck.ts: computes the type of a fully
 * annotated expression from its structure, its annotations and the type
 * environment, or fails with the kind of error the source reports.
 *
 * The source evaluates every sub-result eagerly and combines them with
 * `bind`/`zipWithResult`; since nothing has side effects, the first
 * failure in the source's combination order is what both report, and the
 * model short-circuits with `:-` in that same order.
 */
module L5Typecheck {
  import opened Wrappers
  import opened TExps
  import opened TypeErrors
  import opened TEnvs
  import opened Compat
  import opened Unions
  import opened L5Ast

  // ---------------------------------------------------------------------
  // Primitive operators
  // ---------------------------------------------------------------------

  const NumOpTExp := ProcTExp([NumTExp, NumTExp], NumTExp)
  const NumCompTExp := ProcTExp([NumTExp, NumTExp], BoolTExp)
  const BoolOpTExp := ProcTExp([BoolTExp, BoolTExp], BoolTExp)
  /** `(T -> boolean)`: the type predicates. */
  const TypePredTExp := ProcTExp([TVar("T")], BoolTExp)
  /** `(T1 * T2 -> boolean)`: the equality tests. */
  const EqualityTExp := ProcTExp([TVar("T1"), TVar("T2")], BoolTExp)

  /** The operators the checker knows a type for. */
  const PrimOps: set<string> :=
    {"+", "-", "*", "/", "and", "or", ">", "<", "=", "number?", "boolean?", "string?",
     "list?", "pair?", "symbol?", "not", "eq?", "string=?", "display", "newline"}

  function TypeofPrim(op: string): Result<TExp, TypeError>
  {
    if op == "+" || op == "-" || op == "*" || op == "/" then Success(NumOpTExp)
    else if op == "and" || op == "or" then Success(BoolOpTExp)
    else if op == ">" || op == "<" || op == "=" then Success(NumCompTExp)
    else if op == "number?" || op == "boolean?" || op == "string?"
         || op == "list?" || op == "pair?" || op == "symbol?" then Success(TypePredTExp)
    else if op == "not" then Success(ProcTExp([BoolTExp], BoolTExp))
    else if op == "eq?" || op == "string=?" then Success(EqualityTExp)
    else if op == "display" then Success(ProcTExp([TVar("T")], VoidTExp))
    else if op == "newline" then Success(ProcTExp([], VoidTExp))
    else Failure(UnknownPrimitive(op))
  }

  // ---------------------------------------------------------------------
  // The checker
  // ---------------------------------------------------------------------

  /** Entry point: an expression, or a whole program. */
  function TypeofParsed(p: Parsed, tenv: TEnv): Result<TExp, TypeError>
  {
    match p
    case ParsedExp(e) => TypeofExp(e, tenv)
    case ParsedProgram(prog) => TypeofProgram(prog, tenv)
  }

  function TypeofExp(e: Exp, tenv: TEnv): Result<TExp, TypeError>
    decreases ExpSize(e), 1
  {
    match e
    case NumExp(_) => Success(NumTExp)
    case BoolExp(_) => Success(BoolTExp)
    case StrExp(_) => Success(StrTExp)
    case PrimOp(op) => TypeofPrim(op)
    case VarRef(v) => ApplyTEnv(tenv, v)
    case IfExp(_, _, _) => TypeofIf(e, tenv)
    case ProcExp(_, _, _) => TypeofProc(e, tenv)
    case AppExp(_, _) => TypeofApp(e, tenv)
    case LetExp(_, _) => TypeofLet(e, tenv)
    case LetrecExp(_, _) => TypeofLetrec(e, tenv)
    case DefineExp(_, _) => TypeofDefine(e, tenv)
    case LitExp(_) => Failure(UnknownForm)
  }

  /** Checks every expression in order and answers with the type of the last. */
  function TypeofExps(es: seq<Exp>, tenv: TEnv): Result<TExp, TypeError>
    decreases ExpsSize(es), 2
  {
    if |es| == 0 then Failure(EmptyExps)
    else if |es| == 1 then TypeofExp(es[0], tenv)
    else
      var _ :- TypeofExp(es[0], tenv);
      TypeofExps(es[1..], tenv)
  }

  /** The test must fit boolean; the type is the union of the branch types. */
  function TypeofIf(e: Exp, tenv: TEnv): Result<TExp, TypeError>
    requires e.IfExp?
    decreases ExpSize(e), 0
  {
    var testTE :- TypeofExp(e.test, tenv);
    if !Compatible(testTE, BoolTExp) then Failure(IncompatibleTypes)
    else
      var thenTE :- TypeofExp(e.conseq, tenv);
      var altTE :- TypeofExp(e.alt, tenv);
      Success(MakeUnion(thenTE, altTE))
  }

  /** The environment a procedure body is checked in: its parameters over `tenv`. */
  function ParamsEnv(args: seq<VarDecl>, tenv: TEnv): TEnv
  {
    MakeExtendTEnv(DeclNames(args), DeclTExps(args), tenv)
  }

  /** The body must fit the declared return type; the type is the declared signature. */
  function TypeofProc(e: Exp, tenv: TEnv): Result<TExp, TypeError>
    requires e.ProcExp?
    decreases ExpSize(e), 0
  {
    var bodyTE :- TypeofExps(e.body, ParamsEnv(e.args, tenv));
    if !Compatible(bodyTE, e.returnTE) then Failure(IncompatibleTypes)
    else Success(ProcTExp(DeclTExps(e.args), e.returnTE))
  }

  /** The operator must be a procedure of the right arity whose parameters accept the operands. */
  function TypeofApp(e: Exp, tenv: TEnv): Result<TExp, TypeError>
    requires e.AppExp?
    decreases ExpSize(e), 0
  {
    var ratorTE :- TypeofExp(e.rator, tenv);
    if !ratorTE.ProcTExp? then Failure(NonProcedure)
    else if |e.rands| != |ratorTE.paramTEs| then Failure(WrongArity)
    else
      var _ :- CheckRands(e.rands, ratorTE.paramTEs, tenv);
      Success(ratorTE.returnTE)
  }

  /** Each operand is typed and must be accepted by its parameter type, left to right. */
  function CheckRands(rands: seq<Exp>, params: seq<TExp>, tenv: TEnv): Result<(), TypeError>
    requires |rands| == |params|
    decreases ExpsSize(rands), 2
  {
    if |rands| == 0 then Success(())
    else
      var t :- TypeofExp(rands[0], tenv);
      if !Compatible(params[0], t) then Failure(IncompatibleTypes)
      else CheckRands(rands[1..], params[1..], tenv)
  }

  /** The environment a let body is checked in: the declared types over `tenv`. */
  function BindingsEnv(bs: seq<Binding>, tenv: TEnv): TEnv
  {
    ParamsEnv(BindingDecls(bs), tenv)
  }

  /** Every value must fit its declared type; the body sees the declared types. */
  function TypeofLet(e: Exp, tenv: TEnv): Result<TExp, TypeError>
    requires e.LetExp?
    decreases ExpSize(e), 0
  {
    var _ :- CheckBindings(e.bindings, tenv);
    TypeofExps(e.body, BindingsEnv(e.bindings, tenv))
  }

  /** Each bound value is typed in the outer environment and checked against its declaration. */
  function CheckBindings(bs: seq<Binding>, tenv: TEnv): Result<(), TypeError>
    decreases BindingsSize(bs), 2
  {
    if |bs| == 0 then Success(())
    else
      assert BindingsSize(bs) == 1 + ExpSize(bs[0].val) + BindingsSize(bs[1..]);
      var t :- TypeofExp(bs[0].val, tenv);
      if !Compatible(bs[0].decl.texp, t) then Failure(IncompatibleTypes)
      else CheckBindings(bs[1..], tenv)
  }

  predicate AllProcs(bs: seq<Binding>)
  {
    forall i :: 0 <= i < |bs| ==> bs[i].val.ProcExp?
  }

  /** The procedure type each letrec binding's lambda declares. */
  function Signatures(bs: seq<Binding>): (r: seq<TExp>)
    requires AllProcs(bs)
    ensures |r| == |bs|
  {
    seq(|bs|, i requires 0 <= i < |bs| => ProcTExp(DeclTExps(bs[i].val.args), bs[i].val.returnTE))
  }

  /** The declared return type of each letrec binding's lambda. */
  function ReturnTypes(bs: seq<Binding>): (r: seq<TExp>)
    requires AllProcs(bs)
    ensures |r| == |bs|
  {
    seq(|bs|, i requires 0 <= i < |bs| => bs[i].val.returnTE)
  }

  /**
   * The environment of a letrec: every name bound to the signature of its
   * lambda, so that the lambdas and the body can refer to all of them.
   */
  function LetrecEnv(bs: seq<Binding>, tenv: TEnv): TEnv
    requires AllProcs(bs)
  {
    MakeExtendTEnv(DeclNames(BindingDecls(bs)), Signatures(bs), tenv)
  }

  /**
   * Only lambdas may be bound; every lambda body is typed first, then each
   * body type is checked against its declared return type, then the body
   * is typed in the letrec environment.
   */
  function TypeofLetrec(e: Exp, tenv: TEnv): Result<TExp, TypeError>
    requires e.LetrecExp?
    decreases ExpSize(e), 0
  {
    if !AllProcs(e.bindings) then Failure(LetrecNonProcedure)
    else
      var tenvBody := LetrecEnv(e.bindings, tenv);
      var types :- TypeofLambdaBodies(e.bindings, tenvBody);
      if !(forall i :: 0 <= i < |types| ==> Compatible(types[i], ReturnTypes(e.bindings)[i]))
      then Failure(IncompatibleTypes)
      else TypeofExps(e.body, tenvBody)
  }

  /** The type of each lambda's body under its parameters over `tenvBody`. */
  function TypeofLambdaBodies(bs: seq<Binding>, tenvBody: TEnv): (r: Result<seq<TExp>, TypeError>)
    requires AllProcs(bs)
    ensures r.Success? ==> |r.value| == |bs|
    decreases BindingsSize(bs), 2
  {
    if |bs| == 0 then Success([])
    else
      var p := bs[0].val;
      assert BindingsSize(bs) == 1 + ExpSize(p) + BindingsSize(bs[1..]);
      var t :- TypeofExps(p.body, ParamsEnv(p.args, tenvBody));
      var ts :- TypeofLambdaBodies(bs[1..], tenvBody);
      Success([t] + ts)
  }

  /** The environment a define's value is checked in: the defined name over `tenv`. */
  function DefineEnv(d: VarDecl, tenv: TEnv): TEnv
  {
    MakeExtendTEnv([d.name], [d.texp], tenv)
  }

  /** As written: the value only has to type-check; its type is never compared with the declaration. */
  function TypeofDefine(e: Exp, tenv: TEnv): Result<TExp, TypeError>
    requires e.DefineExp?
    decreases ExpSize(e), 0
  {
    var _ :- TypeofExp(e.val, DefineEnv(e.decl, tenv));
    Success(VoidTExp)
  }

  /** As written: every expression in the original environment; defines do not extend it. */
  function TypeofProgram(p: Program, tenv: TEnv): Result<TExp, TypeError>
  {
    TypeofExps(p.exps, tenv)
  }
}
