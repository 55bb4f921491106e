/**
 * Expressions from the L5 type checker's test file, with the types the
 * checker gives them (parsing is not modelled, so each is written as its
 * syntax tree). The test file skips its cases for the type predicates and
 * `eq?`, since generic procedures are not supported by type checking: their
 * parameter types are type variables, which are compatible only with
 * themselves, so the checker rejects `(number? 1)` and `(eq? 1 2)`.
 */
module L5Examples {
  import opened Wrappers
  import opened TExps
  import opened TypeErrors
  import opened TEnvs
  import opened Compat
  import opened Unions
  import opened L5Ast
  import opened L5Typecheck
  import opened L5Rules

  function Num(n: int): Exp { NumExp(n) }
  function App2(op: string, a: Exp, b: Exp): Exp { AppExp(PrimOp(op), [a, b]) }

  /** An arithmetic primitive applied to two numbers is a number. */
  lemma ArithmeticApplication(op: string, a: int, b: int)
    requires op == "+" || op == "-" || op == "*" || op == "/"
    ensures TypeofExp(App2(op, Num(a), Num(b)), EmptyTEnv) == Success(NumTExp)
  {
    var rands := [Num(a), Num(b)];
    AppRule(PrimOp(op), rands, EmptyTEnv);
    assert TypeofExp(PrimOp(op), EmptyTEnv) == Success(NumOpTExp);
    assert TypeofExp(rands[0], EmptyTEnv) == Success(NumTExp);
    assert TypeofExp(rands[1], EmptyTEnv) == Success(NumTExp);
  }

  /** A numeric comparison applied to two numbers is a boolean. */
  lemma ComparisonApplication(op: string, a: int, b: int)
    requires op == "=" || op == "<" || op == ">"
    ensures TypeofExp(App2(op, Num(a), Num(b)), EmptyTEnv) == Success(BoolTExp)
  {
    var rands := [Num(a), Num(b)];
    AppRule(PrimOp(op), rands, EmptyTEnv);
    assert TypeofExp(PrimOp(op), EmptyTEnv) == Success(NumCompTExp);
    assert TypeofExp(rands[0], EmptyTEnv) == Success(NumTExp);
    assert TypeofExp(rands[1], EmptyTEnv) == Success(NumTExp);
  }

  /** `(+ 1 2)`, `(- 1 2)`, `(* 1 2)` and `(/ 1 2)` are numbers; `(= 1 2)`, `(< 1 2)` and `(> 1 2)` booleans. */
  lemma TestedPrimitiveApplications()
    ensures TypeofExp(App2("+", Num(1), Num(2)), EmptyTEnv) == Success(NumTExp)
    ensures TypeofExp(App2("-", Num(1), Num(2)), EmptyTEnv) == Success(NumTExp)
    ensures TypeofExp(App2("*", Num(1), Num(2)), EmptyTEnv) == Success(NumTExp)
    ensures TypeofExp(App2("/", Num(1), Num(2)), EmptyTEnv) == Success(NumTExp)
    ensures TypeofExp(App2("=", Num(1), Num(2)), EmptyTEnv) == Success(BoolTExp)
    ensures TypeofExp(App2("<", Num(1), Num(2)), EmptyTEnv) == Success(BoolTExp)
    ensures TypeofExp(App2(">", Num(1), Num(2)), EmptyTEnv) == Success(BoolTExp)
  {
    ArithmeticApplication("+", 1, 2);
    ArithmeticApplication("-", 1, 2);
    ArithmeticApplication("*", 1, 2);
    ArithmeticApplication("/", 1, 2);
    ComparisonApplication("=", 1, 2);
    ComparisonApplication("<", 1, 2);
    ComparisonApplication(">", 1, 2);
  }

  /** `(not (< 1 2))` is a boolean. */
  lemma TestedNot()
    ensures TypeofExp(AppExp(PrimOp("not"), [App2("<", Num(1), Num(2))]), EmptyTEnv) == Success(BoolTExp)
  {
    var rands := [App2("<", Num(1), Num(2))];
    ComparisonApplication("<", 1, 2);
    AppRule(PrimOp("not"), rands, EmptyTEnv);
    assert TypeofExp(PrimOp("not"), EmptyTEnv) == Success(ProcTExp([BoolTExp], BoolTExp));
    assert TypeofExp(rands[0], EmptyTEnv) == Success(BoolTExp);
  }

  /** `(number? 1)`, a skipped generic case, is rejected: a type variable parameter accepts only itself. */
  lemma TypePredicateRejected()
    ensures TypeofExp(AppExp(PrimOp("number?"), [Num(1)]), EmptyTEnv) == Failure(IncompatibleTypes)
  {
    assert !Compatible(TVar("T"), NumTExp);
  }

  /** `(eq? 1 2)`, a skipped generic case, is rejected likewise. */
  lemma GenericEqualityRejected()
    ensures TypeofExp(App2("eq?", Num(1), Num(2)), EmptyTEnv) == Failure(IncompatibleTypes)
  {
    assert !Compatible(TVar("T1"), NumTExp);
  }

  /** `(if #t 1 #t)` is `(union boolean number)`. */
  lemma TestedIfUnion()
    ensures TypeofExp(IfExp(BoolExp(true), Num(1), BoolExp(true)), EmptyTEnv)
         == Success(UnionTExp([BoolTExp, NumTExp]))
  {
    IfOfTyped(BoolExp(true), Num(1), BoolExp(true), EmptyTEnv, NumTExp, BoolTExp);
    TestedUnionOfAtoms();
  }

  /** `(if #t 1 2)` is number: equal branch types build no union. */
  lemma TestedIfSameBranches()
    ensures TypeofExp(IfExp(BoolExp(true), Num(1), Num(2)), EmptyTEnv) == Success(NumTExp)
  {
    IfOfTyped(BoolExp(true), Num(1), Num(2), EmptyTEnv, NumTExp, NumTExp);
    TestedUnionOfAtoms();
  }

  /** `(if 1 2 3)` fails: a number is not a boolean. */
  lemma TestedIfNonBooleanTest()
    ensures TypeofExp(IfExp(Num(1), Num(2), Num(3)), EmptyTEnv) == Failure(IncompatibleTypes)
  {
    IfRule(Num(1), Num(2), Num(3), EmptyTEnv);
    AtomicCompatibleIffEqual(NumTExp, BoolTExp);
  }

  /** `(if #f 1 #t)` is `(union boolean number)`. */
  lemma InnerIf()
    ensures TypeofExp(IfExp(BoolExp(false), Num(1), BoolExp(true)), EmptyTEnv)
         == Success(UnionTExp([BoolTExp, NumTExp]))
  {
    IfOfTyped(BoolExp(false), Num(1), BoolExp(true), EmptyTEnv, NumTExp, BoolTExp);
    TestedUnionOfAtoms();
  }

  /** `(if #t (if #f 1 #t) "ok")` admits boolean, number and string, as one flat union. */
  lemma TestedNestedIf()
    ensures TypeofExp(IfExp(BoolExp(true), IfExp(BoolExp(false), Num(1), BoolExp(true)), StrExp("ok")), EmptyTEnv)
         == Success(UnionTExp([BoolTExp, NumTExp, StrTExp]))
  {
    var inner := IfExp(BoolExp(false), Num(1), BoolExp(true));
    InnerIf();
    assert TypeofExp(StrExp("ok"), EmptyTEnv) == Success(StrTExp);
    IfOfTyped(BoolExp(true), inner, StrExp("ok"), EmptyTEnv, UnionTExp([BoolTExp, NumTExp]), StrTExp);
    TestedUnionOfAtoms();
    TestedUnionWithString();
  }

  /** An if whose test is boolean and whose branches are typed has the union of the branch types. */
  lemma IfOfTyped(test: Exp, conseq: Exp, alt: Exp, tenv: TEnv, ct: TExp, at: TExp)
    requires TypeofExp(test, tenv) == Success(BoolTExp)
    requires TypeofExp(conseq, tenv) == Success(ct)
    requires TypeofExp(alt, tenv) == Success(at)
    ensures TypeofExp(IfExp(test, conseq, alt), tenv) == Success(MakeUnion(ct, at))
  {
    IfRule(test, conseq, alt, tenv);
    CompatibleReflexive(BoolTExp);
  }

  /** `(lambda ((x : number)) : number x)` is `(number -> number)`. */
  lemma TestedIdentityLambda()
    ensures TypeofExp(ProcExp([VarDecl("x", NumTExp)], [VarRef("x")], NumTExp), EmptyTEnv)
         == Success(ProcTExp([NumTExp], NumTExp))
  {
    var args := [VarDecl("x", NumTExp)];
    ParamsEnvLookup(args, EmptyTEnv, 0);
    assert DeclTExps(args) == [NumTExp];
    CompatibleReflexive(NumTExp);
    ProcRule(args, [VarRef("x")], NumTExp, EmptyTEnv);
  }

  /** `(let (((x : number) 1)) (* x 2))` is a number. */
  lemma TestedLet()
    ensures TypeofExp(LetExp([Binding(VarDecl("x", NumTExp), Num(1))], [App2("*", VarRef("x"), Num(2))]), EmptyTEnv)
         == Success(NumTExp)
  {
    var bs := [Binding(VarDecl("x", NumTExp), Num(1))];
    var env := BindingsEnv(bs, EmptyTEnv);
    ParamsEnvLookup(BindingDecls(bs), EmptyTEnv, 0);
    AppRule(PrimOp("*"), [VarRef("x"), Num(2)], env);
    LetRule(bs, [App2("*", VarRef("x"), Num(2))], EmptyTEnv);
  }

  /** Let is not sequential: `(let (((x : number) 1) ((y : number) x)) y)` has `x` unbound. */
  lemma LetValuesSeeOuterScope()
    ensures TypeofExp(LetExp([Binding(VarDecl("x", NumTExp), Num(1)), Binding(VarDecl("y", NumTExp), VarRef("x"))],
                             [VarRef("y")]), EmptyTEnv)
         == Failure(UnboundVariable("x"))
  {
  }

  /** `(lambda ((x : number)) : number (* x x))` */
  function Square(): Exp
  {
    ProcExp([VarDecl("x", NumTExp)], [App2("*", VarRef("x"), VarRef("x"))], NumTExp)
  }

  /** `(letrec (((p1 : (number -> number)) (lambda ((x : number)) : number (* x x)))) (p1 2))` is a number. */
  lemma TestedLetrec()
    ensures TypeofExp(LetrecExp([Binding(VarDecl("p1", ProcTExp([NumTExp], NumTExp)), Square())],
                                [AppExp(VarRef("p1"), [Num(2)])]), EmptyTEnv)
         == Success(NumTExp)
  {
    var sq := Square();
    var bs := [Binding(VarDecl("p1", ProcTExp([NumTExp], NumTExp)), sq)];
    var env := LetrecEnv(bs, EmptyTEnv);
    var inner := ParamsEnv(sq.args, env);
    LetrecEnvLookup(bs, EmptyTEnv, 0);
    ParamsEnvLookup(sq.args, env, 0);
    AppRule(PrimOp("*"), [VarRef("x"), VarRef("x")], inner);
    AppRule(VarRef("p1"), [Num(2)], env);
    LetrecRule(bs, [AppExp(VarRef("p1"), [Num(2)])], EmptyTEnv);
  }

  /** `(define (foo : number) 5)` is void. */
  lemma TestedDefine()
    ensures TypeofExp(DefineExp(VarDecl("foo", NumTExp), Num(5)), EmptyTEnv) == Success(VoidTExp)
  {
  }
}
