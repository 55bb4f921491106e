# PPL assignments: type checking, desugaring and transpiling small Schemes

This project models, in Dafny, four pieces of a course repository on
programming-language principles. It proves what each one computes.

- **The L5 type checker** (`L5-typecheck.ts`) computes the type of a fully
  annotated L5 expression or program under a type environment. The model covers:
  - every typing rule: atoms, primitives, variables, `if`, `lambda`,
    application, `let`, `letrec`, `define` and programs;
  - the asymmetric compatibility relation `checkCompatibleType`, whose union
    membership is decided by variant tag alone;
  - `makeUnion`, which flattens, deduplicates and orders union components and
    collapses a single member.
- **The cond rewriter** (`q3.ts`) translates L31 (L3 plus `cond`) into L3 by
  turning each `cond` into a chain of nested `if`s.
- **The L2-to-Python transpiler** (`q4.ts`) renders an L2 expression or
  program as Python source text using a fixed template per node.
- **The string utilities** (`Assignment_1/src/part2/part2.ts`):
  - `countLetters` counts the non-space characters, lower-cased;
  - `isPaired` checks brackets with a stack fold;
  - `treeToSentence` reads a word tree out as a sentence.

Files:

| file | contents |
|---|---|
| `wrappers.dfy` | the `Result` type |
| `strings.dfy` | `Join` (JavaScript's `join`) and `Split`, with their round trips |
| `texp.dfy` | type expressions, their variant tags, and the canonical order of union members |
| `tenv.dfy` | error kinds and the type environment |
| `compat.dfy` | `checkCompatibleType` and its helpers |
| `unions.dfy` | `makeUnion` |
| `l5_ast.dfy`, `l5_typecheck.dfy` | the annotated L5 syntax and the checker |
| `l5_rules.dfy` | one typing rule per form, as an if-and-only-if lemma |
| `l5_scope.dfy` | environments that answer lookups alike give the same types |
| `l5_program.dfy` | the two findings about `define` and programs, with corrected checkers |
| `l5_examples.dfy` | the expressions of the checker's test file |
| `l31_ast.dfy`, `cond_to_if.dfy` | L31 syntax and the cond rewriter |
| `l2_to_python.dfy`, `l2_to_python_props.dfy` | the transpiler and its properties |
| `letters.dfy`, `brackets.dfy`, `word_tree.dfy` | the string utilities |

Errors are modelled as values rather than preconditions, with one exception: the cond rewriter of `q3.ts` requires every `cond` to have a clause (see the `WellFormed` line below).
- The checker returns `Result<TExp, TypeError>`. `TypeError` records the kind
  of failure but not the message text.
- The transpiler fails with `Failure(())`. Its source message is empty.
- The rewriter's failure branch is unreachable for well-formed syntax trees.

## Model

| member | source | states |
|---|---|---|
| `TExps.PrecedesIrreflexive` | Assignment_4/part3/src/L5/L5-typecheck.ts:148 | no type expression sorts before itself inside a union |
| `TExps.PrecedesAsymmetric` | Assignment_4/part3/src/L5/L5-typecheck.ts:148 | two type expressions never sort before each other |
| `TExps.PrecedesTransitive` | Assignment_4/part3/src/L5/L5-typecheck.ts:148 | the union-member order is transitive |
| `TExps.PrecedesTotal` | Assignment_4/part3/src/L5/L5-typecheck.ts:148 | any two distinct type expressions are ordered one way or the other, so a union's member order is unique |
| `TExps.AtomicOrder` | Assignment_4/part3/test/L5-typecheck.test.ts:171-215 | atomic members sort boolean < number < string, the order the union tests expect; void comes after string by its printed form |
| `TEnvs.MakeExtendTEnv` | Assignment_4/part3/src/L5/L5-typecheck.ts:175 | the new frame pairs the i-th name with the i-th type, in front of the parent environment |
| `TEnvs.ApplyTEnvIsFirstBinding` | Assignment_4/part3/src/L5/L5-typecheck.ts:88 | a lookup gives the type of the first binding of the name, innermost frame first, and fails with UnboundVariable when there is none |
| `TEnvs.ApplyTEnvSucceedsIffBound` | Assignment_4/part3/src/L5/L5-typecheck.ts:88 | a lookup succeeds exactly for the names bound somewhere in the chain; otherwise the error names the variable |
| `TEnvs.ExtendTEnvLookup` | Assignment_4/part3/src/L5/L5-typecheck.ts:175 | a new frame answers for the names it binds (first occurrence wins) and defers every other name to its parent |
| `Compat.IncludesTagIffTagIn` | Assignment_4/part3/src/L5/L5-typecheck.ts:37 | `includesDic` holds exactly when the type's tag is among the list's tags |
| `Compat.AtomicCompatibleIffEqual` | Assignment_4/part3/src/L5/L5-typecheck.ts:24 | two atomic types are compatible exactly when they are equal |
| `Compat.TVarCompatibleIffEqual` | Assignment_4/part3/src/L5/L5-typecheck.ts:25 | with a type variable on either side, compatibility is structural equality |
| `Compat.ProcCompatibleIff` | Assignment_4/part3/src/L5/L5-typecheck.ts:46-50 | procedure types are compatible exactly when arities agree, returns are compatible left to right, and parameters are compatible right to left |
| `Compat.UnionCompatibleIffTagSubset` | Assignment_4/part3/src/L5/L5-typecheck.ts:52-53 | union against union holds exactly when the left union's tags are a subset of the right union's |
| `Compat.UnionAtomicCompatibleIffTagIn` | Assignment_4/part3/src/L5/L5-typecheck.ts:56 | union against an atomic type holds exactly when the atomic type's tag occurs in the union |
| `Compat.UnionProcCompatibleIff` | Assignment_4/part3/src/L5/L5-typecheck.ts:39-43 | union against a procedure holds exactly when it has one parameter that is not a procedure and that the union fits |
| `Compat.AtomicProcCompatibleIff` | Assignment_4/part3/src/L5/L5-typecheck.ts:58-60 | atomic against a procedure needs exactly one parameter; an atomic parameter must equal the type, any other must be compatible with it |
| `Compat.OnlyUnionFitsUnion` | Assignment_4/part3/src/L5/L5-typecheck.ts:23-34 | nothing but a union is compatible with a union |
| `Compat.ProcFitsOnlyProc` | Assignment_4/part3/src/L5/L5-typecheck.ts:23-34 | a procedure type is compatible only with procedure types |
| `Compat.CompatibleReflexive` | Assignment_4/part3/src/L5/L5-typecheck.ts:23-34 | every type is compatible with itself |
| `Compat.CompatibleNotSymmetric` | Assignment_4/part3/src/L5/L5-typecheck.ts:23-34 | `(union number boolean)` accepts number, but number does not accept the union |
| `Compat.UnionMembershipIgnoresPayload` | Assignment_4/part3/src/L5/L5-typecheck.ts:37 | two incompatible procedure types become compatible once each is wrapped in a union, because only tags are compared |
| `Compat.TestedCompatibilityCases` | Assignment_4/part3/test/L5-typecheck.test.ts:147-167 | the four compatibility verdicts of the tests: number/boolean fails, a union accepts its member, reordered unions agree, type-variable unions fail |
| `Compat.ProcArgumentUnionCases` | Assignment_4/part3/test/L5-typecheck.test.ts:244-271 | the tests' procedures with unions in parameter positions: h fits g and f, i fits f, i does not fit g |
| `Unions.MakeUnion` | Assignment_4/part3/src/L5/L5-typecheck.ts:148 | the result is in normal form (no nested unions, no single-member union, sorted without repeats) and holds exactly the members of both sides |
| `Unions.MakeUnionBySet` | Assignment_4/part3/src/L5/L5-typecheck.ts:148 | the result depends only on the set of members both sides contribute |
| `Unions.MakeUnionCommutative` | Assignment_4/part3/src/L5/L5-typecheck.ts:148 | the order of the two sides does not matter |
| `Unions.MakeUnionAssociative` | Assignment_4/part3/src/L5/L5-typecheck.ts:148 | nesting unions either way gives the same type |
| `Unions.MakeUnionAbsorbs` | Assignment_4/part3/src/L5/L5-typecheck.ts:148 | adding members already present leaves a normal-form type unchanged |
| `Unions.MakeUnionIdempotent` | Assignment_4/part3/src/L5/L5-typecheck.ts:148 | the union of a normal-form type with itself is that type |
| `Unions.TestedUnionOfAtoms` | Assignment_4/part3/test/L5-typecheck.test.ts:173-180 | number with boolean gives `(union boolean number)`; equal atoms collapse to the atom |
| `Unions.TestedUnionsCanonical` | Assignment_4/part3/test/L5-typecheck.test.ts:171-215 | the unions the tests expect are in normal form and hold the listed members |
| `Unions.TestedUnionWithString` | Assignment_4/part3/test/L5-typecheck.test.ts:183-192 | adding string to `(union boolean number)` gives `(union boolean number string)` |
| `Unions.TestedUnionOfTwoUnions` | Assignment_4/part3/test/L5-typecheck.test.ts:195-205 | the union of two overlapping unions keeps each member once, in order |
| `Unions.TestedUnionWithRepeat` | Assignment_4/part3/test/L5-typecheck.test.ts:207-215 | adding number to `(union boolean number)` changes nothing |
| `L5Typecheck.TypeofLambdaBodies` | Assignment_4/part3/src/L5/L5-typecheck.ts:244 | a successful pass yields one body type per letrec binding |
| `L5Rules.TypeofExpsSpec` | Assignment_4/part3/src/L5/L5-typecheck.ts:103-106 | an empty body is an error; a body fails with its first failing expression; otherwise its type is the last expression's type |
| `L5Rules.CheckRandsIff` | Assignment_4/part3/src/L5/L5-typecheck.ts:199-200 | operands pass exactly when each one types and its parameter type accepts that type |
| `L5Rules.CheckBindingsIff` | Assignment_4/part3/src/L5/L5-typecheck.ts:216-217 | let bindings pass exactly when each value types in the outer environment and its declared type accepts it |
| `L5Rules.LambdaBodiesSpec` | Assignment_4/part3/src/L5/L5-typecheck.ts:242-244 | the letrec bodies pass exactly when every lambda body types under its parameters; the i-th result is the i-th body's type |
| `L5Rules.ParamsEnvLookup` | Assignment_4/part3/src/L5/L5-typecheck.ts:174-175 | inside a procedure body each parameter, at its first occurrence, has its declared type |
| `L5Rules.ParamsEnvDefers` | Assignment_4/part3/src/L5/L5-typecheck.ts:174-175 | names a procedure does not bind are looked up in the enclosing environment |
| `L5Rules.LetrecEnvLookup` | Assignment_4/part3/src/L5/L5-typecheck.ts:241 | inside a letrec each bound name has the signature its lambda declares |
| `L5Rules.PrimRule` | Assignment_4/part3/src/L5/L5-typecheck.ts:123-145 | exactly the twenty known operators have a type, always a procedure type; any other fails naming the operator |
| `L5Rules.VarRefRule` | Assignment_4/part3/src/L5/L5-typecheck.ts:88 | a variable types exactly when it is bound; an unbound one fails naming it |
| `L5Rules.CompatibleWithBoolean` | Assignment_4/part3/src/L5/L5-typecheck.ts:161 | an if test is accepted exactly when its type is boolean or a union holding a boolean member |
| `L5Rules.IfRule` | Assignment_4/part3/src/L5/L5-typecheck.ts:157-167 | an if checks exactly when its test fits boolean and both branches check; its type is the union of the branch types; a non-boolean test is an incompatibility |
| `L5Rules.IfCoversBranches` | Assignment_4/part3/src/L5/L5-typecheck.ts:157-167 | a checked if's type is in normal form and admits exactly the members of both branch types |
| `L5Rules.IfBranchesCommute` | Assignment_4/part3/src/L5/L5-typecheck.ts:157-167 | swapping the branches of a checked if does not change its type |
| `L5Rules.IfSameBranchTypes` | Assignment_4/part3/src/L5/L5-typecheck.ts:157-167 | when both branches have the same normal-form type, the if has that type and builds no union |
| `L5Rules.ProcRule` | Assignment_4/part3/src/L5/L5-typecheck.ts:173-178 | a lambda checks exactly when its body checks under its parameters and fits the declared return type; its type is the declared signature |
| `L5Rules.AppRule` | Assignment_4/part3/src/L5/L5-typecheck.ts:188-203 | an application checks exactly when the operator has a procedure type of the right arity whose parameters accept the operands; its type is the return type; the error kinds match the source's checks |
| `L5Rules.LetRule` | Assignment_4/part3/src/L5/L5-typecheck.ts:212-219 | a let checks exactly when every value fits its declaration in the outer scope and the body checks with the declared types in scope; it has the body's type |
| `L5Rules.LetrecRule` | Assignment_4/part3/src/L5/L5-typecheck.ts:232-248 | only lambdas may be bound; each body, typed with all letrec names in scope, must fit its declared return; the letrec has the body's type in that scope |
| `L5Rules.DefineRule` | Assignment_4/part3/src/L5/L5-typecheck.ts:260-261 | as written, a define checks exactly when its value checks with the name in scope, and is void |
| `L5Rules.ProgramRule` | Assignment_4/part3/src/L5/L5-typecheck.ts:263-270 | as written, an empty program fails; otherwise the program checks exactly when every form checks in the same given environment, has the last form's type, and fails with the first failing form's error |
| `L5Scope.TypeofExpSameLookups` | Assignment_4/part3/src/L5/L5-typecheck.ts:83-97 | the checker consults its environment only through lookups: environments that answer alike give every expression the same result |
| `L5Scope.ShadowedBindingIrrelevant` | Assignment_4/part3/src/L5/L5-typecheck.ts:175 | an outer binding shadowed by an inner one never affects a type |
| `L5Programs.DefineIgnoresDeclaredType` | Assignment_4/part3/src/L5/L5-typecheck.ts:260-261 | `(define (x : boolean) 5)` is accepted as void although number does not fit boolean |
| `L5Programs.ProgramForgetsDefines` | Assignment_4/part3/src/L5/L5-typecheck.ts:269-270 | `(define (x : number) 5) x` fails: the reference does not see the define |
| `L5Programs.TypeofDefineChecked` | Assignment_4/part3/src/L5/L5-typecheck.ts:254-261 | the corrected define succeeds exactly when its value types with the name in scope and fits the declared type, and is then void |
| `L5Programs.DefineCheckedRefines` | Assignment_4/part3/src/L5/L5-typecheck.ts:260-261 | the corrected define accepts only what the written one accepts, and then agrees with it |
| `L5Programs.DefineCheckedAcceptsDeclared` | Assignment_4/part3/src/L5/L5-typecheck.ts:254-259 | a value whose type is exactly the declared type is always accepted |
| `L5Programs.DefineCheckedRejectsMismatch` | Assignment_4/part3/src/L5/L5-typecheck.ts:254-259 | the corrected define rejects `(define (x : boolean) 5)` |
| `L5Programs.ThreadedDefineThenReference` | Assignment_4/part3/src/L5/L5-typecheck.ts:250-252 | in the threaded program checker, a reference after a checked define has the declared type |
| `L5Programs.ThreadedProgramSeesDefine` | Assignment_4/part3/src/L5/L5-typecheck.ts:250-252 | `(define (x : number) 5) x` is number under the corrected checker |
| `L5Programs.ThreadedAgreesWithoutDefines` | Assignment_4/part3/src/L5/L5-typecheck.ts:269-270 | on programs without defines the corrected and the written program checkers agree |
| `L5Programs.ThreadedSpec` | Assignment_4/part3/src/L5/L5-typecheck.ts:250-252 | a threaded program checks exactly when every form checks in the environment the earlier forms leave; its type is the last form's |
| `L5Examples.ArithmeticApplication` | Assignment_4/part3/src/L5/L5-typecheck.ts:118-127 | `+`, `-`, `*` and `/` applied to any two numbers give a number |
| `L5Examples.ComparisonApplication` | Assignment_4/part3/src/L5/L5-typecheck.ts:119-132 | `=`, `<` and `>` applied to any two numbers give a boolean |
| `L5Examples.TestedPrimitiveApplications` | Assignment_4/part3/test/L5-typecheck.test.ts:67-75 | `(+ 1 2)`, `(- 1 2)`, `(* 1 2)` and `(/ 1 2)` are number; `(= 1 2)`, `(< 1 2)` and `(> 1 2)` are boolean |
| `L5Examples.TestedNot` | Assignment_4/part3/test/L5-typecheck.test.ts:77 | `(not (< 1 2))` is boolean |
| `L5Examples.TypePredicateRejected` | Assignment_4/part3/test/L5-typecheck.test.ts:80-91 | `(number? 1)`, whose test is skipped, is rejected as incompatible |
| `L5Examples.GenericEqualityRejected` | Assignment_4/part3/test/L5-typecheck.test.ts:80-91 | `(eq? 1 2)`, whose test is skipped, is rejected as incompatible |
| `L5Examples.TestedIfUnion` | Assignment_4/part3/test/L5-typecheck.test.ts:222-225 | `(if #t 1 #t)` is `(union boolean number)` |
| `L5Examples.TestedIfSameBranches` | Assignment_4/part3/test/L5-typecheck.test.ts:226-229 | `(if #t 1 2)` is number |
| `L5Examples.TestedIfNonBooleanTest` | Assignment_4/part3/test/L5-typecheck.test.ts:234-237 | `(if 1 2 3)` fails as incompatible |
| `L5Examples.TestedNestedIf` | Assignment_4/part3/test/L5-typecheck.test.ts:230-233 | `(if #t (if #f 1 #t) "ok")` admits boolean, number and string, as one flat union |
| `L5Examples.TestedIdentityLambda` | Assignment_4/part3/test/L5-typecheck.test.ts:99 | `(lambda ((x : number)) : number x)` is `(number -> number)` |
| `L5Examples.TestedLet` | Assignment_4/part3/test/L5-typecheck.test.ts:107 | `(let (((x : number) 1)) (* x 2))` is number |
| `L5Examples.LetValuesSeeOuterScope` | Assignment_4/part3/src/L5/L5-typecheck.ts:216-218 | let is not sequential: a later value cannot refer to an earlier binding |
| `L5Examples.TestedLetrec` | Assignment_4/part3/test/L5-typecheck.test.ts:114 | the squaring letrec applied to 2 is number |
| `L5Examples.TestedDefine` | Assignment_4/part3/test/L5-typecheck.test.ts:122 | `(define (foo : number) 5)` is void |
| `CondToIf.RewriteCond` | Assignment_2/src/q3.ts:43-51 | a cond becomes an if on its first clause, two size units smaller, still well formed |
| `CondToIf.RewriteCondChain` | Assignment_2/src/q3.ts:43-51 | the chain holds one if per clause, in order, with the else expression at the end |
| `CondToIf.RewriteAllCondCExp` | Assignment_2/src/q3.ts:29-40 | the result is well formed and has no cond outside let-binding values |
| `CondToIf.L31ToL3` | Assignment_2/src/q3.ts:12-26 | expressions and programs always succeed; a program has each form rewritten, in order; a define has its value rewritten |
| `CondToIf.AtomicAndLiteralUnchanged` | Assignment_2/src/q3.ts:30-31 | atomic expressions and quoted literals come out unchanged |
| `CondToIf.RewriteKeepsForm` | Assignment_2/src/q3.ts:32-38 | every non-cond form keeps its constructor, parameters and bindings, with each operand or body expression replaced by its own rewrite, in place |
| `CondToIf.CondBecomesIf` | Assignment_2/src/q3.ts:39 | a cond is replaced by the rewrite of its if chain |
| `CondToIf.RewriteIdentityOnRewritten` | Assignment_2/src/q3.ts:29-40 | an expression with nothing left to rewrite comes out unchanged |
| `CondToIf.RewriteIdempotent` | Assignment_2/src/q3.ts:29-40 | rewriting twice is rewriting once |
| `CondToIf.LetValueCondSurvives` | Assignment_2/src/q3.ts:38 | a cond inside a let-binding value survives the rewrite |
| `CondToIf.RewriteAllCondFixed` | Assignment_2/src/q3.ts:29-40 | the corrected rewrite leaves no cond anywhere and stays well formed |
| `CondToIf.L31ToL3Fixed` | Assignment_2/src/q3.ts:12-21 | the corrected translation always yields L3: no cond in any form |
| `CondToIf.FixedIdentityOnL3` | Assignment_2/src/q3.ts:29-40 | on L3 input the corrected rewrite changes nothing |
| `CondToIf.FixedIdempotent` | Assignment_2/src/q3.ts:29-40 | the corrected rewrite is idempotent |
| `CondToIf.FixedRewritesLetValue` | Assignment_2/src/q3.ts:38 | the corrected rewrite turns the let-bound cond into an if |
| `L2ToPython.IntToStringRoundTrip` | Assignment_2/src/q4.ts:14 | a printed integer reads back as the same integer |
| `L2ToPython.IntToStringInjective` | Assignment_2/src/q4.ts:14 | different integers never print alike |
| `L2ToPython.PrimOpToPython` | Assignment_2/src/q4.ts:56-60 | a bare primitive operator always translates |
| `L2ToPythonProps.TranslatableIff` | Assignment_2/src/q4.ts:11-22 | an expression translates exactly when it is L2: no let, quoted literal or cond; every lambda has a body; every `not`, `number?` or `boolean?` call has an operand; and every sub-expression translated is itself L2 |
| `L2ToPythonProps.SeqTranslatableIff` | Assignment_2/src/q4.ts:47 | a list of expressions translates exactly when every element does |
| `L2ToPythonProps.SeqElementwise` | Assignment_2/src/q4.ts:47 | the i-th translated element is the translation of the i-th expression |
| `L2ToPythonProps.ExpsElementwise` | Assignment_2/src/q4.ts:24-25 | the forms of a program translate exactly when each does, and the i-th line is the i-th form's translation |
| `L2ToPythonProps.ProgramTranslatableIff` | Assignment_2/src/q4.ts:24-25 | a program translates exactly when every top-level form is translatable |
| `L2ToPythonProps.ProgramLines` | Assignment_2/src/q4.ts:24-25 | when no form's translation contains a newline, splitting the program's output at newlines gives back each form's translation, one per line |
| `L2ToPythonProps.AtomRendering` | Assignment_2/src/q4.ts:13-16 | booleans print as True/False, strings in double quotes, variables as named, numbers so that they read back as the same number |
| `L2ToPythonProps.StringsNotEscaped` | Assignment_2/src/q4.ts:15 | a string holding a double quote is printed without escaping it |
| `L2ToPythonProps.ProcRendering` | Assignment_2/src/q4.ts:27-28 | a lambda translates exactly when it has a body whose first expression translates, as `(lambda params : body)` |
| `L2ToPythonProps.ProcUsesFirstBodyOnly` | Assignment_2/src/q4.ts:27-28 | expressions after a lambda's first body expression are ignored |
| `L2ToPythonProps.ProcParamsRecoverable` | Assignment_2/src/q4.ts:28 | with no comma in any name, the parameter list splits back at commas into the parameter names |
| `L2ToPythonProps.IfRendering` | Assignment_2/src/q4.ts:30-42 | an if translates exactly when its three parts do, as `(then if test else alt)` |
| `L2ToPythonProps.AppRendering` | Assignment_2/src/q4.ts:44-47 | a call whose operator is not primitive translates exactly when all parts do, as `rator(rand,...)` |
| `L2ToPythonProps.UnaryPrimRendering` | Assignment_2/src/q4.ts:50-52 | `not`, `number?` and `boolean?` calls translate exactly when their first operand does, in their templates |
| `L2ToPythonProps.InfixPrimRendering` | Assignment_2/src/q4.ts:53-54 | any other primitive call joins its translated operands by the operator, with `eq?` and `=` becoming `==`, in parentheses |
| `L2ToPythonProps.PrimOpRendering` | Assignment_2/src/q4.ts:56-60 | a bare operator translates: the type predicates to their lambdas, `eq?` and `=` to `==`, anything else as named |
| `L2ToPythonProps.DefineRendering` | Assignment_2/src/q4.ts:62-63 | a define translates exactly when its value does, as `name = value` |
| `L2ToPythonProps.CompoundsParenthesised` | Assignment_2/src/q4.ts:27-54 | the translation of a lambda, an if or a primitive call opens with `(` and closes with `)`, so it can be nested in any template without extra parentheses |
| `L2ToPythonProps.InfixOfVars` | Assignment_2/src/q4.ts:54 | an infix primitive other than `eq?`/`=` applied to two variables prints `(a op b)` |
| `L2ToPythonProps.BinaryLambda` | Assignment_2/src/q4.ts:27-28 | a two-parameter lambda applying an infix primitive to its parameters prints `(lambda a,b : (a op b))` |
| `L2ToPythonProps.UnaryLambda` | Assignment_2/src/q4.ts:27-28 | a one-parameter lambda applying an infix primitive to its parameter twice prints `(lambda a : (a op a))` |
| `L2ToPythonProps.LambdaExample` | Assignment_2/src/q4.ts:27-28 | `(lambda (x y) (+ x y))` prints `(lambda x,y : (x + y))` |
| `L2ToPythonProps.EqualityExample` | Assignment_2/src/q4.ts:53 | `(= x 1)` prints `(x == 1)` |
| `L2ToPythonProps.IfExample` | Assignment_2/src/q4.ts:30-42 | `(if (= x 1) #t "no")` prints `(True if (x == 1) else "no")` |
| `L2ToPythonProps.SquareLambdaExample` | Assignment_2/src/q4.ts:27-28 | `(lambda (x) (* x x))` prints `(lambda x : (x * x))` |
| `L2ToPythonProps.CallExample` | Assignment_2/src/q4.ts:44-47 | `(f 3)` prints `f(3)` |
| `L2ToPythonProps.ProgramOfTwo` | Assignment_2/src/q4.ts:24-25 | a two-form program prints its two translations on two lines |
| `L2ToPythonProps.DefineThenCall` | Assignment_2/src/q4.ts:24-25 | a define of `f` followed by a one-argument call of `f` prints `f = value` and `f(arg)` on two lines |
| `L2ToPythonProps.ProgramExample` | Assignment_2/src/q4.ts:24-25 | `(define f (lambda (x) (* x x)))` followed by `(f 3)` prints two Python lines |
| `L2ToPythonProps.LetNotTranslated` | Assignment_2/src/q4.ts:22 | a let has no template and fails |
| `Letters.ToLowerIsAlphabetic` | Assignment_1/src/part2/part2.ts:11 | the i-th capital A–Z maps to the i-th letter of a–z; every other character is unchanged |
| `Letters.Counted` | Assignment_1/src/part2/part2.ts:10-11 | filtering and lower-casing never lengthen the input |
| `Letters.CountByCounts` | Assignment_1/src/part2/part2.ts:12 | `countBy` gives each key its number of occurrences and has exactly the occurring keys |
| `Letters.CountLettersSpec` | Assignment_1/src/part2/part2.ts:7-13 | each key's count is the number of non-space positions that lower-case to it; a key is present exactly when that number is positive |
| `Letters.CountLettersKeys` | Assignment_1/src/part2/part2.ts:7-13 | the keys are exactly the lower-cased non-space characters of the input |
| `Letters.NoSpaceKey` | Assignment_1/src/part2/part2.ts:10 | the space character is never a key |
| `Letters.KeysLowerCase` | Assignment_1/src/part2/part2.ts:11 | no key is an upper-case letter |
| `Letters.CaseInsensitive` | Assignment_1/src/part2/part2.ts:11 | strings that agree up to letter case have the same counts |
| `Letters.CountsSumToNonSpaces` | Assignment_1/src/part2/part2.ts:7-13 | the counts sum to the number of non-space characters |
| `Letters.Example` | Assignment_1/src/part2/part2.ts:7-13 | `"Aa b"` counts two `a`s and one `b` |
| `Brackets.BracketsOf` | Assignment_1/src/part2/part2.ts:25 | the filter keeps only bracket characters and never lengthens the input |
| `Brackets.CheckParenthesis` | Assignment_1/src/part2/part2.ts:18-20 | a closer whose opener is on top pops it; any other character is pushed |
| `Brackets.NonBracketIgnored` | Assignment_1/src/part2/part2.ts:25 | inserting a non-bracket character anywhere never changes the verdict |
| `Brackets.SameBracketsSameAnswer` | Assignment_1/src/part2/part2.ts:22-28 | strings with the same brackets in the same order get the same verdict |
| `Brackets.ClosersStay` | Assignment_1/src/part2/part2.ts:18-20 | once a closer is pushed, it and everything below it stay to the end of the fold |
| `Brackets.StackWithCloserNeverEmpties` | Assignment_1/src/part2/part2.ts:26-27 | a stack holding a closer never empties |
| `Brackets.CloserFirstNotPaired` | Assignment_1/src/part2/part2.ts:22-28 | a string whose first bracket is a closer is not paired |
| `Brackets.CloseOpenNotPaired` | Assignment_1/src/part2/part2.ts:22-28 | `")("` is not paired |
| `Brackets.StepBalance` | Assignment_1/src/part2/part2.ts:18-20 | each step changes the stack's opener-minus-closer balance by that of the character consumed |
| `Brackets.FoldBalance` | Assignment_1/src/part2/part2.ts:26 | the fold keeps the balance: the final stack's balance is the start's plus the input's |
| `Brackets.PairedBalanced` | Assignment_1/src/part2/part2.ts:22-28 | a paired string has as many of each opener as of its closer |
| `Brackets.FoldEmptyIffMatches` | Assignment_1/src/part2/part2.ts:26-27 | from a stack of openers, the fold ends empty exactly when the fail-fast textbook matcher accepts |
| `Brackets.IsPairedIffMatches` | Assignment_1/src/part2/part2.ts:22-28 | `isPaired` accepts exactly the strings whose brackets the textbook matcher accepts |
| `Brackets.Examples` | Assignment_1/src/part2/part2.ts:22-28 | `"([]{})"` is paired; `"(]"` and `"(("` are not |
| `WordTrees.LeafSentence` | Assignment_1/src/part2/part2.ts:36-37 | a leaf's sentence is its root word |
| `WordTrees.SentenceIsPreOrder` | Assignment_1/src/part2/part2.ts:36-37 | the sentence is the pre-order list of root words joined by single spaces |
| `WordTrees.SentencesArePreOrder` | Assignment_1/src/part2/part2.ts:37 | the children's sentences, joined, are their pre-order roots joined |
| `WordTrees.PreOrderLength` | Assignment_1/src/part2/part2.ts:31-34 | the pre-order list has one word per node |
| `WordTrees.SplitSentence` | Assignment_1/src/part2/part2.ts:36-37 | when no root contains a space, splitting the sentence at spaces gives back the roots in pre-order, one per node |
| `WordTrees.Example` | Assignment_1/src/part2/part2.ts:36-37 | `hello` with child `world` reads `"hello world"` |

## Left out

- Parsing and unparsing are not modelled, so the models work on syntax trees. This covers:
  - the parsers and `unparseTExp`;
  - the L5 checker's printed results;
  - the text of every error message.
- The printed form the test at `L5-typecheck.test.ts:232` expects is not modelled. It expects `(union boolean (union number string))`, a nested form, from a union the tests at lines 183-192 build flat. `L5Examples.TestedNestedIf` states the flat union.
- `makeUnionTE` itself lives in `TExp.ts`, which is not part of this model. `Unions.MakeUnion` follows the contract the tests fix: members flattened, deduplicated, sorted and collapsed when single. Only boolean < number < string is pinned by the tests. No union test contains void: its place after string follows from ordering atomic types by printed form, and is not confirmed by any test. The order among type variables, procedure types and atomic types is a fixed but arbitrary one.
- Type variables are compared by name. The source compares them with `equals`, and `eqTVar` object identity plays no role in the checker.
- The final `Incompatible types` fallback of `checkCompatibleType` (`L5-typecheck.ts:31-34`) is modelled as a plain failure. Its `unparse` calls only build the message.
- The unknown-form fallback of `typeofExp` (line 96) is modelled as the `LitExp` case, a quoted literal, with the error kind `UnknownForm`. The tests that use quoted literals are skipped, and so is the test of type predicates and `eq?` on generic procedures.
- JavaScript crashes are modelled as failures, not exceptions:
  - `exp.body[0]` of an empty lambda body (`q4.ts:28`) fails;
  - `rands[0]` of `not`, `number?` or `boolean?` called without operands (`q4.ts:50-52`) fails.
- In `q3.ts`, a `cond` with no clauses makes `rewriteCond` crash on `first([]).test`. The model instead requires every cond to have a clause (`WellFormed`) on `RewriteCond`, `RewriteAllCondCExp` and `L31ToL3`. This is an assumption about the parser's output: the L31 parser is not part of this model, so the crash on a clause-free cond is left unmodelled.
- The failure branch of `L31ToL3` (`q3.ts:18-19`) is unreachable for typed syntax trees and is not modelled.
- Numbers are integers. JavaScript's `toString` of non-integers and of exponent forms is not modelled.
- Quoted literals keep their datum as text and are not translated; `q4.ts` has no template for them.
- Letters.CountLetters: counts Unicode scalar values, while `R.split("")` in `part2.ts:3` splits into UTF-16 code units. A character outside the Basic Multilingual Plane, such as U+1F600, is one key counted once in the model, but two surrogate keys counted once each in the source. `Letters.CountsSumToNonSpaces` therefore counts scalar values, not code units.
- `Letters.ToLower` lower-cases ASCII letters only. Ramda's `toLower` follows Unicode. The count object is a map from characters to counts, not a JavaScript object.
- `Assignment_4/part2` (asynchronous code) is outside the modelled core.

## Findings

| source | as written | input that shows it | evidently intended | confidence | as-written member | corrected member |
|---|---|---|---|---|---|---|
| Assignment_4/part3/src/L5/L5-typecheck.ts:260-261 | `typeofDefine` types the value but never compares its type with the declared type | `(define (x : boolean) 5)` is accepted as void | the rule in the comment at lines 254-259: the value's type must fit the declaration | not executed; high | `L5Typecheck.TypeofDefine`, `L5Programs.DefineIgnoresDeclaredType` | `L5Programs.TypeofDefineChecked`, `L5Programs.DefineCheckedRejectsMismatch` |
| Assignment_4/part3/src/L5/L5-typecheck.ts:269-270 | `typeofProgram` types every form in the original environment, so defines never reach later forms | `(L5 (define (x : number) 5) x)` fails with x unbound | thread the environment through the program, as the TODO at line 252 says | not executed; high | `L5Typecheck.TypeofProgram`, `L5Programs.ProgramForgetsDefines` | `L5Programs.TypeofProgramThreaded`, `L5Programs.ThreadedProgramSeesDefine` |
| Assignment_2/src/q3.ts:38 | a let keeps its bindings as they are, so a cond inside a binding's value is not rewritten | `(let ((x (cond (#t 1) (else 2)))) x)` comes out unchanged, cond included, which is not L3 | rewrite the binding values too, so that no cond survives | not executed; high | `CondToIf.L31ToL3`, `CondToIf.LetValueCondSurvives` | `CondToIf.L31ToL3Fixed`, `CondToIf.RewriteAllCondFixed` |
