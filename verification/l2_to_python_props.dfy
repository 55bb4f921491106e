/**
 * What the L2-to-Python templates guarantee: exactly which trees translate,
 * how each output is assembled from its parts' outputs, and what can be
 * read back from the text (numbers, parameter lists, program lines).
 */
module L2ToPythonProps {
  import opened Wrappers
  import opened Strings
  import opened L31Ast
  import opened L2ToPython

  /** The primitive operators whose template reads only the first operand. */
  const UnaryPrims: set<string> := {"not", "number?", "boolean?"}

  /**
   * The trees the transpiler accepts, stated independently of the output:
   * no let, quoted literal or cond where the transpiler looks; every
   * lambda has a body; a unary primitive has an operand. Parts the
   * templates never read (a lambda's later body expressions, a unary
   * primitive's extra operands) may be anything.
   */
  predicate Translatable(e: CExp)
    decreases Size(e)
  {
    match e
    case LetExp(_, _) => false
    case LitExp(_) => false
    case CondExp(_, _) => false
    case ProcExp(_, body) =>
      SizeSeqBounds(body);
      |body| > 0 && Translatable(body[0])
    case IfExp(test, conseq, alt) => Translatable(test) && Translatable(conseq) && Translatable(alt)
    case AppExp(rator, rands) =>
      SizeSeqBounds(rands);
      if rator.PrimOp? && rator.op in UnaryPrims then |rands| > 0 && Translatable(rands[0])
      else (!rator.PrimOp? ==> Translatable(rator)) && forall i :: 0 <= i < |rands| ==> Translatable(rands[i])
    case _ => true
  }

  predicate TranslatableForm(e: Exp)
  {
    match e
    case DefineExp(_, val) => Translatable(val)
    case CExpForm(c) => Translatable(c)
  }

  /** The transpiler succeeds on exactly the translatable trees. */
  lemma {:induction false} TranslatableIff(e: CExp)
    ensures CExpToPython(e).Success? <==> Translatable(e)
    decreases Size(e), 0
  {
    match e
    case ProcExp(_, body) =>
      SizeSeqBounds(body);
      if |body| > 0 {
        TranslatableIff(body[0]);
      }
    case IfExp(test, conseq, alt) =>
      TranslatableIff(test);
      TranslatableIff(conseq);
      TranslatableIff(alt);
    case AppExp(rator, rands) =>
      SizeSeqBounds(rands);
      assert CExpToPython(e) == AppToPython(e);
      if rator.PrimOp? && rator.op in UnaryPrims {
        assert AppToPython(e) == AppPrimToPython(rator.op, rands);
        if |rands| > 0 {
          TranslatableIff(rands[0]);
        }
      } else {
        if rator.PrimOp? {
          assert AppToPython(e) == AppPrimToPython(rator.op, rands);
        } else {
          TranslatableIff(rator);
        }
        SeqTranslatableIff(rands);
      }
    case _ =>
  }

  lemma {:induction false} SeqTranslatableIff(es: seq<CExp>)
    ensures SeqToPython(es).Success? <==> forall i :: 0 <= i < |es| ==> Translatable(es[i])
    decreases SizeSeq(es), 1
  {
    if |es| > 0 {
      TranslatableIff(es[0]);
      SeqTranslatableIff(es[1..]);
      assert forall i :: 1 <= i < |es| ==> es[i] == es[1..][i - 1];
    }
  }

  /** A sequence translates element by element, in order. */
  lemma {:induction false} SeqElementwise(es: seq<CExp>)
    requires SeqToPython(es).Success?
    ensures forall i :: 0 <= i < |es| ==>
      CExpToPython(es[i]).Success? && SeqToPython(es).value[i] == CExpToPython(es[i]).value
    decreases |es|
  {
    if |es| > 0 {
      SeqElementwise(es[1..]);
      assert forall i :: 1 <= i < |es| ==> es[i] == es[1..][i - 1];
    }
  }

  /** The forms of a program translate one by one; the program fails when any of them fails. */
  lemma {:induction false} ExpsElementwise(exps: seq<Exp>)
    ensures ExpsToPython(exps).Success? <==> forall i :: 0 <= i < |exps| ==> ExpToPython(exps[i]).Success?
    ensures ExpsToPython(exps).Success? ==>
      forall i :: 0 <= i < |exps| ==> ExpsToPython(exps).value[i] == ExpToPython(exps[i]).value
    decreases |exps|
  {
    if |exps| > 0 {
      ExpsElementwise(exps[1..]);
      assert forall i :: 1 <= i < |exps| ==> exps[i] == exps[1..][i - 1];
    }
  }

  /** A program translates exactly when each of its forms is translatable. */
  lemma ProgramTranslatableIff(exps: seq<Exp>)
    ensures ProgramToPython(exps).Success? <==> forall i :: 0 <= i < |exps| ==> TranslatableForm(exps[i])
  {
    ExpsElementwise(exps);
    forall i | 0 <= i < |exps|
      ensures ExpToPython(exps[i]).Success? <==> TranslatableForm(exps[i])
    {
      match exps[i]
      case DefineExp(_, val) => TranslatableIff(val);
      case CExpForm(c) => TranslatableIff(c);
    }
  }

  /**
   * A program is one line per form: splitting its output at line breaks
   * gives back each form's output, provided no single form's output
   * contains a line break (a string literal can).
   */
  lemma ProgramLines(exps: seq<Exp>)
    requires |exps| > 0
    requires forall i :: 0 <= i < |exps| ==> ExpToPython(exps[i]).Success? && '\n' !in ExpToPython(exps[i]).value
    ensures ProgramToPython(exps).Success?
    ensures |Split(ProgramToPython(exps).value, '\n')| == |exps|
    ensures forall i :: 0 <= i < |exps| ==> Split(ProgramToPython(exps).value, '\n')[i] == ExpToPython(exps[i]).value
  {
    ExpsElementwise(exps);
    var lines := ExpsToPython(exps).value;
    SplitJoin(lines, '\n');
  }

  // ---------------------------------------------------------------------
  // The templates, each in terms of its parts' translations
  // ---------------------------------------------------------------------

  /** One step of unfolding for calls. */
  lemma AppUnfold(rator: CExp, rands: seq<CExp>)
    ensures CExpToPython(AppExp(rator, rands)) == AppToPython(AppExp(rator, rands))
    ensures rator.PrimOp? ==> AppToPython(AppExp(rator, rands)) == AppPrimToPython(rator.op, rands)
  {
  }

  /** One expression translated. */
  lemma SeqOfOne(a: CExp)
    requires CExpToPython(a).Success?
    ensures SeqToPython([a]) == Success([CExpToPython(a).value])
  {
    var es := [a];
    assert es[1..] == [];
    assert SeqToPython(es[1..]) == Success([]);
    var r := SeqToPython(es);
    assert r.Success? && r.value == [CExpToPython(a).value];
  }

  /** Two expressions translated in order. */
  lemma SeqOfTwo(a: CExp, b: CExp)
    requires CExpToPython(a).Success? && CExpToPython(b).Success?
    ensures SeqToPython([a, b]) == Success([CExpToPython(a).value, CExpToPython(b).value])
  {
    var es := [a, b];
    SeqOfOne(b);
    assert es[1..] == [b];
    assert SeqToPython(es[1..]) == Success([CExpToPython(b).value]);
    assert CExpToPython(es[0]).Success?;
    var r := SeqToPython(es);
    assert r.Success? && r.value == [CExpToPython(a).value, CExpToPython(b).value];
  }

  /** Literals and names: booleans as Python's, strings quoted with no escaping, names as they are. */
  lemma AtomRendering(b: bool, s: string, v: string, n: int)
    ensures CExpToPython(BoolExp(b)) == Success(if b then "True" else "False")
    ensures CExpToPython(StrExp(s)) == Success(['"'] + s + ['"'])
    ensures CExpToPython(VarRef(v)) == Success(v)
    ensures CExpToPython(NumExp(n)).Success? && ParseInt(CExpToPython(NumExp(n)).value) == n
  {
    IntToStringRoundTrip(n);
  }

  /** A string literal's quotes are kept as they are, so one containing `"` yields more than two quotes. */
  lemma StringsNotEscaped()
    ensures CExpToPython(StrExp("a\"b")) == Success("\"a\"b\"")
  {
    assert CExpToPython(StrExp("a\"b")).value == "\"a\"b\"";
  }

  /** A lambda is its parameters, comma-separated, and the translation of its first body expression. */
  lemma ProcRendering(args: seq<VarDecl>, body: seq<CExp>)
    ensures CExpToPython(ProcExp(args, body)).Success? <==> |body| > 0 && CExpToPython(body[0]).Success?
    ensures CExpToPython(ProcExp(args, body)).Success? ==>
      CExpToPython(ProcExp(args, body)).value
      == "(lambda " + Join(ParamNames(args), ",") + " : " + CExpToPython(body[0]).value + ")"
  {
  }

  /** Body expressions after the first do not affect the translation. */
  lemma ProcUsesFirstBodyOnly(args: seq<VarDecl>, body: seq<CExp>, rest: seq<CExp>)
    requires |body| > 0
    ensures CExpToPython(ProcExp(args, body + rest)) == CExpToPython(ProcExp(args, body[..1]))
  {
    assert (body + rest)[0] == body[..1][0];
  }

  /** The parameter list of a lambda can be read back, when names are non-empty and comma-free. */
  lemma ProcParamsRecoverable(args: seq<VarDecl>)
    requires |args| > 0
    requires forall i :: 0 <= i < |args| ==> ',' !in args[i].name
    ensures Split(Join(ParamNames(args), ","), ',') == ParamNames(args)
  {
    SplitJoin(ParamNames(args), ',');
  }

  /** An `if` is a Python conditional expression: then-branch, test, else-branch. */
  lemma IfRendering(test: CExp, conseq: CExp, alt: CExp)
    ensures CExpToPython(IfExp(test, conseq, alt)).Success? <==>
      CExpToPython(test).Success? && CExpToPython(conseq).Success? && CExpToPython(alt).Success?
    ensures CExpToPython(IfExp(test, conseq, alt)).Success? ==>
      CExpToPython(IfExp(test, conseq, alt)).value
      == "(" + CExpToPython(conseq).value + " if " + CExpToPython(test).value + " else " + CExpToPython(alt).value + ")"
  {
  }

  /** A call of anything but a primitive is a Python call with comma-separated arguments. */
  lemma AppRendering(rator: CExp, rands: seq<CExp>)
    requires !rator.PrimOp?
    ensures CExpToPython(AppExp(rator, rands)).Success? <==>
      CExpToPython(rator).Success? && SeqToPython(rands).Success?
    ensures CExpToPython(AppExp(rator, rands)).Success? ==>
      CExpToPython(AppExp(rator, rands)).value
      == CExpToPython(rator).value + "(" + Join(SeqToPython(rands).value, ",") + ")"
  {
    AppUnfold(rator, rands);
  }

  /** `not`, `number?` and `boolean?` wrap the first operand; others go unread. */
  lemma UnaryPrimRendering(op: string, rands: seq<CExp>)
    requires op in UnaryPrims
    ensures CExpToPython(AppExp(PrimOp(op), rands)).Success? <==> |rands| > 0 && CExpToPython(rands[0]).Success?
    ensures CExpToPython(AppExp(PrimOp(op), rands)).Success? ==>
      var x := CExpToPython(rands[0]).value;
      CExpToPython(AppExp(PrimOp(op), rands)).value
      == (if op == "not" then "(not " + x + ")"
          else if op == "number?" then NumberPredPython + "(" + x + ")"
          else BooleanPredPython + "(" + x + ")")
  {
    AppUnfold(PrimOp(op), rands);
  }

  /** Any other primitive goes between the operands, `eq?` and `=` as Python's `==`. */
  lemma InfixPrimRendering(op: string, rands: seq<CExp>)
    requires op !in UnaryPrims
    ensures CExpToPython(AppExp(PrimOp(op), rands)).Success? <==> SeqToPython(rands).Success?
    ensures CExpToPython(AppExp(PrimOp(op), rands)).Success? ==>
      CExpToPython(AppExp(PrimOp(op), rands)).value
      == "(" + Join(SeqToPython(rands).value, if op == "eq?" || op == "=" then " == " else " " + op + " ") + ")"
  {
    AppUnfold(PrimOp(op), rands);
  }

  /** A bare primitive always translates: the type predicates to lambdas, equality to `==`, the rest as named. */
  lemma PrimOpRendering(op: string)
    ensures CExpToPython(PrimOp(op)).Success?
    ensures op == "eq?" || op == "=" ==> CExpToPython(PrimOp(op)).value == "=="
    ensures op == "number?" ==> CExpToPython(PrimOp(op)).value == NumberPredPython
    ensures op == "boolean?" ==> CExpToPython(PrimOp(op)).value == BooleanPredPython
    ensures op !in {"eq?", "=", "number?", "boolean?"} ==> CExpToPython(PrimOp(op)).value == op
  {
  }

  /** A define is a Python assignment of the value's translation. */
  lemma DefineRendering(d: VarDecl, val: CExp)
    ensures ExpToPython(DefineExp(d, val)).Success? <==> CExpToPython(val).Success?
    ensures ExpToPython(DefineExp(d, val)).Success? ==>
      ExpToPython(DefineExp(d, val)).value == d.name + " = " + CExpToPython(val).value
  {
  }

  predicate Parenthesised(s: string)
  {
    |s| >= 2 && s[0] == '(' && s[|s| - 1] == ')'
  }

  /** The two type-predicate templates open with a parenthesis. */
  lemma PredicateTemplatesOpen()
    ensures NumberPredPython[0] == '(' && BooleanPredPython[0] == '('
  {
  }

  /**
   * Lambdas, conditionals and primitive applications come out wrapped in
   * parentheses: the text opens with `(` and closes with `)`.
   */
  lemma CompoundsParenthesised(e: CExp)
    requires e.ProcExp? || e.IfExp? || (e.AppExp? && e.rator.PrimOp?)
    requires CExpToPython(e).Success?
    ensures Parenthesised(CExpToPython(e).value)
  {
    if e.AppExp? {
      if e.rator.op in UnaryPrims {
        UnaryPrimRendering(e.rator.op, e.rands);
        PredicateTemplatesOpen();
      } else {
        InfixPrimRendering(e.rator.op, e.rands);
      }
    } else if e.ProcExp? {
      ProcRendering(e.args, e.body);
    } else {
      IfRendering(e.test, e.conseq, e.alt);
    }
  }

  // ---------------------------------------------------------------------
  // Whole examples
  // ---------------------------------------------------------------------

  /** An infix primitive applied to two variables: the operator between the names, in parentheses. */
  lemma InfixOfVars(op: string, a: string, b: string)
    requires op !in UnaryPrims && op != "eq?" && op != "="
    ensures CExpToPython(AppExp(PrimOp(op), [VarRef(a), VarRef(b)])) == Success("(" + a + " " + op + " " + b + ")")
  {
    var rands := [VarRef(a), VarRef(b)];
    assert CExpToPython(VarRef(a)) == Success(a);
    assert CExpToPython(VarRef(b)) == Success(b);
    SeqOfTwo(VarRef(a), VarRef(b));
    assert SeqToPython(rands).Success? && SeqToPython(rands).value == [a, b];
    InfixPrimRendering(op, rands);
    var sep := " " + op + " ";
    var r := CExpToPython(AppExp(PrimOp(op), rands));
    assert r.Success?;
    assert r.value == "(" + Join([a, b], sep) + ")";
    assert [a, b][1..] == [b];
    assert Join([a, b], sep) == a + sep + b;
    assert r.value == "(" + a + " " + op + " " + b + ")";
  }

  /** A lambda over two parameters whose body applies an infix primitive to them. */
  lemma BinaryLambda(op: string, a: string, b: string)
    requires op !in UnaryPrims && op != "eq?" && op != "="
    ensures CExpToPython(ProcExp([VarDecl(a), VarDecl(b)], [AppExp(PrimOp(op), [VarRef(a), VarRef(b)])]))
         == Success("(lambda " + a + "," + b + " : " + "(" + a + " " + op + " " + b + ")" + ")")
  {
    var args := [VarDecl(a), VarDecl(b)];
    var body := AppExp(PrimOp(op), [VarRef(a), VarRef(b)]);
    InfixOfVars(op, a, b);
    var inner := "(" + a + " " + op + " " + b + ")";
    assert CExpToPython([body][0]) == Success(inner);
    assert ParamNames(args) == [a, b];
    assert [a, b][1..] == [b];
    assert Join([a, b], ",") == a + "," + b;
    ProcRendering(args, [body]);
    var r := CExpToPython(ProcExp(args, [body]));
    assert r.Success?;
    assert r.value == "(lambda " + (a + "," + b) + " : " + inner + ")";
    assert r.value == "(lambda " + a + "," + b + " : " + "(" + a + " " + op + " " + b + ")" + ")";
  }

  /** A lambda over one parameter whose body applies an infix primitive to it twice. */
  lemma UnaryLambda(op: string, a: string)
    requires op !in UnaryPrims && op != "eq?" && op != "="
    ensures CExpToPython(ProcExp([VarDecl(a)], [AppExp(PrimOp(op), [VarRef(a), VarRef(a)])]))
         == Success("(lambda " + a + " : " + "(" + a + " " + op + " " + a + ")" + ")")
  {
    var args := [VarDecl(a)];
    var body := AppExp(PrimOp(op), [VarRef(a), VarRef(a)]);
    InfixOfVars(op, a, a);
    var inner := "(" + a + " " + op + " " + a + ")";
    assert CExpToPython([body][0]) == Success(inner);
    assert ParamNames(args) == [a];
    assert Join([a], ",") == a;
    ProcRendering(args, [body]);
    var r := CExpToPython(ProcExp(args, [body]));
    assert r.Success?;
    assert r.value == "(lambda " + a + " : " + inner + ")";
    assert r.value == "(lambda " + a + " : " + "(" + a + " " + op + " " + a + ")" + ")";
  }

  /** `(lambda (x y) (+ x y))` */
  lemma LambdaExample()
    ensures CExpToPython(ProcExp([VarDecl("x"), VarDecl("y")], [AppExp(PrimOp("+"), [VarRef("x"), VarRef("y")])]))
         == Success("(lambda x,y : (x + y))")
  {
    BinaryLambda("+", "x", "y");
    LambdaExampleText();
  }

  lemma LambdaExampleText()
    ensures "(lambda " + "x" + "," + "y" + " : " + "(" + "x" + " " + "+" + " " + "y" + ")" + ")" == "(lambda x,y : (x + y))"
  {
  }

  /** `(= x 1)` */
  lemma EqualityExample()
    ensures CExpToPython(AppExp(PrimOp("="), [VarRef("x"), NumExp(1)])) == Success("(x == 1)")
  {
    var rands := [VarRef("x"), NumExp(1)];
    assert IntToString(1) == "1";
    SeqOfTwo(VarRef("x"), NumExp(1));
    InfixPrimRendering("=", rands);
    assert Join(["x", "1"], " == ") == "x == 1";
    var e := AppExp(PrimOp("="), rands);
    assert CExpToPython(e).Success?;
    assert CExpToPython(e).value == "(" + "x == 1" + ")";
    assert CExpToPython(e).value == "(x == 1)";
  }

  /** `(if (= x 1) #t "no")` */
  lemma IfExample()
    ensures CExpToPython(IfExp(AppExp(PrimOp("="), [VarRef("x"), NumExp(1)]), BoolExp(true), StrExp("no")))
         == Success("(True if (x == 1) else \"no\")")
  {
    var test := AppExp(PrimOp("="), [VarRef("x"), NumExp(1)]);
    EqualityExample();
    assert CExpToPython(StrExp("no")).value == "\"no\"";
    IfRendering(test, BoolExp(true), StrExp("no"));
    var e := IfExp(test, BoolExp(true), StrExp("no"));
    assert CExpToPython(e).Success?;
    IfExampleText();
  }

  lemma IfExampleText()
    ensures "(" + "True" + " if " + "(x == 1)" + " else " + "\"no\"" + ")" == "(True if (x == 1) else \"no\")"
  {
  }

  /** `(lambda (x) (* x x))` */
  function SquareLambda(): CExp
  {
    ProcExp([VarDecl("x")], [AppExp(PrimOp("*"), [VarRef("x"), VarRef("x")])])
  }

  lemma SquareLambdaExample()
    ensures CExpToPython(SquareLambda()) == Success("(lambda x : (x * x))")
  {
    UnaryLambda("*", "x");
    SquareLambdaText();
  }

  lemma SquareLambdaText()
    ensures "(lambda " + "x" + " : " + "(" + "x" + " " + "*" + " " + "x" + ")" + ")" == "(lambda x : (x * x))"
  {
  }

  /** `(f 3)` */
  lemma CallExample()
    ensures ExpToPython(CExpForm(AppExp(VarRef("f"), [NumExp(3)]))) == Success("f(3)")
  {
    assert IntToString(3) == "3";
    SeqOfOne(NumExp(3));
    AppRendering(VarRef("f"), [NumExp(3)]);
    assert Join(["3"], ",") == "3";
    var e := CExpForm(AppExp(VarRef("f"), [NumExp(3)]));
    assert ExpToPython(e).Success?;
    assert ExpToPython(e).value == "f" + "(" + "3" + ")";
    assert ExpToPython(e).value == "f(3)";
  }

  /** A program of two forms is their two lines. */
  lemma ProgramOfTwo(a: Exp, b: Exp)
    requires ExpToPython(a).Success? && ExpToPython(b).Success?
    ensures ProgramToPython([a, b]) == Success(ExpToPython(a).value + "\n" + ExpToPython(b).value)
  {
    var exps := [a, b];
    ExpsElementwise(exps);
    var lines := ExpsToPython(exps).value;
    assert lines == [ExpToPython(a).value, ExpToPython(b).value];
    assert lines[1..] == [ExpToPython(b).value];
    assert Join(lines[1..], "\n") == ExpToPython(b).value;
    assert Join(lines, "\n") == lines[0] + "\n" + Join(lines[1..], "\n");
    assert ProgramToPython(exps).Success? && ProgramToPython(exps).value == Join(lines, "\n");
  }

  /** Defining `f` and then calling it on one argument gives the assignment line and the call line. */
  lemma DefineThenCall(f: string, val: CExp, arg: CExp)
    requires CExpToPython(val).Success? && CExpToPython(arg).Success?
    ensures ProgramToPython([DefineExp(VarDecl(f), val), CExpForm(AppExp(VarRef(f), [arg]))])
         == Success(f + " = " + CExpToPython(val).value + "\n" + f + "(" + CExpToPython(arg).value + ")")
  {
    var define := DefineExp(VarDecl(f), val);
    var call := CExpForm(AppExp(VarRef(f), [arg]));
    var x := CExpToPython(arg).value;
    DefineRendering(VarDecl(f), val);
    SeqOfOne(arg);
    assert CExpToPython(VarRef(f)) == Success(f);
    AppRendering(VarRef(f), [arg]);
    assert Join([x], ",") == x;
    assert ExpToPython(call).Success? && ExpToPython(call).value == f + "(" + x + ")";
    ProgramOfTwo(define, call);
    assert ProgramToPython([define, call]).value == (f + " = " + CExpToPython(val).value) + "\n" + (f + "(" + x + ")");
    assert ProgramToPython([define, call]).value == f + " = " + CExpToPython(val).value + "\n" + f + "(" + x + ")";
  }

  /** `(define f (lambda (x) (* x x))) (f 3)` is two lines. */
  lemma ProgramExample()
    ensures ProgramToPython([DefineExp(VarDecl("f"), SquareLambda()), CExpForm(AppExp(VarRef("f"), [NumExp(3)]))])
         == Success("f = (lambda x : (x * x))" + "\n" + "f(3)")
  {
    SquareLambdaExample();
    assert CExpToPython(NumExp(3)) == Success("3");
    DefineThenCall("f", SquareLambda(), NumExp(3));
    ProgramExampleText();
  }

  lemma ProgramExampleText()
    ensures "f" + " = " + "(lambda x : (x * x))" + "\n" + "f" + "(" + "3" + ")" == "f = (lambda x : (x * x))" + "\n" + "f(3)"
  {
  }

  /** `let` is outside L2 and has no translation. */
  lemma LetNotTranslated(bs: seq<Binding>, body: seq<CExp>)
    ensures CExpToPython(LetExp(bs, body)).Failure?
  {
  }
}
