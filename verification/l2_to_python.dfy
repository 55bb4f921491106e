/**
 * The L2-to-Python transpiler of q4.ts: a fixed text template per node.
 * The input is an L3 syntax tree; forms outside L2 (let, quoted literals,
 * cond) have no template and fail. Failures carry no information (the
 * source's message is empty).
 */
module L2ToPython {
  import opened Wrappers
  import opened Strings
  import opened L31Ast

  // ---------------------------------------------------------------------
  // Number literals
  // ---------------------------------------------------------------------

  function DigitChar(d: int): char
    requires 0 <= d < 10
  {
    ('0' as int + d) as char
  }

  predicate IsDigit(c: char)
  {
    '0' <= c <= '9'
  }

  /** Decimal digits, most significant first, without leading zeros. */
  function NatToString(n: nat): (s: string)
    ensures |s| > 0 && forall i :: 0 <= i < |s| ==> IsDigit(s[i])
    ensures s[0] == '0' ==> n == 0
    decreases n
  {
    if n < 10 then [DigitChar(n)] else NatToString(n / 10) + [DigitChar(n % 10)]
  }

  /** How an integer literal prints: a minus sign for negatives, then its digits. */
  function IntToString(n: int): (s: string)
    ensures |s| > 0
    ensures n < 0 <==> s[0] == '-'
  {
    if n < 0 then "-" + NatToString(-n) else NatToString(n)
  }

  /** Reads decimal digits back (the reference the printer is checked against). */
  function ParseNat(s: string): nat
    requires forall i :: 0 <= i < |s| ==> IsDigit(s[i])
    decreases |s|
  {
    if |s| == 0 then 0 else ParseNat(s[..|s| - 1]) * 10 + DigitValue(s[|s| - 1])
  }

  function DigitValue(c: char): (d: nat)
    requires IsDigit(c)
    ensures d < 10
  {
    c as int - '0' as int
  }

  function ParseInt(s: string): int
    requires |s| > 0
    requires forall i :: 0 < i < |s| ==> IsDigit(s[i])
    requires s[0] == '-' || IsDigit(s[0])
  {
    if s[0] == '-' then -(ParseNat(s[1..]) as int) else ParseNat(s)
  }

  lemma {:induction false} NatToStringRoundTrip(n: nat)
    ensures ParseNat(NatToString(n)) == n
    decreases n
  {
    var s := NatToString(n);
    if n >= 10 {
      NatToStringRoundTrip(n / 10);
      assert s[..|s| - 1] == NatToString(n / 10);
    }
  }

  /** Printing an integer and reading it back gives the integer: the printed form is faithful. */
  lemma IntToStringRoundTrip(n: int)
    ensures ParseInt(IntToString(n)) == n
  {
    if n < 0 {
      NatToStringRoundTrip(-n);
      assert IntToString(n)[1..] == NatToString(-n);
    } else {
      NatToStringRoundTrip(n);
    }
  }

  /** Different numbers never print alike. */
  lemma IntToStringInjective(a: int, b: int)
    requires IntToString(a) == IntToString(b)
    ensures a == b
  {
    IntToStringRoundTrip(a);
    IntToStringRoundTrip(b);
  }

  // ---------------------------------------------------------------------
  // The transpiler
  // ---------------------------------------------------------------------

  /** The Python lambdas the type predicates become (written as their opening parenthesis and the rest). */
  const NumberPredPython := "(" + "lambda x : (type(x) == int) or (type(x) == float))"
  const BooleanPredPython := "(" + "lambda x : (type(x) == bool))"

  /** Entry point: one top-level form, or a whole program. */
  function L2ToPython(p: Parsed): Result<string, ()>
  {
    match p
    case ParsedProgram(prog) => ProgramToPython(prog.exps)
    case ParsedExp(e) => ExpToPython(e)
  }

  /** A program: the translations of its forms, one per line; any failure fails the whole. */
  function ProgramToPython(exps: seq<Exp>): Result<string, ()>
  {
    var lines :- ExpsToPython(exps);
    Success(Join(lines, "\n"))
  }

  function ExpsToPython(exps: seq<Exp>): (r: Result<seq<string>, ()>)
    ensures r.Success? ==> |r.value| == |exps|
  {
    if |exps| == 0 then Success([])
    else
      var h :- ExpToPython(exps[0]);
      var t :- ExpsToPython(exps[1..]);
      Success([h] + t)
  }

  /** A define becomes a Python assignment. */
  function ExpToPython(e: Exp): Result<string, ()>
  {
    match e
    case DefineExp(d, val) =>
      var v :- CExpToPython(val);
      Success(d.name + " = " + v)
    case CExpForm(c) => CExpToPython(c)
  }

  function CExpToPython(e: CExp): Result<string, ()>
    decreases Size(e), 1
  {
    match e
    case BoolExp(b) => Success(if b then "True" else "False")
    case NumExp(n) => Success(IntToString(n))
    case StrExp(s) => Success("\"" + s + "\"")
    case VarRef(v) => Success(v)
    case ProcExp(_, _) => ProcToPython(e)
    case IfExp(test, conseq, alt) => IfToPython(test, conseq, alt)
    case AppExp(_, _) => AppToPython(e)
    case PrimOp(op) => PrimOpToPython(op)
    case _ => Failure(())
  }

  function ParamNames(args: seq<VarDecl>): (r: seq<string>)
    ensures |r| == |args| && forall i :: 0 <= i < |args| ==> r[i] == args[i].name
  {
    seq(|args|, i requires 0 <= i < |args| => args[i].name)
  }

  /** A lambda: only the first body expression is translated (an empty body has none and fails). */
  function ProcToPython(e: CExp): Result<string, ()>
    requires e.ProcExp?
    decreases Size(e), 0
  {
    if |e.body| == 0 then Failure(())
    else
      SizeSeqBounds(e.body);
      var b :- CExpToPython(e.body[0]);
      Success("(lambda " + Join(ParamNames(e.args), ",") + " : " + b + ")")
  }

  /** A Python conditional expression; test, then and else are translated in that order. */
  function IfToPython(test: CExp, conseq: CExp, alt: CExp): Result<string, ()>
    decreases Size(test) + Size(conseq) + Size(alt), 2
  {
    var t :- CExpToPython(test);
    var c :- CExpToPython(conseq);
    var a :- CExpToPython(alt);
    Success("(" + c + " if " + t + " else " + a + ")")
  }

  /** A call: primitive operators have their own templates, anything else is a Python call. */
  function AppToPython(e: CExp): Result<string, ()>
    requires e.AppExp?
    decreases Size(e), 0
  {
    if e.rator.PrimOp? then AppPrimToPython(e.rator.op, e.rands)
    else
      var r :- CExpToPython(e.rator);
      var rs :- SeqToPython(e.rands);
      Success(r + "(" + Join(rs, ",") + ")")
  }

  /**
   * `not`, `number?` and `boolean?` apply to their first operand (a call
   * without operands fails); `eq?` and `=` become `==` between the
   * operands; any other operator goes between the operands as it is.
   */
  function AppPrimToPython(op: string, rands: seq<CExp>): Result<string, ()>
    decreases SizeSeq(rands), 3
  {
    if op == "not" || op == "number?" || op == "boolean?" then
      if |rands| == 0 then Failure(())
      else
        var x :- CExpToPython(rands[0]);
        if op == "not" then Success("(not " + x + ")")
        else if op == "number?" then Success(NumberPredPython + "(" + x + ")")
        else Success(BooleanPredPython + "(" + x + ")")
    else
      var xs :- SeqToPython(rands);
      if op == "eq?" || op == "=" then Success("(" + Join(xs, " == ") + ")")
      else Success("(" + Join(xs, " " + op + " ") + ")")
  }

  /** A bare primitive operator: the type predicates become lambdas, equality becomes `==`. */
  function PrimOpToPython(op: string): (r: Result<string, ()>)
    ensures r.Success?
  {
    if op == "number?" then Success(NumberPredPython)
    else if op == "boolean?" then Success(BooleanPredPython)
    else if op == "eq?" || op == "=" then Success("==")
    else Success(op)
  }

  /** Each expression in order; the first failure fails the whole. */
  function SeqToPython(es: seq<CExp>): (r: Result<seq<string>, ()>)
    ensures r.Success? ==> |r.value| == |es|
    decreases SizeSeq(es), 2
  {
    if |es| == 0 then Success([])
    else
      var h :- CExpToPython(es[0]);
      var t :- SeqToPython(es[1..]);
      Success([h] + t)
  }
}
