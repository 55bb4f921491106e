/**
 * The fully annotated L5 abstract syntax the type checker consumes
 * (L5-ast.ts is not part of this model; the parser that builds these
 * values is left out). Every binding site carries its declared type.
 */
module L5Ast {
  import opened TExps

  datatype VarDecl = VarDecl(name: string, texp: TExp)

  datatype Binding = Binding(decl: VarDecl, val: Exp)

  datatype Exp =
    | NumExp(num: int)
    | BoolExp(boolVal: bool)
    | StrExp(str: string)
    | PrimOp(op: string)
    | VarRef(name: string)
    | IfExp(test: Exp, conseq: Exp, alt: Exp)
    | ProcExp(args: seq<VarDecl>, body: seq<Exp>, returnTE: TExp)
    | AppExp(rator: Exp, rands: seq<Exp>)
    | LetExp(bindings: seq<Binding>, body: seq<Exp>)
    | LetrecExp(bindings: seq<Binding>, body: seq<Exp>)
    | DefineExp(decl: VarDecl, val: Exp)
      /** A quoted literal: a form the checker has no rule for. */
    | LitExp(datum: string)

  datatype Program = Program(exps: seq<Exp>)

  /** What the checker's entry point accepts: an expression or a whole program. */
  datatype Parsed = ParsedExp(exp: Exp) | ParsedProgram(program: Program)

  function DeclNames(ds: seq<VarDecl>): (r: seq<string>)
    ensures |r| == |ds| && forall i :: 0 <= i < |ds| ==> r[i] == ds[i].name
  {
    seq(|ds|, i requires 0 <= i < |ds| => ds[i].name)
  }

  function DeclTExps(ds: seq<VarDecl>): (r: seq<TExp>)
    ensures |r| == |ds| && forall i :: 0 <= i < |ds| ==> r[i] == ds[i].texp
  {
    seq(|ds|, i requires 0 <= i < |ds| => ds[i].texp)
  }

  function BindingDecls(bs: seq<Binding>): (r: seq<VarDecl>)
    ensures |r| == |bs| && forall i :: 0 <= i < |bs| ==> r[i] == bs[i].decl
  {
    seq(|bs|, i requires 0 <= i < |bs| => bs[i].decl)
  }

  // ---------------------------------------------------------------------
  // Size: the termination measure for the checker's recursion
  // ---------------------------------------------------------------------

  function ExpSize(e: Exp): nat
  {
    match e
    case IfExp(test, conseq, alt) => 1 + ExpSize(test) + ExpSize(conseq) + ExpSize(alt)
    case ProcExp(_, body, _) => 1 + ExpsSize(body)
    case AppExp(rator, rands) => 1 + ExpSize(rator) + ExpsSize(rands)
    case LetExp(bs, body) => 1 + BindingsSize(bs) + ExpsSize(body)
    case LetrecExp(bs, body) => 1 + BindingsSize(bs) + ExpsSize(body)
    case DefineExp(_, val) => 1 + ExpSize(val)
    case _ => 1
  }

  function ExpsSize(es: seq<Exp>): nat
  {
    if |es| == 0 then 0 else ExpSize(es[0]) + ExpsSize(es[1..])
  }

  function BindingSize(b: Binding): nat
  {
    1 + ExpSize(b.val)
  }

  function BindingsSize(bs: seq<Binding>): nat
  {
    if |bs| == 0 then 0 else BindingSize(bs[0]) + BindingsSize(bs[1..])
  }
}
