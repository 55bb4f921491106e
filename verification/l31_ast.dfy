/**
 * The L31 abstract syntax (L31-ast.ts is not part of this model): L3
 * extended with `cond`. L3 is the same grammar without `cond`; the L2
 * subset the Python transpiler accepts is L3 without `let` and quoted
 * literals.
 */
module L31Ast {

  datatype VarDecl = VarDecl(name: string)

  datatype Binding = Binding(decl: VarDecl, val: CExp)

  /** One `(test then)` clause of a cond. */
  datatype CondClause = CondClause(test: CExp, conseq: CExp)

  datatype CExp =
    | NumExp(num: int)
    | BoolExp(boolVal: bool)
    | StrExp(str: string)
    | PrimOp(op: string)
    | VarRef(name: string)
      /** A quoted literal; its datum is kept as printed text. */
    | LitExp(datum: string)
    | IfExp(test: CExp, conseq: CExp, alt: CExp)
    | AppExp(rator: CExp, rands: seq<CExp>)
    | ProcExp(args: seq<VarDecl>, body: seq<CExp>)
    | LetExp(bindings: seq<Binding>, body: seq<CExp>)
      /** `(cond clause ... (else alt))` */
    | CondExp(clauses: seq<CondClause>, elseAlt: CExp)
  {
    predicate IsAtomic() {
      NumExp? || BoolExp? || StrExp? || PrimOp? || VarRef?
    }
  }

  /** A top-level form: a define or an expression. */
  datatype Exp = DefineExp(decl: VarDecl, val: CExp) | CExpForm(cexp: CExp)

  datatype Program = Program(exps: seq<Exp>)

  datatype Parsed = ParsedExp(exp: Exp) | ParsedProgram(program: Program)

  // ---------------------------------------------------------------------
  // Size
  // ---------------------------------------------------------------------

  function Size(e: CExp): nat
  {
    match e
    case IfExp(test, conseq, alt) => 1 + Size(test) + Size(conseq) + Size(alt)
    case AppExp(rator, rands) => 1 + Size(rator) + SizeSeq(rands)
    case ProcExp(_, body) => 1 + SizeSeq(body)
    case LetExp(bs, body) => 1 + BindingsSize(bs) + SizeSeq(body)
    case CondExp(cls, alt) => 2 + ClausesSize(cls) + Size(alt)
    case _ => 1
  }

  function SizeSeq(es: seq<CExp>): nat
  {
    if |es| == 0 then 0 else Size(es[0]) + SizeSeq(es[1..])
  }

  function BindingSize(b: Binding): nat
  {
    1 + Size(b.val)
  }

  function BindingsSize(bs: seq<Binding>): nat
  {
    if |bs| == 0 then 0 else BindingSize(bs[0]) + BindingsSize(bs[1..])
  }

  function ClauseSize(c: CondClause): nat
  {
    1 + Size(c.test) + Size(c.conseq)
  }

  function ClausesSize(cls: seq<CondClause>): nat
  {
    if |cls| == 0 then 0 else ClauseSize(cls[0]) + ClausesSize(cls[1..])
  }

  lemma {:induction false} SizeSeqBounds(es: seq<CExp>)
    ensures forall i :: 0 <= i < |es| ==> Size(es[i]) <= SizeSeq(es)
    decreases |es|
  {
    if |es| > 0 {
      SizeSeqBounds(es[1..]);
      assert forall i :: 1 <= i < |es| ==> es[i] == es[1..][i - 1];
    }
  }

  lemma {:induction false} BindingsBounds(bs: seq<Binding>)
    ensures forall i :: 0 <= i < |bs| ==> Size(bs[i].val) < BindingsSize(bs)
    decreases |bs|
  {
    if |bs| > 0 {
      BindingsBounds(bs[1..]);
      assert forall i :: 1 <= i < |bs| ==> bs[i] == bs[1..][i - 1];
    }
  }

  lemma {:induction false} ClausesBounds(cls: seq<CondClause>)
    ensures forall i :: 0 <= i < |cls| ==> Size(cls[i].test) + Size(cls[i].conseq) < ClausesSize(cls)
    decreases |cls|
  {
    if |cls| > 0 {
      ClausesBounds(cls[1..]);
      assert forall i :: 1 <= i < |cls| ==> cls[i] == cls[1..][i - 1];
    }
  }

  // ---------------------------------------------------------------------
  // Shapes
  // ---------------------------------------------------------------------

  /** Every cond has at least one clause besides its else (the rewrite reads the first one). */
  predicate WellFormed(e: CExp)
    decreases Size(e)
  {
    match e
    case IfExp(test, conseq, alt) => WellFormed(test) && WellFormed(conseq) && WellFormed(alt)
    case AppExp(rator, rands) =>
      SizeSeqBounds(rands);
      WellFormed(rator) && forall i :: 0 <= i < |rands| ==> WellFormed(rands[i])
    case ProcExp(_, body) =>
      SizeSeqBounds(body);
      forall i :: 0 <= i < |body| ==> WellFormed(body[i])
    case LetExp(bs, body) =>
      BindingsBounds(bs);
      SizeSeqBounds(body);
      && (forall i :: 0 <= i < |bs| ==> WellFormed(bs[i].val))
      && (forall i :: 0 <= i < |body| ==> WellFormed(body[i]))
    case CondExp(cls, alt) =>
      ClausesBounds(cls);
      && |cls| > 0
      && (forall i :: 0 <= i < |cls| ==> WellFormed(cls[i].test) && WellFormed(cls[i].conseq))
      && WellFormed(alt)
    case _ => true
  }

  /** An L3 expression: no cond anywhere. */
  predicate NoCond(e: CExp)
    decreases Size(e)
  {
    match e
    case IfExp(test, conseq, alt) => NoCond(test) && NoCond(conseq) && NoCond(alt)
    case AppExp(rator, rands) =>
      SizeSeqBounds(rands);
      NoCond(rator) && forall i :: 0 <= i < |rands| ==> NoCond(rands[i])
    case ProcExp(_, body) =>
      SizeSeqBounds(body);
      forall i :: 0 <= i < |body| ==> NoCond(body[i])
    case LetExp(bs, body) =>
      BindingsBounds(bs);
      SizeSeqBounds(body);
      && (forall i :: 0 <= i < |bs| ==> NoCond(bs[i].val))
      && (forall i :: 0 <= i < |body| ==> NoCond(body[i]))
    case CondExp(_, _) => false
    case _ => true
  }

  /** No cond anywhere except, possibly, inside the values of let bindings. */
  predicate NoCondOutsideLetValues(e: CExp)
    decreases Size(e)
  {
    match e
    case IfExp(test, conseq, alt) =>
      NoCondOutsideLetValues(test) && NoCondOutsideLetValues(conseq) && NoCondOutsideLetValues(alt)
    case AppExp(rator, rands) =>
      SizeSeqBounds(rands);
      NoCondOutsideLetValues(rator) && forall i :: 0 <= i < |rands| ==> NoCondOutsideLetValues(rands[i])
    case ProcExp(_, body) =>
      SizeSeqBounds(body);
      forall i :: 0 <= i < |body| ==> NoCondOutsideLetValues(body[i])
    case LetExp(_, body) =>
      SizeSeqBounds(body);
      forall i :: 0 <= i < |body| ==> NoCondOutsideLetValues(body[i])
    case CondExp(_, _) => false
    case _ => true
  }
}
