/**
 * The cond-to-if desugaring of q3.ts, from L31 to L3: every
 * `(cond (t1 e1) ... (tn en) (else a))` becomes the right-nested chain
 * `(if t1 e1 (if t2 e2 ... (if tn en a)))`.
 *
 * As written, the rewrite leaves the values of `let` bindings untouched,
 * so a cond there survives into the "L3" output. `RewriteAllCondCExp`
 * and `L31ToL3` model the code as written; `RewriteAllCondFixed` and
 * `L31ToL3Fixed` also rewrite binding values and always produce L3.
 */
module CondToIf {
  import opened Wrappers
  import opened L31Ast

  /** Every expression of a parse result has only conds with at least one clause. */
  predicate ParsedWellFormed(p: Parsed)
  {
    match p
    case ParsedExp(e) => ExpWellFormed(e)
    case ParsedProgram(prog) => forall i :: 0 <= i < |prog.exps| ==> ExpWellFormed(prog.exps[i])
  }

  predicate ExpWellFormed(e: Exp)
  {
    match e
    case DefineExp(_, val) => WellFormed(val)
    case CExpForm(c) => WellFormed(c)
  }

  // ---------------------------------------------------------------------
  // rewriteCond
  // ---------------------------------------------------------------------

  /** One cond node to its chain of ifs; the sub-expressions are not rewritten here. */
  function RewriteCond(e: CExp): (r: CExp)
    requires e.CondExp? && |e.clauses| > 0
    ensures r.IfExp? && r.test == e.clauses[0].test && r.conseq == e.clauses[0].conseq
    ensures Size(r) + 2 == Size(e)
    ensures WellFormed(e) ==> WellFormed(r)
    decreases |e.clauses|
  {
    var c := e.clauses[0];
    assert ClausesSize(e.clauses) == ClauseSize(c) + ClausesSize(e.clauses[1..]);
    if |e.clauses| == 1 then IfExp(c.test, c.conseq, e.elseAlt)
    else
      var rest := CondExp(e.clauses[1..], e.elseAlt);
      assert WellFormed(e) ==> WellFormed(rest) by {
        if WellFormed(e) {
          assert forall i :: 0 <= i < |rest.clauses| ==> rest.clauses[i] == e.clauses[i + 1];
        }
      }
      IfExp(c.test, c.conseq, RewriteCond(rest))
  }

  /** The `k`-th else-branch down a chain of ifs (stops early at a non-if). */
  function AltChain(e: CExp, k: nat): CExp
  {
    if k == 0 || !e.IfExp? then e else AltChain(e.alt, k - 1)
  }

  /**
   * The chain `RewriteCond` builds for n clauses: its k-th link (k < n) is
   * the if of clause k, and the else expression sits n links down.
   */
  lemma {:induction false} RewriteCondChain(e: CExp)
    requires e.CondExp? && |e.clauses| > 0
    ensures var r := RewriteCond(e);
            && AltChain(r, |e.clauses|) == e.elseAlt
            && forall k :: 0 <= k < |e.clauses| ==>
                 AltChain(r, k) == IfExp(e.clauses[k].test, e.clauses[k].conseq, AltChain(r, k + 1))
    decreases |e.clauses|
  {
    var r := RewriteCond(e);
    if |e.clauses| > 1 {
      var rest := CondExp(e.clauses[1..], e.elseAlt);
      RewriteCondChain(rest);
      assert r.alt == RewriteCond(rest);
      forall k | 0 <= k < |e.clauses|
        ensures AltChain(r, k) == IfExp(e.clauses[k].test, e.clauses[k].conseq, AltChain(r, k + 1))
      {
        if k > 0 {
          assert AltChain(r, k) == AltChain(r.alt, k - 1);
          assert e.clauses[k] == rest.clauses[k - 1];
        }
      }
    }
  }

  // ---------------------------------------------------------------------
  // rewriteAllCondCExp, as written
  // ---------------------------------------------------------------------

  /**
   * Rewrites every cond reachable outside let-binding values; atomic
   * expressions and literals are returned as they are.
   */
  function RewriteAllCondCExp(e: CExp): (r: CExp)
    requires WellFormed(e)
    ensures WellFormed(r)
    ensures NoCondOutsideLetValues(r)
    decreases Size(e)
  {
    match e
    case IfExp(test, conseq, alt) =>
      IfExp(RewriteAllCondCExp(test), RewriteAllCondCExp(conseq), RewriteAllCondCExp(alt))
    case AppExp(rator, rands) =>
      SizeSeqBounds(rands);
      AppExp(RewriteAllCondCExp(rator), seq(|rands|, i requires 0 <= i < |rands| => RewriteAllCondCExp(rands[i])))
    case ProcExp(args, body) =>
      SizeSeqBounds(body);
      ProcExp(args, seq(|body|, i requires 0 <= i < |body| => RewriteAllCondCExp(body[i])))
    case LetExp(bs, body) =>
      SizeSeqBounds(body);
      LetExp(bs, seq(|body|, i requires 0 <= i < |body| => RewriteAllCondCExp(body[i])))
    case CondExp(_, _) =>
      RewriteAllCondCExp(RewriteCond(e))
    case _ => e
  }

  /** `rewriteAllCondExp`: a define has its value rewritten; an expression is rewritten. */
  function RewriteAllCondExp(e: Exp): Exp
    requires ExpWellFormed(e)
  {
    match e
    case DefineExp(d, val) => DefineExp(d, RewriteAllCondCExp(val))
    case CExpForm(c) => CExpForm(RewriteAllCondCExp(c))
  }

  /** Expressions and programs alike succeed; a program has each of its forms rewritten, in order. */
  function L31ToL3(p: Parsed): (r: Result<Parsed, string>)
    requires ParsedWellFormed(p)
    ensures r.Success? && r.value.ParsedExp? == p.ParsedExp?
    ensures p.ParsedExp? ==> r.value.exp == RewriteAllCondExp(p.exp)
    ensures p.ParsedProgram? ==>
      && |r.value.program.exps| == |p.program.exps|
      && forall i :: 0 <= i < |p.program.exps| ==> r.value.program.exps[i] == RewriteAllCondExp(p.program.exps[i])
  {
    match p
    case ParsedExp(e) => Success(ParsedExp(RewriteAllCondExp(e)))
    case ParsedProgram(prog) =>
      var exps := prog.exps;
      Success(ParsedProgram(Program(seq(|exps|, i requires 0 <= i < |exps| => RewriteAllCondExp(exps[i])))))
  }

  /** Atomic expressions and quoted literals come out unchanged. */
  lemma AtomicAndLiteralUnchanged(e: CExp)
    requires e.IsAtomic() || e.LitExp?
    ensures RewriteAllCondCExp(e) == e
  {
  }

  /**
   * Every form other than cond keeps its constructor and its non-expression
   * parts (parameters, let bindings), with one rewritten sub-expression per
   * original one.
   */
  lemma RewriteKeepsForm(e: CExp)
    requires WellFormed(e) && !e.CondExp?
    ensures var r := RewriteAllCondCExp(e);
            && (e.IfExp? ==> r.IfExp? && r.test == RewriteAllCondCExp(e.test)
                             && r.conseq == RewriteAllCondCExp(e.conseq) && r.alt == RewriteAllCondCExp(e.alt))
            && (e.AppExp? ==> r.AppExp? && r.rator == RewriteAllCondCExp(e.rator) && |r.rands| == |e.rands|
                              && forall i :: 0 <= i < |e.rands| ==> r.rands[i] == RewriteAllCondCExp(e.rands[i]))
            && (e.ProcExp? ==> r.ProcExp? && r.args == e.args && |r.body| == |e.body|
                               && forall i :: 0 <= i < |e.body| ==> r.body[i] == RewriteAllCondCExp(e.body[i]))
            && (e.LetExp? ==> r.LetExp? && r.bindings == e.bindings && |r.body| == |e.body|
                              && forall i :: 0 <= i < |e.body| ==> r.body[i] == RewriteAllCondCExp(e.body[i]))
  {
  }

  /** A cond is replaced by the rewrite of its if chain. */
  lemma CondBecomesIf(e: CExp)
    requires WellFormed(e) && e.CondExp?
    ensures RewriteAllCondCExp(e).IfExp?
    ensures RewriteAllCondCExp(e) == RewriteAllCondCExp(RewriteCond(e))
  {
  }

  /** An expression the rewrite has nothing to do on is returned unchanged. */
  lemma {:induction false} RewriteIdentityOnRewritten(e: CExp)
    requires WellFormed(e) && NoCondOutsideLetValues(e)
    ensures RewriteAllCondCExp(e) == e
    decreases Size(e)
  {
    match e
    case IfExp(test, conseq, alt) =>
      RewriteIdentityOnRewritten(test);
      RewriteIdentityOnRewritten(conseq);
      RewriteIdentityOnRewritten(alt);
    case AppExp(rator, rands) =>
      SizeSeqBounds(rands);
      RewriteIdentityOnRewritten(rator);
      forall i | 0 <= i < |rands| ensures RewriteAllCondCExp(rands[i]) == rands[i] {
        RewriteIdentityOnRewritten(rands[i]);
      }
      assert RewriteAllCondCExp(e).rands == rands;
    case ProcExp(args, body) =>
      SizeSeqBounds(body);
      forall i | 0 <= i < |body| ensures RewriteAllCondCExp(body[i]) == body[i] {
        RewriteIdentityOnRewritten(body[i]);
      }
      assert RewriteAllCondCExp(e).body == body;
    case LetExp(bs, body) =>
      SizeSeqBounds(body);
      forall i | 0 <= i < |body| ensures RewriteAllCondCExp(body[i]) == body[i] {
        RewriteIdentityOnRewritten(body[i]);
      }
      assert RewriteAllCondCExp(e).body == body;
    case _ =>
  }

  /** Rewriting twice is rewriting once. */
  lemma RewriteIdempotent(e: CExp)
    requires WellFormed(e)
    ensures RewriteAllCondCExp(RewriteAllCondCExp(e)) == RewriteAllCondCExp(e)
  {
    RewriteIdentityOnRewritten(RewriteAllCondCExp(e));
  }

  /** `(let ((x (cond (#t 1) (else 2)))) x)` comes out unchanged, cond and all. */
  lemma LetValueCondSurvives()
    ensures var e := LetExp([Binding(VarDecl("x"), CondExp([CondClause(BoolExp(true), NumExp(1))], NumExp(2)))],
                            [VarRef("x")]);
            WellFormed(e) && RewriteAllCondCExp(e) == e && !NoCond(RewriteAllCondCExp(e))
  {
    var e := LetExp([Binding(VarDecl("x"), CondExp([CondClause(BoolExp(true), NumExp(1))], NumExp(2)))],
                    [VarRef("x")]);
    RewriteIdentityOnRewritten(e);
    assert !NoCond(e.bindings[0].val);
  }

  // ---------------------------------------------------------------------
  // Corrected: let-binding values are rewritten too
  // ---------------------------------------------------------------------

  function RewriteAllCondFixed(e: CExp): (r: CExp)
    requires WellFormed(e)
    ensures WellFormed(r)
    ensures NoCond(r)
    decreases Size(e)
  {
    match e
    case IfExp(test, conseq, alt) =>
      IfExp(RewriteAllCondFixed(test), RewriteAllCondFixed(conseq), RewriteAllCondFixed(alt))
    case AppExp(rator, rands) =>
      SizeSeqBounds(rands);
      AppExp(RewriteAllCondFixed(rator), seq(|rands|, i requires 0 <= i < |rands| => RewriteAllCondFixed(rands[i])))
    case ProcExp(args, body) =>
      SizeSeqBounds(body);
      ProcExp(args, seq(|body|, i requires 0 <= i < |body| => RewriteAllCondFixed(body[i])))
    case LetExp(bs, body) =>
      BindingsBounds(bs);
      SizeSeqBounds(body);
      var bs' := seq(|bs|, i requires 0 <= i < |bs| => Binding(bs[i].decl, RewriteAllCondFixed(bs[i].val)));
      LetExp(bs', seq(|body|, i requires 0 <= i < |body| => RewriteAllCondFixed(body[i])))
    case CondExp(_, _) =>
      RewriteAllCondFixed(RewriteCond(e))
    case _ => e
  }

  function RewriteAllCondExpFixed(e: Exp): Exp
    requires ExpWellFormed(e)
  {
    match e
    case DefineExp(d, val) => DefineExp(d, RewriteAllCondFixed(val))
    case CExpForm(c) => CExpForm(RewriteAllCondFixed(c))
  }

  /** An L3 top-level form: no cond anywhere in it. */
  predicate ExpNoCond(e: Exp)
  {
    match e
    case DefineExp(_, val) => NoCond(val)
    case CExpForm(c) => NoCond(c)
  }

  /** The corrected translation always yields L3: no cond survives anywhere. */
  function L31ToL3Fixed(p: Parsed): (r: Result<Parsed, string>)
    requires ParsedWellFormed(p)
    ensures r.Success? && r.value.ParsedExp? == p.ParsedExp?
    ensures r.value.ParsedExp? ==> ExpNoCond(r.value.exp)
    ensures r.value.ParsedProgram? ==>
      && |r.value.program.exps| == |p.program.exps|
      && forall i :: 0 <= i < |r.value.program.exps| ==> ExpNoCond(r.value.program.exps[i])
  {
    match p
    case ParsedExp(e) => Success(ParsedExp(RewriteAllCondExpFixed(e)))
    case ParsedProgram(prog) =>
      var exps := prog.exps;
      Success(ParsedProgram(Program(seq(|exps|, i requires 0 <= i < |exps| => RewriteAllCondExpFixed(exps[i])))))
  }

  /** On L3 input the corrected rewrite changes nothing. */
  lemma {:induction false} FixedIdentityOnL3(e: CExp)
    requires WellFormed(e) && NoCond(e)
    ensures RewriteAllCondFixed(e) == e
    decreases Size(e)
  {
    match e
    case IfExp(test, conseq, alt) =>
      FixedIdentityOnL3(test);
      FixedIdentityOnL3(conseq);
      FixedIdentityOnL3(alt);
    case AppExp(rator, rands) =>
      SizeSeqBounds(rands);
      FixedIdentityOnL3(rator);
      forall i | 0 <= i < |rands| ensures RewriteAllCondFixed(rands[i]) == rands[i] {
        FixedIdentityOnL3(rands[i]);
      }
      assert RewriteAllCondFixed(e).rands == rands;
    case ProcExp(args, body) =>
      SizeSeqBounds(body);
      forall i | 0 <= i < |body| ensures RewriteAllCondFixed(body[i]) == body[i] {
        FixedIdentityOnL3(body[i]);
      }
      assert RewriteAllCondFixed(e).body == body;
    case LetExp(bs, body) =>
      BindingsBounds(bs);
      SizeSeqBounds(body);
      forall i | 0 <= i < |bs| ensures RewriteAllCondFixed(bs[i].val) == bs[i].val {
        FixedIdentityOnL3(bs[i].val);
      }
      forall i | 0 <= i < |body| ensures RewriteAllCondFixed(body[i]) == body[i] {
        FixedIdentityOnL3(body[i]);
      }
      assert RewriteAllCondFixed(e).bindings == bs;
      assert RewriteAllCondFixed(e).body == body;
    case _ =>
  }

  /** The corrected rewrite is idempotent as well. */
  lemma FixedIdempotent(e: CExp)
    requires WellFormed(e)
    ensures RewriteAllCondFixed(RewriteAllCondFixed(e)) == RewriteAllCondFixed(e)
  {
    FixedIdentityOnL3(RewriteAllCondFixed(e));
  }

  /** The corrected rewrite turns the let-bound cond into an if. */
  lemma FixedRewritesLetValue()
    ensures var e := LetExp([Binding(VarDecl("x"), CondExp([CondClause(BoolExp(true), NumExp(1))], NumExp(2)))],
                            [VarRef("x")]);
            WellFormed(e) &&
            RewriteAllCondFixed(e) == LetExp([Binding(VarDecl("x"), IfExp(BoolExp(true), NumExp(1), NumExp(2)))],
                                             [VarRef("x")])
  {
    var e := LetExp([Binding(VarDecl("x"), CondExp([CondClause(BoolExp(true), NumExp(1))], NumExp(2)))],
                    [VarRef("x")]);
    var r := RewriteAllCondFixed(e);
    assert r.bindings[0].val == RewriteAllCondFixed(IfExp(BoolExp(true), NumExp(1), NumExp(2)));
    assert r.body[0] == VarRef("x");
  }
}
