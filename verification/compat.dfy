/**
 * `checkCompatibleType` of L5-typecheck.ts: may a type `te1` be used where
 * `te2` is expected? The rules are tried in a fixed order and the first
 * whose shape matches decides; the relation is deliberately asymmetric, and
 * membership in a union is decided by the variant tag alone.
 *
 * The source returns `Result<true>`; every failure it produces is the same
 * "incompatible" verdict, so the model is a predicate. The expression
 * argument of the source only feeds error messages and is dropped.
 */
module Compat {
  import opened TExps

  predicate Compatible(te1: TExp, te2: TExp)
    decreases Size(te1) + Size(te2), 1
  {
    if te1.IsAtomic() && te2.IsAtomic() then te1 == te2
    else if te1.TVar? || te2.TVar? then te1 == te2
    else if te1.ProcTExp? && te2.ProcTExp? then CompatibleProc(te1, te2)
    else if te1.UnionTExp? && te2.UnionTExp? then CompatibleUnion(te1, te2)
    else if te1.UnionTExp? && te2.ProcTExp? then CompatibleUnionProc(te1, te2)
    else if te1.UnionTExp? && te2.IsAtomic() then CompatibleAtomicUnion(te1, te2)
    else if te1.IsAtomic() && te2.ProcTExp? then CompatibleAtomicProc(te1, te2)
    else false
  }

  /** `includesDic`: some element of `arr` carries the same tag as `te`. */
  predicate IncludesTag(arr: seq<TExp>, te: TExp)
  {
    exists i :: 0 <= i < |arr| && TagOf(arr[i]) == TagOf(te)
  }

  /** Same arity; returns compared in order; parameters compared the other way round. */
  predicate CompatibleProc(te1: TExp, te2: TExp)
    requires te1.ProcTExp? && te2.ProcTExp?
    decreases Size(te1) + Size(te2), 0
  {
    SizeSeqBounds(te1.paramTEs);
    SizeSeqBounds(te2.paramTEs);
    && |te1.paramTEs| == |te2.paramTEs|
    && Compatible(te1.returnTE, te2.returnTE)
    && forall i :: 0 <= i < |te2.paramTEs| ==> Compatible(te2.paramTEs[i], te1.paramTEs[i])
  }

  /** Every component of the left union has its tag among the right union's. */
  predicate CompatibleUnion(te1: TExp, te2: TExp)
    requires te1.UnionTExp? && te2.UnionTExp?
  {
    forall i :: 0 <= i < |te1.components| ==> IncludesTag(te2.components, te1.components[i])
  }

  /** A union against a one-parameter procedure whose parameter is not a procedure. */
  predicate CompatibleUnionProc(te1: TExp, te2: TExp)
    requires te1.UnionTExp? && te2.ProcTExp?
    decreases Size(te1) + Size(te2), 0
  {
    if |te2.paramTEs| == 1 then
      SizeSeqBounds(te2.paramTEs);
      !te2.paramTEs[0].ProcTExp? && Compatible(te1, te2.paramTEs[0])
    else false
  }

  /** A union against an atomic type: the atomic type's tag occurs in the union. */
  predicate CompatibleAtomicUnion(te1: TExp, te2: TExp)
    requires te1.UnionTExp? && te2.IsAtomic()
  {
    IncludesTag(te1.components, te2)
  }

  /** An atomic type against a one-parameter procedure. */
  predicate CompatibleAtomicProc(te1: TExp, te2: TExp)
    requires te1.IsAtomic() && te2.ProcTExp?
    decreases Size(te1) + Size(te2), 0
  {
    if |te2.paramTEs| == 1 then
      SizeSeqBounds(te2.paramTEs);
      if te2.paramTEs[0].IsAtomic() then te2.paramTEs[0] == te1
      else Compatible(te1, te2.paramTEs[0])
    else false
  }

  // ---------------------------------------------------------------------
  // Properties
  // ---------------------------------------------------------------------

  lemma IncludesTagIffTagIn(arr: seq<TExp>, te: TExp)
    ensures IncludesTag(arr, te) <==> TagOf(te) in Tags(arr)
  {
    if TagOf(te) in Tags(arr) {
      var t :| t in arr && TagOf(t) == TagOf(te);
      var i :| 0 <= i < |arr| && arr[i] == t;
      assert TagOf(arr[i]) == TagOf(te);
    }
  }

  /** Atomic types are compatible exactly when they are the same type. */
  lemma AtomicCompatibleIffEqual(te1: TExp, te2: TExp)
    requires te1.IsAtomic() && te2.IsAtomic()
    ensures Compatible(te1, te2) <==> te1 == te2
  {
  }

  /** With a type variable on either side, compatibility is structural equality. */
  lemma TVarCompatibleIffEqual(te1: TExp, te2: TExp)
    requires te1.TVar? || te2.TVar?
    ensures Compatible(te1, te2) <==> te1 == te2
  {
  }

  /** Procedure against procedure: same arity, returns covariant, parameters checked right-to-left. */
  lemma ProcCompatibleIff(ps1: seq<TExp>, r1: TExp, ps2: seq<TExp>, r2: TExp)
    ensures Compatible(ProcTExp(ps1, r1), ProcTExp(ps2, r2)) <==>
      && |ps1| == |ps2|
      && Compatible(r1, r2)
      && forall i :: 0 <= i < |ps2| ==> Compatible(ps2[i], ps1[i])
  {
  }

  /** Union against union compares tag sets: the left one must be a subset of the right one. */
  lemma UnionCompatibleIffTagSubset(cs1: seq<TExp>, cs2: seq<TExp>)
    ensures Compatible(UnionTExp(cs1), UnionTExp(cs2)) <==> Tags(cs1) <= Tags(cs2)
  {
    if Tags(cs1) <= Tags(cs2) {
      forall i | 0 <= i < |cs1|
        ensures IncludesTag(cs2, cs1[i])
      {
        assert TagOf(cs1[i]) in Tags(cs1);
        IncludesTagIffTagIn(cs2, cs1[i]);
      }
    } else {
      var g :| g in Tags(cs1) && g !in Tags(cs2);
      var t :| t in cs1 && TagOf(t) == g;
      var i :| 0 <= i < |cs1| && cs1[i] == t;
      IncludesTagIffTagIn(cs2, cs1[i]);
    }
  }

  /** Union against an atomic type: the atomic type's tag occurs in the union. */
  lemma UnionAtomicCompatibleIffTagIn(cs: seq<TExp>, te: TExp)
    requires te.IsAtomic()
    ensures Compatible(UnionTExp(cs), te) <==> TagOf(te) in Tags(cs)
  {
    IncludesTagIffTagIn(cs, te);
  }

  /**
   * Union against a procedure succeeds only for exactly one parameter that
   * is not itself a procedure and is compatible with the union.
   */
  lemma UnionProcCompatibleIff(cs: seq<TExp>, ps: seq<TExp>, r: TExp)
    ensures Compatible(UnionTExp(cs), ProcTExp(ps, r)) <==>
      |ps| == 1 && !ps[0].ProcTExp? && Compatible(UnionTExp(cs), ps[0])
  {
  }

  /**
   * Atomic type against a procedure succeeds only for exactly one
   * parameter: an atomic parameter must equal the type, any other must be
   * compatible with it.
   */
  lemma AtomicProcCompatibleIff(te: TExp, ps: seq<TExp>, r: TExp)
    requires te.IsAtomic()
    ensures Compatible(te, ProcTExp(ps, r)) <==>
      |ps| == 1 && (if ps[0].IsAtomic() then ps[0] == te else Compatible(te, ps[0]))
  {
  }

  /**
   * Only a union can be compatible with a union: an atomic type, a type
   * variable or a procedure on the left always fails against one.
   */
  lemma OnlyUnionFitsUnion(te: TExp, cs: seq<TExp>)
    requires !te.UnionTExp?
    ensures !Compatible(te, UnionTExp(cs))
  {
  }

  /** A procedure on the left fits nothing but a procedure. */
  lemma ProcFitsOnlyProc(ps: seq<TExp>, r: TExp, te: TExp)
    requires !te.ProcTExp?
    ensures !Compatible(ProcTExp(ps, r), te)
  {
  }

  /** Every type expression is compatible with itself. */
  lemma {:induction false} CompatibleReflexive(t: TExp)
    ensures Compatible(t, t)
    decreases Size(t)
  {
    match t
    case ProcTExp(ps, r) =>
      SizeSeqBounds(ps);
      CompatibleReflexive(r);
      forall i | 0 <= i < |ps|
        ensures Compatible(ps[i], ps[i])
      {
        CompatibleReflexive(ps[i]);
      }
    case UnionTExp(cs) =>
      UnionCompatibleIffTagSubset(cs, cs);
    case _ =>
  }

  /** The relation is not symmetric: a union accepts one of its members, but not the other way round. */
  lemma CompatibleNotSymmetric()
    ensures Compatible(UnionTExp([NumTExp, BoolTExp]), NumTExp)
    ensures !Compatible(NumTExp, UnionTExp([NumTExp, BoolTExp]))
  {
    assert TagOf(UnionTExp([NumTExp, BoolTExp]).components[0]) == TagOf(NumTExp);
  }

  /**
   * Membership by tag only: unions of two incompatible procedure types
   * are compatible, because both components carry the procedure tag.
   */
  lemma UnionMembershipIgnoresPayload()
    ensures !Compatible(ProcTExp([NumTExp], NumTExp), ProcTExp([BoolTExp], StrTExp))
    ensures Compatible(UnionTExp([ProcTExp([NumTExp], NumTExp)]), UnionTExp([ProcTExp([BoolTExp], StrTExp)]))
  {
    var cs1 := [ProcTExp([NumTExp], NumTExp)];
    var cs2 := [ProcTExp([BoolTExp], StrTExp)];
    assert TagOf(cs2[0]) == TagOf(cs1[0]);
    assert IncludesTag(cs2, cs1[0]);
  }

  /** The compatibility cases pinned by the source's tests. */
  lemma TestedCompatibilityCases()
    ensures !Compatible(NumTExp, BoolTExp)
    ensures Compatible(UnionTExp([NumTExp, BoolTExp]), NumTExp)
    ensures Compatible(UnionTExp([NumTExp, BoolTExp]), UnionTExp([BoolTExp, NumTExp]))
    ensures !Compatible(UnionTExp([NumTExp, BoolTExp]), UnionTExp([TVar("T1"), TVar("T2")]))
  {
    assert TagOf([NumTExp, BoolTExp][0]) == TagOf(NumTExp);
    assert TagOf([BoolTExp, NumTExp][1]) == TagOf(NumTExp);
    assert TagOf([BoolTExp, NumTExp][0]) == TagOf(BoolTExp);
    assert !IncludesTag([TVar("T1"), TVar("T2")], NumTExp);
  }

  /**
   * Unions in argument positions of procedures: with
   *   f : ((union boolean number) -> string),  g : (number -> string),
   *   h : ((number -> string) -> string),      i : (((union boolean number) -> string) -> string),
   * h fits g and f, i fits f, and i does not fit g.
   */
  lemma ProcArgumentUnionCases()
    ensures var u := UnionTExp([BoolTExp, NumTExp]);
            var f := ProcTExp([u], StrTExp);
            var g := ProcTExp([NumTExp], StrTExp);
            var h := ProcTExp([ProcTExp([NumTExp], StrTExp)], StrTExp);
            var i := ProcTExp([ProcTExp([u], StrTExp)], StrTExp);
            Compatible(h, g) && Compatible(h, f) && Compatible(i, f) && !Compatible(i, g)
  {
    var u := UnionTExp([BoolTExp, NumTExp]);
    CompatibleReflexive(u);
    assert TagOf(u.components[1]) == TagOf(NumTExp);
    assert Compatible(u, NumTExp);
    assert Compatible(u, ProcTExp([NumTExp], StrTExp));
    assert Compatible(u, ProcTExp([u], StrTExp));
    assert Compatible(NumTExp, ProcTExp([NumTExp], StrTExp));
    OnlyUnionFitsUnion(NumTExp, u.components);
    assert !Compatible(NumTExp, ProcTExp([u], StrTExp));
  }
}
