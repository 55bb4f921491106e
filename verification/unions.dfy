/**
 * `makeUnion(left, right)` of L5-typecheck.ts, which delegates to
 * `makeUnionTE` (TExp.ts is not part of this model). Its contract, as the
 * source's tests fix it: dissolve unions into their members, drop repeated
 * members (by structural equality), keep the rest in canonical order, and
 * collapse a single surviving member to that member itself.
 */
module Unions {
  import opened TExps

  function Elems(s: seq<TExp>): set<TExp>
  {
    set x | x in s
  }

  /** No element is itself a union. */
  predicate NoUnions(s: seq<TExp>)
  {
    forall i :: 0 <= i < |s| ==> !s[i].UnionTExp?
  }

  /** Strictly increasing in the canonical order, hence also free of repeats. */
  predicate Sorted(s: seq<TExp>)
  {
    forall i, j :: 0 <= i < j < |s| ==> Precedes(s[i], s[j])
  }

  /** A union in normal form: at least two (or no) members, none a union, in canonical order. */
  predicate Canonical(t: TExp)
  {
    t.UnionTExp? ==> |t.components| != 1 && NoUnions(t.components) && Sorted(t.components)
  }

  /** The members a type contributes to a union: a union contributes its members, recursively. */
  function Flatten(t: TExp): (r: seq<TExp>)
    ensures NoUnions(r)
    ensures !t.UnionTExp? ==> r == [t]
  {
    match t
    case UnionTExp(cs) => FlattenSeq(cs)
    case _ => [t]
  }

  function FlattenSeq(ts: seq<TExp>): (r: seq<TExp>)
    ensures NoUnions(r)
  {
    if |ts| == 0 then [] else Flatten(ts[0]) + FlattenSeq(ts[1..])
  }

  /** Places `x` in a sorted list, unless it is already there. */
  function Insert(x: TExp, s: seq<TExp>): (r: seq<TExp>)
    requires Sorted(s)
    ensures Sorted(r)
    ensures Elems(r) == Elems(s) + {x}
  {
    if |s| == 0 then [x]
    else if x == s[0] then
      assert s[0] in Elems(s);
      s
    else if Precedes(x, s[0]) then
      ElemsCons(x, s);
      PrecedesSortedHead(x, s);
      ConsSorted(x, s);
      [x] + s
    else
      PrecedesTotal(x, s[0]);
      SortedTail(s);
      var t := Insert(x, s[1..]);
      ElemsCons(s[0], t);
      ConsSorted(s[0], t);
      [s[0]] + t
  }

  lemma ElemsCons(h: TExp, t: seq<TExp>)
    ensures Elems([h] + t) == {h} + Elems(t)
  {
  }

  /** Dropping the head of a sorted list leaves a sorted list without that head. */
  lemma SortedTail(s: seq<TExp>)
    requires Sorted(s) && |s| > 0
    ensures Sorted(s[1..])
    ensures Elems(s) == {s[0]} + Elems(s[1..])
    ensures s[0] !in Elems(s[1..])
    ensures forall y :: y in Elems(s[1..]) ==> Precedes(s[0], y)
  {
    assert s == [s[0]] + s[1..];
    forall y | y in Elems(s[1..]) ensures Precedes(s[0], y) {
      var k :| 0 <= k < |s[1..]| && s[1..][k] == y;
      assert s[k + 1] == y;
    }
    if s[0] in Elems(s[1..]) {
      PrecedesIrreflexive(s[0]);
    }
  }

  /** Something that precedes the head of a sorted list precedes all of it. */
  lemma PrecedesSortedHead(x: TExp, s: seq<TExp>)
    requires Sorted(s) && |s| > 0 && Precedes(x, s[0])
    ensures forall y :: y in Elems(s) ==> Precedes(x, y)
  {
    forall y | y in Elems(s) ensures Precedes(x, y) {
      var k :| 0 <= k < |s| && s[k] == y;
      if k > 0 {
        PrecedesTransitive(x, s[0], s[k]);
      }
    }
  }

  lemma ConsSorted(h: TExp, t: seq<TExp>)
    requires Sorted(t)
    requires forall y :: y in Elems(t) ==> Precedes(h, y)
    ensures Sorted([h] + t)
  {
    var s := [h] + t;
    forall i, j | 0 <= i < j < |s| ensures Precedes(s[i], s[j]) {
      assert s[j] == t[j - 1];
      if i > 0 {
        assert s[i] == t[i - 1];
      } else {
        assert t[j - 1] in Elems(t);
      }
    }
  }

  /** Sorts a list into canonical order and drops repeated elements. */
  function Normalize(xs: seq<TExp>): (r: seq<TExp>)
    ensures Sorted(r)
    ensures Elems(r) == Elems(xs)
  {
    if |xs| == 0 then []
    else
      assert Elems(xs) == {xs[0]} + Elems(xs[1..]) by {
        assert xs == [xs[0]] + xs[1..];
      }
      Insert(xs[0], Normalize(xs[1..]))
  }

  /** `makeUnion`: the normalised union of the members of both sides. */
  function MakeUnion(left: TExp, right: TExp): (u: TExp)
    ensures Canonical(u)
    ensures Elems(Flatten(u)) == Elems(Flatten(left)) + Elems(Flatten(right))
  {
    var all := Flatten(left) + Flatten(right);
    var cs := Normalize(all);
    assert Elems(all) == Elems(Flatten(left)) + Elems(Flatten(right));
    assert NoUnions(cs) by {
      forall i | 0 <= i < |cs| ensures !cs[i].UnionTExp? {
        assert cs[i] in Elems(all);
      }
    }
    if |cs| == 1 then
      assert Elems(cs) == {cs[0]};
      cs[0]
    else
      FlattenSeqNoUnions(cs);
      UnionTExp(cs)
  }

  // ---------------------------------------------------------------------
  // Properties
  // ---------------------------------------------------------------------

  lemma {:induction false} FlattenSeqNoUnions(ts: seq<TExp>)
    requires NoUnions(ts)
    ensures FlattenSeq(ts) == ts
    decreases |ts|
  {
    if |ts| > 0 {
      FlattenSeqNoUnions(ts[1..]);
      assert ts == [ts[0]] + ts[1..];
    }
  }

  /** A type in normal form contributes exactly the members it shows. */
  lemma FlattenCanonical(t: TExp)
    requires Canonical(t)
    ensures Flatten(t) == if t.UnionTExp? then t.components else [t]
  {
    if t.UnionTExp? {
      FlattenSeqNoUnions(t.components);
    }
  }

  /** A sorted list is determined by its set of elements. */
  lemma {:induction false} SortedUnique(a: seq<TExp>, b: seq<TExp>)
    requires Sorted(a) && Sorted(b)
    requires Elems(a) == Elems(b)
    ensures a == b
    decreases |a|
  {
    if |a| > 0 {
      assert a[0] in Elems(b);
      SortedTail(a);
      SortedTail(b);
      if a[0] != b[0] {
        assert Precedes(b[0], a[0]);
        assert Precedes(a[0], b[0]);
        PrecedesAsymmetric(a[0], b[0]);
      }
      SortedUnique(a[1..], b[1..]);
      assert a == [a[0]] + a[1..] && b == [b[0]] + b[1..];
    } else {
      ElemsHead(b);
    }
  }

  lemma ElemsHead(s: seq<TExp>)
    ensures |s| > 0 ==> s[0] in Elems(s)
  {
  }

  /** The result of `makeUnion` depends only on the set of members both sides contribute. */
  lemma MakeUnionBySet(a: TExp, b: TExp, c: TExp, d: TExp)
    requires Elems(Flatten(a)) + Elems(Flatten(b)) == Elems(Flatten(c)) + Elems(Flatten(d))
    ensures MakeUnion(a, b) == MakeUnion(c, d)
  {
    var xs := Flatten(a) + Flatten(b);
    var ys := Flatten(c) + Flatten(d);
    assert Elems(xs) == Elems(Flatten(a)) + Elems(Flatten(b));
    assert Elems(ys) == Elems(Flatten(c)) + Elems(Flatten(d));
    SortedUnique(Normalize(xs), Normalize(ys));
  }

  lemma MakeUnionCommutative(a: TExp, b: TExp)
    ensures MakeUnion(a, b) == MakeUnion(b, a)
  {
    MakeUnionBySet(a, b, b, a);
  }

  lemma MakeUnionAssociative(a: TExp, b: TExp, c: TExp)
    ensures MakeUnion(MakeUnion(a, b), c) == MakeUnion(a, MakeUnion(b, c))
  {
    MakeUnionBySet(MakeUnion(a, b), c, a, MakeUnion(b, c));
  }

  /**
   * Adding members that are already there changes nothing; in particular
   * `makeUnion(t, t)` is `t` for every type in normal form.
   */
  lemma MakeUnionAbsorbs(t: TExp, u: TExp)
    requires Canonical(t)
    requires Elems(Flatten(u)) <= Elems(Flatten(t))
    ensures MakeUnion(t, u) == t
  {
    FlattenCanonical(t);
    var cs := Normalize(Flatten(t) + Flatten(u));
    assert Elems(Flatten(t) + Flatten(u)) == Elems(Flatten(t));
    if t.UnionTExp? {
      SortedUnique(cs, t.components);
    } else {
      assert Elems(cs) == {t};
      if |cs| > 1 {
        assert cs[0] in Elems(cs) && cs[1] in Elems(cs);
        PrecedesIrreflexive(t);
        assert false;
      }
      assert cs[0] in Elems(cs);
    }
  }

  lemma MakeUnionIdempotent(t: TExp)
    requires Canonical(t)
    ensures MakeUnion(t, t) == t
  {
    MakeUnionAbsorbs(t, t);
  }

  /** The unions the source's tests build. */
  lemma TestedUnionOfAtoms()
    ensures MakeUnion(NumTExp, BoolTExp) == UnionTExp([BoolTExp, NumTExp])
    ensures MakeUnion(NumTExp, StrTExp) == UnionTExp([NumTExp, StrTExp])
    ensures MakeUnion(NumTExp, NumTExp) == NumTExp
  {
    AtomicOrder();
    assert Normalize([NumTExp, BoolTExp]) == Insert(NumTExp, [BoolTExp]) == [BoolTExp, NumTExp];
    assert Normalize([NumTExp, StrTExp]) == Insert(NumTExp, [StrTExp]) == [NumTExp, StrTExp];
    assert Normalize([NumTExp, NumTExp]) == Insert(NumTExp, [NumTExp]) == [NumTExp];
  }

  lemma ElemsOfThree(a: TExp, b: TExp, c: TExp)
    ensures Elems([a]) == {a}
    ensures Elems([a, b]) == {a, b}
    ensures Elems([a, b, c]) == {a, b, c}
  {
    ElemsCons(a, [b, c]);
    ElemsCons(b, [c]);
    ElemsCons(a, [b]);
  }

  /** `(union boolean number)`, `(union number string)` and `(union boolean number string)` are in normal form. */
  lemma TestedUnionsCanonical()
    ensures Canonical(UnionTExp([BoolTExp, NumTExp]))
    ensures Canonical(UnionTExp([NumTExp, StrTExp]))
    ensures Canonical(UnionTExp([BoolTExp, NumTExp, StrTExp]))
    ensures Elems(Flatten(UnionTExp([BoolTExp, NumTExp]))) == {BoolTExp, NumTExp}
    ensures Elems(Flatten(UnionTExp([NumTExp, StrTExp]))) == {NumTExp, StrTExp}
    ensures Elems(Flatten(UnionTExp([BoolTExp, NumTExp, StrTExp]))) == {BoolTExp, NumTExp, StrTExp}
  {
    AtomicOrder();
    PrecedesTransitive(BoolTExp, NumTExp, StrTExp);
    FlattenCanonical(UnionTExp([BoolTExp, NumTExp]));
    FlattenCanonical(UnionTExp([NumTExp, StrTExp]));
    FlattenCanonical(UnionTExp([BoolTExp, NumTExp, StrTExp]));
    ElemsOfThree(BoolTExp, NumTExp, StrTExp);
    ElemsOfThree(NumTExp, StrTExp, StrTExp);
  }

  lemma TestedUnionWithString()
    ensures MakeUnion(MakeUnion(NumTExp, BoolTExp), StrTExp) == UnionTExp([BoolTExp, NumTExp, StrTExp])
  {
    TestedUnionOfAtoms();
    TestedUnionsCanonical();
    var bns := UnionTExp([BoolTExp, NumTExp, StrTExp]);
    ElemsOfThree(StrTExp, StrTExp, StrTExp);
    MakeUnionBySet(UnionTExp([BoolTExp, NumTExp]), StrTExp, bns, bns);
    MakeUnionIdempotent(bns);
  }

  lemma TestedUnionOfTwoUnions()
    ensures MakeUnion(MakeUnion(NumTExp, BoolTExp), MakeUnion(NumTExp, StrTExp))
              == UnionTExp([BoolTExp, NumTExp, StrTExp])
  {
    TestedUnionOfAtoms();
    TestedUnionsCanonical();
    var bns := UnionTExp([BoolTExp, NumTExp, StrTExp]);
    MakeUnionBySet(UnionTExp([BoolTExp, NumTExp]), UnionTExp([NumTExp, StrTExp]), bns, bns);
    MakeUnionIdempotent(bns);
  }

  lemma TestedUnionWithRepeat()
    ensures MakeUnion(NumTExp, MakeUnion(NumTExp, BoolTExp)) == UnionTExp([BoolTExp, NumTExp])
  {
    TestedUnionOfAtoms();
    TestedUnionsCanonical();
    var nb := UnionTExp([BoolTExp, NumTExp]);
    ElemsOfThree(NumTExp, NumTExp, NumTExp);
    MakeUnionCommutative(NumTExp, nb);
    MakeUnionAbsorbs(nb, NumTExp);
  }
}
