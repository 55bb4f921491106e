/**
 * The closed grammar of L5 type expressions (`TExp`), the measures used to
 * prove that recursion over it terminates, the variant tags the
 * compatibility check compares, and the canonical order in which a union
 * keeps its components.
 */
module TExps {

  datatype TExp =
    | NumTExp
    | BoolTExp
    | StrTExp
    | VoidTExp
    | TVar(name: string)
    | ProcTExp(paramTEs: seq<TExp>, returnTE: TExp)
    | UnionTExp(components: seq<TExp>)
  {
    /** number, boolean, string and void have no substructure. */
    predicate IsAtomic() {
      NumTExp? || BoolTExp? || StrTExp? || VoidTExp?
    }
  }

  /** The `tag` field every TExp object carries in the source. */
  datatype Tag = NumTag | BoolTag | StrTag | VoidTag | TVarTag | ProcTag | UnionTag

  function TagOf(t: TExp): Tag
  {
    match t
    case NumTExp => NumTag
    case BoolTExp => BoolTag
    case StrTExp => StrTag
    case VoidTExp => VoidTag
    case TVar(_) => TVarTag
    case ProcTExp(_, _) => ProcTag
    case UnionTExp(_) => UnionTag
  }

  /** The tags occurring in a list of type expressions. */
  function Tags(ts: seq<TExp>): set<Tag>
  {
    set t | t in ts :: TagOf(t)
  }

  // ---------------------------------------------------------------------
  // Size: the termination measure for recursion over type expressions
  // ---------------------------------------------------------------------

  function Size(t: TExp): nat
  {
    match t
    case ProcTExp(ps, r) => 1 + SizeSeq(ps) + Size(r)
    case UnionTExp(cs) => 1 + SizeSeq(cs)
    case _ => 1
  }

  function SizeSeq(ts: seq<TExp>): nat
  {
    if |ts| == 0 then 0 else Size(ts[0]) + SizeSeq(ts[1..])
  }

  /** Every element of a list is no larger than the whole list. */
  lemma {:induction false} SizeSeqBounds(ts: seq<TExp>)
    ensures forall i :: 0 <= i < |ts| ==> 1 <= Size(ts[i]) <= SizeSeq(ts)
    decreases |ts|
  {
    if |ts| > 0 {
      SizeSeqBounds(ts[1..]);
      assert forall i :: 1 <= i < |ts| ==> ts[i] == ts[1..][i - 1];
    }
  }

  // ---------------------------------------------------------------------
  // Canonical order. A union keeps its components sorted by a key; the
  // key ranks the atomic types boolean < number < string < void, the
  // order of their printed forms.
  // ---------------------------------------------------------------------

  function CharCodes(s: string): seq<int>
  {
    seq(|s|, i requires 0 <= i < |s| => s[i] as int)
  }

  /** A prefix-free encoding of a type expression as integers. */
  function Key(t: TExp): seq<int>
  {
    match t
    case BoolTExp => [0]
    case NumTExp => [1]
    case StrTExp => [2]
    case VoidTExp => [3]
    case TVar(n) => [4, |n|] + CharCodes(n)
    case ProcTExp(ps, r) => [5, |ps|] + KeySeq(ps) + Key(r)
    case UnionTExp(cs) => [6, |cs|] + KeySeq(cs)
  }

  function KeySeq(ts: seq<TExp>): seq<int>
  {
    if |ts| == 0 then [] else Key(ts[0]) + KeySeq(ts[1..])
  }

  /** Strict lexicographic order on integer sequences (a proper prefix is smaller). */
  predicate LexLess(a: seq<int>, b: seq<int>)
  {
    if |a| == 0 then |b| > 0
    else if |b| == 0 then false
    else a[0] < b[0] || (a[0] == b[0] && LexLess(a[1..], b[1..]))
  }

  /** `a` sorts strictly before `b` inside a union. */
  predicate Precedes(a: TExp, b: TExp)
  {
    LexLess(Key(a), Key(b))
  }

  lemma {:induction false} LexLessIrreflexive(a: seq<int>)
    ensures !LexLess(a, a)
    decreases |a|
  {
    if |a| > 0 {
      LexLessIrreflexive(a[1..]);
    }
  }

  lemma {:induction false} LexLessAsymmetric(a: seq<int>, b: seq<int>)
    requires LexLess(a, b)
    ensures !LexLess(b, a)
    decreases |a|
  {
    if |a| > 0 && |b| > 0 && a[0] == b[0] {
      LexLessAsymmetric(a[1..], b[1..]);
    }
  }

  lemma {:induction false} LexLessTotal(a: seq<int>, b: seq<int>)
    requires a != b
    ensures LexLess(a, b) || LexLess(b, a)
    decreases |a|
  {
    if |a| > 0 && |b| > 0 && a[0] == b[0] {
      assert a == [a[0]] + a[1..] && b == [b[0]] + b[1..];
      LexLessTotal(a[1..], b[1..]);
    }
  }

  lemma {:induction false} LexLessTransitive(a: seq<int>, b: seq<int>, c: seq<int>)
    requires LexLess(a, b) && LexLess(b, c)
    ensures LexLess(a, c)
    decreases |a|
  {
    if |a| > 0 && a[0] == b[0] && b[0] == c[0] {
      LexLessTransitive(a[1..], b[1..], c[1..]);
    }
  }

  lemma CharCodesInjective(n: string, m: string)
    requires CharCodes(n) == CharCodes(m)
    ensures n == m
  {
    assert |n| == |CharCodes(n)| == |CharCodes(m)| == |m|;
    forall i | 0 <= i < |n|
      ensures n[i] == m[i]
    {
      assert CharCodes(n)[i] == CharCodes(m)[i];
    }
  }

  lemma TVarKeyPrefixFree(n: string, m: string, x: seq<int>, y: seq<int>)
    requires Key(TVar(n)) + x == Key(TVar(m)) + y
    ensures n == m && x == y
  {
    var s := Key(TVar(n)) + x;
    var ka, kb := Key(TVar(n)), Key(TVar(m));
    assert s[1] == |n| == |m|;
    assert |ka| == |kb| == 2 + |n|;
    assert ka == s[..|ka|] == kb;
    assert CharCodes(n) == ka[2..] == kb[2..] == CharCodes(m);
    CharCodesInjective(n, m);
    assert x == s[|ka|..] == y;
  }

  /** The first entry of a key identifies the variant. */
  function KeyHead(t: TExp): int
  {
    match t
    case BoolTExp => 0
    case NumTExp => 1
    case StrTExp => 2
    case VoidTExp => 3
    case TVar(_) => 4
    case ProcTExp(_, _) => 5
    case UnionTExp(_) => 6
  }

  lemma KeyStartsWithHead(t: TExp)
    ensures |Key(t)| > 0 && Key(t)[0] == KeyHead(t)
  {
  }

  /** No key is a proper prefix of another, so a key determines its type. */
  lemma {:induction false} KeyPrefixFree(a: TExp, b: TExp, x: seq<int>, y: seq<int>)
    requires Key(a) + x == Key(b) + y
    ensures a == b && x == y
    decreases Size(a), 1
  {
    KeyStartsWithHead(a);
    KeyStartsWithHead(b);
    assert KeyHead(a) == (Key(a) + x)[0] == (Key(b) + y)[0] == KeyHead(b);
    match a
    case TVar(n) => TVarKeyPrefixFree(n, b.name, x, y);
    case ProcTExp(ps, r) => ProcKeyPrefixFree(a, b, x, y);
    case UnionTExp(cs) => UnionKeyPrefixFree(a, b, x, y);
    case _ =>
      assert Key(a) == Key(b) == [KeyHead(a)];
      assert x == (Key(a) + x)[1..] == (Key(b) + y)[1..] == y;
  }

  lemma {:induction false} ProcKeyPrefixFree(a: TExp, b: TExp, x: seq<int>, y: seq<int>)
    requires a.ProcTExp? && b.ProcTExp?
    requires Key(a) + x == Key(b) + y
    ensures a == b && x == y
    decreases Size(a), 0
  {
    var s := Key(a) + x;
    var ps, r := a.paramTEs, a.returnTE;
    var qs, r' := b.paramTEs, b.returnTE;
    assert s == [5, |ps|] + (KeySeq(ps) + (Key(r) + x));
    assert s == [5, |qs|] + (KeySeq(qs) + (Key(r') + y));
    assert s[1] == |ps| == |qs|;
    assert s[2..] == KeySeq(ps) + (Key(r) + x);
    assert s[2..] == KeySeq(qs) + (Key(r') + y);
    KeySeqPrefixFree(ps, qs, Key(r) + x, Key(r') + y);
    KeyPrefixFree(r, r', x, y);
  }

  lemma {:induction false} UnionKeyPrefixFree(a: TExp, b: TExp, x: seq<int>, y: seq<int>)
    requires a.UnionTExp? && b.UnionTExp?
    requires Key(a) + x == Key(b) + y
    ensures a == b && x == y
    decreases Size(a), 0
  {
    var s := Key(a) + x;
    var cs, ds := a.components, b.components;
    assert s[1] == |cs| == |ds|;
    assert s[2..] == KeySeq(cs) + x;
    assert s[2..] == KeySeq(ds) + y;
    KeySeqPrefixFree(cs, ds, x, y);
  }

  lemma {:induction false} KeySeqPrefixFree(xs: seq<TExp>, ys: seq<TExp>, u: seq<int>, v: seq<int>)
    requires |xs| == |ys|
    requires KeySeq(xs) + u == KeySeq(ys) + v
    ensures xs == ys && u == v
    decreases SizeSeq(xs), 2
  {
    if |xs| == 0 {
      assert KeySeq(xs) + u == u && KeySeq(ys) + v == v;
    } else {
      assert KeySeq(xs) + u == Key(xs[0]) + (KeySeq(xs[1..]) + u);
      assert KeySeq(ys) + v == Key(ys[0]) + (KeySeq(ys[1..]) + v);
      KeyPrefixFree(xs[0], ys[0], KeySeq(xs[1..]) + u, KeySeq(ys[1..]) + v);
      KeySeqPrefixFree(xs[1..], ys[1..], u, v);
      assert xs == [xs[0]] + xs[1..] && ys == [ys[0]] + ys[1..];
    }
  }

  lemma PrecedesIrreflexive(a: TExp)
    ensures !Precedes(a, a)
  {
    LexLessIrreflexive(Key(a));
  }

  lemma PrecedesAsymmetric(a: TExp, b: TExp)
    requires Precedes(a, b)
    ensures !Precedes(b, a)
  {
    LexLessAsymmetric(Key(a), Key(b));
  }

  lemma PrecedesTransitive(a: TExp, b: TExp, c: TExp)
    requires Precedes(a, b) && Precedes(b, c)
    ensures Precedes(a, c)
  {
    LexLessTransitive(Key(a), Key(b), Key(c));
  }

  /** Two different type expressions are always ordered one way or the other. */
  lemma PrecedesTotal(a: TExp, b: TExp)
    requires a != b
    ensures Precedes(a, b) || Precedes(b, a)
  {
    if Key(a) == Key(b) {
      KeyPrefixFree(a, b, [], []);
    }
    LexLessTotal(Key(a), Key(b));
  }

  /** On atomic types the order is that of their printed forms. */
  lemma AtomicOrder()
    ensures Precedes(BoolTExp, NumTExp) && Precedes(NumTExp, StrTExp) && Precedes(StrTExp, VoidTExp)
    ensures !Precedes(NumTExp, BoolTExp) && !Precedes(StrTExp, NumTExp)
  {
  }
}
