/**
 * Failures of the L5 type checker, and the type environment (TEnv.ts is
 * not part of this model; its contract is the one L5-typecheck.ts relies
 * on): a chain of frames, each pairing variable names with their declared
 * types, looked up innermost frame first.
 */
module TypeErrors {

  /** The kinds of failure the L5 checker reports; message texts are not modelled. */
  datatype TypeError =
    | UnboundVariable(name: string)
    | UnknownPrimitive(op: string)
    | IncompatibleTypes
    | NonProcedure
    | WrongArity
    | LetrecNonProcedure
    | EmptyExps
    | UnknownForm
}

module TEnvs {
  import opened Wrappers
  import opened TExps
  import opened TypeErrors

  type TypeBinding = (string, TExp)

  datatype TEnv = EmptyTEnv | ExtendTEnv(frame: seq<TypeBinding>, parent: TEnv)

  /** A new innermost frame pairing `vars[i]` with `texps[i]`. */
  function MakeExtendTEnv(vars: seq<string>, texps: seq<TExp>, parent: TEnv): (r: TEnv)
    requires |vars| == |texps|
    ensures r.ExtendTEnv? && r.parent == parent && |r.frame| == |vars|
    ensures forall i :: 0 <= i < |vars| ==> r.frame[i] == (vars[i], texps[i])
  {
    ExtendTEnv(seq(|vars|, i requires 0 <= i < |vars| => (vars[i], texps[i])), parent)
  }

  /** Index of the first binding of `v` in `bs`, or `|bs|` when `v` is not bound there. */
  function FirstIndex(bs: seq<TypeBinding>, v: string): (k: nat)
    ensures k <= |bs|
    ensures k < |bs| ==> bs[k].0 == v
    ensures forall j :: 0 <= j < k ==> bs[j].0 != v
  {
    if |bs| == 0 then 0
    else if bs[0].0 == v then 0
    else 1 + FirstIndex(bs[1..], v)
  }

  /** The type bound to `v`: innermost frame first; an unbound name is a failure. */
  function ApplyTEnv(tenv: TEnv, v: string): Result<TExp, TypeError>
  {
    match tenv
    case EmptyTEnv => Failure(UnboundVariable(v))
    case ExtendTEnv(frame, parent) =>
      var pos := FirstIndex(frame, v);
      if pos == |frame| then ApplyTEnv(parent, v) else Success(frame[pos].1)
  }

  /** Reference view: every binding of the chain, innermost frame first. */
  function AllBindings(tenv: TEnv): seq<TypeBinding>
  {
    match tenv
    case EmptyTEnv => []
    case ExtendTEnv(frame, parent) => frame + AllBindings(parent)
  }

  /** The names bound anywhere in the chain. */
  function Domain(tenv: TEnv): set<string>
  {
    set b | b in AllBindings(tenv) :: b.0
  }

  lemma {:induction false} FirstIndexAppend(a: seq<TypeBinding>, b: seq<TypeBinding>, v: string)
    ensures FirstIndex(a + b, v) ==
      (if FirstIndex(a, v) < |a| then FirstIndex(a, v) else |a| + FirstIndex(b, v))
    decreases |a|
  {
    if |a| > 0 {
      assert (a + b)[1..] == a[1..] + b;
      FirstIndexAppend(a[1..], b, v);
    } else {
      assert a + b == b;
    }
  }

  /**
   * Looking a name up in the chain is the same as taking its first binding
   * in the flattened list of all bindings.
   */
  lemma {:induction false} ApplyTEnvIsFirstBinding(tenv: TEnv, v: string)
    ensures var bs := AllBindings(tenv);
            var k := FirstIndex(bs, v);
            ApplyTEnv(tenv, v) == if k < |bs| then Success(bs[k].1) else Failure(UnboundVariable(v))
  {
    match tenv
    case EmptyTEnv =>
    case ExtendTEnv(frame, parent) =>
      ApplyTEnvIsFirstBinding(parent, v);
      FirstIndexAppend(frame, AllBindings(parent), v);
      var k := FirstIndex(frame, v);
      if k < |frame| {
        assert AllBindings(tenv)[k] == frame[k];
      } else {
        var k' := FirstIndex(AllBindings(parent), v);
        if k' < |AllBindings(parent)| {
          assert AllBindings(tenv)[|frame| + k'] == AllBindings(parent)[k'];
        }
      }
  }

  /** Lookup succeeds exactly for the names bound somewhere in the chain. */
  lemma ApplyTEnvSucceedsIffBound(tenv: TEnv, v: string)
    ensures ApplyTEnv(tenv, v).Success? <==> v in Domain(tenv)
    ensures ApplyTEnv(tenv, v).Failure? ==> ApplyTEnv(tenv, v).error == UnboundVariable(v)
  {
    ApplyTEnvIsFirstBinding(tenv, v);
    var bs := AllBindings(tenv);
    var k := FirstIndex(bs, v);
    if k < |bs| {
      assert bs[k] in bs;
    }
  }

  /**
   * A new frame answers for the names it binds (the first occurrence wins)
   * and defers every other name to its parent: inner bindings shadow outer ones.
   */
  lemma ExtendTEnvLookup(vars: seq<string>, texps: seq<TExp>, parent: TEnv, v: string)
    requires |vars| == |texps|
    ensures v !in vars ==> ApplyTEnv(MakeExtendTEnv(vars, texps, parent), v) == ApplyTEnv(parent, v)
    ensures forall i :: 0 <= i < |vars| && vars[i] == v && v !in vars[..i] ==>
              ApplyTEnv(MakeExtendTEnv(vars, texps, parent), v) == Success(texps[i])
  {
    var r := MakeExtendTEnv(vars, texps, parent);
    var k := FirstIndex(r.frame, v);
    forall i | 0 <= i < |vars| && vars[i] == v && v !in vars[..i]
      ensures ApplyTEnv(r, v) == Success(texps[i])
    {
      assert r.frame[i].0 == v;
    }
  }
}
