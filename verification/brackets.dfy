/**
 * `isPaired` of part2.ts: keep only the six bracket characters, fold
 * `checkParenthesis` over them from an empty stack, and accept when the
 * stack ends empty. The stack's top is its first element.
 */
module Brackets {

  predicate IsOpener(c: char)
  {
    c == '(' || c == '[' || c == '{'
  }

  predicate IsCloser(c: char)
  {
    c == ')' || c == ']' || c == '}'
  }

  predicate IsBracket(c: char)
  {
    IsOpener(c) || IsCloser(c)
  }

  /** The opener a closer matches. */
  function OpenerOf(c: char): (o: char)
    requires IsCloser(c)
    ensures IsOpener(o)
  {
    if c == ')' then '(' else if c == ']' then '[' else '{'
  }

  /** The bracket characters of `s`, in order. */
  function BracketsOf(s: string): (r: string)
    ensures |r| <= |s|
    ensures forall i :: 0 <= i < |r| ==> IsBracket(r[i])
  {
    if |s| == 0 then [] else (if IsBracket(s[0]) then [s[0]] else []) + BracketsOf(s[1..])
  }

  /** One step: a closer whose opener is on top pops it; any other character is pushed. */
  function CheckParenthesis(stack: seq<char>, c: char): (r: seq<char>)
    ensures IsCloser(c) && |stack| > 0 && stack[0] == OpenerOf(c) ==> r == stack[1..]
    ensures !(IsCloser(c) && |stack| > 0 && stack[0] == OpenerOf(c)) ==> r == [c] + stack
  {
    if (c == '}' && |stack| > 0 && stack[0] == '{')
       || (c == ')' && |stack| > 0 && stack[0] == '(')
       || (c == ']' && |stack| > 0 && stack[0] == '[')
    then stack[1..]
    else [c] + stack
  }

  /** `R.reduce(checkParenthesis, stack)`. */
  function Fold(cs: seq<char>, stack: seq<char>): seq<char>
    decreases |cs|
  {
    if |cs| == 0 then stack else Fold(cs[1..], CheckParenthesis(stack, cs[0]))
  }

  predicate IsPaired(s: string)
  {
    |Fold(BracketsOf(s), [])| == 0
  }

  // ---------------------------------------------------------------------
  // Filtering
  // ---------------------------------------------------------------------

  lemma {:induction false} BracketsOfAppend(a: string, b: string)
    ensures BracketsOf(a + b) == BracketsOf(a) + BracketsOf(b)
    decreases |a|
  {
    if |a| > 0 {
      assert (a + b)[0] == a[0];
      assert (a + b)[1..] == a[1..] + b;
      BracketsOfAppend(a[1..], b);
      var h: string := if IsBracket(a[0]) then [a[0]] else [];
      assert BracketsOf(a + b) == h + (BracketsOf(a[1..]) + BracketsOf(b));
      assert BracketsOf(a) == h + BracketsOf(a[1..]);
    } else {
      assert a + b == b;
    }
  }

  /** Inserting a character that is not a bracket anywhere does not change the answer. */
  lemma NonBracketIgnored(a: string, x: char, b: string)
    requires !IsBracket(x)
    ensures IsPaired(a + [x] + b) <==> IsPaired(a + b)
  {
    BracketsOfAppend(a + [x], b);
    BracketsOfAppend(a, [x]);
    BracketsOfAppend(a, b);
    assert [x][1..] == [];
    assert BracketsOf([x]) == [];
    assert BracketsOf(a + [x] + b) == BracketsOf(a + b);
  }

  /** Only the brackets matter: strings with the same brackets in the same order agree. */
  lemma SameBracketsSameAnswer(s: string, t: string)
    requires BracketsOf(s) == BracketsOf(t)
    ensures IsPaired(s) <==> IsPaired(t)
  {
  }

  lemma EmptyIsPaired()
    ensures IsPaired("")
  {
  }

  // ---------------------------------------------------------------------
  // Closers are never removed
  // ---------------------------------------------------------------------

  /** A step never removes anything below the top, and removes the top only when it is an opener. */
  lemma StepKeepsClosers(stack: seq<char>, c: char, k: nat)
    requires k < |stack| && IsCloser(stack[k])
    ensures var r := CheckParenthesis(stack, c);
      |stack| - k <= |r| && r[|r| - (|stack| - k)..] == stack[k..]
  {
    var r := CheckParenthesis(stack, c);
    if IsCloser(c) && |stack| > 0 && stack[0] == OpenerOf(c) {
      assert k > 0;
      assert r[|r| - (|stack| - k)..] == stack[1..][k - 1..];
    } else {
      assert r[|r| - (|stack| - k)..] == ([c] + stack)[k + 1..];
    }
  }

  /** Once a closer is on the stack, it and everything below it stay to the end. */
  lemma {:induction false} ClosersStay(cs: seq<char>, stack: seq<char>, k: nat)
    requires k < |stack| && IsCloser(stack[k])
    ensures var r := Fold(cs, stack);
      |stack| - k <= |r| && r[|r| - (|stack| - k)..] == stack[k..]
    decreases |cs|
  {
    if |cs| > 0 {
      var next := CheckParenthesis(stack, cs[0]);
      StepKeepsClosers(stack, cs[0], k);
      var k' := |next| - (|stack| - k);
      assert next[k'..] == stack[k..];
      assert next[k'] == stack[k];
      ClosersStay(cs[1..], next, k');
    }
  }

  /** A stack holding a closer never empties. */
  lemma StackWithCloserNeverEmpties(cs: seq<char>, stack: seq<char>, k: nat)
    requires k < |stack| && IsCloser(stack[k])
    ensures |Fold(cs, stack)| > 0
  {
    ClosersStay(cs, stack, k);
  }

  /** A string whose first bracket is a closer is not paired; in particular `")("` is not. */
  lemma CloserFirstNotPaired(s: string)
    requires |BracketsOf(s)| > 0 && IsCloser(BracketsOf(s)[0])
    ensures !IsPaired(s)
  {
    var cs := BracketsOf(s);
    assert CheckParenthesis([], cs[0]) == [cs[0]];
    StackWithCloserNeverEmpties(cs[1..], [cs[0]], 0);
  }

  lemma CloseOpenNotPaired()
    ensures !IsPaired(")(")
  {
    CloserFirstNotPaired(")(");
  }

  // ---------------------------------------------------------------------
  // Balance
  // ---------------------------------------------------------------------

  function Count(x: char, s: seq<char>): nat
  {
    if |s| == 0 then 0 else (if s[0] == x then 1 else 0) + Count(x, s[1..])
  }

  /** Openers of one kind minus closers of the matching kind. */
  function Balance(close: char, s: seq<char>): int
    requires IsCloser(close)
  {
    Count(OpenerOf(close), s) - Count(close, s)
  }

  lemma {:induction false} CountAppend(x: char, a: seq<char>, b: seq<char>)
    ensures Count(x, a + b) == Count(x, a) + Count(x, b)
    decreases |a|
  {
    if |a| > 0 {
      assert (a + b)[0] == a[0];
      assert (a + b)[1..] == a[1..] + b;
      CountAppend(x, a[1..], b);
    } else {
      assert a + b == b;
    }
  }

  lemma CountSingle(x: char, c: char)
    ensures Count(x, [c]) == if c == x then 1 else 0
  {
    assert [c][1..] == [];
  }

  /** A step changes the stack's balance by that of the character consumed. */
  lemma StepBalance(close: char, stack: seq<char>, c: char)
    requires IsCloser(close)
    ensures Balance(close, CheckParenthesis(stack, c)) == Balance(close, stack) + Balance(close, [c])
  {
    var r := CheckParenthesis(stack, c);
    CountSingle(OpenerOf(close), c);
    CountSingle(close, c);
    if IsCloser(c) && |stack| > 0 && stack[0] == OpenerOf(c) {
      assert stack == [stack[0]] + r;
      CountSingle(OpenerOf(close), stack[0]);
      CountSingle(close, stack[0]);
      CountAppend(OpenerOf(close), [stack[0]], r);
      CountAppend(close, [stack[0]], r);
    } else {
      CountAppend(OpenerOf(close), [c], stack);
      CountAppend(close, [c], stack);
    }
  }

  /** Folding keeps the balance: the final stack's equals the start's plus the input's. */
  lemma {:induction false} FoldBalance(close: char, cs: seq<char>, stack: seq<char>)
    requires IsCloser(close)
    ensures Balance(close, Fold(cs, stack)) == Balance(close, stack) + Balance(close, cs)
    decreases |cs|
  {
    if |cs| > 0 {
      StepBalance(close, stack, cs[0]);
      FoldBalance(close, cs[1..], CheckParenthesis(stack, cs[0]));
      assert cs == [cs[0]] + cs[1..];
      CountAppend(OpenerOf(close), [cs[0]], cs[1..]);
      CountAppend(close, [cs[0]], cs[1..]);
    }
  }

  lemma {:induction false} BracketsOfCount(x: char, s: string)
    requires IsBracket(x)
    ensures Count(x, BracketsOf(s)) == Count(x, s)
    decreases |s|
  {
    if |s| > 0 {
      BracketsOfCount(x, s[1..]);
      CountAppend(x, if IsBracket(s[0]) then [s[0]] else [], BracketsOf(s[1..]));
    }
  }

  /** A paired string has as many of each opener as of its closer. */
  lemma PairedBalanced(s: string)
    requires IsPaired(s)
    ensures Count('(', s) == Count(')', s)
    ensures Count('[', s) == Count(']', s)
    ensures Count('{', s) == Count('}', s)
  {
    var cs := BracketsOf(s);
    FoldBalance(')', cs, []);
    FoldBalance(']', cs, []);
    FoldBalance('}', cs, []);
    var r := Fold(cs, []);
    assert r == [];
    BracketsOfCount('(', s);
    BracketsOfCount(')', s);
    BracketsOfCount('[', s);
    BracketsOfCount(']', s);
    BracketsOfCount('{', s);
    BracketsOfCount('}', s);
  }

  // ---------------------------------------------------------------------
  // The textbook matcher
  // ---------------------------------------------------------------------

  /**
   * The usual fail-fast matcher over brackets: push openers, and on a
   * closer require its opener on top and pop it; succeed when input and
   * stack run out together.
   */
  predicate Matches(cs: seq<char>, stack: seq<char>)
    decreases |cs|
  {
    if |cs| == 0 then |stack| == 0
    else if IsCloser(cs[0]) then |stack| > 0 && stack[0] == OpenerOf(cs[0]) && Matches(cs[1..], stack[1..])
    else Matches(cs[1..], [cs[0]] + stack)
  }

  predicate AllOpeners(stack: seq<char>)
  {
    forall i :: 0 <= i < |stack| ==> IsOpener(stack[i])
  }

  /** From a stack of openers, the fold ends empty exactly when the textbook matcher accepts. */
  lemma {:induction false} FoldEmptyIffMatches(cs: seq<char>, stack: seq<char>)
    requires forall i :: 0 <= i < |cs| ==> IsBracket(cs[i])
    requires AllOpeners(stack)
    ensures |Fold(cs, stack)| == 0 <==> Matches(cs, stack)
    decreases |cs|
  {
    if |cs| > 0 {
      var c := cs[0];
      var next := CheckParenthesis(stack, c);
      if IsCloser(c) && !(|stack| > 0 && stack[0] == OpenerOf(c)) {
        assert next == [c] + stack;
        StackWithCloserNeverEmpties(cs[1..], next, 0);
      } else {
        assert AllOpeners(next);
        FoldEmptyIffMatches(cs[1..], next);
      }
    }
  }

  /** `isPaired` accepts exactly the strings whose brackets the textbook matcher accepts. */
  lemma IsPairedIffMatches(s: string)
    ensures IsPaired(s) <==> Matches(BracketsOf(s), [])
  {
    FoldEmptyIffMatches(BracketsOf(s), []);
  }

  /** `"([]{})"` is paired, `"(]"` and `"(("` are not. */
  lemma Examples()
    ensures IsPaired("([]{})")
    ensures !IsPaired("(]")
    ensures !IsPaired("((")
  {
    IsPairedIffMatches("([]{})");
    IsPairedIffMatches("(]");
    IsPairedIffMatches("((");
  }
}
