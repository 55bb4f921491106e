/**
 * `countLetters` of part2.ts: drop the spaces, lower-case what is left and
 * count each character. Lower-casing is ASCII only; the counts are a map
 * from character to number of occurrences.
 */
module Letters {

  /** The lower-case letters, in alphabetical order: the i-th is the image of the i-th capital. */
  const LowerCaseAlphabet := "abcdefghijklmnopqrstuvwxyz"

  function ToLower(c: char): (r: char)
    ensures 'A' <= c <= 'Z' ==> 'a' <= r <= 'z'
    ensures !('A' <= c <= 'Z') ==> r == c
  {
    if 'A' <= c <= 'Z' then (c as int - 'A' as int + 'a' as int) as char else c
  }

  /** Each capital becomes the letter at the same place in the lower-case alphabet; nothing else changes. */
  lemma ToLowerIsAlphabetic(c: char)
    ensures 'A' <= c <= 'Z' ==> ToLower(c) == LowerCaseAlphabet[c as int - 'A' as int]
    ensures !('A' <= c <= 'Z') ==> ToLower(c) == c
  {
  }

  /** The characters that are counted: every non-space character, lower-cased, in order. */
  function Counted(s: string): (r: string)
    ensures |r| <= |s|
    decreases |s|
  {
    if |s| == 0 then [] else (if s[0] == ' ' then [] else [ToLower(s[0])]) + Counted(s[1..])
  }

  /** `R.countBy(identity)`: one increment per element, left to right. */
  function CountBy(cs: seq<char>): map<char, nat>
    decreases |cs|
  {
    if |cs| == 0 then map[]
    else
      var m := CountBy(cs[..|cs| - 1]);
      var c := cs[|cs| - 1];
      m[c := (if c in m then m[c] else 0) + 1]
  }

  function CountLetters(s: string): map<char, nat>
  {
    CountBy(Counted(s))
  }

  // ---------------------------------------------------------------------
  // Reference definitions
  // ---------------------------------------------------------------------

  /** Whether position `i` of `s` is counted under the key `c`. */
  predicate CountsAs(s: string, i: int, c: char)
    requires 0 <= i < |s|
  {
    s[i] != ' ' && ToLower(s[i]) == c
  }

  /** The number of positions of `s` counted under `c`. */
  function Occurrences(s: string, c: char): nat
    decreases |s|
  {
    if |s| == 0 then 0 else (if CountsAs(s, 0, c) then 1 else 0) + Occurrences(s[1..], c)
  }

  function Spaces(s: string): nat
    decreases |s|
  {
    if |s| == 0 then 0 else (if s[0] == ' ' then 1 else 0) + Spaces(s[1..])
  }

  /** The count a map gives a key, absent keys counting zero. */
  function Get(m: map<char, nat>, c: char): nat
  {
    if c in m then m[c] else 0
  }

  // ---------------------------------------------------------------------
  // Counting
  // ---------------------------------------------------------------------

  /** How many times `c` occurs in `cs`, counted from the back as `countBy` does. */
  function CountIn(cs: seq<char>, c: char): nat
    decreases |cs|
  {
    if |cs| == 0 then 0 else CountIn(cs[..|cs| - 1], c) + (if cs[|cs| - 1] == c then 1 else 0)
  }

  /** `countBy` gives each key its number of occurrences, and has exactly the occurring keys. */
  lemma {:induction false} CountByCounts(cs: seq<char>, c: char)
    ensures Get(CountBy(cs), c) == CountIn(cs, c)
    ensures c in CountBy(cs) <==> CountIn(cs, c) > 0
    decreases |cs|
  {
    if |cs| > 0 {
      CountByCounts(cs[..|cs| - 1], c);
    }
  }

  lemma {:induction false} CountInAppend(a: seq<char>, b: seq<char>, c: char)
    ensures CountIn(a + b, c) == CountIn(a, c) + CountIn(b, c)
    decreases |b|
  {
    if |b| == 0 {
      assert a + b == a;
    } else {
      assert (a + b)[..|a + b| - 1] == a + b[..|b| - 1];
      CountInAppend(a, b[..|b| - 1], c);
    }
  }

  lemma CountInSingle(x: char, c: char)
    ensures CountIn([x], c) == if x == c then 1 else 0
  {
    assert [x][..0] == [];
  }

  /** The counted characters hold as many `c`s as `s` has positions counted under `c`. */
  lemma {:induction false} CountedOccurrences(s: string, c: char)
    ensures CountIn(Counted(s), c) == Occurrences(s, c)
    decreases |s|
  {
    if |s| > 0 {
      CountedOccurrences(s[1..], c);
      var h: string := if s[0] == ' ' then [] else [ToLower(s[0])];
      CountInAppend(h, Counted(s[1..]), c);
      if s[0] != ' ' {
        CountInSingle(ToLower(s[0]), c);
      }
    }
  }

  /** Every key's count is the number of positions counted under it; absent keys have none. */
  lemma CountLettersSpec(s: string, c: char)
    ensures Get(CountLetters(s), c) == Occurrences(s, c)
    ensures c in CountLetters(s) <==> Occurrences(s, c) > 0
  {
    CountByCounts(Counted(s), c);
    CountedOccurrences(s, c);
  }

  lemma {:induction false} OccurrencesPositive(s: string, c: char)
    ensures Occurrences(s, c) > 0 <==> exists i :: 0 <= i < |s| && CountsAs(s, i, c)
    decreases |s|
  {
    if |s| > 0 {
      OccurrencesPositive(s[1..], c);
      if exists i :: 0 <= i < |s| && CountsAs(s, i, c) {
        var i :| 0 <= i < |s| && CountsAs(s, i, c);
        if i > 0 {
          assert CountsAs(s[1..], i - 1, c);
        }
      }
      if exists i :: 0 <= i < |s[1..]| && CountsAs(s[1..], i, c) {
        var i :| 0 <= i < |s[1..]| && CountsAs(s[1..], i, c);
        assert CountsAs(s, i + 1, c);
      }
    }
  }

  /** The keys are exactly the lower-cased non-space characters of the input. */
  lemma CountLettersKeys(s: string, c: char)
    ensures c in CountLetters(s) <==> exists i :: 0 <= i < |s| && CountsAs(s, i, c)
  {
    CountLettersSpec(s, c);
    OccurrencesPositive(s, c);
  }

  /** There is never a key for the space character. */
  lemma NoSpaceKey(s: string)
    ensures ' ' !in CountLetters(s)
  {
    CountLettersKeys(s, ' ');
    assert forall i :: 0 <= i < |s| ==> !CountsAs(s, i, ' ');
  }

  /** No key is an upper-case letter. */
  lemma KeysLowerCase(s: string, c: char)
    requires c in CountLetters(s)
    ensures !('A' <= c <= 'Z')
  {
    CountLettersKeys(s, c);
    var i :| 0 <= i < |s| && CountsAs(s, i, c);
  }

  /** Strings that agree up to letter case have the same counts. */
  lemma CaseInsensitive(s: string, t: string)
    requires |s| == |t|
    requires forall i :: 0 <= i < |s| ==> (s[i] == ' ' <==> t[i] == ' ') && ToLower(s[i]) == ToLower(t[i])
    ensures CountLetters(s) == CountLetters(t)
  {
    assert Counted(s) == Counted(t) by {
      CountedPointwise(s, t);
    }
  }

  lemma {:induction false} CountedPointwise(s: string, t: string)
    requires |s| == |t|
    requires forall i :: 0 <= i < |s| ==> (s[i] == ' ' <==> t[i] == ' ') && ToLower(s[i]) == ToLower(t[i])
    ensures Counted(s) == Counted(t)
    decreases |s|
  {
    if |s| > 0 {
      assert forall i :: 0 <= i < |s[1..]| ==> s[1..][i] == s[i + 1] && t[1..][i] == t[i + 1];
      CountedPointwise(s[1..], t[1..]);
    }
  }

  // ---------------------------------------------------------------------
  // The counts add up
  // ---------------------------------------------------------------------

  /** The sum of the counts a map gives the keys in `ks`. */
  ghost function SumOver(m: map<char, nat>, ks: set<char>): nat
    decreases ks
  {
    if ks == {} then 0
    else
      var k :| k in ks;
      Get(m, k) + SumOver(m, ks - {k})
  }

  /** The sum of all counts in a map. */
  ghost function Total(m: map<char, nat>): nat
  {
    SumOver(m, m.Keys)
  }

  /** The sum does not depend on which key is taken first. */
  lemma {:induction false} SumOverRemove(m: map<char, nat>, ks: set<char>, k: char)
    requires k in ks
    ensures SumOver(m, ks) == Get(m, k) + SumOver(m, ks - {k})
    decreases ks
  {
    var j :| j in ks && SumOver(m, ks) == Get(m, j) + SumOver(m, ks - {j});
    if j != k {
      SumOverRemove(m, ks - {j}, k);
      SumOverRemove(m, ks - {k}, j);
      assert ks - {j} - {k} == ks - {k} - {j};
    }
  }

  /** Maps that agree on `ks` have the same sum over it. */
  lemma {:induction false} SumOverAgree(m: map<char, nat>, m': map<char, nat>, ks: set<char>)
    requires forall k :: k in ks ==> Get(m, k) == Get(m', k)
    ensures SumOver(m, ks) == SumOver(m', ks)
    decreases ks
  {
    if ks != {} {
      var k :| k in ks;
      SumOverRemove(m, ks, k);
      SumOverRemove(m', ks, k);
      SumOverAgree(m, m', ks - {k});
    }
  }

  /** Adding one to a key (new or not) adds one to the total. */
  lemma Increment(m: map<char, nat>, c: char)
    ensures Total(m[c := Get(m, c) + 1]) == Total(m) + 1
  {
    var m' := m[c := Get(m, c) + 1];
    var rest := m.Keys - {c};
    assert m'.Keys == m.Keys + {c};
    assert m'.Keys - {c} == rest;
    SumOverRemove(m', m'.Keys, c);
    SumOverAgree(m, m', rest);
    if c in m {
      SumOverRemove(m, m.Keys, c);
    } else {
      assert m.Keys == rest;
    }
  }

  lemma {:induction false} CountByTotal(cs: seq<char>)
    ensures Total(CountBy(cs)) == |cs|
    decreases |cs|
  {
    if |cs| > 0 {
      CountByTotal(cs[..|cs| - 1]);
      Increment(CountBy(cs[..|cs| - 1]), cs[|cs| - 1]);
    }
  }

  lemma {:induction false} CountedLength(s: string)
    ensures |Counted(s)| == |s| - Spaces(s)
    decreases |s|
  {
    if |s| > 0 {
      CountedLength(s[1..]);
    }
  }

  /** The counts sum to the number of non-space characters. */
  lemma CountsSumToNonSpaces(s: string)
    ensures Total(CountLetters(s)) == |s| - Spaces(s)
  {
    CountByTotal(Counted(s));
    CountedLength(s);
  }

  /** `"Aa b"` counts two `a`s and one `b`. */
  lemma Example()
    ensures CountLetters("Aa b") == map['a' := 2, 'b' := 1]
  {
    assert Counted("Aa b") == "aab";
    assert "aab"[..2] == "aa" && "aa"[..1] == "a" && "a"[..0] == "";
  }
}
