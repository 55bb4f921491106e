/**
 * `treeToSentence` of part2.ts: a tree of words read out as one sentence,
 * the root first and then each child's sentence, separated by single
 * spaces.
 */
module WordTrees {
  import opened Strings

  datatype WordTree = WordTree(root: string, children: seq<WordTree>)

  function TreeToSentence(t: WordTree): string
    decreases t, 1
  {
    Join([t.root] + Sentences(t.children), " ")
  }

  /** `children.map(treeToSentence)` */
  function Sentences(ts: seq<WordTree>): (r: seq<string>)
    ensures |r| == |ts|
    decreases ts, 0
  {
    seq(|ts|, i requires 0 <= i < |ts| => TreeToSentence(ts[i]))
  }

  /** The roots in pre-order: the root, then each child's roots in turn. */
  function PreOrder(t: WordTree): (r: seq<string>)
    ensures |r| > 0 && r[0] == t.root
    decreases t, 1
  {
    [t.root] + PreOrderAll(t.children)
  }

  function PreOrderAll(ts: seq<WordTree>): (r: seq<string>)
    ensures |ts| > 0 ==> |r| > 0
    decreases ts, 0
  {
    if |ts| == 0 then [] else PreOrder(ts[0]) + PreOrderAll(ts[1..])
  }

  /** A leaf's sentence is its root. */
  lemma LeafSentence(w: string)
    ensures TreeToSentence(WordTree(w, [])) == w
  {
    assert [w] + Sentences([]) == [w];
  }

  /** The sentence is the pre-order roots joined by single spaces. */
  lemma {:induction false} SentenceIsPreOrder(t: WordTree)
    ensures TreeToSentence(t) == Join(PreOrder(t), " ")
    decreases t, 1
  {
    var cs := t.children;
    assert TreeToSentence(t) == Join([t.root] + Sentences(cs), " ");
    if |cs| > 0 {
      SentencesArePreOrder(cs);
      JoinAppend([t.root], Sentences(cs), " ");
      JoinAppend([t.root], PreOrderAll(cs), " ");
    } else {
      assert [t.root] + Sentences(cs) == [t.root];
      assert PreOrder(t) == [t.root];
    }
  }

  /** The children's sentences, joined, are their pre-order roots joined. */
  lemma {:induction false} SentencesArePreOrder(ts: seq<WordTree>)
    requires |ts| > 0
    ensures Join(Sentences(ts), " ") == Join(PreOrderAll(ts), " ")
    decreases ts, 0
  {
    SentenceIsPreOrder(ts[0]);
    if |ts| == 1 {
      assert Sentences(ts) == [TreeToSentence(ts[0])];
      assert PreOrderAll(ts) == PreOrder(ts[0]);
    } else {
      var rest := ts[1..];
      SentencesArePreOrder(rest);
      assert Sentences(ts) == [TreeToSentence(ts[0])] + Sentences(rest);
      JoinAppend([TreeToSentence(ts[0])], Sentences(rest), " ");
      JoinAppend(PreOrder(ts[0]), PreOrderAll(rest), " ");
    }
  }

  function Words(t: WordTree): nat
    decreases t, 1
  {
    1 + WordsAll(t.children)
  }

  function WordsAll(ts: seq<WordTree>): nat
    decreases ts, 0
  {
    if |ts| == 0 then 0 else Words(ts[0]) + WordsAll(ts[1..])
  }

  lemma {:induction false} PreOrderLength(t: WordTree)
    ensures |PreOrder(t)| == Words(t)
    decreases t, 1
  {
    PreOrderAllLength(t.children);
  }

  lemma {:induction false} PreOrderAllLength(ts: seq<WordTree>)
    ensures |PreOrderAll(ts)| == WordsAll(ts)
    decreases ts, 0
  {
    if |ts| > 0 {
      PreOrderLength(ts[0]);
      PreOrderAllLength(ts[1..]);
    }
  }

  /** No root contains a space. */
  predicate NoSpaces(t: WordTree)
  {
    forall i :: 0 <= i < |PreOrder(t)| ==> ' ' !in PreOrder(t)[i]
  }

  /**
   * When no root contains a space, splitting the sentence at spaces gives
   * back the roots in pre-order, one piece per node.
   */
  lemma SplitSentence(t: WordTree)
    requires NoSpaces(t)
    ensures Split(TreeToSentence(t), ' ') == PreOrder(t)
    ensures |Split(TreeToSentence(t), ' ')| == Words(t)
  {
    SentenceIsPreOrder(t);
    SplitJoin(PreOrder(t), ' ');
    PreOrderLength(t);
  }

  /** `{root: "hello", children: [{root: "world", children: []}]}` reads `"hello world"`. */
  lemma Example()
    ensures TreeToSentence(WordTree("hello", [WordTree("world", [])])) == "hello world"
  {
    LeafSentence("world");
    var t := WordTree("hello", [WordTree("world", [])]);
    assert Sentences(t.children) == ["world"];
    assert [t.root] + Sentences(t.children) == ["hello", "world"];
    assert Join(["hello", "world"], " ") == "hello" + " " + "world";
  }
}
