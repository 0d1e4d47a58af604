/**
 * Turning classifier output into numbers: the signed score of one paragraph
 * and the running total of one article (stock-sentiment.py, lines 78-88).
 */
module Scoring {
  import opened Inputs

  const PositiveLabel: string := "positive"
  const NegativeLabel: string := "negative"

  /** The factor the category contributes: 1, -1 or 0. */
  function Polarity(category: string): int {
    if category == PositiveLabel then 1 else if category == NegativeLabel then -1 else 0
  }

  /**
   * Signed score of one paragraph: the confidence times the category's polarity.
   * The confidence is used as given, without clamping.
   */
  function ParagraphScore(c: Classification): (r: real)
    ensures c.category == PositiveLabel ==> r == c.score
    ensures c.category == NegativeLabel ==> r == -c.score
    ensures c.category != PositiveLabel && c.category != NegativeLabel ==> r == 0.0
    ensures 0.0 <= c.score <= 1.0 ==> -1.0 <= r <= 1.0
  {
    c.score * (Polarity(c.category) as real)
  }

  /** Every paragraph's confidence lies in [0, 1], as a probability should. */
  ghost predicate Confident(paragraphs: seq<string>, classify: string -> Classification) {
    forall k :: 0 <= k < |paragraphs| ==> 0.0 <= classify(paragraphs[k]).score <= 1.0
  }

  /**
   * The total of an article: starting from 0, the paragraph scores are added
   * one by one in document order (a left fold, as the source's loop does).
   */
  function ArticleTotal(paragraphs: seq<string>, classify: string -> Classification): (r: real)
    ensures Confident(paragraphs, classify) ==>
              -(|paragraphs| as real) <= r <= |paragraphs| as real
    decreases |paragraphs|
  {
    if |paragraphs| == 0 then 0.0
    else
      var n := |paragraphs| - 1;
      assert Confident(paragraphs, classify) ==> Confident(paragraphs[..n], classify);
      ArticleTotal(paragraphs[..n], classify) + ParagraphScore(classify(paragraphs[n]))
  }

  /** The paragraph loop as written: one classifier call and one addition per paragraph. */
  method ScoreArticle(paragraphs: seq<string>, classify: string -> Classification) returns (total: real)
    ensures total == ArticleTotal(paragraphs, classify)
  {
    total := 0.0;
    var i := 0;
    while i < |paragraphs|
      invariant 0 <= i <= |paragraphs|
      invariant total == ArticleTotal(paragraphs[..i], classify)
    {
      total := total + ParagraphScore(classify(paragraphs[i]));
      i := i + 1;
      assert paragraphs[..i][..i - 1] == paragraphs[..i - 1];
    }
    assert paragraphs[..i] == paragraphs;
  }

  /** Splitting an article's paragraphs in two splits its total in two. */
  lemma {:induction false} ArticleTotalAppend(ps: seq<string>, qs: seq<string>, classify: string -> Classification)
    ensures ArticleTotal(ps + qs, classify) == ArticleTotal(ps, classify) + ArticleTotal(qs, classify)
    decreases |qs|
  {
    if |qs| == 0 {
      assert ps + qs == ps;
    } else {
      var n := |qs| - 1;
      assert (ps + qs)[..|ps + qs| - 1] == ps + qs[..n];
      ArticleTotalAppend(ps, qs[..n], classify);
    }
  }

  /** Taking one paragraph out of an article takes exactly its score out of the total. */
  lemma {:induction false} ArticleTotalRemove(ps: seq<string>, i: nat, classify: string -> Classification)
    requires i < |ps|
    ensures ArticleTotal(ps, classify)
            == ParagraphScore(classify(ps[i])) + ArticleTotal(ps[..i] + ps[i + 1..], classify)
  {
    assert ps == ps[..i] + ([ps[i]] + ps[i + 1..]);
    ArticleTotalAppend(ps[..i], [ps[i]] + ps[i + 1..], classify);
    ArticleTotalAppend([ps[i]], ps[i + 1..], classify);
    ArticleTotalAppend(ps[..i], ps[i + 1..], classify);
    assert [ps[i]][..0] == [];
  }

  /**
   * Exact sums do not depend on the order of the paragraphs: any rearrangement
   * of an article's paragraphs gives the same total.
   */
  lemma {:induction false} ArticleTotalPermutation(ps: seq<string>, qs: seq<string>, classify: string -> Classification)
    requires multiset(ps) == multiset(qs)
    ensures ArticleTotal(ps, classify) == ArticleTotal(qs, classify)
    decreases |ps|
  {
    if |ps| == 0 {
      assert |qs| == |multiset(qs)| == 0;
    } else {
      var n := |ps| - 1;
      var x := ps[n];
      assert ps == ps[..n] + [x];
      assert x in multiset(qs);
      var i :| 0 <= i < |qs| && qs[i] == x;
      var rest := qs[..i] + qs[i + 1..];
      assert qs == qs[..i] + [x] + qs[i + 1..];
      assert multiset(rest) == multiset(qs) - multiset{x};
      assert multiset(ps[..n]) == multiset(ps) - multiset{x};
      ArticleTotalPermutation(ps[..n], rest, classify);
      ArticleTotalRemove(qs, i, classify);
    }
  }
}
