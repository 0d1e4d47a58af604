/**
 * The result store of the pipeline (class ModelObject, stock-sentiment.py
 * lines 21-39): the committed per-ticker reports and the article map of the
 * ticker in progress. The store is a value; every update returns a new one,
 * so a committed map can never be changed through an alias.
 */
module ModelObjects {

  datatype ModelObject = ModelObject(
    container: map<string, map<string, real>>,  // ticker -> (article title -> total)
    elements: map<string, real>)                // article title -> total, for the ticker in progress

  /** A new store: no ticker committed, no article recorded. */
  const Fresh: ModelObject := ModelObject(map[], map[])

  function GetArticleSentiments(o: ModelObject): map<string, real> {
    o.elements
  }

  function GetTickerSentiments(o: ModelObject): map<string, map<string, real>> {
    o.container
  }

  /** Records an article's total under its title; a title already present is overwritten. */
  function AddArticleSentiment(o: ModelObject, article: string, sentiment: real): (r: ModelObject)
    ensures GetArticleSentiments(r).Keys == GetArticleSentiments(o).Keys + {article}
    ensures GetArticleSentiments(r)[article] == sentiment
    ensures forall a :: a in GetArticleSentiments(o) && a != article ==>
              GetArticleSentiments(r)[a] == GetArticleSentiments(o)[a]
    ensures GetTickerSentiments(r) == GetTickerSentiments(o)
  {
    o.(elements := o.elements[article := sentiment])
  }

  /**
   * Commits the articles recorded so far under the ticker (overwriting an
   * earlier commit of the same ticker) and starts an empty article map. The
   * `sentiment` argument plays no part.
   */
  function AddTickerSentiment(o: ModelObject, ticker: string, sentiment: map<string, real>): (r: ModelObject)
    ensures GetTickerSentiments(r).Keys == GetTickerSentiments(o).Keys + {ticker}
    ensures GetTickerSentiments(r)[ticker] == GetArticleSentiments(o)
    ensures forall t :: t in GetTickerSentiments(o) && t != ticker ==>
              GetTickerSentiments(r)[t] == GetTickerSentiments(o)[t]
    ensures GetArticleSentiments(r) == map[]
  {
    ModelObject(o.container[ticker := o.elements], map[])
  }

  /** A run of article additions, in order. */
  function AddArticles(o: ModelObject, adds: seq<(string, real)>): ModelObject
    decreases |adds|
  {
    if |adds| == 0 then o
    else
      var last := adds[|adds| - 1];
      AddArticleSentiment(AddArticles(o, adds[..|adds| - 1]), last.0, last.1)
  }

  /** Which argument is passed as `sentiment` makes no difference to a commit. */
  lemma CommitIgnoresArgument(o: ModelObject, ticker: string, s1: map<string, real>, s2: map<string, real>)
    ensures AddTickerSentiment(o, ticker, s1) == AddTickerSentiment(o, ticker, s2)
  {
  }

  /** Recording the same title twice keeps only the second total. */
  lemma ArticleLastWriteWins(o: ModelObject, article: string, s1: real, s2: real)
    ensures AddArticleSentiment(AddArticleSentiment(o, article, s1), article, s2)
            == AddArticleSentiment(o, article, s2)
  {
  }

  /**
   * Once a ticker is committed, no later article addition reaches its map:
   * the committed map stays what the article map was at the commit, and the
   * new article map holds exactly the later additions.
   */
  lemma {:induction false} CommittedTickerIsFrozen(
    o: ModelObject, ticker: string, sentiment: map<string, real>, adds: seq<(string, real)>)
    ensures var c := AddTickerSentiment(o, ticker, sentiment);
            && GetTickerSentiments(AddArticles(c, adds)) == GetTickerSentiments(c)
            && GetTickerSentiments(AddArticles(c, adds))[ticker] == GetArticleSentiments(o)
            && GetArticleSentiments(AddArticles(c, adds)).Keys == set k | 0 <= k < |adds| :: adds[k].0
    decreases |adds|
  {
    var c := AddTickerSentiment(o, ticker, sentiment);
    if |adds| > 0 {
      var n := |adds| - 1;
      CommittedTickerIsFrozen(o, ticker, sentiment, adds[..n]);
      assert (set k | 0 <= k < |adds| :: adds[k].0) == (set k | 0 <= k < n :: adds[..n][k].0) + {adds[n].0};
    }
  }
}
