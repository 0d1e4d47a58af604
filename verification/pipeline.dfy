/**
 * The driver `model(tickers)` (stock-sentiment.py lines 41-93): one pass per
 * ticker, which selects the feed URL for the source, reads the feed, skips the
 * ticker when the feed fails, otherwise runs the entry loop and commits the
 * ticker's article map.
 */
module Pipeline {
  import opened Inputs
  import opened ModelObjects
  import opened FeedEntries

  const YahooFeedPrefix: string := "https://feeds.finance.yahoo.com/rss/2.0/headline?s="

  /** The Yahoo headline feed of a ticker. */
  function FeedUrl(ticker: string): string {
    YahooFeedPrefix + ticker
  }

  /** Distinct tickers read distinct feeds. */
  lemma FeedUrlInjective(a: string, b: string)
    ensures FeedUrl(a) == FeedUrl(b) ==> a == b
  {
    var p := |YahooFeedPrefix|;
    assert FeedUrl(a)[p..] == a && FeedUrl(b)[p..] == b;
  }

  /** State of the ticker loop: still going, left by `break`, or ended by an unhandled exception. */
  datatype Loop = Running(data: ModelObject) | Stopped(data: ModelObject) | Crashed

  /** The feed answer was a status-200 response, so its entries are processed. */
  predicate FeedOk(o: FeedOutcome) {
    o.FeedResponse? && o.status == 200
  }

  /**
   * One ticker, the i-th of the input. An unsupported source leaves the loop.
   * A feed that fails in a handled way leaves the store as it is; a feed that
   * succeeds leads to the entry loop (with a fresh visited list) and to a
   * commit of the ticker's article map.
   */
  function TickerStep(data: ModelObject, i: nat, ticker: string, env: Env): (r: Loop)
    ensures r.Stopped? <==> env.source.Unsupported?
    ensures r.Stopped? ==> r.data == data
    ensures var o := env.feed(i, FeedUrl(ticker));
            env.source.Yahoo? && (o.SaxParseError? || (o.FeedResponse? && o.status != 200)) ==> r == Running(data)
    ensures r.Running? && FeedOk(env.feed(i, FeedUrl(ticker))) ==>
              && GetTickerSentiments(r.data).Keys == GetTickerSentiments(data).Keys + {ticker}
              && GetArticleSentiments(r.data) == map[]
    ensures !r.Crashed? && GetArticleSentiments(data) == map[] ==> GetArticleSentiments(r.data) == map[]
    ensures env.source.Yahoo? && env.feed(i, FeedUrl(ticker)).FeedRaised? ==> r.Crashed?
    ensures var o := env.feed(i, FeedUrl(ticker));
            env.source.Yahoo? && FeedOk(o) ==>
              (r.Crashed? <==> EntriesFold(o.entries, env, i, data).Uncaught?)
    ensures var o := env.feed(i, FeedUrl(ticker));
            r.Running? && FeedOk(o) ==>
              && EntriesFold(o.entries, env, i, data).Completed?
              && GetTickerSentiments(r.data)[ticker]
                 == GetArticleSentiments(EntriesFold(o.entries, env, i, data).value.data)
              && forall t :: t in GetTickerSentiments(data) && t != ticker ==>
                   GetTickerSentiments(r.data)[t] == GetTickerSentiments(data)[t]
  {
    match env.source
    case Unsupported(_) => Stopped(data)
    case Yahoo =>
      match env.feed(i, FeedUrl(ticker))
      case SaxParseError => Running(data)
      case FeedRaised => Crashed
      case FeedResponse(status, entries) =>
        if status != 200 then Running(data)
        else
          match EntriesFold(entries, env, i, data)
          case Uncaught => Crashed
          case Completed(s) =>
            EntriesFoldVisits(entries, env, i, data);
            Running(AddTickerSentiment(s.data, ticker, GetArticleSentiments(s.data)))
  }

  /** All tickers, left to right; after a `break` or an exception nothing more happens. */
  function TickersFold(tickers: seq<string>, env: Env): Loop
    decreases |tickers|
  {
    if |tickers| == 0 then Running(Fresh)
    else
      var n := |tickers| - 1;
      match TickersFold(tickers[..n], env)
      case Running(data) => TickerStep(data, n, tickers[n], env)
      case Stopped(data) => Stopped(data)
      case Crashed => Crashed
  }

  /** The result of `model(tickers)`: the committed reports, unless an exception escaped. */
  function Model(tickers: seq<string>, env: Env): Run<map<string, map<string, real>>> {
    match TickersFold(tickers, env)
    case Running(data) => Completed(GetTickerSentiments(data))
    case Stopped(data) => Completed(GetTickerSentiments(data))
    case Crashed => Uncaught
  }

  // ---------------------------------------------------------------------------
  // Reference description of the result

  ghost function FeedOf(tickers: seq<string>, env: Env, i: nat): FeedOutcome
    requires i < |tickers|
  {
    env.feed(i, FeedUrl(tickers[i]))
  }

  ghost predicate TickerFeedOk(tickers: seq<string>, env: Env, i: nat)
    requires i < |tickers|
  {
    FeedOk(FeedOf(tickers, env, i))
  }

  /** The i-th ticker's feed or one of its requested articles raises an unhandled exception. */
  ghost predicate TickerRaises(tickers: seq<string>, env: Env, i: nat)
    requires i < |tickers|
  {
    var o := FeedOf(tickers, env, i);
    o.FeedRaised? || (FeedOk(o) && RaisesIn(o.entries, env, i))
  }

  /** Ticker i has a good feed and no later occurrence of the same symbol has one. */
  ghost predicate LastFeedOk(tickers: seq<string>, env: Env, i: nat)
    requires i < |tickers|
  {
    && TickerFeedOk(tickers, env, i)
    && forall j :: i < j < |tickers| && TickerFeedOk(tickers, env, j) ==> tickers[j] != tickers[i]
  }

  /**
   * Reference description of the whole report: one key per ticker whose feed
   * was good, holding the reference article map of the last such occurrence.
   */
  ghost predicate IsTickerReport(r: map<string, map<string, real>>, tickers: seq<string>, env: Env) {
    && (forall t :: t in r <==> exists i :: 0 <= i < |tickers| && TickerFeedOk(tickers, env, i) && tickers[i] == t)
    && (forall i :: 0 <= i < |tickers| && LastFeedOk(tickers, env, i) ==>
          tickers[i] in r && IsArticleReport(r[tickers[i]], FeedOf(tickers, env, i).entries, env, i))
  }

  // ---------------------------------------------------------------------------
  // The ticker loop against the reference description

  lemma PrefixFeed(tickers: seq<string>, env: Env, n: nat)
    requires n <= |tickers|
    ensures forall k :: 0 <= k < n ==> FeedOf(tickers[..n], env, k) == FeedOf(tickers, env, k)
  {
  }

  /** With an unsupported source the first pass leaves the loop: nothing is committed. */
  lemma {:induction false} TickersFoldUnsupported(tickers: seq<string>, env: Env)
    requires env.source.Unsupported?
    ensures TickersFold(tickers, env) == if |tickers| == 0 then Running(Fresh) else Stopped(Fresh)
    decreases |tickers|
  {
    if |tickers| > 0 {
      TickersFoldUnsupported(tickers[..|tickers| - 1], env);
    }
  }

  /** With the Yahoo source the loop ends with an exception exactly when some ticker raises one. */
  lemma {:induction false} TickersFoldCrash(tickers: seq<string>, env: Env)
    requires env.source.Yahoo?
    ensures !TickersFold(tickers, env).Stopped?
    ensures TickersFold(tickers, env).Crashed? <==>
              exists i :: 0 <= i < |tickers| && TickerRaises(tickers, env, i)
    decreases |tickers|
  {
    if |tickers| == 0 {
      return;
    }
    var n := |tickers| - 1;
    var prefix := tickers[..n];
    TickersFoldCrash(prefix, env);
    PrefixFeed(tickers, env, n);
    assert forall k :: 0 <= k < n ==> TickerRaises(prefix, env, k) == TickerRaises(tickers, env, k);
    match TickersFold(prefix, env)
    case Crashed =>
      var k :| 0 <= k < n && TickerRaises(prefix, env, k);
      assert TickerRaises(tickers, env, k);
    case Stopped(_) =>
    case Running(data) =>
      var o := FeedOf(tickers, env, n);
      if FeedOk(o) {
        EntriesFoldRaises(o.entries, env, n, data);
      }
      assert TickersFold(tickers, env).Crashed? <==> TickerRaises(tickers, env, n);
  }

  /**
   * With the Yahoo source, a loop that completes leaves the article map empty
   * (nothing carries over to another ticker) and has built the reference report.
   */
  lemma {:induction false} TickersFoldReport(tickers: seq<string>, env: Env)
    requires env.source.Yahoo?
    ensures var r := TickersFold(tickers, env);
            r.Running? ==>
              && GetArticleSentiments(r.data) == map[]
              && IsTickerReport(GetTickerSentiments(r.data), tickers, env)
    decreases |tickers|
  {
    if |tickers| == 0 {
      return;
    }
    var n := |tickers| - 1;
    var prefix := tickers[..n];
    TickersFoldReport(prefix, env);
    TickersFoldCrash(prefix, env);
    match TickersFold(prefix, env)
    case Crashed =>
    case Stopped(_) =>
    case Running(data) =>
      var r := TickerStep(data, n, tickers[n], env);
      if r.Running? {
        PrefixFeed(tickers, env, n);
        var o := FeedOf(tickers, env, n);
        var before, after := GetTickerSentiments(data), GetTickerSentiments(r.data);
        if FeedOk(o) {
          EntriesFoldSpec(o.entries, env, n, data);
          var s := EntriesFold(o.entries, env, n, data).value;
          assert after == before[tickers[n] := GetArticleSentiments(s.data)];
          TickerCommitSpec(tickers, env, before, after, GetArticleSentiments(s.data));
        } else {
          TickerCommitSpec(tickers, env, before, after, map[]);
        }
      }
  }

  /** The inductive step of the reference report, for the last ticker. */
  lemma TickerCommitSpec(
    tickers: seq<string>, env: Env,
    before: map<string, map<string, real>>, after: map<string, map<string, real>>, articles: map<string, real>)
    requires |tickers| > 0
    requires IsTickerReport(before, tickers[..|tickers| - 1], env)
    requires var n := |tickers| - 1;
             forall k :: 0 <= k < n ==> FeedOf(tickers[..n], env, k) == FeedOf(tickers, env, k)
    requires var n := |tickers| - 1;
             TickerFeedOk(tickers, env, n) ==>
               IsArticleReport(articles, FeedOf(tickers, env, n).entries, env, n)
    requires var n := |tickers| - 1;
             after == if TickerFeedOk(tickers, env, n) then before[tickers[n] := articles] else before
    ensures IsTickerReport(after, tickers, env)
  {
    var n := |tickers| - 1;
    var prefix := tickers[..n];
    assert forall k :: 0 <= k < n ==> prefix[k] == tickers[k];
    assert forall k :: 0 <= k < n ==> TickerFeedOk(prefix, env, k) == TickerFeedOk(tickers, env, k);
    TickerCommitKeys(tickers, env, before, after);
    TickerCommitValues(tickers, env, before, after, articles);
  }

  lemma TickerCommitKeys(tickers: seq<string>, env: Env, before: map<string, map<string, real>>, after: map<string, map<string, real>>)
    requires |tickers| > 0
    requires var n := |tickers| - 1;
             forall t :: t in before <==> exists i :: 0 <= i < n && TickerFeedOk(tickers, env, i) && tickers[i] == t
    requires var n := |tickers| - 1;
             after.Keys == if TickerFeedOk(tickers, env, n) then before.Keys + {tickers[n]} else before.Keys
    ensures forall t :: t in after <==> exists i :: 0 <= i < |tickers| && TickerFeedOk(tickers, env, i) && tickers[i] == t
  {
  }

  lemma TickerCommitValues(
    tickers: seq<string>, env: Env,
    before: map<string, map<string, real>>, after: map<string, map<string, real>>, articles: map<string, real>)
    requires |tickers| > 0
    requires var n := |tickers| - 1;
             forall i :: 0 <= i < n && LastFeedOk(tickers[..n], env, i) ==>
               tickers[i] in before && IsArticleReport(before[tickers[i]], FeedOf(tickers, env, i).entries, env, i)
    requires var n := |tickers| - 1;
             forall k :: 0 <= k < n ==> TickerFeedOk(tickers[..n], env, k) == TickerFeedOk(tickers, env, k)
    requires var n := |tickers| - 1;
             TickerFeedOk(tickers, env, n) ==>
               IsArticleReport(articles, FeedOf(tickers, env, n).entries, env, n)
    requires var n := |tickers| - 1;
             after == if TickerFeedOk(tickers, env, n) then before[tickers[n] := articles] else before
    ensures forall i :: 0 <= i < |tickers| && LastFeedOk(tickers, env, i) ==>
              tickers[i] in after && IsArticleReport(after[tickers[i]], FeedOf(tickers, env, i).entries, env, i)
  {
  }

  /**
   * What `model(tickers)` returns. With an unsupported source, nothing. With
   * the Yahoo source, it ends with an exception exactly when some ticker's
   * feed or requested article raises one the loop does not handle; otherwise
   * its result is the reference report.
   */
  lemma ModelSpec(tickers: seq<string>, env: Env)
    ensures env.source.Unsupported? ==> Model(tickers, env) == Completed(map[])
    ensures env.source.Yahoo? ==>
              (Model(tickers, env).Uncaught? <==> exists i :: 0 <= i < |tickers| && TickerRaises(tickers, env, i))
    ensures env.source.Yahoo? && Model(tickers, env).Completed? ==>
              IsTickerReport(Model(tickers, env).value, tickers, env)
  {
    if env.source.Unsupported? {
      TickersFoldUnsupported(tickers, env);
    } else {
      TickersFoldCrash(tickers, env);
      TickersFoldReport(tickers, env);
    }
  }

  /** Every good feed has a last good occurrence of the same symbol at or after it. */
  lemma {:induction false} LastFeedOkExists(tickers: seq<string>, env: Env, i: nat)
    requires i < |tickers| && TickerFeedOk(tickers, env, i)
    ensures exists i' :: i <= i' < |tickers| && LastFeedOk(tickers, env, i') && tickers[i'] == tickers[i]
    decreases |tickers| - i
  {
    if !LastFeedOk(tickers, env, i) {
      var j :| i < j < |tickers| && TickerFeedOk(tickers, env, j) && tickers[j] == tickers[i];
      LastFeedOkExists(tickers, env, j);
    }
  }

  /** The reference description admits exactly one report. */
  lemma TickerReportUnique(
    r1: map<string, map<string, real>>, r2: map<string, map<string, real>>, tickers: seq<string>, env: Env)
    requires IsTickerReport(r1, tickers, env) && IsTickerReport(r2, tickers, env)
    ensures r1 == r2
  {
    forall t | t in r1 ensures t in r2 && r1[t] == r2[t] {
      var i :| 0 <= i < |tickers| && TickerFeedOk(tickers, env, i) && tickers[i] == t;
      LastFeedOkExists(tickers, env, i);
      var i' :| i <= i' < |tickers| && LastFeedOk(tickers, env, i') && tickers[i'] == t;
      ArticleReportUnique(r1[t], r2[t], FeedOf(tickers, env, i').entries, env, i');
    }
    assert r1.Keys == r2.Keys;
  }
}
