/**
 * The loop over the feed entries of one ticker (stock-sentiment.py lines
 * 44 and 60-91): URL deduplication through `visited_links`, the article
 * request with its handled and unhandled failures, and the recording of
 * each scored article under its title.
 */
module FeedEntries {
  import opened Inputs
  import opened Scoring
  import opened ModelObjects

  /** State of the entry loop: the URLs visited for this ticker, in order, and the store. */
  datatype TickerPass = TickerPass(visited: seq<string>, data: ModelObject)

  predicate NoDuplicates(xs: seq<string>) {
    forall a, b :: 0 <= a < b < |xs| ==> xs[a] != xs[b]
  }

  /** The request succeeded with status 200, so its paragraphs are scored. */
  predicate Fetched(o: FetchOutcome) {
    o.Response? && o.status == 200
  }

  /**
   * One feed entry. A URL already visited is skipped. Otherwise the URL is
   * marked as visited before it is requested, so a URL whose request failed
   * is not requested again; a failed request records nothing.
   */
  function EntryStep(s: TickerPass, e: Entry, env: Env, i: nat): (r: Run<TickerPass>)
    ensures r.Uncaught? <==> e.url !in s.visited && env.fetch(i, e.url).FetchRaised?
    ensures r.Completed? ==> GetTickerSentiments(r.value.data) == GetTickerSentiments(s.data)
    ensures r.Completed? ==> forall u :: u in r.value.visited <==> u in s.visited || u == e.url
    ensures r.Completed? && NoDuplicates(s.visited) ==> NoDuplicates(r.value.visited)
    ensures r.Completed? && !Fetched(env.fetch(i, e.url)) ==> r.value.data == s.data
    ensures e.url in s.visited ==> r == Completed(s)
    ensures e.url !in s.visited && Fetched(env.fetch(i, e.url)) ==>
              && r.Completed?
              && GetArticleSentiments(r.value.data)
                 == GetArticleSentiments(s.data)[e.title := ArticleTotal(env.fetch(i, e.url).paragraphs, env.classify)]
  {
    if e.url in s.visited then Completed(s)
    else
      var visited := s.visited + [e.url];
      match env.fetch(i, e.url)
      case MissingSchema => Completed(TickerPass(visited, s.data))
      case FetchRaised => Uncaught
      case Response(status, paragraphs) =>
        if status != 200 then Completed(TickerPass(visited, s.data))
        else
          var total := ArticleTotal(paragraphs, env.classify);
          Completed(TickerPass(visited, AddArticleSentiment(s.data, e.title, total)))
  }

  /** All entries of one ticker, left to right, starting from an empty visited list. */
  function EntriesFold(entries: seq<Entry>, env: Env, i: nat, data: ModelObject): Run<TickerPass>
    decreases |entries|
  {
    if |entries| == 0 then Completed(TickerPass([], data))
    else
      match EntriesFold(entries[..|entries| - 1], env, i, data)
      case Uncaught => Uncaught
      case Completed(s) => EntryStep(s, entries[|entries| - 1], env, i)
  }

  /** Entry k carries the first appearance of its URL among the entries. */
  ghost predicate FirstOccurrence(entries: seq<Entry>, k: nat)
    requires k < |entries|
  {
    forall j :: 0 <= j < k ==> entries[j].url != entries[k].url
  }

  /** Entry k is requested (first appearance of its URL) and the request succeeds. */
  ghost predicate Kept(entries: seq<Entry>, k: nat, env: Env, i: nat)
    requires k < |entries|
  {
    FirstOccurrence(entries, k) && Fetched(env.fetch(i, entries[k].url))
  }

  /** Entry k is kept and no later kept entry has the same title. */
  ghost predicate LastKept(entries: seq<Entry>, k: nat, env: Env, i: nat)
    requires k < |entries|
  {
    && Kept(entries, k, env, i)
    && forall j :: k < j < |entries| && Kept(entries, j, env, i) ==> entries[j].title != entries[k].title
  }

  /** The total of a kept entry's article. */
  ghost function KeptTotal(entries: seq<Entry>, k: nat, env: Env, i: nat): real
    requires k < |entries| && Kept(entries, k, env, i)
  {
    ArticleTotal(env.fetch(i, entries[k].url).paragraphs, env.classify)
  }

  /**
   * Reference description of one ticker's article map: one key per title of
   * a kept entry, holding the total of the last kept entry with that title.
   */
  ghost predicate IsArticleReport(m: map<string, real>, entries: seq<Entry>, env: Env, i: nat) {
    && (forall t :: t in m <==> exists k :: 0 <= k < |entries| && Kept(entries, k, env, i) && entries[k].title == t)
    && (forall k :: 0 <= k < |entries| && LastKept(entries, k, env, i) ==>
          entries[k].title in m && m[entries[k].title] == KeptTotal(entries, k, env, i))
  }

  /** Some requested URL raises an exception the loop does not handle. */
  ghost predicate RaisesIn(entries: seq<Entry>, env: Env, i: nat) {
    exists k :: 0 <= k < |entries| && FirstOccurrence(entries, k) && env.fetch(i, entries[k].url).FetchRaised?
  }

  /** The visited list holds exactly the URLs that appear among the entries. */
  ghost predicate VisitsExactly(visited: seq<string>, entries: seq<Entry>) {
    forall u :: u in visited <==> exists k :: 0 <= k < |entries| && entries[k].url == u
  }

  lemma PrefixFirstOccurrence(entries: seq<Entry>, n: nat, k: nat)
    requires k < n <= |entries|
    ensures FirstOccurrence(entries[..n], k) == FirstOccurrence(entries, k)
  {
  }

  /** The last entry is a first appearance exactly when its URL was not visited by the earlier ones. */
  lemma LastFirstOccurrence(entries: seq<Entry>, visited: seq<string>)
    requires |entries| > 0
    requires VisitsExactly(visited, entries[..|entries| - 1])
    ensures FirstOccurrence(entries, |entries| - 1) <==> entries[|entries| - 1].url !in visited
  {
  }

  /** The loop ends with an unhandled exception exactly when some requested URL raises one. */
  lemma {:induction false} EntriesFoldRaises(entries: seq<Entry>, env: Env, i: nat, data: ModelObject)
    ensures EntriesFold(entries, env, i, data).Uncaught? <==> RaisesIn(entries, env, i)
    decreases |entries|
  {
    if |entries| == 0 {
      return;
    }
    var n := |entries| - 1;
    var prefix := entries[..n];
    var e := entries[n];
    EntriesFoldRaises(prefix, env, i, data);
    EntriesFoldVisits(prefix, env, i, data);
    forall k | 0 <= k < n {
      PrefixFirstOccurrence(entries, n, k);
    }
    match EntriesFold(prefix, env, i, data)
    case Uncaught =>
      var k :| 0 <= k < n && FirstOccurrence(prefix, k) && env.fetch(i, prefix[k].url).FetchRaised?;
      assert FirstOccurrence(entries, k) && env.fetch(i, entries[k].url).FetchRaised?;
    case Completed(s) =>
      LastFirstOccurrence(entries, s.visited);
      assert forall k :: 0 <= k < n && FirstOccurrence(entries, k) ==> !env.fetch(i, entries[k].url).FetchRaised?;
  }

  /**
   * When the loop completes, every URL among the entries has been visited,
   * and so requested, once and only once, and earlier commits are untouched.
   */
  lemma {:induction false} EntriesFoldVisits(entries: seq<Entry>, env: Env, i: nat, data: ModelObject)
    ensures var r := EntriesFold(entries, env, i, data);
            r.Completed? ==>
              && GetTickerSentiments(r.value.data) == GetTickerSentiments(data)
              && NoDuplicates(r.value.visited)
              && VisitsExactly(r.value.visited, entries)
    decreases |entries|
  {
    if |entries| == 0 {
      return;
    }
    var n := |entries| - 1;
    var prefix := entries[..n];
    EntriesFoldVisits(prefix, env, i, data);
    match EntriesFold(prefix, env, i, data)
    case Uncaught =>
    case Completed(s) =>
      var r := EntryStep(s, entries[n], env, i);
      if r.Completed? {
        VisitsStep(entries, s.visited, r.value.visited);
      }
  }

  /** Visiting the last entry's URL extends "visits exactly the earlier entries' URLs" to all entries. */
  lemma VisitsStep(entries: seq<Entry>, visited: seq<string>, visited': seq<string>)
    requires |entries| > 0
    requires VisitsExactly(visited, entries[..|entries| - 1])
    requires forall u :: u in visited' <==> u in visited || u == entries[|entries| - 1].url
    ensures VisitsExactly(visited', entries)
  {
    var n := |entries| - 1;
    var prefix := entries[..n];
    forall u ensures u in visited' <==> exists k :: 0 <= k < |entries| && entries[k].url == u {
      if u in visited {
        var k :| 0 <= k < n && prefix[k].url == u;
        assert entries[k].url == u;
      }
      if exists k :: 0 <= k < |entries| && entries[k].url == u {
        var k :| 0 <= k < |entries| && entries[k].url == u;
        if k < n {
          assert prefix[k].url == u;
        }
      }
    }
  }

  /** Starting from an empty article map, the loop builds the reference article map. */
  lemma {:induction false} EntriesFoldReport(entries: seq<Entry>, env: Env, i: nat, data: ModelObject)
    requires GetArticleSentiments(data) == map[]
    ensures var r := EntriesFold(entries, env, i, data);
            r.Completed? ==> IsArticleReport(GetArticleSentiments(r.value.data), entries, env, i)
    decreases |entries|
  {
    if |entries| == 0 {
      return;
    }
    var n := |entries| - 1;
    var prefix := entries[..n];
    var e := entries[n];
    EntriesFoldReport(prefix, env, i, data);
    EntriesFoldVisits(prefix, env, i, data);
    forall k | 0 <= k < n {
      PrefixFirstOccurrence(entries, n, k);
    }
    match EntriesFold(prefix, env, i, data)
    case Uncaught =>
    case Completed(s) =>
      LastFirstOccurrence(entries, s.visited);
      var r := EntryStep(s, e, env, i);
      if r.Completed? {
        var m, m' := GetArticleSentiments(s.data), GetArticleSentiments(r.value.data);
        assert Kept(entries, n, env, i) <==> e.url !in s.visited && Fetched(env.fetch(i, e.url));
        assert m' == if Kept(entries, n, env, i) then m[e.title := KeptTotal(entries, n, env, i)] else m;
        ArticleStepSpec(entries, env, i, m, m');
      }
  }

  /**
   * The entry loop of one ticker, in full: it ends with an unhandled exception
   * exactly when some requested URL raises one; otherwise every URL among the
   * entries is requested once and only once, earlier commits are untouched,
   * and, starting from an empty article map, the map built is the reference
   * one.
   */
  lemma EntriesFoldSpec(entries: seq<Entry>, env: Env, i: nat, data: ModelObject)
    ensures EntriesFold(entries, env, i, data).Uncaught? <==> RaisesIn(entries, env, i)
    ensures var r := EntriesFold(entries, env, i, data);
            r.Completed? ==>
              && GetTickerSentiments(r.value.data) == GetTickerSentiments(data)
              && NoDuplicates(r.value.visited)
              && VisitsExactly(r.value.visited, entries)
              && (GetArticleSentiments(data) == map[] ==>
                    IsArticleReport(GetArticleSentiments(r.value.data), entries, env, i))
  {
    EntriesFoldRaises(entries, env, i, data);
    EntriesFoldVisits(entries, env, i, data);
    if GetArticleSentiments(data) == map[] {
      EntriesFoldReport(entries, env, i, data);
    }
  }

  /** The inductive step of the reference description, for the last entry. */
  lemma ArticleStepSpec(entries: seq<Entry>, env: Env, i: nat, m: map<string, real>, m': map<string, real>)
    requires |entries| > 0
    requires IsArticleReport(m, entries[..|entries| - 1], env, i)
    requires var n := |entries| - 1;
             forall k :: 0 <= k < n ==> FirstOccurrence(entries[..n], k) == FirstOccurrence(entries, k)
    requires var n := |entries| - 1;
             m' == if Kept(entries, n, env, i) then m[entries[n].title := KeptTotal(entries, n, env, i)] else m
    ensures IsArticleReport(m', entries, env, i)
  {
    PrefixKept(entries, env, i);
    ArticleStepKeys(entries, env, i, m, m');
    ArticleStepValues(entries, env, i, m, m');
  }

  lemma PrefixKept(entries: seq<Entry>, env: Env, i: nat)
    requires |entries| > 0
    requires var n := |entries| - 1;
             forall k :: 0 <= k < n ==> FirstOccurrence(entries[..n], k) == FirstOccurrence(entries, k)
    ensures var n := |entries| - 1;
            forall k :: 0 <= k < n ==>
              entries[..n][k] == entries[k] && Kept(entries[..n], k, env, i) == Kept(entries, k, env, i)
  {
  }

  lemma ArticleStepKeys(entries: seq<Entry>, env: Env, i: nat, m: map<string, real>, m': map<string, real>)
    requires |entries| > 0
    requires IsArticleReport(m, entries[..|entries| - 1], env, i)
    requires var n := |entries| - 1;
             forall k :: 0 <= k < n ==>
               entries[..n][k] == entries[k] && Kept(entries[..n], k, env, i) == Kept(entries, k, env, i)
    requires var n := |entries| - 1;
             m'.Keys == if Kept(entries, n, env, i) then m.Keys + {entries[n].title} else m.Keys
    ensures forall t :: t in m' <==> exists k :: 0 <= k < |entries| && Kept(entries, k, env, i) && entries[k].title == t
  {
    var n := |entries| - 1;
    var prefix := entries[..n];
    assert forall t :: t in m' <==> t in m || (Kept(entries, n, env, i) && t == entries[n].title);
    forall t | t in m'
      ensures exists k :: 0 <= k < |entries| && Kept(entries, k, env, i) && entries[k].title == t
    {
      if t in m {
        var k :| 0 <= k < n && Kept(prefix, k, env, i) && prefix[k].title == t;
        assert Kept(entries, k, env, i) && entries[k].title == t;
      } else {
        assert Kept(entries, n, env, i) && entries[n].title == t;
      }
    }
    forall t | exists k :: 0 <= k < |entries| && Kept(entries, k, env, i) && entries[k].title == t
      ensures t in m'
    {
      var k :| 0 <= k < |entries| && Kept(entries, k, env, i) && entries[k].title == t;
      if k < n {
        assert Kept(prefix, k, env, i) && prefix[k].title == t;
      }
    }
  }

  lemma ArticleStepValues(entries: seq<Entry>, env: Env, i: nat, m: map<string, real>, m': map<string, real>)
    requires |entries| > 0
    requires IsArticleReport(m, entries[..|entries| - 1], env, i)
    requires var n := |entries| - 1;
             forall k :: 0 <= k < n ==>
               entries[..n][k] == entries[k] && Kept(entries[..n], k, env, i) == Kept(entries, k, env, i)
    requires var n := |entries| - 1;
             m' == if Kept(entries, n, env, i) then m[entries[n].title := KeptTotal(entries, n, env, i)] else m
    ensures forall k :: 0 <= k < |entries| && LastKept(entries, k, env, i) ==>
              entries[k].title in m' && m'[entries[k].title] == KeptTotal(entries, k, env, i)
  {
    var n := |entries| - 1;
    var prefix := entries[..n];
    forall k | 0 <= k < |entries| && LastKept(entries, k, env, i)
      ensures entries[k].title in m' && m'[entries[k].title] == KeptTotal(entries, k, env, i)
    {
      if k < n {
        assert LastKept(prefix, k, env, i);
        assert KeptTotal(prefix, k, env, i) == KeptTotal(entries, k, env, i);
      }
    }
  }

  /** Every kept entry has a last kept entry with the same title at or after it. */
  lemma {:induction false} LastKeptExists(entries: seq<Entry>, k: nat, env: Env, i: nat)
    requires k < |entries| && Kept(entries, k, env, i)
    ensures exists k' :: k <= k' < |entries| && LastKept(entries, k', env, i) && entries[k'].title == entries[k].title
    decreases |entries| - k
  {
    if !LastKept(entries, k, env, i) {
      var j :| k < j < |entries| && Kept(entries, j, env, i) && entries[j].title == entries[k].title;
      LastKeptExists(entries, j, env, i);
    }
  }

  /** The reference description admits exactly one article map. */
  lemma ArticleReportUnique(m1: map<string, real>, m2: map<string, real>, entries: seq<Entry>, env: Env, i: nat)
    requires IsArticleReport(m1, entries, env, i) && IsArticleReport(m2, entries, env, i)
    ensures m1 == m2
  {
    forall t | t in m1 ensures t in m2 && m1[t] == m2[t] {
      var k :| 0 <= k < |entries| && Kept(entries, k, env, i) && entries[k].title == t;
      LastKeptExists(entries, k, env, i);
    }
    assert m1.Keys == m2.Keys;
  }
}
