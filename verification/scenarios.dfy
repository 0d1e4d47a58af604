/**
 * Small concrete runs of the pipeline, each fixing one behaviour of the
 * loop on a hand-built feed, article set and classifier.
 */
module Scenarios {
  import opened Inputs
  import opened Scoring
  import opened ModelObjects
  import opened FeedEntries
  import opened Pipeline

  /** Positive paragraphs "up", negative "down", everything else neutral. */
  function Classifier(p: string): Classification {
    if p == "up" then Classification(PositiveLabel, 0.8)
    else if p == "down" then Classification(NegativeLabel, 0.2)
    else Classification("neutral", 0.9)
  }

  /** Paragraphs scored +0.8, -0.2 and 0 make an article total of 0.6. */
  lemma MixedArticleTotal()
    ensures ArticleTotal(["up", "down", "flat"], Classifier) == 0.6
  {
  }

  /** Every article URL answers 200 with a single positive paragraph. */
  function AllGood(i: nat, url: string): FetchOutcome {
    Response(200, ["up"])
  }

  /** Two entries with one URL: the URL is visited once and only the first title is recorded. */
  lemma DuplicateUrlFetchedOnce()
    ensures var env := Env(Yahoo, (i: nat, u: string) => SaxParseError, AllGood, Classifier);
            var r := EntriesFold([Entry("first", "http://a"), Entry("second", "http://a")], env, 0, Fresh);
            && r.Completed?
            && r.value.visited == ["http://a"]
            && GetArticleSentiments(r.value.data) == map["first" := 0.8]
  {
  }

  /** The article "http://b" answers 404; the others answer 200. */
  function OneMissing(i: nat, url: string): FetchOutcome {
    if url == "http://b" then Response(404, []) else Response(200, ["up"])
  }

  /** The network of the three-article scenario: every feed fails to parse, "http://b" answers 404. */
  function OneMissingEnv(): Env {
    Env(Yahoo, (i: nat, u: string) => SaxParseError, OneMissing, Classifier)
  }

  /** The first two entries of the three-article scenario: "A" recorded, "B" visited but not recorded. */
  lemma OneMissingFirstTwo()
    ensures EntriesFold([Entry("A", "http://a"), Entry("B", "http://b")], OneMissingEnv(), 0, Fresh)
            == Completed(TickerPass(["http://a", "http://b"], AddArticleSentiment(Fresh, "A", 0.8)))
  {
    var env := OneMissingEnv();
    var a, b := Entry("A", "http://a"), Entry("B", "http://b");
    assert [a, b][..1] == [a] && [a][..0] == [];
    assert ArticleTotal(["up"], env.classify) == 0.8 by {
      assert ["up"][..0] == [];
    }
    var s1 := TickerPass(["http://a"], AddArticleSentiment(Fresh, "A", 0.8));
    assert EntryStep(TickerPass([], Fresh), a, env, 0) == Completed(s1) by {
      assert [] + ["http://a"] == ["http://a"];
    }
    assert EntriesFold([a], env, 0, Fresh) == Completed(s1);
    assert "http://b" !in s1.visited && s1.visited + ["http://b"] == ["http://a", "http://b"];
  }

  /** One failed article out of three: the other two are recorded. */
  lemma OneOfThreeFails()
    ensures var entries := [Entry("A", "http://a"), Entry("B", "http://b"), Entry("C", "http://c")];
            var r := EntriesFold(entries, OneMissingEnv(), 0, Fresh);
            && r.Completed?
            && GetArticleSentiments(r.value.data) == map["A" := 0.8, "C" := 0.8]
  {
    var env := OneMissingEnv();
    var a, b, c := Entry("A", "http://a"), Entry("B", "http://b"), Entry("C", "http://c");
    var entries := [a, b, c];
    assert entries[..2] == [a, b];
    OneMissingFirstTwo();
    assert ArticleTotal(["up"], env.classify) == 0.8 by {
      assert ["up"][..0] == [];
    }
    var s2 := TickerPass(["http://a", "http://b"], AddArticleSentiment(Fresh, "A", 0.8));
    assert "http://c" !in s2.visited && s2.visited + ["http://c"] == ["http://a", "http://b", "http://c"];
  }

  /** The feed of "ZZZZ" answers 404; every other feed lists one article. */
  function ZzzzMissing(i: nat, url: string): FeedOutcome {
    if url == FeedUrl("ZZZZ") then FeedResponse(404, []) else FeedResponse(200, [Entry("news", "http://n")])
  }

  /** A ticker whose feed is not found gets no key, and the next ticker is still processed. */
  lemma MissingTickerSkipped()
    ensures Model(["ZZZZ", "ACME"], Env(Yahoo, ZzzzMissing, AllGood, Classifier))
            == Completed(map["ACME" := map["news" := 0.8]])
  {
    var env := Env(Yahoo, ZzzzMissing, AllGood, Classifier);
    var tickers := ["ZZZZ", "ACME"];
    assert tickers[..1] == ["ZZZZ"] && ["ZZZZ"][..0] == [];
    FeedUrlInjective("ACME", "ZZZZ");
    assert TickersFold(["ZZZZ"], env) == Running(Fresh);
    var n := Entry("news", "http://n");
    assert [n][..0] == [] && ["up"][..0] == [];
    var s := TickerPass(["http://n"], AddArticleSentiment(Fresh, "news", 0.8));
    assert EntryStep(TickerPass([], Fresh), n, env, 1) == Completed(s) by {
      assert [] + ["http://n"] == ["http://n"];
    }
    assert EntriesFold([n], env, 1, Fresh) == Completed(s);
    assert TickersFold(tickers, env) == Running(AddTickerSentiment(s.data, "ACME", map["news" := 0.8]));
  }

  /** Each pass over "X" sees a different single article. */
  function Changing(i: nat, url: string): FeedOutcome {
    FeedResponse(200, [Entry(if i == 0 then "old" else "new", "http://x")])
  }

  /** A repeated ticker keeps only the map of its last pass; the shared URL is fetched again. */
  lemma RepeatedTickerLastWins()
    ensures Model(["X", "X"], Env(Yahoo, Changing, AllGood, Classifier))
            == Completed(map["X" := map["new" := 0.8]])
  {
    var env := Env(Yahoo, Changing, AllGood, Classifier);
    var tickers := ["X", "X"];
    assert tickers[..1] == ["X"] && ["X"][..0] == [];
    var earlier, later := Entry("old", "http://x"), Entry("new", "http://x");
    assert [earlier][..0] == [] && [later][..0] == [] && ["up"][..0] == [];
    assert [] + ["http://x"] == ["http://x"];
    var s0 := TickerPass(["http://x"], AddArticleSentiment(Fresh, "old", 0.8));
    assert EntriesFold([earlier], env, 0, Fresh) == Completed(s0) by {
      assert EntryStep(TickerPass([], Fresh), earlier, env, 0) == Completed(s0);
    }
    var first := AddTickerSentiment(s0.data, "X", map["old" := 0.8]);
    assert TickersFold(["X"], env) == Running(first);
    var s1 := TickerPass(["http://x"], AddArticleSentiment(first, "new", 0.8));
    assert EntriesFold([later], env, 1, first) == Completed(s1) by {
      assert EntryStep(TickerPass([], first), later, env, 1) == Completed(s1);
    }
    var last := AddTickerSentiment(s1.data, "X", map["new" := 0.8]);
    assert TickersFold(tickers, env) == Running(last);
    assert GetArticleSentiments(s1.data) == map["new" := 0.8];
    assert GetTickerSentiments(last) == map["X" := map["new" := 0.8]];
  }

  /** An unsupported source stops the loop before any ticker is committed. */
  lemma UnsupportedSourceGivesNothing()
    ensures Model(["ACME"], Env(Unsupported("Reuters"), ZzzzMissing, AllGood, Classifier)) == Completed(map[])
  {
  }
}
