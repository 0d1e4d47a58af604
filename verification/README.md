# stock-sentiment: the aggregation core, in Dafny

`stock-sentiment.py` reads the Yahoo Finance RSS headline feed of each ticker,
requests every linked article, scores each `<p>` paragraph with a financial
sentiment classifier and sums the paragraph scores into one number per article.
The result is a report `{ticker: {article title: total}}`, built in a small
store called `ModelObject`.

This project models that loop, `model(tickers)`, together with `ModelObject`.
The modelled behaviour covers:

- the mapping from a classifier label to a signed score;
- the per-article sum;
- URL deduplication through `visited_links`;
- skip-and-continue on handled feed and article failures;
- the overwrite semantics of the store, and the commit-then-reset step.

Everything outside the loop is an input, held in the `Env` datatype (`inputs.dfy`):

- `feed(i, url)`: what `feedparser.parse` gives for the i-th ticker's feed URL. This is a status and entries, a `SAXParseException`, or any other exception.
- `fetch(i, url)`: what `requests.get` gives for an article URL while the i-th ticker is processed. This is a status and the paragraph texts BeautifulSoup would extract, `MissingSchema`, or any other exception.
- `classify(text)`: the first `(label, score)` the classifier returns.
- `source`: the `--source` value.

Network answers are indexed by the ticker's position in the input. So a repeated ticker, or the same article URL under a second ticker, can get a different answer the second time.

Scores are exact `real`s.

Files:

- `inputs.dfy`: the boundary datatypes.
- `scoring.dfy`: paragraph score, article total, the paragraph loop.
- `model_object.dfy`: the `ModelObject` store.
- `feed_entries.dfy`: the entry loop of one ticker.
- `pipeline.dfy`: the ticker loop, `model()`, and the reference description of its result.
- `scenarios.dfy`: small concrete runs.

Each loop is modelled as a fold over the last element, which is the same order as Python's left-to-right `for`.

Each fold is related to an independent reference description:

- `FeedEntries.IsArticleReport`: one key per title of a *kept* entry, holding the total of the *last* kept entry with that title. An entry is kept when it is the first appearance of its URL in the ticker's feed and its request answered 200.
- `Pipeline.IsTickerReport`: one key per ticker whose feed answered 200, holding the reference article map of the last such occurrence.

Two lemmas prove that each reference description admits exactly one map: `ArticleReportUnique` and `TickerReportUnique`.

### Behaviour of the code worth knowing (the model follows the code)

- Not every single-item failure is skipped. The loop handles only `SAXParseException` (feed) and `MissingSchema` (article). A non-200 status is checked explicitly and skipped. Any other exception leaves `model()` and ends the run with no report. Examples are a connection error from `requests.get`, or an `AttributeError` when a feed result has no `status`. This is `Run.Uncaught`.
- `Source.Unsupported` models only the `case _: break` branch inside `model()` (line 47). From the command line this branch cannot be reached: `--source` is declared with `choices=["Yahoo"]` (line 98), so argparse rejects any other value at line 104, before `model()` runs at line 110. Inside `model()` the branch leaves the loop and returns the tickers committed so far. The source never changes within a run, so that is always the empty report.
- The feed's 404 and other non-200 statuses take different branches only to print different messages. Both skip the ticker. The same holds for an article's 404 and other statuses.

## Model

| member | source | states |
|---|---|---|
| Scoring.ParagraphScore | stock-sentiment.py:82-87 | label "positive" gives +score, "negative" gives -score, any other label 0; the score is not clamped; a confidence in [0,1] gives a value in [-1,1] |
| Scoring.ArticleTotal | stock-sentiment.py:78-88 | an article of n paragraphs whose confidences lie in [0,1] totals between -n and n |
| Scoring.ScoreArticle | stock-sentiment.py:78-88 | the paragraph loop (start at 0, add each paragraph's score in document order) computes the article total |
| Scoring.ArticleTotalAppend | stock-sentiment.py:78-88 | the total of paragraphs p followed by q is the total of p plus the total of q |
| Scoring.ArticleTotalRemove | stock-sentiment.py:78-88 | removing one paragraph removes exactly its score from the total |
| Scoring.ArticleTotalPermutation | stock-sentiment.py:78-88 | any rearrangement of an article's paragraphs has the same (exact) total |
| ModelObjects.AddArticleSentiment | stock-sentiment.py:34-35 | the title maps to the new total, every other title keeps its total, the committed tickers are untouched |
| ModelObjects.AddTickerSentiment | stock-sentiment.py:37-39 | the ticker maps to the article map as it was, other tickers keep their maps, the ticker key set grows by exactly the ticker, the article map is empty afterwards |
| ModelObjects.CommitIgnoresArgument | stock-sentiment.py:37-38 | the `sentiment` argument of a commit has no effect |
| ModelObjects.ArticleLastWriteWins | stock-sentiment.py:34-35 | recording a title twice keeps only the second total |
| ModelObjects.CommittedTickerIsFrozen | stock-sentiment.py:26-39 | after a commit, any run of article additions leaves every committed map unchanged (the ticker's map stays the article map at commit time) and the article map holds exactly the added titles |
| FeedEntries.EntryStep | stock-sentiment.py:61-91 | an already-visited URL leaves the visited list and the store unchanged; a new URL raises an unhandled exception iff its request raises one, and otherwise becomes visited without creating a duplicate; committed tickers are untouched; a failed request leaves the store unchanged; a new URL answering 200 records exactly its article total under its title (overwriting) and changes no other title |
| FeedEntries.LastFirstOccurrence | stock-sentiment.py:63-65 | an entry's URL is new to the visited list iff no earlier entry of the ticker has that URL |
| FeedEntries.EntriesFoldRaises | stock-sentiment.py:60-76 | the entry loop ends with an unhandled exception iff some first-appearance URL's request raises one |
| FeedEntries.EntriesFoldVisits | stock-sentiment.py:44-65 | after the entry loop every URL of the feed has been requested exactly once (the visited list is duplicate-free and holds exactly the feed's URLs) and committed tickers are untouched |
| FeedEntries.EntriesFoldReport | stock-sentiment.py:60-91 | from an empty article map, the entry loop builds the reference article map: kept titles only, the last kept total per title, failed and duplicate URLs contributing nothing |
| FeedEntries.EntriesFoldSpec | stock-sentiment.py:44-91 | the entry loop in full: exception iff a requested URL raises; else each URL is requested once, commits are untouched, and the article map is the reference one |
| FeedEntries.ArticleReportUnique | stock-sentiment.py:60-91 | the reference description of an article map determines it uniquely |
| Pipeline.FeedUrlInjective | stock-sentiment.py:46 | distinct tickers are read from distinct feed URLs |
| Pipeline.TickerStep | stock-sentiment.py:43-92 | an unsupported source leaves the loop with the store unchanged; a parse error or non-200 feed leaves the store unchanged; a feed that raises ends the run; a good feed ends the run iff its entry loop does, and otherwise commits under this ticker exactly the article map the entry loop built, keeps every other ticker's map, adds only this ticker's key and empties the article map; the article map is empty after every completed pass |
| Pipeline.TickersFoldUnsupported | stock-sentiment.py:45-47 | with an unsupported source the loop stops at the first ticker and nothing is committed |
| Pipeline.TickersFoldCrash | stock-sentiment.py:48-76 | with the Yahoo source the ticker loop never breaks, and ends with an exception iff some ticker's feed or requested article raises one |
| Pipeline.TickersFoldReport | stock-sentiment.py:41-92 | after every completed ticker loop the article map is empty (nothing leaks to the next ticker) and the committed report is the reference report |
| Pipeline.ModelSpec | stock-sentiment.py:41-93 | the result of `model()`: empty for an unsupported source; for Yahoo, an exception iff some ticker raises one, otherwise the reference report (keys exactly the tickers with a 200 feed, each holding the article map of its last good occurrence) |
| Pipeline.TickerReportUnique | stock-sentiment.py:41-93 | the reference description of the report determines it uniquely |
| Scenarios.MixedArticleTotal | stock-sentiment.py:78-88 | paragraphs scored +0.8, -0.2 and 0 total 0.6 |
| Scenarios.DuplicateUrlFetchedOnce | stock-sentiment.py:60-65 | two entries with the same URL: the visited list holds that URL once and only the first entry's title is recorded |
| Scenarios.OneOfThreeFails | stock-sentiment.py:66-91 | one 404 article among three: exactly the other two are recorded |
| Scenarios.MissingTickerSkipped | stock-sentiment.py:49-58 | a ticker whose feed answers 404 has no key and the next ticker is still processed |
| Scenarios.RepeatedTickerLastWins | stock-sentiment.py:44-92 | a repeated ticker keeps only its last pass's map, and the URL it shares with the first pass is requested again |
| Scenarios.UnsupportedSourceGivesNothing | stock-sentiment.py:45-47 | an unsupported source returns an empty report |

## Left out

- The classifier model and tokenizer loading (lines 8-19) is left out. The `nlp(text)` call is the uninterpreted `classify` input, which gives the first result's label and score.
- The case where the classifier returns an empty list, which would raise `IndexError`, is not modelled.
- Network access is not modelled: `feedparser.parse` and `requests.get` become the given `feed` and `fetch` answers. Transport timeouts are not modelled.
- HTML parsing (`BeautifulSoup(...).find_all("p")` and `.text`) is not modelled. An article answer carries the already-extracted paragraph texts.
- Floating point is not modelled. Scores and totals are exact reals. `ArticleTotalPermutation` holds for these exact sums but not for Python floats.
- Starting the total at the int `0` instead of `0.0` is not modelled, because it makes no numeric difference.
- The diagnostic and progress `print` calls inside the loop (lines 52-57, 69-75, 89-90) are not modelled. They are output only.
- The command-line handling (lines 95-115) is not modelled. This covers argparse, upper-casing of tickers, writing the JSON file, and the final prints. So the JSON write/read round trip is not modelled either.
- The file-extension check at line 106 is not modelled. As written, `... or "txt"` is always true, so it never raises.
- Concurrency: the source is sequential and so is the model.
- Pipeline.ModelSpec: "ends with an exception iff a feed or a requested article raises one" covers only the exceptions the input types can express. The next two lines name the exceptions the model cannot produce.
- A feed entry without a `title` or `link` attribute is not modelled. Every `Entry` carries both. In the code, lines 61-62 read both attributes before the duplicate check at line 63, so such an entry raises an uncaught `AttributeError` and ends `model()`, even when its URL is a duplicate. `ModelSpec`'s "ends with an exception iff a feed or a requested article raises one" does not cover this case.
- An exception from the classifier itself is not modelled. `classify` is a total function. In the code, `nlp(text)` at line 82 is called without truncation, and the pipeline built at line 19 does not truncate either, so a paragraph longer than the model's input limit can raise and end `model()`. The empty-list `IndexError` mentioned above is another instance.
- Dictionary order is not modelled. Python dicts keep insertion order, and an overwritten title or ticker keeps its first position; that order shows in the dict `model()` returns and in the JSON file. Dafny `map` values are unordered, so the model states only keys and values.

