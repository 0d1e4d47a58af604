/**
 * The values the sentiment pipeline receives from its collaborators.
 *
 * The RSS reader, the HTTP client, the HTML parser and the text classifier
 * are not modelled; what each of them hands back to the pipeline is given
 * here as plain data. Each network answer is indexed by the position of the
 * ticker in the input list, so that two visits of the same ticker (or of the
 * same article URL under two tickers) may see different answers.
 */
module Inputs {

  /** One item of a syndication feed: the headline and the article link. */
  datatype Entry = Entry(title: string, url: string)

  /** What reading the RSS feed of one ticker produces. */
  datatype FeedOutcome =
    | FeedResponse(status: int, entries: seq<Entry>)  // the feed's HTTP status and its items, in feed order
    | SaxParseError                                    // the XML could not be parsed; handled by the loop
    | FeedRaised                                       // any other exception; nothing in the loop handles it

  /** What requesting one article produces. */
  datatype FetchOutcome =
    | Response(status: int, paragraphs: seq<string>)  // the HTTP status and the text of every <p>, in document order
    | MissingSchema                                    // the URL has no scheme; handled by the loop
    | FetchRaised                                      // any other exception (connection error, ...); not handled

  /** The first result of the classifier for one paragraph: its label and its confidence. */
  datatype Classification = Classification(category: string, score: real)

  /** The news source selected on the command line. */
  datatype Source = Yahoo | Unsupported(name: string)

  /**
   * Everything outside the core: the selected source, the two network calls
   * (keyed by the ticker's position in the input and the requested URL) and
   * the classifier.
   */
  datatype Env = Env(
    source: Source,
    feed: (nat, string) -> FeedOutcome,
    fetch: (nat, string) -> FetchOutcome,
    classify: string -> Classification)

  /** A computation that either completes or is ended by an exception nobody catches. */
  datatype Run<+T> = Completed(value: T) | Uncaught
}
