# News feeds, result paging and the v1 search API, modelled in Dafny

This project models three small pieces of a government search site.

- **News-feed refresh** (`rss_feed.dfy`, `rss_feed_properties.dfy`, `markup.dfy`).
  An affiliate has RSS feeds. `RssFeed#freshen(ignore_older_items = true)`
  merges the items of the feed's current RSS 2.0 or Atom document into the
  feed's news items. `RssFeed.refresh_all` freshens every feed.
  `FeedStore` is a class that holds the news-item table and the warning log as
  sequences. Its `Freshen` and `RefreshAll` methods loop over the items, and
  over the feeds, the way the source does. Each method is proved equal to a
  specification function (`Freshened`, `RefreshedAll`). The lemmas in
  `RssFeedProperties` state what those functions guarantee.
- **Result post-processing** (`results_post_processor.dfy`). The number of
  result pages (20 results a page, at most 500 pages, 0 when the count cannot be
  converted). Also the translation of the search engine's private-use highlight
  markers U+E000 and U+E001 into `<strong>` and `</strong>`.
- **The v1 search API** (`api_controller.dfy`). The before-filter that lets a
  request through only for a whitelisted affiliate. The search options, which
  always use 10 results per page. The mapping from the `index` parameter to a
  vertical.

`common.dfy` holds an `Option` type for Ruby's nil. It also holds the
ActiveSupport notions `blank?` and `present?`.

The `RssFeed` class is not modelled line by line. Its behaviour is taken from
`spec/models/rss_feed_spec.rb`. Two modelling choices rest on particular test
lines:

- When every date fails to parse, the test expects exactly one warning
  (spec/models/rss_feed_spec.rb:150-155). So the first exception ends the
  pass and is logged once, and items created before it stay.
- The age rule skips only items strictly older than the newest stored date
  (`Admitted`). The tests say only that "older" items are not imported by
  default (spec/models/rss_feed_spec.rb:103-127). No test tells `<` from
  `<=`: where a stored item may share a document item's date
  (spec/models/rss_feed_spec.rb:133-138), it also shares its guid, so it is
  skipped either way.

Other choices the tests leave open, stated once here:

- The newest stored date is read once, at the start of the pass.
- An item's date is parsed before its guid is checked.
- The guid check looks at the table as it stands. That includes items created
  earlier in the same pass, so a guid repeated within one document is stored
  once.
- Only the description is stripped of markup.
- `StripMarkup` drops every `<...>` span. An unclosed `<` drops the rest of
  the text.

## Model

| member | source | states |
|---|---|---|
| `ResultsPostProcessor.TotalPages` | app/models/results_post_processor.rb:8-16 | below the cap the page count is the ceiling of n/20 (20·(p−1) < n ≤ 20·p); above 9980 results it is exactly 500; it never exceeds 500; a count with no integer conversion gives 0 |
| `ResultsPostProcessor.ExactMultiplePages` | app/models/results_post_processor.rb:9-10 | 20·k results give min(k, 500) pages, 20·k + 1 give min(k + 1, 500) |
| `ResultsPostProcessor.TotalPagesMonotone` | app/models/results_post_processor.rb:8-13 | more results never give fewer pages |
| `ResultsPostProcessor.TotalPagesInRange` | app/models/results_post_processor.rb:8-13 | a non-negative count gives between 0 and 500 pages |
| `ResultsPostProcessor.TranslateHighlights` | app/models/results_post_processor.rb:18-22 | nil maps to nil and only nil does; otherwise the result is the character-by-character reference translation, contains neither marker, and equals the input when the input has no marker |
| `ResultsPostProcessor.TwoPassesAreOnePass` | app/models/results_post_processor.rb:21 | the two chained substitutions equal the one-pass reference translation |
| `ResultsPostProcessor.RenderRemovesMarkers` | app/models/results_post_processor.rb:21 | no U+E000 or U+E001 survives translation |
| `ResultsPostProcessor.RenderKeepsPlainText` | app/models/results_post_processor.rb:21 | a body without markers is returned unchanged |
| `ResultsPostProcessor.RenderAppend` | app/models/results_post_processor.rb:21 | translation distributes over concatenation, so every other character keeps its place |
| `ResultsPostProcessor.GsubAppend` | app/models/results_post_processor.rb:21 | a one-character `gsub` of a concatenation is the concatenation of the `gsub`s |
| `ResultsPostProcessor.GsubAbsent` | app/models/results_post_processor.rb:21 | a `gsub` whose character does not occur changes nothing |
| `ApiController.GetVertical` | app/controllers/api_controller.rb:30-43 | "news" and "videonews" give News, "images" gives Image, "docs" gives Docs, and every other value, nil included, gives Web (each an if-and-only-if) |
| `ApiController.SearchOptions` | app/controllers/api_controller.rb:7-8 | the options hold the affiliate's options merged with format, index and lat_lon from the parameters (nil when absent) and per_page 10; the merged keys win and every other key keeps its value |
| `ApiController.PerPageIsAlwaysTen` | app/controllers/api_controller.rb:2-8 | whatever the parameters and defaults, per_page is 10 |
| `ApiController.ApiRequest.LoadAffiliate` | app/controllers/api_controller.rb:20-28 | the affiliate is looked up only when the parameter is present; the request proceeds if and only if an affiliate was found and its name is whitelisted; then its engine is Bing and its name is unchanged; otherwise the response is 404 "Not Found" and no affiliate changes |
| `ApiController.ApiRequest.Search` | app/controllers/api_controller.rb:6-16 | stores the merged search options (per_page 10) and reports the vertical of the `index` parameter for the impression log |
| `ApiController.ApiRequest.Handle` | app/controllers/api_controller.rb:4-16 | the search runs if and only if the before-filter let the request through; then the affiliate is on Bing with its name unchanged; a halted request has a 404, no new search options and its affiliate unchanged; no other affiliate changes |
| `ApiController.MissingAffiliateIsNotFound` | app/controllers/api_controller.rb:21-27 | a new request without an `affiliate` parameter gets 404, no affiliate and no search, and changes no affiliate |
| `Markup.StripFrom` | spec/models/rss_feed_spec.rb:90-98 | the text outside tags has no `<`, is no longer than the input, and is the input itself when the input has no `<` |
| `Markup.StripMarkup` | spec/models/rss_feed_spec.rb:90-98 | the stored description has no tag left, is never longer than the raw text, and plain text is kept unchanged |
| `Markup.PlainPrefixKept` | spec/models/rss_feed_spec.rb:98 | text before the first `<` is kept unchanged and stripping goes on after it |
| `Markup.TagThenText` | spec/models/rss_feed_spec.rb:90-98 | a closed tag is dropped and stripping goes on after it; with the previous lemma this fixes the result on every input whose tags close |
| `Markup.WrappedTextKept` | spec/models/rss_feed_spec.rb:98 | the text of an element such as `<p>text</p>` is kept exactly |
| `Markup.StripMarkupIdempotent` | spec/models/rss_feed_spec.rb:90-98 | stripping twice is stripping once |
| `RssFeed.Extract` | spec/models/rss_feed_spec.rb:77-184 | one candidate per RSS item or Atom entry, in document order, taking guid, link, title, description and date from it; an Atom entry's guid is its id; an unrecognised document yields none |
| `RssFeed.ToNewsItem` | spec/models/rss_feed_spec.rb:90-98 | a stored description never contains markup |
| `RssFeed.Classify` | spec/models/rss_feed_spec.rb:160-199 | an RSS 2.0 root, an Atom root and any other root are told apart exactly (each an if-and-only-if) |
| `RssFeed.Admitted` | spec/models/rss_feed_spec.rb:103-127 | every item is admitted when older items are not ignored or the feed has none; otherwise an item is admitted if and only if it is no older than the newest stored date |
| `RssFeed.Freshened` | spec/models/rss_feed_spec.rb:77-199 | one pass only appends items and appends at most one warning; a failed fetch changes only the log |
| `RssFeed.RefreshedAll` | spec/models/rss_feed_spec.rb:63-75 | refreshing every feed in turn only appends items |
| `RssFeed.Newest` | spec/models/rss_feed_spec.rb:103-120 | none if and only if the feed has no items; otherwise the date of one of its items and no earlier than any of them |
| `RssFeed.Ingest` | spec/models/rss_feed_spec.rb:103-157 | the item loop only appends, only items of the feed, each admitted by the age rule and with plain-text description; it keeps guids unique per feed; it fails if and only if some candidate's date does not parse |
| `RssFeed.FeedStore.Freshen` | spec/models/rss_feed_spec.rb:77-199 | the loop leaves the table and log equal to `Freshened` of the old state, and records one pass for the feed |
| `RssFeed.FeedStore.RefreshAll` | spec/models/rss_feed_spec.rb:63-75 | freshens each feed once, in order, with the default policy; the final state is `RefreshedAll` of the old one |
| `RssFeed.Validate` | spec/models/rss_feed_spec.rb:13-60 | one error for each blank url, name or affiliate_id and one when the URL does not give an RSS 2.0 or Atom document (an exception included); valid if and only if there is none |
| `RssFeedProperties.IngestAppendsAccepted` | spec/models/rss_feed_spec.rb:103-146 | for every document, repeated guids included, the loop appends exactly the candidates that are recent enough and whose guid was neither stored before the pass nor taken by an earlier candidate, in document order |
| `RssFeedProperties.IngestStoresAdmittedGuids` | spec/models/rss_feed_spec.rb:103-127 | with every date parseable, the feed's guids afterwards are the old ones plus those of the admitted candidates, and the loop does not fail |
| `RssFeedProperties.IngestSettles` | spec/models/rss_feed_spec.rb:130-146 | rerunning the loop over a table that already has every guid it stored, with a newest date at least as new, changes nothing |
| `RssFeedProperties.FreshenAppendsOnly` | spec/models/rss_feed_spec.rb:85-101 | a pass only appends items of the freshened feed, each admitted and markup-free, and logs at most one warning |
| `RssFeedProperties.OlderItemsIgnored` | spec/models/rss_feed_spec.rb:115-120 | under the default policy every added item is at least as new as the newest stored before the pass |
| `RssFeedProperties.FreshenKeepsGuidsUnique` | spec/models/rss_feed_spec.rb:130-146 | no feed gets a guid twice |
| `RssFeedProperties.FreshenLeavesOtherFeeds` | spec/models/rss_feed_spec.rb:63-75 | freshening one feed leaves every other feed's items unchanged |
| `RssFeedProperties.FreshenStoresAdmittedGuids` | spec/models/rss_feed_spec.rb:103-127 | the feed's guids afterwards are the old ones plus the admitted candidates'; with `ignore_older_items = false`, plus every candidate's |
| `RssFeedProperties.FreshenIdempotent` | spec/models/rss_feed_spec.rb:130-146 | a second pass over the same document adds nothing |
| `RssFeedProperties.ExceptionLoggedOnce` | spec/models/rss_feed_spec.rb:148-157 | a failed fetch logs one warning and changes no item; an unparseable date logs exactly one warning; a warning is logged if and only if one of the two happened |
| `RssFeedProperties.NoDateParses` | spec/models/rss_feed_spec.rb:148-157 | when no date parses, nothing is stored and exactly one warning is logged |
| `RssFeedProperties.UnrecognisedDocumentChangesNothing` | spec/models/rss_feed_spec.rb:186-199 | a document in neither dialect changes neither the table nor the log |
| `RssFeedProperties.EmptyFeedTakesEveryRssItem` | spec/models/rss_feed_spec.rb:85-101 | an empty feed gets one item per RSS item, in order, with its guid, link, title and date and its description stripped |
| `RssFeedProperties.EmptyFeedTakesEveryAtomEntry` | spec/models/rss_feed_spec.rb:167-183 | an empty feed gets one item per Atom entry, whose guid is the entry's id |
| `RssFeedProperties.StoredAllOnEmptyFeed` | spec/models/rss_feed_spec.rb:85-101 | on a feed without items, every candidate of a recognised document with distinct guids and parseable dates is stored, in order |
| `RssFeedProperties.KnownGuidNotRecreated` | spec/models/rss_feed_spec.rb:130-146 | when exactly one item's guid is already stored and none is too old, one fewer item than the document holds is created |
| `RssFeedProperties.OlderItemSkippedOnlyByDefault` | spec/models/rss_feed_spec.rb:103-127 | a feed with one stored item and a document with exactly one older item ends with as many items as the document by default, and one more with `ignore_older_items = false` |
| `RssFeedProperties.RefreshAllLeavesUnlistedFeeds` | spec/models/rss_feed_spec.rb:63-75 | a feed outside the batch keeps its items |
| `RssFeedProperties.RefreshAllKeepsGuidsUnique` | spec/models/rss_feed_spec.rb:63-75 | refreshing all feeds keeps guids unique per feed |
| `RssFeedProperties.RefreshAllWarnsAtMostOncePerFeed` | spec/models/rss_feed_spec.rb:63-75 | the log only grows, and by at most one warning per feed, so a failing feed does not stop the others |

## Left out

- Fetching a feed (`Kernel.open`), XML parsing and `DateTime.parse` are
  network I/O and foreign libraries. A document arrives as a value. Its dialect
  is given by its root element, and each item's date is already parsed or
  marked unparseable. An exception raised while opening the URL is the value
  `Raised`.
- The `RssFeed` model class is not part of this model. Its behaviour is taken
  from its test file. How it picks an RSS item's guid when the `guid` element
  is missing is not modelled, nor which Atom date element it reads. An Atom
  entry carries one abstract timestamp.
- A failure of `NewsItem.create!` itself, such as a database validation error,
  is not modelled. Only the fetch and the date parse raise.
- The stripping helper is not modelled. `Markup.StripMarkup` uses its own
  tag-dropping rule. Character entities are not decoded.
- The text of the logged exception is not modelled. A warning is a `Failure`
  value.
- The association declarations (`belong_to :affiliate`,
  `has_many :news_items, dependent: :destroy`) and cascading deletes are outside
  the model. So is any concurrency between refreshes.
- `refresh_all` reads `RssFeed.all` from the database. Here the feeds are a
  parameter, with one fetch outcome per feed.
- `ApiController`: `Affiliate.find_by_name` is a lookup in a map, and the set
  of whitelisted handles is a parameter. `search_options_from_params` is not
  part of this model; its result is the `base` parameter.
  `ApiSearch#run`, `SearchImpression.log`, `respond_to` rendering and
  `ssl_allowed` are external services or presentation. The action returns the
  vertical it would log.
- `Common.IsWhitespace` covers the ASCII whitespace of Ruby's `\s`. Newer
  ActiveSupport versions also count Unicode spaces as blank.
- `ResultsPostProcessor.TranslateHighlights`: Ruby's `gsub` raises
  `ArgumentError` on a body holding an invalid byte sequence. A Dafny `string`
  is a sequence of characters and cannot hold such a body, so that error is
  not modelled.
- `ResultsPostProcessor.TotalPages`: the conversion `to_i` itself (string
  parsing) is not modelled. The input is the integer `to_i` yields, or the
  fact that it raised.
