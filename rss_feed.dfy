/** News feeds of an affiliate and the news items harvested from them.

    `freshen` reads a feed's current document and merges its items into the
    feed's stored news items: it skips an item whose guid the feed already has,
    and, unless told otherwise, an item older than the newest item the feed had
    when the pass began. A document that is neither RSS 2.0 nor Atom changes
    nothing. An exception anywhere in the pass (the fetch, or the date parse of
    an item) ends the pass and is logged once as a warning; the items created
    before it stay. `refresh_all` freshens every feed once.

    Fetching and XML parsing are outside the model: a document arrives already
    classified by its root element, with each item's date already parsed (or
    marked unparseable). The news-item table and the warning log are the fields
    of `FeedStore`. */
module RssFeed {
  import opened Common
  import opened Markup

  /** The default of `freshen`'s `ignore_older_items` argument, and what
      `refresh_all` passes. */
  const DefaultIgnoreOlderItems: bool := true

  datatype Dialect = Rss2 | Atom | Unknown

  /** A date as `DateTime.parse` returns it (seconds since the epoch), or the
      exception it raises. */
  datatype Stamp = At(time: int) | Unparseable

  /** An RSS 2.0 `item`: its guid, link, title and description texts and its `pubDate`. */
  datatype RssItem = RssItem(guid: string, link: string, title: string, description: string, pubDate: Stamp)

  /** An Atom `entry`: its id, link, title and content, and the timestamp
      the Atom reader takes for it (which of the entry's date elements that is,
      is left open). */
  datatype AtomEntry = AtomEntry(id: string, link: string, title: string, content: string, stamp: Stamp)

  /** A parsed document, told apart by its root element. */
  datatype Document =
    | RssDocument(items: seq<RssItem>)
    | AtomDocument(entries: seq<AtomEntry>)
    | OtherDocument

  /** What opening and parsing a feed's URL gave: a document, or an exception. */
  datatype Fetched = Retrieved(doc: Document) | Raised

  /** The exception a pass logs. */
  datatype Failure = FetchFailed | DateParseFailed

  /** An item of either dialect, in document order, before it is stored. */
  datatype Candidate = Candidate(guid: string, link: string, title: string, description: string, published: Stamp)

  /** A stored news item; `feedId` is its `rss_feed_id`. */
  datatype NewsItem = NewsItem(feedId: nat, guid: string, link: string, title: string,
                               description: string, publishedAt: int)

  /** The attributes of an `RssFeed` that this model reads. */
  datatype Feed = Feed(id: nat, url: Option<string>, name: Option<string>, affiliateId: Option<nat>)

  /** The dialect a document's root element names: `rss` for RSS 2.0, `feed`
      for Atom, anything else for neither. */
  function Classify(doc: Document): (d: Dialect)
    ensures d == Rss2 <==> doc.RssDocument?
    ensures d == Atom <==> doc.AtomDocument?
    ensures d == Unknown <==> doc.OtherDocument?
  {
    match doc
    case RssDocument(_) => Rss2
    case AtomDocument(_) => Atom
    case OtherDocument => Unknown
  }

  function FromRssItem(item: RssItem): Candidate {
    Candidate(item.guid, item.link, item.title, item.description, item.pubDate)
  }

  function FromAtomEntry(entry: AtomEntry): Candidate {
    Candidate(entry.id, entry.link, entry.title, entry.content, entry.stamp)
  }

  /** The document's items in document order; an RSS item keeps its guid, an
      Atom entry's guid is its id; an unrecognised document has none. */
  function Extract(doc: Document): (cs: seq<Candidate>)
    ensures doc.RssDocument? ==> |cs| == |doc.items|
    ensures doc.RssDocument? ==> forall i :: 0 <= i < |cs| ==>
              cs[i].guid == doc.items[i].guid && cs[i].link == doc.items[i].link &&
              cs[i].title == doc.items[i].title && cs[i].description == doc.items[i].description &&
              cs[i].published == doc.items[i].pubDate
    ensures doc.AtomDocument? ==> |cs| == |doc.entries|
    ensures doc.AtomDocument? ==> forall i :: 0 <= i < |cs| ==>
              cs[i].guid == doc.entries[i].id && cs[i].link == doc.entries[i].link &&
              cs[i].title == doc.entries[i].title && cs[i].description == doc.entries[i].content &&
              cs[i].published == doc.entries[i].stamp
    ensures doc.OtherDocument? ==> cs == []
  {
    match doc
    case RssDocument(items) => seq(|items|, i requires 0 <= i < |items| => FromRssItem(items[i]))
    case AtomDocument(entries) => seq(|entries|, i requires 0 <= i < |entries| => FromAtomEntry(entries[i]))
    case OtherDocument => []
  }

  /** The stored news item made from a candidate whose date parsed to `time`;
      the description is stored as plain text. */
  function ToNewsItem(feedId: nat, c: Candidate, time: int): (item: NewsItem)
    ensures NoTagOpen(item.description)
  {
    NewsItem(feedId, c.guid, c.link, c.title, StripMarkup(c.description), time)
  }

  /** The guids stored for one feed. */
  function Guids(rows: seq<NewsItem>, feedId: nat): set<string> {
    set i | 0 <= i < |rows| && rows[i].feedId == feedId :: rows[i].guid
  }

  /** No feed has two stored items with the same guid. */
  ghost predicate UniqueGuids(rows: seq<NewsItem>) {
    forall i, j :: 0 <= i < j < |rows| && rows[i].feedId == rows[j].feedId ==> rows[i].guid != rows[j].guid
  }

  /** The newest `published_at` among a feed's stored items, if it has any. */
  function Newest(rows: seq<NewsItem>, feedId: nat): (m: Option<int>)
    ensures m.None? <==> forall i :: 0 <= i < |rows| ==> rows[i].feedId != feedId
    ensures m.Some? ==> exists i :: 0 <= i < |rows| && rows[i].feedId == feedId && rows[i].publishedAt == m.value
    ensures m.Some? ==> forall i :: 0 <= i < |rows| && rows[i].feedId == feedId ==> rows[i].publishedAt <= m.value
  {
    if rows == [] then None
    else
      var init, last := rows[..|rows| - 1], rows[|rows| - 1];
      var m := Newest(init, feedId);
      assert forall i :: 0 <= i < |init| ==> init[i] == rows[i];
      if last.feedId != feedId then m
      else if m.None? || m.value < last.publishedAt then Some(last.publishedAt)
      else m
  }

  /** An item dated `time` is old, and skipped, only when older items are
      ignored and it is older than the newest stored item. */
  predicate Admitted(time: int, newest: Option<int>, ignoreOlderItems: bool): (r: bool)
    ensures !ignoreOlderItems ==> r
    ensures newest.None? ==> r
    ensures ignoreOlderItems && newest.Some? ==> (r <==> newest.value <= time)
  {
    !(ignoreOlderItems && newest.Some? && time < newest.value)
  }

  /** What the item loop of a pass left: the table, and whether a date parse
      raised and ended the loop. */
  datatype Pass = Pass(rows: seq<NewsItem>, failed: bool)

  /** The item loop of `freshen`, from the given table over the remaining
      candidates: parse the date (an exception ends the pass), skip an old
      item, skip a known guid, otherwise create the item. */
  function Ingest(rows: seq<NewsItem>, feedId: nat, newest: Option<int>, ignoreOlderItems: bool,
                  cs: seq<Candidate>): (p: Pass)
    ensures |rows| <= |p.rows| && p.rows[..|rows|] == rows
    ensures forall i :: |rows| <= i < |p.rows| ==>
              p.rows[i].feedId == feedId && Admitted(p.rows[i].publishedAt, newest, ignoreOlderItems) &&
              NoTagOpen(p.rows[i].description)
    ensures UniqueGuids(rows) ==> UniqueGuids(p.rows)
    ensures p.failed <==> exists k :: 0 <= k < |cs| && cs[k].published.Unparseable?
    decreases |cs|
  {
    if cs == [] then Pass(rows, false)
    else
      var c := cs[0];
      assert forall k :: 0 <= k < |cs[1..]| ==> cs[1..][k] == cs[k + 1];
      match c.published
      case Unparseable => Pass(rows, true)
      case At(time) =>
        if !Admitted(time, newest, ignoreOlderItems) || c.guid in Guids(rows, feedId) then
          Ingest(rows, feedId, newest, ignoreOlderItems, cs[1..])
        else
          var item := ToNewsItem(feedId, c, time);
          AppendKeepsUnique(rows, item);
          var p := Ingest(rows + [item], feedId, newest, ignoreOlderItems, cs[1..]);
          assert p.rows[..|rows| + 1] == rows + [item];
          assert p.rows[..|rows|] == (rows + [item])[..|rows|];
          assert p.rows[|rows|] == (rows + [item])[|rows|];
          p
  }

  lemma AppendKeepsUnique(rows: seq<NewsItem>, item: NewsItem)
    requires item.guid !in Guids(rows, item.feedId)
    ensures UniqueGuids(rows) ==> UniqueGuids(rows + [item])
  {
    var r := rows + [item];
    if UniqueGuids(rows) {
      forall i, j | 0 <= i < j < |r| && r[i].feedId == r[j].feedId ensures r[i].guid != r[j].guid {
        if j == |rows| {
          assert r[i] == rows[i];
          assert rows[i].guid in Guids(rows, item.feedId);
        } else {
          assert r[i] == rows[i] && r[j] == rows[j];
        }
      }
    }
  }

  /** The table and the warning log. */
  datatype Snapshot = Snapshot(newsItems: seq<NewsItem>, warnings: seq<Failure>)

  /** `freshen(ignore_older_items)` of one feed as a function of the state
      before the pass. */
  function Freshened(s: Snapshot, feedId: nat, ignoreOlderItems: bool, fetched: Fetched): (t: Snapshot)
    ensures |s.newsItems| <= |t.newsItems| && t.newsItems[..|s.newsItems|] == s.newsItems
    ensures |s.warnings| <= |t.warnings| <= |s.warnings| + 1 && t.warnings[..|s.warnings|] == s.warnings
    ensures fetched.Raised? ==> t == Snapshot(s.newsItems, s.warnings + [FetchFailed])
  {
    match fetched
    case Raised => Snapshot(s.newsItems, s.warnings + [FetchFailed])
    case Retrieved(doc) =>
      if Classify(doc) == Unknown then s
      else
        var p := Ingest(s.newsItems, feedId, Newest(s.newsItems, feedId), ignoreOlderItems, Extract(doc));
        Snapshot(p.rows, s.warnings + if p.failed then [DateParseFailed] else [])
  }

  /** `refresh_all` as a function of the state before it: each feed in turn,
      with the default policy, against the document its URL gave. */
  function RefreshedAll(s: Snapshot, feeds: seq<Feed>, responses: seq<Fetched>): (t: Snapshot)
    requires |responses| == |feeds|
    ensures |s.newsItems| <= |t.newsItems| && t.newsItems[..|s.newsItems|] == s.newsItems
    decreases |feeds|
  {
    if feeds == [] then s
    else
      var mid := Freshened(s, feeds[0].id, DefaultIgnoreOlderItems, responses[0]);
      var t := RefreshedAll(mid, feeds[1..], responses[1..]);
      assert t.newsItems[..|s.newsItems|] == t.newsItems[..|mid.newsItems|][..|s.newsItems|];
      t
  }

  function FeedIds(feeds: seq<Feed>): (ids: seq<nat>)
    ensures |ids| == |feeds| && forall i :: 0 <= i < |feeds| ==> ids[i] == feeds[i].id
  {
    seq(|feeds|, i requires 0 <= i < |feeds| => feeds[i].id)
  }

  lemma RefreshedAllStep(s: Snapshot, feeds: seq<Feed>, responses: seq<Fetched>, i: nat)
    requires |responses| == |feeds| && i < |feeds|
    ensures RefreshedAll(s, feeds[i..], responses[i..])
         == RefreshedAll(Freshened(s, feeds[i].id, DefaultIgnoreOlderItems, responses[i]),
                         feeds[i + 1..], responses[i + 1..])
  {
    assert feeds[i..][0] == feeds[i] && feeds[i..][1..] == feeds[i + 1..];
    assert responses[i..][0] == responses[i] && responses[i..][1..] == responses[i + 1..];
  }

  lemma FeedIdsStep(feeds: seq<Feed>, i: nat)
    requires i < |feeds|
    ensures FeedIds(feeds[..i + 1]) == FeedIds(feeds[..i]) + [feeds[i].id]
  {
  }

  /** The news-item table and the log of warnings. */
  class FeedStore {
    var newsItems: seq<NewsItem>
    var warnings: seq<Failure>
    /** The ids of the feeds freshened, one entry per call of `Freshen`. */
    ghost var passes: seq<nat>

    function State(): Snapshot
      reads this
    {
      Snapshot(newsItems, warnings)
    }

    constructor ()
      ensures State() == Snapshot([], []) && passes == []
    {
      newsItems := [];
      warnings := [];
      passes := [];
    }

    /** `freshen`: one pass over the document the feed's URL gave. */
    method Freshen(feed: Feed, ignoreOlderItems: bool, fetched: Fetched)
      modifies this
      ensures State() == Freshened(old(State()), feed.id, ignoreOlderItems, fetched)
      ensures passes == old(passes) + [feed.id]
    {
      passes := passes + [feed.id];
      match fetched
      case Raised =>
        warnings := warnings + [FetchFailed];
      case Retrieved(doc) =>
        if Classify(doc) == Unknown {
          return;
        }
        var candidates := Extract(doc);
        var newest := Newest(newsItems, feed.id);
        var i := 0;
        while i < |candidates|
          invariant 0 <= i <= |candidates|
          invariant warnings == old(warnings) && passes == old(passes) + [feed.id]
          invariant Ingest(newsItems, feed.id, newest, ignoreOlderItems, candidates[i..])
                 == Ingest(old(newsItems), feed.id, newest, ignoreOlderItems, candidates)
        {
          var c := candidates[i];
          assert candidates[i..][0] == c && candidates[i..][1..] == candidates[i + 1..];
          match c.published
          case Unparseable =>
            warnings := warnings + [DateParseFailed];
            return;
          case At(time) =>
            if Admitted(time, newest, ignoreOlderItems) && c.guid !in Guids(newsItems, feed.id) {
              newsItems := newsItems + [ToNewsItem(feed.id, c, time)];
            }
          i := i + 1;
        }
    }

    /** `refresh_all`: `freshen`, with the default policy, on every feed once. */
    method RefreshAll(feeds: seq<Feed>, responses: seq<Fetched>)
      requires |responses| == |feeds|
      modifies this
      ensures State() == RefreshedAll(old(State()), feeds, responses)
      ensures passes == old(passes) + FeedIds(feeds)
    {
      var i := 0;
      while i < |feeds|
        invariant 0 <= i <= |feeds|
        invariant RefreshedAll(State(), feeds[i..], responses[i..]) == RefreshedAll(old(State()), feeds, responses)
        invariant passes == old(passes) + FeedIds(feeds[..i])
      {
        RefreshedAllStep(State(), feeds, responses, i);
        FeedIdsStep(feeds, i);
        Freshen(feeds[i], DefaultIgnoreOlderItems, responses[i]);
        i := i + 1;
      }
      assert feeds[..i] == feeds;
    }
  }

  /** An attribute whose presence the feed's validations require. */
  datatype Attribute = Url | Name | AffiliateId

  datatype ValidationError = CantBeBlank(attribute: Attribute) | NotAFeed

  /** The feed's URL gave a document of a recognised dialect. */
  predicate YieldsFeed(fetched: Fetched) {
    fetched.Retrieved? && Classify(fetched.doc) != Unknown
  }

  /** The feed's validations: url, name and affiliate_id must be present, and
      opening the URL must give an RSS 2.0 or Atom document (an exception while
      checking counts as failure). */
  function Validate(feed: Feed, fetched: Fetched): (errors: seq<ValidationError>)
    ensures CantBeBlank(Url) in errors <==> !Present(feed.url)
    ensures CantBeBlank(Name) in errors <==> !Present(feed.name)
    ensures CantBeBlank(AffiliateId) in errors <==> feed.affiliateId.None?
    ensures NotAFeed in errors <==> !YieldsFeed(fetched)
    ensures errors == [] <==>
              Present(feed.url) && Present(feed.name) && feed.affiliateId.Some? && YieldsFeed(fetched)
  {
    (if Present(feed.url) then [] else [CantBeBlank(Url)]) +
    (if Present(feed.name) then [] else [CantBeBlank(Name)]) +
    (if feed.affiliateId.Some? then [] else [CantBeBlank(AffiliateId)]) +
    (if YieldsFeed(fetched) then [] else [NotAFeed])
  }
}
