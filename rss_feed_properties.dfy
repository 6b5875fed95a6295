/** What `freshen` and `refresh_all` guarantee: items are only ever appended,
    and only to the feed being freshened; no feed gets a guid twice; the items
    added are exactly the candidates that are recent enough and whose guid is
    neither stored nor taken by an earlier candidate of the pass; a second
    pass over the same document adds nothing; failures are logged once. The
    scenarios of the feed's behaviour description are stated for arbitrary
    documents of the same shape. */
module RssFeedProperties {
  import opened Common
  import opened Markup
  import opened RssFeed

  /** The stored items of one feed, in table order. */
  function ItemsOf(rows: seq<NewsItem>, feedId: nat): (r: seq<NewsItem>)
    ensures |r| <= |rows|
    ensures forall i :: 0 <= i < |r| ==> r[i].feedId == feedId
  {
    if rows == [] then []
    else ItemsOf(rows[..|rows| - 1], feedId) + if rows[|rows| - 1].feedId == feedId then [rows[|rows| - 1]] else []
  }

  /** The items a pass creates, computed from the guids `known` before the
      pass: in document order, up to the first unparseable date, each candidate
      that is recent enough and whose guid is neither known nor that of an
      earlier accepted candidate. */
  function Accepted(feedId: nat, cs: seq<Candidate>, known: set<string>, newest: Option<int>,
                    ignoreOlderItems: bool): seq<NewsItem>
    decreases |cs|
  {
    if cs == [] then []
    else match cs[0].published
      case Unparseable => []
      case At(time) =>
        if Admitted(time, newest, ignoreOlderItems) && cs[0].guid !in known
        then [ToNewsItem(feedId, cs[0], time)] + Accepted(feedId, cs[1..], known + {cs[0].guid}, newest, ignoreOlderItems)
        else Accepted(feedId, cs[1..], known, newest, ignoreOlderItems)
  }

  predicate DistinctGuids(cs: seq<Candidate>) {
    forall i, j :: 0 <= i < j < |cs| ==> cs[i].guid != cs[j].guid
  }

  predicate AllDatesParse(cs: seq<Candidate>) {
    forall i :: 0 <= i < |cs| ==> cs[i].published.At?
  }

  /** Every candidate, stored; its date must parse. */
  function StoredAll(feedId: nat, cs: seq<Candidate>): (r: seq<NewsItem>)
    requires AllDatesParse(cs)
    ensures |r| == |cs|
    ensures forall i :: 0 <= i < |cs| ==> r[i] == ToNewsItem(feedId, cs[i], cs[i].published.time)
    decreases |cs|
  {
    if cs == [] then []
    else
      assert forall k :: 0 <= k < |cs[1..]| ==> cs[1..][k] == cs[k + 1];
      [ToNewsItem(feedId, cs[0], cs[0].published.time)] + StoredAll(feedId, cs[1..])
  }

  /** How many candidates carry a guid from `known`. */
  function CountKnown(cs: seq<Candidate>, known: set<string>): nat
    decreases |cs|
  {
    if cs == [] then 0 else (if cs[0].guid in known then 1 else 0) + CountKnown(cs[1..], known)
  }

  /** How many candidates are dated strictly before `time`. */
  function CountOlder(cs: seq<Candidate>, time: int): nat
    requires AllDatesParse(cs)
    decreases |cs|
  {
    if cs == [] then 0
    else (if cs[0].published.time < time then 1 else 0) + CountOlder(cs[1..], time)
  }

  // ---------------------------------------------------------------------------
  // Helpers about the table

  lemma GuidsAppend(rows: seq<NewsItem>, item: NewsItem, feedId: nat)
    ensures Guids(rows + [item], feedId) == Guids(rows, feedId) + if item.feedId == feedId then {item.guid} else {}
  {
    var r := rows + [item];
    forall g | g in Guids(r, feedId)
      ensures g in Guids(rows, feedId) + if item.feedId == feedId then {item.guid} else {}
    {
      var i :| 0 <= i < |r| && r[i].feedId == feedId && r[i].guid == g;
      if i < |rows| { assert rows[i] == r[i]; }
    }
    forall g | g in Guids(rows, feedId) ensures g in Guids(r, feedId) {
      var i :| 0 <= i < |rows| && rows[i].feedId == feedId && rows[i].guid == g;
      assert r[i] == rows[i];
    }
    if item.feedId == feedId {
      assert r[|rows|] == item;
    }
  }

  lemma GuidsOfPrefix(rows: seq<NewsItem>, longer: seq<NewsItem>, feedId: nat)
    requires |rows| <= |longer| && longer[..|rows|] == rows
    ensures Guids(rows, feedId) <= Guids(longer, feedId)
  {
    forall g | g in Guids(rows, feedId) ensures g in Guids(longer, feedId) {
      var i :| 0 <= i < |rows| && rows[i].feedId == feedId && rows[i].guid == g;
      assert longer[i] == longer[..|rows|][i];
    }
  }

  lemma {:induction false} ItemsOfAppend(rows: seq<NewsItem>, extra: seq<NewsItem>, feedId: nat)
    ensures (forall i :: 0 <= i < |extra| ==> extra[i].feedId != feedId) ==>
              ItemsOf(rows + extra, feedId) == ItemsOf(rows, feedId)
    ensures (forall i :: 0 <= i < |extra| ==> extra[i].feedId == feedId) ==>
              ItemsOf(rows + extra, feedId) == ItemsOf(rows, feedId) + extra
    decreases |extra|
  {
    if extra == [] {
      assert rows + extra == rows;
    } else {
      var init := extra[..|extra| - 1];
      assert (rows + extra)[..|rows + extra| - 1] == rows + init;
      assert (rows + extra)[|rows + extra| - 1] == extra[|extra| - 1];
      assert forall i :: 0 <= i < |init| ==> init[i] == extra[i];
      ItemsOfAppend(rows, init, feedId);
      assert init + [extra[|extra| - 1]] == extra;
    }
  }

  /** A longer table has a newest date at least as new. */
  lemma NewestOfPrefix(rows: seq<NewsItem>, longer: seq<NewsItem>, feedId: nat)
    requires |rows| <= |longer| && longer[..|rows|] == rows
    ensures Newest(rows, feedId).Some? ==>
              Newest(longer, feedId).Some? && Newest(rows, feedId).value <= Newest(longer, feedId).value
  {
    if Newest(rows, feedId).Some? {
      var i :| 0 <= i < |rows| && rows[i].feedId == feedId && rows[i].publishedAt == Newest(rows, feedId).value;
      assert longer[i] == longer[..|rows|][i];
    }
  }

  // ---------------------------------------------------------------------------
  // The item loop against its reference

  lemma {:induction false} AcceptedIgnoresAbsentGuid(feedId: nat, cs: seq<Candidate>, known: set<string>,
                                                      g: string, newest: Option<int>, ignoreOlderItems: bool)
    requires forall i :: 0 <= i < |cs| ==> cs[i].guid != g
    ensures Accepted(feedId, cs, known + {g}, newest, ignoreOlderItems)
         == Accepted(feedId, cs, known, newest, ignoreOlderItems)
    decreases |cs|
  {
    if cs != [] {
      assert forall k :: 0 <= k < |cs[1..]| ==> cs[1..][k] == cs[k + 1];
      AcceptedIgnoresAbsentGuid(feedId, cs[1..], known, g, newest, ignoreOlderItems);
      AcceptedIgnoresAbsentGuid(feedId, cs[1..], known + {cs[0].guid}, g, newest, ignoreOlderItems);
      assert known + {g} + {cs[0].guid} == known + {cs[0].guid} + {g};
    }
  }

  /** The item loop appends exactly the reference's accepted items, whatever
      guids the document repeats. */
  lemma {:induction false} IngestAppendsAccepted(rows: seq<NewsItem>, feedId: nat, newest: Option<int>,
                                                  ignoreOlderItems: bool, cs: seq<Candidate>)
    ensures Ingest(rows, feedId, newest, ignoreOlderItems, cs).rows
         == rows + Accepted(feedId, cs, Guids(rows, feedId), newest, ignoreOlderItems)
    decreases |cs|
  {
    if cs == [] {
      assert rows + [] == rows;
    } else {
      var c, rest := cs[0], cs[1..];
      match c.published
      case Unparseable =>
        assert rows + [] == rows;
      case At(time) =>
        if !Admitted(time, newest, ignoreOlderItems) || c.guid in Guids(rows, feedId) {
          IngestAppendsAccepted(rows, feedId, newest, ignoreOlderItems, rest);
        } else {
          var item := ToNewsItem(feedId, c, time);
          IngestAppendsAccepted(rows + [item], feedId, newest, ignoreOlderItems, rest);
          GuidsAppend(rows, item, feedId);
        }
    }
  }

  /** With every date parseable, the loop stores the guid of every candidate
      that is recent enough, and no other new guid. */
  lemma {:induction false} IngestStoresAdmittedGuids(rows: seq<NewsItem>, feedId: nat, newest: Option<int>,
                                                      ignoreOlderItems: bool, cs: seq<Candidate>)
    requires AllDatesParse(cs)
    ensures !Ingest(rows, feedId, newest, ignoreOlderItems, cs).failed
    ensures Guids(Ingest(rows, feedId, newest, ignoreOlderItems, cs).rows, feedId)
         == Guids(rows, feedId) + (set i | 0 <= i < |cs| && Admitted(cs[i].published.time, newest, ignoreOlderItems) :: cs[i].guid)
    decreases |cs|
  {
    var admitted := set i | 0 <= i < |cs| && Admitted(cs[i].published.time, newest, ignoreOlderItems) :: cs[i].guid;
    if cs != [] {
      var c, rest := cs[0], cs[1..];
      assert forall k :: 0 <= k < |rest| ==> rest[k] == cs[k + 1];
      var restAdmitted := set i | 0 <= i < |rest| && Admitted(rest[i].published.time, newest, ignoreOlderItems) :: rest[i].guid;
      var time := c.published.time;
      assert admitted == restAdmitted + if Admitted(time, newest, ignoreOlderItems) then {c.guid} else {} by {
        forall g | g in admitted ensures g in restAdmitted + if Admitted(time, newest, ignoreOlderItems) then {c.guid} else {} {
          var i :| 0 <= i < |cs| && Admitted(cs[i].published.time, newest, ignoreOlderItems) && cs[i].guid == g;
          if i > 0 { assert rest[i - 1] == cs[i]; }
        }
        forall g | g in restAdmitted ensures g in admitted {
          var i :| 0 <= i < |rest| && Admitted(rest[i].published.time, newest, ignoreOlderItems) && rest[i].guid == g;
          assert cs[i + 1] == rest[i];
        }
      }
      if !Admitted(time, newest, ignoreOlderItems) || c.guid in Guids(rows, feedId) {
        IngestStoresAdmittedGuids(rows, feedId, newest, ignoreOlderItems, rest);
      } else {
        var item := ToNewsItem(feedId, c, time);
        IngestStoresAdmittedGuids(rows + [item], feedId, newest, ignoreOlderItems, rest);
        GuidsAppend(rows, item, feedId);
      }
    }
  }

  lemma {:induction false} AcceptedCountKnown(feedId: nat, cs: seq<Candidate>, known: set<string>,
                                               newest: Option<int>, ignoreOlderItems: bool)
    requires AllDatesParse(cs) && DistinctGuids(cs)
    requires forall i :: 0 <= i < |cs| ==> Admitted(cs[i].published.time, newest, ignoreOlderItems)
    ensures |Accepted(feedId, cs, known, newest, ignoreOlderItems)| == |cs| - CountKnown(cs, known)
    decreases |cs|
  {
    if cs != [] {
      assert forall k :: 0 <= k < |cs[1..]| ==> cs[1..][k] == cs[k + 1];
      assert DistinctGuids(cs[1..]);
      AcceptedIgnoresAbsentGuid(feedId, cs[1..], known, cs[0].guid, newest, ignoreOlderItems);
      AcceptedCountKnown(feedId, cs[1..], known, newest, ignoreOlderItems);
    }
  }

  lemma {:induction false} AcceptedCountOlder(feedId: nat, cs: seq<Candidate>, known: set<string>, time: int)
    requires AllDatesParse(cs) && DistinctGuids(cs)
    requires forall i :: 0 <= i < |cs| ==> cs[i].guid !in known
    ensures |Accepted(feedId, cs, known, Some(time), true)| == |cs| - CountOlder(cs, time)
    ensures |Accepted(feedId, cs, known, Some(time), false)| == |cs|
    decreases |cs|
  {
    if cs != [] {
      assert forall k :: 0 <= k < |cs[1..]| ==> cs[1..][k] == cs[k + 1];
      assert DistinctGuids(cs[1..]);
      AcceptedIgnoresAbsentGuid(feedId, cs[1..], known, cs[0].guid, Some(time), true);
      AcceptedIgnoresAbsentGuid(feedId, cs[1..], known, cs[0].guid, Some(time), false);
      AcceptedCountOlder(feedId, cs[1..], known, time);
    }
  }

  lemma {:induction false} AcceptedAllNew(feedId: nat, cs: seq<Candidate>, known: set<string>,
                                           newest: Option<int>, ignoreOlderItems: bool)
    requires AllDatesParse(cs) && DistinctGuids(cs)
    requires forall i :: 0 <= i < |cs| ==> cs[i].guid !in known && Admitted(cs[i].published.time, newest, ignoreOlderItems)
    ensures Accepted(feedId, cs, known, newest, ignoreOlderItems) == StoredAll(feedId, cs)
    decreases |cs|
  {
    if cs != [] {
      assert forall k :: 0 <= k < |cs[1..]| ==> cs[1..][k] == cs[k + 1];
      assert DistinctGuids(cs[1..]);
      AcceptedIgnoresAbsentGuid(feedId, cs[1..], known, cs[0].guid, newest, ignoreOlderItems);
      AcceptedAllNew(feedId, cs[1..], known, newest, ignoreOlderItems);
    }
  }

  // ---------------------------------------------------------------------------
  // Properties of one pass

  /** A pass only appends, only items of the freshened feed, each recent
      enough and with a plain-text description; it logs at most one warning. */
  lemma FreshenAppendsOnly(s: Snapshot, feedId: nat, ignoreOlderItems: bool, fetched: Fetched)
    ensures var t := Freshened(s, feedId, ignoreOlderItems, fetched);
      && |s.newsItems| <= |t.newsItems| && t.newsItems[..|s.newsItems|] == s.newsItems
      && (forall i :: |s.newsItems| <= i < |t.newsItems| ==>
            t.newsItems[i].feedId == feedId && NoTagOpen(t.newsItems[i].description) &&
            Admitted(t.newsItems[i].publishedAt, Newest(s.newsItems, feedId), ignoreOlderItems))
      && (t.warnings == s.warnings || t.warnings == s.warnings + [FetchFailed] ||
          t.warnings == s.warnings + [DateParseFailed])
  {
  }

  /** Old items are never imported under the default policy: every item a
      pass adds is at least as new as the newest item stored before it. */
  lemma OlderItemsIgnored(s: Snapshot, feedId: nat, fetched: Fetched, newest: int)
    requires Newest(s.newsItems, feedId) == Some(newest)
    ensures var t := Freshened(s, feedId, true, fetched);
      forall i :: |s.newsItems| <= i < |t.newsItems| ==> t.newsItems[i].publishedAt >= newest
  {
    FreshenAppendsOnly(s, feedId, true, fetched);
  }

  /** No feed ever gets two items with the same guid. */
  lemma FreshenKeepsGuidsUnique(s: Snapshot, feedId: nat, ignoreOlderItems: bool, fetched: Fetched)
    requires UniqueGuids(s.newsItems)
    ensures UniqueGuids(Freshened(s, feedId, ignoreOlderItems, fetched).newsItems)
  {
  }

  /** Freshening one feed leaves every other feed's items as they were. */
  lemma FreshenLeavesOtherFeeds(s: Snapshot, feedId: nat, other: nat, ignoreOlderItems: bool, fetched: Fetched)
    requires other != feedId
    ensures ItemsOf(Freshened(s, feedId, ignoreOlderItems, fetched).newsItems, other) == ItemsOf(s.newsItems, other)
  {
    var t := Freshened(s, feedId, ignoreOlderItems, fetched);
    FreshenAppendsOnly(s, feedId, ignoreOlderItems, fetched);
    var extra := t.newsItems[|s.newsItems|..];
    assert t.newsItems == s.newsItems + extra;
    assert forall i :: 0 <= i < |extra| ==> extra[i] == t.newsItems[|s.newsItems| + i];
    ItemsOfAppend(s.newsItems, extra, other);
  }

  /** With every date parseable and a recognised document, the guids the feed
      has afterwards are the ones it had plus those of the admitted candidates:
      under `ignore_older_items = false`, every candidate. */
  lemma FreshenStoresAdmittedGuids(s: Snapshot, feedId: nat, ignoreOlderItems: bool, doc: Document)
    requires Classify(doc) != Unknown
    requires AllDatesParse(Extract(doc))
    ensures var t := Freshened(s, feedId, ignoreOlderItems, Retrieved(doc));
      var cs, newest := Extract(doc), Newest(s.newsItems, feedId);
      && t.warnings == s.warnings
      && Guids(t.newsItems, feedId) == Guids(s.newsItems, feedId) +
           (set i | 0 <= i < |cs| && Admitted(cs[i].published.time, newest, ignoreOlderItems) :: cs[i].guid)
      && (!ignoreOlderItems ==>
            Guids(t.newsItems, feedId) == Guids(s.newsItems, feedId) + (set i | 0 <= i < |cs| :: cs[i].guid))
  {
    IngestStoresAdmittedGuids(s.newsItems, feedId, Newest(s.newsItems, feedId), ignoreOlderItems, Extract(doc));
  }

  /** Freshening twice from an unchanged document adds nothing the second time. */
  lemma FreshenIdempotent(s: Snapshot, feedId: nat, ignoreOlderItems: bool, fetched: Fetched)
    ensures var t := Freshened(s, feedId, ignoreOlderItems, fetched);
      Freshened(t, feedId, ignoreOlderItems, fetched).newsItems == t.newsItems
  {
    if fetched.Retrieved? && Classify(fetched.doc) != Unknown {
      var cs, newest := Extract(fetched.doc), Newest(s.newsItems, feedId);
      var p := Ingest(s.newsItems, feedId, newest, ignoreOlderItems, cs);
      NewestOfPrefix(s.newsItems, p.rows, feedId);
      IngestSettles(s.newsItems, feedId, newest, ignoreOlderItems, cs, p.rows, Newest(p.rows, feedId));
    }
  }

  /** After a pass, rerunning its loop over a table holding all the guids the
      pass stored, with a newest date at least as new, changes nothing and
      ends the same way. */
  lemma {:induction false} IngestSettles(rows: seq<NewsItem>, feedId: nat, newest: Option<int>,
                                          ignoreOlderItems: bool, cs: seq<Candidate>,
                                          later: seq<NewsItem>, laterNewest: Option<int>)
    requires Guids(Ingest(rows, feedId, newest, ignoreOlderItems, cs).rows, feedId) <= Guids(later, feedId)
    requires newest.Some? ==> laterNewest.Some? && newest.value <= laterNewest.value
    ensures Ingest(later, feedId, laterNewest, ignoreOlderItems, cs)
         == Pass(later, Ingest(rows, feedId, newest, ignoreOlderItems, cs).failed)
    decreases |cs|
  {
    if cs != [] {
      var c, rest := cs[0], cs[1..];
      var p := Ingest(rows, feedId, newest, ignoreOlderItems, cs);
      match c.published
      case Unparseable =>
      case At(time) =>
        if !Admitted(time, newest, ignoreOlderItems) {
          IngestSettles(rows, feedId, newest, ignoreOlderItems, rest, later, laterNewest);
        } else if c.guid in Guids(rows, feedId) {
          GuidsOfPrefix(rows, p.rows, feedId);
          IngestSettles(rows, feedId, newest, ignoreOlderItems, rest, later, laterNewest);
        } else {
          var item := ToNewsItem(feedId, c, time);
          GuidsAppend(rows, item, feedId);
          GuidsOfPrefix(rows + [item], p.rows, feedId);
          IngestSettles(rows + [item], feedId, newest, ignoreOlderItems, rest, later, laterNewest);
        }
    }
  }

  /** An exception in the pass is logged exactly once and ends it: a failed
      fetch changes no items; a date that does not parse stops the loop there. */
  lemma ExceptionLoggedOnce(s: Snapshot, feedId: nat, ignoreOlderItems: bool, fetched: Fetched)
    ensures var t := Freshened(s, feedId, ignoreOlderItems, fetched);
      && (fetched.Raised? ==> t == Snapshot(s.newsItems, s.warnings + [FetchFailed]))
      && ((fetched.Retrieved? && Classify(fetched.doc) != Unknown &&
           exists k :: 0 <= k < |Extract(fetched.doc)| && Extract(fetched.doc)[k].published.Unparseable?)
          ==> t.warnings == s.warnings + [DateParseFailed])
      && (t.warnings != s.warnings <==>
            fetched.Raised? ||
            (Classify(fetched.doc) != Unknown &&
             exists k :: 0 <= k < |Extract(fetched.doc)| && Extract(fetched.doc)[k].published.Unparseable?))
  {
  }

  /** When no item's date parses, the pass stores nothing and logs one warning. */
  lemma NoDateParses(s: Snapshot, feedId: nat, ignoreOlderItems: bool, doc: Document)
    requires Classify(doc) != Unknown && |Extract(doc)| > 0
    requires forall k :: 0 <= k < |Extract(doc)| ==> Extract(doc)[k].published.Unparseable?
    ensures Freshened(s, feedId, ignoreOlderItems, Retrieved(doc)) == Snapshot(s.newsItems, s.warnings + [DateParseFailed])
  {
    assert Extract(doc)[0].published.Unparseable?;
  }

  /** A document in neither dialect leaves the table and the log alone. */
  lemma UnrecognisedDocumentChangesNothing(s: Snapshot, feedId: nat, ignoreOlderItems: bool, doc: Document)
    requires Classify(doc) == Unknown
    ensures Freshened(s, feedId, ignoreOlderItems, Retrieved(doc)) == s
  {
  }

  // ---------------------------------------------------------------------------
  // The scenarios

  /** A feed with no items, freshened from an RSS 2.0 document whose items
      have distinct guids and parseable dates, gets one item per document item,
      in document order, each with the item's guid, link, title and date and
      its description stripped of markup. */
  lemma EmptyFeedTakesEveryRssItem(s: Snapshot, feedId: nat, ignoreOlderItems: bool, items: seq<RssItem>)
    requires ItemsOf(s.newsItems, feedId) == []
    requires forall i, j :: 0 <= i < j < |items| ==> items[i].guid != items[j].guid
    requires forall i :: 0 <= i < |items| ==> items[i].pubDate.At?
    ensures var t := Freshened(s, feedId, ignoreOlderItems, Retrieved(RssDocument(items)));
      && |ItemsOf(t.newsItems, feedId)| == |items|
      && t.newsItems[..|s.newsItems|] == s.newsItems
      && |t.newsItems| == |s.newsItems| + |items|
      && forall i :: 0 <= i < |items| ==>
           var row := t.newsItems[|s.newsItems| + i];
           row.feedId == feedId && row.guid == items[i].guid && row.link == items[i].link &&
           row.title == items[i].title && row.publishedAt == items[i].pubDate.time &&
           row.description == StripMarkup(items[i].description)
  {
    var doc := RssDocument(items);
    var cs := Extract(doc);
    assert DistinctGuids(cs) by {
      forall i, j | 0 <= i < j < |cs| ensures cs[i].guid != cs[j].guid {
        assert cs[i].guid == items[i].guid && cs[j].guid == items[j].guid;
      }
    }
    assert AllDatesParse(cs) by {
      forall i | 0 <= i < |cs| ensures cs[i].published.At? { assert cs[i].published == items[i].pubDate; }
    }
    StoredAllOnEmptyFeed(s, feedId, ignoreOlderItems, doc);
  }

  /** The same for an Atom document: one item per entry, whose guid is the
      entry's id. */
  lemma EmptyFeedTakesEveryAtomEntry(s: Snapshot, feedId: nat, ignoreOlderItems: bool, entries: seq<AtomEntry>)
    requires ItemsOf(s.newsItems, feedId) == []
    requires forall i, j :: 0 <= i < j < |entries| ==> entries[i].id != entries[j].id
    requires forall i :: 0 <= i < |entries| ==> entries[i].stamp.At?
    ensures var t := Freshened(s, feedId, ignoreOlderItems, Retrieved(AtomDocument(entries)));
      && |ItemsOf(t.newsItems, feedId)| == |entries|
      && |t.newsItems| == |s.newsItems| + |entries|
      && forall i :: 0 <= i < |entries| ==>
           var row := t.newsItems[|s.newsItems| + i];
           row.feedId == feedId && row.guid == entries[i].id && row.link == entries[i].link &&
           row.publishedAt == entries[i].stamp.time
  {
    var doc := AtomDocument(entries);
    var cs := Extract(doc);
    assert DistinctGuids(cs) by {
      forall i, j | 0 <= i < j < |cs| ensures cs[i].guid != cs[j].guid {
        assert cs[i].guid == entries[i].id && cs[j].guid == entries[j].id;
      }
    }
    assert AllDatesParse(cs) by {
      forall i | 0 <= i < |cs| ensures cs[i].published.At? { assert cs[i].published == entries[i].stamp; }
    }
    StoredAllOnEmptyFeed(s, feedId, ignoreOlderItems, doc);
  }

  /** On a feed without items, a recognised document with distinct guids and
      parseable dates has every candidate stored, in document order, after the
      rows already in the table. */
  lemma StoredAllOnEmptyFeed(s: Snapshot, feedId: nat, ignoreOlderItems: bool, doc: Document)
    requires Classify(doc) != Unknown
    requires ItemsOf(s.newsItems, feedId) == []
    requires DistinctGuids(Extract(doc)) && AllDatesParse(Extract(doc))
    ensures var rows := Freshened(s, feedId, ignoreOlderItems, Retrieved(doc)).newsItems;
      && |ItemsOf(rows, feedId)| == |Extract(doc)|
      && |rows| == |s.newsItems| + |Extract(doc)|
      && rows[..|s.newsItems|] == s.newsItems
      && forall i :: 0 <= i < |Extract(doc)| ==>
           rows[|s.newsItems| + i] == ToNewsItem(feedId, Extract(doc)[i], Extract(doc)[i].published.time)
  {
    var cs := Extract(doc);
    var stored := StoredAll(feedId, cs);
    EmptyFeedGetsStoredAll(s, feedId, ignoreOlderItems, doc);
    AppendAfter(s.newsItems, stored, feedId);
  }

  lemma EmptyFeedGetsStoredAll(s: Snapshot, feedId: nat, ignoreOlderItems: bool, doc: Document)
    requires Classify(doc) != Unknown
    requires ItemsOf(s.newsItems, feedId) == []
    requires DistinctGuids(Extract(doc)) && AllDatesParse(Extract(doc))
    ensures Freshened(s, feedId, ignoreOlderItems, Retrieved(doc)).newsItems
         == s.newsItems + StoredAll(feedId, Extract(doc))
  {
    var cs := Extract(doc);
    NoItemsMeansNone(s.newsItems, feedId);
    IngestAppendsAccepted(s.newsItems, feedId, None, ignoreOlderItems, cs);
    AcceptedAllNew(feedId, cs, {}, None, ignoreOlderItems);
  }

  /** Rows of one feed appended after a table holding none of that feed's rows
      become exactly that feed's rows, each at its own offset. */
  lemma AppendAfter(rows: seq<NewsItem>, extra: seq<NewsItem>, feedId: nat)
    requires ItemsOf(rows, feedId) == []
    requires forall i :: 0 <= i < |extra| ==> extra[i].feedId == feedId
    ensures ItemsOf(rows + extra, feedId) == extra
    ensures (rows + extra)[..|rows|] == rows
    ensures forall i :: 0 <= i < |extra| ==> (rows + extra)[|rows| + i] == extra[i]
  {
    ItemsOfAppend(rows, extra, feedId);
    assert [] + extra == extra;
  }

  lemma {:induction false} NoItemsMeansNone(rows: seq<NewsItem>, feedId: nat)
    requires ItemsOf(rows, feedId) == []
    ensures Guids(rows, feedId) == {} && Newest(rows, feedId) == None
    decreases |rows|
  {
    if rows != [] {
      var init := rows[..|rows| - 1];
      assert |ItemsOf(init, feedId)| <= |ItemsOf(rows, feedId)|;
      NoItemsMeansNone(init, feedId);
      assert rows == init + [rows[|rows| - 1]];
      GuidsAppend(init, rows[|rows| - 1], feedId);
    }
  }

  /** A document item whose guid is already stored is not created again: when
      exactly one of the document's items is known and none is older than the
      feed's newest item, one fewer item than the document holds is created. */
  lemma KnownGuidNotRecreated(s: Snapshot, feedId: nat, ignoreOlderItems: bool, items: seq<RssItem>)
    requires forall i, j :: 0 <= i < j < |items| ==> items[i].guid != items[j].guid
    requires forall i :: 0 <= i < |items| ==> items[i].pubDate.At?
    requires forall i :: 0 <= i < |items| ==>
               Admitted(items[i].pubDate.time, Newest(s.newsItems, feedId), ignoreOlderItems)
    requires CountKnown(Extract(RssDocument(items)), Guids(s.newsItems, feedId)) == 1
    ensures |Freshened(s, feedId, ignoreOlderItems, Retrieved(RssDocument(items))).newsItems|
         == |s.newsItems| + |items| - 1
  {
    var cs := Extract(RssDocument(items));
    assert DistinctGuids(cs) by {
      forall i, j | 0 <= i < j < |cs| ensures cs[i].guid != cs[j].guid {
        assert cs[i].guid == items[i].guid && cs[j].guid == items[j].guid;
      }
    }
    IngestAppendsAccepted(s.newsItems, feedId, Newest(s.newsItems, feedId), ignoreOlderItems, cs);
    AcceptedCountKnown(feedId, cs, Guids(s.newsItems, feedId), Newest(s.newsItems, feedId), ignoreOlderItems);
  }

  /** A feed holding one item dated `time`, freshened from a document of new
      guids of which exactly one is older than `time`: by default that one is
      skipped; with `ignore_older_items = false` all are taken. */
  lemma OlderItemSkippedOnlyByDefault(s: Snapshot, feedId: nat, stored: NewsItem, items: seq<RssItem>)
    requires s.newsItems == [stored] && stored.feedId == feedId
    requires forall i, j :: 0 <= i < j < |items| ==> items[i].guid != items[j].guid
    requires forall i :: 0 <= i < |items| ==> items[i].pubDate.At? && items[i].guid != stored.guid
    requires CountOlder(Extract(RssDocument(items)), stored.publishedAt) == 1
    ensures |Freshened(s, feedId, true, Retrieved(RssDocument(items))).newsItems| == |items|
    ensures |Freshened(s, feedId, false, Retrieved(RssDocument(items))).newsItems| == |items| + 1
  {
    var cs := Extract(RssDocument(items));
    assert DistinctGuids(cs) by {
      forall i, j | 0 <= i < j < |cs| ensures cs[i].guid != cs[j].guid {
        assert cs[i].guid == items[i].guid && cs[j].guid == items[j].guid;
      }
    }
    assert Newest(s.newsItems, feedId) == Some(stored.publishedAt);
    assert Guids(s.newsItems, feedId) == {stored.guid};
    IngestAppendsAccepted(s.newsItems, feedId, Some(stored.publishedAt), true, cs);
    IngestAppendsAccepted(s.newsItems, feedId, Some(stored.publishedAt), false, cs);
    AcceptedCountOlder(feedId, cs, {stored.guid}, stored.publishedAt);
  }

  // ---------------------------------------------------------------------------
  // refresh_all

  /** A feed that is not in the batch keeps its items. */
  lemma {:induction false} RefreshAllLeavesUnlistedFeeds(s: Snapshot, feeds: seq<Feed>, responses: seq<Fetched>, other: nat)
    requires |responses| == |feeds|
    requires forall i :: 0 <= i < |feeds| ==> feeds[i].id != other
    ensures ItemsOf(RefreshedAll(s, feeds, responses).newsItems, other) == ItemsOf(s.newsItems, other)
    decreases |feeds|
  {
    if feeds != [] {
      var t := Freshened(s, feeds[0].id, DefaultIgnoreOlderItems, responses[0]);
      FreshenLeavesOtherFeeds(s, feeds[0].id, other, DefaultIgnoreOlderItems, responses[0]);
      assert forall i :: 0 <= i < |feeds[1..]| ==> feeds[1..][i] == feeds[i + 1];
      RefreshAllLeavesUnlistedFeeds(t, feeds[1..], responses[1..], other);
    }
  }

  /** Refreshing every feed keeps guids unique per feed. */
  lemma {:induction false} RefreshAllKeepsGuidsUnique(s: Snapshot, feeds: seq<Feed>, responses: seq<Fetched>)
    requires |responses| == |feeds|
    requires UniqueGuids(s.newsItems)
    ensures UniqueGuids(RefreshedAll(s, feeds, responses).newsItems)
    decreases |feeds|
  {
    if feeds != [] {
      FreshenKeepsGuidsUnique(s, feeds[0].id, DefaultIgnoreOlderItems, responses[0]);
      RefreshAllKeepsGuidsUnique(Freshened(s, feeds[0].id, DefaultIgnoreOlderItems, responses[0]),
                                 feeds[1..], responses[1..]);
    }
  }

  /** A failing feed does not stop the batch: every feed is freshened once,
      and the log gains at most one warning per feed. */
  lemma {:induction false} RefreshAllWarnsAtMostOncePerFeed(s: Snapshot, feeds: seq<Feed>, responses: seq<Fetched>)
    requires |responses| == |feeds|
    ensures var t := RefreshedAll(s, feeds, responses);
      |s.warnings| <= |t.warnings| <= |s.warnings| + |feeds| && t.warnings[..|s.warnings|] == s.warnings
    decreases |feeds|
  {
    if feeds != [] {
      var t := Freshened(s, feeds[0].id, DefaultIgnoreOlderItems, responses[0]);
      FreshenAppendsOnly(s, feeds[0].id, DefaultIgnoreOlderItems, responses[0]);
      RefreshAllWarnsAtMostOncePerFeed(t, feeds[1..], responses[1..]);
      var u := RefreshedAll(t, feeds[1..], responses[1..]);
      assert u.warnings[..|s.warnings|] == u.warnings[..|t.warnings|][..|s.warnings|];
    }
  }
}
