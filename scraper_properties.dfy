/**
  What `scrape_products` guarantees, stated on the functions that specify
  it: the append rule and the cache update, what a missing price does,
  failure isolation within a page and across pages, and idempotence of a
  second run when every title carries one price.

  The page and crawl lemmas hold for any handler; the idempotence lemmas need
  two facts about it, which `Handle` is proved to have.
 */
module ScraperProperties {
  import opened Wrappers
  import opened Prices
  import opened Fetcher
  import opened Scraper

  // ---------------------------------------------------------------------------
  // One product

  /**
    Right after a product is appended, the cache maps its title to its raw
    price and every other title to what it mapped to before.
   */
  lemma AppendCachesRawPrice(cache: Cache, e: Entry, parsesFloat: string -> bool)
    requires ProcessEntry(cache, e, parsesFloat).Appended?
    ensures var step := ProcessEntry(cache, e, parsesFloat);
            var run := RunPage(cache, [e], Handle(parsesFloat));
            && run.records == [step.record]
            && Lookup(run.cache, e.title) == Some(step.rawPrice) != Lookup(cache, e.title)
            && forall title :: title != e.title ==> Lookup(run.cache, title) == Lookup(cache, title)
  {
    assert [e][1..] == [];
  }

  /**
    A product without a price tag has price `None`. With its title not cached,
    `None != None` is false and it is skipped: nothing appended, cache
    unchanged. With its title cached, the comparison succeeds and `None.strip`
    raises, which ends the page.
   */
  lemma MissingPrice(cache: Cache, e: Entry, parsesFloat: string -> bool)
    requires e.priceText.None? && e.imageUrl.Some?
    ensures ProcessEntry(cache, e, parsesFloat) == if e.title in cache then Raised(NoPrice) else Skipped
    ensures e.title !in cache ==> RunPage(cache, [e], Handle(parsesFloat)) == PageRun([], cache, true)
  {
    assert [e][1..] == [];
  }

  /** The cache is consulted only at the product's own title. */
  lemma ProcessEntryReadsOwnTitle(c1: Cache, c2: Cache, e: Entry, parsesFloat: string -> bool)
    requires Lookup(c1, e.title) == Lookup(c2, e.title)
    ensures ProcessEntry(c1, e, parsesFloat) == ProcessEntry(c2, e, parsesFloat)
  {
  }

  // ---------------------------------------------------------------------------
  // Failure isolation

  /**
    Handling `es + fs` is handling `es` and then, only if no exception ended
    it, handling `fs` from the cache `es` left.
   */
  lemma {:induction false} RunPageConcat(cache: Cache, es: seq<Entry>, fs: seq<Entry>, handle: Handler)
    ensures var first := RunPage(cache, es, handle);
            var second := RunPage(first.cache, fs, handle);
            RunPage(cache, es + fs, handle) ==
              if first.completed then PageRun(first.records + second.records, second.cache, second.completed)
              else first
    decreases |es|
  {
    if es == [] {
      assert es + fs == fs;
    } else {
      assert (es + fs)[0] == es[0] && (es + fs)[1..] == es[1..] + fs;
      match handle(cache, es[0])
      case Raised(_) =>
      case Skipped =>
        RunPageConcat(cache, es[1..], fs, handle);
      case Appended(record, raw) =>
        RunPageConcat(cache[es[0].title := raw], es[1..], fs, handle);
    }
  }

  /**
    When product `k` of a page raises, the page yields exactly what the
    products before it appended and the cache as they left it: the products
    after `k` are lost, the earlier records remain.
   */
  lemma RaiseKeepsEarlierRecords(cache: Cache, es: seq<Entry>, k: nat, handle: Handler)
    requires k < |es|
    requires RunPage(cache, es[..k], handle).completed
    requires handle(RunPage(cache, es[..k], handle).cache, es[k]).Raised?
    ensures var before := RunPage(cache, es[..k], handle);
            RunPage(cache, es, handle) == PageRun(before.records, before.cache, false)
  {
    assert es == es[..k] + es[k..];
    RunPageConcat(cache, es[..k], es[k..], handle);
    assert es[k..][0] == es[k];
  }

  /** Handling pages `ps + qs` is handling `ps` and then `qs` from the cache `ps` left. */
  lemma {:induction false} RunPagesConcat(cache: Cache, ps: seq<Option<seq<Entry>>>, qs: seq<Option<seq<Entry>>>, handle: Handler)
    ensures var first := RunPages(cache, ps, handle);
            var second := RunPages(first.cache, qs, handle);
            RunPages(cache, ps + qs, handle) == CrawlRun(first.records + second.records, second.cache)
    decreases |ps|
  {
    if ps == [] {
      assert ps + qs == qs;
    } else {
      assert (ps + qs)[0] == ps[0] && (ps + qs)[1..] == ps[1..] + qs;
      var here := PageOutcome(cache, ps[0], handle);
      RunPagesConcat(here.cache, ps[1..], qs, handle);
      var rest := RunPages(here.cache, ps[1..], handle);
      var second := RunPages(rest.cache, qs, handle);
      assert here.records + (rest.records + second.records) == (here.records + rest.records) + second.records;
    }
  }

  /**
    Page `k`'s trouble stays on page `k`: the records of a crawl are those of
    the pages before it, then whatever page `k` yields (nothing if its fetch
    gave up, its records before the exception if a product raised), then those
    of every later page, which are still handled.
   */
  lemma PageIsolation(cache: Cache, ps: seq<Option<seq<Entry>>>, k: nat, handle: Handler)
    requires k < |ps|
    ensures var before := RunPages(cache, ps[..k], handle);
            var here := PageOutcome(before.cache, ps[k], handle);
            var after := RunPages(here.cache, ps[k + 1..], handle);
            && RunPages(cache, ps, handle) == CrawlRun(before.records + here.records + after.records, after.cache)
            && (ps[k].None? ==> here == PageRun([], before.cache, true))
  {
    assert ps == ps[..k] + ps[k..];
    RunPagesConcat(cache, ps[..k], ps[k..], handle);
    assert ps[k..][0] == ps[k] && ps[k..][1..] == ps[k + 1..];
  }

  /** With `pages <= 0`, `range(1, pages + 1)` is empty: nothing is fetched and nothing returned. */
  lemma NoPagesNoProducts(cache: Cache, pages: int, env: Env)
    requires pages <= 0
    ensures FetchAll(env.network, pages) == []
    ensures Crawl(cache, pages, env) == CrawlRun([], cache)
  {
  }

  // ---------------------------------------------------------------------------
  // Idempotence

  /** Every title of `universe` carries one price text (so one raw price, or one IndexError). */
  ghost predicate OnePrice(universe: set<Entry>)
  {
    forall e1, e2 :: e1 in universe && e2 in universe && e1.title == e2.title ==>
      PriceOf(e1.priceText) == PriceOf(e2.priceText)
  }

  ghost predicate Within(es: seq<Entry>, universe: set<Entry>)
  {
    forall e :: e in es ==> e in universe
  }

  /** The products on the fetched pages. */
  ghost function Listed(pages: seq<Option<seq<Entry>>>): set<Entry>
    decreases |pages|
  {
    if pages == [] then {}
    else (if pages[0].Some? then set e | e in pages[0].value else {}) + Listed(pages[1..])
  }

  /** The cache after `handle` appended `e`. */
  function Recorded(cache: Cache, e: Entry, handle: Handler): Cache
    requires handle(cache, e).Appended?
  {
    cache[e.title := handle(cache, e).rawPrice]
  }

  /**
    What idempotence needs of the handler, within `universe`: a product just
    appended is skipped the next time, and one that is not appended (skipped,
    or raising) stays so when another product is appended.
   */
  ghost predicate Settles(handle: Handler, universe: set<Entry>)
  {
    && (forall cache, e :: e in universe && handle(cache, e).Appended? ==>
          handle(Recorded(cache, e, handle), e).Skipped?)
    && (forall cache, e, other :: e in universe && other in universe && handle(cache, other).Appended? && !handle(cache, e).Appended? ==>
          handle(Recorded(cache, other, handle), e) == handle(cache, e))
  }

  /**
    Appending a product with a title's one price does not change what happens
    to a product that is not appended: it is still skipped, or still raises.
   */
  lemma NotAppendedStaysSo(cache: Cache, e: Entry, other: Entry, parsesFloat: string -> bool, universe: set<Entry>)
    requires OnePrice(universe) && e in universe && other in universe
    requires ProcessEntry(cache, other, parsesFloat).Appended?
    requires !ProcessEntry(cache, e, parsesFloat).Appended?
    ensures var updated := cache[other.title := ProcessEntry(cache, other, parsesFloat).rawPrice];
            ProcessEntry(updated, e, parsesFloat) == ProcessEntry(cache, e, parsesFloat)
  {
    var updated := cache[other.title := ProcessEntry(cache, other, parsesFloat).rawPrice];
    if e.title != other.title {
      ProcessEntryReadsOwnTitle(updated, cache, e, parsesFloat);
    }
  }

  /** The scraper's handler settles on any universe where every title has one price. */
  lemma HandleSettles(parsesFloat: string -> bool, universe: set<Entry>)
    requires OnePrice(universe)
    ensures Settles(Handle(parsesFloat), universe)
  {
    var handle := Handle(parsesFloat);
    forall cache, e | e in universe && handle(cache, e).Appended?
      ensures handle(Recorded(cache, e, handle), e).Skipped?
    {
    }
    forall cache, e, other | e in universe && other in universe && handle(cache, other).Appended? && !handle(cache, e).Appended?
      ensures handle(Recorded(cache, other, handle), e) == handle(cache, e)
    {
      NotAppendedStaysSo(cache, e, other, parsesFloat, universe);
    }
  }

  /** A page appends nothing when handled from `cache`. */
  ghost predicate Quiet(cache: Cache, es: seq<Entry>, handle: Handler)
  {
    RunPage(cache, es, handle).records == []
  }

  /** A quiet page stays quiet when a product of the universe is appended. */
  lemma {:induction false} QuietAfterAppend(cache: Cache, es: seq<Entry>, other: Entry, handle: Handler, universe: set<Entry>)
    requires Settles(handle, universe) && Within(es, universe) && other in universe
    requires handle(cache, other).Appended?
    requires Quiet(cache, es, handle)
    ensures Quiet(Recorded(cache, other, handle), es, handle)
    decreases |es|
  {
    if es != [] {
      assert es[0] in universe && Within(es[1..], universe);
      if handle(cache, es[0]).Skipped? {
        QuietAfterAppend(cache, es[1..], other, handle, universe);
      }
    }
  }

  /** A quiet page stays quiet after a page of the universe is handled. */
  lemma {:induction false} QuietAfterPage(cache: Cache, es: seq<Entry>, fs: seq<Entry>, handle: Handler, universe: set<Entry>)
    requires Settles(handle, universe) && Within(es, universe) && Within(fs, universe)
    requires Quiet(cache, es, handle)
    ensures Quiet(RunPage(cache, fs, handle).cache, es, handle)
    decreases |fs|
  {
    if fs != [] {
      assert fs[0] in universe && Within(fs[1..], universe);
      match handle(cache, fs[0])
      case Raised(_) =>
      case Skipped =>
        QuietAfterPage(cache, es, fs[1..], handle, universe);
      case Appended(_, raw) =>
        QuietAfterAppend(cache, es, fs[0], handle, universe);
        QuietAfterPage(Recorded(cache, fs[0], handle), es, fs[1..], handle, universe);
    }
  }

  /** A page is quiet when its first product is not appended and the rest are quiet. */
  lemma QuietCons(cache: Cache, e: Entry, rest: seq<Entry>, handle: Handler)
    requires Quiet(cache, [e], handle) && Quiet(cache, rest, handle)
    ensures Quiet(cache, [e] + rest, handle)
  {
    assert ([e] + rest)[0] == e && ([e] + rest)[1..] == rest;
  }

  /** Handling a page leaves a cache from which handling it again appends nothing. */
  lemma {:induction false} QuietAfterItself(cache: Cache, es: seq<Entry>, handle: Handler, universe: set<Entry>)
    requires Settles(handle, universe) && Within(es, universe)
    ensures Quiet(RunPage(cache, es, handle).cache, es, handle)
    decreases |es|
  {
    if es != [] {
      var e := es[0];
      var rest := es[1..];
      assert e in universe && Within(rest, universe) && Within([e], universe);
      assert [e] + rest == es;
      match handle(cache, e)
      case Raised(_) =>
      case Skipped =>
        QuietAfterItself(cache, rest, handle, universe);
        QuietAfterPage(cache, [e], rest, handle, universe);
        QuietCons(RunPage(cache, rest, handle).cache, e, rest, handle);
      case Appended(_, _) =>
        var updated := Recorded(cache, e, handle);
        assert Quiet(updated, [e], handle);
        QuietAfterItself(updated, rest, handle, universe);
        QuietAfterPage(updated, [e], rest, handle, universe);
        QuietCons(RunPage(updated, rest, handle).cache, e, rest, handle);
    }
  }

  /** Every fetched page is quiet from `cache`. */
  ghost predicate AllQuiet(cache: Cache, pages: seq<Option<seq<Entry>>>, handle: Handler)
  {
    forall i :: 0 <= i < |pages| && pages[i].Some? ==> Quiet(cache, pages[i].value, handle)
  }

  /** When every page is quiet, handling them all appends nothing and leaves the cache alone. */
  lemma {:induction false} AllQuietAppendsNothing(cache: Cache, pages: seq<Option<seq<Entry>>>, handle: Handler)
    requires AllQuiet(cache, pages, handle)
    ensures RunPages(cache, pages, handle) == CrawlRun([], cache)
    decreases |pages|
  {
    if pages != [] {
      assert pages[0].Some? ==> Quiet(cache, pages[0].value, handle);
      assert AllQuiet(cache, pages[1..], handle) by {
        forall i | 0 <= i < |pages[1..]| && pages[1..][i].Some?
          ensures Quiet(cache, pages[1..][i].value, handle)
        {
          assert pages[1..][i] == pages[i + 1];
        }
      }
      AllQuietAppendsNothing(cache, pages[1..], handle);
    }
  }

  /** A fetched page lies within the products of the pages. */
  lemma ListedPages(pages: seq<Option<seq<Entry>>>)
    requires pages != []
    ensures pages[0].Some? ==> Within(pages[0].value, Listed(pages))
    ensures Listed(pages[1..]) <= Listed(pages)
  {
  }

  /** A quiet page stays quiet after any pages of the universe are handled. */
  lemma {:induction false} QuietAfterPages(cache: Cache, es: seq<Entry>, pages: seq<Option<seq<Entry>>>, handle: Handler, universe: set<Entry>)
    requires Settles(handle, universe) && Within(es, universe) && Listed(pages) <= universe
    requires Quiet(cache, es, handle)
    ensures Quiet(RunPages(cache, pages, handle).cache, es, handle)
    decreases |pages|
  {
    if pages != [] {
      ListedPages(pages);
      if pages[0].Some? {
        QuietAfterPage(cache, es, pages[0].value, handle, universe);
      }
      QuietAfterPages(PageOutcome(cache, pages[0], handle).cache, es, pages[1..], handle, universe);
    }
  }

  /** After handling some pages, every one of them is quiet. */
  lemma {:induction false} AllQuietAfterPages(cache: Cache, pages: seq<Option<seq<Entry>>>, handle: Handler, universe: set<Entry>)
    requires Settles(handle, universe) && Listed(pages) <= universe
    ensures AllQuiet(RunPages(cache, pages, handle).cache, pages, handle)
    decreases |pages|
  {
    if pages != [] {
      ListedPages(pages);
      var first := PageOutcome(cache, pages[0], handle);
      var last := RunPages(cache, pages, handle).cache;
      assert last == RunPages(first.cache, pages[1..], handle).cache;
      AllQuietAfterPages(first.cache, pages[1..], handle, universe);
      if pages[0].Some? {
        QuietAfterItself(cache, pages[0].value, handle, universe);
        QuietAfterPages(first.cache, pages[0].value, pages[1..], handle, universe);
      }
      forall i | 0 <= i < |pages| && pages[i].Some?
        ensures Quiet(last, pages[i].value, handle)
      {
        if i > 0 {
          assert pages[1..][i - 1] == pages[i];
        }
      }
    }
  }

  /**
    Running the crawl a second time, on the same network and from the cache
    the first run left, returns no product and leaves the cache as it was,
    provided every title on the fetched pages carries one price.
   */
  lemma CrawlIdempotent(cache: Cache, pages: int, env: Env)
    requires OnePrice(Listed(FetchAll(env.network, pages)))
    ensures var first := Crawl(cache, pages, env);
            Crawl(first.cache, pages, env) == CrawlRun([], first.cache)
  {
    var fetched := FetchAll(env.network, pages);
    var handle := Handle(env.parsesFloat);
    HandleSettles(env.parsesFloat, Listed(fetched));
    AllQuietAfterPages(cache, fetched, handle, Listed(fetched));
    AllQuietAppendsNothing(RunPages(cache, fetched, handle).cache, fetched, handle);
  }

  /** A rupee sign followed by a price without one reads back as that price. */
  lemma RawPriceAfterSign(p: string)
    requires Rupee !in p
    ensures RawPrice([Rupee] + p) == Some(p)
  {
    var text := [Rupee] + p;
    assert text[0] == Rupee;
    assert text[1..] == p;
    assert Strings.IndexOf(p, Rupee) == |p|;
    assert p[..|p|] == p;
    RawPriceBetweenSigns(text);
  }

  /**
    Without the one-price condition a second run is not idempotent: a page
    listing one title at two raw prices (for instance `"₹" + p1` and
    `"₹" + p2`, by `RawPriceAfterSign`) appends both, and both again on the
    next run.
   */
  lemma TwoPricesAppendAgain(e1: Entry, e2: Entry, p1: string, p2: string, parsesFloat: string -> bool)
    requires e1.title == e2.title && e1.imageUrl.Some? && e2.imageUrl.Some?
    requires PriceOf(e1.priceText) == Ok(Some(p1)) && PriceOf(e2.priceText) == Ok(Some(p2)) && p1 != p2
    requires parsesFloat(Normalise(p1)) && parsesFloat(Normalise(p2))
    ensures var first := RunPage(map[], [e1, e2], Handle(parsesFloat));
            && |first.records| == 2
            && |RunPage(first.cache, [e1, e2], Handle(parsesFloat)).records| == 2
  {
    var handle := Handle(parsesFloat);
    AppendedAt(map[], e1, p1, parsesFloat);
    var c1 := Recorded(map[], e1, handle);
    AppendedAt(c1, e2, p2, parsesFloat);
    var c2 := Recorded(c1, e2, handle);
    assert c2 == map[e1.title := p2];
    AppendedTwice(map[], e1, e2, handle);
    AppendedAt(c2, e1, p1, parsesFloat);
    AppendedAt(Recorded(c2, e1, handle), e2, p2, parsesFloat);
    AppendedTwice(c2, e1, e2, handle);
  }

  /** A product whose raw price `p` differs from the cached one is appended with it. */
  lemma AppendedAt(cache: Cache, e: Entry, p: string, parsesFloat: string -> bool)
    requires PriceOf(e.priceText) == Ok(Some(p))
    requires e.imageUrl.Some? && Lookup(cache, e.title) != Some(p) && parsesFloat(Normalise(p))
    ensures ProcessEntry(cache, e, parsesFloat).Appended?
    ensures Recorded(cache, e, Handle(parsesFloat)) == cache[e.title := p]
  {
  }

  /** Two products that are each appended in turn give their two records, in order, and both cache updates. */
  lemma AppendedTwice(cache: Cache, e1: Entry, e2: Entry, handle: Handler)
    requires handle(cache, e1).Appended?
    requires handle(Recorded(cache, e1, handle), e2).Appended?
    ensures var run := RunPage(cache, [e1, e2], handle);
            && |run.records| == 2
            && run.records == [handle(cache, e1).record, handle(Recorded(cache, e1, handle), e2).record]
            && run.cache == Recorded(Recorded(cache, e1, handle), e2, handle)
  {
    assert [e1, e2][1..] == [e2] && [e2][1..] == [];
  }
}
