/**
  `scrape_products`: walk the listing pages `1..pages`, and for every product
  on a page compare its price with the price cache, recording the product and
  updating the cache only when the price differs. Any exception while a page
  is handled ends that page; what was recorded so far stays, and the next
  page is tried.

  The HTML parser is not modelled: a fetched page is the sequence of its
  product entries, each holding what the parser would find in it.
 */
module Scraper {
  import opened Wrappers
  import opened Images
  import opened Prices
  import opened Fetcher

  /** One `li.product` element of a listing page. */
  datatype Entry = Entry(
    /** Text of the `h2.woo-loop-product__title` tag; `None` without one. */
    title: Option<string>,
    /** Text of the `span.price` tag, whitespace stripped; `None` without one. */
    priceText: Option<string>,
    /** The `data-lazy-src` of the `img` tag; `None` without the tag or the attribute. */
    imageUrl: Option<string>,
    /** Whether fetching that image and writing its file would both succeed. */
    imageSaved: bool)

  /** One element of the returned `products` list. */
  datatype Record = Record(
    title: Option<string>,
    /** The text handed to `float`: the raw price with rupee signs trimmed and commas removed. */
    price: string,
    imagePath: Option<string>)

  /** The price cache: title (possibly `None`) to the raw price text last recorded for it. */
  type Cache = map<Option<string>, string>

  /** `cache.get(title)`. */
  function Lookup(cache: Cache, title: Option<string>): Option<string>
  {
    if title in cache then Some(cache[title]) else None
  }

  /** The exceptions a product can raise inside a page's `try` block. */
  datatype Failure =
    | NoRupeeSign     // `split('₹')[1]` on text without a rupee sign: IndexError
    | NoImageSource   // `product.find('img')["data-lazy-src"]` on a missing tag or attribute
    | NoPrice         // `None.strip('₹')` for a product without a price tag
    | NotAFloat       // `float` refusing the normalised price text

  datatype Result<+T> = Ok(value: T) | Raise(cause: Failure)

  /** The `price` variable: the raw price, `None` without a price tag, or the IndexError. */
  function PriceOf(priceText: Option<string>): Result<Option<string>>
  {
    match priceText
    case None => Ok(None)
    case Some(text) =>
      match RawPrice(text)
      case None => Raise(NoRupeeSign)
      case Some(raw) => Ok(Some(raw))
  }

  /**
    Reading the price raises exactly for a price tag without a rupee sign; a
    missing tag gives `None`, and a raw price holds no rupee sign.
   */
  lemma PriceOfSpec(priceText: Option<string>)
    ensures PriceOf(priceText).Raise? <==> priceText.Some? && Rupee !in priceText.value
    ensures PriceOf(priceText).Ok? && PriceOf(priceText).value.Some? ==> Rupee !in PriceOf(priceText).value.value
    ensures PriceOf(priceText).Ok? ==> (PriceOf(priceText).value.None? <==> priceText.None?)
  {
    if priceText.Some? {
      RawPriceSpec(priceText.value);
    }
  }

  /** What handling one product does: skip it, append a record, or raise. */
  datatype Step = Skipped | Appended(record: Record, rawPrice: string) | Raised(cause: Failure)

  /** One iteration of the inner loop, given the cache it starts from. */
  function ProcessEntry(cache: Cache, e: Entry, parsesFloat: string -> bool): Step
  {
    match PriceOf(e.priceText)
    case Raise(cause) => Raised(cause)
    case Ok(price) =>
      if e.imageUrl.None? then Raised(NoImageSource)
      else if Lookup(cache, e.title) == price then Skipped
      else
        var imagePath := DownloadImage(e.imageSaved, e.title);
        match price
        case None => Raised(NoPrice)
        case Some(raw) =>
          var value := Normalise(raw);
          if !parsesFloat(value) then Raised(NotAFloat)
          else Appended(Record(e.title, value, imagePath), raw)
  }

  /**
    A product is skipped exactly when reading its price and image source
    succeeds and the cached price equals its raw price. It is appended exactly
    when they succeed, the cached price differs, there is a price and `float`
    accepts it; the record then carries the title, the raw price without its
    commas and what `download_image` returned.
   */
  lemma ProcessEntrySpec(cache: Cache, e: Entry, parsesFloat: string -> bool)
    ensures var step := ProcessEntry(cache, e, parsesFloat);
            var price := PriceOf(e.priceText);
            && (step.Skipped? <==> price.Ok? && e.imageUrl.Some? && Lookup(cache, e.title) == price.value)
            && (step.Appended? <==>
                  price.Ok? && e.imageUrl.Some? && Lookup(cache, e.title) != price.value
                  && price.value.Some? && parsesFloat(Normalise(price.value.value)))
            && (step.Appended? ==>
                  && price == Ok(Some(step.rawPrice))
                  && step.record.title == e.title
                  && step.record.price == Strings.RemoveAll(step.rawPrice, ',')
                  && step.record.imagePath == DownloadImage(e.imageSaved, e.title))
  {
    var price := PriceOf(e.priceText);
    PriceOfSpec(e.priceText);
    if price.Ok? && price.value.Some? {
      NormaliseSpec(price.value.value);
    }
  }

  /** What handling a page's products did: the records appended, the cache after, and whether no exception ended it. */
  datatype PageRun = PageRun(records: seq<Record>, cache: Cache, completed: bool)

  /**
    How one product is handled, as a function of the cache it starts from.
    The page and crawl loops below are stated for any handler; the scraper's
    own is `Handle`.
   */
  type Handler = (Cache, Entry) -> Step

  /** The scraper's handler: `ProcessEntry` with the given notion of what `float` accepts. */
  function Handle(parsesFloat: string -> bool): Handler
  {
    (cache: Cache, e: Entry) => ProcessEntry(cache, e, parsesFloat)
  }

  /**
    The inner loop over a page's products, stopping at the first exception.
    A record is appended only together with an entry for its title in the
    cache, and without a record the cache is left as it was.
   */
  function RunPage(cache: Cache, es: seq<Entry>, handle: Handler): (run: PageRun)
    ensures |run.records| <= |es|
    ensures run.records == [] ==> run.cache == cache
    decreases |es|
  {
    if es == [] then PageRun([], cache, true)
    else match handle(cache, es[0])
      case Raised(_) => PageRun([], cache, false)
      case Skipped => RunPage(cache, es[1..], handle)
      case Appended(record, raw) =>
        var rest := RunPage(cache[es[0].title := raw], es[1..], handle);
        PageRun([record] + rest.records, rest.cache, rest.completed)
  }

  /** The inner loop from product `i` on: product `i`'s step, then the loop from `i + 1`. */
  lemma RunPageFrom(cache: Cache, es: seq<Entry>, i: nat, handle: Handler)
    requires i < |es|
    ensures var step := handle(cache, es[i]);
            RunPage(cache, es[i..], handle) ==
              if step.Raised? then PageRun([], cache, false)
              else if step.Skipped? then RunPage(cache, es[i + 1..], handle)
              else
                var rest := RunPage(cache[es[i].title := step.rawPrice], es[i + 1..], handle);
                PageRun([step.record] + rest.records, rest.cache, rest.completed)
  {
    assert es[i..][0] == es[i] && es[i..][1..] == es[i + 1..];
  }

  /** One page's part in the crawl: nothing when its fetch gave up. */
  function PageOutcome(cache: Cache, page: Option<seq<Entry>>, handle: Handler): PageRun
  {
    if page.None? then PageRun([], cache, true) else RunPage(cache, page.value, handle)
  }

  /** The records and the cache after some pages. */
  datatype CrawlRun = CrawlRun(records: seq<Record>, cache: Cache)

  /**
    The outer loop over fetched pages (`None`: the fetch gave up). Each page's
    records follow those of the pages before it.
   */
  function RunPages(cache: Cache, pages: seq<Option<seq<Entry>>>, handle: Handler): (run: CrawlRun)
    ensures run.records == [] ==> run.cache == cache
    decreases |pages|
  {
    if pages == [] then CrawlRun([], cache)
    else
      var first := PageOutcome(cache, pages[0], handle);
      var rest := RunPages(first.cache, pages[1..], handle);
      CrawlRun(first.records + rest.records, rest.cache)
  }

  /** What the scraper's surroundings decide: the network, and which texts `float` accepts. */
  datatype Env = Env(network: Network<seq<Entry>>, parsesFloat: string -> bool)

  /** The fetched pages `1..pages`, in order. */
  function FetchAll(network: Network<seq<Entry>>, pages: int): (fetched: seq<Option<seq<Entry>>>)
    ensures |fetched| == |PageUrls(pages)|
    ensures forall i :: 0 <= i < |fetched| ==> fetched[i] == FetchWithRetry(network, PageUrl(i + 1))
  {
    var urls := PageUrls(pages);
    seq(|urls|, i requires 0 <= i < |urls| => FetchWithRetry(network, urls[i]))
  }

  /** A whole run of `scrape_products(pages)` from a given cache. */
  function Crawl(cache: Cache, pages: int, env: Env): CrawlRun
  {
    RunPages(cache, FetchAll(env.network, pages), Handle(env.parsesFloat))
  }

  /** The module-level `cache`, without expiry or size bound. */
  class PriceCache {
    var entries: Cache

    constructor ()
      ensures entries == map[]
    {
      entries := map[];
    }

    /** `cache.get(title)`. */
    function Get(title: Option<string>): Option<string>
      reads this
    {
      Lookup(entries, title)
    }

    /**
      `cache[title] = price`: that one key changes. Reading it back gives the
      price just stored, and every other title reads as before.
     */
    method Put(title: Option<string>, price: string)
      modifies this
      ensures entries == old(entries)[title := price]
      ensures Get(title) == Some(price)
      ensures forall t :: t != title ==> Get(t) == Lookup(old(entries), t)
    {
      entries := entries[title := price];
    }
  }

  /**
    One iteration of the inner loop: read the product's price and image
    source, compare the price with the cache and, when it differs, download
    the image, build the record and store the raw price. The step taken is
    the one `ProcessEntry` describes, and the cache changes only on an append,
    at the product's title.
   */
  method HandleProduct(cache: PriceCache, e: Entry, parsesFloat: string -> bool) returns (step: Step)
    modifies cache
    ensures step == ProcessEntry(old(cache.entries), e, parsesFloat)
    ensures cache.entries == if step.Appended? then old(cache.entries)[e.title := step.rawPrice] else old(cache.entries)
  {
    var price := PriceOf(e.priceText);
    if price.Raise? {
      return Raised(price.cause);
    }
    if e.imageUrl.None? {
      return Raised(NoImageSource);
    }
    var cached := cache.Get(e.title);
    if cached == price.value {
      return Skipped;
    }
    var imagePath := DownloadImage(e.imageSaved, e.title);
    if price.value.None? {
      return Raised(NoPrice);
    }
    var value := Normalise(price.value.value);
    if !parsesFloat(value) {
      return Raised(NotAFloat);
    }
    step := Appended(Record(e.title, value, imagePath), price.value.value);
    cache.Put(e.title, price.value.value);
  }

  /**
    The body of the inner loop's `try`, for one fetched page: handle its
    products in order until one raises.
   */
  method ProcessPage(cache: PriceCache, es: seq<Entry>, parsesFloat: string -> bool)
    returns (appended: seq<Record>, completed: bool)
    modifies cache
    ensures RunPage(old(cache.entries), es, Handle(parsesFloat)) == PageRun(appended, cache.entries, completed)
  {
    appended := [];
    completed := true;
    var i := 0;
    while completed && i < |es|
      invariant 0 <= i <= |es|
      invariant completed ==>
        var rest := RunPage(cache.entries, es[i..], Handle(parsesFloat));
        RunPage(old(cache.entries), es, Handle(parsesFloat)) == PageRun(appended + rest.records, rest.cache, rest.completed)
      invariant !completed ==>
        RunPage(old(cache.entries), es, Handle(parsesFloat)) == PageRun(appended, cache.entries, false)
    {
      RunPageFrom(cache.entries, es, i, Handle(parsesFloat));
      var step := HandleProduct(cache, es[i], parsesFloat);
      match step {
        case Raised(_) =>
          completed := false;
        case Skipped =>
        case Appended(record, _) =>
          appended := appended + [record];
      }
      i := i + 1;
    }
    if completed {
      assert es[i..] == [];
    }
  }

  /**
    One iteration of the crawl loop: fetch page `page` with retries and, if
    the fetch succeeded, handle its products until one raises.
   */
  method ScrapeListing(cache: PriceCache, page: nat, env: Env) returns (appended: seq<Record>)
    modifies cache
    ensures var outcome := PageOutcome(old(cache.entries), FetchWithRetry(env.network, PageUrl(page)), Handle(env.parsesFloat));
            outcome.records == appended && outcome.cache == cache.entries
  {
    var url := PageUrl(page);
    var listing, _ := ScrapePage(env.network, url);
    appended := [];
    if listing.Some? {
      var completed;
      appended, completed := ProcessPage(cache, listing.value, env.parsesFloat);
    }
  }

  /**
    One turn of the crawl loop keeps its invariant: the records so far, then
    those of the pages from `k` on, are the records of the whole crawl.
   */
  lemma CrawlAdvance(target: CrawlRun, cache: Cache, pages: seq<Option<seq<Entry>>>, k: nat, handle: Handler,
                     products: seq<Record>, appended: seq<Record>, after: Cache)
    requires k < |pages|
    requires var rest := RunPages(cache, pages[k..], handle);
             target == CrawlRun(products + rest.records, rest.cache)
    requires var here := PageOutcome(cache, pages[k], handle);
             here.records == appended && here.cache == after
    ensures var rest := RunPages(after, pages[k + 1..], handle);
            target == CrawlRun((products + appended) + rest.records, rest.cache)
  {
    assert pages[k..][0] == pages[k] && pages[k..][1..] == pages[k + 1..];
    var rest := RunPages(after, pages[k + 1..], handle);
    assert RunPages(cache, pages[k..], handle) == CrawlRun(appended + rest.records, rest.cache);
    assert products + (appended + rest.records) == (products + appended) + rest.records;
  }

  /**
    `scrape_products(pages)`: fetch each page `1..pages` with retries and
    handle its products; a page whose fetch gives up adds nothing. The pages
    are visited in ascending order, at the URLs `PageUrls(pages)`.
   */
  method ScrapeProducts(cache: PriceCache, pages: int, env: Env)
    returns (products: seq<Record>)
    modifies cache
    ensures Crawl(old(cache.entries), pages, env) == CrawlRun(products, cache.entries)
  {
    products := [];
    ghost var fetched := FetchAll(env.network, pages);
    ghost var handle := Handle(env.parsesFloat);
    ghost var target := RunPages(cache.entries, fetched, handle);
    var page := 1;
    while page <= pages
      invariant 1 <= page <= |fetched| + 1
      invariant
        var rest := RunPages(cache.entries, fetched[page - 1..], handle);
        target == CrawlRun(products + rest.records, rest.cache)
    {
      ghost var before := cache.entries;
      var appended := ScrapeListing(cache, page, env);
      CrawlAdvance(target, before, fetched, page - 1, handle, products, appended, cache.entries);
      products := products + appended;
      page := page + 1;
    }
    assert fetched[page - 1..] == [];
  }
}
