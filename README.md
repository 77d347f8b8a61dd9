# Web scraper model

This project models the core of a product scraper, `scraper.py`. The scraper
walks the listing pages `1..pages` of a dental supplies shop. Each page is
fetched with up to three attempts.

For every product on a page, the scraper reads:
- its title;
- its price text, which it cuts at the rupee sign `₹`;
- its image source.

It then compares the raw price with a module-level price cache. When the
cached price differs, the scraper does three things:
- downloads the image to `images/<title stem>.jpg`;
- appends a record (title, price handed to `float`, image path);
- updates the cache.

An exception inside a page abandons the rest of that page. The crawl then goes
on with the next page.

The model is split into modules:

- `Strings` defines the string operations the source uses: `split`, `strip`,
  `replace` of one character, and decimal rendering. Each comes with the
  lemmas that characterise it.
- `Images`: the path `download_image` builds and returns.
- `Prices`:
  - the raw price `split('₹')[1]`, with its error case;
  - the normalised text `strip('₹').replace(',', '')`.
- `Fetcher`:
  - the page URL `base_url + str(page) + "/"`;
  - the sequence of URLs a crawl visits;
  - the retry loop of `scrape_page`.
- `Scraper`:
  - the product entry and the record;
  - the price cache as a class;
  - the step one product takes;
  - one product's turn of the inner loop as a method `HandleProduct`;
  - the inner loop as a method `ProcessPage`;
  - one outer iteration as `ScrapeListing`;
  - the whole of `scrape_products` as a method `ScrapeProducts`.

  The methods are proved against the functions `RunPage`, `PageOutcome`,
  `RunPages` and `Crawl`. The page and crawl functions are written for an
  arbitrary handler (how one product is handled from a given cache). The
  scraper's own handler is `Handle`.
- `ScraperProperties` proves what the source promises about those functions:
  - the append rule and the cache update;
  - the missing-price skip;
  - failure isolation within a page and across pages;
  - an empty crawl for `pages <= 0`;
  - idempotence of a second run when each title carries one price, and a
    counterexample without that condition.

A page returned by the HTML parser is modelled as the sequence of its product
entries. Each entry holds what the parser finds in it:
- the title, or `None`;
- the price text, or `None`;
- the `data-lazy-src` of its image, or `None` when the tag or the attribute is
  missing;
- whether downloading and writing the image would succeed.

The network is a function from a URL and an attempt number to a served page or
a failure. Which texts `float` accepts is a predicate passed in.

## Model

| member | source | states |
|---|---|---|
| Images.StemSpec | scraper.py:36 | the stem of a title has no space and no period, and is shorter than the title by exactly its number of periods |
| Images.StemConcat | scraper.py:36 | the stem is computed character by character: the stem of a concatenation is the concatenation of the stems |
| Images.StemOfChar | scraper.py:36 | a period maps to nothing, a space to `_`, and any other character to itself |
| Images.ImagePathShape | scraper.py:36 | the image path is `images/`, then the stem, then `.jpg`; its length follows from the title's length less its periods; it has no space; its only period starts the extension |
| Images.DownloadImage | scraper.py:31-42 | a path is returned exactly when fetching and writing the image succeed and the title exists. The path is the one built from the title; otherwise the result is `None` |
| Prices.RawPriceSpec | scraper.py:86 | `split('₹')[1]` yields a price exactly when the text contains a rupee sign (otherwise the index raises), and that price contains no rupee sign |
| Prices.RawPriceBetweenSigns | scraper.py:86 | the raw price is the text after the first rupee sign, up to the next rupee sign or the end |
| Prices.NormaliseSpec | scraper.py:97 | no comma survives normalisation. Every character other than a comma or the rupee sign is kept with its multiplicity, and nothing is added. Without a rupee sign only the commas are removed |
| Prices.NormaliseRawPrice | scraper.py:86-97 | on a raw price, `strip('₹')` removes nothing, so the record's price is the raw price without its commas |
| Strings.SplitSpec | scraper.py:86 | `split` gives one piece more than there are separators, and no piece contains the separator |
| Strings.JoinSplit | scraper.py:86 | joining the pieces of `split` with the separator gives back the text |
| Strings.StripSpec | scraper.py:97 | `strip(c)` keeps a contiguous slice of the text, and every character cut on either side of it is `c`. It removes only copies of `c`, as many as the length drops. The result neither starts nor ends with `c`, and a text without `c` is unchanged |
| Strings.RemoveAllSpec | scraper.py:36 | removing a character leaves none of it, shortens the text by its count, and leaves a text without it unchanged |
| Strings.ParseDecimalOfDecimal | scraper.py:73 | the decimal rendering of a page number reads back as that number |
| Fetcher.PageUrlParts | scraper.py:68-73 | a page URL is the base URL, then the page number in decimal digits, then `/`; the page number can be read back from it |
| Fetcher.PageUrlInjective | scraper.py:71-73 | different page numbers give different URLs |
| Fetcher.PageUrls | scraper.py:71-73 | the URLs visited are those of pages 1 to `pages`, in ascending order; there are none when `pages <= 0` |
| Fetcher.PageUrlsDistinct | scraper.py:71-73 | no URL is visited twice in one crawl |
| Fetcher.FirstServed | scraper.py:44 | a page is obtained exactly when some attempt below the limit of 3 is served. It is the page of the first served attempt, and every earlier attempt failed |
| Fetcher.ScrapePage | scraper.py:44-53 | between 1 and 3 attempts are made, and all but the last failed. The result is the last attempt's page, or none after 3 failures. It agrees with `FetchWithRetry` |
| Images.Stem | scraper.py:36 | defined by its body; characterised by `StemSpec`, `StemConcat` and `StemOfChar` |
| Images.ImagePath | scraper.py:36 | defined by its body; characterised by `ImagePathShape` |
| Prices.RawPrice | scraper.py:86 | defined by its body; characterised by `RawPriceSpec` and `RawPriceBetweenSigns` |
| Prices.Normalise | scraper.py:97 | defined by its body; characterised by `NormaliseSpec` and `NormaliseRawPrice` |
| Strings.Split | scraper.py:86 | at least one piece; characterised by `SplitSpec` and `JoinSplit` |
| Strings.Strip | scraper.py:97 | defined by its body; characterised by `StripSpec` |
| Strings.RemoveAll | scraper.py:36 | defined by its body (also the comma removal at scraper.py:97); characterised by `RemoveAllSpec`, and, keeping the order of what stays, by `RemoveAllConcat` with `RemoveAllOfChar` |
| Strings.RemoveAllConcat | scraper.py:36 | removing a character works piece by piece: on a concatenation it is the concatenation of the pieces' results, so what stays keeps its order |
| Strings.RemoveAllOfChar | scraper.py:36 | on one character, removal gives nothing when it is the removed character, and the character itself otherwise |
| Strings.ReplaceChar | scraper.py:36 | the result has the text's length, and each character equal to the replaced one becomes its replacement while every other character is kept |
| Strings.Decimal | scraper.py:73 | at least one character, all of them decimal digits, no leading zero unless the number is 0; `ParseDecimalOfDecimal` reads it back |
| Fetcher.PageUrl | scraper.py:73 | defined by its body; characterised by `PageUrlParts` and `PageUrlInjective` |
| Fetcher.FetchWithRetry | scraper.py:44-53 | the retried fetch from the first attempt; characterised by `FirstServed` and `ScrapePage` |
| Scraper.Lookup | scraper.py:92 | `cache.get(title)`; defined by its body, and `PriceCache.Put` states get-after-put through it |
| Scraper.PriceOf | scraper.py:85-86 | defined by its body; characterised by `PriceOfSpec` |
| Scraper.ProcessEntry | scraper.py:82-100 | defined by its body; characterised by `ProcessEntrySpec` |
| Scraper.PageOutcome | scraper.py:72-103 | defined by its body: a page whose fetch gave up adds nothing; characterised by `PageIsolation` |
| Scraper.Crawl | scraper.py:66-105 | defined by its body; `ScrapeProducts` is proved equal to it, and `CrawlIdempotent` and `NoPagesNoProducts` are stated on it |
| Scraper.PriceCache.constructor | scraper.py:20 | the cache starts empty |
| Scraper.PriceOfSpec | scraper.py:85-86 | reading the price raises exactly when there is a price tag whose text has no rupee sign. When it does not raise, the result is `None` exactly when there is no price tag, and a raw price holds no rupee sign |
| Scraper.ProcessEntrySpec | scraper.py:82-100 | a product is skipped exactly when its price and image source are read and the cached price equals its raw price. It is appended exactly when they are read, the cached price differs, there is a price and `float` accepts its normalised text. The record then has the product's title, the raw price without its commas, and `download_image`'s result |
| Scraper.RunPage | scraper.py:81-100 | a page yields at most one record per product, and a page that appends nothing leaves the cache unchanged |
| Scraper.RunPages | scraper.py:71-103 | a crawl that appends nothing leaves the cache unchanged |
| Scraper.FetchAll | scraper.py:71-75 | page `i` of the crawl is the retried fetch of the URL of page `i + 1`, one per visited URL |
| Scraper.PriceCache.Put | scraper.py:100 | `cache[title] = price` changes that one key and no other: `get` of that title then gives the price just stored, and `get` of any other title gives what it gave before |
| Scraper.HandleProduct | scraper.py:82-100 | one product's turn of the inner loop takes exactly the step `ProcessEntry` describes, and changes the cache only on an append, setting the product's title to its raw price |
| Scraper.ProcessPage | scraper.py:79-100 | handling a fetched page's products in order, stopping at the first exception, appends exactly the records of `RunPage` and leaves the cache as `RunPage` does |
| Scraper.ScrapeListing | scraper.py:72-101 | one iteration of the page loop fetches the page's URL with retries. It appends nothing when the fetch gives up, and otherwise what the page's products yield |
| Scraper.CrawlAdvance | scraper.py:71-103 | each turn of the page loop keeps the crawl loop's invariant: the records so far, then those of the remaining pages, are the records of the whole crawl |
| Scraper.ScrapeProducts | scraper.py:66-105 | `scrape_products` returns exactly the records of `Crawl` for the same pages, network and starting cache, and leaves the cache as `Crawl` does |
| ScraperProperties.AppendCachesRawPrice | scraper.py:93-100 | after a product is appended, the cache maps its title to its raw price, which differs from the price cached before. Every other title is unchanged |
| ScraperProperties.MissingPrice | scraper.py:86-97 | a product without a price tag but with an image source is skipped when its title is not cached (`None != None` is false), with nothing appended and the cache unchanged. When its title is cached it raises at `None.strip` |
| ScraperProperties.ProcessEntryReadsOwnTitle | scraper.py:92-93 | how a product is handled depends on the cache only through its own title |
| ScraperProperties.RunPageConcat | scraper.py:72-103 | handling products `es + fs` is handling `es`, then handling `fs` from the cache `es` left, but only if no exception ended `es` |
| ScraperProperties.RaiseKeepsEarlierRecords | scraper.py:95-103 | when product `k` raises, the page keeps the records appended by the products before it and the cache they left; the products after `k` are not handled |
| ScraperProperties.RunPagesConcat | scraper.py:71-103 | crawling pages `ps + qs` is crawling `ps`, then crawling `qs` from the cache `ps` left, with the records in that order |
| ScraperProperties.PageIsolation | scraper.py:71-105 | the crawl's records are those of the earlier pages, then page `k`'s (none if its fetch gave up), then those of every later page, which are still handled |
| ScraperProperties.NoPagesNoProducts | scraper.py:71 | with `pages <= 0`, no page is fetched, nothing is returned and the cache is unchanged |
| ScraperProperties.NotAppendedStaysSo | scraper.py:92-100 | when every title has one price text, a product that is not appended stays not appended after another product is recorded |
| ScraperProperties.HandleSettles | scraper.py:92-100 | when every title has one price text, the scraper's handler settles: an appended product is skipped once recorded, and later recordings never make a non-appended product appendable |
| ScraperProperties.AllQuietAppendsNothing | scraper.py:71-103 | a crawl over pages each of which appends nothing when handled from the current cache returns nothing and leaves the cache as it was |
| ScraperProperties.AllQuietAfterPages | scraper.py:71-103 | when the handler settles, each crawled page appends nothing when handled again from the cache the crawl left |
| ScraperProperties.QuietAfterItself | scraper.py:81-100 | when the handler settles, a page handled again from the cache it left appends nothing |
| ScraperProperties.CrawlIdempotent | scraper.py:66-105 | when every title on the fetched pages carries one price text, a second crawl on the same network, from the cache the first left, returns no product and leaves the cache unchanged |
| ScraperProperties.RawPriceAfterSign | scraper.py:86 | a rupee sign followed by a price without one reads back as exactly that price |
| ScraperProperties.TwoPricesAppendAgain | scraper.py:92-100 | take one title listed at two different raw prices, both with an image source and both accepted by `float`. From an empty cache both are appended, and both are appended again on a second run from the cache the first left. Idempotence needs the one-price condition |
| ScraperProperties.AppendedTwice | scraper.py:81-100 | two products each appended in turn give exactly their two records, the first product's then the second's, and the cache gets both updates in order (on a shared title the second price stays) |

## Left out

- HTTP: `requests.get` for pages and images, the proxy, and status checks. The network is a parameter, a function from a URL and an attempt number to a served page or a failure. So the model is deterministic, and idempotence is stated for the same network.
- HTML parsing with BeautifulSoup: a fetched page is the sequence of its product entries, holding what `find` and `get_text(strip=True)` would return.
- `float`: its acceptance of a text is a predicate passed in, and the record carries the text handed to it, not the floating-point value.
- The `TTLCache` time-to-live of one hour and its bound of 100 entries: the cache is an unbounded map that never expires. So `CrawlIdempotent` holds only for this unbounded cache. With `maxsize=100`, a crawl that records more than 100 titles evicts some of them, and a second run appends those again; an entry older than an hour likewise expires and is appended again.
- The two-second wait between attempts (`wait_fixed(2)`).
- The filesystem: the creation of the images folder and the writing of the image file. Whether the download and write succeed is a boolean per entry. The model does not record that an image is saved even when the product then raises: at `float` (price text refused), or at `None.strip` (no price tag, title cached), since `download_image` runs before both.
- `print` and the logged messages and URLs. The order of visited pages is stated by `FetchAll` and `PageUrls`.
- The FastAPI endpoint, the request model, the token check and the JSON file: they surround `scrape_products` and are not part of it.
- `pages` given as `None` by the request model: `range` then raises outside the page loop's `try`. The model takes `pages` as an integer.
- Concurrency: two requests running the scraper at once over the shared cache.
- Scraper.RunPage: its own contract states only the bounds. What each step does is stated by `ProcessEntrySpec`, `RunPageConcat` and the lemmas of `ScraperProperties`.
- Scraper.RunPages: its own contract states only that an empty crawl leaves the cache. The page-by-page composition is stated by `RunPagesConcat` and `PageIsolation`.
