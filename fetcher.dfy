/**
  Fetching one listing page: its URL and the retry policy around the GET
  (`stop_after_attempt(3)`). The network is a function from a URL and an
  attempt number to what that attempt ends in, so a fetch is deterministic
  in the model; the two-second wait between attempts is not modelled.
 */
module Fetcher {
  import opened Wrappers
  import opened Strings

  /** What one GET ends in: the page it served, or an exception (connection error, HTTP error status). */
  datatype Response<P> = Served(page: P) | Failed

  /** The network seen by the scraper: `network(url, k)` is the outcome of attempt `k` (from 0) on `url`. */
  type Network<!P> = (string, nat) -> Response<P>

  const MaxAttempts: nat := 3

  const BaseUrl: string := "https://dentalstall.com/shop/page/"

  /** `f"{base_url}{page}/"`. */
  function PageUrl(page: nat): string
  {
    BaseUrl + Decimal(page) + "/"
  }

  /**
    A page URL is the base URL, the page number in decimal and a slash, and the
    page number can be read back from it.
   */
  lemma PageUrlParts(page: nat)
    ensures var url := PageUrl(page);
            && |url| > |BaseUrl| + 1
            && url[..|BaseUrl|] == BaseUrl && url[|url| - 1] == '/'
            && (forall i :: |BaseUrl| <= i < |url| - 1 ==> '0' <= url[i] <= '9')
            && ParseDecimal(url[|BaseUrl|..|url| - 1]) == page
  {
    var url := PageUrl(page);
    assert url[|BaseUrl|..|url| - 1] == Decimal(page);
    ParseDecimalOfDecimal(page);
  }

  /** Different pages are fetched from different URLs. */
  lemma PageUrlInjective(p: nat, q: nat)
    requires PageUrl(p) == PageUrl(q)
    ensures p == q
  {
    PageUrlParts(p);
    PageUrlParts(q);
  }

  /** The URLs `range(1, pages + 1)` visits, in order; none when `pages <= 0`. */
  function PageUrls(pages: int): (urls: seq<string>)
    ensures |urls| == if pages <= 0 then 0 else pages
    ensures forall i :: 0 <= i < |urls| ==> urls[i] == PageUrl(i + 1)
  {
    seq(if pages <= 0 then 0 else pages, i requires 0 <= i => PageUrl(i + 1))
  }

  /** No page is fetched twice. */
  lemma PageUrlsDistinct(pages: int, i: nat, j: nat)
    requires i < j < |PageUrls(pages)|
    ensures PageUrls(pages)[i] != PageUrls(pages)[j]
  {
    if PageUrls(pages)[i] == PageUrls(pages)[j] {
      PageUrlInjective(i + 1, j + 1);
    }
  }

  /**
    The page served by the first successful attempt from `attempt` on, if one
    happens before the limit; every attempt before it failed.
   */
  function FirstServed<P>(network: Network<P>, url: string, attempt: nat): (page: Option<P>)
    ensures page.Some? <==> exists k :: attempt <= k < MaxAttempts && network(url, k).Served?
    ensures page.Some? ==> exists k :: attempt <= k < MaxAttempts && network(url, k) == Served(page.value)
                                       && forall j :: attempt <= j < k ==> network(url, j).Failed?
    decreases MaxAttempts - attempt
  {
    if attempt >= MaxAttempts then None
    else match network(url, attempt)
      case Served(p) => Some(p)
      case Failed => FirstServed(network, url, attempt + 1)
  }

  /** The outcome of the retrying fetch of `url`. */
  function FetchWithRetry<P>(network: Network<P>, url: string): Option<P>
  {
    FirstServed(network, url, 0)
  }

  /**
    `scrape_page` under its retry decorator: GET the URL until an attempt is
    served, giving up after `MaxAttempts` failures (the decorator then raises).
    It makes at least one and at most `MaxAttempts` attempts, all but the last failed.
   */
  method ScrapePage<P>(network: Network<P>, url: string) returns (page: Option<P>, attempts: nat)
    ensures 1 <= attempts <= MaxAttempts
    ensures forall k :: 0 <= k < attempts - 1 ==> network(url, k).Failed?
    ensures page.Some? ==> network(url, attempts - 1) == Served(page.value)
    ensures page.None? ==> attempts == MaxAttempts && network(url, attempts - 1).Failed?
    ensures page == FetchWithRetry(network, url)
  {
    var response := network(url, 0);
    attempts := 1;
    while response.Failed? && attempts < MaxAttempts
      invariant 1 <= attempts <= MaxAttempts
      invariant response == network(url, attempts - 1)
      invariant forall k :: 0 <= k < attempts - 1 ==> network(url, k).Failed?
      invariant FirstServed(network, url, 0) == FirstServed(network, url, attempts - 1)
    {
      response := network(url, attempts);
      attempts := attempts + 1;
    }
    page := if response.Served? then Some(response.page) else None;
  }
}
