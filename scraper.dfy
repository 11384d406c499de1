/**
 * The dataset crawler: discover the country pages, hand each one a proxy
 * from the harvested list in rotation, and, per country, find the CSV
 * archive links and download them one after the other.
 */
module Scraper {
  import opened Wrappers
  import opened Text
  import opened Http
  import opened Filesystem
  import opened Seqs
  import CheckProxy

  const SiteRoot: string := "https://data.worldbank.org"
  const CountryPrefix: string := "/country/"
  const CsvPrefix: string := "https://api.worldbank.org/v2/en/country/"

  /** The `href` attribute of one anchor of a page, None when the anchor has none. */
  type Anchor = Option<string>

  /** An anchor `find_all("a", href=lambda href: href and href.startswith("/country/"))` keeps. */
  predicate IsCountryAnchor(a: Anchor)
  {
    a.Some? && |a.value| > 0 && StartsWith(a.value, CountryPrefix)
  }

  datatype CountryLink = CountryLink(url: string, name: string)

  /**
   * `href.split('/')` of a country href starts with the empty text before
   * the leading slash and `country`; what follows are the fields of the
   * rest of the href.
   */
  lemma SplitCountryHref(href: string)
    requires StartsWith(href, CountryPrefix)
    ensures Split(href, '/') == ["", "country"] + Split(href[|CountryPrefix|..], '/')
    ensures |Split(href, '/')| >= 3
  {
    var rest := href[|CountryPrefix|..];
    assert href == "" + ['/'] + ("country" + ['/'] + rest) by {
      assert href == href[..|CountryPrefix|] + rest;
    }
    SplitCons2("", "country", '/', rest);
  }

  /** `href.split('/')[2].split('?')[0]`; the field always exists for a country href. */
  function CountryName(href: string): string
    requires StartsWith(href, CountryPrefix)
  {
    SplitCountryHref(href);
    Split(Split(href, '/')[2], '?')[0]
  }

  /**
   * The name is what follows `/country/` up to the first `/` or `?`: a
   * prefix of the rest of the href, holding neither character, and cut
   * exactly where one of them (or the end) comes.
   */
  lemma CountryNameSpec(href: string)
    requires StartsWith(href, CountryPrefix)
    ensures var name, rest := CountryName(href), href[|CountryPrefix|..];
            && '/' !in name && '?' !in name
            && name <= rest
            && (|name| == |rest| || rest[|name|] == '/' || rest[|name|] == '?')
  {
    var rest := href[|CountryPrefix|..];
    SplitCountryHref(href);
    SplitSpec(rest, '/');
    var segment := Split(rest, '/')[0];
    assert segment == Split(href, '/')[2];
    SplitSpec(segment, '?');
  }

  function LinkOf(href: string): CountryLink
    requires StartsWith(href, CountryPrefix)
  {
    CountryLink(SiteRoot + href, CountryName(href))
  }

  /** The link an anchor contributes to `country_links`, if any. */
  function CountryLinkOf(a: Anchor): Option<CountryLink>
  {
    if IsCountryAnchor(a) then Some(LinkOf(a.value)) else None
  }

  /** The `country_links` comprehension of `scrape_country`. */
  function CountryLinks(anchors: seq<Anchor>): seq<CountryLink>
  {
    FilterMap(anchors, CountryLinkOf)
  }

  /** Document order: the links of two runs of anchors are those of the first run, then those of the second. */
  lemma {:induction false} CountryLinksConcat(a: seq<Anchor>, b: seq<Anchor>)
    ensures CountryLinks(a + b) == CountryLinks(a) + CountryLinks(b)
  {
    FilterMapConcat(a, b, CountryLinkOf);
  }

  /**
   * One anchor gives exactly one link when its href starts with `/country/`
   * (its URL is the site root followed by the href, its name the field
   * after `/country/`), and none otherwise.
   */
  lemma CountryLinksOfAnchor(a: Anchor)
    ensures CountryLinks([a]) ==
            if a.Some? && StartsWith(a.value, "/country/")
            then [CountryLink("https://data.worldbank.org" + a.value, CountryName(a.value))]
            else []
  {
    assert CountryLinks([a]) == Kept(a, CountryLinkOf) + FilterMap([a][1..], CountryLinkOf);
  }

  /** Every link points into the site's country pages and carries a name free of `/` and `?`. */
  lemma {:induction false} CountryLinksShape(anchors: seq<Anchor>, k: nat)
    requires k < |CountryLinks(anchors)|
    ensures StartsWith(CountryLinks(anchors)[k].url, SiteRoot + CountryPrefix)
    ensures '/' !in CountryLinks(anchors)[k].name && '?' !in CountryLinks(anchors)[k].name
  {
    FilterMapFrom(anchors, CountryLinkOf, k);
    var j :| 0 <= j < |anchors| && CountryLinkOf(anchors[j]) == Some(CountryLinks(anchors)[k]);
    var href := anchors[j].value;
    CountryNameSpec(href);
    assert (SiteRoot + href)[..|SiteRoot + CountryPrefix|] == SiteRoot + href[..|CountryPrefix|];
  }

  // ---------------------------------------------------------------------------
  // Proxy rotation

  /** `itertools.cycle(proxies)`: yields the entries in order, over and over. */
  class ProxyCycle {
    const pool: seq<string>
    var position: nat
    ghost var served: nat

    ghost predicate Valid()
      reads this
    {
      if pool == [] then position == 0 else position == served % |pool|
    }

    constructor (proxies: seq<string>)
      ensures Valid() && pool == proxies && served == 0
    {
      pool := proxies;
      position := 0;
      served := 0;
    }

    /**
     * `next(proxy_pool)`: None stands for the StopIteration an empty cycle
     * raises; otherwise the `served`-th value is entry `served mod |pool|`.
     */
    method Next() returns (p: Option<string>)
      requires Valid()
      modifies this
      ensures Valid()
      ensures pool == [] ==> p == None && served == old(served)
      ensures pool != [] ==> p == Some(pool[old(served) % |pool|]) && served == old(served) + 1
    {
      if pool == [] {
        return None;
      }
      p := Some(pool[position]);
      NextPosition(served, |pool|);
      position := if position + 1 == |pool| then 0 else position + 1;
      served := served + 1;
    }
  }

  /** Advancing the index of a cycle of `n` entries by one, with wrap-around. */
  lemma NextPosition(i: nat, n: nat)
    requires n > 0
    ensures (i + 1) % n == if i % n + 1 == n then 0 else i % n + 1
  {
    var q, r := i / n, i % n;
    assert i == q * n + r;
    if r + 1 == n {
      assert i + 1 == (q + 1) * n + 0;
      ModOf(i + 1, n, q + 1, 0);
    } else {
      assert i + 1 == q * n + (r + 1);
      ModOf(i + 1, n, q, r + 1);
    }
  }

  /** The remainder is determined by any decomposition `x == q * n + r` with `0 <= r < n`. */
  lemma ModOf(x: nat, n: nat, q: int, r: nat)
    requires n > 0 && r < n && x == q * n + r
    ensures x % n == r
  {
    var q', r' := x / n, x % n;
    assert x == q' * n + r';
    var d := q - q';
    assert d * n == r' - r;
  }

  /** One `scrape_country_csv_data` call submitted to the pool. */
  datatype Task = Task(countryName: string, countryUrl: string, proxy: string)

  datatype CountryError =
    | PageRequestError       // requests.get of the start page raised
    | ProxyFileMissing       // read_file_to_list raised FileNotFoundError
    | EmptyProxyCycle        // next on the cycle of an empty list raised StopIteration

  datatype CountryRun =
    | Raised(error: CountryError)
    | BadStatus(status: int)
    | Submitted(tasks: seq<Task>)

  /**
   * `scrape_country`: a non-200 start page returns at once; otherwise the
   * proxy file is read, and country `i` is submitted with proxy
   * `i mod |proxies|`. An empty list raises on the first country, and only
   * if there is one.
   */
  method ScrapeCountry(page: Page<seq<Anchor>>, fs: FileSystem) returns (run: CountryRun)
    ensures page.RequestFailed? ==> run == Raised(PageRequestError)
    ensures page.Response? && page.status != 200 ==> run == BadStatus(page.status)
    ensures page.Response? && page.status == 200 && CheckProxy.ProxyListPath !in fs.files ==>
              run == Raised(ProxyFileMissing)
    ensures page.Response? && page.status == 200 && CheckProxy.ProxyListPath in fs.files ==>
              var links := CountryLinks(page.body);
              var proxies := StrippedLines(fs.files[CheckProxy.ProxyListPath]);
              if links == [] then run == Submitted([])
              else if proxies == [] then run == Raised(EmptyProxyCycle)
              else run.Submitted? && |run.tasks| == |links|
                   && forall i :: 0 <= i < |links| ==>
                        run.tasks[i] == Task(links[i].name, links[i].url, proxies[i % |proxies|])
  {
    if page.RequestFailed? {
      return Raised(PageRequestError);
    }
    if page.status != 200 {
      return BadStatus(page.status);
    }
    var countryLinks := CountryLinks(page.body);
    var read := ReadFileToList(fs, CheckProxy.ProxyListPath);
    if read.Failure? {
      return Raised(ProxyFileMissing);
    }
    var submitted := SubmitCountries(countryLinks, read.value);
    if submitted.None? {
      return Raised(EmptyProxyCycle);
    }
    return Submitted(submitted.value);
  }

  /**
   * The submission loop of `scrape_country`: country `i` is paired with
   * proxy `i mod |proxies|`; None stands for the StopIteration that the first
   * `next` on the cycle of an empty list raises, which happens only when
   * there is a country to submit.
   */
  method SubmitCountries(countryLinks: seq<CountryLink>, proxies: seq<string>) returns (r: Option<seq<Task>>)
    ensures r.None? <==> proxies == [] && countryLinks != []
    ensures r.Some? ==> |r.value| == |countryLinks|
    ensures r.Some? && proxies != [] ==>
              forall i :: 0 <= i < |countryLinks| ==>
                r.value[i] == Task(countryLinks[i].name, countryLinks[i].url, proxies[i % |proxies|])
  {
    var proxyPool := new ProxyCycle(proxies);
    var tasks: seq<Task> := [];
    for i := 0 to |countryLinks|
      invariant proxyPool.Valid() && proxyPool.pool == proxies
      invariant proxies != [] ==> proxyPool.served == i
      invariant proxies == [] ==> i == 0
      invariant |tasks| == i
      invariant proxies != [] ==> forall j :: 0 <= j < i ==>
                  tasks[j] == Task(countryLinks[j].name, countryLinks[j].url, proxies[j % |proxies|])
    {
      var proxy := proxyPool.Next();
      if proxy.None? {
        return None;
      }
      tasks := tasks + [Task(countryLinks[i].name, countryLinks[i].url, proxy.value)];
    }
    return Some(tasks);
  }

  // ---------------------------------------------------------------------------
  // CSV downloads of one country

  /** A CSV archive link: `href.startswith(CsvPrefix) and href.endswith("csv")`. */
  predicate IsCsvUrl(href: string)
  {
    StartsWith(href, CsvPrefix) && EndsWith(href, "csv")
  }

  /** The href an anchor contributes to `country_csv_zip_urls`, if any. */
  function CsvUrlOf(a: Anchor): Option<string>
  {
    if a.Some? && IsCsvUrl(a.value) then a else None
  }

  /** The `country_csv_zip_urls` comprehension over the anchors that have an href. */
  function CsvLinks(anchors: seq<Anchor>): seq<string>
  {
    FilterMap(anchors, CsvUrlOf)
  }

  /**
   * The CSV URLs keep document order: those of two runs of anchors are the
   * URLs of the first run followed by those of the second.
   */
  lemma {:induction false} CsvLinksConcat(a: seq<Anchor>, b: seq<Anchor>)
    ensures CsvLinks(a + b) == CsvLinks(a) + CsvLinks(b)
  {
    FilterMapConcat(a, b, CsvUrlOf);
  }

  /** One anchor contributes its href exactly when it is a CSV archive link. */
  lemma CsvLinksOfAnchor(a: Anchor)
    ensures CsvLinks([a]) ==
            if a.Some? && StartsWith(a.value, "https://api.worldbank.org/v2/en/country/") && EndsWith(a.value, "csv")
            then [a.value] else []
  {
    assert CsvLinks([a]) == Kept(a, CsvUrlOf) + FilterMap([a][1..], CsvUrlOf);
  }

  /** Every URL kept is a CSV archive link and is the href of some anchor of the page. */
  lemma {:induction false} CsvLinksSound(anchors: seq<Anchor>, k: nat)
    requires k < |CsvLinks(anchors)|
    ensures IsCsvUrl(CsvLinks(anchors)[k]) && Some(CsvLinks(anchors)[k]) in anchors
  {
    FilterMapFrom(anchors, CsvUrlOf, k);
    var j :| 0 <= j < |anchors| && CsvUrlOf(anchors[j]) == Some(CsvLinks(anchors)[k]);
    assert anchors[j] == Some(CsvLinks(anchors)[k]);
  }

  /**
   * What `download_and_unzip_file` does for one URL. A non-200 status only
   * prints. `BuiltinConnectionError` is Python's built-in ConnectionError,
   * the class the loop catches; `OtherError` is any other exception, among
   * them the requests library's own ConnectionError, which does not derive
   * from the built-in one.
   */
  datatype DownloadOutcome = Extracted | NotFetched(status: int) | BuiltinConnectionError | OtherError

  /** What one `scrape_country_csv_data` task did. */
  datatype CsvRun = CsvRun(directoryCreated: bool, attempted: seq<string>, slept: bool, raised: bool)

  /**
   * `scrape_country_csv_data`, given the country page fetched through the
   * task's proxy and the outcome of each download: a request error raises;
   * a non-200 page returns at once (no directory, no download, no delay);
   * otherwise the directory is made, the CSV URLs are downloaded in order,
   * and the final delay is taken only when that loop ran to its end.
   */
  method ScrapeCountryCsvData(page: Page<seq<Anchor>>, download: string -> DownloadOutcome)
    returns (run: CsvRun)
    ensures page.RequestFailed? ==> run == CsvRun(false, [], false, true)
    ensures page.Response? && page.status != 200 ==> run == CsvRun(false, [], false, false)
    ensures page.Response? && page.status == 200 ==>
              && run.directoryCreated
              && run.slept == !run.raised
              && DownloadsTried(CsvLinks(page.body), download, run.attempted, run.raised)
              && (run.raised <==> exists i :: 0 <= i < |CsvLinks(page.body)| && download(CsvLinks(page.body)[i]).OtherError?)
  {
    if page.RequestFailed? {
      return CsvRun(false, [], false, true);
    }
    if page.status != 200 {
      return CsvRun(false, [], false, false);
    }
    var countryCsvZipUrls := CsvLinks(page.body);
    var attempted, aborted := DownloadEach(countryCsvZipUrls, download);
    return CsvRun(true, attempted, !aborted, aborted);
  }

  /**
   * How the download loop went through `urls`: in order, from the first,
   * and past every caught failure; it stops early exactly at the first URL
   * whose download raised an exception the loop does not catch.
   */
  ghost predicate DownloadsTried(urls: seq<string>, download: string -> DownloadOutcome,
                                 attempted: seq<string>, aborted: bool)
  {
    && attempted <= urls
    && (forall i :: 0 <= i < |attempted| - 1 ==> !download(attempted[i]).OtherError?)
    && (!aborted ==> attempted == urls && forall i :: 0 <= i < |urls| ==> !download(urls[i]).OtherError?)
    && (aborted ==> attempted != [] && download(attempted[|attempted| - 1]).OtherError?)
  }

  /** The `for zip_url in country_csv_zip_urls` loop with its `try`/`except ConnectionError`. */
  method DownloadEach(urls: seq<string>, download: string -> DownloadOutcome)
    returns (attempted: seq<string>, aborted: bool)
    ensures DownloadsTried(urls, download, attempted, aborted)
    ensures !aborted <==> forall i :: 0 <= i < |urls| ==> !download(urls[i]).OtherError?
  {
    attempted := [];
    for i := 0 to |urls|
      invariant attempted == urls[..i]
      invariant forall j :: 0 <= j < i ==> !download(urls[j]).OtherError?
    {
      var zipUrl := urls[i];
      attempted := attempted + [zipUrl];
      var outcome := download(zipUrl);
      if outcome.OtherError? {
        return attempted, true;
      }
    }
    assert urls[..|urls|] == urls;
    return attempted, false;
  }
}
