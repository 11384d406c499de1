# World Bank country-data crawler: harvester, crawler and line reader

This Dafny project models the deterministic core of a small Python crawler built in three parts:

- **Free-proxy harvester** (`proxy/check_proxy.py`). It reads `ip:port` candidates from the rows of a proxy table and probes each one. The proxies that answer 200 are kept and written to `./proxy/proxy_list.txt`, one per line. The file is opened with mode `'w'`, so each run replaces it.
- **Country crawler** (`scraping/scraper.py`). It collects the country links of the start page and hands each country a proxy from the harvested list, taken from `itertools.cycle` in turn. For one country it keeps the CSV archive links and downloads them one after the other.
- **Line reader** (`utils/filesystem.py`, `read_file_to_list`). It reads a text file into a list of lines, with `rstrip` applied to each line.

How the model stands in for what it cannot run:

- **Network.** Every HTTP exchange is an input value. The fetched page is a `Page` (`Http`): either a request exception, or a status together with the already-parsed content. The content is a table of cell texts, or the hrefs of the page's anchors.
- **Proxy probes.** Each validation task sends its own test request. `Probe` gives the answer that the `i`-th task got, with tasks numbered in the order of `proxy_list`. Two tasks that test the same address can therefore get different answers.
- **Downloads.** The outcome of each download is a function from URL to `DownloadOutcome`.
- **File system.** The file system is a class holding a map from path to text (`Filesystem.FileSystem`). Open-for-write truncates the file and `write` appends to it. The reader uses Python's universal-newline translation: `\r\n` and `\r` become `\n`.
- **Thread pool.** The validation pool is run as a sequential loop. Its tasks run in an order `schedule` chooses, which is any rearrangement of the candidate list. The results are therefore stated as multisets.
- **Python strings.** `strip`, `rstrip`, `split` and `startswith`/`endswith` are defined over `seq<char>` (module `Text`). Whitespace is the set of characters for which `str.isspace` holds.

Quirks of the code that the model reproduces:

- **Missing table.** When the page has no proxy table, the `if not table` branch only logs (`proxy/check_proxy.py:36-38`). The next line then calls `table.find_all` on `None`. Nothing catches the resulting `AttributeError`, since the handler takes only `RequestException`. The model ends such a run in `NoTableCrash`: nothing is processed and no file is written.
- **Bad status.** The comment at `proxy/check_proxy.py:31` says `raise_for_status` raises for non-200 status codes. It raises only for statuses 400 to 599. A 1xx, 3xx or other non-error page therefore goes on to be parsed (`Http.RaisesForStatus`).
- **Download errors.** The download loop catches Python's built-in `ConnectionError`. That class is not the base of the requests library's `ConnectionError`. Any other exception therefore ends the task early; the model calls this `OtherError`.

## Model

| member | source | states |
|---|---|---|
| Text.RStripSpec | utils/filesystem.py:69 | `rstrip` keeps a prefix of the line and removes only whitespace. It removes all trailing whitespace, not just the newline, so the result never ends in whitespace. |
| Text.LStripSpec | proxy/check_proxy.py:44-45 | `lstrip` keeps a suffix, removes only whitespace, and the result never begins with whitespace. |
| Text.StripSpec | proxy/check_proxy.py:44-45 | `strip` keeps a slice of the cell text. The slice neither begins nor ends in whitespace, and only whitespace lies around it. |
| Text.StripWithin | proxy/check_proxy.py:44-45 | Every character of a stripped cell occurs in the cell. |
| Text.FirstIndex | scraping/scraper.py:42 | The position of the first separator: none occurs before it, and the separator is there unless the text has none. |
| Text.SplitSpec | scraping/scraper.py:42 | `split(c)` gives fields that hold no `c`. Joining them with `c` gives the text back, and the first field is everything before the first `c`. |
| Filesystem.FileSystem.Truncate | proxy/check_proxy.py:135 | Opening with `'w'` makes the file exist and be empty. No other file changes. |
| Filesystem.FileSystem.Append | proxy/check_proxy.py:137 | `file.write` adds the text at the end of that file and changes nothing else. |
| Filesystem.Translated | utils/filesystem.py:66-67 | Universal-newline reading leaves no `\r`, never lengthens the text, and leaves text without `\r` unchanged. |
| Filesystem.TranslatedPrefix | utils/filesystem.py:66-67 | Text without `\r` reads unchanged, whatever follows it. |
| Filesystem.TranslatedCrLf | utils/filesystem.py:66-67 | A `"\r\n"` line end reads as a single `\n`. |
| Filesystem.TranslatedLoneCr | utils/filesystem.py:66-67 | A `\r` that is not followed by `\n` reads as `\n`. |
| Filesystem.LinesOfConcat | utils/filesystem.py:67 | Iterating a file gives lines whose concatenation is the whole text. An empty text gives no lines, and only an empty text does. |
| Filesystem.LinesOfTerminated | utils/filesystem.py:67 | Every line is non-empty and holds `\n` only at its end. Every line but the last ends in `\n`. |
| Filesystem.StrippedLinesSpec | utils/filesystem.py:67-70 | There is one element per line, in file order. Each element is its line with all trailing whitespace removed, leading whitespace kept. No element ends in whitespace. An empty file gives the empty list. |
| Filesystem.ReadFileToList | utils/filesystem.py:55-71 | A missing file raises `FileNotFoundError` and nothing else fails. Otherwise the result is the stripped lines of the file, built by the append loop. |
| CheckProxy.CandidatesSnoc | proxy/check_proxy.py:41-47 | A row with two cells or more adds exactly one candidate, `strip(cell0) + ":" + strip(cell1)`, at the end, even if it is a duplicate. A shorter row adds nothing. |
| CheckProxy.CandidatesConcat | proxy/check_proxy.py:40-47 | Candidates keep row order: those of two runs of rows are the first run's, then the second's. |
| CheckProxy.CandidatesIgnoreExtraCells | proxy/check_proxy.py:43-46 | Cells after the second do not affect the candidates. |
| CheckProxy.CandidatesFromRows | proxy/check_proxy.py:41-47 | Every candidate is the candidate of some row that has two cells or more. |
| CheckProxy.CandidateStorable | proxy/check_proxy.py:44-46 | A candidate built from cells without line breaks has none either and cannot end in whitespace, so it survives the file round trip. |
| CheckProxy.ExtractCandidates | proxy/check_proxy.py:40-47 | The row loop builds exactly the candidate list of the table. |
| Http.RaisesForStatus | proxy/check_proxy.py:31 | `raise_for_status` raises exactly for the client-error and server-error statuses, 400 to 599. |
| CheckProxy.IsWorkingProxy | proxy/check_proxy.py:66-75 | True exactly when the task's test request answered status 200. A request exception gives false and is not re-raised. |
| CheckProxy.ProxyList.Append | proxy/check_proxy.py:93 | `valid_proxies.append` adds the address at the end. |
| CheckProxy.ValidateAndCollect | proxy/check_proxy.py:92-97 | The address is appended exactly when it validates; otherwise the list is unchanged. The delay is taken exactly on the success branch. |
| CheckProxy.Validated | proxy/check_proxy.py:122-132 | There are never more survivors than tasks. Each survivor is the address of a task whose probe answered 200. |
| CheckProxy.ValidatedSnoc | proxy/check_proxy.py:92-93 | One more task adds its address at the end exactly when its probe passes. |
| CheckProxy.ValidatedCount | proxy/check_proxy.py:122-132 | An address occurs among the survivors once for every task that tested it and got 200. |
| CheckProxy.SurvivorCount | proxy/check_proxy.py:122-132 | An address survives at most as often as it is listed. It survives exactly as often when every probe of it answered 200, and never when none did. |
| CheckProxy.DuplicateProbedApart | proxy/check_proxy.py:126-129 | A listed address whose first task gets 200 and second task times out survives once. |
| CheckProxy.SurvivorsListed | proxy/check_proxy.py:122-132 | Whatever order the tasks run in, every survivor is an address of `proxy_list`. |
| CheckProxy.ValidatedPermutation | proxy/check_proxy.py:125-132 | Running the tasks in another order changes the survivors only by a permutation. |
| CheckProxy.RunTasks | proxy/check_proxy.py:125-132 | The serialised pool collects exactly the survivors of the tasks, in the order they ran, with one delay per survivor. |
| CheckProxy.Serialised | proxy/check_proxy.py:135-137 | The written text is empty exactly for the empty list; otherwise it ends in a newline. |
| CheckProxy.SerialisedSnoc | proxy/check_proxy.py:136-137 | Writing one more proxy adds `p + "\n"` at the end of the text. |
| CheckProxy.LinesOfSerialised | proxy/check_proxy.py:135-137 | When no entry holds a newline, the lines of the written file are the entries, each followed by `\n`. |
| CheckProxy.PersistLoadRoundTrip | proxy/check_proxy.py:135-137 | Reading back the written file with `read_file_to_list` gives exactly the list written, in order. This holds for the empty list too, and needs entries with no line break and no trailing whitespace. |
| CheckProxy.TranslatedCrLfSerialised | proxy/check_proxy.py:135-137 | A file written with `"\r\n"` line ends reads as the same text as one written with `\n`. |
| CheckProxy.PersistLoadRoundTripCrLf | proxy/check_proxy.py:135-137 | The round trip also holds where text mode writes each newline as `"\r\n"`. |
| CheckProxy.ProcessProxies | proxy/check_proxy.py:100-137 | The survivors are the addresses of the validated tasks, in the order the tasks ran, so as a multiset they are exactly the addresses of the tasks that validated. They never include an address absent from the candidates, each one took one delay, and the file now holds one line per survivor, replacing its old content. |
| CheckProxy.WriteProxyFile | proxy/check_proxy.py:135-137 | After the write block, the proxy-list file holds exactly `p + "\n"` for every survivor. This replaces any previous content, including for the empty list, and leaves every other file alone. |
| CheckProxy.UserAgentHeader | proxy/check_proxy.py:24-27 | A User-Agent header is set exactly when the list is non-empty, and its value is an entry of the list. |
| CheckProxy.UserAgentReachable | proxy/check_proxy.py:26-27 | Every entry of the list can be the chosen header. |
| CheckProxy.ScrapeFreeProxy | proxy/check_proxy.py:11-52 | A failed or raising page request ends in a logged error, with no processing and no file write. A page without the table crashes without writing. Otherwise the survivors are, as a multiset, the addresses of the validated tasks, one task per candidate of the table, and the file holds them. |
| Scraper.SplitCountryHref | scraping/scraper.py:42 | For a `/country/` href, `split('/')` starts with `""` and `"country"`, so field 2 always exists. |
| Scraper.CountryNameSpec | scraping/scraper.py:42 | The country name is what follows `/country/`, up to the first `/` or `?` or the end. It holds neither character. |
| Scraper.CountryLinksConcat | scraping/scraper.py:41-44 | Country links keep document order. |
| Scraper.CountryLinksOfAnchor | scraping/scraper.py:41-44 | An anchor gives one link exactly when its href starts with `/country/`: URL `https://data.worldbank.org` + href, plus the derived name. Any other anchor gives none. |
| Scraper.CountryLinksShape | scraping/scraper.py:41-44 | Every link URL starts with `https://data.worldbank.org/country/` and every name is free of `/` and `?`. |
| Scraper.ProxyCycle.constructor | scraping/scraper.py:48 | The cycle starts at the first proxy. |
| Scraper.ProxyCycle.Next | scraping/scraper.py:53 | The n-th `next` gives entry `n` modulo the number of proxies. On an empty list it raises. |
| Scraper.SubmitCountries | scraping/scraper.py:48-56 | Country `i` is submitted with proxy `i` modulo the number of proxies. The empty cycle raises exactly when there is at least one country. |
| Scraper.ScrapeCountry | scraping/scraper.py:14-56 | A non-200 start page returns before the proxy file is read. A missing proxy file raises. Otherwise every country link is submitted, in order, with its proxy in rotation. |
| Scraper.CsvLinksConcat | scraping/scraper.py:94-98 | The CSV URLs keep document order. |
| Scraper.CsvLinksOfAnchor | scraping/scraper.py:94-98 | An href is kept exactly when it starts with `https://api.worldbank.org/v2/en/country/` and ends with `csv`. |
| Scraper.CsvLinksSound | scraping/scraper.py:94-98 | Every kept URL is a CSV archive link and the href of some anchor of the page. |
| Scraper.ScrapeCountryCsvData | scraping/scraper.py:59-112 | A non-200 page returns at once: no directory, no download, no delay. Otherwise the directory is made and the CSV URLs are tried in order. The task raises exactly when some download raised an uncaught exception, and the delay is taken exactly when it does not. |
| Scraper.DownloadEach | scraping/scraper.py:105-110 | The URLs are tried in order, past every caught failure. The loop stops early exactly at the first download that raised an uncaught exception. |

## Left out

- Network: `requests.get`, timeouts and the proxy settings of a request are not modelled. Each response is an input value. The headers sent, including the User-Agent, are assumed not to change the page received.
- HTML parsing: BeautifulSoup is not modelled. The proxy table is given as rows of cell texts, and a page's anchors as their hrefs. `None` stands for a missing table, or for an anchor without an href.
- ProcessProxies: assumes no validation task raises anything other than the `RequestException` that `is_working_proxy` catches. The fail-fast path is not modelled: a task fault would be re-raised by `future.result()` (`proxy/check_proxy.py:131-132`), skipping the file write and escaping `scrape_free_proxy`. One such fault is the `ValueError` of `time.sleep` when `delay_min` is negative. The `delay_min` and `delay_max` arguments are not modelled.
- WriteProxyFile: writes `\n` as it is, which assumes POSIX newlines. Where text mode writes the platform separator `"\r\n"`, the file differs. Reading sees the same text either way (`CheckProxy.PersistLoadRoundTripCrLf`).
- Concurrency: `ThreadPoolExecutor` is left out. The validation tasks run one after another in the order `schedule` chooses, which is some rearrangement of the candidates.
- Data races on the shared `valid_proxies` list are not modelled.
- Exceptions raised inside the tasks submitted by `scrape_country` are not modelled, because their futures are never read.
- Randomness and delays: `random.choice` is a `choice` parameter, reduced modulo the list length. For `random.uniform` with `time.sleep`, only whether a delay was taken is recorded (`slept`, `delays`), not how long it lasted.
- Scraper.ScrapeCountryCsvData: does not model the proxy address or country name it is called with. The page it fetches through the proxy is its input, and `os.path.join('./data', name)` directory naming is left out.
- `filesystem.create_directory` and `filesystem.download_and_unzip_file` are OS and zip wrappers. They are not part of this model; each download is reduced to its outcome.
- OS errors other than a missing file, and the text encoding, are not modelled. File contents are sequences of characters.
- Logging is not modelled, nor the command-line entry points.
