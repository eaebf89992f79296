# A verified model of the quote scraper and its job store

This project models the working core of a small scraping application in Dafny and
proves properties of that model. The core has three parts:

- **The quote crawler `BsScraper`** (`scraper/bs_scraper.py`). It starts at page 1 and
  requests `"{link}/{page}/"`. It appends the text of every quote block on the page to
  one shared list. It moves on to the next page while the page carries a non-empty
  "next" marker, and then returns the list.
- **The job orchestrator `ScraperIntegration.run_scrape_job`**
  (`scraper_app/scraper_integration.py`). It looks the job up and marks it `running`.
  It then runs the crawler on the job's URL. A non-empty result is stored as JSON
  text (`json.dumps(..., indent=2, ensure_ascii=False)`) and the job is marked
  `completed`. Otherwise the job is marked `failed`.
- **The SQLite store `CRUDOperations`** (`scraper_app/crud.py`), held in memory. It has
  three tables:
  - `scrape_jobs`: AUTOINCREMENT ids, a UNIQUE name, default status `pending`;
  - `scraped_data`: rows tagged with a job id;
  - `user_config`: a UNIQUE key written with `INSERT OR REPLACE`.

How the model stands in for what it abstracts:

- **The web.** A `Web` maps each URL that answers to the page its HTML parses to.
  A parsed page is its sequence of quote blocks plus the text of its `li.next`
  marker. Each quote block holds the text of its `span[itemprop=text]`, or None when
  the span is missing. A URL outside the map is one whose request raises. The model
  is keyed by URL rather than by page number because the crawler builds URLs from
  `link`, and `link` itself may be `None`, which renders as the string "None".
- **The crawler.** `BsScraper` is a class with the source's fields. A ghost log
  `requested` records every URL fetched.
- **`soupify`.** It is a recursive method, as in the source. It is proved against the
  function `CrawlFrom`. That function terminates because each continued page is a
  URL of the web that was not requested before; `PageUrl` is injective, since
  `DecimalValue` inverts `Decimal`.
- **A second description of the crawl.** Page-by-page predicates state it without
  recursion:
  - `StopsAfter` and `Gathered`: every visited page continues except the last; the
    result is their texts, page by page.
  - `BreaksAfter` and `BreakError`: a run of continuing pages, then a page that does
    not answer or holds a block without text.

  `CrawlDoneIff` and `CrawlFailedIff` prove that this description and the recursion
  agree in both directions.
- **The store.** `Store` is a class holding:
  - a job map;
  - the row sequence;
  - a config map;
  - the two AUTOINCREMENT counters;
  - ghost logs of status writes and insert attempts.

  `Valid()` holds the constraints the tables keep: keys match ids, ids are at most the
  counter, names are unique, and row ids increase.
- **The orchestrator.** It takes the web, and whether the data insert hits a
  database error, as inputs. It builds a `BsScraper` on the job's URL and runs
  `Scrap`.
- **The stored JSON text.** It is specified by `Json.EncodeList`. It decodes back to
  the same list under `Json.DecodeList`, a strict decoder for arrays of strings.

## Model

| member | source | states |
|---|---|---|
| Scraper.BsScraper.constructor | scraper/bs_scraper.py:5-9 | a new crawler keeps its link, starts at page 1 with an empty quote list, and has requested nothing |
| Scraper.BsScraper.GetHtmlContent | scraper/bs_scraper.py:11-26 | the URL requested is exactly `link + "/" + str(current_page) + "/"`; it is recorded in `actualLink` and the request log; the result is the page or, for a URL that does not answer, the failure |
| Scraper.PageUrl | scraper/bs_scraper.py:12 | the URL of a page is longer than the link, has a slash right after the link and ends with a slash |
| Scraper.PageUrlParts | scraper/bs_scraper.py:12 | the URL starts with the link, and the text between the slash after the link and the final slash reads back as the page number |
| Scraper.PageUrlInjective | scraper/bs_scraper.py:12 | two page numbers give the same URL for a link only when they are equal |
| Scraper.DecimalRoundTrip | scraper/bs_scraper.py:12 | the decimal rendering of the page counter reads back as the same number |
| Scraper.DecimalDigits | scraper/bs_scraper.py:12 | the page number is rendered as a non-empty run of digits with no leading zero |
| Scraper.NextUrlShrinks | scraper/bs_scraper.py:39-41 | each continued page is a URL that answers and was not requested before, so the recursion ends on any finite web |
| Scraper.Texts | scraper/bs_scraper.py:32-35 | when a page's texts exist there is exactly one per quote block |
| Scraper.TextsSpec | scraper/bs_scraper.py:32-35 | a page's texts exist exactly when every quote block has a text span; they are then those texts, one per block, in block order |
| Scraper.BsScraper.AppendQuotes | scraper/bs_scraper.py:33-35 | the loop appends exactly the page's texts in block order when every block has a span; otherwise it stops at a block k without one, having appended exactly the texts of blocks 0..k-1, and reports failure |
| Scraper.PageStep | scraper/bs_scraper.py:29-41 | an aborted page step names the URL of the page it requested; a continuing step requested a page that answers and carries a non-empty marker |
| Scraper.PageStepSpec | scraper/bs_scraper.py:29-41 | one page step: it fails exactly when the page does not answer or has a block without text, with that page's error; it continues exactly when the page is readable and its marker is present and non-empty; otherwise it yields that page's texts |
| Scraper.BsScraper.SoupifyPage | scraper/bs_scraper.py:29-41 | one activation of `soupify` requests the current page; a readable page appends exactly its texts; a failed request appends nothing; a page with a block without text appends exactly the texts of the blocks before that block; `current_page` goes up by exactly 1 exactly when the step continues |
| Scraper.CrawlFrom | scraper/bs_scraper.py:28-43 | every crawl, finished or aborted, makes at least one request |
| Scraper.ContinuedCrawl | scraper/bs_scraper.py:39-43 | a continued crawl from page p is page p's request and texts followed by the crawl from p+1 |
| Scraper.BsScraper.Soupify | scraper/bs_scraper.py:28-43 | the result is the old quote list extended by the crawl's texts, or the crawl's error; `current_page` ends at the last page visited and `actual_link` is that page's URL; the request log grows by the URLs of consecutive pages starting at the starting page, one per fetch |
| Scraper.UrlRunAt | scraper/bs_scraper.py:12-41 | the i-th URL requested by a crawl is the URL of page start+i |
| Scraper.UrlRunShift | scraper/bs_scraper.py:40-41 | a run of requests is the first page's URL followed by the run from the next page |
| Scraper.DoneSound | scraper/bs_scraper.py:37-43 | a finished crawl has visited consecutive pages that all continue except the last; its list is their texts concatenated page by page |
| Scraper.DoneComplete | scraper/bs_scraper.py:37-43 | when the n pages from p on continue up to a last page without a usable marker, the crawl finishes after exactly n requests with their texts in page order |
| Scraper.CrawlDoneIff | scraper/bs_scraper.py:29-43 | the crawl finishes with list qs after n requests if and only if pages p..p+n-1 are readable and only the last lacks a non-empty marker, and qs is their texts in page order and block order |
| Scraper.FailedSound | scraper/bs_scraper.py:29-34 | an aborted crawl visited continuing pages and then a page that did not answer or had a quote block without text; its error names that page |
| Scraper.FailedComplete | scraper/bs_scraper.py:29-41 | continuing pages followed by an unreadable page make the crawl abort at that page, one request later |
| Scraper.CrawlFailedIff | scraper/bs_scraper.py:29-43 | the crawl aborts with error e after n requests if and only if the first n-1 pages continue and page n fails; a single block without text on any visited page discards the whole list |
| Scraper.SinglePageCrawl | scraper/bs_scraper.py:37-43 | a readable first page without a usable marker gives exactly one request and that page's texts |
| Scraper.ScrapResult | scraper/bs_scraper.py:46-50 | `scrap()` on a fresh crawler returns None exactly for a falsy link, raises exactly when the crawl from page 1 aborts (with that crawl's error), and otherwise returns that crawl's quotes |
| Scraper.BsScraper.Scrap | scraper/bs_scraper.py:46-50 | a falsy link (None or empty) returns None with no request and no state change (quotes, page counter, last URL and request log all as before); otherwise it returns the crawl's list or error, and it leaves the crawler's own list equal to the returned one, `current_page` at the last page visited and `actual_link` at that page's URL; in every case the crawler's list keeps its old contents as a prefix; on a fresh crawler the result is the crawl from page 1 |
| Json.EncodeList | scraper_app/scraper_integration.py:62 | the empty list is written `[]`, and only the empty list is |
| Json.EncodeListLayout | scraper_app/scraper_integration.py:62 | a non-empty list is written as `[`, a newline and two spaces of indent before the first element's opening quote, and ends with the last element's closing quote, a newline and `]`, as `json.dumps` with `indent=2` lays it out |
| Json.EscapeChar | scraper_app/scraper_integration.py:62 | with `ensure_ascii=False` every character from U+0020 up other than `"` and `\` is copied unchanged; exactly `"`, `\` and the controls below U+0020 are escaped; an escape starts with a backslash and is either two characters or the six-character `\u00xx` form |
| Json.HexDigit | scraper_app/scraper_integration.py:62 | the lower-case hex digit written in a `\u00xx` escape reads back as its value |
| Json.StringBodyStep | scraper_app/scraper_integration.py:62 | each character's escaped form decodes back to that character, with decoding continuing after it |
| Json.StringBodyEscape | scraper_app/scraper_integration.py:62 | the escaped body of any string, closed by a quote, decodes to that string and leaves exactly the text after the quote |
| Json.ElementsItems | scraper_app/scraper_integration.py:62 | the indented, comma-separated element lines of a non-empty list decode back to the list |
| Json.DecodeEncodeList | scraper_app/scraper_integration.py:62 | the JSON text stored for a list of strings decodes to the same list in the same order, under section 7 of RFC 8259 for strings and section 5 for arrays, as the results view reads it back at scraper_app/ui.py:312 |
| Json.EncodeListInjective | scraper_app/scraper_integration.py:62 | distinct lists are stored as distinct texts |
| Crud.Store.constructor | scraper_app/crud.py:22-31 | a fresh database: no jobs, no data rows, no configuration, both id counters at 0 |
| Crud.Store.CreateScrapeJob | scraper_app/crud.py:96-123 | a name already used yields None and leaves the job table and counter unchanged; otherwise the job gets id = last id + 1, which is new and larger than every id ever issued, with status `pending` and the given fields |
| Crud.Store.InsertScrapedData | scraper_app/crud.py:125-147 | on success exactly one row (next row id, job id, data) is appended; on a database error nothing is stored and False is returned; either way the attempt is logged |
| Crud.Store.GetScrapeJob | scraper_app/crud.py:151-164 | the job with that id, carrying that id, or None exactly when there is none |
| Crud.Store.GetJobData | scraper_app/crud.py:177-193 | as a multiset, exactly the data rows whose job id is j |
| Crud.RowsOfCount | scraper_app/crud.py:188-193 | the selection holds every row of job j as often as the table does, and no other row |
| Crud.RowsOfAppend | scraper_app/crud.py:136-193 | an inserted row appears at the end of its own job's data and in no other job's |
| Crud.Store.UpdateJobStatus | scraper_app/crud.py:197-218 | only the named job's status changes; a missing id changes nothing; True either way; the write is logged |
| Crud.Store.DeleteScrapeJob | scraper_app/crud.py:222-243 | the job and exactly its rows are removed; every other job's data is unchanged; the id counter is kept, so the id is never reissued |
| Crud.RowsWithoutCount | scraper_app/crud.py:235 | the deletion keeps every row of other jobs as often as before and no row of job j |
| Crud.RowsPartition | scraper_app/crud.py:188-235 | the rows selected for job j and the rows left by deleting j's rows make up the table |
| Crud.RowsOfWithout | scraper_app/crud.py:235 | deleting job j's rows leaves every other job's data exactly as it was, order included |
| Crud.RowsOfWithoutSelf | scraper_app/crud.py:235 | after the deletion job j has no data |
| Crud.RowsWithoutIncreasing | scraper_app/crud.py:235 | the deletion keeps only rows of the table, in increasing id order |
| Crud.Store.SetConfig | scraper_app/crud.py:245-266 | the key now maps to the value, overwriting an old one; every other key reads as before |
| Crud.Store.GetConfig | scraper_app/crud.py:268-281 | the stored value, or None exactly when the key was never set |
| Integration.ScraperIntegration.constructor | scraper_app/scraper_integration.py:29-31 | the orchestrator owns a fresh store: no jobs, no data rows, no configuration, empty logs and both id counters at 0 |
| Integration.QuoteOutcome | scraper_app/scraper_integration.py:55-58 | with the crawler built from the job's URL alone, `scrap()` returns None exactly for an empty URL, raises exactly when the crawl of the site from page 1 aborts, and otherwise returns that crawl's quotes |
| Integration.AsWrittenOutcome | scraper_app/scraper_integration.py:55-58 | the call as written passes a keyword (`mode`) the constructor does not declare, so it raises before any request, whatever the job and the site |
| Integration.Scrape | scraper_app/scraper_integration.py:55-58 | building the crawler from the job's URL and calling `scrap()` gives the crawl's outcome; a crawl error is a raised exception |
| Integration.FinalStatus | scraper_app/scraper_integration.py:61-79 | the final status is `completed` or `failed`, and `completed` exactly when there is a non-empty list and the insert succeeds |
| Integration.FinalStatusTerminal | scraper_app/scraper_integration.py:66-79 | no run ends `running` or `pending` |
| Integration.Attempt | scraper_app/scraper_integration.py:61-63 | the insert is attempted once with the JSON text exactly when the list is non-empty, and never otherwise |
| Integration.QuoteOutcomePersists | scraper_app/scraper_integration.py:55-69 | a job is persisted exactly when its URL is non-empty, the crawl of its site finishes with at least one quote, and the insert succeeds |
| Integration.ScraperIntegration.RunScrapeJob | scraper_app/scraper_integration.py:33-79 | an unknown id returns False and changes nothing; otherwise `running` is written first and then the final status; True exactly when data was persisted; exactly one row with the JSON text is added then; nothing is added otherwise; no other job and no config changes, and the job-id counter does not change (the data-row counter goes up by one exactly when the row is stored) |
| Integration.ScraperIntegration.Conclude | scraper_app/scraper_integration.py:61-79 | after the scraper returned or raised: a non-empty list is inserted, and the status becomes `completed` on success and `failed` in every other case |
| Integration.ScraperIntegration.Persist | scraper_app/scraper_integration.py:62-69 | a non-empty list yields one insert of its JSON text; success gives `completed` and True, failure gives `failed`, False and no row |
| Integration.AsWrittenNeverPersists | scraper_app/scraper_integration.py:55 | with the constructor call as written, no job is ever persisted and every run ends `failed` |
| Integration.ModeKeywordCounterexample | scraper_app/scraper_integration.py:55 | for a one-page site with one quote, the call as written fails the job while the call with the URL alone completes it |

## Left out

- HTTP, timing and console output (`requests.get`, `time.perf_counter`, `print`) are I/O. A request is a lookup in the `Web` map, and a URL absent from the map is a request that raises. Status codes are not errors for `requests`, so an error page is just a page.
- BeautifulSoup parsing is a foreign library. A parsed page is given as its quote blocks and the text of its next marker.
- The crawl measure: the source's recursion has no bound, and Scraper.BsScraper.Soupify is proved for every finite web. A web that answers infinitely many page URLs cannot be written as a Dafny `map`, so an endless crawl is not modelled.
- Scraper.BsScraper.Soupify, Scraper.BsScraper.Scrap: when the crawl aborts, the contract on `quotes` says only that it kept its old contents as a prefix. It gives no exact value, because nothing reads the list after an exception.
- Python's recursion limit is not modelled. A site with about a thousand continuing pages would make the source raise RecursionError.
- The news variant, the `mode` argument and the 10-page cap appear only in UI text and in the call at scraper_app/scraper_integration.py:55. No such code exists in the crawler, so none is modelled. The effect of the extra argument is the finding below.
- The application's stores are one database: the UI's `CRUDOperations()` and the orchestrator's own one (scraper_app/ui.py:35-37) open the same `scraper_app.db` file, so a job the UI creates is the job the orchestrator runs. The model has no such sharing: each `Store` is a separate database, and the orchestrator's database is reached only through its `crud` field.
- SQLite connection handling, commits, `connect`, `close` and `create_tables` are replaced by in-memory fields. The constructor stands for a fresh database whose tables exist.
- `get_all_jobs` only lists every job, newest first (`ORDER BY created_at DESC`), and is not modelled.
- Database errors are left out except the one the orchestrator reacts to. That one is InsertScrapedData's `failure` input. Other errors (a locked database, a full disk) are not modelled.
- The timestamp columns and the `ORDER BY created_at/scraped_at DESC` clauses depend on the wall clock, and are not modelled.
- Crud.Store.GetJobData: promises its rows as a multiset, not in newest-first order, because that order comes from `scraped_at` timestamps. The rows are returned in insertion order.
- Integer ids are unbounded. The 64-bit limit of SQLite's AUTOINCREMENT is not modelled.
- Crud.Store.InsertScrapedData: accepts any job id. The foreign key on `scraped_data.job_id` is declared but SQLite does not enforce it unless told to.
- Json.DecodeList reads only arrays of strings, the only JSON text this program writes. It rejects the `\uXXXX` escapes for UTF-16 surrogates, which the encoder never produces; Dafny strings hold no lone surrogates. Raw control characters are rejected as in Python's strict mode.
- The `sqlite3.Row` dictionaries returned by the read operations are modelled as the `Job` and `DataRow` datatypes. Their `created_at` and `scraped_at` fields are not modelled.
- The Tkinter user interfaces, the seed-data script, the ad-hoc `main.py` and the plotting utilities are not part of this model.

## Findings

| source | as written | input that shows it | evidently intended | confidence | as-written member | corrected member |
|---|---|---|---|---|---|---|
| scraper_app/scraper_integration.py:55 | `BsScraper(link=job['url'], mode=job['scraper_type'])` passes a keyword that `BsScraper.__init__(self, link=None)` (scraper/bs_scraper.py:5) does not declare. Python raises TypeError, the handler marks the job `failed`, and no run can ever store data | any existing job, e.g. job 1 with URL `http://q`, whose site's only page holds the quote "q" | the crawler is built from the job's URL and its quotes are stored, leaving the job `completed` | high (not executed) | Integration.AsWrittenOutcome, with Integration.AsWrittenNeverPersists and Integration.ModeKeywordCounterexample | Integration.QuoteOutcome, used by Integration.Scrape and Integration.ScraperIntegration.RunScrapeJob, with Integration.QuoteOutcomePersists |
