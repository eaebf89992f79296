/**
 * `ScraperIntegration.run_scrape_job`: look the job up, mark it running, crawl its
 * URL, store the JSON text of a non-empty result and mark the job completed, or mark
 * it failed.
 */
module Integration {
  import opened Wrappers
  import opened Crud
  import Json
  import Scraper

  /** What `bs_scraper.scrap()` did: returned a list or None, or raised. */
  datatype ScrapeOutcome = Returned(data: Option<seq<string>>) | Raised

  /**
   * The outcome of constructing the crawler with the job's URL as its only argument
   * and calling `scrap()` on it.
   */
  function QuoteOutcome(web: Scraper.Web, job: Job): (o: ScrapeOutcome)
    ensures o == Returned(None) <==> job.url == []
    ensures o.Raised? <==> job.url != [] && Scraper.CrawlFrom(web, job.url, 1).Failed?
    ensures o.Returned? && o.data.Some? ==>
      Scraper.CrawlFrom(web, job.url, 1).Done? && o.data.value == Scraper.CrawlFrom(web, job.url, 1).quotes
  {
    match Scraper.ScrapResult(web, Some(job.url))
    case Ok(data) => Returned(data)
    case Err(_) => Raised
  }

  /** The keyword parameters `BsScraper.__init__` declares. */
  const ScraperParameters: set<string> := {"link"}

  /** The keywords the orchestrator passes when it constructs the crawler. */
  const AsWrittenKeywords: set<string> := {"link", "mode"}

  /**
   * The outcome of the constructor call as written: a keyword the constructor does not
   * declare makes Python raise TypeError before any request; otherwise the crawl runs.
   */
  function AsWrittenOutcome(web: Scraper.Web, job: Job): (o: ScrapeOutcome)
    ensures o.Raised?
  {
    if AsWrittenKeywords <= ScraperParameters then QuoteOutcome(web, job) else Raised
  }

  /** `if scraped_data:` after `scrap()` returned: a list with at least one quote. */
  predicate HasData(outcome: ScrapeOutcome)
  {
    outcome.Returned? && outcome.data.Some? && outcome.data.value != []
  }

  /** `if scraped_data:` followed by a successful insert. */
  predicate Persists(outcome: ScrapeOutcome, insertFails: bool)
  {
    HasData(outcome) && !insertFails
  }

  /** The insert a run attempts: one, with the JSON text, for a non-empty list, and none otherwise. */
  function Attempt(jobId: int, outcome: ScrapeOutcome): (a: seq<(int, string)>)
    ensures |a| <= 1
    ensures a != [] <==> HasData(outcome)
    ensures a != [] ==> a == [(jobId, Json.EncodeList(outcome.data.value))]
  {
    if HasData(outcome)
    then [(jobId, Json.EncodeList(outcome.data.value))]
    else []
  }

  /** The status a run leaves on an existing job. */
  function FinalStatus(outcome: ScrapeOutcome, insertFails: bool): (s: string)
    ensures s == Completed || s == Failed
    ensures s == Completed <==> Persists(outcome, insertFails)
  {
    if Persists(outcome, insertFails) then Completed else Failed
  }

  /** A run ends completed or failed, never running or pending. */
  lemma FinalStatusTerminal(outcome: ScrapeOutcome, insertFails: bool)
    ensures FinalStatus(outcome, insertFails) != Running
    ensures FinalStatus(outcome, insertFails) != Pending
  {
  }

  /**
   * With the crawler built from the job's URL alone, the job is persisted exactly when the
   * crawl of its site finishes with at least one quote and the insert succeeds; a crawl
   * that aborts, or a URL that is empty, never persists anything.
   */
  lemma QuoteOutcomePersists(web: Scraper.Web, job: Job, insertFails: bool)
    ensures Persists(QuoteOutcome(web, job), insertFails)
        <==> job.url != [] && !insertFails
             && Scraper.CrawlFrom(web, job.url, 1).Done? && Scraper.CrawlFrom(web, job.url, 1).quotes != []
  {
  }

  /** With the call as written no job is ever persisted or completed. */
  lemma AsWrittenNeverPersists(web: Scraper.Web, job: Job, insertFails: bool)
    ensures !Persists(AsWrittenOutcome(web, job), insertFails)
    ensures FinalStatus(AsWrittenOutcome(web, job), insertFails) == Failed
  {
  }

  /** A one-page site with one quote: the call as written fails the job, the intended call completes it. */
  lemma ModeKeywordCounterexample()
    ensures var job := Job(1, "quotes", "http://q", "beautifulsoup", Pending);
            var web := map["http://q/1/" := Scraper.Page([Scraper.QuoteBlock(Some("q"))], None)];
            && FinalStatus(AsWrittenOutcome(web, job), false) == Failed
            && QuoteOutcome(web, job) == Returned(Some(["q"]))
            && FinalStatus(QuoteOutcome(web, job), false) == Completed
  {
    var web := map["http://q/1/" := Scraper.Page([Scraper.QuoteBlock(Some("q"))], None)];
    assert Scraper.PageUrl("http://q", 1) == "http://q/1/";
    Scraper.TextsSpec([Scraper.QuoteBlock(Some("q"))]);
    assert Scraper.CrawlFrom(web, "http://q", 1) == Scraper.Done(["q"], 1);
  }

  /** A new crawler for the job's URL, fired once. */
  method Scrape(web: Scraper.Web, job: Job) returns (outcome: ScrapeOutcome)
    ensures outcome == QuoteOutcome(web, job)
  {
    var scraper := new Scraper.BsScraper(Some(job.url));
    var result := scraper.Scrap(web);
    match result
    case Ok(data) => outcome := Returned(data);
    case Err(_) => outcome := Raised;
  }

  class ScraperIntegration {
    const crud: Store

    constructor ()
      ensures fresh(crud) && crud.Valid()
      ensures crud.jobs == map[] && crud.rows == [] && crud.config == map[]
      ensures crud.statusLog == [] && crud.insertLog == []
      ensures crud.lastJobId == 0 && crud.lastRowId == 0
    {
      crud := new Store();
    }

    /**
     * `run_scrape_job` over the site `web`; `insertFails` stands for the data insert
     * hitting a database error. The crawler is constructed with the job's URL only.
     */
    method RunScrapeJob(jobId: int, web: Scraper.Web, insertFails: bool) returns (ok: bool)
      requires crud.Valid()
      modifies crud
      ensures crud.Valid()
      ensures crud.config == old(crud.config) && crud.lastJobId == old(crud.lastJobId)
      ensures jobId !in old(crud.jobs) ==>
        && !ok
        && crud.jobs == old(crud.jobs) && crud.rows == old(crud.rows)
        && crud.lastRowId == old(crud.lastRowId) && crud.statusLog == old(crud.statusLog)
        && crud.insertLog == old(crud.insertLog)
      ensures jobId in old(crud.jobs) ==>
        var job := old(crud.jobs)[jobId];
        var outcome := QuoteOutcome(web, job);
        var status := FinalStatus(outcome, insertFails);
        && ok == Persists(outcome, insertFails)
        && crud.jobs == old(crud.jobs)[jobId := job.(status := status)]
        && crud.statusLog == old(crud.statusLog) + [(jobId, Running), (jobId, status)]
        && crud.insertLog == old(crud.insertLog) + Attempt(jobId, outcome)
        && (ok ==> crud.rows == old(crud.rows) + [DataRow(old(crud.lastRowId) + 1, jobId, Json.EncodeList(outcome.data.value))]
                   && crud.lastRowId == old(crud.lastRowId) + 1)
        && (!ok ==> crud.rows == old(crud.rows) && crud.lastRowId == old(crud.lastRowId))
    {
      var job := crud.GetScrapeJob(jobId);
      if job.None? {
        return false;
      }
      var _ := crud.UpdateJobStatus(jobId, Running);
      var outcome := Scrape(web, job.value);
      ok := Conclude(jobId, outcome, insertFails);
    }

    /** Everything after the scraper returned or raised: store a non-empty result, then set the final status. */
    method Conclude(jobId: int, outcome: ScrapeOutcome, insertFails: bool) returns (ok: bool)
      requires crud.Valid()
      modifies crud
      ensures crud.Valid()
      ensures crud.config == old(crud.config) && crud.lastJobId == old(crud.lastJobId)
      ensures ok == Persists(outcome, insertFails)
      ensures crud.jobs == if jobId in old(crud.jobs)
                           then old(crud.jobs)[jobId := old(crud.jobs)[jobId].(status := FinalStatus(outcome, insertFails))]
                           else old(crud.jobs)
      ensures crud.statusLog == old(crud.statusLog) + [(jobId, FinalStatus(outcome, insertFails))]
      ensures crud.insertLog == old(crud.insertLog) + Attempt(jobId, outcome)
      ensures ok ==> crud.rows == old(crud.rows) + [DataRow(old(crud.lastRowId) + 1, jobId, Json.EncodeList(outcome.data.value))]
                     && crud.lastRowId == old(crud.lastRowId) + 1
      ensures !ok ==> crud.rows == old(crud.rows) && crud.lastRowId == old(crud.lastRowId)
    {
      if HasData(outcome) {
        ok := Persist(jobId, outcome.data.value, insertFails);
      } else {
        // no list (the exception handler, or `if scraped_data:` false)
        var _ := crud.UpdateJobStatus(jobId, Failed);
        ok := false;
      }
    }

    /** A non-empty list: insert its JSON text, and mark the job completed if that worked, else failed. */
    method Persist(jobId: int, data: seq<string>, insertFails: bool) returns (ok: bool)
      requires crud.Valid()
      modifies crud
      ensures crud.Valid()
      ensures crud.config == old(crud.config) && crud.lastJobId == old(crud.lastJobId)
      ensures ok == !insertFails
      ensures crud.jobs == if jobId in old(crud.jobs)
                           then old(crud.jobs)[jobId := old(crud.jobs)[jobId].(status := if ok then Completed else Failed)]
                           else old(crud.jobs)
      ensures crud.statusLog == old(crud.statusLog) + [(jobId, if ok then Completed else Failed)]
      ensures crud.insertLog == old(crud.insertLog) + [(jobId, Json.EncodeList(data))]
      ensures ok ==> crud.rows == old(crud.rows) + [DataRow(old(crud.lastRowId) + 1, jobId, Json.EncodeList(data))]
                     && crud.lastRowId == old(crud.lastRowId) + 1
      ensures !ok ==> crud.rows == old(crud.rows) && crud.lastRowId == old(crud.lastRowId)
    {
      var text := Json.EncodeList(data);
      ok := crud.InsertScrapedData(jobId, text, insertFails);
      var _ := crud.UpdateJobStatus(jobId, if ok then Completed else Failed);
    }
  }
}
