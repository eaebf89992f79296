/**
 * The quote pagination crawler (`BsScraper`).
 *
 * HTTP and HTML parsing are abstracted: a `Web` maps each URL that answers to the
 * page its markup parses to (the quote blocks and the "next" marker); a URL the
 * map lacks is one whose request raises.
 */
module Scraper {
  import opened Wrappers

  /** One `div.quote` block: the text of its `span[itemprop=text]`, or None when the span is absent. */
  datatype QuoteBlock = QuoteBlock(text: Option<string>)

  /** A parsed page: its quote blocks in document order, and the text of its `li.next` marker if there is one. */
  datatype Page = Page(blocks: seq<QuoteBlock>, next: Option<string>)

  /** What each reachable URL returns, already parsed. */
  type Web = map<string, Page>

  /** Why a crawl aborts: the request raised, or a quote block had no text span (`.text` on None). */
  datatype CrawlError = FetchFailed(url: string) | MissingQuoteText(url: string)

  /** The outcome of a crawl, with the number of pages requested (the failing request included). */
  datatype Crawl = Done(quotes: seq<string>, fetches: nat) | Failed(error: CrawlError, fetches: nat)

  // ---------------------------------------------------------------------------
  // URLs: f"{link}/{page}/"

  function DigitChar(d: nat): (c: char)
    requires d < 10
    ensures '0' <= c <= '9'
  {
    ('0' as int + d) as char
  }

  /** Python's `str(n)` for a non-negative integer: decimal digits, no leading zero. */
  function Decimal(n: nat): string
  {
    if n < 10 then [DigitChar(n)] else Decimal(n / 10) + [DigitChar(n % 10)]
  }

  /** The rendering is a non-empty run of digits with no leading zero. */
  lemma {:induction false} DecimalDigits(n: nat)
    ensures |Decimal(n)| >= 1
    ensures forall i :: 0 <= i < |Decimal(n)| ==> '0' <= Decimal(n)[i] <= '9'
    ensures Decimal(n)[0] == '0' ==> n == 0
  {
    if n >= 10 {
      DecimalDigits(n / 10);
    }
  }

  /** Reads a string of decimal digits back as a number (the partner of Decimal). */
  function DecimalValue(s: string): nat
  {
    if s == [] then 0
    else
      var c := s[|s| - 1];
      DecimalValue(s[..|s| - 1]) * 10 + (if '0' <= c <= '9' then c as int - '0' as int else 0)
  }

  lemma {:induction false} DecimalRoundTrip(n: nat)
    ensures DecimalValue(Decimal(n)) == n
  {
    var s := Decimal(n);
    if n < 10 {
      assert s[..|s| - 1] == [];
    } else {
      assert s[..|s| - 1] == Decimal(n / 10);
      DecimalRoundTrip(n / 10);
    }
  }

  /** How the text of `link` is rendered in the f-string (`None` renders as "None"). */
  function LinkText(link: Option<string>): string
  {
    match link
    case None => "None"
    case Some(s) => s
  }

  /** The URL requested for a page; it depends only on the link and the page counter. */
  function PageUrl(link: string, page: nat): (r: string)
    ensures |r| >= |link| + 3 && r[|link|] == '/' && r[|r| - 1] == '/'
  {
    DecimalDigits(page);
    link + "/" + Decimal(page) + "/"
  }

  /** A page's URL starts with the link, and what lies between the two slashes reads back as the page. */
  lemma PageUrlParts(link: string, page: nat)
    ensures PageUrl(link, page)[..|link|] == link
    ensures DecimalValue(PageUrl(link, page)[|link| + 1 .. |PageUrl(link, page)| - 1]) == page
  {
    var u := PageUrl(link, page);
    assert u[|link| + 1 .. |u| - 1] == Decimal(page);
    DecimalRoundTrip(page);
  }

  /** Distinct pages of one link are distinct URLs. */
  lemma PageUrlInjective(link: string, p: nat, q: nat)
    requires PageUrl(link, p) == PageUrl(link, q)
    ensures p == q
  {
    PageUrlParts(link, p);
    PageUrlParts(link, q);
  }

  /** The URLs of pages 0 .. page-1 of a link. */
  ghost function UrlsBelow(link: string, page: nat): set<string>
  {
    set i | 0 <= i < page :: PageUrl(link, i)
  }

  /** Requesting a page the web answers leaves fewer unvisited answering URLs (the crawl's measure). */
  lemma NextUrlShrinks(web: Web, link: string, page: nat)
    requires PageUrl(link, page) in web
    ensures |web.Keys - UrlsBelow(link, page + 1)| < |web.Keys - UrlsBelow(link, page)|
  {
    var url := PageUrl(link, page);
    assert UrlsBelow(link, page + 1) == UrlsBelow(link, page) + {url};
    forall i | 0 <= i < page
      ensures PageUrl(link, i) != url
    {
      if PageUrl(link, i) == url {
        PageUrlInjective(link, i, page);
      }
    }
    var rest := web.Keys - UrlsBelow(link, page);
    assert url in rest;
    assert web.Keys - UrlsBelow(link, page + 1) == rest - {url};
  }

  /** The URLs requested by `count` fetches starting at page `from`, in order. */
  function UrlRun(link: string, from: nat, count: nat): (r: seq<string>)
    ensures |r| == count
  {
    if count == 0 then [] else UrlRun(link, from, count - 1) + [PageUrl(link, from + count - 1)]
  }

  /** The i-th request of a run is for page from+i. */
  lemma {:induction false} UrlRunAt(link: string, from: nat, count: nat, i: nat)
    requires i < count
    ensures UrlRun(link, from, count)[i] == PageUrl(link, from + i)
  {
    if i < count - 1 {
      UrlRunAt(link, from, count - 1, i);
    }
  }

  /** A run is its first request followed by the run from the next page. */
  lemma {:induction false} UrlRunShift(link: string, from: nat, count: nat)
    ensures UrlRun(link, from, count + 1) == [PageUrl(link, from)] + UrlRun(link, from + 1, count)
  {
    if count > 0 {
      UrlRunShift(link, from, count - 1);
    }
  }

  // ---------------------------------------------------------------------------
  // One page

  /** The quote texts of a page in block order, or None when some block has no text span. */
  function Texts(blocks: seq<QuoteBlock>): (r: Option<seq<string>>)
    ensures r.Some? ==> |r.value| == |blocks|
  {
    if blocks == [] then Some([])
    else
      match Texts(blocks[..|blocks| - 1])
      case None => None
      case Some(init) =>
        match blocks[|blocks| - 1].text
        case None => None
        case Some(t) => Some(init + [t])
  }

  /** Texts succeeds exactly when every block has a text span, and then lists those texts in block order. */
  lemma {:induction false} TextsSpec(blocks: seq<QuoteBlock>)
    ensures Texts(blocks).Some? <==> forall i :: 0 <= i < |blocks| ==> blocks[i].text.Some?
    ensures Texts(blocks).Some? ==> |Texts(blocks).value| == |blocks|
    ensures Texts(blocks).Some? ==> forall i :: 0 <= i < |blocks| ==> Texts(blocks).value[i] == blocks[i].text.value
  {
    if blocks != [] {
      var init := blocks[..|blocks| - 1];
      TextsSpec(init);
      assert forall i :: 0 <= i < |init| ==> init[i] == blocks[i];
    }
  }

  /**
   * The list after the block loop stopped at a block without a text span: the old
   * list followed by the texts of the blocks before that one.
   */
  ghost predicate StoppedAtMissingText(blocks: seq<QuoteBlock>, before: seq<string>, after: seq<string>)
  {
    exists k :: 0 <= k < |blocks| && blocks[k].text.None? && Texts(blocks[..k]).Some?
                && after == before + Texts(blocks[..k]).value
  }

  /** `if next_page and next_page.text`: the marker is present and its text non-empty. */
  predicate HasNext(page: Page)
  {
    page.next.Some? && page.next.value != ""
  }

  /** What one activation of `soupify` makes of a page: go on with these texts, stop with them, or abort. */
  datatype Step = Next(texts: seq<string>) | Last(texts: seq<string>) | Broken(error: CrawlError)

  /** One page of the crawl: request it, collect its quote texts, then read the marker. */
  function PageStep(web: Web, link: string, page: nat): (s: Step)
    ensures s.Broken? ==> s.error.url == PageUrl(link, page)
    ensures s.Next? ==> PageUrl(link, page) in web && HasNext(web[PageUrl(link, page)])
  {
    var url := PageUrl(link, page);
    if url !in web then Broken(FetchFailed(url))
    else
      match Texts(web[url].blocks)
      case None => Broken(MissingQuoteText(url))
      case Some(qs) => if HasNext(web[url]) then Next(qs) else Last(qs)
  }

  // ---------------------------------------------------------------------------
  // The crawl

  /** The crawl's outcome seen from an earlier page, after `prefix` was collected over `k` fetches. */
  function Resume(prefix: seq<string>, k: nat, c: Crawl): Crawl
  {
    match c
    case Done(qs, n) => Done(prefix + qs, n + k)
    case Failed(e, n) => Failed(e, n + k)
  }

  /**
   * `soupify` from page `page` on: one page step, followed by the rest of the crawl
   * while the marker says so. Terminates because each continuation requested a URL
   * the web answers that was not requested before.
   */
  function CrawlFrom(web: Web, link: string, page: nat): (r: Crawl)
    ensures r.fetches >= 1
    decreases |web.Keys - UrlsBelow(link, page)|
  {
    match PageStep(web, link, page)
    case Broken(e) => Failed(e, 1)
    case Last(qs) => Done(qs, 1)
    case Next(qs) =>
      NextUrlShrinks(web, link, page);
      Resume(qs, 1, CrawlFrom(web, link, page + 1))
  }

  /** `scrap()` on a fresh scraper: None for a falsy link, else the crawl from page 1. */
  function ScrapResult(web: Web, link: Option<string>): (r: Result<Option<seq<string>>, CrawlError>)
    ensures r == Ok(None) <==> !Truthy(link)
    ensures r.Err? <==> Truthy(link) && CrawlFrom(web, link.value, 1).Failed?
    ensures r.Err? ==> r.error == CrawlFrom(web, link.value, 1).error
    ensures r.Ok? && r.value.Some? ==> CrawlFrom(web, link.value, 1).Done? && r.value.value == CrawlFrom(web, link.value, 1).quotes
  {
    if !Truthy(link) then Ok(None)
    else
      match CrawlFrom(web, link.value, 1)
      case Done(qs, _) => Ok(Some(qs))
      case Failed(e, _) => Err(e)
  }

  /** `if not self.link`: None and "" are falsy. */
  predicate Truthy(link: Option<string>)
  {
    link.Some? && link.value != ""
  }

  // ---------------------------------------------------------------------------
  // An independent description of the crawl, page by page

  /** Page i answers and every quote block on it has a text span. */
  ghost predicate Readable(web: Web, link: string, i: nat)
  {
    PageUrl(link, i) in web && Texts(web[PageUrl(link, i)].blocks).Some?
  }

  ghost function PageTexts(web: Web, link: string, i: nat): seq<string>
    requires Readable(web, link, i)
  {
    Texts(web[PageUrl(link, i)].blocks).value
  }

  /** Page i is readable and carries a non-empty next marker. */
  ghost predicate Continues(web: Web, link: string, i: nat)
  {
    Readable(web, link, i) && HasNext(web[PageUrl(link, i)])
  }

  /** The quotes of pages from .. from+count-1, page after page. */
  ghost function Gathered(web: Web, link: string, from: nat, count: nat): seq<string>
    requires forall i :: from <= i < from + count ==> Readable(web, link, i)
    decreases count
  {
    if count == 0 then [] else PageTexts(web, link, from) + Gathered(web, link, from + 1, count - 1)
  }

  /** The n pages from `page` on all continue except the last, which is readable and has no (or an empty) marker. */
  ghost predicate StopsAfter(web: Web, link: string, page: nat, n: nat)
  {
    n >= 1
    && forall i :: page <= i < page + n ==>
         Readable(web, link, i) && (HasNext(web[PageUrl(link, i)]) <==> i < page + n - 1)
  }

  /** The error raised on page i when it is not readable. */
  ghost function BreakError(web: Web, link: string, i: nat): CrawlError
  {
    if PageUrl(link, i) !in web then FetchFailed(PageUrl(link, i)) else MissingQuoteText(PageUrl(link, i))
  }

  /** The k pages from `page` on continue and page page+k is not readable. */
  ghost predicate BreaksAfter(web: Web, link: string, page: nat, k: nat)
  {
    (forall i :: page <= i < page + k ==> Continues(web, link, i)) && !Readable(web, link, page + k)
  }

  /** One page step in terms of the page-by-page description. */
  lemma PageStepSpec(web: Web, link: string, page: nat)
    ensures PageStep(web, link, page).Broken? <==> !Readable(web, link, page)
    ensures PageStep(web, link, page).Broken? ==> PageStep(web, link, page).error == BreakError(web, link, page)
    ensures PageStep(web, link, page).Next? <==> Continues(web, link, page)
    ensures !PageStep(web, link, page).Broken? ==> PageStep(web, link, page).texts == PageTexts(web, link, page)
  {
  }

  lemma {:induction false} DoneSound(web: Web, link: string, page: nat)
    requires CrawlFrom(web, link, page).Done?
    ensures StopsAfter(web, link, page, CrawlFrom(web, link, page).fetches)
    ensures CrawlFrom(web, link, page).quotes == Gathered(web, link, page, CrawlFrom(web, link, page).fetches)
    decreases |web.Keys - UrlsBelow(link, page)|
  {
    var url := PageUrl(link, page);
    if HasNext(web[url]) {
      NextUrlShrinks(web, link, page);
      DoneSound(web, link, page + 1);
    }
  }

  lemma {:induction false} DoneComplete(web: Web, link: string, page: nat, n: nat)
    requires StopsAfter(web, link, page, n)
    ensures CrawlFrom(web, link, page) == Done(Gathered(web, link, page, n), n)
    decreases n
  {
    if n > 1 {
      assert Continues(web, link, page);
      DoneComplete(web, link, page + 1, n - 1);
    }
  }

  /**
   * The crawl finishes with `qs` after n requests exactly when the n pages from `page`
   * on continue up to the last one, which has no usable marker, and `qs` is their quotes
   * concatenated page by page.
   */
  lemma CrawlDoneIff(web: Web, link: string, page: nat, qs: seq<string>, n: nat)
    ensures CrawlFrom(web, link, page) == Done(qs, n)
        <==> StopsAfter(web, link, page, n) && qs == Gathered(web, link, page, n)
  {
    if CrawlFrom(web, link, page) == Done(qs, n) {
      DoneSound(web, link, page);
    }
    if StopsAfter(web, link, page, n) && qs == Gathered(web, link, page, n) {
      DoneComplete(web, link, page, n);
    }
  }

  lemma {:induction false} FailedSound(web: Web, link: string, page: nat)
    requires CrawlFrom(web, link, page).Failed?
    ensures BreaksAfter(web, link, page, CrawlFrom(web, link, page).fetches - 1)
    ensures CrawlFrom(web, link, page).error == BreakError(web, link, page + CrawlFrom(web, link, page).fetches - 1)
    decreases |web.Keys - UrlsBelow(link, page)|
  {
    if Readable(web, link, page) {
      FailedNext(web, link, page);
      NextUrlShrinks(web, link, page);
      var c' := CrawlFrom(web, link, page + 1);
      FailedSound(web, link, page + 1);
      assert page + CrawlFrom(web, link, page).fetches - 1 == page + 1 + c'.fetches - 1;
      BreaksAfterCons(web, link, page, c'.fetches - 1);
    } else {
      PageStepSpec(web, link, page);
    }
  }

  /** A readable page that starts an aborted crawl continues, and the abort comes from the next page on. */
  lemma FailedNext(web: Web, link: string, page: nat)
    requires Readable(web, link, page) && CrawlFrom(web, link, page).Failed?
    ensures Continues(web, link, page)
    ensures CrawlFrom(web, link, page + 1).Failed?
    ensures CrawlFrom(web, link, page) == Failed(CrawlFrom(web, link, page + 1).error, CrawlFrom(web, link, page + 1).fetches + 1)
  {
    var url := PageUrl(link, page);
    assert HasNext(web[url]);
    NextUrlShrinks(web, link, page);
  }

  /** A continuing page in front of a run that breaks after k pages gives a run that breaks after k + 1. */
  lemma BreaksAfterCons(web: Web, link: string, page: nat, k: nat)
    requires Continues(web, link, page) && BreaksAfter(web, link, page + 1, k)
    ensures BreaksAfter(web, link, page, k + 1)
  {
    forall i | page <= i < page + k + 1
      ensures Continues(web, link, i)
    {
      if i > page {
        assert page + 1 <= i < page + 1 + k;
      }
    }
  }

  lemma {:induction false} FailedComplete(web: Web, link: string, page: nat, k: nat)
    requires BreaksAfter(web, link, page, k)
    ensures CrawlFrom(web, link, page) == Failed(BreakError(web, link, page + k), k + 1)
    decreases k
  {
    if k > 0 {
      assert Continues(web, link, page);
      FailedComplete(web, link, page + 1, k - 1);
    }
  }

  /**
   * The crawl aborts with `e` after n requests exactly when the n-1 pages from `page` on
   * continue and the n-th one does not answer or holds a quote block without text:
   * one bad block anywhere on the visited pages discards everything collected.
   */
  lemma CrawlFailedIff(web: Web, link: string, page: nat, e: CrawlError, n: nat)
    ensures CrawlFrom(web, link, page) == Failed(e, n)
        <==> n >= 1 && BreaksAfter(web, link, page, n - 1) && e == BreakError(web, link, page + n - 1)
  {
    if CrawlFrom(web, link, page) == Failed(e, n) {
      FailedSound(web, link, page);
    }
    if n >= 1 && BreaksAfter(web, link, page, n - 1) && e == BreakError(web, link, page + n - 1) {
      FailedComplete(web, link, page, n - 1);
    }
  }

  /** A readable first page without a usable marker: exactly one request, its quotes returned. */
  lemma SinglePageCrawl(web: Web, link: string, page: nat)
    requires Readable(web, link, page) && !HasNext(web[PageUrl(link, page)])
    ensures CrawlFrom(web, link, page) == Done(PageTexts(web, link, page), 1)
  {
    DoneComplete(web, link, page, 1);
  }

  /**
   * A crawl that goes on after page `page` is that page's request and texts followed by
   * the crawl from the next page, seen from an earlier result list and request log.
   */
  lemma ContinuedCrawl(web: Web, link: string, page: nat, t: seq<string>, q0: seq<string>, r0: seq<string>)
    requires PageStep(web, link, page) == Next(t)
    ensures var c, c' := CrawlFrom(web, link, page), CrawlFrom(web, link, page + 1);
      && c.Done? == c'.Done?
      && (c.Done? ==> q0 + c.quotes == (q0 + t) + c'.quotes)
      && (c.Failed? ==> c.error == c'.error)
      && c.fetches == c'.fetches + 1
      && r0 + UrlRun(link, page, c.fetches) == (r0 + [PageUrl(link, page)]) + UrlRun(link, page + 1, c'.fetches)
  {
    var c' := CrawlFrom(web, link, page + 1);
    NextUrlShrinks(web, link, page);
    assert CrawlFrom(web, link, page) == Resume(t, 1, c');
    if c'.Done? {
      ConcatAssoc(q0, t, c'.quotes);
    }
    UrlRunShift(link, page, c'.fetches);
    ConcatAssoc(r0, [PageUrl(link, page)], UrlRun(link, page + 1, c'.fetches));
  }

  // ---------------------------------------------------------------------------
  // The scraper object

  class BsScraper {
    var link: Option<string>
    var hasNextPage: bool
    var quotes: seq<string>
    var currentPage: nat
    var actualLink: string
    /** The URLs requested so far, in order (the observable side of `requests.get`). */
    ghost var requested: seq<string>

    constructor (link: Option<string>)
      ensures this.link == link && hasNextPage
      ensures quotes == [] && currentPage == 1 && requested == []
    {
      this.link := link;
      hasNextPage := true;
      quotes := [];
      currentPage := 1;
      actualLink := "";
      requested := [];
    }

    /** Builds the URL of the current page, records it in `actualLink` and requests it. */
    method GetHtmlContent(web: Web) returns (page: Option<Page>)
      modifies this`actualLink, this`requested
      ensures actualLink == PageUrl(LinkText(link), currentPage)
      ensures requested == old(requested) + [actualLink]
      ensures page == if actualLink in web then Some(web[actualLink]) else None
    {
      actualLink := LinkText(link) + "/" + Decimal(currentPage) + "/";
      requested := requested + [actualLink];
      if actualLink in web {
        page := Some(web[actualLink]);
      } else {
        page := None;
      }
    }

    /** The `for` loop over a page's quote blocks: appends each block's text, and stops at the first block without one. */
    method AppendQuotes(blocks: seq<QuoteBlock>) returns (ok: bool)
      modifies this`quotes
      ensures ok <==> Texts(blocks).Some?
      ensures ok ==> quotes == old(quotes) + Texts(blocks).value
      ensures !ok ==> StoppedAtMissingText(blocks, old(quotes), quotes)
      ensures old(quotes) <= quotes
    {
      var i := 0;
      while i < |blocks|
        invariant 0 <= i <= |blocks|
        invariant Texts(blocks[..i]).Some?
        invariant quotes == old(quotes) + Texts(blocks[..i]).value
      {
        if blocks[i].text.None? {
          TextsSpec(blocks);
          assert blocks[i].text.None? && Texts(blocks[..i]).Some? && quotes == old(quotes) + Texts(blocks[..i]).value;
          return false;
        }
        assert blocks[..i + 1][..i] == blocks[..i];
        quotes := quotes + [blocks[i].text.value];
        i := i + 1;
      }
      assert blocks[..i] == blocks;
      return true;
    }

    /**
     * One activation of `soupify` without its recursive call: request the current page,
     * append its quote texts, and advance the counter when the marker says so.
     */
    method SoupifyPage(web: Web) returns (step: Step)
      modifies this`quotes, this`currentPage, this`actualLink, this`requested
      ensures step == PageStep(web, LinkText(link), old(currentPage))
      ensures actualLink == PageUrl(LinkText(link), old(currentPage))
      ensures requested == old(requested) + [actualLink]
      ensures currentPage == if step.Next? then old(currentPage) + 1 else old(currentPage)
      ensures !step.Broken? ==> quotes == old(quotes) + step.texts
      ensures step.Broken? && actualLink !in web ==> quotes == old(quotes)
      ensures step.Broken? && actualLink in web ==> StoppedAtMissingText(web[actualLink].blocks, old(quotes), quotes)
      ensures old(quotes) <= quotes
    {
      var page := GetHtmlContent(web);
      if page.None? {
        return Broken(FetchFailed(actualLink));
      }
      var ok := AppendQuotes(page.value.blocks);
      if !ok {
        return Broken(MissingQuoteText(actualLink));
      }
      var texts := Texts(page.value.blocks).value;
      if HasNext(page.value) {
        currentPage := currentPage + 1;
        step := Next(texts);
      } else {
        step := Last(texts);
      }
    }

    /**
     * `soupify`: one page step, then the recursive call while the marker says so;
     * `quotes` keeps growing across pages and is what is returned when a page has no
     * usable marker.
     */
    method Soupify(web: Web) returns (r: Result<seq<string>, CrawlError>)
      modifies this`quotes, this`currentPage, this`actualLink, this`requested
      ensures CrawlFrom(web, LinkText(link), old(currentPage)).Done? ==>
        r == Ok(old(quotes) + CrawlFrom(web, LinkText(link), old(currentPage)).quotes) && quotes == r.value
      ensures CrawlFrom(web, LinkText(link), old(currentPage)).Failed? ==>
        r == Err(CrawlFrom(web, LinkText(link), old(currentPage)).error)
      ensures currentPage == old(currentPage) + CrawlFrom(web, LinkText(link), old(currentPage)).fetches - 1
      ensures requested == old(requested) + UrlRun(LinkText(link), old(currentPage), CrawlFrom(web, LinkText(link), old(currentPage)).fetches)
      ensures actualLink == PageUrl(LinkText(link), currentPage)
      ensures old(quotes) <= quotes
      decreases |web.Keys - UrlsBelow(LinkText(link), currentPage)|
    {
      ghost var cur, q0, r0, L := currentPage, quotes, requested, LinkText(link);
      var step := SoupifyPage(web);
      match step {
        case Broken(e) =>
          return Err(e);
        case Last(t) =>
          return Ok(quotes);
        case Next(t) =>
          NextUrlShrinks(web, L, cur);
          ContinuedCrawl(web, L, cur, t, q0, r0);
          r := Soupify(web);
      }
    }

    /** `scrap`: a falsy link returns None without any request; otherwise the crawl's result. */
    method Scrap(web: Web) returns (r: Result<Option<seq<string>>, CrawlError>)
      modifies this`quotes, this`currentPage, this`actualLink, this`requested
      ensures !Truthy(link) ==> r == Ok(None) && requested == old(requested) && actualLink == old(actualLink)
                                && quotes == old(quotes) && currentPage == old(currentPage)
      ensures Truthy(link) ==>
        var c := CrawlFrom(web, link.value, old(currentPage));
        && r == (if c.Done? then Ok(Some(old(quotes) + c.quotes)) else Err(c.error))
        && requested == old(requested) + UrlRun(link.value, old(currentPage), c.fetches)
        && currentPage == old(currentPage) + c.fetches - 1
        && actualLink == PageUrl(link.value, currentPage)
        && (c.Done? ==> quotes == old(quotes) + c.quotes)
      ensures old(quotes) == [] && old(currentPage) == 1 ==> r == ScrapResult(web, link)
      ensures old(quotes) <= quotes
    {
      if !Truthy(link) {
        return Ok(None);
      }
      ghost var q0 := quotes;
      var s := Soupify(web);
      assert q0 == [] && CrawlFrom(web, link.value, old(currentPage)).Done? ==>
        q0 + CrawlFrom(web, link.value, old(currentPage)).quotes == CrawlFrom(web, link.value, old(currentPage)).quotes;
      match s
      case Ok(qs) => r := Ok(Some(qs));
      case Err(e) => r := Err(e);
    }
  }
}
