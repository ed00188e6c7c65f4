/** The praca.pl crawl as `main` drives it: what the browser shows, the
    three stop rules, and what a finished or failed crawl promises. */
module PracaCrawl {
  import opened Wrappers
  import opened Web
  import opened Frame
  import opened PracaPl

  /** What the browser shows at one page number of the search: whether the
      cookie banner's button is there, the text of the "last page" link if
      there is one, and the listing cards. */
  datatype Page = Page(cookieButton: bool, lastLink: Option<string>, cards: seq<Card>)

  /** The site as the crawl sees it: the page shown for each page number and
      the clock reading taken when that page is scraped. */
  datatype Site = Site(pages: nat -> Page, clock: nat -> Instant)

  /** Why a run of the crawl raised. */
  datatype CrawlError =
    | NoCookieButton                       // `click_cookie_button` on page 1
    | BadPagination(text: string)          // `read_max_page_number`
    | ScrapeFailed(page: nat, e: ScrapeError)

  /** Which `break` ended the crawl. */
  datatype Stop = EmptyPage | LastPage | CaughtUp

  /** The accumulated table, the page the crawl stopped at and why. */
  datatype Crawled = Crawled(offers: seq<Offer>, lastPage: nat, stop: Stop)

  function Posted(o: Offer): Option<int> {
    match o.datePosted
    case None => None
    case Some(t) => Some(t)
  }

  /** What `scrapp_offers` returns on page `p`. */
  function PageOutcome(site: Site, p: nat): Result<seq<Offer>, ScrapeError> {
    ScrapePage(site.pages(p).cards, site.clock(p))
  }

  /** The page count read on page 1, after the cookie button is clicked. */
  function FirstPage(site: Site): Result<int, CrawlError> {
    var pg := site.pages(1);
    if !pg.cookieButton then Failure(NoCookieButton)
    else match ReadMaxPageNumber(pg.lastLink)
      case Failure(t) => Failure(BadPagination(t))
      case Success(m) => Success(m)
  }

  /** `df_offers['date_posted'].max() < last_date_scraped`. A page without
      any posting date, or a missing high-water mark, never counts as caught
      up, as a comparison with a missing timestamp is false. */
  predicate CaughtUpWith(offers: seq<Offer>, last: Option<int>) {
    var m := MaxDate(offers, Posted);
    m.Some? && last.Some? && m.value < last.value
  }

  /** The three stop rules in the order they are checked once page `p` has
      yielded `offers`; `None` means the crawl goes on to page `p + 1`. */
  function StopRule(offers: seq<Offer>, p: int, maxPage: int, last: Option<int>): Option<Stop> {
    if offers == [] then Some(EmptyPage)
    else if p >= maxPage then Some(LastPage)
    else if CaughtUpWith(offers, last) then Some(CaughtUp)
    else None
  }

  /** Page `p` was scraped and none of the stop rules fired on it. */
  predicate PassedOver(site: Site, maxPage: int, last: Option<int>, p: nat) {
    PageOutcome(site, p).Success? && StopRule(PageOutcome(site, p).value, p, maxPage, last).None?
  }

  /** The crawl went past every page before page `k`. */
  predicate PassedAllBefore(site: Site, maxPage: int, last: Option<int>, k: nat) {
    k <= 1 || (PassedAllBefore(site, maxPage, last, k - 1) && PassedOver(site, maxPage, last, k - 1))
  }

  lemma {:induction false} PassedAllBeforeMeans(site: Site, maxPage: int, last: Option<int>, k: nat)
    requires PassedAllBefore(site, maxPage, last, k)
    ensures forall p :: 1 <= p < k ==> PassedOver(site, maxPage, last, p)
    decreases k
  {
    forall p | 1 <= p < k ensures PassedOver(site, maxPage, last, p) {
      PassedAllBeforeAt(site, maxPage, last, k, p);
    }
  }

  lemma {:induction false} PassedAllBeforeAt(site: Site, maxPage: int, last: Option<int>, k: nat, p: nat)
    requires PassedAllBefore(site, maxPage, last, k)
    requires 1 <= p < k
    ensures PassedOver(site, maxPage, last, p)
    decreases k
  {
    var j := k - 1;
    assert PassedAllBefore(site, maxPage, last, j) && PassedOver(site, maxPage, last, j);
    if p < j {
      PassedAllBeforeAt(site, maxPage, last, j, p);
    } else {
      assert p == j;
    }
  }

  /** The offers of pages 1 to `k`, in page order. */
  function ScrapedUpTo(site: Site, k: nat): seq<Offer> {
    if k == 0 then []
    else ScrapedUpTo(site, k - 1) + (match PageOutcome(site, k) case Success(o) => o case Failure(_) => [])
  }

  /** The driver requests made for page `p`: the cookie click and the page
      count are taken on page 1 only. */
  function Visit(p: nat): seq<Action> {
    if p == 1 then [Navigate(1), ClickCookies, ReadMaxPage, Scrape(1)]
    else [Navigate(p), Scrape(p)]
  }

  function Visits(k: nat): seq<Action> {
    if k == 0 then [] else Visits(k - 1) + Visit(k)
  }

  /** The requests page 1's set-up makes after opening the page: the cookie
      click and the page-count read, or none when there is no cookie button
      to click. */
  function SetUpRequests(site: Site): seq<Action> {
    if site.pages(1).cookieButton then [ClickCookies, ReadMaxPage] else []
  }

  /** The requests made for page `p` before it is scraped: it is opened,
      and page 1 is set up. */
  function Opening(site: Site, p: nat): seq<Action> {
    [Navigate(p)] + (if p == 1 then SetUpRequests(site) else [])
  }

  /** A set-up that fails records exactly the requests of opening page 1. */
  lemma SetUpFailureLogged(site: Site)
    requires FirstPage(site).Failure?
    ensures Opening(site, 1) == ActionsOf(Failure(FirstPage(site).error))
  {
  }

  /** Once page 1 is set up, the crawl got to it with nothing gathered. */
  lemma SetUpProgress(site: Site, last: Option<int>)
    requires FirstPage(site).Success?
    ensures Progress(site, last, FirstPage(site).value, 1, [])
  {
    assert ScrapedUpTo(site, 0) == [];
  }

  /** Opening page `page` and scraping it, after the requests of the pages
      before it, makes the requests up to `page`. */
  lemma OpenedAndScraped(site: Site, start: seq<Action>, visited: nat, page: nat)
    requires page == visited + 1
    requires page == 1 ==> FirstPage(site).Success?
    ensures start + Visits(visited) + Opening(site, page) + [Scrape(page)] == start + Visits(page)
  {
    var done, opening := Visits(visited), Opening(site, page);
    assert opening + [Scrape(page)] == Visit(page);
    assert Visits(page) == done + Visit(page);
    assert start + done + opening + [Scrape(page)] == start + (done + (opening + [Scrape(page)]));
  }

  /** Page `q` is one the crawl gets to: page 1, or a page up to the page
      count past every earlier page without a stop. */
  ghost predicate Reached(site: Site, maxPage: int, last: Option<int>, q: nat) {
    1 <= q && (q == 1 || q <= maxPage) && PassedAllBefore(site, maxPage, last, q)
  }

  /** What a finished crawl promises: page 1 gave a page count, the crawl got
      to the page it stopped at, that page's stop rule is the recorded one,
      and the table holds the offers of the pages up to it, latest first. */
  ghost predicate Stopped(site: Site, last: Option<int>, c: Crawled) {
    && FirstPage(site).Success?
    && Reached(site, FirstPage(site).value, last, c.lastPage)
    && PageOutcome(site, c.lastPage).Success?
    && StopRule(PageOutcome(site, c.lastPage).value, c.lastPage, FirstPage(site).value, last) == Some(c.stop)
    && multiset(c.offers) == multiset(ScrapedUpTo(site, c.lastPage))
    && SortedDesc(c.offers, Posted)
  }

  /** What a failed crawl promises: page 1's set-up failed with that error,
      or the crawl got to page `q` and scraping it raised. */
  ghost predicate FailedAt(site: Site, last: Option<int>, e: CrawlError) {
    match e
    case NoCookieButton => FirstPage(site) == Failure(e)
    case BadPagination(_) => FirstPage(site) == Failure(e)
    case ScrapeFailed(q, err) =>
      && FirstPage(site).Success?
      && Reached(site, FirstPage(site).value, last, q)
      && PageOutcome(site, q) == Failure(err)
  }

  /** The driver requests a crawl with outcome `r` has made. */
  function ActionsOf(r: Result<Crawled, CrawlError>): seq<Action> {
    match r
    case Success(c) => Visits(c.lastPage)
    case Failure(NoCookieButton) => [Navigate(1)]
    case Failure(BadPagination(_)) => [Navigate(1), ClickCookies, ReadMaxPage]
    case Failure(ScrapeFailed(q, _)) => Visits(q)
  }

  /** The outcome of one pass of the loop body: go on with the accumulated
      table, or leave the loop with a result. */
  datatype Step = Continue(acc: seq<Offer>) | Break(r: Result<Crawled, CrawlError>)

  /** What one pass over page `page` yields, given the table `acc` gathered
      before it: a scrape failure ends the crawl; otherwise the page's rows
      join the table, which is re-sorted, and the stop rules decide. */
  ghost predicate StepOutcome(site: Site, page: nat, maxPage: int, last: Option<int>, acc: seq<Offer>, st: Step) {
    match PageOutcome(site, page)
    case Failure(err) => st == Break(Failure(ScrapeFailed(page, err)))
    case Success(rows) =>
      var stop := StopRule(rows, page, maxPage, last);
      && (st.Continue? <==> stop.None?)
      && (st.Continue? ==> SortedDesc(st.acc, Posted) && multiset(st.acc) == multiset(acc + rows))
      && (st.Break? ==> st.r.Success? && Some(st.r.value.stop) == stop && st.r.value.lastPage == page
                        && SortedDesc(st.r.value.offers, Posted)
                        && multiset(st.r.value.offers) == multiset(acc + rows))
  }

  /** The loop's invariant before page `page`: page 1 gave the page count
      `maxPage`, the crawl got to `page`, and the table holds the offers of
      the earlier pages, latest first. */
  ghost predicate Progress(site: Site, last: Option<int>, maxPage: int, page: nat, acc: seq<Offer>) {
    && FirstPage(site) == Success(maxPage)
    && Reached(site, maxPage, last, page)
    && multiset(acc) == multiset(ScrapedUpTo(site, page - 1))
    && SortedDesc(acc, Posted)
  }

  /** A pass that leaves the loop on a page the crawl got to meets the
      crawl's promises, having made the requests of pages 1 to `page`. */
  lemma StepBreaks(site: Site, last: Option<int>, maxPage: int, page: nat, acc: seq<Offer>, st: Step)
    requires Progress(site, last, maxPage, page, acc)
    requires StepOutcome(site, page, maxPage, last, acc, st)
    requires st.Break?
    ensures st.r.Success? ==> Stopped(site, last, st.r.value)
    ensures st.r.Failure? ==> FailedAt(site, last, st.r.error)
    ensures ActionsOf(st.r) == Visits(page)
  {
    if PageOutcome(site, page).Success? {
      assert ScrapedUpTo(site, page) == ScrapedUpTo(site, page - 1) + PageOutcome(site, page).value;
    }
  }

  /** Past a page the crawl got to without a stop, it gets to the next one. */
  lemma ReachedNext(site: Site, maxPage: int, last: Option<int>, page: nat, next: nat)
    requires Reached(site, maxPage, last, page)
    requires PassedOver(site, maxPage, last, page)
    requires page < maxPage && next == page + 1
    ensures Reached(site, maxPage, last, next)
  {
    assert next - 1 == page;
  }

  /** The offers of the pages before `next` are those before `page` followed
      by the offers of `page`. */
  lemma UpToNext(site: Site, page: nat, next: nat)
    requires 1 <= page && next == page + 1
    requires PageOutcome(site, page).Success?
    ensures ScrapedUpTo(site, next - 1) == ScrapedUpTo(site, page - 1) + PageOutcome(site, page).value
  {
    assert next - 1 == page;
  }

  /** A pass that goes on restores the loop's invariant for the next page. */
  lemma StepGoesOn(site: Site, last: Option<int>, maxPage: int, page: nat, next: nat, acc: seq<Offer>, st: Step)
    requires Progress(site, last, maxPage, page, acc)
    requires next == page + 1
    requires StepOutcome(site, page, maxPage, last, acc, st)
    requires st.Continue?
    ensures next <= maxPage && Progress(site, last, maxPage, next, st.acc)
  {
    var rows := PageOutcome(site, page).value;
    assert PassedOver(site, maxPage, last, page);
    ReachedNext(site, maxPage, last, page, next);
    UpToNext(site, page, next);
    assert multiset(st.acc) == multiset(acc) + multiset(rows);
  }

  /** A pass over a page the crawl got to either ends the crawl with an
      outcome meeting the crawl's promises, or goes on to the next page with
      the loop's invariant restored. */
  lemma StepFacts(site: Site, last: Option<int>, maxPage: int, page: nat, next: nat, acc: seq<Offer>, st: Step)
    requires Progress(site, last, maxPage, page, acc)
    requires next == page + 1
    requires StepOutcome(site, page, maxPage, last, acc, st)
    ensures st.Break? ==>
      && (st.r.Success? ==> Stopped(site, last, st.r.value))
      && (st.r.Failure? ==> FailedAt(site, last, st.r.error))
      && ActionsOf(st.r) == Visits(page)
    ensures st.Continue? ==> next <= maxPage && Progress(site, last, maxPage, next, st.acc)
  {
    if st.Break? {
      StepBreaks(site, last, maxPage, page, acc, st);
    } else {
      StepGoesOn(site, last, maxPage, page, next, acc, st);
    }
  }

  /** The scraper never returns an empty table, so the `EmptyPage` stop can
      never fire: a page without offers makes the crawl fail instead. */
  lemma EmptyStopUnreachable(site: Site, p: nat, maxPage: int, last: Option<int>)
    requires PageOutcome(site, p).Success?
    ensures StopRule(PageOutcome(site, p).value, p, maxPage, last) != Some(EmptyPage)
  {
    var pg := site.pages(p);
    ScrapePageSuccess(pg.cards, site.clock(p));
  }

  /** A page with no cards, or none that survive extraction, fails the crawl
      at that page. */
  lemma EmptyPageFails(site: Site, p: nat)
    requires Collected(site.pages(p).cards) == []
    ensures PageOutcome(site, p) == Failure(NoOffers)
  {
  }
}
