# Job-offer scrapers for praca.pl and pracuj.pl, modelled in Dafny

The repository contains two scripts that collect job offers from Polish job
portals. This project models their core and proves properties of the model.

**praca.pl scraper**

- It opens the search result pages one after another.
- On page 1 it accepts the cookie banner and reads the number of the last
  page from the pagination bar.
- On each page it turns every listing card into a record. Relative posting
  captions ("3 godz. temu", "2 dni temu") become timestamps.
- It adds the page's rows to the accumulated table and re-sorts that table by
  posting date, latest first.
- It stops at an empty page, at the last page, or once a page is older than
  the latest scrape stored by the previous run. The rules are checked in that
  order.
- Finally it merges the crawl with the stored offers and computes the table
  of new offers.

**pracuj.pl scraper**

- It visits pages 1 and 2. The cookie banner is accepted on page 1 only.
- Absolute dates such as "15 marca 2024" become "15-03-2024" through a month
  table. Month names are matched in lower case.
- Within a page, the first card that raises ends the card loop. The rows read
  before it are kept.
- Every row is stamped with the day of the scrape.

**Modules**

| module | contents |
|---|---|
| `Wrappers` | `Option` and `Result` |
| `Text` | Python's string operations: `isspace`, `split()`, `" ".join`, `strip()`, `int()`, `lower()`, `replace(p, "")` and `in` |
| `Web` | what the HTML library returns for a look-up, and the requests made of the browser driver |
| `Frame` | the pandas operations used: sorting by date descending with missing dates last, `max()`, `drop_duplicates(keep='first')` and `~isin` |
| `PracaPl` | `convert_date`, `read_max_page_number` and `scrapp_offers` of praca.pl |
| `PracaCrawl` | what the browser shows, the stop rules, and the outcome of a finished or failed crawl |
| `PracaMain` | the `while True` loop written as methods and proved against `PracaCrawl` |
| `PracaStore` | the stored-data high-water mark and the reconciliation block |
| `PracujPl` | `convert_date`, `scrapp_offers` and the two-page loop of pracuj.pl |

**Representations**

- Timestamps are whole seconds in the range of Python's `datetime`.
- A `timedelta` subtraction that leaves that range is the `OverflowError`
  it raises.
- A look-up is `Missing`, `Found(element)` or `Raises`. `Raises` stands for
  any exception the HTML library throws on that card.
- The browser is a function from page number to what the page shows. The
  clock is a function from page number to the time read on that page.
- The browser driver is a `Driver` object whose log records each request
  (opening a page, clicking the cookie button, reading the page count,
  reading a page's offers) at the point in the loop where the code makes it.

**Behaviours of the code worth knowing:**

- "N godz." is counted back from the start of the current hour: the minutes
  and seconds are dropped first. So "3 godz." read at 14:37 is 11:00, not
  11:37.
- `drop_duplicates` keeps the first row of each key. In the stored table,
  the old row wins over the re-scraped one.
- praca.pl: a page yielding no cards never reaches the empty-page `break`,
  because building the empty table's `date_posted` column raises first. The
  `EmptyPage` stop is modelled and shown unreachable.

## Model

| member | source | states |
|---|---|---|
| PracaPl.ConvertDate | praca_pl.py:94-106 | definition of `convert_date`: "godz." is tested before "dni", a missing caption fails, any other caption has no date; its properties are the lemmas below |
| PracaPl.LeadingInt | praca_pl.py:97-100 | definition of `int(date_str.split()[0])`: no first word and a first word that is not an integer are the two errors |
| PracaPl.Before | praca_pl.py:98-101 | definition of `base - timedelta(...)` once the count is read: a count error is passed on, and a result outside the `datetime` range is the `OverflowError` |
| PracaPl.HourStart | praca_pl.py:98 | the start of the hour: a multiple of 3600 not after `now`, less than an hour before it |
| PracaPl.DayStart | praca_pl.py:101 | the start of the day: a multiple of 86400 not after `now`, less than a day before it |
| PracaPl.HoursAgo | praca_pl.py:96-98 | a caption containing "godz." with count N gives the whole hour in which `now` minus N hours falls; when that hour is outside the `datetime` range, the conversion fails with that instant |
| PracaPl.DaysAgo | praca_pl.py:99-101 | a caption with "dni" and without "godz." gives midnight of the day N days back, or fails out of range |
| PracaPl.HourUnique | praca_pl.py:98 | exactly one instant meets the hour-rounding description, so the description fixes the result |
| PracaPl.DayUnique | praca_pl.py:101 | the same for day rounding |
| PracaPl.NotACount | praca_pl.py:97-106 | a caption naming a unit whose first word is not an integer (or that has no words) fails with that error |
| PracaPl.NoUnit | praca_pl.py:94-106 | a caption naming neither unit gives no date; a card without a caption fails the conversion |
| PracaPl.NotAfterNow | praca_pl.py:94-103 | with a non-negative count, the posting date is never after `now` |
| PracaPl.HoursCaption | praca_pl.py:96-98 | the caption "<N> godz. ..." is dated N hours before the start of the current hour |
| PracaPl.DaysCaption | praca_pl.py:99-101 | the caption "<N> dni ..." without "godz." is dated N days before midnight |
| PracaPl.ExampleHours | praca_pl.py:96-98 | "3 godz. ..." read at 2024-03-15 14:37:00 is 2024-03-15 11:00:00 |
| PracaPl.ExampleDays | praca_pl.py:99-101 | "2 dni ..." read at 2024-03-15 14:37:00 is 2024-03-13 00:00:00 |
| PracaPl.ReadMaxPageNumber | praca_pl.py:108-119 | without a "last page" link the count is 1; with one, it succeeds exactly when the link text is an integer, the count is then that integer, and a failure carries the link text |
| PracaPl.MaxPageRoundTrip | praca_pl.py:112-114 | the number printed on the link, padded with any whitespace, is the number read back |
| PracaPl.ExtractCard | praca_pl.py:139-166 | a card yields a dictionary exactly when none of its eight look-ups raised |
| Web.StrippedText | praca_pl.py:151-159 | `tag.text.strip() if tag else None`: missing exactly when the look-up found nothing |
| Web.Attribute | praca_pl.py:152-160 | `tag.get(name) if tag else None`: present exactly when the element is found and has the attribute |
| PracaPl.CardTexts | praca_pl.py:150-159 | each of the seven text fields is missing exactly when its element is, and is otherwise that element's stripped text |
| PracaPl.CardAttributes | praca_pl.py:152-160 | `job_id`, `job_url` and `logo_url` are present exactly when the element is found and has the attribute, and are then that attribute's value |
| PracaPl.Collected | praca_pl.py:138-166 | definition of the card loop with a per-card `try`: the dictionaries of the cards that did not raise, in card order |
| PracaPl.CollectedAppend | praca_pl.py:138-166 | cards are handled independently: the dictionaries of a concatenation are the concatenation of the dictionaries |
| PracaPl.CollectedOne | praca_pl.py:139-166 | one card yields its dictionary, or nothing when a look-up raised and the card is skipped |
| PracaPl.CollectedFacts | praca_pl.py:138-166 | at most one dictionary per card; a dictionary is collected exactly when some card extracts to it |
| PracaPl.DateAll | praca_pl.py:173-174 | definition of the `apply(convert_date)` column and the `date_scraped` stamp: the first caption that fails fails the page |
| PracaPl.DateAllFacts | praca_pl.py:173-174 | date conversion succeeds exactly when every caption converts; then row i is card i's fields with its date and the scrape time; a failure carries the error of some caption |
| PracaPl.ScrapePage | praca_pl.py:121-175 | definition of what `scrapp_offers` returns: no collected card fails, as the empty table has no `date_posted` column, otherwise the dated rows or the first date error |
| PracaPl.ScrapeOffers | praca_pl.py:121-175 | the loop over the cards followed by the date conversion returns the page outcome `ScrapePage`, including both failure cases |
| PracaPl.ScrapePageSuccess | praca_pl.py:172-175 | a successful page has at least one row and one row per collected card, in card order, with every row stamped with the same `now` |
| PracaPl.ScrapePageFailure | praca_pl.py:158-173 | a page on which some collected card has no caption fails |
| PracaPl.ScrapeEmpty | praca_pl.py:172-173 | a page with no collected card fails with `NoOffers` |
| Frame.InsertDesc | praca_pl.py:210 | inserting into a date-descending table keeps it sorted, and the result is a permutation of the table plus the row |
| Frame.SortDesc | praca_pl.py:210 | the sorted table is date-descending with missing dates last, and it is a permutation of the input |
| Frame.MaxDate | praca_pl.py:217 | the maximum is missing exactly when no row has a date; otherwise it is some row's date and no row's date exceeds it |
| Frame.DropDuplicates | praca_pl.py:229 | definition of `drop_duplicates(subset=[key])` with `keep='first'`: a row is kept when its key has not been met before |
| Frame.DropDuplicatesFacts | praca_pl.py:229 | the result has the same key set, each key once, rows in input order, and each row the first of its key |
| Frame.DropDuplicatesIdempotent | praca_pl.py:229 | dropping duplicates a second time changes nothing |
| Frame.NotIn | praca_pl.py:228 | definition of `rows[~key.isin(ks)]`: the rows whose key is outside `ks`, in order |
| Frame.NotInFacts | praca_pl.py:228 | a row survives the `~isin` filter exactly when its key is outside the set, and survivors keep their order |
| Frame.NotInCovered | praca_pl.py:228 | filtering by a key set that covers every row leaves nothing |
| PracaCrawl.PageOutcome | praca_pl.py:204 | definition of `scrapp_offers(driver)` on page `p`: the page outcome of that page's cards at the time read on it |
| PracaCrawl.FirstPage | praca_pl.py:197-199 | definition of page 1's set-up: no cookie button fails, then the page count is read or its error reported |
| PracaCrawl.CaughtUpWith | praca_pl.py:217 | definition of the caught-up test: the page's latest posting date is before the high-water mark; a page without dates or a missing mark is never caught up |
| PracaCrawl.StopRule | praca_pl.py:205-219 | definition of the three stop rules in the order they are checked: empty page, last page, caught up |
| PracaCrawl.PassedAllBeforeMeans | praca_pl.py:193-221 | having passed all pages before k means that every page from 1 to k-1 was scraped with no stop rule firing |
| PracaCrawl.StepFacts | praca_pl.py:204-221 | a pass over a reached page either leaves the loop with an outcome meeting the crawl's promises and the requests of pages 1..page, or continues with the loop invariant holding for the next page, which is within the page count |
| PracaCrawl.EmptyStopUnreachable | praca_pl.py:204-207 | the empty-page stop can never fire, because a successful scrape is never empty |
| PracaCrawl.EmptyPageFails | praca_pl.py:172-173 | a page with no collected cards fails the crawl |
| PracaCrawl.SetUpFailureLogged | praca_pl.py:196-199 | a failed set-up has made exactly the requests of opening page 1 and, when the button was there, clicking it and reading the page count |
| PracaCrawl.OpenedAndScraped | praca_pl.py:196-204 | opening a page and reading its offers after the requests of the pages before it gives the requests of pages 1..page |
| Web.Driver.Request | praca_pl.py:196 | a request is appended to the driver's log and nothing else changes |
| PracaMain.SetUp | praca_pl.py:197-199 | page 1's set-up gives `FirstPage`: no cookie button fails, otherwise the page count or its error; the log grows by the cookie click and the page-count read when the button is there, and by nothing otherwise |
| PracaMain.OpenPage | praca_pl.py:196-199 | opening a page logs `Navigate(page)` and, on page 1, the set-up's requests; a failed set-up meets `FailedAt` and its requests are those the failure records; otherwise the loop invariant holds for the page with the page count read |
| PracaMain.ScrapeAndCheck | praca_pl.py:204-219 | one page: the offers are read, which is logged as `Scrape(page)`; a scrape failure ends the crawl; otherwise the rows join the re-sorted table (a permutation of old plus new rows, sorted), and the loop continues exactly when no stop rule fires |
| PracaMain.VisitPage | praca_pl.py:204-221 | the rest of a pass, from reading the page's offers: it logs `Scrape(page)`, and restores the loop invariant or ends with a result meeting the crawl's promises |
| PracaMain.Crawl | praca_pl.py:189-222 | a finished crawl reached its last page through pages that all passed, that page's stop rule is the recorded one, and the table is a date-descending permutation of the offers of pages 1..last; a failure is a set-up failure or the scrape error of a reached page; the driver's log grows by exactly the requests that outcome records |
| PracaStore.HighWaterMark | utils/read_previous_data.py:8-13 | with no stored file, the start-up time; otherwise the latest `date_scraped` of the stored rows (some row's, and none later), missing for an empty table |
| PracaStore.Reconcile | praca_pl.py:225-231 | definition of the block as written: with old data, the deduplicated concatenation and the current rows whose key is not in it; otherwise the crawl twice |
| PracaStore.ReconcileOffers | praca_pl.py:225-234 | definition of the block on praca.pl rows, keyed on the `job_link` column it selects |
| PracaStore.CellOf | praca_pl.py:228-229 | definition of the cell a key column holds: the two date columns are timestamps (`datePosted`, possibly missing, and `dateScraped`), every other column its text |
| PracaStore.ReconcileByColumn | praca_pl.py:225-234 | definition of the block keyed on column `column`: a cold start passes the crawl through, a column the rows lack raises, and any other column keys the rows by its cell, text or timestamp |
| PracaStore.ReconcileCold | praca_pl.py:230-231 | without old data, the stored table and the new table are both the crawl |
| PracaStore.ReconcileWarm | praca_pl.py:226-229 | with old data, the stored table has exactly the old and current keys, each once, in order, and a row whose key was stored before is the old row |
| PracaStore.WarmAddedEmpty | praca_pl.py:227-228 | as written, the new-offers table is empty after every warm start |
| PracaStore.ReconcileIntendedAdded | praca_pl.py:228 | corrected: a current row is new exactly when its key is not among the old keys, new rows keep their order, and the stored table is unchanged |
| PracaStore.WarmStartRaises | praca_pl.py:226-229 | as written, the block selects a `job_link` column the rows do not have, so every warm start raises and only a cold start succeeds |
| PracaStore.ReconcileByUrlFacts | praca_pl.py:226-229 | corrected, keyed on `job_url`: one stored row per link, old rows winning, and exactly the offers with unseen links reported as new |
| Text.Split | praca_pl.py:97 | `split()` gives non-empty tokens without whitespace |
| Text.Strip | praca_pl.py:151 | `strip()` gives a text that neither starts nor ends with whitespace |
| Text.ParseInt | praca_pl.py:114 | definition of `int()`: surrounding whitespace, an optional sign, at least one ASCII digit |
| Text.Lower | pracuj_pl.py:108 | `lower()` keeps the length and lowers each character |
| Text.Contains | praca_pl.py:96-99 | definition of `sub in s`: `sub` starts at some position of `s` |
| Text.RemoveAll | pracuj_pl.py:134 | `replace(p, "")` never lengthens the text |
| Text.SplitJoin | praca_pl.py:97 | splitting undoes joining with single spaces, for non-empty whitespace-free tokens |
| Text.StripPadded | praca_pl.py:151 | `strip` removes exactly the surrounding whitespace |
| Text.ParseIntOfShow | praca_pl.py:114 | `int` reads back a printed integer surrounded by whitespace |
| Text.LowerIdempotent | pracuj_pl.py:108 | lowering twice is lowering once |
| PracujPl.ConvertDate | pracuj_pl.py:104-112 | definition of `convert_date`: three tokens become day, month number and year with dashes, reading the "pl" table; any other text is returned as it is |
| PracujPl.MonthNumber | pracuj_pl.py:108 | the month number is the table's entry for the lower-cased name, or "00" when there is none |
| PracujPl.ConvertThree | pracuj_pl.py:105-109 | three tokens become day, month number and year joined by dashes, with "00" for an unknown month |
| PracujPl.ConvertNoLanguage | pracuj_pl.py:108 | a three-token date with no "pl" language in the table raises |
| PracujPl.ConvertOtherCount | pracuj_pl.py:105-112 | a text that does not split into three tokens is returned unchanged, whatever the table holds |
| PracujPl.ConvertOtherCountJoined | pracuj_pl.py:105-112 | in particular any number of tokens other than three, joined by spaces, come back unchanged |
| PracujPl.ConvertIgnoresCase | pracuj_pl.py:108 | a date converts the same as the date with its month name lower-cased |
| PracujPl.ConvertExample | pracuj_pl.py:104-109 | with "marca" numbered "03", "15 marca 2024" becomes "15-03-2024" |
| PracujPl.ConvertUpperExample | pracuj_pl.py:108 | "15 MARCA 2024" becomes "15-03-2024" too |
| PracujPl.Href | pracuj_pl.py:128-130 | definition of a link field: missing without the element or its `<a>`, the `href` otherwise, raising when `href` is absent |
| PracujPl.PostedDate | pracuj_pl.py:134-138 | definition of the date field: missing without the element, otherwise the caption with "Opublikowana: " removed, stripped and converted |
| PracujPl.ExtractCard | pracuj_pl.py:121-148 | definition of one pass of the card loop: the card's dictionary, or the first error raised |
| PracujPl.CardRaises | pracuj_pl.py:119-148 | a card raises exactly when a look-up raises, a found link lacks `href`, or a three-token date meets a table without "pl" |
| PracujPl.ListingFields | pracuj_pl.py:127-148 | each field is missing exactly when its element (or link) is; the title, company, location and salary are the stripped element texts, the job and company links are the `href` of the element's `<a>`, and the date is the converted caption |
| PracujPl.PublishedCaption | pracuj_pl.py:134-136 | a caption "Opublikowana: " followed by an unpadded date text without that prefix is dated by converting the date text |
| PracujPl.Extracted | pracuj_pl.py:119-150 | definition of the card loop inside one `try`: the dictionaries of the cards before the first that raises |
| PracujPl.CollectLeading | pracuj_pl.py:119-150 | the loop inside one `try` returns exactly the values of the items before the first on which the body fails |
| PracujPl.ExtractedPrefix | pracuj_pl.py:119-150 | the collected dictionaries are those of a prefix of the cards, in order; a shorter prefix ends at a card that raises |
| PracujPl.ExtractedAll | pracuj_pl.py:119-148 | a page on which no card raises yields one dictionary per card |
| PracujPl.FormatDate | pracuj_pl.py:153 | definition of `strftime('%d-%m-%Y')` for four-digit years |
| PracujPl.FormatDateFields | pracuj_pl.py:153 | the scrape date is ten characters, with dashes at positions 2 and 5, and the digit runs read back as day, month and year |
| PracujPl.Stamped | pracuj_pl.py:152-153 | one row per dictionary, each carrying that dictionary and the one scrape date |
| PracujPl.ScrapeOffers | pracuj_pl.py:114-154 | the card loop returns the rows of the extracted prefix, all stamped with the day's date |
| PracujPl.PageRows | pracuj_pl.py:152-154 | definition of the table `scrapp_offers` returns for page `p`: the extracted dictionaries, each stamped with the day read on that page |
| PracujPl.OpenAndScrape | pracuj_pl.py:186-191 | one pass: without a cookie button on page 1 it fails having only opened the page; otherwise it logs the page's requests and returns its rows |
| PracujPl.Run | pracuj_pl.py:183-193 | with a cookie button, the table is page 1's rows followed by page 2's, and the driver's log grows by the requests of the two pages in order; without one, the run raises after opening page 1 |
| PracujPl.RunRows | pracuj_pl.py:192 | the run's table holds every row of page 1, then every row of page 2, each with its page's date |

## Left out

- Selenium, BeautifulSoup and HTML parsing. A page is given by what its `find` calls return. The `find` calls' CSS class names and XPath selectors are not modelled.
- `time.sleep` and the random delays. They do not affect the data.
- The URL built for each page. Requests are logged by page number only.
- Reading the configuration file, logging, deleting old logs, `send_email` and `to_excel`. These are I/O around the core.
- `master.py` and the remaining helpers under `utils/`, except the high-water mark logic of `read_previous_data`. These are not part of this model.
- Parsing the month table from JSON, and the table file missing. The month table is a parameter.
- The `print` of an invalid pracuj.pl date. Only its return value is modelled.
- Microseconds. Timestamps are whole seconds, and the praca.pl rounding drops the fraction exactly as `replace(microsecond=0)` does.
- Time zones. Instants are naive local time, as `datetime.now()` gives.
- PracaPl.ReadMaxPageNumber and PracaPl.LeadingInt: Python's `int()` also accepts `_` between digits and non-ASCII decimal digits. The model accepts only an optional sign and ASCII digits.
- Text.Lower: it lowers ASCII letters and the nine Polish capital letters. Other Unicode case mappings are not modelled.
- Frame.SortDesc: which of several equally dated rows comes first is unspecified, because pandas' default sort is not stable. The crawl's table is stated as a sorted permutation.
- PracujPl.FormatDate: years are restricted to 1000..9999. `strftime('%Y')` of earlier years is platform-dependent.
- PracaCrawl.CaughtUpWith: a page whose rows all lack a posting date never counts as caught up. In pandas, comparing a NaT maximum is false, but when every date is missing the column may not be a datetime column, and the comparison may raise instead. The model does not capture that raise.
- Missing posting dates in the sort: pandas puts NaT last by default, and the model places missing dates last.
- The praca.pl `finally` that quits the driver, and the pracuj.pl `driver.quit()`. They do not affect the result.

## Findings

| source | as written | input that shows it | evidently intended | confidence | as-written member | corrected member |
|---|---|---|---|---|---|---|
| praca_pl.py:227-228 | the new offers are the current rows whose key is not in the concatenation of old and current rows | any run with a non-empty stored table: every current row's key is in the concatenation, so no offer is ever reported as new. On praca.pl rows this shows only once the key column exists: as written, line 228 first raises on the missing `job_link` column (next row) | test the current rows against the old rows only | not executed | PracaStore.WarmAddedEmpty | PracaStore.ReconcileIntendedAdded |
| praca_pl.py:226-229 | the block selects the column `job_link`, but the praca.pl rows carry their link as `job_url` (line 153) | any run with a non-empty stored table of praca.pl rows: selecting `job_link` raises, so every warm start fails | key the reconciliation on `job_url` | not executed | PracaStore.WarmStartRaises | PracaStore.ReconcileByUrlFacts |
