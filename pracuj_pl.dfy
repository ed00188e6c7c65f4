/** The pracuj.pl scraper: absolute posting dates such as "15 marca 2024"
    rewritten as "15-03-2024" through a month table, the card loop that keeps
    the offers read before the first card that raises, and the fixed run over
    pages 1 and 2 of `main`. */
module PracujPl {
  import opened Wrappers
  import opened Text
  import opened Web

  /** One language of the month table: its name and its month names, in
      lower case, mapped to month numbers. */
  datatype Language = Language(name: string, months: map<string, string>)

  /** The parsed month table: language code to language. */
  type MonthMapping = map<string, Language>

  /** Why handling a card raised. */
  datatype CardError =
    | LookupRaised            // a `find` call raised
    | NoHref(field: string)   // `find("a")["href"]` on a link without `href`
    | NoLanguage              // the month table has no "pl" language

  /** The month number for the month name `m`: the name is looked up in lower
      case, and an unknown name gives "00". */
  function MonthNumber(months: map<string, string>, m: string): (num: string)
    ensures Lower(m) in months ==> num == months[Lower(m)]
    ensures Lower(m) !in months ==> num == "00"
  {
    GetOrDefault(months, Lower(m), "00")
  }

  /** `convert_date`: a text of exactly three whitespace-separated tokens
      "day month year" becomes "day-number-year"; any other text is returned
      as it is. Reading the "pl" language of a table without one raises. */
  function ConvertDate(s: string, mapping: MonthMapping): Result<string, CardError> {
    var parts := Split(s);
    if |parts| != 3 then Success(s)
    else if "pl" !in mapping then Failure(NoLanguage)
    else Success(parts[0] + "-" + MonthNumber(mapping["pl"].months, parts[1]) + "-" + parts[2])
  }

  predicate Token(t: string) {
    t != [] && NoSpace(t)
  }

  /** A text of three tokens "day month year" becomes day, month number and
      year joined by dashes; the month number comes from the "pl" table, "00"
      when the month is not in it. */
  lemma ConvertThree(s: string, d: string, m: string, y: string, mapping: MonthMapping)
    requires Split(s) == [d, m, y]
    requires "pl" in mapping
    ensures ConvertDate(s, mapping) == Success(d + "-" + MonthNumber(mapping["pl"].months, m) + "-" + y)
    ensures Lower(m) !in mapping["pl"].months ==> ConvertDate(s, mapping) == Success(d + "-" + "00" + "-" + y)
  {
  }

  /** Without a "pl" language, a three-token date makes the conversion raise. */
  lemma ConvertNoLanguage(s: string, mapping: MonthMapping)
    requires |Split(s)| == 3
    requires "pl" !in mapping
    ensures ConvertDate(s, mapping) == Failure(NoLanguage)
  {
  }

  /** Tokens joined by single spaces split back into the same tokens. */
  lemma JoinedTokens(ts: seq<string>)
    requires forall i :: 0 <= i < |ts| ==> Token(ts[i])
    ensures Split(Join(ts)) == ts
  {
    SplitJoin(ts);
  }

  /** A text of any other number of tokens is returned unchanged, whatever
      the month table holds. */
  lemma ConvertOtherCount(s: string, mapping: MonthMapping)
    requires |Split(s)| != 3
    ensures ConvertDate(s, mapping) == Success(s)
  {
  }

  /** In particular, tokens other than three joined by single spaces come
      back as they are. */
  lemma ConvertOtherCountJoined(ts: seq<string>, mapping: MonthMapping)
    requires forall i :: 0 <= i < |ts| ==> Token(ts[i])
    requires |ts| != 3
    ensures ConvertDate(Join(ts), mapping) == Success(Join(ts))
  {
    JoinedTokens(ts);
    ConvertOtherCount(Join(ts), mapping);
  }

  /** Lowering the characters of a token keeps it a token. */
  lemma LowerToken(m: string)
    requires Token(m)
    ensures Token(Lower(m))
  {
    forall i | 0 <= i < |m| ensures !IsSpace(Lower(m)[i]) {
      assert Lower(m)[i] == LowerChar(m[i]);
    }
  }

  /** A month name and its lower-case form get the same number. */
  lemma MonthCaseless(months: map<string, string>, m: string)
    ensures MonthNumber(months, Lower(m)) == MonthNumber(months, m)
  {
    LowerIdempotent(m);
  }

  /** Three tokens joined by spaces split back into the same three tokens. */
  lemma SplitThree(d: string, m: string, y: string)
    requires Token(d) && Token(m) && Token(y)
    ensures Split(Join([d, m, y])) == [d, m, y]
  {
    var ts := [d, m, y];
    assert forall i :: 0 <= i < |ts| ==> ts[i] == d || ts[i] == m || ts[i] == y;
    JoinedTokens(ts);
  }

  /** The month name is matched whatever its case: a date whose month is
      written in capitals converts as the same date with the month in lower
      case does. */
  lemma ConvertIgnoresCase(s: string, d: string, m: string, y: string, mapping: MonthMapping)
    requires Split(s) == [d, m, y]
    ensures ConvertDate(s, mapping) == ConvertDate(Join([d, Lower(m), y]), mapping)
  {
    var ts := Split(s);
    assert Token(ts[0]) && Token(ts[1]) && Token(ts[2]);
    var t := Join([d, Lower(m), y]);
    LowerToken(m);
    SplitThree(d, Lower(m), y);
    if "pl" in mapping {
      ConvertThree(s, d, m, y, mapping);
      ConvertThree(t, d, Lower(m), y, mapping);
      MonthCaseless(mapping["pl"].months, m);
    } else {
      ConvertNoLanguage(s, mapping);
      ConvertNoLanguage(t, mapping);
    }
  }

  lemma SplitLowerExample()
    ensures Split("15 marca 2024") == ["15", "marca", "2024"]
  {
    assert Join(["15", "marca", "2024"]) == "15 marca 2024";
    JoinedTokens(["15", "marca", "2024"]);
  }

  lemma SplitUpperExample()
    ensures Split("15 MARCA 2024") == ["15", "MARCA", "2024"]
  {
    assert Join(["15", "MARCA", "2024"]) == "15 MARCA 2024";
    JoinedTokens(["15", "MARCA", "2024"]);
  }

  lemma LowerMarch()
    ensures Lower("marca") == "marca"
  {
  }

  lemma UpperMarch()
    ensures Lower("MARCA") == "marca"
  {
  }

  /** A month name that lowers to "marca" is numbered "03" by a table holding
      just that month. */
  lemma MarchNumber(months: map<string, string>, m: string)
    requires months == map["marca" := "03"]
    requires Lower(m) == "marca"
    ensures MonthNumber(months, m) == "03"
  {
  }

  lemma DashedExample()
    ensures "15" + "-" + "03" + "-" + "2024" == "15-03-2024"
  {
  }

  /** With "marca" numbered "03", a date reading "15 marca 2024" (the
      tokens separated by any whitespace) becomes "15-03-2024". */
  lemma ConvertExample(s: string, mapping: MonthMapping)
    requires Split(s) == ["15", "marca", "2024"]
    requires "pl" in mapping && mapping["pl"].months == map["marca" := "03"]
    ensures ConvertDate(s, mapping) == Success("15-03-2024")
  {
    LowerMarch();
    MarchNumber(mapping["pl"].months, "marca");
    DashedExample();
  }

  /** The month written in capitals is found all the same: "15 MARCA 2024"
      becomes "15-03-2024" too. */
  lemma ConvertUpperExample(s: string, mapping: MonthMapping)
    requires Split(s) == ["15", "MARCA", "2024"]
    requires "pl" in mapping && mapping["pl"].months == map["marca" := "03"]
    ensures ConvertDate(s, mapping) == Success("15-03-2024")
  {
    UpperMarch();
    MarchNumber(mapping["pl"].months, "MARCA");
    DashedExample();
  }

  /** One `div[data-test=default-offer]`: the outcome of its five look-ups
      (title, company, region, salary and the "added" caption). */
  datatype Card = Card(title: Lookup, company: Lookup, region: Lookup, salary: Lookup, added: Lookup)

  /** The dictionary appended for one card. */
  datatype Listing = Listing(
    title: Option<string>, jobLink: Option<string>, company: Option<string>,
    companyLink: Option<string>, location: Option<string>, salary: Option<string>,
    datePosted: Option<string>)

  /** `tag.find("a")["href"] if tag and tag.find("a") else None`: indexing a
      link that has no `href` raises. */
  function Href(l: Lookup, field: string): Result<Option<string>, CardError> {
    match l
    case Raises => Failure(LookupRaised)
    case Missing => Success(None)
    case Found(e) =>
      match e.link
      case Raises => Failure(LookupRaised)
      case Missing => Success(None)
      case Found(a) => if "href" in a.attrs then Success(Some(a.attrs["href"])) else Failure(NoHref(field))
  }

  const Published: string := "Opublikowana: "

  /** The posting date of a card: missing without an "added" element,
      otherwise its text with every "Opublikowana: " removed, stripped and
      converted. */
  function PostedDate(l: Lookup, mapping: MonthMapping): Result<Option<string>, CardError> {
    match l
    case Raises => Failure(LookupRaised)
    case Missing => Success(None)
    case Found(e) =>
      match ConvertDate(Strip(RemoveAll(e.text, Published)), mapping)
      case Failure(err) => Failure(err)
      case Success(d) => Success(Some(d))
  }

  predicate FindRaised(c: Card) {
    c.title.Raises? || c.company.Raises? || c.region.Raises? || c.salary.Raises? || c.added.Raises?
  }

  /** One pass of the card loop's body: the card's dictionary, or the error
      that the first failing step raises. */
  function ExtractCard(c: Card, mapping: MonthMapping): Result<Listing, CardError> {
    if FindRaised(c) then Failure(LookupRaised)
    else
      match Href(c.title, "job_link")
      case Failure(e) => Failure(e)
      case Success(jobLink) =>
        match Href(c.company, "company_link")
        case Failure(e) => Failure(e)
        case Success(companyLink) =>
          match PostedDate(c.added, mapping)
          case Failure(e) => Failure(e)
          case Success(posted) =>
            Success(Listing(StrippedText(c.title), jobLink, StrippedText(c.company), companyLink,
                            StrippedText(c.region), StrippedText(c.salary), posted))
  }

  /** A link look-up under a found element raises, or finds a link without
      `href`. */
  predicate LinkRaises(l: Lookup) {
    l.Found? && (l.element.link.Raises? || (l.element.link.Found? && "href" !in l.element.link.element.attrs))
  }

  /** A card raises exactly when a look-up raises, the title's or the
      company's link lacks `href`, or its date has three tokens and the month
      table has no "pl" language. */
  lemma CardRaises(c: Card, mapping: MonthMapping)
    ensures ExtractCard(c, mapping).Failure? <==>
      || FindRaised(c)
      || LinkRaises(c.title) || LinkRaises(c.company)
      || (c.added.Found? && |Split(Strip(RemoveAll(c.added.element.text, Published)))| == 3 && "pl" !in mapping)
  {
  }

  /** A card's dictionary is built from its texts, its two links and its
      posting date. */
  lemma ExtractedParts(c: Card, mapping: MonthMapping)
    requires ExtractCard(c, mapping).Success?
    ensures !FindRaised(c)
    ensures Href(c.title, "job_link").Success? && Href(c.company, "company_link").Success?
    ensures PostedDate(c.added, mapping).Success?
    ensures ExtractCard(c, mapping).value ==
      Listing(StrippedText(c.title), Href(c.title, "job_link").value, StrippedText(c.company),
              Href(c.company, "company_link").value, StrippedText(c.region), StrippedText(c.salary),
              PostedDate(c.added, mapping).value)
  {
  }

  /** A link that did not raise is missing exactly when the element or its
      link is, and is otherwise the link's `href`. */
  lemma HrefFound(l: Lookup, field: string)
    requires Href(l, field).Success?
    ensures Href(l, field).value.None? <==> l.Missing? || (l.Found? && l.element.link.Missing?)
    ensures Href(l, field).value.Some? ==>
      && l.Found? && l.element.link.Found? && "href" in l.element.link.element.attrs
      && Href(l, field).value.value == l.element.link.element.attrs["href"]
  {
  }

  /** A posting date that did not raise is missing exactly when the caption
      is, and is otherwise the converted caption text. */
  lemma PostedDateFound(l: Lookup, mapping: MonthMapping)
    requires PostedDate(l, mapping).Success?
    ensures PostedDate(l, mapping).value.None? <==> l.Missing?
    ensures l.Found? ==>
      && ConvertDate(Strip(RemoveAll(l.element.text, Published)), mapping).Success?
      && PostedDate(l, mapping).value == Some(ConvertDate(Strip(RemoveAll(l.element.text, Published)), mapping).value)
  {
  }

  /** Each field of a card's dictionary: the stripped text of the element
      it comes from, the `href` of the title's and the company's link, and
      the converted caption; each is missing exactly when its element (or
      link) is. */
  lemma ListingFields(c: Card, mapping: MonthMapping)
    requires ExtractCard(c, mapping).Success?
    ensures var o := ExtractCard(c, mapping).value;
      && (o.title.None? <==> c.title.Missing?)
      && (c.title.Found? ==> o.title == Some(Strip(c.title.element.text)))
      && (o.jobLink.None? <==> c.title.Missing? || (c.title.Found? && c.title.element.link.Missing?))
      && (o.jobLink.Some? ==>
            && c.title.Found? && c.title.element.link.Found? && "href" in c.title.element.link.element.attrs
            && o.jobLink.value == c.title.element.link.element.attrs["href"])
      && (o.company.None? <==> c.company.Missing?)
      && (c.company.Found? ==> o.company == Some(Strip(c.company.element.text)))
      && (o.companyLink.None? <==> c.company.Missing? || (c.company.Found? && c.company.element.link.Missing?))
      && (o.companyLink.Some? ==>
            && c.company.Found? && c.company.element.link.Found? && "href" in c.company.element.link.element.attrs
            && o.companyLink.value == c.company.element.link.element.attrs["href"])
      && (o.location.None? <==> c.region.Missing?)
      && (c.region.Found? ==> o.location == Some(Strip(c.region.element.text)))
      && (o.salary.None? <==> c.salary.Missing?)
      && (c.salary.Found? ==> o.salary == Some(Strip(c.salary.element.text)))
      && (o.datePosted.None? <==> c.added.Missing?)
      && (c.added.Found? ==>
            && ConvertDate(Strip(RemoveAll(c.added.element.text, Published)), mapping).Success?
            && o.datePosted == Some(ConvertDate(Strip(RemoveAll(c.added.element.text, Published)), mapping).value))
  {
    ExtractedParts(c, mapping);
    HrefFound(c.title, "job_link");
    HrefFound(c.company, "company_link");
    PostedDateFound(c.added, mapping);
  }

  /** A caption "Opublikowana: " followed by a date text (itself free of
      that prefix and of surrounding whitespace) is dated by converting the
      date text. */
  lemma PublishedCaption(t: string, attrs: map<string, string>, link: Lookup, mapping: MonthMapping)
    requires !Contains(t, Published)
    requires t == [] || (!IsSpace(t[0]) && !IsSpace(t[|t| - 1]))
    requires ConvertDate(t, mapping).Success?
    ensures PostedDate(Found(Element(Published + t, attrs, link)), mapping) == Success(Some(ConvertDate(t, mapping).value))
  {
    RemoveAllLeading(Published, t);
    RemoveAllAbsent(t, Published);
    StripUnpadded(t);
  }

  /** The values `f` gives the items before the first item on which it
      fails: what a loop over the items inside one `try` collects. */
  function Leading<C, O, E>(items: seq<C>, f: C -> Result<O, E>): seq<O> {
    if items == [] then []
    else match f(items[0])
      case Failure(_) => []
      case Success(o) => [o] + Leading(items[1..], f)
  }

  /** The collected values are those of a prefix of the items, one per item
      in item order, and the prefix ends only at the end of the items or at
      an item on which `f` fails. */
  lemma {:induction false} LeadingPrefix<C, O, E>(items: seq<C>, f: C -> Result<O, E>)
    ensures var e := Leading(items, f);
      && |e| <= |items|
      && (forall i :: 0 <= i < |e| ==> f(items[i]) == Success(e[i]))
      && (|e| < |items| ==> f(items[|e|]).Failure?)
    decreases |items|
  {
    if items != [] && f(items[0]).Success? {
      LeadingPrefix(items[1..], f);
      var e := Leading(items, f);
      forall i | 1 <= i < |e| ensures f(items[i]) == Success(e[i]) {
        assert items[i] == items[1..][i - 1];
      }
    }
  }

  /** What the loop still collects from item `i` on. */
  lemma LeadingFrom<C, O, E>(items: seq<C>, i: int, f: C -> Result<O, E>)
    requires 0 <= i <= |items|
    ensures i == |items| ==> Leading(items[i..], f) == []
    ensures i < |items| && f(items[i]).Failure? ==> Leading(items[i..], f) == []
    ensures i < |items| && f(items[i]).Success? ==>
      Leading(items[i..], f) == [f(items[i]).value] + Leading(items[i + 1..], f)
  {
    if i < |items| {
      assert items[i..][1..] == items[i + 1..];
    }
  }

  /** A loop over the items inside one `try`: the first item on which `f`
      fails ends the loop, and the values gathered so far are kept. */
  method CollectLeading<C, O, E>(items: seq<C>, f: C -> Result<O, E>) returns (out: seq<O>)
    ensures out == Leading(items, f)
  {
    out := [];
    var i := 0;
    while i < |items|
      invariant 0 <= i <= |items|
      invariant out + Leading(items[i..], f) == Leading(items, f)
    {
      var o := f(items[i]);
      LeadingFrom(items, i, f);
      if o.Failure? {
        break;
      }
      out := out + [o.value];
      i := i + 1;
    }
    LeadingFrom(items, i, f);
  }

  /** The card loop's body as a function of the card. */
  function Extractor(mapping: MonthMapping): Card -> Result<Listing, CardError> {
    c => ExtractCard(c, mapping)
  }

  /** The dictionaries the one `try` around the card loop collects: those of
      the cards before the first card that raises. */
  function Extracted(cards: seq<Card>, mapping: MonthMapping): seq<Listing> {
    Leading(cards, Extractor(mapping))
  }

  /** The collected dictionaries are those of a prefix of the cards, one per
      card in card order, and the prefix ends only at the end of the page or
      at a card that raises. */
  lemma ExtractedPrefix(cards: seq<Card>, mapping: MonthMapping)
    ensures var e := Extracted(cards, mapping);
      && |e| <= |cards|
      && (forall i :: 0 <= i < |e| ==> ExtractCard(cards[i], mapping) == Success(e[i]))
      && (|e| < |cards| ==> ExtractCard(cards[|e|], mapping).Failure?)
  {
    LeadingPrefix(cards, Extractor(mapping));
  }

  /** A page on which no card raises yields one dictionary per card. */
  lemma ExtractedAll(cards: seq<Card>, mapping: MonthMapping)
    requires forall i :: 0 <= i < |cards| ==> ExtractCard(cards[i], mapping).Success?
    ensures |Extracted(cards, mapping)| == |cards|
    ensures forall i :: 0 <= i < |cards| ==> Extracted(cards, mapping)[i] == ExtractCard(cards[i], mapping).value
  {
    ExtractedPrefix(cards, mapping);
  }

  /** A calendar day as `datetime.now()` reads it; years have four digits. */
  datatype CivilDate = CivilDate(day: int, month: int, year: int)

  type Today = d: CivilDate | 1 <= d.day <= 31 && 1 <= d.month <= 12 && 1000 <= d.year <= 9999
    witness CivilDate(1, 1, 1000)

  function Pad2(n: int): (s: string)
    requires 0 <= n < 100
  {
    [Digit(n / 10), Digit(n % 10)]
  }

  /** `strftime('%d-%m-%Y')`. */
  function FormatDate(d: Today): string {
    Pad2(d.day) + "-" + Pad2(d.month) + "-" + ShowNat(d.year)
  }

  lemma {:induction false} ShowFourDigits(n: nat)
    requires 1000 <= n <= 9999
    ensures |ShowNat(n)| == 4
  {
    assert ShowNat(n / 1000) == [Digit(n / 1000)];
    assert |ShowNat(n / 100)| == 2;
    assert |ShowNat(n / 10)| == 3;
  }

  lemma Pad2Value(n: int)
    requires 0 <= n < 100
    ensures AllDigits(Pad2(n)) && DigitsValue(Pad2(n)) == n
  {
    var s := Pad2(n);
    assert s[..1] == [Digit(n / 10)];
    assert s[..1][..0] == [];
    assert DigitsValue(s[..1]) == n / 10;
    assert DigitsValue(s) == (n / 10) * 10 + n % 10;
  }

  /** The scrape date reads back as the day it was taken: ten characters,
      dashes at 2 and 5, and the day, month and year in the digit runs. */
  lemma FormatDateFields(d: Today)
    ensures var s := FormatDate(d);
      && |s| == 10 && s[2] == '-' && s[5] == '-'
      && AllDigits(s[..2]) && DigitsValue(s[..2]) == d.day
      && AllDigits(s[3..5]) && DigitsValue(s[3..5]) == d.month
      && AllDigits(s[6..]) && DigitsValue(s[6..]) == d.year
  {
    var s := FormatDate(d);
    ShowFourDigits(d.year);
    Pad2Value(d.day);
    Pad2Value(d.month);
    DigitsValueOfShow(d.year);
    assert s[..2] == Pad2(d.day);
    assert s[3..5] == Pad2(d.month);
    assert s[6..] == ShowNat(d.year);
  }

  /** A row of the page's table: the card's dictionary and the scrape date. */
  datatype Row = Row(listing: Listing, dateScraped: string)

  /** `df['date_scraped'] = date`: the one date is written on every row. */
  function Stamped(listings: seq<Listing>, date: string): (rows: seq<Row>)
    ensures |rows| == |listings|
    ensures forall i :: 0 <= i < |rows| ==> rows[i] == Row(listings[i], date)
  {
    if listings == [] then [] else [Row(listings[0], date)] + Stamped(listings[1..], date)
  }

  /** `scrapp_offers`: the card loop inside one `try`, so that the first card
      that raises ends the loop and the dictionaries gathered so far are kept;
      every row then gets the date of `today`. */
  method ScrapeOffers(cards: seq<Card>, mapping: MonthMapping, today: Today) returns (rows: seq<Row>)
    ensures rows == Stamped(Extracted(cards, mapping), FormatDate(today))
    ensures forall i :: 0 <= i < |rows| ==> rows[i].dateScraped == FormatDate(today)
  {
    var offers := CollectLeading(cards, Extractor(mapping));
    rows := Stamped(offers, FormatDate(today));
  }

  /** What the browser shows at one page number: whether the cookie
      banner's button is there, and the offer cards. */
  datatype PracujPage = PracujPage(cookieButton: bool, cards: seq<Card>)

  /** The portal as the run sees it: the page at each page number and the
      day read when that page is scraped. */
  datatype Portal = Portal(pages: nat -> PracujPage, clock: nat -> Today)

  /** Why a run raised: `click_cookie_button` found no button on page 1. */
  datatype RunError = NoCookieButton

  /** The rows `scrapp_offers` returns for page `p`. */
  function PageRows(portal: Portal, p: nat, mapping: MonthMapping): seq<Row> {
    Stamped(Extracted(portal.pages(p).cards, mapping), FormatDate(portal.clock(p)))
  }

  /** The driver requests for page `p`: it is opened, page 1's cookie banner
      is accepted, and its offers are read. */
  function Visit(p: nat): seq<Action> {
    if p == 1 then [Navigate(1), ClickCookies, Scrape(1)] else [Navigate(p), Scrape(p)]
  }

  /** One pass of the loop body: open page `i`, accept the cookie banner on
      page 1, which fails when there is no button, and scrape the page. */
  method OpenAndScrape(portal: Portal, mapping: MonthMapping, i: nat, driver: Driver) returns (rows: Option<seq<Row>>)
    modifies driver
    ensures i == 1 && !portal.pages(1).cookieButton ==>
      rows.None? && driver.log == old(driver.log) + [Navigate(1)]
    ensures !(i == 1 && !portal.pages(1).cookieButton) ==>
      rows == Some(PageRows(portal, i, mapping)) && driver.log == old(driver.log) + Visit(i)
  {
    driver.Request(Navigate(i));
    var shown := portal.pages(i);
    if i == 1 {
      if !shown.cookieButton {
        return None;
      }
      driver.Request(ClickCookies);
    }
    driver.Request(Scrape(i));
    var offers := ScrapeOffers(shown.cards, mapping, portal.clock(i));
    rows := Some(offers);
  }

  /** The `for i in range(1, 3)` loop of `main`: pages 1 and 2 are opened in
      turn, the cookie banner is accepted on page 1 only, and the pages' rows
      are concatenated in page order, with no deduplication. The driver's
      log grows by the requests the run makes. */
  method Run(portal: Portal, mapping: MonthMapping, driver: Driver) returns (r: Result<seq<Row>, RunError>)
    modifies driver
    ensures portal.pages(1).cookieButton ==>
      && r == Success(PageRows(portal, 1, mapping) + PageRows(portal, 2, mapping))
      && driver.log == old(driver.log) + [Navigate(1), ClickCookies, Scrape(1), Navigate(2), Scrape(2)]
    ensures !portal.pages(1).cookieButton ==>
      r == Failure(NoCookieButton) && driver.log == old(driver.log) + [Navigate(1)]
  {
    ghost var start := driver.log;
    var df: seq<Row> := [];
    for i := 1 to 3
      invariant i == 1 ==> df == [] && driver.log == start
      invariant i >= 2 ==> portal.pages(1).cookieButton
      invariant i == 2 ==> df == PageRows(portal, 1, mapping) && driver.log == start + Visit(1)
      invariant i == 3 ==> df == PageRows(portal, 1, mapping) + PageRows(portal, 2, mapping)
                           && driver.log == start + Visit(1) + Visit(2)
    {
      var rows := OpenAndScrape(portal, mapping, i, driver);
      if rows.None? {
        return Failure(NoCookieButton);
      }
      df := df + rows.value;
    }
    assert Visit(1) + Visit(2) == [Navigate(1), ClickCookies, Scrape(1), Navigate(2), Scrape(2)];
    r := Success(df);
  }

  /** The run's table holds first every row of page 1, then every row of
      page 2: as many rows as the two pages gave, all of them dated. */
  lemma RunRows(portal: Portal, mapping: MonthMapping)
    ensures var rows := PageRows(portal, 1, mapping) + PageRows(portal, 2, mapping);
      && |rows| == |Extracted(portal.pages(1).cards, mapping)| + |Extracted(portal.pages(2).cards, mapping)|
      && (forall i :: 0 <= i < |PageRows(portal, 1, mapping)| ==>
            rows[i] == Row(Extracted(portal.pages(1).cards, mapping)[i], FormatDate(portal.clock(1))))
      && (forall i :: |PageRows(portal, 1, mapping)| <= i < |rows| ==>
            rows[i] == Row(Extracted(portal.pages(2).cards, mapping)[i - |PageRows(portal, 1, mapping)|],
                           FormatDate(portal.clock(2))))
  {
  }
}
