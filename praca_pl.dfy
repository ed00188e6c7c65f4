/** The praca.pl scraper's page-level logic: turning the site's relative
    "posted" labels into timestamps, reading the last page number from the
    pagination bar, and turning the listing cards of one rendered page into
    offer records. */
module PracaPl {
  import opened Wrappers
  import opened Text
  import opened Web

  /** `datetime.min` and the last whole second before `datetime.max`, in
      seconds from 1970-01-01 00:00:00 (naive local time). */
  const MinInstant := -62135596800
  const MaxInstant := 253402300799

  /** A naive `datetime`, to the second. */
  type Instant = t: int | MinInstant <= t <= MaxInstant witness 0

  /** `t.replace(minute=0, second=0, microsecond=0)`. */
  function HourStart(t: Instant): (r: Instant)
    ensures r % 3600 == 0 && r <= t < r + 3600
  {
    t - t % 3600
  }

  /** `t.replace(hour=0, minute=0, second=0, microsecond=0)`. */
  function DayStart(t: Instant): (r: Instant)
    ensures r % 86400 == 0 && r <= t < r + 86400
  {
    t - t % 86400
  }

  /** Why `convert_date` raised. */
  datatype DateError =
    | NoLabel                  // the card had no "posted" element: `'godz.' in None`
    | NoLeadingWord            // `split()[0]` of a blank caption
    | NotAnInteger(word: string)
    | OutOfRange(seconds: int) // the subtraction left the `datetime` range

  datatype Unit = Hours | Days

  function UnitSeconds(u: Unit, n: int): int {
    match u
    case Hours => n * 3600
    case Days => n * 86400
  }

  /** `int(caption.split()[0])`. */
  function LeadingInt(caption: string): Result<int, DateError> {
    var words := Split(caption);
    if words == [] then Failure(NoLeadingWord)
    else match ParseInt(words[0])
      case None => Failure(NotAnInteger(words[0]))
      case Some(n) => Success(n)
  }

  /** `base - timedelta(<unit>=N)` once the count N has been read. */
  function Before(count: Result<int, DateError>, base: Instant, u: Unit): Result<Option<Instant>, DateError> {
    match count
    case Failure(e) => Failure(e)
    case Success(n) =>
      var t := base - UnitSeconds(u, n);
      if MinInstant <= t <= MaxInstant then Success(Some(t)) else Failure(OutOfRange(t))
  }

  /** `convert_date(date_str, now)`: "N godz." is N hours before the start of
      the current hour, otherwise "N dni" is N days before midnight, and any
      other caption has no date. */
  function ConvertDate(caption: Option<string>, now: Instant): Result<Option<Instant>, DateError> {
    match caption
    case None => Failure(NoLabel)
    case Some(s) =>
      if Contains(s, "godz.") then Before(LeadingInt(s), HourStart(now), Hours)
      else if Contains(s, "dni") then Before(LeadingInt(s), DayStart(now), Days)
      else Success(None)
  }

  lemma HourAligned(base: int, n: int)
    requires base % 3600 == 0
    ensures (base - n * 3600) % 3600 == 0
  {
  }

  lemma DayAligned(base: int, n: int)
    requires base % 86400 == 0
    ensures (base - n * 86400) % 86400 == 0
  {
  }

  /** `r` is the instant, on a boundary of `unit` seconds, that starts the
      unit in which `now - n` units falls, or the failure to represent it as
      a `datetime`. */
  ghost predicate CountedBack(r: Result<Option<Instant>, DateError>, now: int, n: int, unit: int) {
    && unit > 0
    && (r.Success? ==> r.value.Some? && r.value.value % unit == 0
                       && r.value.value <= now - n * unit < r.value.value + unit)
    && (r.Failure? ==> r.error.OutOfRange? && r.error.seconds % unit == 0
                       && r.error.seconds <= now - n * unit < r.error.seconds + unit
                       && !(MinInstant <= r.error.seconds <= MaxInstant))
  }

  /** Only one instant satisfies `CountedBack`, hour by hour and day by
      day. */
  lemma HourUnique(r: Result<Option<Instant>, DateError>, now: int, n: int, t: Instant)
    requires CountedBack(r, now, n, 3600)
    requires t % 3600 == 0 && t <= now - n * 3600 < t + 3600
    ensures r == Success(Some(t))
  {
  }

  lemma DayUnique(r: Result<Option<Instant>, DateError>, now: int, n: int, t: Instant)
    requires CountedBack(r, now, n, 86400)
    requires t % 86400 == 0 && t <= now - n * 86400 < t + 86400
    ensures r == Success(Some(t))
  {
  }

  lemma HoursBefore(now: Instant, n: int)
    ensures CountedBack(Before(Success(n), HourStart(now), Hours), now, n, 3600)
  {
    HourAligned(HourStart(now), n);
  }

  lemma DaysBefore(now: Instant, n: int)
    ensures CountedBack(Before(Success(n), DayStart(now), Days), now, n, 86400)
  {
    DayAligned(DayStart(now), n);
  }

  /** A caption reading "N godz." (whatever else it says) dates the offer at
      the whole hour in which `now - N hours` falls; when that hour lies
      outside the `datetime` range the conversion fails. */
  lemma {:induction false} HoursAgo(s: string, now: Instant, n: int)
    requires Contains(s, "godz.")
    requires LeadingInt(s) == Success(n)
    ensures CountedBack(ConvertDate(Some(s), now), now, n, 3600)
  {
    assert ConvertDate(Some(s), now) == Before(Success(n), HourStart(now), Hours);
    HoursBefore(now, n);
  }

  /** A caption reading "N dni" and not "godz." dates the offer at midnight of
      the day N days before today. */
  lemma {:induction false} DaysAgo(s: string, now: Instant, n: int)
    requires !Contains(s, "godz.") && Contains(s, "dni")
    requires LeadingInt(s) == Success(n)
    ensures CountedBack(ConvertDate(Some(s), now), now, n, 86400)
  {
    assert ConvertDate(Some(s), now) == Before(Success(n), DayStart(now), Days);
    DaysBefore(now, n);
  }

  /** A caption with a count that is not a whole number makes the conversion
      fail, whichever unit it names. */
  lemma NotACount(s: string, now: Instant)
    requires Contains(s, "godz.") || Contains(s, "dni")
    requires LeadingInt(s).Failure?
    ensures ConvertDate(Some(s), now) == Failure(LeadingInt(s).error)
  {
  }

  /** A caption naming neither hours nor days carries no date, and a card
      without a caption fails the conversion. */
  lemma NoUnit(s: string, now: Instant)
    requires !Contains(s, "godz.") && !Contains(s, "dni")
    ensures ConvertDate(Some(s), now) == Success(None)
    ensures ConvertDate(None, now) == Failure(NoLabel)
  {
  }

  /** With a non-negative count the posting date is never after `now`. */
  lemma {:induction false} NotAfterNow(s: string, now: Instant, n: int)
    requires LeadingInt(s) == Success(n) && n >= 0
    requires ConvertDate(Some(s), now).Success?
    ensures var d := ConvertDate(Some(s), now).value; d.Some? ==> d.value <= now
  {
    if Contains(s, "godz.") {
      HoursAgo(s, now, n);
    } else if Contains(s, "dni") {
      DaysAgo(s, now, n);
    }
  }

  /** The count printed at the head of a caption is the count read. */
  lemma LeadingShow(n: int, tail: string)
    requires tail != [] && !IsSpace(tail[0])
    ensures LeadingInt(ShowInt(n) + [' '] + tail) == Success(n)
  {
    SplitShow(n, tail);
    ParseIntShow(n);
  }

  /** A caption "<N> godz. ..." dates the offer N hours before the start of
      the current hour. */
  lemma HoursCaption(n: int, tail: string, now: Instant)
    requires tail != [] && !IsSpace(tail[0]) && Contains(tail, "godz.")
    ensures CountedBack(ConvertDate(Some(ShowInt(n) + [' '] + tail), now), now, n, 3600)
  {
    var w := ShowInt(n);
    var s := w + [' '] + tail;
    LeadingShow(n, tail);
    assert Contains(s, "godz.") by {
      assert s == (w + [' ']) + tail;
      ContainsExtend(w + [' '], tail, "godz.");
    }
    HoursAgo(s, now, n);
  }

  /** A caption "<N> dni ..." that does not mention hours dates the offer N
      days before midnight. */
  lemma DaysCaption(n: int, tail: string, now: Instant)
    requires tail != [] && !IsSpace(tail[0]) && Contains(tail, "dni")
    requires !Contains(ShowInt(n) + [' '] + tail, "godz.")
    ensures CountedBack(ConvertDate(Some(ShowInt(n) + [' '] + tail), now), now, n, 86400)
  {
    var w := ShowInt(n);
    var s := w + [' '] + tail;
    LeadingShow(n, tail);
    assert Contains(s, "dni") by {
      assert s == (w + [' ']) + tail;
      ContainsExtend(w + [' '], tail, "dni");
    }
    DaysAgo(s, now, n);
  }

  /** At 2024-03-15 14:37:00 a caption such as "3 godz. temu" becomes
      2024-03-15 11:00:00, and one such as "2 dni temu" becomes
      2024-03-13 00:00:00. */
  lemma ExampleHours(tail: string)
    requires tail != [] && !IsSpace(tail[0]) && Contains(tail, "godz.")
    ensures ConvertDate(Some(ShowInt(3) + [' '] + tail), 1710513420) == Success(Some(1710500400))
  {
    HoursCaption(3, tail, 1710513420);
    HourUnique(ConvertDate(Some(ShowInt(3) + [' '] + tail), 1710513420), 1710513420, 3, 1710500400);
  }

  lemma ExampleDays(tail: string)
    requires tail != [] && !IsSpace(tail[0]) && Contains(tail, "dni")
    requires !Contains(ShowInt(2) + [' '] + tail, "godz.")
    ensures ConvertDate(Some(ShowInt(2) + [' '] + tail), 1710513420) == Success(Some(1710288000))
  {
    DaysCaption(2, tail, 1710513420);
    DayUnique(ConvertDate(Some(ShowInt(2) + [' '] + tail), 1710513420), 1710513420, 2, 1710288000);
  }

  /** `read_max_page_number`: the number shown on the "last page" link, or 1
      when the pagination has no such link; a link whose text is not a whole
      number makes it fail. */
  function ReadMaxPageNumber(lastLink: Option<string>): (r: Result<int, string>)
    ensures lastLink.None? ==> r == Success(1)
    ensures lastLink.Some? ==> (r.Success? <==> ParseInt(lastLink.value).Some?)
    ensures lastLink.Some? && r.Success? ==> r.value == ParseInt(lastLink.value).value
    ensures lastLink.Some? && r.Failure? ==> r.error == lastLink.value
  {
    match lastLink
    case None => Success(1)
    case Some(text) =>
      match ParseInt(text)
      case None => Failure(text)
      case Some(n) => Success(n)
  }

  /** The number printed on the link, surrounded by any whitespace, is the
      number read back. */
  lemma MaxPageRoundTrip(a: string, n: int, b: string)
    requires AllSpace(a) && AllSpace(b)
    ensures ReadMaxPageNumber(Some(a + ShowInt(n) + b)) == Success(n)
  {
    ParseIntOfShow(a, n, b);
  }

  /** One `li.listing__item`: the outcome of each of its eight look-ups. */
  datatype Card = Card(
    title: Lookup, company: Lookup, location: Lookup, workModel: Lookup,
    details: Lookup, posted: Lookup, teaser: Lookup, logo: Lookup)

  /** The dictionary built from one card, before its date is converted. */
  datatype RawOffer = RawOffer(
    jobTitle: Option<string>, jobId: Option<string>, jobUrl: Option<string>,
    company: Option<string>, location: Option<string>, workModel: Option<string>,
    details: Option<string>, datePosted: Option<string>, description: Option<string>,
    logoUrl: Option<string>)

  /** A row of the page's table: the card's fields with the converted posting
      date and the moment of scraping. */
  datatype Offer = Offer(
    jobTitle: Option<string>, jobId: Option<string>, jobUrl: Option<string>,
    company: Option<string>, location: Option<string>, workModel: Option<string>,
    details: Option<string>, datePosted: Option<Instant>, description: Option<string>,
    logoUrl: Option<string>, dateScraped: Instant)

  predicate LookupRaised(c: Card) {
    c.title.Raises? || c.company.Raises? || c.location.Raises? || c.workModel.Raises?
    || c.details.Raises? || c.posted.Raises? || c.teaser.Raises? || c.logo.Raises?
  }

  /** The body of the per-card `try`: the card's dictionary, or nothing when
      a look-up raised and the card is logged and skipped. */
  function ExtractCard(c: Card): (r: Option<RawOffer>)
    ensures r.None? <==> LookupRaised(c)
  {
    if LookupRaised(c) then None
    else Some(RawOffer(
      StrippedText(c.title), Attribute(c.title, "data-id"), Attribute(c.title, "href"),
      StrippedText(c.company), StrippedText(c.location), StrippedText(c.workModel),
      StrippedText(c.details), StrippedText(c.posted), StrippedText(c.teaser),
      Attribute(c.logo, "src")))
  }

  /** Each text field of an extracted card is missing exactly when its
      element is, and is otherwise the element's text without surrounding
      whitespace. */
  lemma CardTexts(c: Card)
    requires !LookupRaised(c)
    ensures var o := ExtractCard(c).value;
      && (o.jobTitle.None? <==> c.title.Missing?)
      && (c.title.Found? ==> o.jobTitle == Some(Strip(c.title.element.text)))
      && (o.company.None? <==> c.company.Missing?)
      && (c.company.Found? ==> o.company == Some(Strip(c.company.element.text)))
      && (o.location.None? <==> c.location.Missing?)
      && (c.location.Found? ==> o.location == Some(Strip(c.location.element.text)))
      && (o.workModel.None? <==> c.workModel.Missing?)
      && (c.workModel.Found? ==> o.workModel == Some(Strip(c.workModel.element.text)))
      && (o.details.None? <==> c.details.Missing?)
      && (c.details.Found? ==> o.details == Some(Strip(c.details.element.text)))
      && (o.datePosted.None? <==> c.posted.Missing?)
      && (c.posted.Found? ==> o.datePosted == Some(Strip(c.posted.element.text)))
      && (o.description.None? <==> c.teaser.Missing?)
      && (c.teaser.Found? ==> o.description == Some(Strip(c.teaser.element.text)))
  {
  }

  /** Each attribute field of an extracted card is present exactly when its
      element is there and carries the attribute, and is then the
      attribute's value: `job_id` and `job_url` are the title's `data-id` and
      `href`, `logo_url` the logo's `src`. */
  lemma CardAttributes(c: Card)
    requires !LookupRaised(c)
    ensures var o := ExtractCard(c).value;
      && (o.jobId.Some? <==> c.title.Found? && "data-id" in c.title.element.attrs)
      && (c.title.Found? && "data-id" in c.title.element.attrs ==> o.jobId == Some(c.title.element.attrs["data-id"]))
      && (o.jobUrl.Some? <==> c.title.Found? && "href" in c.title.element.attrs)
      && (c.title.Found? && "href" in c.title.element.attrs ==> o.jobUrl == Some(c.title.element.attrs["href"]))
      && (o.logoUrl.Some? <==> c.logo.Found? && "src" in c.logo.element.attrs)
      && (c.logo.Found? && "src" in c.logo.element.attrs ==> o.logoUrl == Some(c.logo.element.attrs["src"]))
  {
  }

  /** The results of a per-item `try` over `items`, in item order: the value
      `f` gives each item, skipping items on which it gives nothing. */
  function Kept<C, O>(items: seq<C>, f: C -> Option<O>): seq<O> {
    if items == [] then []
    else
      var last := f(items[|items| - 1]);
      Kept(items[..|items| - 1], f) + (if last.Some? then [last.value] else [])
  }

  lemma {:induction false} KeptAppend<C, O>(a: seq<C>, b: seq<C>, f: C -> Option<O>)
    ensures Kept(a + b, f) == Kept(a, f) + Kept(b, f)
    decreases |b|
  {
    if b != [] {
      var b' := b[..|b| - 1];
      assert (a + b)[..|a + b| - 1] == a + b';
      assert (a + b)[|a + b| - 1] == b[|b| - 1];
      KeptAppend(a, b', f);
    } else {
      assert a + b == a;
    }
  }

  lemma {:induction false} KeptLength<C, O>(items: seq<C>, f: C -> Option<O>)
    ensures |Kept(items, f)| <= |items|
    decreases |items|
  {
    if items != [] {
      KeptLength(items[..|items| - 1], f);
    }
  }

  /** Every kept value is that of some item: the item at index `i`. */
  lemma {:induction false} KeptSound<C, O>(items: seq<C>, f: C -> Option<O>, o: O) returns (i: int)
    requires o in Kept(items, f)
    ensures 0 <= i < |items| && f(items[i]) == Some(o)
    decreases |items|
  {
    var init := items[..|items| - 1];
    if o in Kept(init, f) {
      i := KeptSound(init, f, o);
      assert items[i] == init[i];
    } else {
      i := |items| - 1;
    }
  }

  /** The value of every item that gives one is kept. */
  lemma KeptComplete<C, O>(items: seq<C>, f: C -> Option<O>, i: int)
    requires 0 <= i < |items| && f(items[i]).Some?
    ensures f(items[i]).value in Kept(items, f)
  {
    var before, c, after := items[..i], items[i], items[i + 1..];
    assert items == before + [c] + after;
    KeptAppend(before + [c], after, f);
    KeptAppend(before, [c], f);
    assert [c][..0] == [];
    var mid := Kept(before, f) + Kept([c], f);
    assert mid[|Kept(before, f)|] == f(c).value;
  }

  /** The dictionaries the card loop collects from `cards`, in card order. */
  function Collected(cards: seq<Card>): seq<RawOffer> {
    Kept(cards, ExtractCard)
  }

  /** Cards are handled independently: what a run of cards yields does not
      depend on the cards before or after it. */
  lemma CollectedAppend(a: seq<Card>, b: seq<Card>)
    ensures Collected(a + b) == Collected(a) + Collected(b)
  {
    KeptAppend(a, b, ExtractCard);
  }

  /** A card yields one dictionary, or none when a look-up raised. */
  lemma CollectedOne(c: Card)
    ensures Collected([c]) == if LookupRaised(c) then [] else [ExtractCard(c).value]
  {
    assert [c][..0] == [] && [c][0] == c;
    var o := ExtractCard(c);
    assert Kept([c], ExtractCard) == Kept([], ExtractCard) + (if o.Some? then [o.value] else []);
  }

  /** The loop keeps at most one dictionary per card, and every kept one comes
      from a card whose look-ups all succeeded; every such card's is kept. */
  lemma CollectedFacts(cards: seq<Card>)
    ensures |Collected(cards)| <= |cards|
    ensures forall o :: o in Collected(cards) <==>
      exists i :: 0 <= i < |cards| && ExtractCard(cards[i]) == Some(o)
  {
    KeptLength(cards, ExtractCard);
    forall o ensures o in Collected(cards) <==> exists i :: 0 <= i < |cards| && ExtractCard(cards[i]) == Some(o) {
      if o in Collected(cards) {
        var i := KeptSound(cards, ExtractCard, o);
      }
      if exists i :: 0 <= i < |cards| && ExtractCard(cards[i]) == Some(o) {
        var i :| 0 <= i < |cards| && ExtractCard(cards[i]) == Some(o);
        KeptComplete(cards, ExtractCard, i);
      }
    }
  }

  /** Why one page's scrape raised. */
  datatype ScrapeError =
    | NoOffers               // the empty table has no `date_posted` column
    | BadDate(e: DateError)

  function Stamp(o: RawOffer, posted: Option<Instant>, now: Instant): Offer {
    Offer(o.jobTitle, o.jobId, o.jobUrl, o.company, o.location, o.workModel,
          o.details, posted, o.description, o.logoUrl, now)
  }

  /** `df['date_posted'].apply(convert_date, now=now)` followed by
      `df['date_scraped'] = now`: the first caption that fails to convert
      fails the page. */
  function DateAll(raws: seq<RawOffer>, now: Instant): Result<seq<Offer>, DateError> {
    if raws == [] then Success([])
    else
      match ConvertDate(raws[0].datePosted, now)
      case Failure(e) => Failure(e)
      case Success(d) =>
        match DateAll(raws[1..], now)
        case Failure(e) => Failure(e)
        case Success(rest) => Success([Stamp(raws[0], d, now)] + rest)
  }

  /** The dating succeeds exactly when every caption converts; it then has
      one row per input row, each stamped with its converted date and `now`;
      when it fails, the error is that of some caption. */
  lemma {:induction false} DateAllFacts(raws: seq<RawOffer>, now: Instant)
    ensures var r := DateAll(raws, now);
      && (r.Success? <==> forall i :: 0 <= i < |raws| ==> ConvertDate(raws[i].datePosted, now).Success?)
      && (r.Success? ==> |r.value| == |raws| && forall i :: 0 <= i < |raws| ==>
            r.value[i] == Stamp(raws[i], ConvertDate(raws[i].datePosted, now).value, now))
      && (r.Failure? ==> exists i :: 0 <= i < |raws| && ConvertDate(raws[i].datePosted, now) == Failure(r.error))
    decreases |raws|
  {
    if raws != [] {
      DateAllFacts(raws[1..], now);
      assert forall i :: 1 <= i < |raws| ==> raws[i] == raws[1..][i - 1];
    }
  }

  /** What `scrapp_offers` returns for a page whose cards are `cards`,
      scraped at `now`. */
  function ScrapePage(cards: seq<Card>, now: Instant): Result<seq<Offer>, ScrapeError> {
    var raws := Collected(cards);
    if raws == [] then Failure(NoOffers)
    else match DateAll(raws, now)
      case Failure(e) => Failure(BadDate(e))
      case Success(offers) => Success(offers)
  }

  /** `scrapp_offers`: loops over the cards, keeps the dictionary of each card
      whose look-ups succeed, then converts the posting dates and stamps every
      row with the one `now` read before the loop. */
  method ScrapeOffers(cards: seq<Card>, now: Instant) returns (r: Result<seq<Offer>, ScrapeError>)
    ensures r == ScrapePage(cards, now)
  {
    var offers: seq<RawOffer> := [];
    for i := 0 to |cards|
      invariant offers == Collected(cards[..i])
    {
      assert cards[..i + 1][..i] == cards[..i];
      var o := ExtractCard(cards[i]);
      if o.Some? {
        offers := offers + [o.value];
      }
    }
    assert cards[..|cards|] == cards;
    if offers == [] {
      return Failure(NoOffers);
    }
    var dated := DateAll(offers, now);
    if dated.Failure? {
      return Failure(BadDate(dated.error));
    }
    r := Success(dated.value);
  }

  /** A successful scrape has one row per collected card, in card order,
      every row carries its card's fields and converted date, and all rows
      share one scrape time. */
  lemma ScrapePageSuccess(cards: seq<Card>, now: Instant)
    requires ScrapePage(cards, now).Success?
    ensures var offers := ScrapePage(cards, now).value; var raws := Collected(cards);
      && |offers| == |raws| >= 1
      && forall i :: 0 <= i < |offers| ==>
           ConvertDate(raws[i].datePosted, now).Success? &&
           offers[i] == Stamp(raws[i], ConvertDate(raws[i].datePosted, now).value, now)
           && offers[i].dateScraped == now
  {
    DateAllFacts(Collected(cards), now);
  }

  /** A page yielding no dictionaries fails, and so does a page on which some
      collected card has no "posted" element. */
  lemma {:induction false} ScrapePageFailure(cards: seq<Card>, now: Instant, i: int)
    requires 0 <= i < |cards| && ExtractCard(cards[i]).Some?
    requires ExtractCard(cards[i]).value.datePosted.None?
    ensures ScrapePage(cards, now).Failure?
  {
    CollectedFacts(cards);
    var o := ExtractCard(cards[i]).value;
    assert o in Collected(cards);
    var raws := Collected(cards);
    var j :| 0 <= j < |raws| && raws[j] == o;
    DateAllFacts(raws, now);
    assert ConvertDate(raws[j].datePosted, now).Failure?;
  }

  /** A page from which no dictionary was collected fails: the empty table
      has no `date_posted` column to convert. */
  lemma ScrapeEmpty(cards: seq<Card>, now: Instant)
    requires Collected(cards) == []
    ensures ScrapePage(cards, now) == Failure(NoOffers)
  {
  }
}
