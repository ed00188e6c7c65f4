/** The praca.pl run's use of the stored offers: the high-water mark read
    from them, and the reconciliation of the crawl with them. */
module PracaStore {
  import opened Wrappers
  import opened Frame
  import opened PracaPl

  function Scraped(o: Offer): Option<int> {
    Some(o.dateScraped)
  }

  /** `read_previous_data`: without a stored table the high-water mark is the
      start-up time; otherwise it is the latest `date_scraped` of the stored
      offers, missing when the stored table is empty. */
  function HighWaterMark(stored: Option<seq<Offer>>, startup: Instant): (last: Option<int>)
    ensures stored.None? ==> last == Some(startup as int)
    ensures stored.Some? && stored.value != [] ==>
      last.Some? && (forall i :: 0 <= i < |stored.value| ==> stored.value[i].dateScraped <= last.value)
      && (exists i :: 0 <= i < |stored.value| && stored.value[i].dateScraped == last.value)
    ensures stored.Some? && stored.value == [] ==> last.None?
  {
    match stored
    case None => Some(startup)
    case Some(rows) => MaxDate(rows, Scraped)
  }

  /** The outcome of the reconciliation block: the table stored for the next
      run and the table of new offers. */
  datatype Reconciled<R> = Reconciled(stored: seq<R>, added: seq<R>)

  /** The reconciliation block as written, for rows whose key is `key`: with
      old data the stored table is the old rows followed by the current ones,
      deduplicated by key, and the new rows are the current rows whose key is
      not in that concatenation. */
  function Reconcile<R, K(==)>(previous: Option<seq<R>>, current: seq<R>, key: R -> K): Reconciled<R> {
    if previous.None? || previous.value == [] then Reconciled(current, current)
    else
      var combined := previous.value + current;
      Reconciled(DropDuplicates(combined, key), NotIn(current, key, Keys(combined, key)))
  }

  /** Without old data, everything scraped is both stored and new. */
  lemma ReconcileCold<R, K>(previous: Option<seq<R>>, current: seq<R>, key: R -> K)
    requires previous.None? || previous.value == []
    ensures Reconcile(previous, current, key) == Reconciled(current, current)
  {
  }

  /** With old data, the stored table has exactly the keys of the old and the
      current rows, each once; its rows keep their order; and a row whose key
      was already stored is the stored row, not the re-scraped one. */
  lemma {:induction false} ReconcileWarm<R, K>(previous: seq<R>, current: seq<R>, key: R -> K)
    requires previous != []
    ensures var stored := Reconcile(Some(previous), current, key).stored;
      && Keys(stored, key) == Keys(previous, key) + Keys(current, key)
      && UniqueKeys(stored, key)
      && Subsequence(stored, previous + current)
      && forall x :: x in stored && key(x) in Keys(previous, key) ==> x in previous
  {
    var combined := previous + current;
    var stored := DropDuplicates(combined, key);
    DropDuplicatesFacts(combined, key);
    KeysAppend(previous, current, key);
    forall x | x in stored && key(x) in Keys(previous, key) ensures x in previous {
      var i :| FirstOfKey(combined, key, i) && combined[i] == x;
      var j :| 0 <= j < |previous| && key(previous[j]) == key(x);
      assert combined[j] == previous[j];
      assert i <= j;
      assert combined[i] == previous[i];
    }
  }

  /** With old data the new-offers table is always empty, whatever was
      scraped: every current row's key is in the concatenation it is tested
      against. */
  lemma {:induction false} WarmAddedEmpty<R, K>(previous: seq<R>, current: seq<R>, key: R -> K)
    requires previous != []
    ensures Reconcile(Some(previous), current, key).added == []
  {
    KeysAppend(previous, current, key);
    NotInCovered(current, key, Keys(previous + current, key));
  }

  /** The reconciliation the new-offers table is meant to give: the stored
      table as before, and as new rows the current rows whose key is not
      among the old rows' keys. */
  function ReconcileIntended<R, K(==)>(previous: Option<seq<R>>, current: seq<R>, key: R -> K): Reconciled<R> {
    if previous.None? || previous.value == [] then Reconciled(current, current)
    else Reconciled(DropDuplicates(previous.value + current, key), NotIn(current, key, Keys(previous.value, key)))
  }

  /** A current row is new exactly when its key was not stored before, and
      the new rows keep their scraped order; the stored table is the one the
      block as written keeps. */
  lemma ReconcileIntendedAdded<R, K>(previous: seq<R>, current: seq<R>, key: R -> K)
    requires previous != []
    ensures var r := ReconcileIntended(Some(previous), current, key);
      && (forall x :: x in r.added <==> x in current && key(x) !in Keys(previous, key))
      && Subsequence(r.added, current)
      && r.stored == Reconcile(Some(previous), current, key).stored
  {
    NotInFacts(current, key, Keys(previous, key));
  }

  /** Why the reconciliation of praca.pl rows raised. */
  datatype ReconcileError = MissingColumn(name: string)

  /** The column names of a praca.pl row. */
  const OfferColumns: set<string> := {
    "job_title", "job_id", "job_url", "company", "location", "work_model",
    "details", "date_posted", "description", "logo_url", "date_scraped"}

  /** The text value of the row's column `name`; columns outside the text
      columns have no text value. */
  function TextCell(o: Offer, name: string): Option<string> {
    if name == "job_title" then o.jobTitle
    else if name == "job_id" then o.jobId
    else if name == "job_url" then o.jobUrl
    else if name == "company" then o.company
    else if name == "location" then o.location
    else if name == "work_model" then o.workModel
    else if name == "details" then o.details
    else if name == "description" then o.description
    else if name == "logo_url" then o.logoUrl
    else None
  }

  /** A cell of a praca.pl row, as the key of a reconciliation: a text or a
      timestamp, either of them possibly missing. */
  datatype Cell = Text(text: Option<string>) | Time(time: Option<Instant>)

  /** The value of the row's column `name`: the two date columns hold
      timestamps, the others text. */
  function CellOf(o: Offer, name: string): Cell {
    if name == "date_posted" then Time(o.datePosted)
    else if name == "date_scraped" then Time(Some(o.dateScraped))
    else Text(TextCell(o, name))
  }

  /** The reconciliation block on praca.pl rows keyed by column `column`:
      selecting a column the rows do not have raises. */
  function ReconcileByColumn(previous: Option<seq<Offer>>, current: seq<Offer>, column: string)
    : Result<Reconciled<Offer>, ReconcileError>
  {
    if previous.None? || previous.value == [] then Success(Reconciled(current, current))
    else if column !in OfferColumns then Failure(MissingColumn(column))
    else Success(Reconcile(previous, current, (o: Offer) => CellOf(o, column)))
  }

  /** The block as written: it keys on `job_link`. */
  function ReconcileOffers(previous: Option<seq<Offer>>, current: seq<Offer>): Result<Reconciled<Offer>, ReconcileError> {
    ReconcileByColumn(previous, current, "job_link")
  }

  /** The rows carry their link as `job_url`, so whenever old data exists the
      block as written raises; only the first run ever gets through. */
  lemma WarmStartRaises(previous: seq<Offer>, current: seq<Offer>)
    requires previous != []
    ensures ReconcileOffers(Some(previous), current) == Failure(MissingColumn("job_link"))
    ensures ReconcileOffers(None, current) == Success(Reconciled(current, current))
  {
    assert "job_link" !in OfferColumns;
  }

  function JobUrl(o: Offer): Option<string> {
    o.jobUrl
  }

  /** The intended block for praca.pl rows: keyed by the `job_url` column the
      rows do carry, with new rows tested against the old rows only. */
  function ReconcileByUrl(previous: Option<seq<Offer>>, current: seq<Offer>): Reconciled<Offer> {
    ReconcileIntended(previous, current, JobUrl)
  }

  /** Keyed by `job_url`, a warm start keeps one row per link, old rows
      winning, and reports as new exactly the scraped offers with a link not
      stored before. */
  lemma ReconcileByUrlFacts(previous: seq<Offer>, current: seq<Offer>)
    requires previous != []
    ensures var r := ReconcileByUrl(Some(previous), current);
      && Keys(r.stored, JobUrl) == Keys(previous, JobUrl) + Keys(current, JobUrl)
      && UniqueKeys(r.stored, JobUrl)
      && (forall x :: x in r.stored && x.jobUrl in Keys(previous, JobUrl) ==> x in previous)
      && (forall x :: x in r.added <==> x in current && x.jobUrl !in Keys(previous, JobUrl))
  {
    ReconcileWarm(previous, current, JobUrl);
    ReconcileIntendedAdded(previous, current, JobUrl);
  }
}
