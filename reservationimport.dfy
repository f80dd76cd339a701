/** The import step of the listing page: the events of a calendar feed become
    reservation rows of one listing, keyed for the upsert by listing, start
    date and end date. */
module ReservationImport {
  import opened Common
  import opened JsText
  import opened Calendar
  import opened IsoFormat
  import opened ICalScan

  /** A row of the `reservations` table as the import builds it. */
  datatype Reservation = Reservation(listingId: string, startDate: string, endDate: string, source: string)

  const Airbnb: string := "airbnb"
  const NoEventsMessage: string := "No events found in the calendar"
  const FallbackMessage: string := "Failed to import calendar data"

  /** `s.split('T')[0]`: the date part of a date-time text. */
  function DatePart(s: string): (r: string)
    ensures r <= s && 'T' !in r
    ensures |r| < |s| ==> s[|r|] == 'T'
  {
    FieldBefore(s, 'T')
  }

  /** The row one event becomes. */
  function ToReservation(listingId: string, e: ICalEvent): Reservation {
    Reservation(listingId, DatePart(e.startDate), DatePart(e.endDate), Airbnb)
  }

  /** `events.map(...)`: one row per event, in the order of the events, each
      carrying the listing, the two date parts and the source `airbnb`. */
  function ToReservations(listingId: string, events: seq<ICalEvent>): (r: seq<Reservation>)
    ensures |r| == |events|
    ensures forall i :: 0 <= i < |r| ==>
              r[i].listingId == listingId && r[i].source == Airbnb &&
              r[i].startDate == DatePart(events[i].startDate) && r[i].endDate == DatePart(events[i].endDate)
  {
    if events == [] then [] else [ToReservation(listingId, events[0])] + ToReservations(listingId, events[1..])
  }

  /** The upsert's conflict target `listing_id,start_date,end_date`. */
  function ConflictKey(r: Reservation): (string, string, string) {
    (r.listingId, r.startDate, r.endDate)
  }

  /** What `fetchIcalData` hands back: a list of events that may be absent,
      or a failure carrying the thrown `Error`'s message (`None` when what was
      thrown is not an `Error`). */
  type Fetched = Result<Option<seq<ICalEvent>>, Option<string>>

  /** What one press of the import button leads to. */
  datatype ImportOutcome =
    | Skipped                       // blank URL: nothing is fetched
    | Failed(message: string)       // the message shown as the page's error
    | Upsert(rows: seq<Reservation>) // the rows handed to the upsert

  /** The rows to upsert, or the error when the feed gave no events. */
  function PrepareImport(listingId: string, events: Option<seq<ICalEvent>>): (r: Result<seq<Reservation>, string>)
    ensures r.Err? <==> events.None? || events.value == []
    ensures r.Err? ==> r.error == NoEventsMessage
    ensures r.Ok? ==> |r.value| == |events.value| > 0
  {
    if events.None? || events.value == [] then Err(NoEventsMessage)
    else Ok(ToReservations(listingId, events.value))
  }

  /** `handleImportIcal` up to the upsert: a URL that is blank after trimming
      does nothing; a failed fetch shows its message; an empty feed shows the
      no-events message; anything else is upserted as rows. */
  function HandleImport(url: string, listingId: string, fetched: Fetched): (r: ImportOutcome)
    ensures r.Skipped? <==> Trim(url) == []
    ensures Trim(url) != [] && fetched.Err? && fetched.error.Some? ==> r == Failed(fetched.error.value)
    ensures Trim(url) != [] && fetched == Err(None) ==> r == Failed(FallbackMessage)
    ensures Trim(url) != [] && fetched.Ok? && (fetched.value.None? || fetched.value.value == []) ==> r == Failed(NoEventsMessage)
    ensures r.Upsert? <==> Trim(url) != [] && fetched.Ok? && fetched.value.Some? && fetched.value.value != []
    ensures r.Upsert? ==> r.rows == ToReservations(listingId, fetched.value.value) && |r.rows| > 0
  {
    if Trim(url) == [] then Skipped
    else if fetched.Err? then Failed(if fetched.error.Some? then fetched.error.value else FallbackMessage)
    else
      match PrepareImport(listingId, fetched.value)
      case Err(m) => Failed(m)
      case Ok(rows) => Upsert(rows)
  }

  /** Taking the date part twice changes nothing. */
  lemma DatePartIdempotent(s: string)
    ensures DatePart(DatePart(s)) == DatePart(s)
  {
    var r := DatePart(s);
    assert FirstIndex(r, 'T') == |r|;
    assert r[..|r|] == r;
  }

  /** A date-only text is its own date part. */
  lemma DatePartOfDate(s: string)
    requires 'T' !in s
    ensures DatePart(s) == s
  {
    assert FirstIndex(s, 'T') == |s|;
    assert s[..|s|] == s;
  }

  /** Importing is one-to-one and in order: the i-th row comes from the i-th
      event, and the rows for a concatenation of feeds are the rows of each. */
  lemma {:induction false} ToReservationsAppend(listingId: string, a: seq<ICalEvent>, b: seq<ICalEvent>)
    ensures ToReservations(listingId, a + b) == ToReservations(listingId, a) + ToReservations(listingId, b)
    decreases |a|
  {
    if a == [] {
      assert a + b == b;
    } else {
      assert (a + b)[1..] == a[1..] + b;
      ToReservationsAppend(listingId, a[1..], b);
    }
  }

  /** Rows built from the parser's ISO texts carry the UTC calendar days of
      the two instants. */
  lemma RowOfInstants(listingId: string, a: Instant, b: Instant)
    ensures ConflictKey(ToReservation(listingId, ICalEvent(ToISOString(a), ToISOString(b))))
            == (InstantYearBounds(a); InstantYearBounds(b); (listingId, DateText(DateOf(a)), DateText(DateOf(b))))
  {
    DatePartOfISOString(a);
    DatePartOfISOString(b);
  }

  /** Two events with ISO start and end collide on the upsert exactly when
      they start on the same UTC day and end on the same UTC day, whatever
      their times of day. */
  lemma SameDaysSameKey(listingId: string, a1: Instant, b1: Instant, a2: Instant, b2: Instant)
    ensures ConflictKey(ToReservation(listingId, ICalEvent(ToISOString(a1), ToISOString(b1))))
            == ConflictKey(ToReservation(listingId, ICalEvent(ToISOString(a2), ToISOString(b2))))
            <==> DateOf(a1) == DateOf(a2) && DateOf(b1) == DateOf(b2)
  {
    RowOfInstants(listingId, a1, b1);
    RowOfInstants(listingId, a2, b2);
    InstantYearBounds(a1);
    InstantYearBounds(a2);
    InstantYearBounds(b1);
    InstantYearBounds(b2);
    DateTextRoundTrip(DateOf(a1));
    DateTextRoundTrip(DateOf(a2));
    DateTextRoundTrip(DateOf(b1));
    DateTextRoundTrip(DateOf(b2));
  }

  /** A non-empty feed is always imported, one row per event. */
  lemma NonEmptyFeedIsUpserted(url: string, listingId: string, events: seq<ICalEvent>)
    requires Trim(url) != [] && events != []
    ensures HandleImport(url, listingId, Ok(Some(events))) == Upsert(ToReservations(listingId, events))
  {
  }
}
