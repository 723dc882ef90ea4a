/**
 * `_extract_datetime` (bot.py): the leftmost date token, then a time from
 * the `h` marker pattern or, failing that, from the bare pattern, combined
 * by the `datetime` constructor.
 */
module Extractor {
  import opened Wrappers
  import opened Text
  import opened Search
  import opened DatePattern
  import opened TimePatterns
  import opened Calendar

  /** `None`, an exception out of `datetime.datetime(...)`, or the start time. */
  datatype Extraction = NoDateTime | DateTimeError(error: PyError) | Extracted(start: DateTime)

  /** A year below 100 is taken to be in the 2000s; any other is kept. */
  function NormalizeYear(y: int): int {
    if y < 100 then y + 2000 else y
  }

  /** `datetime.datetime(year, month, day, hour, minute)`. */
  function NewDateTime(dt: DateTime): Extraction {
    if IsValid(dt) then Extracted(dt) else DateTimeError(ValueError)
  }

  function ExtractDateTime(text: string): (r: Extraction)
    ensures r.Extracted? ==> IsValid(r.start)
    ensures r.DateTimeError? ==> r.error == ValueError
  {
    var t := Strip(text);
    match SearchDate(t)
    case None => NoDateTime
    case Some(Hit(i, c)) =>
      var day := DayValue(t, i, c);
      var month := MonthValue(t, i, c);
      var year := NormalizeYear(YearValue(t, i, c));
      match SearchMarker(t)
      case Some(Hit(j, h)) =>
        var clock := MarkerTime(t, j, h);
        NewDateTime(DateTime(year, month, day, clock.hour, clock.minute))
      case None =>
        match SearchBare(t)
        case Some(Hit(j, b)) =>
          var clock := BareTime(t, j, b);
          NewDateTime(DateTime(year, month, day, clock.hour, clock.minute))
        case None => NoDateTime
  }

  /** The date-time that the date token `c` at `i` and the time `clock` denote. */
  ghost function TokenDateTime(t: string, i: nat, c: DateCand, clock: ClockTime): DateTime
    requires DateAccepts(t, i, c)
  {
    DateTime(NormalizeYear(YearValue(t, i, c)), MonthValue(t, i, c), DayValue(t, i, c), clock.hour, clock.minute)
  }

  /** The year group has at most four digits, so the normalised year is always one `datetime` accepts. */
  lemma NormalizedYearInRange(t: string, i: nat, c: DateCand)
    requires DateAccepts(t, i, c)
    ensures var y := YearValue(t, i, c);
      && NormalizeYear(y) == (if y < 100 then y + 2000 else y)
      && 100 <= NormalizeYear(y) <= MAX_YEAR
  {
    var s := t[YearStart(i, c)..DateEnd(i, c)];
    DecimalBelow(s);
  }

  lemma {:induction false} DecimalBelow(s: string)
    requires forall j | 0 <= j < |s| :: IsDigit(s[j])
    requires |s| <= 4
    ensures DecimalValue(s) < (if |s| == 0 then 1 else if |s| == 1 then 10 else if |s| == 2 then 100 else if |s| == 3 then 1000 else 10000)
  {
    if s != [] {
      DecimalBelow(s[..|s| - 1]);
    }
  }

  /** The `datetime` constructor can fail only on the month or the day. */
  lemma ErrorOnlyFromMonthOrDay(t: string, i: nat, c: DateCand, clock: ClockTime)
    requires DateAccepts(t, i, c)
    requires 0 <= clock.hour <= 23 && 0 <= clock.minute <= 59
    ensures var dt := TokenDateTime(t, i, c, clock);
      NewDateTime(dt).DateTimeError? <==> !(1 <= dt.month <= 12 && 1 <= dt.day <= DaysInMonth(dt.year, dt.month))
  {
    NormalizedYearInRange(t, i, c);
  }

  /** With no date token anywhere in the stripped text there is no result. */
  lemma NoDateNoResult(text: string)
    requires forall j: nat, c: DateCand :: !DateAccepts(Strip(text), j, c)
    ensures ExtractDateTime(text) == NoDateTime
  {
    SearchDateSpec(Strip(text));
  }

  /** A marker time, when there is one, decides the time, whatever bare times the text holds. */
  lemma MarkerTimeWins(text: string, i: nat, c: DateCand, j: nat, h: MarkerCand)
    requires IsFirstDate(Strip(text), i, c)
    requires IsFirstMarker(Strip(text), j, h)
    ensures ExtractDateTime(text) == NewDateTime(TokenDateTime(Strip(text), i, c, MarkerTime(Strip(text), j, h)))
  {
    SearchDateFinds(Strip(text), i, c);
    SearchMarkerFinds(Strip(text), j, h);
  }

  /** Without a marker time, the leftmost bare time decides. */
  lemma BareTimeFallback(text: string, i: nat, c: DateCand, j: nat, b: BareCand)
    requires IsFirstDate(Strip(text), i, c)
    requires forall k: nat, h: MarkerCand :: !MarkerAccepts(Strip(text), k, h)
    requires IsFirstBare(Strip(text), j, b)
    ensures ExtractDateTime(text) == NewDateTime(TokenDateTime(Strip(text), i, c, BareTime(Strip(text), j, b)))
  {
    SearchDateFinds(Strip(text), i, c);
    SearchMarkerSpec(Strip(text));
    SearchBareFinds(Strip(text), j, b);
  }

  /** A date with no time is not an event: the time is never defaulted. */
  lemma NoTimeNoResult(text: string)
    requires forall k: nat, h: MarkerCand :: !MarkerAccepts(Strip(text), k, h)
    requires forall k: nat, b: BareCand :: !BareAccepts(Strip(text), k, b)
    ensures ExtractDateTime(text) == NoDateTime
  {
    SearchMarkerSpec(Strip(text));
    SearchBareSpec(Strip(text));
  }

  /** Whatever comes out comes from the leftmost date token and one of the two time patterns. */
  lemma ExtractionSource(text: string)
    ensures var t := Strip(text); var r := ExtractDateTime(text);
      r != NoDateTime ==>
        && SearchDate(t).Some?
        && var d := SearchDate(t).value;
        && IsFirstDate(t, d.pos, d.cand)
        && (|| (SearchMarker(t).Some? && r == NewDateTime(TokenDateTime(t, d.pos, d.cand, MarkerTime(t, SearchMarker(t).value.pos, SearchMarker(t).value.cand))))
            || (SearchMarker(t).None? && SearchBare(t).Some?
                && r == NewDateTime(TokenDateTime(t, d.pos, d.cand, BareTime(t, SearchBare(t).value.pos, SearchBare(t).value.cand)))))
  {
    var t := Strip(text);
    SearchDateSpec(t);
    SearchMarkerSpec(t);
    SearchBareSpec(t);
  }

  /** Stripping the text first changes nothing: the extractor strips it itself. */
  lemma ExtractIgnoresSurroundingSpace(text: string)
    ensures ExtractDateTime(Strip(text)) == ExtractDateTime(text)
  {
    StripIdempotent(text);
  }
}
