/**
 * The parser on concrete messages: a three-line message with a title, a
 * room and a time, a date that does not exist, and a date alone, which the
 * code as written reads as a time.
 * Each literal fact is proved in a small lemma of its own, and the results
 * are assembled from the general lemmas of the other modules.
 */
module Scenarios {
  import opened Wrappers
  import opened Text
  import opened Search
  import opened DatePattern
  import opened TimePatterns
  import opened Calendar
  import opened Extractor
  import opened EventParser

  /** Every line is non-empty and has no whitespace at either end. */
  predicate StrippedLines(lines: seq<string>) {
    forall i | 0 <= i < |lines| :: lines[i] != [] && !IsSpace(lines[i][0]) && !IsSpace(lines[i][|lines[i]| - 1])
  }

  /** Lines that are already stripped and non-blank are all kept, unchanged. */
  lemma {:induction false} KeepStrippedLines(lines: seq<string>)
    requires StrippedLines(lines)
    ensures StripNonBlank(lines) == lines
  {
    if lines != [] {
      StripNoop(lines[0]);
      KeepStrippedLines(lines[1..]);
    }
  }

  /** How `ParseSimpleEvent` assembles an event from the extracted start, its successor hour and the kept lines. */
  lemma AssembleEvent(text: string, start: DateTime, end: DateTime, kept: seq<string>)
    requires text != [] && !IsSpace(text[0]) && !IsSpace(text[|text| - 1])
    requires ExtractDateTime(text) == Extracted(start)
    requires AddOneHour(start) == Some(end)
    requires NonBlankLines(text) == kept
    ensures kept != []
    ensures ParseSimpleEvent(text) == Event(EventDraft(
      kept[0],
      if |kept| >= 2 && IsLocation(kept[1]) then kept[1] else "",
      text, start, end))
  {
    StripNoop(text);
  }

  /** A text whose lines are all stripped and non-blank keeps every one of them. */
  lemma KeptLines(text: string, lines: seq<string>)
    requires SplitLines(text) == lines && StrippedLines(lines)
    ensures NonBlankLines(text) == lines
  {
    KeepStrippedLines(lines);
  }

  /** The extractor's result on a stripped text with a date, no marker time and a bare time. */
  lemma ExtractedFromBare(text: string, i: nat, c: DateCand, j: nat, b: BareCand, dt: DateTime)
    requires Strip(text) == text
    requires IsFirstDate(text, i, c)
    requires forall k: nat, h: MarkerCand :: !MarkerAccepts(text, k, h)
    requires IsFirstBare(text, j, b)
    requires TokenDateTime(text, i, c, BareTime(text, j, b)) == dt && IsValid(dt)
    ensures ExtractDateTime(text) == Extracted(dt)
  {
    BareTimeFallback(text, i, c, j, b);
  }

  /** The extractor's result on a stripped text with a date and a marker time. */
  lemma ExtractedFromMarker(text: string, i: nat, c: DateCand, j: nat, h: MarkerCand, dt: DateTime)
    requires Strip(text) == text
    requires IsFirstDate(text, i, c)
    requires IsFirstMarker(text, j, h)
    requires TokenDateTime(text, i, c, MarkerTime(text, j, h)) == dt && IsValid(dt)
    ensures ExtractDateTime(text) == Extracted(dt)
  {
    MarkerTimeWins(text, i, c, j, h);
  }

  /** A text whose date token and marker time name no real date-time is rejected with ValueError. */
  lemma RejectedFromMarker(text: string, i: nat, c: DateCand, j: nat, h: MarkerCand)
    requires text != [] && Strip(text) == text
    requires IsFirstDate(text, i, c)
    requires IsFirstMarker(text, j, h)
    requires !IsValid(TokenDateTime(text, i, c, MarkerTime(text, j, h)))
    ensures ParseSimpleEvent(text) == ParseError(ValueError)
  {
    MarkerTimeWins(text, i, c, j, h);
  }

  /** Printable ASCII characters, none of which is a line break. */
  predicate IsPrintable(c: char) {
    ' ' <= c <= '~'
  }

  predicate IsLetter(c: char) {
    ('a' <= c <= 'z') || ('A' <= c <= 'Z')
  }

  /** A printable line that neither starts nor ends with a space. */
  lemma PrintableLine(s: string)
    requires s != [] && s[0] != ' ' && s[|s| - 1] != ' '
    requires forall j | 0 <= j < |s| :: IsPrintable(s[j])
    ensures NoneSatisfy(s, IsLineBreak)
    ensures !IsSpace(s[0]) && !IsSpace(s[|s| - 1])
  {
  }

  /** Three lines joined by `\n` split back into the three. */
  lemma SplitThreeLines(a: string, b: string, c: string)
    requires NoneSatisfy(a, IsLineBreak) && NoneSatisfy(b, IsLineBreak) && NoneSatisfy(c, IsLineBreak)
    requires c != []
    ensures SplitLines(a + "\n" + b + "\n" + c) == [a, b, c]
  {
    var lines := [a, b, c];
    assert lines[1..] == [b, c] && [b, c][1..] == [c];
    assert JoinLines([b, c]) == b + "\n" + c;
    assert JoinLines(lines) == a + "\n" + (b + "\n" + c);
    assert a + "\n" + (b + "\n" + c) == a + "\n" + b + "\n" + c;
    SplitJoinLines(lines);
  }

  /** A word of ASCII letters passes the location test. */
  lemma LettersAreLocation(s: string)
    requires s != [] && forall j | 0 <= j < |s| :: IsLetter(s[j])
    ensures IsLocation(s)
  {
    StripNoop(s);
    SingleTokenIffNoSpace(s);
  }

  /** A date token starts with a digit, so none starts before the first digit. */
  lemma NoDateBefore(t: string, i: nat)
    requires forall k | 0 <= k < i && k < |t| :: !IsDigit(t[k])
    ensures forall j: nat, c: DateCand | j < i :: !DateAccepts(t, j, c)
  {
  }

  /** A marker match starts with `h` or `H`, so none starts before the first of them. */
  lemma NoMarkerBefore(t: string, i: nat)
    requires forall k | 0 <= k < i && k < |t| :: !IsHourMarker(t[k])
    ensures forall j: nat, c: MarkerCand | j < i :: !MarkerAccepts(t, j, c)
  {
  }

  // ---------------------------------------------------------------------
  // A date alone: the bare time pattern matches its first five characters

  const DATE_ONLY: string := "13.02.2026"

  lemma DateOnlyDate()
    ensures IsFirstDate(DATE_ONLY, 0, DateCand(2, 2, 4))
  {
  }

  lemma DateOnlyNoMarker()
    ensures forall k: nat, h: MarkerCand :: !MarkerAccepts(DATE_ONLY, k, h)
  {
    assert forall k | 0 <= k < |DATE_ONLY| :: !IsHourMarker(DATE_ONLY[k]);
  }

  lemma DateOnlyBare()
    ensures IsFirstBare(DATE_ONLY, 0, BareCand(0))
  {
  }

  lemma DateOnlyToken()
    ensures DateAccepts(DATE_ONLY, 0, DateCand(2, 2, 4)) && BareAccepts(DATE_ONLY, 0, BareCand(0))
    ensures TokenDateTime(DATE_ONLY, 0, DateCand(2, 2, 4), BareTime(DATE_ONLY, 0, BareCand(0))) == DateTime(2026, 2, 13, 13, 2)
    ensures IsValid(DateTime(2026, 2, 13, 13, 2))
  {
    DateOnlyDate();
    DateOnlyBare();
    ShortDecimal(DATE_ONLY, 0, 2);
    ShortDecimal(DATE_ONLY, 3, 2);
    ShortDecimal(DATE_ONLY, 6, 4);
  }

  lemma DateOnlyText()
    ensures DATE_ONLY != [] && !IsSpace(DATE_ONLY[0]) && !IsSpace(DATE_ONLY[|DATE_ONLY| - 1])
    ensures Strip(DATE_ONLY) == DATE_ONLY
  {
    StripNoop(DATE_ONLY);
  }

  lemma DateOnlyLines()
    ensures SplitLines(DATE_ONLY) == [DATE_ONLY] && StrippedLines([DATE_ONLY])
  {
    SplitOneLine(DATE_ONLY);
  }

  lemma DateOnlyKept()
    ensures NonBlankLines(DATE_ONLY) == [DATE_ONLY]
  {
    DateOnlyLines();
    KeptLines(DATE_ONLY, [DATE_ONLY]);
  }

  /** `13.02.2026`, with no time in it, is read as 13:02 on 13 February 2026. */
  lemma DateOnlyExtracted()
    ensures ExtractDateTime(DATE_ONLY) == Extracted(DateTime(2026, 2, 13, 13, 2))
  {
    DateOnlyDate();
    DateOnlyNoMarker();
    DateOnlyBare();
    DateOnlyToken();
    DateOnlyText();
    ExtractedFromBare(DATE_ONLY, 0, DateCand(2, 2, 4), 0, BareCand(0), DateTime(2026, 2, 13, 13, 2));
  }

  /** So the message `13.02.2026` alone becomes a one-hour event at 13:02. */
  lemma DateReadAsTime()
    ensures ParseSimpleEvent(DATE_ONLY) == Event(EventDraft(
      DATE_ONLY, "", DATE_ONLY, DateTime(2026, 2, 13, 13, 2), DateTime(2026, 2, 13, 14, 2)))
  {
    DateOnlyExtracted();
    DateOnlyText();
    DateOnlyKept();
    assert AddOneHour(DateTime(2026, 2, 13, 13, 2)) == Some(DateTime(2026, 2, 13, 14, 2));
    AssembleEvent(DATE_ONLY, DateTime(2026, 2, 13, 13, 2), DateTime(2026, 2, 13, 14, 2), [DATE_ONLY]);
  }

  // ---------------------------------------------------------------------
  // A three-line message: title, room, then date and `h` time

  const MEETING_TITLE: string := "Nobili avv frattasi"
  const MEETING_ROOM: string := "Carlomagno"
  const MEETING_WHEN: string := "13/2/26 h 12"
  const MEETING: string := MEETING_TITLE + "\n" + MEETING_ROOM + "\n" + MEETING_WHEN

  lemma MeetingDigits()
    ensures |MEETING| == 43
    ensures forall k | 0 <= k < 31 :: !IsDigit(MEETING[k])
  {
  }

  lemma MeetingMarkers()
    ensures |MEETING| == 43
    ensures forall k | 0 <= k < 39 :: !IsHourMarker(MEETING[k])
  {
  }

  lemma MeetingDateToken()
    ensures DateAccepts(MEETING, 31, DateCand(2, 1, 2))
  {
  }

  lemma MeetingDate()
    ensures IsFirstDate(MEETING, 31, DateCand(2, 1, 2))
  {
    MeetingDigits();
    NoDateBefore(MEETING, 31);
    MeetingDateToken();
  }

  lemma MeetingMarker()
    ensures IsFirstMarker(MEETING, 39, MarkerCand(1, 0, false))
  {
    MeetingMarkers();
    NoMarkerBefore(MEETING, 39);
    assert MarkerAccepts(MEETING, 39, MarkerCand(1, 0, false));
    IsFirstMarkerIntro(MEETING, 39, MarkerCand(1, 0, false));
  }

  lemma MeetingDateValues()
    ensures DateAccepts(MEETING, 31, DateCand(2, 1, 2))
    ensures DayValue(MEETING, 31, DateCand(2, 1, 2)) == 13
    ensures MonthValue(MEETING, 31, DateCand(2, 1, 2)) == 2
    ensures YearValue(MEETING, 31, DateCand(2, 1, 2)) == 26
  {
    MeetingDate();
    ShortDecimal(MEETING, 31, 2);
    ShortDecimal(MEETING, 34, 1);
    ShortDecimal(MEETING, 36, 2);
  }

  lemma MeetingClock()
    ensures MarkerAccepts(MEETING, 39, MarkerCand(1, 0, false))
    ensures MarkerTime(MEETING, 39, MarkerCand(1, 0, false)) == ClockTime(12, 0)
  {
    MeetingMarker();
    ShortDecimal(MEETING, 41, 2);
  }

  lemma MeetingToken()
    ensures DateAccepts(MEETING, 31, DateCand(2, 1, 2)) && MarkerAccepts(MEETING, 39, MarkerCand(1, 0, false))
    ensures TokenDateTime(MEETING, 31, DateCand(2, 1, 2), MarkerTime(MEETING, 39, MarkerCand(1, 0, false))) == DateTime(2026, 2, 13, 12, 0)
    ensures IsValid(DateTime(2026, 2, 13, 12, 0))
  {
    MeetingDateValues();
    MeetingClock();
  }

  lemma MeetingText()
    ensures MEETING != [] && !IsSpace(MEETING[0]) && !IsSpace(MEETING[|MEETING| - 1])
    ensures Strip(MEETING) == MEETING
  {
    StripNoop(MEETING);
  }

  lemma MeetingLinesPrintable()
    ensures NoneSatisfy(MEETING_TITLE, IsLineBreak) && NoneSatisfy(MEETING_ROOM, IsLineBreak) && NoneSatisfy(MEETING_WHEN, IsLineBreak)
    ensures StrippedLines([MEETING_TITLE, MEETING_ROOM, MEETING_WHEN])
  {
    PrintableLine(MEETING_TITLE);
    PrintableLine(MEETING_ROOM);
    PrintableLine(MEETING_WHEN);
  }

  lemma MeetingLines()
    ensures SplitLines(MEETING) == [MEETING_TITLE, MEETING_ROOM, MEETING_WHEN]
    ensures StrippedLines([MEETING_TITLE, MEETING_ROOM, MEETING_WHEN])
  {
    MeetingLinesPrintable();
    SplitThreeLines(MEETING_TITLE, MEETING_ROOM, MEETING_WHEN);
  }

  lemma MeetingKept()
    ensures NonBlankLines(MEETING) == [MEETING_TITLE, MEETING_ROOM, MEETING_WHEN]
  {
    MeetingLines();
    KeptLines(MEETING, [MEETING_TITLE, MEETING_ROOM, MEETING_WHEN]);
  }

  lemma MeetingRoomIsLocation()
    ensures IsLocation(MEETING_ROOM)
  {
    LettersAreLocation(MEETING_ROOM);
  }

  lemma MeetingExtracted()
    ensures ExtractDateTime(MEETING) == Extracted(DateTime(2026, 2, 13, 12, 0))
  {
    MeetingDate();
    MeetingMarker();
    MeetingToken();
    MeetingText();
    ExtractedFromMarker(MEETING, 31, DateCand(2, 1, 2), 39, MarkerCand(1, 0, false), DateTime(2026, 2, 13, 12, 0));
  }

  /** The first line is the title, the one-word second line the location, and `h 12` the hour. */
  lemma MeetingEvent()
    ensures ParseSimpleEvent(MEETING) == Event(EventDraft(
      MEETING_TITLE, MEETING_ROOM, MEETING, DateTime(2026, 2, 13, 12, 0), DateTime(2026, 2, 13, 13, 0)))
  {
    MeetingExtracted();
    MeetingText();
    MeetingKept();
    MeetingRoomIsLocation();
    assert AddOneHour(DateTime(2026, 2, 13, 12, 0)) == Some(DateTime(2026, 2, 13, 13, 0));
    AssembleEvent(MEETING, DateTime(2026, 2, 13, 12, 0), DateTime(2026, 2, 13, 13, 0), [MEETING_TITLE, MEETING_ROOM, MEETING_WHEN]);
  }

  // ---------------------------------------------------------------------
  // A date that does not exist: `datetime` raises ValueError

  const FEB_31: string := "31/02/2026 h 10"

  lemma Feb31Date()
    ensures IsFirstDate(FEB_31, 0, DateCand(2, 2, 4))
  {
  }

  lemma Feb31Marker()
    ensures IsFirstMarker(FEB_31, 11, MarkerCand(1, 0, false))
  {
    assert forall k | 0 <= k < 11 :: !IsHourMarker(FEB_31[k]);
    NoMarkerBefore(FEB_31, 11);
    assert MarkerAccepts(FEB_31, 11, MarkerCand(1, 0, false));
    IsFirstMarkerIntro(FEB_31, 11, MarkerCand(1, 0, false));
  }

  lemma Feb31DateValues()
    ensures DateAccepts(FEB_31, 0, DateCand(2, 2, 4))
    ensures DayValue(FEB_31, 0, DateCand(2, 2, 4)) == 31
    ensures MonthValue(FEB_31, 0, DateCand(2, 2, 4)) == 2
    ensures YearValue(FEB_31, 0, DateCand(2, 2, 4)) == 2026
  {
    Feb31Date();
    ShortDecimal(FEB_31, 0, 2);
    ShortDecimal(FEB_31, 3, 2);
    ShortDecimal(FEB_31, 6, 4);
  }

  lemma Feb31Clock()
    ensures MarkerAccepts(FEB_31, 11, MarkerCand(1, 0, false))
    ensures MarkerTime(FEB_31, 11, MarkerCand(1, 0, false)) == ClockTime(10, 0)
  {
    Feb31Marker();
    ShortDecimal(FEB_31, 13, 2);
  }

  lemma Feb31Token()
    ensures DateAccepts(FEB_31, 0, DateCand(2, 2, 4)) && MarkerAccepts(FEB_31, 11, MarkerCand(1, 0, false))
    ensures TokenDateTime(FEB_31, 0, DateCand(2, 2, 4), MarkerTime(FEB_31, 11, MarkerCand(1, 0, false))) == DateTime(2026, 2, 31, 10, 0)
  {
    Feb31DateValues();
    Feb31Clock();
  }

  lemma Feb31Text()
    ensures FEB_31 != [] && Strip(FEB_31) == FEB_31
    ensures !IsValid(DateTime(2026, 2, 31, 10, 0))
  {
    StripNoop(FEB_31);
  }

  /** 31 February is no date, so the message is rejected with ValueError rather than ignored. */
  lemma Feb31Rejected()
    ensures ParseSimpleEvent(FEB_31) == ParseError(ValueError)
  {
    Feb31Date();
    Feb31Marker();
    Feb31Token();
    Feb31Text();
    RejectedFromMarker(FEB_31, 0, DateCand(2, 2, 4), 11, MarkerCand(1, 0, false));
  }
}
