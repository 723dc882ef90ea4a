/**
 * `parse_simple_event` (bot.py): a free-text message becomes an event draft
 * whose title is the first non-blank line, whose location is the second
 * line when that line is one word with no digits, whose notes are the whole
 * message, and which lasts one hour from the extracted start.
 */
module EventParser {
  import opened Wrappers
  import opened Text
  import opened DatePattern
  import opened TimePatterns
  import opened Calendar
  import opened Extractor

  datatype EventDraft = EventDraft(
    title: string,
    location: string,
    description: string,
    start: DateTime,
    end: DateTime)

  /** `None`, an exception out of the parser, or the draft. */
  datatype ParseResult = NotRecognized | ParseError(error: PyError) | Event(draft: EventDraft)

  /** The title used when the text has no non-blank line. */
  const DEFAULT_TITLE: string := "Evento"

  /**
   * `re.match(r"^[^\s]+$", s)`: a run of non-whitespace from the start,
   * then the end of the string or a newline that ends it.
   */
  predicate IsSingleToken(s: string) {
    var n := SpanFrom(s, 0, c => !IsSpace(c));
    n >= 1 && (n == |s| || (n + 1 == |s| && s[n] == '\n'))
  }

  /** The test a second line must pass to be taken as the location. */
  predicate IsLocation(s: string) {
    IsSingleToken(s) && NoneSatisfy(s, IsDigit)
  }

  /** What the parser does with the stripped text `t` once the extractor has returned `x`. */
  function EventFrom(t: string, x: Extraction): (r: ParseResult)
    requires x.Extracted? ==> IsValid(x.start)
    ensures r.Event? ==> r.draft.description == t && IsValid(r.draft.start) && IsValid(r.draft.end)
    ensures r.Event? ==> MinutesOf(r.draft.end) == MinutesOf(r.draft.start) + 60
    ensures r.Event? && t != [] && !IsSpace(t[0]) ==> r.draft.title != []
  {
    match x
    case NoDateTime => NotRecognized
    case DateTimeError(e) => ParseError(e)
    case Extracted(start) =>
      match AddOneHour(start)
      case None => ParseError(OverflowError)
      case Some(end) =>
        var lines := NonBlankLines(t);
        var title := if |lines| > 0 then lines[0] else DEFAULT_TITLE;
        var location := if |lines| >= 2 && IsLocation(lines[1]) then lines[1] else "";
        Event(EventDraft(title, location, t, start, end))
  }

  function ParseSimpleEvent(text: string): (r: ParseResult)
    ensures r.Event? ==> r.draft.description == Strip(text) && r.draft.title != []
    ensures r.Event? ==> IsValid(r.draft.start) && IsValid(r.draft.end)
    ensures r.Event? ==> MinutesOf(r.draft.end) == MinutesOf(r.draft.start) + 60
  {
    var t := Strip(text);
    if t == [] then NotRecognized else EventFrom(t, ExtractDateTime(t))
  }

  /** The parser's outcome follows the extractor's. */
  lemma EventFromStart(t: string, x: Extraction)
    requires x.Extracted? ==> IsValid(x.start)
    requires x.DateTimeError? ==> x.error == ValueError
    ensures var r := EventFrom(t, x);
      && (r.Event? ==> x == Extracted(r.draft.start))
      && (r == NotRecognized <==> x == NoDateTime)
      && (r == ParseError(ValueError) <==> x.DateTimeError?)
  {
  }

  /** The end of an event is the one-hour step from its start. */
  lemma EventFromEnd(t: string, x: Extraction)
    requires x.Extracted? ==> IsValid(x.start)
    requires EventFrom(t, x).Event?
    ensures IsValid(EventFrom(t, x).draft.start)
    ensures AddOneHour(EventFrom(t, x).draft.start) == Some(EventFrom(t, x).draft.end)
  {
  }

  /** Only the one-hour step raises OverflowError. */
  lemma EventFromOverflow(t: string, x: Extraction)
    requires x.Extracted? ==> IsValid(x.start)
    requires x.DateTimeError? ==> x.error == ValueError
    ensures EventFrom(t, x) == ParseError(OverflowError) <==>
      x.Extracted? && x.start.year == MAX_YEAR && x.start.month == 12 && x.start.day == 31 && x.start.hour == 23
  {
  }

  /** The location of an event built from the stripped text `t`. */
  lemma EventFromLocation(t: string, x: Extraction)
    requires x.Extracted? ==> IsValid(x.start)
    requires EventFrom(t, x).Event?
    ensures var lines := NonBlankLines(t);
      EventFrom(t, x).draft.location ==
        if |lines| >= 2 && NoneSatisfy(lines[1], IsSpace) && NoneSatisfy(lines[1], IsDigit) then lines[1] else ""
  {
    var lines := NonBlankLines(t);
    if |lines| >= 2 {
      SingleTokenIffNoSpace(lines[1]);
    }
  }

  /** The title of an event built from a stripped, non-empty text. */
  lemma EventFromTitle(t: string, x: Extraction)
    requires t != [] && !IsSpace(t[0])
    requires x.Extracted? ==> IsValid(x.start)
    requires EventFrom(t, x).Event?
    ensures var title := EventFrom(t, x).draft.title;
      && NonBlankLines(t) != []
      && title == NonBlankLines(t)[0]
      && title == Strip(t[..LineEnd(t)])
  {
  }

  /** Empty or whitespace-only text is not an event. */
  lemma BlankNotRecognized(text: string)
    requires forall j | 0 <= j < |text| :: IsSpace(text[j])
    ensures ParseSimpleEvent(text) == NotRecognized
  {
  }

  /** Text with no date token is not an event. */
  lemma NoDateNotRecognized(text: string)
    requires forall j: nat, c: DateCand :: !DateAccepts(Strip(text), j, c)
    ensures ParseSimpleEvent(text) == NotRecognized
  {
    StripIdempotent(text);
    NoDateNoResult(Strip(text));
  }

  /** Text with a date but no time is not an event: no time is ever assumed. */
  lemma NoTimeNotRecognized(text: string)
    requires forall k: nat, h: MarkerCand :: !MarkerAccepts(Strip(text), k, h)
    requires forall k: nat, b: BareCand :: !BareAccepts(Strip(text), k, b)
    ensures ParseSimpleEvent(text) == NotRecognized
  {
    StripIdempotent(text);
    NoTimeNoResult(Strip(text));
  }

  /** The start is what the extractor finds, and its errors are the parser's errors. */
  lemma StartIsExtracted(text: string)
    ensures var r := ParseSimpleEvent(text); var x := ExtractDateTime(text);
      && (r.Event? ==> x == Extracted(r.draft.start))
      && (r == NotRecognized <==> x == NoDateTime)
      && (r == ParseError(ValueError) <==> x.DateTimeError?)
  {
    var t := Strip(text);
    ExtractIgnoresSurroundingSpace(text);
    if t == [] {
      NoDateNoResult(text);
    } else {
      EventFromStart(t, ExtractDateTime(t));
    }
  }

  /** The end is the one valid date-time exactly an hour after the start. */
  lemma EndIsOneHourLater(text: string, e: DateTime)
    requires IsValid(e)
    ensures ParseSimpleEvent(text).Event? ==>
      var d := ParseSimpleEvent(text).draft;
      MinutesOf(e) == MinutesOf(d.start) + 60 <==> e == d.end
  {
    if ParseSimpleEvent(text).Event? {
      var t := Strip(text);
      EventFromEnd(t, ExtractDateTime(t));
      AddOneHourExact(ParseSimpleEvent(text).draft.start, e);
    }
  }

  /** Adding the hour overflows only for a start in the last hour of year 9999. */
  lemma OverflowOnlyInLastHour(text: string)
    ensures ParseSimpleEvent(text) == ParseError(OverflowError) <==>
      && ExtractDateTime(text).Extracted?
      && var s := ExtractDateTime(text).start;
      s.year == MAX_YEAR && s.month == 12 && s.day == 31 && s.hour == 23
  {
    var t := Strip(text);
    ExtractIgnoresSurroundingSpace(text);
    if t == [] {
      NoDateNoResult(text);
    } else {
      EventFromOverflow(t, ExtractDateTime(t));
    }
  }

  /**
   * The title is the first line of the stripped text, stripped. That line
   * is never blank, so the fallback title is never used.
   */
  lemma TitleIsFirstLine(text: string)
    ensures ParseSimpleEvent(text).Event? ==>
      var t := Strip(text); var title := ParseSimpleEvent(text).draft.title;
      && NonBlankLines(t) != []
      && title == NonBlankLines(t)[0]
      && title == Strip(t[..LineEnd(t)])
  {
    if ParseSimpleEvent(text).Event? {
      var t := Strip(text);
      EventFromTitle(t, ExtractDateTime(t));
    }
  }

  /** A stripped, non-empty line passes `^[^\s]+$` exactly when it holds no whitespace. */
  lemma SingleTokenIffNoSpace(s: string)
    requires s != [] && Strip(s) == s
    ensures IsSingleToken(s) <==> NoneSatisfy(s, IsSpace)
  {
    var n := SpanFrom(s, 0, c => !IsSpace(c));
    assert forall j | 0 <= j < n :: (c => !IsSpace(c))(s[j]);
    if n < |s| {
      assert (c => !IsSpace(c))(s[n]) == !IsSpace(s[n]);
    }
  }

  /** The location is the second non-blank line when it has no whitespace and no digit, else empty. */
  lemma LocationRule(text: string)
    ensures ParseSimpleEvent(text).Event? ==>
      var lines := NonBlankLines(Strip(text));
      ParseSimpleEvent(text).draft.location ==
        if |lines| >= 2 && NoneSatisfy(lines[1], IsSpace) && NoneSatisfy(lines[1], IsDigit) then lines[1] else ""
  {
    if ParseSimpleEvent(text).Event? {
      var t := Strip(text);
      EventFromLocation(t, ExtractDateTime(t));
    }
  }

  /**
   * In terms of the message's lines: after a non-blank first line and any
   * blank ones, the next non-blank line, stripped, is the location when it
   * holds no whitespace and no digit.
   */
  lemma LocationFromLines(text: string, first: string, blanks: seq<string>, second: string, rest: seq<string>)
    requires SplitLines(Strip(text)) == [first] + blanks + [second] + rest
    requires Strip(first) != [] && Strip(second) != []
    requires forall i | 0 <= i < |blanks| :: Strip(blanks[i]) == []
    ensures ParseSimpleEvent(text).Event? ==>
      ParseSimpleEvent(text).draft.location ==
        if NoneSatisfy(Strip(second), IsSpace) && NoneSatisfy(Strip(second), IsDigit) then Strip(second) else ""
  {
    SecondNonBlank(Strip(text), first, blanks, second, rest);
    LocationRule(text);
  }

  /** The caller's own `strip()` before calling the parser makes no difference. */
  lemma ParseIgnoresSurroundingSpace(text: string)
    ensures ParseSimpleEvent(Strip(text)) == ParseSimpleEvent(text)
  {
    StripIdempotent(text);
  }
}
