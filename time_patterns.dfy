/**
 * The two time patterns of `_extract_datetime`, tried in this order:
 *     \bh\s*([01]?\d|2[0-3])(?:[.:]([0-5]\d))?\b     (case-insensitive)
 *     \b([01]?\d|2[0-3])[.:]([0-5]\d)\b
 * Both share the hour group and the minute group.
 */
module TimePatterns {
  import opened Wrappers
  import opened Text
  import opened Search

  datatype ClockTime = ClockTime(hour: int, minute: int)

  /**
   * The hour group `([01]?\d|2[0-3])` has three ways to match, in the order
   * the engine tries them: 0 is `[01]\d` (the optional `[01]` taken), 1 is
   * `\d` (it skipped), 2 is `2[0-3]`.
   */
  function HourLen(alt: nat): nat {
    if alt == 1 then 1 else 2
  }

  predicate HourAt(t: string, p: nat, alt: nat) {
    && p + HourLen(alt) <= |t|
    && if alt == 0 then (t[p] == '0' || t[p] == '1') && IsDigit(t[p + 1])
       else if alt == 1 then IsDigit(t[p])
       else alt == 2 && t[p] == '2' && '0' <= t[p + 1] <= '3'
  }

  predicate DigitAt(t: string, k: nat) {
    k < |t| && IsDigit(t[k])
  }

  /** `[.:]([0-5]\d)` at position `q`. */
  predicate MinuteAt(t: string, q: nat) {
    && q + 3 <= |t|
    && (t[q] == '.' || t[q] == ':')
    && '0' <= t[q + 1] <= '5'
    && IsDigit(t[q + 2])
  }

  function HourValue(t: string, p: nat, alt: nat): (h: nat)
    requires HourAt(t, p, alt)
    ensures h <= 23
  {
    var s := t[p..p + HourLen(alt)];
    if alt == 1 then
      assert s[..0] == [];
      DecimalValue(s)
    else
      TwoDigitValue(s);
      DecimalValue(s)
  }

  function MinuteValue(t: string, q: nat): (m: nat)
    requires MinuteAt(t, q)
    ensures m <= 59
  {
    var s := t[q + 1..q + 3];
    TwoDigitValue(s);
    DecimalValue(s)
  }

  // ---------------------------------------------------------------------
  // The `h` marker pattern

  /** One way the marker pattern can match: whitespace taken by `\s*`, hour alternative, minute present. */
  datatype MarkerCand = MarkerCand(spaces: nat, alt: nat, minute: bool)

  predicate IsHourMarker(c: char) {
    c == 'h' || c == 'H'
  }

  function MarkerHourStart(i: nat, c: MarkerCand): nat {
    i + 1 + c.spaces
  }

  function MarkerEnd(i: nat, c: MarkerCand): nat {
    MarkerHourStart(i, c) + HourLen(c.alt) + (if c.minute then 3 else 0)
  }

  predicate MarkerAccepts(t: string, i: nat, c: MarkerCand) {
    && c.alt <= 2
    && i < |t| && AtBoundary(t, i) && IsHourMarker(t[i])
    && AllAt(t, i + 1, c.spaces, IsSpace)
    && HourAt(t, MarkerHourStart(i, c), c.alt)
    && (c.minute ==> MinuteAt(t, MarkerHourStart(i, c) + HourLen(c.alt)))
    && AtBoundary(t, MarkerEnd(i, c))
  }

  /**
   * The engine's preference between two ways of matching at one position:
   * the greedy `\s*` takes more whitespace first, then the hour
   * alternatives in order, then the optional minute group present first.
   */
  predicate MarkerBefore(a: MarkerCand, b: MarkerCand) {
    || a.spaces > b.spaces
    || (a.spaces == b.spaces && a.alt < b.alt)
    || (a.spaces == b.spaces && a.alt == b.alt && a.minute && !b.minute)
  }

  /** The place of a candidate in the engine's order for its amount of whitespace. */
  function MarkerRank(c: MarkerCand): nat {
    2 * c.alt + (if c.minute then 0 else 1)
  }

  function MarkerOrder(spaces: nat): (cs: seq<MarkerCand>)
    ensures |cs| == 6
    ensures forall j | 0 <= j < 6 :: cs[j].spaces == spaces && cs[j].alt <= 2 && MarkerRank(cs[j]) == j
  {
    [ MarkerCand(spaces, 0, true), MarkerCand(spaces, 0, false),
      MarkerCand(spaces, 1, true), MarkerCand(spaces, 1, false),
      MarkerCand(spaces, 2, true), MarkerCand(spaces, 2, false) ]
  }

  /**
   * The match of the marker pattern at `i`. Only the longest run of
   * whitespace is tried: a shorter one leaves a whitespace character where
   * the hour's first digit is needed.
   */
  function MarkerAt(t: string, i: nat): (r: Option<MarkerCand>)
    ensures r.Some? ==> MarkerAccepts(t, i, r.value)
  {
    if i < |t| then
      var cs := MarkerOrder(SpanFrom(t, i + 1, IsSpace));
      match FirstIn(cs, c => MarkerAccepts(t, i, c))
      case None => None
      case Some(k) => Some(cs[k])
    else None
  }

  lemma MarkerSpacesDetermined(t: string, i: nat, c: MarkerCand)
    requires MarkerAccepts(t, i, c)
    ensures c.spaces == SpanFrom(t, i + 1, IsSpace)
  {
    var n := SpanFrom(t, i + 1, IsSpace);
    var p := MarkerHourStart(i, c);
    assert IsDigit(t[p]) && !IsSpace(t[p]);
    assert c.spaces <= n;
    assert i + 1 + n < |t| ==> !IsSpace(t[i + 1 + n]);
  }

  /** The hour alternative is determined by whether a digit follows the first one. */
  lemma MarkerAltDetermined(t: string, i: nat, c: MarkerCand)
    requires MarkerAccepts(t, i, c)
    ensures c.alt == 1 <==> !DigitAt(t, MarkerHourStart(i, c) + 1)
    ensures c.alt == 2 <==> t[MarkerHourStart(i, c)] == '2' && DigitAt(t, MarkerHourStart(i, c) + 1)
  {
  }

  /** What the engine finds at `i` comes no later in its order than any match there. */
  lemma MarkerAtRank(t: string, i: nat, c: MarkerCand)
    requires MarkerAccepts(t, i, c)
    ensures MarkerAt(t, i).Some?
    ensures MarkerAt(t, i).value.spaces == c.spaces && MarkerRank(MarkerAt(t, i).value) <= MarkerRank(c)
  {
    MarkerSpacesDetermined(t, i, c);
    var cs := MarkerOrder(c.spaces);
    var ok := c' => MarkerAccepts(t, i, c');
    var k := MarkerRank(c);
    assert cs[k] == c;
    assert ok(cs[k]);
    var f := FirstIn(cs, ok);
    assert f.Some? && f.value <= k;
    assert MarkerAt(t, i) == Some(cs[f.value]);
  }

  /** What the engine finds at `i` is the preferred of all the ways the pattern matches there. */
  lemma MarkerAtBest(t: string, i: nat, c: MarkerCand)
    requires MarkerAccepts(t, i, c)
    ensures MarkerAt(t, i).Some?
    ensures MarkerAt(t, i).value == c || MarkerBefore(MarkerAt(t, i).value, c)
  {
    MarkerAtRank(t, i, c);
    MarkerSameAlt(t, i, MarkerAt(t, i).value, c);
  }

  /** Two matches at one position with the same whitespace use the same hour alternative. */
  lemma MarkerSameAlt(t: string, i: nat, a: MarkerCand, b: MarkerCand)
    requires MarkerAccepts(t, i, a) && MarkerAccepts(t, i, b) && a.spaces == b.spaces
    ensures a.alt == b.alt
  {
    MarkerAltDetermined(t, i, a);
    MarkerAltDetermined(t, i, b);
  }

  /**
   * A match at the leftmost position that takes the optional minute group,
   * or at which that group cannot match, is the one `re.search` returns.
   */
  lemma IsFirstMarkerIntro(t: string, i: nat, c: MarkerCand)
    requires MarkerAccepts(t, i, c)
    requires forall j: nat, c': MarkerCand | j < i :: !MarkerAccepts(t, j, c')
    requires c.minute || !MinuteAt(t, MarkerHourStart(i, c) + HourLen(c.alt))
    ensures IsFirstMarker(t, i, c)
  {
    forall c': MarkerCand | MarkerAccepts(t, i, c')
      ensures c' == c || MarkerBefore(c, c')
    {
      MarkerSpacesDetermined(t, i, c);
      MarkerSpacesDetermined(t, i, c');
      MarkerAltDetermined(t, i, c);
      MarkerAltDetermined(t, i, c');
    }
  }

  /** `re.search` with the marker pattern. */
  function SearchMarker(t: string): (r: Option<Hit<MarkerCand>>)
    ensures r.Some? ==> MarkerAccepts(t, r.value.pos, r.value.cand)
  {
    var r := SearchFrom(j => MarkerAt(t, j), 0, |t|);
    assert r.Some? ==> (j => MarkerAt(t, j))(r.value.pos) == MarkerAt(t, r.value.pos);
    r
  }

  /** `c` at `i` is what `re.search` must return: leftmost, and preferred there. */
  ghost predicate IsFirstMarker(t: string, i: nat, c: MarkerCand) {
    && MarkerAccepts(t, i, c)
    && (forall j: nat, c': MarkerCand | j < i :: !MarkerAccepts(t, j, c'))
    && (forall c': MarkerCand | MarkerAccepts(t, i, c') :: c' == c || MarkerBefore(c, c'))
  }

  lemma SearchMarkerSpec(t: string)
    ensures SearchMarker(t).Some? ==> IsFirstMarker(t, SearchMarker(t).value.pos, SearchMarker(t).value.cand)
    ensures SearchMarker(t).None? <==> forall j: nat, c: MarkerCand :: !MarkerAccepts(t, j, c)
  {
    var r := SearchMarker(t);
    var bound := if r.Some? then r.value.pos else |t| + 1;
    forall j: nat, c: MarkerCand | j < bound
      ensures !MarkerAccepts(t, j, c)
    {
      assert (j' => MarkerAt(t, j'))(j) == MarkerAt(t, j);
      if MarkerAccepts(t, j, c) {
        MarkerAtBest(t, j, c);
      }
    }
    if r.Some? {
      var h := r.value;
      assert (j' => MarkerAt(t, j'))(h.pos) == MarkerAt(t, h.pos);
      forall c': MarkerCand | MarkerAccepts(t, h.pos, c')
        ensures c' == h.cand || MarkerBefore(h.cand, c')
      {
        MarkerAtBest(t, h.pos, c');
      }
    }
  }

  lemma SearchMarkerFinds(t: string, i: nat, c: MarkerCand)
    requires IsFirstMarker(t, i, c)
    ensures SearchMarker(t) == Some(Hit(i, c))
  {
    SearchMarkerSpec(t);
    var h := SearchMarker(t).value;
    assert h.pos == i;
  }

  /** The time the marker pattern reads; a missing minute group means minute 0. */
  function MarkerTime(t: string, i: nat, c: MarkerCand): (r: ClockTime)
    requires MarkerAccepts(t, i, c)
    ensures 0 <= r.hour <= 23 && 0 <= r.minute <= 59
    ensures !c.minute ==> r.minute == 0
  {
    var p := MarkerHourStart(i, c);
    ClockTime(HourValue(t, p, c.alt), if c.minute then MinuteValue(t, p + HourLen(c.alt)) else 0)
  }

  // ---------------------------------------------------------------------
  // The bare `HH:MM` / `HH.MM` pattern

  /** One way the bare pattern can match: which hour alternative matched. */
  datatype BareCand = BareCand(alt: nat)

  function BareEnd(i: nat, c: BareCand): nat {
    i + HourLen(c.alt) + 3
  }

  predicate BareAccepts(t: string, i: nat, c: BareCand) {
    && c.alt <= 2
    && AtBoundary(t, i)
    && HourAt(t, i, c.alt)
    && MinuteAt(t, i + HourLen(c.alt))
    && AtBoundary(t, BareEnd(i, c))
  }

  const BARE_ORDER: seq<BareCand> := [BareCand(0), BareCand(1), BareCand(2)]

  function BareAt(t: string, i: nat): (r: Option<BareCand>)
    ensures r.Some? ==> BareAccepts(t, i, r.value)
  {
    match FirstIn(BARE_ORDER, c => BareAccepts(t, i, c))
    case None => None
    case Some(k) => Some(BARE_ORDER[k])
  }

  /** At one position the bare pattern matches in at most one way. */
  lemma BareMatchUnique(t: string, i: nat, c1: BareCand, c2: BareCand)
    requires BareAccepts(t, i, c1) && BareAccepts(t, i, c2)
    ensures c1 == c2
  {
    assert c1.alt == 1 <==> !DigitAt(t, i + 1);
    assert c2.alt == 1 <==> !DigitAt(t, i + 1);
  }

  lemma BareAtComplete(t: string, i: nat, c: BareCand)
    ensures BareAccepts(t, i, c) ==> BareAt(t, i) == Some(c)
  {
    if BareAccepts(t, i, c) {
      assert BARE_ORDER[c.alt] == c;
      assert (c' => BareAccepts(t, i, c'))(BARE_ORDER[c.alt]);
      BareMatchUnique(t, i, BareAt(t, i).value, c);
    }
  }

  function SearchBare(t: string): (r: Option<Hit<BareCand>>)
    ensures r.Some? ==> BareAccepts(t, r.value.pos, r.value.cand)
  {
    var r := SearchFrom(j => BareAt(t, j), 0, |t|);
    assert r.Some? ==> (j => BareAt(t, j))(r.value.pos) == BareAt(t, r.value.pos);
    r
  }

  ghost predicate IsFirstBare(t: string, i: nat, c: BareCand) {
    && BareAccepts(t, i, c)
    && forall j: nat, c': BareCand | j < i :: !BareAccepts(t, j, c')
  }

  lemma SearchBareSpec(t: string)
    ensures SearchBare(t).Some? ==> IsFirstBare(t, SearchBare(t).value.pos, SearchBare(t).value.cand)
    ensures SearchBare(t).None? <==> forall j: nat, c: BareCand :: !BareAccepts(t, j, c)
  {
    var r := SearchBare(t);
    var bound := if r.Some? then r.value.pos else |t| + 1;
    forall j: nat, c: BareCand | j < bound
      ensures !BareAccepts(t, j, c)
    {
      BareAtComplete(t, j, c);
      assert (j' => BareAt(t, j'))(j) == BareAt(t, j);
    }
  }

  lemma SearchBareFinds(t: string, i: nat, c: BareCand)
    requires IsFirstBare(t, i, c)
    ensures SearchBare(t) == Some(Hit(i, c))
  {
    SearchBareSpec(t);
    var h := SearchBare(t).value;
    assert h.pos == i;
    BareMatchUnique(t, i, h.cand, c);
  }

  function BareTime(t: string, i: nat, c: BareCand): (r: ClockTime)
    requires BareAccepts(t, i, c)
    ensures 0 <= r.hour <= 23 && 0 <= r.minute <= 59
  {
    ClockTime(HourValue(t, i, c.alt), MinuteValue(t, i + HourLen(c.alt)))
  }
}
