/**
 * The date pattern of `_extract_datetime`:
 *     \b(\d{1,2})[\/.](\d{1,2})[\/.](\d{2,4})\b
 * a day of one or two digits, a separator, a month of one or two digits, a
 * separator, a year of two to four digits. The two separators are chosen
 * independently, so `13/2.26` is a date token.
 */
module DatePattern {
  import opened Wrappers
  import opened Text
  import opened Search

  /** One way the pattern can match: how many digits each group took. */
  datatype DateCand = DateCand(dayLen: nat, monthLen: nat, yearLen: nat)

  predicate IsDateSep(c: char) {
    c == '/' || c == '.'
  }

  function MonthStart(i: nat, c: DateCand): nat {
    i + c.dayLen + 1
  }

  function YearStart(i: nat, c: DateCand): nat {
    i + c.dayLen + c.monthLen + 2
  }

  function DateEnd(i: nat, c: DateCand): nat {
    YearStart(i, c) + c.yearLen
  }

  /** The pattern matches `t` from position `i` with the groups sized as `c` says. */
  predicate DateAccepts(t: string, i: nat, c: DateCand) {
    && 1 <= c.dayLen <= 2 && 1 <= c.monthLen <= 2 && 2 <= c.yearLen <= 4
    && DateEnd(i, c) <= |t|
    && AtBoundary(t, i)
    && AllAt(t, i, c.dayLen, IsDigit)
    && IsDateSep(t[i + c.dayLen])
    && AllAt(t, MonthStart(i, c), c.monthLen, IsDigit)
    && IsDateSep(t[YearStart(i, c) - 1])
    && AllAt(t, YearStart(i, c), c.yearLen, IsDigit)
    && AtBoundary(t, DateEnd(i, c))
  }

  /** The order in which the engine tries the groups: each greedy quantifier longest first. */
  const DATE_ORDER: seq<DateCand> := [
    DateCand(2, 2, 4), DateCand(2, 2, 3), DateCand(2, 2, 2),
    DateCand(2, 1, 4), DateCand(2, 1, 3), DateCand(2, 1, 2),
    DateCand(1, 2, 4), DateCand(1, 2, 3), DateCand(1, 2, 2),
    DateCand(1, 1, 4), DateCand(1, 1, 3), DateCand(1, 1, 2)
  ]

  /** The match of the pattern at position `i`, if any. */
  function DateAt(t: string, i: nat): (r: Option<DateCand>)
    ensures r.Some? ==> DateAccepts(t, i, r.value)
  {
    match FirstIn(DATE_ORDER, c => DateAccepts(t, i, c))
    case None => None
    case Some(k) => Some(DATE_ORDER[k])
  }

  /**
   * At one position the pattern matches in at most one way: each group
   * takes a whole run of digits, since a shorter take would leave a digit
   * where a separator or a word boundary is needed.
   */
  lemma DateMatchUnique(t: string, i: nat, c1: DateCand, c2: DateCand)
    requires DateAccepts(t, i, c1) && DateAccepts(t, i, c2)
    ensures c1 == c2
  {
    assert c1.dayLen == 2 <==> IsDigit(t[i + 1]);
    assert c2.dayLen == 2 <==> IsDigit(t[i + 1]);
    var m := MonthStart(i, c1);
    assert c1.monthLen == 2 <==> IsDigit(t[m + 1]);
    assert c2.monthLen == 2 <==> IsDigit(t[m + 1]);
    var y := YearStart(i, c1);
    assert c1.yearLen > 2 <==> y + 2 < |t| && IsDigit(t[y + 2]);
    assert c2.yearLen > 2 <==> y + 2 < |t| && IsDigit(t[y + 2]);
    assert c1.yearLen > 3 <==> c1.yearLen > 2 && y + 3 < |t| && IsDigit(t[y + 3]);
    assert c2.yearLen > 3 <==> c2.yearLen > 2 && y + 3 < |t| && IsDigit(t[y + 3]);
  }

  lemma DateAtComplete(t: string, i: nat, c: DateCand)
    ensures DateAccepts(t, i, c) ==> DateAt(t, i) == Some(c)
  {
    if DateAccepts(t, i, c) {
      assert c in DATE_ORDER;
      var k :| 0 <= k < |DATE_ORDER| && DATE_ORDER[k] == c;
      assert (c => DateAccepts(t, i, c))(DATE_ORDER[k]);
      DateMatchUnique(t, i, DateAt(t, i).value, c);
    }
  }

  /** `re.search` with the date pattern. */
  function SearchDate(t: string): (r: Option<Hit<DateCand>>)
    ensures r.Some? ==> DateAccepts(t, r.value.pos, r.value.cand)
  {
    var r := SearchFrom(j => DateAt(t, j), 0, |t|);
    assert r.Some? ==> (j => DateAt(t, j))(r.value.pos) == DateAt(t, r.value.pos);
    r
  }

  /** `c` at `i` is the leftmost match of the date pattern in `t`. */
  ghost predicate IsFirstDate(t: string, i: nat, c: DateCand) {
    && DateAccepts(t, i, c)
    && forall j: nat, c': DateCand | j < i :: !DateAccepts(t, j, c')
  }

  /** `re.search` returns the leftmost match, and finds none only when there is none. */
  lemma SearchDateSpec(t: string)
    ensures SearchDate(t).Some? ==> IsFirstDate(t, SearchDate(t).value.pos, SearchDate(t).value.cand)
    ensures SearchDate(t).None? <==> forall j: nat, c: DateCand :: !DateAccepts(t, j, c)
  {
    var r := SearchDate(t);
    var bound := if r.Some? then r.value.pos else |t| + 1;
    forall j: nat, c: DateCand | j < bound
      ensures !DateAccepts(t, j, c)
    {
      DateAtComplete(t, j, c);
      assert (j' => DateAt(t, j'))(j) == DateAt(t, j);
    }
  }

  lemma SearchDateFinds(t: string, i: nat, c: DateCand)
    requires IsFirstDate(t, i, c)
    ensures SearchDate(t) == Some(Hit(i, c))
  {
    SearchDateSpec(t);
    var h := SearchDate(t).value;
    assert h.pos == i;
    DateMatchUnique(t, i, h.cand, c);
  }

  /** The integer values of the three groups. */
  function DayValue(t: string, i: nat, c: DateCand): nat
    requires DateAccepts(t, i, c)
  {
    DecimalValue(t[i..i + c.dayLen])
  }

  function MonthValue(t: string, i: nat, c: DateCand): nat
    requires DateAccepts(t, i, c)
  {
    DecimalValue(t[MonthStart(i, c)..MonthStart(i, c) + c.monthLen])
  }

  function YearValue(t: string, i: nat, c: DateCand): nat
    requires DateAccepts(t, i, c)
  {
    DecimalValue(t[YearStart(i, c)..DateEnd(i, c)])
  }
}
