/** Calendar dates as the extractor reads and writes them, and the period extractor of
    utils.py (`extract_dates`). Dates are read from `DD.MM.YY` with
    `datetime.strptime(s, "%d.%m.%y")`, whose two-digit year follows the POSIX pivot:
    00 to 68 are 2000 to 2068, 69 to 99 are 1969 to 1999. */
module Period {
  import opened Wrappers
  import opened Text

  datatype Date = Date(year: int, month: int, day: int)

  predicate IsLeapYear(y: int) {
    y % 4 == 0 && (y % 100 != 0 || y % 400 == 0)
  }

  function DaysInMonth(y: int, m: int): int
    requires 1 <= m <= 12
  {
    if m == 2 then (if IsLeapYear(y) then 29 else 28)
    else if m in {4, 6, 9, 11} then 30
    else 31
  }

  /** A date `datetime` accepts. */
  predicate ValidDate(d: Date) {
    1 <= d.month <= 12 && 1 <= d.day <= DaysInMonth(d.year, d.month)
  }

  /** The years a two-digit year can stand for. */
  predicate InPivotWindow(d: Date) {
    1969 <= d.year <= 2068
  }

  /** `\d{2}\.\d{2}\.\d{2}` matched against the whole of `s`. */
  predicate IsDateToken(s: string) {
    && |s| == 8
    && IsDigit(s[0]) && IsDigit(s[1]) && s[2] == '.'
    && IsDigit(s[3]) && IsDigit(s[4]) && s[5] == '.'
    && IsDigit(s[6]) && IsDigit(s[7])
  }

  function DigitValue(c: char): nat
    requires IsDigit(c)
  {
    (c as int) - ('0' as int)
  }

  function Digit(n: nat): (c: char)
    requires n < 10
    ensures IsDigit(c) && DigitValue(c) == n
  {
    ('0' as int + n) as char
  }

  /** The number written by the two digits at `s[i]` and `s[i+1]`. */
  function TwoDigits(s: string, i: nat): (n: nat)
    requires i + 1 < |s| && IsDigit(s[i]) && IsDigit(s[i + 1])
    ensures n < 100
  {
    10 * DigitValue(s[i]) + DigitValue(s[i + 1])
  }

  /** The `%y` pivot. */
  function PivotYear(yy: nat): (y: int)
    requires yy < 100
    ensures 1969 <= y <= 2068 && y % 100 == yy
  {
    if yy <= 68 then 2000 + yy else 1900 + yy
  }

  /** `datetime.strptime(s, "%d.%m.%y")` on a string of the form `DD.MM.YY`: `None`
      where Python raises `ValueError` (day outside 01 to 31, month outside 01 to 12,
      or a day the month does not have). */
  function ParseShortDate(s: string): (r: Option<Date>)
    ensures r.Some? ==> IsDateToken(s) && ValidDate(r.value) && InPivotWindow(r.value)
  {
    if !IsDateToken(s) then None
    else
      var d := Date(PivotYear(TwoDigits(s, 6)), TwoDigits(s, 3), TwoDigits(s, 0));
      if ValidDate(d) then Some(d) else None
  }

  /** Two digits, zero-padded: `%d` and `%m` of `strftime`. */
  function Pad2(n: nat): (s: string)
    requires n < 100
    ensures |s| == 2 && IsDigit(s[0]) && IsDigit(s[1]) && TwoDigits(s, 0) == n
  {
    [Digit(n / 10), Digit(n % 10)]
  }

  /** Four digits, zero-padded: `%Y` for the years 0 to 9999. */
  function Pad4(n: nat): (s: string)
    requires n < 10000
    ensures |s| == 4 && AllDigits(s)
    ensures 100 * TwoDigits(s, 0) + TwoDigits(s, 2) == n
  {
    Pad2(n / 100) + Pad2(n % 100)
  }

  /** A date written `DD.MM.YY`, the form statements print. */
  function ShortForm(d: Date): (s: string)
    requires ValidDate(d) && InPivotWindow(d)
  {
    Pad2(d.day) + "." + Pad2(d.month) + "." + Pad2(d.year % 100)
  }

  /** Every valid date in the pivot window is read back from its short form. */
  lemma ShortFormRoundTrip(d: Date)
    requires ValidDate(d) && InPivotWindow(d)
    ensures ParseShortDate(ShortForm(d)) == Some(d)
  {
    var s := ShortForm(d);
    assert s[0..2] == Pad2(d.day) && s[3..5] == Pad2(d.month) && s[6..8] == Pad2(d.year % 100);
    PairAt(s, 0, Pad2(d.day));
    PairAt(s, 3, Pad2(d.month));
    PairAt(s, 6, Pad2(d.year % 100));
    assert IsDateToken(s);
    PivotBack(d.year);
  }

  /** The pivot recovers every year of its window from the last two digits. */
  lemma PivotBack(y: int)
    requires 1969 <= y <= 2068
    ensures PivotYear(y % 100) == y
  {
    if y < 2000 {
      assert y % 100 == y - 1900;
    } else {
      assert y % 100 == y - 2000;
    }
  }

  /** Two digits copied into a string keep their value there. */
  lemma PairAt(s: string, i: nat, pair: string)
    requires |pair| == 2 && IsDigit(pair[0]) && IsDigit(pair[1])
    requires i + 2 <= |s| && s[i..i + 2] == pair
    ensures IsDigit(s[i]) && IsDigit(s[i + 1]) && TwoDigits(s, i) == TwoDigits(pair, 0)
  {
    assert s[i] == pair[0] && s[i + 1] == pair[1];
  }

  /** Conversely, whatever is read is written back as the same string, so reading is
      one-to-one on the strings it accepts. */
  lemma ParseShortDateInverse(s: string)
    requires ParseShortDate(s).Some?
    ensures ShortForm(ParseShortDate(s).value) == s
  {
    var d := ParseShortDate(s).value;
    var t := ShortForm(d);
    assert TwoDigits(s, 6) == d.year % 100;
    DigitsDetermined(s, t, 0);
    DigitsDetermined(s, t, 3);
    DigitsDetermined(s, t, 6);
  }

  /** Two digit pairs with the same value are the same characters. */
  lemma DigitsDetermined(s: string, t: string, i: nat)
    requires i + 1 < |s| && i + 1 < |t|
    requires IsDigit(s[i]) && IsDigit(s[i + 1]) && IsDigit(t[i]) && IsDigit(t[i + 1])
    requires TwoDigits(s, i) == TwoDigits(t, i)
    ensures s[i] == t[i] && s[i + 1] == t[i + 1]
  {
  }

  /** `strftime("%Y-%m-%d")`, the form of a transaction's operation date. */
  function IsoForm(d: Date): (s: string)
    requires ValidDate(d) && 0 <= d.year < 10000
    ensures |s| == 10 && s[4] == '-' && s[7] == '-'
  {
    Pad4(d.year) + "-" + Pad2(d.month) + "-" + Pad2(d.day)
  }

  /** `strftime("%d.%m.%Y")`, the display form of the statement period. */
  function DisplayForm(d: Date): (s: string)
    requires ValidDate(d) && 0 <= d.year < 10000
    ensures |s| == 10 && s[2] == '.' && s[5] == '.'
  {
    Pad2(d.day) + "." + Pad2(d.month) + "." + Pad4(d.year)
  }

  /** Reads the date back from the `%d.%m.%Y` form. */
  function ReadDisplay(s: string): Date
    requires |s| == 10 && AllDigits(s[..2]) && AllDigits(s[3..5]) && AllDigits(s[6..])
  {
    Date(100 * TwoDigits(s, 6) + TwoDigits(s, 8), TwoDigits(s, 3), TwoDigits(s, 0))
  }

  /** The display form loses nothing: its digits are the day, the month and the year. */
  lemma DisplayFormRoundTrip(d: Date)
    requires ValidDate(d) && 0 <= d.year < 10000
    ensures var s := DisplayForm(d);
      AllDigits(s[..2]) && AllDigits(s[3..5]) && AllDigits(s[6..]) && ReadDisplay(s) == d
  {
    var s := DisplayForm(d);
    var dd, m, y := Pad2(d.day), Pad2(d.month), Pad4(d.year);
    assert s[..2] == dd && s[3..5] == m && s[6..] == y;
    PairAt(s, 0, dd);
    PairAt(s, 3, m);
    PairAt(s, 6, y[..2]);
    PairAt(s, 8, y[2..]);
    assert TwoDigits(y[..2], 0) == TwoDigits(y, 0) && TwoDigits(y[2..], 0) == TwoDigits(y, 2);
  }

  /** `datetime.isoformat()` of a date read by `strptime`, whose time is midnight. */
  function IsoDateTime(d: Date): (s: string)
    requires ValidDate(d) && 0 <= d.year < 10000
    ensures |s| == 19 && s[..10] == IsoForm(d) && s[10..] == "T00:00:00"
  {
    IsoForm(d) + "T00:00:00"
  }

  /** The date is read back from the date part of its `isoformat()`, whose time part is
      midnight. */
  lemma IsoDateTimeRoundTrip(d: Date)
    requires ValidDate(d) && 0 <= d.year < 10000
    ensures var s := IsoDateTime(d)[..10];
      AllDigits(s[..4]) && AllDigits(s[5..7]) && AllDigits(s[8..]) && ReadIso(s) == d
  {
    IsoFormRoundTrip(d);
  }

  /** Reads the date back from the `%Y-%m-%d` form. */
  function ReadIso(s: string): Date
    requires |s| == 10 && AllDigits(s[..4]) && AllDigits(s[5..7]) && AllDigits(s[8..])
  {
    Date(100 * TwoDigits(s, 0) + TwoDigits(s, 2), TwoDigits(s, 5), TwoDigits(s, 8))
  }

  /** The ISO form loses nothing: the date is read back from it. */
  lemma IsoFormRoundTrip(d: Date)
    requires ValidDate(d) && 0 <= d.year < 10000
    ensures var s := IsoForm(d);
      AllDigits(s[..4]) && AllDigits(s[5..7]) && AllDigits(s[8..]) && ReadIso(s) == d
  {
    var s := IsoForm(d);
    var y, m, dd := Pad4(d.year), Pad2(d.month), Pad2(d.day);
    assert s[..4] == y && s[5..7] == m && s[8..] == dd;
    assert TwoDigits(s, 0) == TwoDigits(y, 0) && TwoDigits(s, 2) == TwoDigits(y, 2);
    assert TwoDigits(s, 5) == TwoDigits(m, 0) && TwoDigits(s, 8) == TwoDigits(dd, 0);
  }

  /** One phrasing of "statement period from DATE to DATE": literal text around two
      `DD.MM.YY` captures. */
  datatype Phrasing = Phrasing(lead: string, middle: string, tail: string) {
    function FirstAt(p: nat): nat { p + |lead| }
    function SecondAt(p: nat): nat { p + |lead| + 8 + |middle| }
    function End(p: nat): nat { SecondAt(p) + 8 + |tail| }
  }

  /** The three alternatives of the period regex, in the order the regex tries them. */
  const Phrasings: seq<Phrasing> := [
    Phrasing("period from ", " to ", ""),
    Phrasing("с ", " по ", ""),
    Phrasing("", "ж. бастап ", "ж")
  ]

  /** Phrasing `ph` matches at index `p` of `text`. */
  predicate MatchesAt(text: string, p: nat, ph: Phrasing) {
    && ph.End(p) <= |text|
    && OccursAt(text, ph.lead, p)
    && IsDateToken(text[ph.FirstAt(p)..ph.FirstAt(p) + 8])
    && OccursAt(text, ph.middle, ph.FirstAt(p) + 8)
    && IsDateToken(text[ph.SecondAt(p)..ph.SecondAt(p) + 8])
    && OccursAt(text, ph.tail, ph.SecondAt(p) + 8)
  }

  /** The first alternative at or after index `k` that matches at `p`. */
  function AlternativeAt(text: string, p: nat, k: nat): (r: Option<nat>)
    ensures r.Some? ==> k <= r.value < |Phrasings| && MatchesAt(text, p, Phrasings[r.value])
    ensures r.Some? ==> forall j :: k <= j < r.value ==> !MatchesAt(text, p, Phrasings[j])
    ensures r.None? ==> forall j :: k <= j < |Phrasings| ==> !MatchesAt(text, p, Phrasings[j])
    decreases |Phrasings| - k
  {
    if k >= |Phrasings| then None
    else if MatchesAt(text, p, Phrasings[k]) then Some(k)
    else AlternativeAt(text, p, k + 1)
  }

  /** `re.search` of the period regex from index `from`: the leftmost position where
      some alternative matches, with the first alternative that matches there. */
  function FindPeriod(text: string, from: nat): (r: Option<(nat, nat)>)
    ensures r.Some? ==> var (p, k) := r.value;
      && from <= p && k < |Phrasings| && MatchesAt(text, p, Phrasings[k])
      && (forall j :: 0 <= j < k ==> !MatchesAt(text, p, Phrasings[j]))
      && (forall q, j :: from <= q < p && 0 <= j < |Phrasings| ==> !MatchesAt(text, q, Phrasings[j]))
    ensures r.None? ==> forall q, j :: from <= q && 0 <= j < |Phrasings| ==> !MatchesAt(text, q, Phrasings[j])
    decreases |text| - from
  {
    if from > |text| then
      NoMatchPast(text, from);
      None
    else
      match AlternativeAt(text, from, 0)
      case Some(k) => Some((from, k))
      case None =>
        var r := FindPeriod(text, from + 1);
        if r.Some? then NoMatchBefore(text, from, r.value.0); r
        else NoMatchFrom(text, from); r
  }

  /** No match at `from` and none from `from + 1` up to `p` is none from `from` up to `p`. */
  lemma NoMatchBefore(text: string, from: nat, p: nat)
    requires forall j :: 0 <= j < |Phrasings| ==> !MatchesAt(text, from, Phrasings[j])
    requires forall q, j :: from + 1 <= q < p && 0 <= j < |Phrasings| ==> !MatchesAt(text, q, Phrasings[j])
    ensures forall q, j :: from <= q < p && 0 <= j < |Phrasings| ==> !MatchesAt(text, q, Phrasings[j])
  {
  }

  /** No match at `from` and none from `from + 1` on is none from `from` on. */
  lemma NoMatchFrom(text: string, from: nat)
    requires forall j :: 0 <= j < |Phrasings| ==> !MatchesAt(text, from, Phrasings[j])
    requires forall q, j :: from + 1 <= q && 0 <= j < |Phrasings| ==> !MatchesAt(text, q, Phrasings[j])
    ensures forall q, j :: from <= q && 0 <= j < |Phrasings| ==> !MatchesAt(text, q, Phrasings[j])
  {
  }

  /** No phrasing matches past the end of the text. */
  lemma NoMatchPast(text: string, from: nat)
    requires from > |text|
    ensures forall q, j :: from <= q && 0 <= j < |Phrasings| ==> !MatchesAt(text, q, Phrasings[j])
  {
    forall q, j | from <= q && 0 <= j < |Phrasings| ensures !MatchesAt(text, q, Phrasings[j]) {
      assert Phrasings[j].End(q) >= q;
    }
  }

  datatype PeriodError =
    | PeriodNotFound   // "Couldn't find statement period in PDF text"
    | BadPeriodDate    // `strptime` rejected a captured date

  /** The two captured date strings of a match of `ph` at `p`. */
  function Captures(text: string, p: nat, ph: Phrasing): (string, string)
    requires MatchesAt(text, p, ph)
  {
    (text[ph.FirstAt(p)..ph.FirstAt(p) + 8], text[ph.SecondAt(p)..ph.SecondAt(p) + 8])
  }

  /** `extract_dates`: the two dates of the leftmost match, in the order they are
      written; the first is read before the second. */
  function ExtractDates(text: string): (r: Result<(Date, Date), PeriodError>)
    ensures r == Failure(PeriodNotFound) <==>
      forall q, j :: 0 <= q && 0 <= j < |Phrasings| ==> !MatchesAt(text, q, Phrasings[j])
    ensures r.Success? ==> var (from, to) := r.value;
      ValidDate(from) && InPivotWindow(from) && ValidDate(to) && InPivotWindow(to)
  {
    match FindPeriod(text, 0)
    case None => Failure(PeriodNotFound)
    case Some((p, k)) =>
      var (first, second) := Captures(text, p, Phrasings[k]);
      match ParseShortDate(first)
      case None => Failure(BadPeriodDate)
      case Some(from) =>
        match ParseShortDate(second)
        case None => Failure(BadPeriodDate)
        case Some(to) => Success((from, to))
  }

  /** The leftmost phrasing decides the period, whatever occurs later in the text. */
  lemma ExtractDatesLeftmost(text: string, p: nat, k: nat)
    requires k < |Phrasings| && MatchesAt(text, p, Phrasings[k])
    requires forall j :: 0 <= j < k ==> !MatchesAt(text, p, Phrasings[j])
    requires forall q, j :: 0 <= q < p && 0 <= j < |Phrasings| ==> !MatchesAt(text, q, Phrasings[j])
    ensures var (first, second) := Captures(text, p, Phrasings[k]);
      ExtractDates(text) ==
        if ParseShortDate(first).Some? && ParseShortDate(second).Some?
        then Success((ParseShortDate(first).value, ParseShortDate(second).value))
        else Failure(BadPeriodDate)
  {
    var r := FindPeriod(text, 0);
    assert r.Some?;
    var (p', k') := r.value;
    assert p' == p;
    assert k' == k;
  }
}
