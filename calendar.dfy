/** Gregorian calendar arithmetic and the fixed-width date texts the store
    and the Drive queries are built from. Dates are explicit
    (year, month, day) triples instead of JavaScript `Date` objects. */
module Calendar {
  import opened Wrappers
  import opened JsText

  predicate IsLeapYear(y: int) {
    (y % 4 == 0 && y % 100 != 0) || y % 400 == 0
  }

  /** The number of days in month `m` (1 to 12) of year `y`. */
  function DaysInMonth(y: int, m: int): (r: int)
    requires 1 <= m <= 12
    ensures 28 <= r <= 31
    ensures m == 2 ==> (r == 29 <==> IsLeapYear(y))
  {
    if m == 2 then (if IsLeapYear(y) then 29 else 28)
    else if m == 4 || m == 6 || m == 9 || m == 11 then 30
    else 31
  }

  /** `new Date(year, month, 0).getDate()` with a 1-based `month`: the day
      before the first of the 0-based month `month`, i.e. the last day of
      the 1-based month `month`. The Date constructor reads a year from 0
      to 99 as 1900 plus that year, and carries months outside 0..11 into
      the year. */
  function JsLastDayOfMonth(year: int, month: int): (r: int)
    ensures 28 <= r <= 31
  {
    var yr := if 0 <= year <= 99 then 1900 + year else year;
    var carriedYear := yr + month / 12;
    var monthIndex := month % 12;
    if monthIndex == 0 then DaysInMonth(carriedYear - 1, 12)
    else DaysInMonth(carriedYear, monthIndex)
  }

  /** For the months 1 to 12 of a year past 99, the Date trick yields the
      Gregorian month length, leap Februaries included. */
  lemma LastDayIsMonthLength(year: int, month: int)
    requires 1 <= month <= 12
    requires !(0 <= year <= 99)
    ensures JsLastDayOfMonth(year, month) == DaysInMonth(year, month)
  {
    if month == 12 {
      assert month / 12 == 1 && month % 12 == 0;
    } else {
      assert month / 12 == 0 && month % 12 == month;
    }
  }

  // ---------------------------------------------------------------------
  // Fixed-width decimal texts
  // ---------------------------------------------------------------------

  function Pow10(w: nat): (r: nat)
    ensures r >= 1
  {
    if w == 0 then 1 else 10 * Pow10(w - 1)
  }

  /** The last `w` decimal digits of `n`, zero-padded. */
  function Digits(n: nat, w: nat): (r: string)
    ensures |r| == w && AllDigits(r)
  {
    if w == 0 then [] else Digits(n / 10, w - 1) + [DigitChar(n % 10)]
  }

  /** Between numbers that fit in `w` digits, the order of the zero-padded
      texts is the order of the numbers. */
  lemma {:induction false} DigitsOrder(x: nat, y: nat, w: nat)
    requires x < Pow10(w) && y < Pow10(w)
    ensures LexLess(Digits(x, w), Digits(y, w)) <==> x < y
    ensures Digits(x, w) == Digits(y, w) <==> x == y
  {
    if w == 0 {
      assert x == 0 && y == 0;
    } else {
      var hx, hy := Digits(x / 10, w - 1), Digits(y / 10, w - 1);
      var cx, cy := DigitChar(x % 10), DigitChar(y % 10);
      assert x / 10 < Pow10(w - 1) && y / 10 < Pow10(w - 1);
      DigitsOrder(x / 10, y / 10, w - 1);
      assert DigitValue(cx) == x % 10 && DigitValue(cy) == y % 10;
      if x / 10 == y / 10 {
        LexLessCommonPrefix(hx, [cx], [cy]);
        assert cx < cy <==> x % 10 < y % 10;
        assert (Digits(x, w) == Digits(y, w)) == (cx == cy) by {
          assert Digits(x, w)[w - 1] == cx && Digits(y, w)[w - 1] == cy;
        }
      } else {
        LexLessDifferentHeads(hx, [cx], hy, [cy]);
        assert Digits(x, w) != Digits(y, w) by {
          assert Digits(x, w)[..w - 1] == hx && Digits(y, w)[..w - 1] == hy;
        }
      }
    }
  }

  /** `${n}` writes a number of 1 to `w` digits as its `w`-digit text with the
      leading zeros left out; for a number that needs exactly `w` digits the
      two texts agree. */
  lemma {:induction false} NatToStringFixedWidth(n: nat, w: nat)
    requires w >= 1 && Pow10(w - 1) <= n < Pow10(w)
    ensures NatToString(n) == Digits(n, w)
  {
    if w > 1 {
      assert Pow10(w - 2) <= n / 10 < Pow10(w - 1);
      NatToStringFixedWidth(n / 10, w - 1);
    }
  }

  /** `m.toString().padStart(2, '0')` for 0 <= m <= 99. */
  lemma PadStart2Digits(m: nat)
    requires m < 100
    ensures PadStart2(IntToString(m)) == Digits(m, 2)
  {
    if m == 0 {
      assert Digits(0, 2) == "00";
    } else if m < 10 {
      NatToStringFixedWidth(m, 1);
    } else {
      NatToStringFixedWidth(m, 2);
    }
  }

  // ---------------------------------------------------------------------
  // ISO 8601 calendar dates, YYYY-MM-DD
  // ---------------------------------------------------------------------

  /** The `YYYY-MM-DD` text of a date with a four-digit year. */
  function IsoDate(y: nat, m: nat, d: nat): (r: string)
    ensures |r| == 10
  {
    Digits(y, 4) + MonthDayText(m, d)
  }

  predicate DateLess(y1: int, m1: int, d1: int, y2: int, m2: int, d2: int) {
    y1 < y2 || (y1 == y2 && (m1 < m2 || (m1 == m2 && d1 < d2)))
  }

  /** Comparing two `YYYY-MM-DD` texts as SQLite does is comparing the dates. */
  lemma IsoDateOrder(y1: nat, m1: nat, d1: nat, y2: nat, m2: nat, d2: nat)
    requires y1 < 10000 && y2 < 10000 && m1 < 100 && m2 < 100 && d1 < 100 && d2 < 100
    ensures LexLess(IsoDate(y1, m1, d1), IsoDate(y2, m2, d2)) <==> DateLess(y1, m1, d1, y2, m2, d2)
  {
    assert Pow10(4) == 10000;
    DigitsOrder(y1, y2, 4);
    var Y1, Y2 := Digits(y1, 4), Digits(y2, 4);
    var t1, t2 := MonthDayText(m1, d1), MonthDayText(m2, d2);
    if y1 != y2 {
      LexLessDifferentHeads(Y1, t1, Y2, t2);
    } else {
      LexLessCommonPrefix(Y1, t1, t2);
      MonthDayOrder(m1, d1, m2, d2);
    }
  }

  /** The `-MM-DD` tail of an ISO date. */
  function MonthDayText(m: nat, d: nat): string {
    "-" + (Digits(m, 2) + ("-" + Digits(d, 2)))
  }

  lemma MonthDayOrder(m1: nat, d1: nat, m2: nat, d2: nat)
    requires m1 < 100 && m2 < 100 && d1 < 100 && d2 < 100
    ensures LexLess(MonthDayText(m1, d1), MonthDayText(m2, d2)) <==> (m1 < m2 || (m1 == m2 && d1 < d2))
  {
    assert Pow10(2) == 100;
    DigitsOrder(m1, m2, 2);
    DigitsOrder(d1, d2, 2);
    var M1, M2 := Digits(m1, 2), Digits(m2, 2);
    var D1, D2 := Digits(d1, 2), Digits(d2, 2);
    LexLessCommonPrefix("-", M1 + ("-" + D1), M2 + ("-" + D2));
    if m1 != m2 {
      LexLessDifferentHeads(M1, "-" + D1, M2, "-" + D2);
    } else {
      LexLessCommonPrefix(M1, "-" + D1, "-" + D2);
      LexLessCommonPrefix("-", D1, D2);
    }
  }

  /** The month after (y, m), December rolling over to January. */
  function NextMonth(y: int, m: int): (r: (int, int))
    requires 1 <= m <= 12
    ensures 1 <= r.1 <= 12
    ensures DateLess(y, m, 1, r.0, r.1, 1)
    ensures forall y', m' :: 1 <= m' <= 12 && DateLess(y, m, 1, y', m', 1) ==> !DateLess(y', m', 1, r.0, r.1, 1)
  {
    if m == 12 then (y + 1, 1) else (y, m + 1)
  }

  /** A well-formed `YYYY-MM-DD` text, read back into its fields. */
  predicate IsIsoDateText(s: string) {
    |s| == 10 && s[4] == '-' && s[7] == '-' &&
    AllDigits(s[..4]) && AllDigits(s[5..7]) && AllDigits(s[8..])
  }

  function IsoYear(s: string): nat requires IsIsoDateText(s) { DigitsValue(s[..4]) }
  function IsoMonth(s: string): nat requires IsIsoDateText(s) { DigitsValue(s[5..7]) }
  function IsoDay(s: string): nat requires IsIsoDateText(s) { DigitsValue(s[8..]) }

  lemma {:induction false} DigitsValueOfDigits(n: nat, w: nat)
    requires n < Pow10(w)
    ensures DigitsValue(Digits(n, w)) == n
  {
    if w > 0 {
      var r := Digits(n, w);
      assert r[..w - 1] == Digits(n / 10, w - 1);
      DigitsValueOfDigits(n / 10, w - 1);
    }
  }

  lemma {:induction false} DigitsOfDigitsValue(s: string)
    requires AllDigits(s)
    ensures DigitsValue(s) < Pow10(|s|)
    ensures Digits(DigitsValue(s), |s|) == s
  {
    if s != [] {
      var p := s[..|s| - 1];
      DigitsOfDigitsValue(p);
      var v := DigitsValue(s);
      assert v / 10 == DigitsValue(p) && v % 10 == DigitValue(s[|s| - 1]);
      assert DigitChar(v % 10) == s[|s| - 1];
      assert s == p + [s[|s| - 1]];
    }
  }

  /** Reading the fields of a `YYYY-MM-DD` text and writing them again gives
      the same text, and the other way round. */
  lemma IsoDateRoundTrip(s: string)
    requires IsIsoDateText(s)
    ensures IsoYear(s) < 10000 && IsoMonth(s) < 100 && IsoDay(s) < 100
    ensures IsoDate(IsoYear(s), IsoMonth(s), IsoDay(s)) == s
  {
    DigitsOfDigitsValue(s[..4]);
    DigitsOfDigitsValue(s[5..7]);
    DigitsOfDigitsValue(s[8..]);
    assert Pow10(4) == 10000 && Pow10(2) == 100;
    assert s == s[..4] + "-" + s[5..7] + "-" + s[8..];
  }

  lemma IsoDateFields(y: nat, m: nat, d: nat)
    requires y < 10000 && m < 100 && d < 100
    ensures IsIsoDateText(IsoDate(y, m, d))
    ensures IsoYear(IsoDate(y, m, d)) == y && IsoMonth(IsoDate(y, m, d)) == m
    ensures IsoDay(IsoDate(y, m, d)) == d
  {
    var s := IsoDate(y, m, d);
    assert Pow10(4) == 10000 && Pow10(2) == 100;
    assert s[..4] == Digits(y, 4) && s[5..7] == Digits(m, 2) && s[8..] == Digits(d, 2);
    DigitsValueOfDigits(y, 4);
    DigitsValueOfDigits(m, 2);
    DigitsValueOfDigits(d, 2);
  }

  // ---------------------------------------------------------------------
  // Days as `Date` objects hold them
  // ---------------------------------------------------------------------

  /** A calendar day. */
  datatype Day = Day(year: int, month: int, day: int)

  /** Day `a` is not after day `b`: `getTime()` of the two midnights
      compares as the calendar does. */
  predicate DayLe(a: Day, b: Day) {
    !DateLess(b.year, b.month, b.day, a.year, a.month, a.day)
  }

  /** A `YYYY-MM-DD` text naming a day that exists. */
  predicate IsRealIsoDate(s: string) {
    IsIsoDateText(s) && 1 <= IsoMonth(s) <= 12 && 1 <= IsoDay(s) <= DaysInMonth(IsoYear(s), IsoMonth(s))
  }

  /** The day a real `YYYY-MM-DD` text names. */
  function IsoDay3(s: string): (r: Day)
    requires IsRealIsoDate(s)
    ensures 1 <= r.month <= 12 && 1 <= r.day <= DaysInMonth(r.year, r.month)
  {
    Day(IsoYear(s), IsoMonth(s), IsoDay(s))
  }

  /** The day that year `y`, month `m` and day number `d` (1 to 31) stand
      for when a day past the end of the month carries into the next
      month, as SQLite's date functions and V8's `Date` parser both do:
      `2025-02-30` is the second of March. */
  function CarryDay(y: int, m: int, d: int): (r: Day)
    requires 1 <= m <= 12 && 1 <= d <= 31
    ensures 1 <= r.month <= 12 && 1 <= r.day <= DaysInMonth(r.year, r.month)
    ensures d <= DaysInMonth(y, m) ==> r == Day(y, m, d)
    ensures d > DaysInMonth(y, m) ==>
      (r.year, r.month) == NextMonth(y, m) && r.day == d - DaysInMonth(y, m)
  {
    if d <= DaysInMonth(y, m) then Day(y, m, d)
    else
      var next := NextMonth(y, m);
      Day(next.0, next.1, d - DaysInMonth(y, m))
  }

  /** A `YYYY-MM-DD` text with a month from 1 to 12 and a day from 1 to 31,
      the date form SQLite and V8 accept. */
  predicate IsLooseIsoDate(s: string) {
    IsIsoDateText(s) && 1 <= IsoMonth(s) <= 12 && 1 <= IsoDay(s) <= 31
  }

  function LooseIsoDay(s: string): Day
    requires IsLooseIsoDate(s)
  {
    CarryDay(IsoYear(s), IsoMonth(s), IsoDay(s))
  }

  /** A real date is accepted and stands for itself; an accepted date
      that is not real stands for a day of the following month. */
  lemma LooseIsoDayOfReal(s: string)
    ensures IsRealIsoDate(s) ==> IsLooseIsoDate(s) && LooseIsoDay(s) == IsoDay3(s)
    ensures IsLooseIsoDate(s) && !IsRealIsoDate(s) ==>
      (LooseIsoDay(s).year, LooseIsoDay(s).month) == NextMonth(IsoYear(s), IsoMonth(s))
  {
  }

  /** A moment as `getTime()` orders it: a day and the milliseconds since
      its UTC midnight. */
  datatype Instant = Instant(day: Day, ms: int)

  /** `a.getTime() <= b.getTime()` for moments on real days with `ms`
      below a day's length. */
  predicate InstantLe(a: Instant, b: Instant) {
    DateLess(a.day.year, a.day.month, a.day.day, b.day.year, b.day.month, b.day.day) ||
    (a.day == b.day && a.ms <= b.ms)
  }

  /** `YYYY/MM/DD`. */
  function SlashDate(y: nat, m: nat, d: nat): string {
    Digits(y, 4) + "/" + Digits(m, 2) + "/" + Digits(d, 2)
  }

  /** Two digits whose value is below `bound`. */
  predicate IsTwoDigits(t: string, bound: nat) {
    |t| == 2 && AllDigits(t) && DigitsValue(t) < bound
  }

  /** `HH:MM:SS` on a 24-hour clock. */
  predicate IsClockText(t: string) {
    |t| == 8 && t[2] == ':' && t[5] == ':' &&
    AllDigits(t[..2]) && AllDigits(t[3..5]) && AllDigits(t[6..]) &&
    DigitsValue(t[..2]) < 24 && DigitsValue(t[3..5]) < 60 && DigitsValue(t[6..]) < 60
  }

  /** The local day of `new Date(created_at)` for SQLite's
      `CURRENT_TIMESTAMP` text `YYYY-MM-DD HH:MM:SS`: the text is read as
      local time and the getters give local time back, so the day is the
      one written. Any other text is an invalid Date (`None`). */
  function TimestampDay(s: string): (r: Option<Day>)
    ensures r.Some? <==> |s| == 19 && s[10] == ' ' && IsRealIsoDate(s[..10]) && IsClockText(s[11..])
  {
    if |s| == 19 && s[10] == ' ' && IsRealIsoDate(s[..10]) && IsClockText(s[11..]) then
      Some(IsoDay3(s[..10]))
    else None
  }

  /** `${getFullYear()}/${pad(getMonth() + 1)}/${pad(getDate())}`; every
      getter of an invalid Date gives NaN. */
  function ShownDate(d: Option<Day>): string {
    if d.None? then "NaN/NaN/NaN"
    else IntToString(d.value.year) + "/" + PadStart2(IntToString(d.value.month)) + "/" +
         PadStart2(IntToString(d.value.day))
  }

  /** A day of a four-digit year is shown as its `YYYY/MM/DD`. */
  lemma ShownDay(y: nat, m: nat, d: nat)
    requires 1000 <= y < 10000 && m < 100 && d < 100
    ensures ShownDate(Some(Day(y, m, d))) == SlashDate(y, m, d)
  {
    assert Pow10(4) == 10000 && Pow10(3) == 1000;
    NatToStringFixedWidth(y, 4);
    PadStart2Digits(m);
    PadStart2Digits(d);
  }

  /** A timestamp of a four-digit year is shown as `YYYY/MM/DD` of the
      day it was written on. */
  lemma ShownTimestamp(y: nat, m: nat, d: nat, clock: string)
    requires 1000 <= y < 10000 && 1 <= m <= 12 && 1 <= d <= DaysInMonth(y, m) && IsClockText(clock)
    ensures TimestampDay(IsoDate(y, m, d) + " " + clock) == Some(Day(y, m, d))
    ensures ShownDate(TimestampDay(IsoDate(y, m, d) + " " + clock)) == SlashDate(y, m, d)
  {
    var s := IsoDate(y, m, d) + " " + clock;
    assert s[..10] == IsoDate(y, m, d) && s[10] == ' ' && s[11..] == clock;
    IsoDateFields(y, m, d);
    assert IsRealIsoDate(s[..10]);
    ShownDay(y, m, d);
  }
}
