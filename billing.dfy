/** The arithmetic and argument handling the three monthly report scripts
    share: the billing rule (half of the month's total, rounded down to
    ten yen), the Japanese month name and the year/month command line. */
module Billing {
  import opened Wrappers
  import opened JsText
  import opened Calendar

  /** `Math.floor(amount / 10) * 10`: the largest multiple of ten that is at
      most `x`. */
  function RoundDownToTen(x: int): (r: int)
    ensures r % 10 == 0 && r <= x < r + 10
  {
    (x / 10) * 10
  }

  /** `roundDownToTen(Math.floor(total / 2))`: each of the two households
      pays half of the total, rounded down to ten yen. */
  function BillingAmount(total: int): (r: int)
    ensures r % 10 == 0
    ensures 2 * r <= total < 2 * r + 20
  {
    RoundDownToTen(total / 2)
  }

  /** The contract of `BillingAmount` pins down its value: no other multiple
      of ten satisfies it. */
  lemma BillingAmountUnique(total: int, r: int)
    requires r % 10 == 0 && 2 * r <= total < 2 * r + 20
    ensures r == BillingAmount(total)
  {
    var b := BillingAmount(total);
    assert -20 < 2 * (r - b) < 20;
    assert (r - b) % 10 == 0;
  }

  /** A larger total never gives a smaller bill. */
  lemma BillingAmountMonotone(a: int, b: int)
    requires a <= b
    ensures BillingAmount(a) <= BillingAmount(b)
  {
    var ra, rb := BillingAmount(a), BillingAmount(b);
    assert 2 * ra < 2 * rb + 20;
  }

  lemma BillingAmountExamples()
    ensures BillingAmount(1050) == 520
    ensures BillingAmount(999) == 490
    ensures BillingAmount(0) == 0
  {
  }

  /** `getMonthName`: `monthNames[month - 1]`, which is `undefined` (`None`)
      for a month outside 1..12. */
  function MonthName(month: int): (r: Option<string>)
    ensures r.Some? <==> 1 <= month <= 12
    ensures r.Some? ==> r.value == IntToString(month) + "月"
  {
    var names := ["1月", "2月", "3月", "4月", "5月", "6月",
                  "7月", "8月", "9月", "10月", "11月", "12月"];
    if 1 <= month <= 12 then
      assert month < 10 ==> IntToString(month) == [DigitChar(month)];
      assert month >= 10 ==> IntToString(month) == ['1', DigitChar(month - 10)];
      Some(names[month - 1])
    else None
  }

  // ---------------------------------------------------------------------
  // The year and month on the command line
  // ---------------------------------------------------------------------

  datatype YearMonth = YearMonth(year: int, month: int)

  /** Why the scripts print an error and exit with status 1. */
  datatype ArgError = BadFormat | BadYearOrMonth

  /** The characters `/[-\/]/` splits a single argument on. */
  const DateSeparators: set<char> := {'-', '/'}

  /** The shared validation: both texts must `parseInt` to a number and the
      month must lie in 1..12. */
  function CheckYearMonth(year: Option<int>, month: Option<int>): (r: Result<YearMonth, ArgError>)
    ensures r.Ok? <==> year.Some? && month.Some? && 1 <= month.value <= 12
    ensures r.Ok? ==> r.value == YearMonth(year.value, month.value)
  {
    if year.None? || month.None? || month.value < 1 || month.value > 12 then Err(BadYearOrMonth)
    else Ok(YearMonth(year.value, month.value))
  }

  /** `getYearMonthFromArgs` over `process.argv.slice(2)`: no argument means
      the current month (`now`, read from the clock); one argument is
      `YYYY-MM` or `YYYY/MM`; with two or more, the first two are the year
      and the month and the rest are ignored. */
  function YearMonthFromArgs(args: seq<string>, now: YearMonth): (r: Result<YearMonth, ArgError>)
    requires 1 <= now.month <= 12
    ensures |args| == 0 ==> r == Ok(now)
    ensures |args| == 1 && |Split(args[0], DateSeparators)| != 2 ==> r == Err(BadFormat)
    ensures r.Err? && |args| != 1 ==> r == Err(BadYearOrMonth)
    ensures r.Ok? ==> 1 <= r.value.month <= 12
  {
    if |args| == 0 then Ok(now)
    else if |args| == 1 then
      var parts := Split(args[0], DateSeparators);
      if |parts| != 2 then Err(BadFormat)
      else CheckYearMonth(ParseInt(parts[0]), ParseInt(parts[1]))
    else CheckYearMonth(ParseInt(args[0]), ParseInt(args[1]))
  }

  lemma NatToStringNoSeparator(n: nat)
    ensures forall i :: 0 <= i < |NatToString(n)| ==> NatToString(n)[i] !in DateSeparators
  {
    var s := NatToString(n);
    forall i | 0 <= i < |s| ensures s[i] !in DateSeparators {
      assert IsDigit(s[i]);
    }
  }

  /** The documented single-argument form reads back: for a year of zero or
      more and a month in 1..12, `YYYY-MM` and `YYYY/MM` (zero-padded month)
      give that year and month. */
  lemma YearMonthOneArgRoundTrip(y: nat, m: int, sep: char, now: YearMonth)
    requires 1 <= m <= 12 && sep in DateSeparators && 1 <= now.month <= 12
    ensures YearMonthFromArgs([IntToString(y) + [sep] + PadStart2(IntToString(m))], now)
         == Ok(YearMonth(y, m))
  {
    var ys, ms := IntToString(y), PadStart2(IntToString(m));
    YearTextReadsBack(y);
    MonthTextReadsBack(m);
    SplitAtFirst(ys, sep, ms, DateSeparators);
    SplitNoSeparator(ms, DateSeparators);
    assert Split(ys + [sep] + ms, DateSeparators) == [ys, ms];
  }

  lemma YearTextReadsBack(y: nat)
    ensures forall i :: 0 <= i < |IntToString(y)| ==> IntToString(y)[i] !in DateSeparators
    ensures ParseInt(IntToString(y)) == Some(y)
  {
    NatToStringNoSeparator(y);
    ParseIntOfToString(y, []);
    assert IntToString(y) + [] == IntToString(y);
  }

  lemma MonthTextReadsBack(m: int)
    requires 1 <= m <= 12
    ensures forall i :: 0 <= i < |PadStart2(IntToString(m))| ==> PadStart2(IntToString(m))[i] !in DateSeparators
    ensures ParseInt(PadStart2(IntToString(m))) == Some(m)
  {
    var ms := PadStart2(IntToString(m));
    PadStart2Digits(m);
    assert Pow10(2) == 100;
    forall i | 0 <= i < |ms| ensures ms[i] !in DateSeparators {
      assert IsDigit(ms[i]);
    }
    ParseIntOfDigits(ms, []);
    assert ms + [] == ms;
    DigitsValueOfDigits(m, 2);
  }

  /** The two-argument form: the year and month texts `${y}` and `${m}`
      give (y, m) when m lies in 1..12 and an error otherwise, whatever
      arguments follow them. */
  lemma YearMonthTwoArgs(y: int, m: int, rest: seq<string>, now: YearMonth)
    requires 1 <= now.month <= 12
    ensures YearMonthFromArgs([IntToString(y), IntToString(m)] + rest, now)
         == if 1 <= m <= 12 then Ok(YearMonth(y, m)) else Err(BadYearOrMonth)
  {
    var args := [IntToString(y), IntToString(m)] + rest;
    assert args[0] == IntToString(y) + [] && args[1] == IntToString(m) + [];
    ParseIntOfToString(y, []);
    ParseIntOfToString(m, []);
  }
}
