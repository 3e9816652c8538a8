/**
 * Dates of the form `YYYY-MM-DD`, as the sermon form submits them and as
 * server/validators/SermonFormDataValidator.ts:62 and server/helpers/files.ts:17
 * take them apart with `split("-")`.
 */
module IsoDate {
  import opened JsText

  /** `/^\d{4}-\d{2}-\d{2}$/.test(date)`. */
  predicate IsIsoDateFormat(date: string) {
    && |date| == 10
    && date[4] == '-' && date[7] == '-'
    && forall i :: 0 <= i < 10 && i != 4 && i != 7 ==> IsDigit(date[i])
  }

  /** Splitting a well-formed date on "-" gives its year, month and day, in that order. */
  lemma SplitIsoDate(date: string)
    requires IsIsoDateFormat(date)
    ensures Split(date, '-') == [date[..4], date[5..7], date[8..]]
  {
    var y, m, d := date[..4], date[5..7], date[8..];
    assert forall i :: 0 <= i < |y| ==> IsDigit(y[i]);
    assert forall i :: 0 <= i < |m| ==> IsDigit(m[i]);
    assert forall i :: 0 <= i < |d| ==> IsDigit(d[i]);
    assert date == y + ['-'] + (m + ['-'] + d);
    SplitCons(y, '-', m + ['-'] + d);
    SplitCons(m, '-', d);
    SplitNone(d, '-');
  }

  /** The value of the digits `s[lo..hi]`, which is what `Number()` gives for them. */
  function DigitsAt(s: string, lo: nat, hi: nat): (n: nat)
    requires lo < hi <= |s|
    requires forall k :: lo <= k < hi ==> IsDigit(s[k])
    ensures ToNumber(s[lo..hi]) == Val(n)
  {
    AllDigitsMeans(s[lo..hi]);
    DigitsValue(s[lo..hi])
  }

  function YearOf(date: string): nat
    requires IsIsoDateFormat(date)
  {
    DigitsAt(date, 0, 4)
  }

  function MonthOf(date: string): nat
    requires IsIsoDateFormat(date)
  {
    DigitsAt(date, 5, 7)
  }

  function DayOf(date: string): nat
    requires IsIsoDateFormat(date)
  {
    DigitsAt(date, 8, 10)
  }

  /** `date.split("-").map(Number)` on a well-formed date: year, month and day as numbers. */
  lemma NumbersOfIsoDate(date: string)
    requires IsIsoDateFormat(date)
    ensures ToNumbers(Split(date, '-')) == [Val(YearOf(date)), Val(MonthOf(date)), Val(DayOf(date))]
  {
    SplitIsoDate(date);
    assert date[..4] == date[0..4];
    assert date[8..] == date[8..10];
  }
}
