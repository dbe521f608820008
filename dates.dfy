/** Calendar dates as a spreadsheet timestamp cell carries them, and their
    `strftime("%d-%m-%Y")` rendering on an invoice. */
module Dates {
  import opened Wrappers
  import opened Text

  datatype Date = Date(year: int, month: int, day: int)

  predicate IsLeapYear(y: int) {
    (y % 4 == 0 && y % 100 != 0) || y % 400 == 0
  }

  function DaysInMonth(y: int, m: int): int
    requires 1 <= m <= 12
  {
    if m == 2 then (if IsLeapYear(y) then 29 else 28)
    else if m == 4 || m == 6 || m == 9 || m == 11 then 30
    else 31
  }

  /** A Gregorian date with a four-digit year (every pandas timestamp has one). */
  predicate ValidDate(d: Date) {
    && 1000 <= d.year <= 9999
    && 1 <= d.month <= 12
    && 1 <= d.day <= DaysInMonth(d.year, d.month)
  }

  type CalendarDate = d: Date | ValidDate(d) witness Date(2000, 1, 1)

  /** `strftime("%d-%m-%Y")`: zero-padded day, month and year, separated by dashes. */
  function FormatDate(d: CalendarDate): (s: string)
    ensures |s| == 10 && s[2] == '-' && s[5] == '-'
    ensures AllDigits(s[..2]) && AllDigits(s[3..5]) && AllDigits(s[6..])
  {
    NatToStringWidth(d.day as nat, 2);
    NatToStringWidth(d.month as nat, 2);
    NatToStringWidth(d.year as nat, 4);
    ZeroPadded(d.day as nat, 2) + "-" + ZeroPadded(d.month as nat, 2) + "-" + ZeroPadded(d.year as nat, 4)
  }

  /** The inverse of `FormatDate`: reads `DD-MM-YYYY` back into a valid date. */
  function ParseDate(s: string): (r: Option<CalendarDate>)
  {
    if |s| == 10 && s[2] == '-' && s[5] == '-'
       && AllDigits(s[..2]) && AllDigits(s[3..5]) && AllDigits(s[6..])
    then
      var d := Date(DigitsValue(s[6..]), DigitsValue(s[3..5]), DigitsValue(s[..2]));
      if ValidDate(d) then Some(d) else None
    else None
  }

  /** Formatting loses nothing: the invoice's date text names exactly the
      delivery date, so two different dates never print alike. */
  lemma FormatDateRoundTrip(d: CalendarDate)
    ensures ParseDate(FormatDate(d)) == Some(d)
  {
    var dd := ZeroPadded(d.day as nat, 2);
    var mm := ZeroPadded(d.month as nat, 2);
    var yyyy := ZeroPadded(d.year as nat, 4);
    var s := FormatDate(d);
    assert s[..2] == dd;
    assert s[3..5] == mm;
    assert s[6..] == yyyy;
  }

  lemma FormatDateInjective(d1: CalendarDate, d2: CalendarDate)
    requires FormatDate(d1) == FormatDate(d2)
    ensures d1 == d2
  {
    FormatDateRoundTrip(d1);
    FormatDateRoundTrip(d2);
  }
}
