/**
 * Calendar dates as whole day numbers (days since 1970-01-01, proleptic
 * Gregorian calendar), and the two text forms the source reads and writes:
 * "yyyy-mm-dd" for stored dates and "dd-mm-yyyy" for display.
 */
module Dates {
  import opened Base
  import opened Text

  predicate IsLeapYear(y: int) {
    y % 4 == 0 && (y % 100 != 0 || y % 400 == 0)
  }

  function DaysInMonth(y: int, m: int): int
    requires 1 <= m <= 12
  {
    if m == 2 then (if IsLeapYear(y) then 29 else 28)
    else if m == 4 || m == 6 || m == 9 || m == 11 then 30
    else 31
  }

  /**
   * Day number of year `y`, month `m`, day `d`. A day outside the month is
   * counted on from the month's first day, as the `Date` constructor does.
   */
  function DaysFromCivil(y: int, m: int, d: int): int
    requires 1 <= m <= 12
  {
    var y' := if m <= 2 then y - 1 else y;
    var era := y' / 400;
    var yoe := y' - era * 400;
    var mp := if m > 2 then m - 3 else m + 9;
    var doy := (153 * mp + 2) / 5 + d - 1;
    var doe := yoe * 365 + yoe / 4 - yoe / 100 + doy;
    era * 146097 + doe - 719468
  }

  /** Year, month and day of a day number (the inverse of `DaysFromCivil` on real dates). */
  function CivilFromDays(z: int): (int, int, int) {
    var z' := z + 719468;
    var era := z' / 146097;
    var doe := z' - era * 146097;
    var yoe := (doe - doe / 1460 + doe / 36524 - doe / 146096) / 365;
    var y := yoe + era * 400;
    var doy := doe - (365 * yoe + yoe / 4 - yoe / 100);
    var mp := (5 * doy + 2) / 153;
    var d := doy - (153 * mp + 2) / 5 + 1;
    var m := if mp < 10 then mp + 3 else mp - 9;
    (if m <= 2 then y + 1 else y, m, d)
  }

  /** `String(n).padStart(2, "0")`. */
  function TwoDigits(n: int): string {
    PadStart(IntToString(n), 2, '0')
  }

  /** `formatDate` of the date utility: year unpadded, month and day padded to two digits. */
  function FormatIso(z: int): string {
    var (y, m, d) := CivilFromDays(z);
    IntToString(y) + "-" + TwoDigits(m) + "-" + TwoDigits(d)
  }

  /** `formatDateObject` of the edit form: "dd-mm-yyyy". */
  function FormatDmy(z: int): string {
    var (y, m, d) := CivilFromDays(z);
    TwoDigits(d) + "-" + TwoDigits(m) + "-" + IntToString(y)
  }

  /**
   * The day a "yyyy-mm-dd" string denotes, or `None` where `new Date(s)`
   * yields an invalid date. Only the date-only ISO form is read.
   */
  function ParseIso(s: string): Option<int> {
    if |s| == 10 && s[4] == '-' && s[7] == '-'
       && AllDigits(s[..4]) && AllDigits(s[5..7]) && AllDigits(s[8..])
    then
      var y := DigitsValue(s[..4]);
      var m := DigitsValue(s[5..7]);
      var d := DigitsValue(s[8..]);
      if 1 <= m <= 12 && 1 <= d <= DaysInMonth(y, m) then Some(DaysFromCivil(y, m, d)) else None
    else None
  }
}
