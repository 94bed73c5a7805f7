/** Dates as whole day numbers (day 0 is 1970-01-01) and their calendar month. */
module Calendar {

  /** Year and month of a day number, in the proleptic Gregorian calendar (civil-from-days). */
  function CivilYearMonth(days: int): (int, int) {
    var z := days + 719468;
    var era := z / 146097;
    var doe := z - era * 146097;
    var yoe := (doe - doe / 1460 + doe / 36524 - doe / 146096) / 365;
    var doy := doe - (365 * yoe + yoe / 4 - yoe / 100);
    var mp := (5 * doy + 2) / 153;
    var m := if mp < 10 then mp + 3 else mp - 9;
    var y := yoe + era * 400 + (if m <= 2 then 1 else 0);
    (y, m)
  }

  /** `Timestamp.to_period('M')` as one number: 12 * year + month. */
  function YearMonth(days: int): int {
    var (y, m) := CivilYearMonth(days);
    12 * y + m
  }
}
