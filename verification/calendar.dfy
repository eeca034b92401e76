/** Calendar dates as the pages use them: an ISO 'YYYY-MM-DD' string parsed
    by `new Date(...)` denotes UTC midnight of that day, compared through its
    millisecond timestamp. */
module Calendar {

  datatype Date = Date(year: int, month: int, day: int)

  predicate ValidDate(d: Date)
  {
    1 <= d.month <= 12 && 1 <= d.day <= 31
  }

  const MsPerDay: int := 24 * 60 * 60 * 1000

  /** Days since 1970-01-01 in the proleptic Gregorian calendar (the
      era-based days-from-civil algorithm; `/` and `%` are floor operations
      here because every divisor is positive). */
  function DaysFromCivil(d: Date): int
  {
    var y := if d.month <= 2 then d.year - 1 else d.year;
    var era := y / 400;
    var yoe := y - era * 400;
    var mp := (d.month + 9) % 12;
    var doy := (153 * mp + 2) / 5 + d.day - 1;
    var doe := yoe * 365 + yoe / 4 - yoe / 100 + doy;
    era * 146097 + doe - 719468
  }

  /** `new Date(iso).getTime()`. */
  function Timestamp(d: Date): int
  {
    DaysFromCivil(d) * MsPerDay
  }

  lemma EpochIsZero()
    ensures Timestamp(Date(1970, 1, 1)) == 0
    ensures Timestamp(Date(1970, 1, 2)) == MsPerDay
  {
  }

  lemma NextDayIsOneDayLater(y: int, m: int, d: int)
    requires 1 <= m <= 12
    ensures Timestamp(Date(y, m, d + 1)) == Timestamp(Date(y, m, d)) + MsPerDay
  {
  }
}
