// The closed-form date arithmetic behind every stored timestamp
// (rust/crates/oga-context/src/index.rs), against the Gregorian calendar of
// RFC 3339: the month lengths of section 5.7 and the leap rule of appendix C.
module Calendar {
  datatype Date = Date(year: int, month: int, day: int)

  // The source divides truncating toward zero.
  function Quotient(a: int, b: int): int
    requires b > 0
  {
    if a >= 0 then a / b else -((-a) / b)
  }

  function CivilFromDays(days: int): Date {
    var z := days + 719_468;
    var era := Quotient(if z >= 0 then z else z - 146_096, 146_097);
    var dayOfEra := z - era * 146_097;
    var yearOfEra := YearPart(dayOfEra);
    var year := yearOfEra + era * 400;
    var dayOfYear := dayOfEra - (365 * yearOfEra + Quotient(yearOfEra, 4) - Quotient(yearOfEra, 100));
    var monthPart := Quotient(5 * dayOfYear + 2, 153);
    var day := dayOfYear - Quotient(153 * monthPart + 2, 5) + 1;
    var month := monthPart + if monthPart < 10 then 3 else -9;
    Date(year + if month <= 2 then 1 else 0, month, day)
  }

  function YearPart(dayOfEra: int): int {
    Quotient(dayOfEra - Quotient(dayOfEra, 1_460) + Quotient(dayOfEra, 36_524) - Quotient(dayOfEra, 146_096), 365)
  }

  predicate IsLeap(year: int) {
    year % 4 == 0 && (year % 100 != 0 || year % 400 == 0)
  }

  function MonthLength(year: int, month: int): int {
    if month == 2 then if IsLeap(year) then 29 else 28
    else if month == 4 || month == 6 || month == 9 || month == 11 then 30
    else 31
  }

  predicate IsDate(date: Date) {
    1 <= date.month <= 12 && 1 <= date.day <= MonthLength(date.year, date.month)
  }

  function NextDay(date: Date): Date {
    if date.day < MonthLength(date.year, date.month) then date.(day := date.day + 1)
    else if date.month < 12 then Date(date.year, date.month + 1, 1)
    else Date(date.year + 1, 1, 1)
  }

  predicate Before(a: Date, b: Date) {
    a.year < b.year || (a.year == b.year && (a.month < b.month || (a.month == b.month && a.day < b.day)))
  }

  // Years that start in March put the leap day last. `MarchStart` counts the days
  // before the March year `year`, from the first of March of year 0.
  function MarchStart(year: int): int {
    365 * year + year / 4 - year / 100 + year / 400
  }

  function MarchLength(year: int): int {
    if IsLeap(year + 1) then 366 else 365
  }

  // The date `day` days into the March year `year`.
  function FromMarch(year: int, day: int): Date
    requires 0 <= day < MarchLength(year)
  {
    if day < 31 then Date(year, 3, day + 1)
    else if day < 61 then Date(year, 4, day - 30)
    else if day < 92 then Date(year, 5, day - 60)
    else if day < 122 then Date(year, 6, day - 91)
    else if day < 153 then Date(year, 7, day - 121)
    else if day < 184 then Date(year, 8, day - 152)
    else if day < 214 then Date(year, 9, day - 183)
    else if day < 245 then Date(year, 10, day - 213)
    else if day < 275 then Date(year, 11, day - 244)
    else if day < 306 then Date(year, 12, day - 274)
    else if day < 337 then Date(year + 1, 1, day - 305)
    else Date(year + 1, 2, day - 336)
  }

  lemma {:induction false} QuotientIs(n: int, d: int, q: int)
    requires d == 365 || d == 1_460 || d == 36_524 || d == 146_096
    requires d * q <= n < d * q + d
    ensures n / d == q
  {
    if d == 365 {
    } else if d == 1_460 {
    } else if d == 36_524 {
    }
  }

  // The year formula: `century`, `four` and `one` locate a March year in its era.
  lemma {:induction false} YearOfEra(century: int, four: int, one: int, day: int)
    requires 0 <= century < 4 && 0 <= four < 25 && 0 <= one < 4 && 0 <= day <= 365
    requires day == 365 ==> one == 3 && (four < 24 || century == 3)
    ensures var dayOfEra := 36_524 * century + 1_461 * four + 365 * one + day;
            && 0 <= dayOfEra < 146_097
            && YearPart(dayOfEra) == 100 * century + 4 * four + one
  {
    var dayOfEra := 36_524 * century + 1_461 * four + 365 * one + day;
    var carry := if 24 * century + four + 365 * one + day < 1_460 then 0 else 1;
    var last := if dayOfEra == 146_096 then 1 else 0;
    QuotientIs(dayOfEra, 1_460, 25 * century + four + carry);
    QuotientIs(dayOfEra, 36_524, century + last);
    QuotientIs(dayOfEra, 146_096, last);
    var days := dayOfEra - (25 * century + four + carry) + (century + last) - last;
    assert days == 365 * (100 * century + 4 * four + one) + day - carry;
    QuotientIs(days, 365, 100 * century + 4 * four + one);
  }

  lemma {:induction false} MonthAndDay(year: int, day: int)
    requires 0 <= day < MarchLength(year)
    ensures var part := (5 * day + 2) / 153;
            var month := part + if part < 10 then 3 else -9;
            && part >= 0
            && FromMarch(year, day) ==
               Date(year + if month <= 2 then 1 else 0, month, day - (153 * part + 2) / 5 + 1)
  {
  }

  // Where a March year stands in its era.
  lemma {:induction false} MarchYearInEra(era: int, century: int, four: int, one: int)
    requires 0 <= century < 4 && 0 <= four < 25 && 0 <= one < 4
    ensures var yearOfEra := 100 * century + 4 * four + one;
            var year := 400 * era + yearOfEra;
            && yearOfEra / 4 == 25 * century + four && yearOfEra / 100 == century
            && MarchStart(year) == 146_097 * era + 36_524 * century + 1_461 * four + 365 * one
            && (IsLeap(year + 1) <==> one == 3 && (four < 24 || century == 3))
  {
    var yearOfEra := 100 * century + 4 * four + one;
    var year := 400 * era + yearOfEra;
    InBlocks(4, year, 100 * era + 25 * century + four, one);
    InBlocks(100, year, 4 * era + century, 4 * four + one);
    InBlocks(400, year, era, yearOfEra);
    InBlocks(4, yearOfEra, 25 * century + four, one);
    InBlocks(100, yearOfEra, century, 4 * four + one);
  }

  // A year by the block of years it lies in, and whether it is the last of the block.
  lemma {:induction false} InBlocks(length: int, year: int, block: int, rest: int)
    requires length == 4 || length == 100 || length == 400
    requires year == length * block + rest && 0 <= rest < length
    ensures year / length == block
    ensures (year + 1) % length == 0 <==> rest == length - 1
  {
    if length == 4 {
    } else if length == 100 {
    }
  }

  // The closed form at a day located by its March year.
  lemma {:induction false} CivilIsFromMarch(year: int, day: int)
    requires 0 <= day < MarchLength(year)
    ensures CivilFromDays(MarchStart(year) + day - 719_468) == FromMarch(year, day)
  {
    hide CivilFromDays, FromMarch, YearPart;
    var era, yearOfEra := year / 400, year % 400;
    var century, four, one := yearOfEra / 100, yearOfEra % 100 / 4, yearOfEra % 4;
    assert yearOfEra == 100 * century + 4 * four + one;
    MarchYearInEra(era, century, four, one);
    YearOfEra(century, four, one, day);
    MonthAndDay(year, day);
    var dayOfEra := 36_524 * century + 1_461 * four + 365 * one + day;
    EraOf(MarchStart(year) + day, era, dayOfEra);
    Assembled(MarchStart(year) + day - 719_468, era, yearOfEra, day);
  }

  // What the closed form answers once its era, year and day are known.
  lemma {:induction false} Assembled(days: int, era: int, yearOfEra: int, dayOfYear: int)
    requires var z := days + 719_468;
             && Quotient(if z >= 0 then z else z - 146_096, 146_097) == era
             && YearPart(z - era * 146_097) == yearOfEra
             && dayOfYear == z - era * 146_097 - (365 * yearOfEra + yearOfEra / 4 - yearOfEra / 100)
    requires 0 <= yearOfEra && 0 <= dayOfYear
    ensures var part := (5 * dayOfYear + 2) / 153;
            var month := part + if part < 10 then 3 else -9;
            CivilFromDays(days) == Date(yearOfEra + era * 400 + if month <= 2 then 1 else 0, month,
                                        dayOfYear - (153 * part + 2) / 5 + 1)
  {
    hide YearPart;
  }

  lemma {:induction false} EraOf(z: int, era: int, dayOfEra: int)
    requires z == 146_097 * era + dayOfEra && 0 <= dayOfEra < 146_097
    ensures Quotient(if z >= 0 then z else z - 146_096, 146_097) == era
  {
  }

  // Every day lies in a March year.
  lemma {:induction false} Located(days: int) returns (year: int, day: int)
    ensures 0 <= day < MarchLength(year) && days == MarchStart(year) + day - 719_468
  {
    var z := days + 719_468;
    var era, rest := z / 146_097, z % 146_097;
    var century := if rest == 146_096 then 3 else rest / 36_524;
    rest := rest - 36_524 * century;
    var four := rest / 1_461;
    rest := rest - 1_461 * four;
    var one := if rest == 1_460 then 3 else rest / 365;
    day := rest - 365 * one;
    year := 400 * era + 100 * century + 4 * four + one;
    MarchYearInEra(era, century, four, one);
  }

  lemma {:induction false} DayZero()
    ensures CivilFromDays(0) == Date(1970, 1, 1)
  {
  }

  // Every result is a date, and one more day is the next date. Dates before 1970 too.
  lemma {:induction false} CivilFollowsTheCalendar(days: int)
    ensures IsDate(CivilFromDays(days))
    ensures CivilFromDays(days + 1) == NextDay(CivilFromDays(days))
  {
    var year, day := Located(days);
    hide CivilFromDays, FromMarch, NextDay, IsDate;
    CivilIsFromMarch(year, day);
    MarchFollowsTheCalendar(year, day);
    if day + 1 < MarchLength(year) {
      CivilIsFromMarch(year, day + 1);
    } else {
      CivilIsFromMarch(year + 1, 0);
      MarchYearFollows(year);
    }
  }

  lemma {:induction false} MarchFollowsTheCalendar(year: int, day: int)
    requires 0 <= day < MarchLength(year)
    ensures IsDate(FromMarch(year, day))
    ensures NextDay(FromMarch(year, day)) ==
            if day + 1 < MarchLength(year) then FromMarch(year, day + 1) else FromMarch(year + 1, 0)
  {
  }

  lemma {:induction false} MarchYearFollows(year: int)
    ensures MarchStart(year + 1) == MarchStart(year) + MarchLength(year)
  {
    assert (year + 1) / 4 == year / 4 + if (year + 1) % 4 == 0 then 1 else 0;
    assert (year + 1) / 100 == year / 100 + if (year + 1) % 100 == 0 then 1 else 0;
    assert (year + 1) / 400 == year / 400 + if (year + 1) % 400 == 0 then 1 else 0;
  }

  // Later days have later dates, so the text of a timestamp sorts by time and no
  // two days share a date.
  lemma {:induction false} CivilIsIncreasing(a: int, b: int)
    requires a < b
    ensures Before(CivilFromDays(a), CivilFromDays(b))
    decreases b - a
  {
    hide CivilFromDays;
    CivilFollowsTheCalendar(b - 1);
    if a < b - 1 {
      CivilIsIncreasing(a, b - 1);
    }
  }

  // Every date from 1970 on is the date of some day.
  lemma {:induction false} EveryDateIsReached(date: Date) returns (days: nat)
    requires IsDate(date) && 1970 <= date.year
    ensures CivilFromDays(days) == date
    decreases date.year, date.month, date.day
  {
    hide CivilFromDays;
    if date == Date(1970, 1, 1) {
      DayZero();
      days := 0;
    } else {
      var before := if date.day > 1 then date.(day := date.day - 1)
                    else if date.month > 1 then Date(date.year, date.month - 1, MonthLength(date.year, date.month - 1))
                    else Date(date.year - 1, 12, 31);
      days := EveryDateIsReached(before);
      CivilFollowsTheCalendar(days);
      days := days + 1;
    }
  }
}
