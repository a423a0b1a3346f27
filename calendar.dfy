/** The proleptic Gregorian calendar that JavaScript's Date objects follow.
    A day is an integer day number counted from 1970-01-01 (day 0), the
    epoch of Date; a civil date is a year, a month 1..12 and a day 1..31.
    (Date.prototype.getMonth counts months from 0; this module counts
    from 1, and the grid compares months in the same convention.)
    The conversion goes through years that begin on March 1, so that the
    leap day is the last day of a year and a 400-year era has 146097 days. */
module Calendar {
  import opened Text

  datatype CivilDate = CivilDate(year: int, month: int, day: int)

  const DaysPerEra := 146097
  const EpochShift := 719468

  predicate IsLeapYear(year: int)
  {
    year % 4 == 0 && (year % 100 != 0 || year % 400 == 0)
  }

  function DaysInMonth(year: int, month: int): (r: int)
    ensures 28 <= r <= 31
    ensures r == 29 <==> month == 2 && IsLeapYear(year)
  {
    if month == 2 then (if IsLeapYear(year) then 29 else 28)
    else if month == 4 || month == 6 || month == 9 || month == 11 then 30
    else 31
  }

  predicate ValidDate(c: CivilDate)
  {
    1 <= c.month <= 12 && 1 <= c.day <= DaysInMonth(c.year, c.month)
  }

  // ---- years of a 400-year era that begin on March 1 ----

  function DaysBeforeYearOfEra(yoe: int): int
  {
    365 * yoe + yoe / 4 - yoe / 100
  }

  predicate LongYearOfEra(yoe: int)
  {
    (yoe + 1) % 4 == 0 && ((yoe + 1) % 100 != 0 || yoe == 399)
  }

  function YearOfEraLength(yoe: int): int
  {
    if LongYearOfEra(yoe) then 366 else 365
  }

  /** Splits a day of an era into whole centuries of 36524 days (the fourth
      may hold 36525), four-year blocks of 1461 days, years of 365 days and
      the day left over. */
  function EraDayParts(doe: int): (int, int, int, int)
  {
    var cent := if doe / 36524 < 3 then doe / 36524 else 3;
    var r1 := doe - 36524 * cent;
    var quad := r1 / 1461;
    var r2 := r1 - 1461 * quad;
    var yr := if r2 / 365 < 3 then r2 / 365 else 3;
    (cent, quad, yr, r2 - 365 * yr)
  }

  /** The year of the era and the day of that year. */
  function SplitEraDay(doe: int): (int, int)
  {
    var (cent, quad, yr, doy) := EraDayParts(doe);
    (100 * cent + 4 * quad + yr, doy)
  }

  lemma YearOfEraParts(cent: int, quad: int, yr: int)
    requires 0 <= cent < 4 && 0 <= quad < 25 && 0 <= yr < 4
    ensures var yoe := 100 * cent + 4 * quad + yr;
      0 <= yoe < 400 && yoe / 4 == 25 * cent + quad && yoe / 100 == cent
  {
    var yoe := 100 * cent + 4 * quad + yr;
    assert yoe == 4 * (25 * cent + quad) + yr;
    assert yoe == 100 * cent + (4 * quad + yr) && 4 * quad + yr < 100;
  }

  lemma YearOfEraLong(cent: int, quad: int, yr: int)
    requires 0 <= cent < 4 && 0 <= quad < 25 && 0 <= yr < 4
    ensures LongYearOfEra(100 * cent + 4 * quad + yr) <==> yr == 3 && (quad < 24 || cent == 3)
  {
    var yoe := 100 * cent + 4 * quad + yr;
    assert yoe + 1 == 4 * (25 * cent + quad) + (yr + 1);
    assert (yoe + 1) % 4 == 0 <==> yr == 3;
    assert yoe + 1 == 100 * cent + (4 * quad + yr + 1);
    assert (yoe + 1) % 100 == 0 <==> 4 * quad + yr + 1 == 100;
  }

  lemma YearOfEraDays(cent: int, quad: int, yr: int)
    requires 0 <= cent < 4 && 0 <= quad < 25 && 0 <= yr < 4
    ensures DaysBeforeYearOfEra(100 * cent + 4 * quad + yr) == 36524 * cent + 1461 * quad + 365 * yr
  {
    YearOfEraParts(cent, quad, yr);
  }

  lemma SplitStages(doe: int)
    requires 0 <= doe < DaysPerEra
    ensures var (cent, quad, yr, doy) := EraDayParts(doe);
      0 <= cent < 4 && 0 <= quad < 25 && 0 <= yr < 4 && 0 <= doy <= 365
      && (doy == 365 ==> yr == 3 && (quad < 24 || cent == 3))
      && doe == 36524 * cent + 1461 * quad + 365 * yr + doy
  {
    var cent := if doe / 36524 < 3 then doe / 36524 else 3;
    var r1 := doe - 36524 * cent;
    assert 0 <= r1 <= 36524 && (cent < 3 ==> r1 < 36524);
    var quad := r1 / 1461;
    var r2 := r1 - 1461 * quad;
    assert 0 <= quad <= 24 && 0 <= r2 < 1461;
    assert quad == 24 && cent < 3 ==> r2 < 1460;
  }

  lemma SplitEraDayCorrect(doe: int)
    requires 0 <= doe < DaysPerEra
    ensures var (yoe, doy) := SplitEraDay(doe);
      0 <= yoe < 400 && 0 <= doy < YearOfEraLength(yoe) && DaysBeforeYearOfEra(yoe) + doy == doe
  {
    SplitStages(doe);
    var (cent, quad, yr, doy) := EraDayParts(doe);
    YearOfEraParts(cent, quad, yr);
    YearOfEraLong(cent, quad, yr);
    YearOfEraDays(cent, quad, yr);
  }

  lemma SplitChoosesParts(cent: int, quad: int, yr: int, doy: int)
    requires 0 <= cent < 4 && 0 <= quad < 25 && 0 <= yr < 4 && 0 <= doy <= 365
    requires doy == 365 ==> yr == 3 && (quad < 24 || cent == 3)
    ensures EraDayParts(36524 * cent + 1461 * quad + 365 * yr + doy) == (cent, quad, yr, doy)
  {
    var doe := 36524 * cent + 1461 * quad + 365 * yr + doy;
    var r1 := 1461 * quad + 365 * yr + doy;
    assert 0 <= r1 <= 36524 && (cent < 3 ==> r1 < 36524);
    assert (if doe / 36524 < 3 then doe / 36524 else 3) == cent;
    assert r1 / 1461 == quad;
    var r2 := 365 * yr + doy;
    assert (if r2 / 365 < 3 then r2 / 365 else 3) == yr;
  }

  lemma YearOfEraDecompose(yoe: int)
    requires 0 <= yoe < 400
    ensures 0 <= yoe / 100 < 4 && 0 <= (yoe % 100) / 4 < 25 && 0 <= yoe % 4 < 4
    ensures yoe == 100 * (yoe / 100) + 4 * ((yoe % 100) / 4) + yoe % 4
  {
    assert yoe % 100 == 4 * ((yoe % 100) / 4) + (yoe % 100) % 4;
    assert (yoe % 100) % 4 == yoe % 4;
  }

  lemma SplitEraDayUnique(yoe: int, doy: int)
    requires 0 <= yoe < 400 && 0 <= doy < YearOfEraLength(yoe)
    ensures 0 <= DaysBeforeYearOfEra(yoe) + doy < DaysPerEra
    ensures SplitEraDay(DaysBeforeYearOfEra(yoe) + doy) == (yoe, doy)
  {
    YearOfEraDecompose(yoe);
    SplitPartsUnique(yoe / 100, (yoe % 100) / 4, yoe % 4, doy);
  }

  lemma SplitPartsUnique(cent: int, quad: int, yr: int, doy: int)
    requires 0 <= cent < 4 && 0 <= quad < 25 && 0 <= yr < 4
    requires 0 <= doy < YearOfEraLength(100 * cent + 4 * quad + yr)
    ensures var yoe := 100 * cent + 4 * quad + yr;
      0 <= DaysBeforeYearOfEra(yoe) + doy < DaysPerEra
      && SplitEraDay(DaysBeforeYearOfEra(yoe) + doy) == (yoe, doy)
  {
    YearOfEraLong(cent, quad, yr);
    YearOfEraDays(cent, quad, yr);
    SplitChoosesParts(cent, quad, yr, doy);
  }

  // ---- months of a year that begins on March 1 ----

  /** Days from March 1 to the first day of the mp-th month counted from March. */
  function MonthStart(mp: int): int
  {
    (153 * mp + 2) / 5
  }

  function MarchMonth(month: int): int
  {
    if month > 2 then month - 3 else month + 9
  }

  function CivilMonth(mp: int): int
  {
    if mp < 10 then mp + 3 else mp - 9
  }

  lemma MonthOfDayCorrect(doy: int)
    requires 0 <= doy < 366
    ensures var mp := (5 * doy + 2) / 153;
      0 <= mp < 12 && MonthStart(mp) <= doy < MonthStart(mp + 1)
  {
  }

  lemma MonthOfDayUnique(mp: int, doy: int)
    requires 0 <= mp < 12 && MonthStart(mp) <= doy < MonthStart(mp + 1)
    ensures (5 * doy + 2) / 153 == mp
  {
  }

  /** The year counted from March, so that a leap day is the last day of its year. */
  function MarchYear(c: CivilDate): int
  {
    if c.month <= 2 then c.year - 1 else c.year
  }

  function MarchDayOfYear(c: CivilDate): int
  {
    MonthStart(MarchMonth(c.month)) + c.day - 1
  }

  function MarchYearLength(y: int): int
  {
    YearOfEraLength(y % 400)
  }

  function DaysFromMarchDate(y: int, doy: int): int
  {
    (y / 400) * DaysPerEra + DaysBeforeYearOfEra(y % 400) + doy - EpochShift
  }

  function MarchDateOfDays(z: int): (int, int)
  {
    var shifted := z + EpochShift;
    var (yoe, doy) := SplitEraDay(shifted % DaysPerEra);
    ((shifted / DaysPerEra) * 400 + yoe, doy)
  }

  function CivilOfMarchDate(y: int, doy: int): CivilDate
  {
    var mp := (5 * doy + 2) / 153;
    var month := CivilMonth(mp);
    CivilDate(if month <= 2 then y + 1 else y, month, doy - MonthStart(mp) + 1)
  }

  function DaysFromCivil(c: CivilDate): int
  {
    DaysFromMarchDate(MarchYear(c), MarchDayOfYear(c))
  }

  function CivilFromDays(z: int): CivilDate
  {
    var (y, doy) := MarchDateOfDays(z);
    CivilOfMarchDate(y, doy)
  }

  lemma MarchDateOfDaysCorrect(z: int)
    ensures var (y, doy) := MarchDateOfDays(z);
      0 <= doy < MarchYearLength(y) && DaysFromMarchDate(y, doy) == z
  {
    var shifted := z + EpochShift;
    var era, doe := shifted / DaysPerEra, shifted % DaysPerEra;
    SplitEraDayCorrect(doe);
    var (yoe, doy) := SplitEraDay(doe);
    EraYearDivMod(era, yoe);
  }

  lemma EraYearDivMod(era: int, yoe: int)
    requires 0 <= yoe < 400
    ensures (era * 400 + yoe) / 400 == era && (era * 400 + yoe) % 400 == yoe
  {
  }

  lemma MarchDateOfDaysUnique(y: int, doy: int)
    requires 0 <= doy < MarchYearLength(y)
    ensures MarchDateOfDays(DaysFromMarchDate(y, doy)) == (y, doy)
  {
    var era, yoe := y / 400, y % 400;
    SplitEraDayUnique(yoe, doy);
    var doe := DaysBeforeYearOfEra(yoe) + doy;
    var shifted := DaysFromMarchDate(y, doy) + EpochShift;
    assert shifted == era * DaysPerEra + doe;
    assert shifted / DaysPerEra == era && shifted % DaysPerEra == doe;
  }

  lemma ModOfEraShift(era: int, k: int, m: int)
    requires m == 4 || m == 100 || m == 400
    ensures (era * 400 + k) % m == k % m
  {
    var q := era * (400 / m);
    assert era * 400 == m * q;
    assert (m * q + k) % m == k % m;
  }

  lemma LeapAgrees(era: int, yoe: int)
    requires 0 <= yoe < 400
    ensures LongYearOfEra(yoe) == IsLeapYear(era * 400 + yoe + 1)
  {
    ModOfEraShift(era, yoe + 1, 4);
    ModOfEraShift(era, yoe + 1, 100);
    ModOfEraShift(era, yoe + 1, 400);
    assert (yoe + 1) % 400 == 0 <==> yoe == 399;
  }

  lemma MarchYearLengthLeap(y: int)
    ensures MarchYearLength(y) == if IsLeapYear(y + 1) then 366 else 365
  {
    LeapAgrees(y / 400, y % 400);
  }

  lemma CivilOfMarchDateCorrect(y: int, doy: int)
    requires 0 <= doy < MarchYearLength(y)
    ensures var c := CivilOfMarchDate(y, doy);
      ValidDate(c) && MarchYear(c) == y && MarchDayOfYear(c) == doy
  {
    MonthOfDayCorrect(doy);
    MarchYearLengthLeap(y);
  }

  lemma CivilOfMarchDateUnique(c: CivilDate)
    requires ValidDate(c)
    ensures 0 <= MarchDayOfYear(c) < MarchYearLength(MarchYear(c))
    ensures CivilOfMarchDate(MarchYear(c), MarchDayOfYear(c)) == c
  {
    MarchYearLengthLeap(MarchYear(c));
    MonthOfDayUnique(MarchMonth(c.month), MarchDayOfYear(c));
  }

  lemma DaysRoundTrip(z: int)
    ensures ValidDate(CivilFromDays(z)) && DaysFromCivil(CivilFromDays(z)) == z
  {
    MarchDateOfDaysCorrect(z);
    var (y, doy) := MarchDateOfDays(z);
    CivilOfMarchDateCorrect(y, doy);
  }

  /** Every day number has a valid civil date. */
  lemma CivilFromDaysValid(z: int)
    ensures ValidDate(CivilFromDays(z))
  {
    DaysRoundTrip(z);
  }

  lemma CivilRoundTrip(c: CivilDate)
    requires ValidDate(c)
    ensures CivilFromDays(DaysFromCivil(c)) == c
  {
    CivilOfMarchDateUnique(c);
    MarchDateOfDaysUnique(MarchYear(c), MarchDayOfYear(c));
  }

  // ---- weekdays and the next day ----

  /** Date.prototype.getDay: 0 is Sunday, 6 is Saturday; day 0 was a Thursday. */
  function Weekday(z: int): (w: int)
    ensures 0 <= w < 7
  {
    (z + 4) % 7
  }

  lemma {:induction false} WeekdayStep(z: int)
    ensures Weekday(z + 1) == (Weekday(z) + 1) % 7
  {
  }

  /** What `d.setDate(d.getDate() + 1)` does to a valid civil date. */
  function NextCivilDay(c: CivilDate): (r: CivilDate)
    ensures ValidDate(c) ==> ValidDate(r)
  {
    if c.day < DaysInMonth(c.year, c.month) then CivilDate(c.year, c.month, c.day + 1)
    else if c.month < 12 then CivilDate(c.year, c.month + 1, 1)
    else CivilDate(c.year + 1, 1, 1)
  }

  lemma MarchYearStep(y: int)
    ensures DaysFromMarchDate(y + 1, 0) == DaysFromMarchDate(y, 0) + MarchYearLength(y)
  {
    var era, yoe := y / 400, y % 400;
    if yoe < 399 {
      assert (y + 1) / 400 == era && (y + 1) % 400 == yoe + 1;
      assert (yoe + 1) / 4 - yoe / 4 == if (yoe + 1) % 4 == 0 then 1 else 0;
      assert (yoe + 1) / 100 - yoe / 100 == if (yoe + 1) % 100 == 0 then 1 else 0;
    } else {
      assert (y + 1) / 400 == era + 1 && (y + 1) % 400 == 0;
    }
  }

  lemma DaysFromMarchDateStep(y: int, doy: int)
    ensures DaysFromMarchDate(y, doy + 1) == DaysFromMarchDate(y, doy) + 1
  {
  }

  lemma NextDayDays(c: CivilDate)
    requires ValidDate(c)
    ensures ValidDate(NextCivilDay(c)) && DaysFromCivil(NextCivilDay(c)) == DaysFromCivil(c) + 1
  {
    var n := NextCivilDay(c);
    var y, doy := MarchYear(c), MarchDayOfYear(c);
    if c.month == 2 && c.day == DaysInMonth(c.year, 2) {
      MarchYearLengthLeap(c.year - 1);
      MarchYearStep(c.year - 1);
      assert MarchYear(n) == c.year && MarchDayOfYear(n) == 0;
      assert y == c.year - 1 && doy + 1 == MarchYearLength(y);
    } else {
      assert MarchYear(n) == y && MarchDayOfYear(n) == doy + 1;
      DaysFromMarchDateStep(y, doy);
    }
  }

  /** Stepping a day number by one steps its civil date by one day. */
  lemma NextDay(z: int)
    ensures CivilFromDays(z + 1) == NextCivilDay(CivilFromDays(z))
  {
    var c := CivilFromDays(z);
    DaysRoundTrip(z);
    var n := NextCivilDay(c);
    NextDayDays(c);
    CivilRoundTrip(n);
    assert DaysFromCivil(n) == z + 1;
  }

  // ---- ISO date strings ----

  /** The year as Date.prototype.toISOString writes it: four digits for
      years 0..9999, otherwise a sign and at least six digits. */
  function YearString(year: int): string
  {
    if 0 <= year <= 9999 then PadLeft(year, 4)
    else (if year < 0 then "-" else "+") + PadLeft(if year < 0 then -year else year, 6)
  }

  /** "YYYY-MM-DD", the part of toISOString before the 'T'. */
  function IsoDateString(c: CivilDate): string
    requires ValidDate(c)
  {
    YearString(c.year) + "-" + TwoDigits(c.month) + "-" + TwoDigits(c.day)
  }

  /** `d.toISOString().split('T')[0]` for the day z. */
  function IsoDate(z: int): string
  {
    CivilFromDaysValid(z);
    IsoDateString(CivilFromDays(z))
  }

  lemma YearStringInjective(y1: int, y2: int)
    requires YearString(y1) == YearString(y2)
    ensures y1 == y2
  {
    var s := YearString(y1);
    var short1, short2 := 0 <= y1 <= 9999, 0 <= y2 <= 9999;
    if short1 && short2 {
      ParsePadLeft(y1, 4);
      ParsePadLeft(y2, 4);
    } else if !short1 && !short2 {
      var a1, a2 := if y1 < 0 then -y1 else y1, if y2 < 0 then -y2 else y2;
      assert s[1..] == PadLeft(a1, 6) && YearString(y2)[1..] == PadLeft(a2, 6);
      ParsePadLeft(a1, 6);
      ParsePadLeft(a2, 6);
      assert (y1 < 0) == (s[0] == '-') == (y2 < 0);
    }
  }

  lemma IsoDateParts(c: CivilDate)
    requires ValidDate(c)
    ensures var s := IsoDateString(c);
      |s| >= 6 && s[..|s| - 6] == YearString(c.year)
      && s[|s| - 5..|s| - 3] == TwoDigits(c.month) && s[|s| - 2..] == TwoDigits(c.day)
  {
  }

  lemma IsoDateStringInjective(c1: CivilDate, c2: CivilDate)
    requires ValidDate(c1) && ValidDate(c2) && IsoDateString(c1) == IsoDateString(c2)
    ensures c1 == c2
  {
    IsoDateParts(c1);
    IsoDateParts(c2);
    YearStringInjective(c1.year, c2.year);
    TwoDigitsInjective(c1.month, c2.month);
    TwoDigitsInjective(c1.day, c2.day);
  }

  /** Two days have the same ISO date string only if they are the same day. */
  lemma IsoDateInjective(z1: int, z2: int)
    ensures IsoDate(z1) == IsoDate(z2) <==> z1 == z2
  {
    if IsoDate(z1) == IsoDate(z2) {
      DaysRoundTrip(z1);
      DaysRoundTrip(z2);
      IsoDateStringInjective(CivilFromDays(z1), CivilFromDays(z2));
    }
  }

  /** June 1, 2025, the month the booking page opens on, is day 20240 and a Sunday. */
  lemma June2025Example()
    ensures DaysFromCivil(CivilDate(2025, 6, 1)) == 20240
    ensures Weekday(20240) == 0
  {
  }
}
