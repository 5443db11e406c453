/** The Gregorian calendar, Go's normalisation of dates, and AddDate with clamping at month ends. */
module Calendar {
  import opened Results

  datatype Date = Date(year: int, month: int, day: int)

  predicate IsLeap(year: int) {
    year % 4 == 0 && (year % 100 != 0 || year % 400 == 0)
  }

  function DaysIn(year: int, month: int): (days: int)
    requires 1 <= month <= 12
    ensures 28 <= days <= 31
  {
    if month == 2 then if IsLeap(year) then 29 else 28
    else if month == 4 || month == 6 || month == 9 || month == 11 then 30
    else 31
  }

  predicate Valid(d: Date) {
    1 <= d.month <= 12 && 1 <= d.day <= DaysIn(d.year, d.month)
  }

  // ----- Months in a row

  /** Months are counted from January of year 0; division and remainder round down. */
  function MonthIndex(year: int, month: int): int {
    12 * year + month - 1
  }

  function DateAt(index: int, day: int): (d: Date)
    ensures 1 <= d.month <= 12 && MonthIndex(d.year, d.month) == index && d.day == day
  {
    Date(index / 12, index % 12 + 1, day)
  }

  function Length(index: int): (days: int)
    ensures 28 <= days <= 31
  {
    DaysIn(index / 12, index % 12 + 1)
  }

  /** Days from the beginning of the calendar to the first of January. */
  function DaysBeforeYear(year: int): int {
    365 * (year - 1) + (year - 1) / 4 - (year - 1) / 100 + (year - 1) / 400
  }

  /** Days from the first of January to the first of a month, in a year that is not a leap year. */
  function DaysBeforeMonth(month: int): int
    requires 1 <= month <= 12
  {
    [0, 31, 59, 90, 120, 151, 181, 212, 243, 273, 304, 334][month - 1]
  }

  /** The day number of a date, as Go computes it; the day may lie outside of the month. The first
      of January of the year 1 has number 1. */
  function DayNumber(d: Date): int
    requires 1 <= d.month <= 12
  {
    DaysBeforeYear(d.year) + DaysBeforeMonth(d.month) + (if IsLeap(d.year) && d.month > 2 then 1 else 0) + d.day
  }

  lemma YearLength(year: int)
    ensures DaysBeforeYear(year + 1) == DaysBeforeYear(year) + if IsLeap(year) then 366 else 365
  {
    RoundedDown(year, 4);
    RoundedDown(year, 100);
    RoundedDown(year, 400);
    Cycles(year);
  }

  lemma Cycles(year: int)
    ensures year % 400 == 0 ==> year % 100 == 0
    ensures year % 100 == 0 ==> year % 4 == 0
  {
  }

  lemma RoundedDown(n: int, k: int)
    requires k == 4 || k == 100 || k == 400
    ensures n / k - (n - 1) / k == if n % k == 0 then 1 else 0
  {
  }

  /** The months follow each other without gap. */
  lemma MonthLength(index: int, day: int)
    ensures DayNumber(DateAt(index + 1, day)) == DayNumber(DateAt(index, day)) + Length(index)
  {
    if index % 12 == 11 {
      assert (index + 1) / 12 == index / 12 + 1 && (index + 1) % 12 == 0;
      YearLength(index / 12);
    } else {
      assert (index + 1) / 12 == index / 12 && (index + 1) % 12 == index % 12 + 1;
    }
  }

  lemma DayShift(index: int, day: int, more: int)
    ensures DayNumber(DateAt(index, day + more)) == DayNumber(DateAt(index, day)) + more
  {
  }

  lemma {:induction false} LaterMonth(index: int, later: int, day: int, otherDay: int)
    requires index < later && 1 <= day <= Length(index) && 1 <= otherDay
    ensures DayNumber(DateAt(index, day)) < DayNumber(DateAt(later, otherDay))
    decreases later - index
  {
    MonthLength(index, 1);
    DayShift(index, 1, day - 1);
    if later == index + 1 {
      DayShift(later, 1, otherDay - 1);
    } else {
      LaterMonth(index + 1, later, 1, otherDay);
    }
  }

  predicate Earlier(a: Date, b: Date) {
    a.year < b.year || (a.year == b.year && (a.month < b.month || (a.month == b.month && a.day < b.day)))
  }

  /** The day number orders dates by year, month and day. */
  lemma DayNumberOrders(a: Date, b: Date)
    requires Valid(a) && Valid(b)
    ensures DayNumber(a) < DayNumber(b) <==> Earlier(a, b)
    ensures DayNumber(a) == DayNumber(b) <==> a == b
  {
    var i, j := MonthIndex(a.year, a.month), MonthIndex(b.year, b.month);
    assert DateAt(i, a.day) == a && DateAt(j, b.day) == b;
    if i < j {
      LaterMonth(i, j, a.day, b.day);
    } else if j < i {
      LaterMonth(j, i, b.day, a.day);
    }
  }

  // ----- Go's time.Date

  /** A day outside of its month moves to the month before or after. */
  function NormalDay(index: int, day: int): (d: Date)
    ensures Valid(d)
    decreases if 1 <= day <= Length(index) then 0 else if day < 1 then 1 - day else day
  {
    if day < 1 then NormalDay(index - 1, day + Length(index - 1))
    else if day > Length(index) then NormalDay(index + 1, day - Length(index))
    else DateAt(index, day)
  }

  /** time.Date and Time.AddDate: the month wraps into the year, then the day into the month. */
  function Normal(year: int, month: int, day: int): Date {
    NormalDay(MonthIndex(year, month), day)
  }

  lemma {:induction false} NormalDayNumber(index: int, day: int)
    ensures DayNumber(NormalDay(index, day)) == DayNumber(DateAt(index, day))
    decreases if 1 <= day <= Length(index) then 0 else if day < 1 then 1 - day else day
  {
    hide DayNumber, DateAt, Length;
    if 1 <= day <= Length(index) {
    } else if day < 1 {
      NormalDayNumber(index - 1, day + Length(index - 1));
      MonthLength(index - 1, day);
      DayShift(index - 1, day, Length(index - 1));
    } else {
      NormalDayNumber(index + 1, day - Length(index));
      MonthLength(index, day - Length(index));
      DayShift(index, day - Length(index), Length(index));
    }
  }

  /** Normalisation gives the one valid date with the right day number. */
  lemma NormalIsUnique(index: int, day: int, d: Date)
    requires Valid(d)
    ensures d == NormalDay(index, day) <==> DayNumber(d) == DayNumber(DateAt(index, day))
  {
    NormalDayNumber(index, day);
    DayNumberOrders(d, NormalDay(index, day));
  }

  function GoAddDate(d: Date, years: int, months: int, days: int): Date {
    Normal(d.year + years, d.month + months, d.day + days)
  }

  /** Adding days moves by exactly that many days. */
  lemma AddDaysMoves(d: Date, days: int)
    requires Valid(d)
    ensures Valid(GoAddDate(d, 0, 0, days)) && DayNumber(GoAddDate(d, 0, 0, days)) == DayNumber(d) + days
  {
    hide DayNumber, NormalDay, DaysIn;
    IndexOf(d);
    hide DateAt, MonthIndex;
    NormalDayNumber(MonthIndex(d.year, d.month), d.day + days);
    DayShift(MonthIndex(d.year, d.month), d.day, days);
  }

  lemma IndexOf(d: Date)
    requires 1 <= d.month <= 12
    ensures DateAt(MonthIndex(d.year, d.month), d.day) == d
  {
  }

  // ----- Expirations

  /** AddDate of the upgrades package, with the current date as a parameter. */
  function AddDate(now: Date, years: int, months: int): Date {
    var future := GoAddDate(now, years, months, 0);
    if future.day != now.day then GoAddDate(future, 0, 0, -future.day) else future
  }

  /** AddDate lands in the intended month, on the same day or on the last of a shorter month. */
  lemma AddDateClamps(now: Date, years: int, months: int)
    requires Valid(now)
    ensures var index := MonthIndex(now.year + years, now.month + months);
            AddDate(now, years, months) == DateAt(index, if now.day <= Length(index) then now.day else Length(index))
  {
    var index := MonthIndex(now.year + years, now.month + months);
    if now.day > Length(index) {
      var future := GoAddDate(now, years, months, 0);
      assert NormalDay(index + 1, now.day - Length(index)) == DateAt(index + 1, now.day - Length(index));
      assert future == DateAt(index + 1, now.day - Length(index));
      assert GoAddDate(future, 0, 0, -future.day) == NormalDay(index + 1, 0) == NormalDay(index, Length(index));
    }
  }

  /** The twenty-ninth of February plus a number of years stays in February. */
  lemma LeapDay(now: Date, years: int)
    requires Valid(now) && now.month == 2 && now.day == 29
    ensures AddDate(now, years, 0) == Date(now.year + years, 2, if IsLeap(now.year + years) then 29 else 28)
  {
    AddDateClamps(now, years, 0);
    var index := MonthIndex(now.year + years, 2);
    assert index / 12 == now.year + years && index % 12 == 1;
  }

  datatype Upgrade = Upgrade(isVaultUpgrade: bool, annual: bool)

  /** GetUpgradeExpiration; None for an upgrade that is not one of the vault. */
  function GetUpgradeExpiration(now: Date, upgrade: Upgrade, quantity: int): Option<Date> {
    if !upgrade.isVaultUpgrade then None
    else if upgrade.annual then Some(AddDate(now, quantity, 0))
    else Some(AddDate(now, 0, quantity))
  }

  /** A vault upgrade bought for a positive number of periods expires later than the purchase, in
      the month that many periods ahead; a year is the same as twelve months. */
  lemma ExpirationIsAhead(now: Date, upgrade: Upgrade, quantity: int)
    requires Valid(now) && upgrade.isVaultUpgrade && quantity >= 1
    ensures var exp := GetUpgradeExpiration(now, upgrade, quantity);
            && exp.Some? && Valid(exp.value) && DayNumber(now) < DayNumber(exp.value)
            && MonthIndex(exp.value.year, exp.value.month) ==
                 MonthIndex(now.year, now.month) + (if upgrade.annual then 12 * quantity else quantity)
            && (upgrade.annual ==> exp == GetUpgradeExpiration(now, Upgrade(true, false), 12 * quantity))
  {
    hide AddDate, DayNumber, Valid, MonthIndex;
    ClampedAhead(now, quantity, 0);
    ClampedAhead(now, 0, quantity);
    YearIsTwelveMonths(now, quantity);
  }

  lemma YearIsTwelveMonths(now: Date, years: int)
    requires Valid(now)
    ensures AddDate(now, years, 0) == AddDate(now, 0, 12 * years)
  {
    AddDateClamps(now, years, 0);
    AddDateClamps(now, 0, 12 * years);
    hide AddDate, DateAt, Length;
  }

  lemma ClampedAhead(now: Date, years: int, months: int)
    requires Valid(now) && 12 * years + months >= 1
    ensures var exp := AddDate(now, years, months);
            && Valid(exp) && DayNumber(now) < DayNumber(exp)
            && MonthIndex(exp.year, exp.month) == MonthIndex(now.year, now.month) + 12 * years + months
  {
    AddDateClamps(now, years, months);
    hide AddDate, DayNumber;
    DayNumberOrders(now, AddDate(now, years, months));
  }
}
