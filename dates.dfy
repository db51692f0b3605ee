/** Calendar days and `calculateAge`. A date-of-birth, visit or appointment
    string `YYYY-MM-DD` is modelled as its (year, month, day) triple, and
    "today" is passed in instead of being read from the clock. */
module Dates {
  import opened Wrappers

  /** A calendar day; components are compared as numbers and not range-checked. */
  datatype Date = Date(year: int, month: int, day: int)

  /** `a` is an earlier day than `b`. */
  predicate Before(a: Date, b: Date) {
    a.year < b.year ||
    (a.year == b.year && (a.month < b.month || (a.month == b.month && a.day < b.day)))
  }

  lemma BeforeIsStrictTotalOrder(a: Date, b: Date, c: Date)
    ensures !Before(a, a)
    ensures Before(a, b) ==> !Before(b, a)
    ensures Before(a, b) && Before(b, c) ==> Before(a, c)
    ensures a == b || Before(a, b) || Before(b, a)
  {
  }

  /** The sign of `new Date(a) - new Date(b)`: negative when `a` is earlier. */
  function DateCompare(a: Date, b: Date): (r: int)
    ensures -1 <= r <= 1
    ensures r == 0 <==> a == b
    ensures r < 0 <==> Before(a, b)
    ensures r > 0 <==> Before(b, a)
  {
    if Before(a, b) then -1 else if Before(b, a) then 1 else 0
  }

  /** The `n`-th anniversary of `birth`. */
  function Anniversary(birth: Date, n: int): Date {
    Date(birth.year + n, birth.month, birth.day)
  }

  /** The result of `calculateAge`: `'N/A'` or a whole number of years. */
  datatype Age = NotAvailable | Years(years: int)

  /** `calculateAge`: full years elapsed from the date of birth to `today`,
      that is, the number of the last anniversary that is not after today. */
  function CalculateAge(dateOfBirth: Option<Date>, today: Date): (r: Age)
    ensures r.NotAvailable? <==> dateOfBirth.None?
    ensures dateOfBirth.Some? ==>
      !Before(today, Anniversary(dateOfBirth.value, r.years)) &&
      Before(today, Anniversary(dateOfBirth.value, r.years + 1))
  {
    match dateOfBirth
    case None => NotAvailable
    case Some(birth) =>
      var age := today.year - birth.year;
      var monthDiff := today.month - birth.month;
      if monthDiff < 0 || (monthDiff == 0 && today.day < birth.day) then Years(age - 1)
      else Years(age)
  }

  /** Only one number of years satisfies the full-years characterisation. */
  lemma AgeIsUnique(birth: Date, today: Date, n: int)
    requires !Before(today, Anniversary(birth, n))
    requires Before(today, Anniversary(birth, n + 1))
    ensures CalculateAge(Some(birth), today) == Years(n)
  {
  }

  /** On the `n`-th birthday the age is exactly `n`. */
  lemma AgeOnBirthday(birth: Date, n: int)
    ensures CalculateAge(Some(birth), Anniversary(birth, n)) == Years(n)
  {
  }

  /** Age never decreases as today moves forward. */
  lemma AgeIsMonotonic(birth: Date, today: Date, later: Date)
    requires !Before(later, today)
    ensures CalculateAge(Some(birth), today).years <= CalculateAge(Some(birth), later).years
  {
  }
}
