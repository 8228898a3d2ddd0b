/** The date logic of the request form in gui.py: the leap-year rule, the
    day-of-month check, the day list offered for a month, and the order in
    which the form's fields are checked. Python's `int()` on a field is the
    parameter `toInt`, `None` where it raises ValueError. */
module Calendar {

  import opened Common

  /** `is_leap_year`, as its nested conditionals: the Gregorian rule,
      divisible by 4 and not by 100, or divisible by 400. */
  function IsLeapYear(year: int): (r: bool)
    ensures r <==> (year % 4 == 0 && year % 100 != 0) || year % 400 == 0
  {
    DivisibleBy400(year);
    if year % 4 == 0 then
      if year % 100 == 0 then
        if year % 400 == 0 then true else false
      else true
    else false
  }

  lemma DivisibleBy400(year: int)
    ensures year % 400 == 0 ==> year % 4 == 0 && year % 100 == 0
  {
    if year % 400 != 0 {
      return;
    }
    var k := year / 400;
    assert year == 400 * k;
    assert year % 4 == 0 by {
      assert year == 4 * (100 * k);
    }
    assert year % 100 == 0 by {
      assert year == 100 * (4 * k);
    }
  }

  /** The length of month 1..12 of `year`, as a calendar states it. */
  function DaysInMonth(year: int, month: int): (n: int)
    requires 1 <= month <= 12
    ensures 28 <= n <= 31
  {
    if month == 2 then (if (year % 4 == 0 && year % 100 != 0) || year % 400 == 0 then 29 else 28)
    else if month == 4 || month == 6 || month == 9 || month == 11 then 30
    else 31
  }

  /** `validate_date` on the three field texts. A field that does not parse
      makes the date invalid instead of raising. A date whose fields parse is
      accepted exactly when its month is 1..12 and its day is at most that
      month's length. There is no lower bound on the day and no check of the
      1948-2024 range the form's message names. */
  function ValidateDate(toInt: string -> Option<int>, year: string, month: string, day: string): (r: bool)
    ensures toInt(year).None? || toInt(month).None? || toInt(day).None? ==> !r
    ensures toInt(year).Some? && toInt(month).Some? && toInt(day).Some? ==>
              var y, m, d := toInt(year).value, toInt(month).value, toInt(day).value;
              r <==> 1 <= m <= 12 && d <= DaysInMonth(y, m)
  {
    var y, m, d := toInt(year), toInt(month), toInt(day);
    if y.None? || m.None? || d.None? then false
    else if !(1 <= m.value <= 12) then false
    else if m.value in [4, 6, 9, 11] then d.value <= 30
    else if m.value in [1, 3, 5, 7, 8, 10, 12] then d.value <= 31
    else if m.value == 2 then
      if IsLeapYear(y.value) then d.value <= 29 else d.value <= 28
    else false
  }

  /** The numbers `lo`, `lo + 1`, ..., `hi - 1`, as `range(lo, hi)`. */
  function Range(lo: int, hi: int): (r: seq<int>)
    ensures |r| == if lo <= hi then hi - lo else 0
    ensures forall i :: 0 <= i < |r| ==> r[i] == lo + i
    decreases hi - lo
  {
    if lo >= hi then [] else [lo] + Range(lo + 1, hi)
  }

  /** The day list `update_days` puts in the day box, `None` when it leaves
      the box as it was: a field that does not parse, or a year or month of
      0. */
  function UpdateDays(toInt: string -> Option<int>, year: string, month: string): (r: Option<seq<int>>)
    ensures r.Some? <==> toInt(year).Some? && toInt(month).Some? && toInt(year).value != 0 && toInt(month).value != 0
    ensures r.Some? ==> 28 <= |r.value| <= 31 && forall i :: 0 <= i < |r.value| ==> r.value[i] == i + 1
  {
    var y, m := toInt(year), toInt(month);
    if y.None? || m.None? then None
    else if y.value == 0 || m.value == 0 then None
    else if m.value in [4, 6, 9, 11] then Some(Range(1, 31))
    else if m.value == 2 then
      if IsLeapYear(y.value) then Some(Range(1, 30)) else Some(Range(1, 29))
    else Some(Range(1, 32))
  }

  /** For a real month the offered days are 1 up to the month's length, so
      a positive day is offered exactly when `validate_date` accepts it. */
  lemma OfferedDaysAreValid(toInt: string -> Option<int>, year: string, month: string, day: string)
    requires toInt(year).Some? && toInt(month).Some? && toInt(day).Some?
    requires toInt(year).value != 0 && 1 <= toInt(month).value <= 12
    ensures var y, m := toInt(year).value, toInt(month).value;
            UpdateDays(toInt, year, month) == Some(Range(1, DaysInMonth(y, m) + 1))
    ensures var days := UpdateDays(toInt, year, month).value;
            toInt(day).value >= 1 ==> (toInt(day).value in days <==> ValidateDate(toInt, year, month, day))
  {
    var y, m, d := toInt(year).value, toInt(month).value, toInt(day).value;
    var days := Range(1, DaysInMonth(y, m) + 1);
    if d >= 1 && d <= DaysInMonth(y, m) {
      assert days[d - 1] == d;
    }
  }

  /** A month outside 1..12 other than 0 still offers 31 days, none of which
      `validate_date` accepts. */
  lemma OutOfRangeMonth(toInt: string -> Option<int>, year: string, month: string, day: string)
    requires toInt(year).Some? && toInt(month).Some? && toInt(day).Some?
    requires toInt(year).value != 0 && toInt(month).value != 0 && !(1 <= toInt(month).value <= 12)
    ensures UpdateDays(toInt, year, month) == Some(Range(1, 32))
    ensures !ValidateDate(toInt, year, month, day)
  {
  }

  /** What `submit_form` does: show an error message, raise the ValueError of
      an `int()` outside `validate_date`, or start the retrieval. */
  datatype FormOutcome = Message(text: string) | Raised | Accepted

  const FILL_MESSAGE := "Please fill all the fields."
  const DATE_MESSAGE := "Invalid date. Please enter a date between Jan 1, 1948 and Jul 6, 2024."
  const HOUR_MESSAGE := "Invalid hour. Please enter 0, 6, 12, or 18."
  const LATITUDE_MESSAGE := "Please enter a valid latitude. (Range: -90 to 90)"
  const LONGITUDE_MESSAGE := "Please enter a valid longitude. (Range: -180 to 180)"

  /** No field of the form is empty. */
  predicate Filled(year: string, month: string, day: string, hour: string, latitude: string, longitude: string)
  {
    year != "" && month != "" && day != "" && hour != "" && latitude != "" && longitude != ""
  }

  /** The hour parses and is a multiple of 6. */
  predicate HourPasses(toInt: string -> Option<int>, hour: string)
  {
    toInt(hour).Some? && toInt(hour).value % 6 == 0
  }

  /** The latitude parses and lies strictly between -90 and 90. */
  predicate LatitudePasses(toInt: string -> Option<int>, latitude: string)
  {
    toInt(latitude).Some? && -90 < toInt(latitude).value < 90
  }

  /** The longitude parses and lies strictly between -180 and 180. */
  predicate LongitudePasses(toInt: string -> Option<int>, longitude: string)
  {
    toInt(longitude).Some? && -180 < toInt(longitude).value < 180
  }

  /** `submit_form` on the six field texts. The checks run in the code's
      order (filled, date, hour, latitude, longitude), and the first that
      fails decides the outcome: its message, or the ValueError of an
      `int()` on the hour or a coordinate. The form starts a retrieval
      exactly when every check passes. */
  function SubmitForm(toInt: string -> Option<int>, year: string, month: string, day: string,
                      hour: string, latitude: string, longitude: string): (r: FormOutcome)
    ensures !Filled(year, month, day, hour, latitude, longitude) ==> r == Message(FILL_MESSAGE)
    ensures Filled(year, month, day, hour, latitude, longitude) && !ValidateDate(toInt, year, month, day) ==>
              r == Message(DATE_MESSAGE)
    ensures Filled(year, month, day, hour, latitude, longitude) && ValidateDate(toInt, year, month, day) ==>
              && (toInt(hour).None? ==> r == Raised)
              && (toInt(hour).Some? && toInt(hour).value % 6 != 0 ==> r == Message(HOUR_MESSAGE))
    ensures Filled(year, month, day, hour, latitude, longitude) && ValidateDate(toInt, year, month, day) &&
            HourPasses(toInt, hour) ==>
              && (toInt(latitude).None? ==> r == Raised)
              && (toInt(latitude).Some? && !LatitudePasses(toInt, latitude) ==> r == Message(LATITUDE_MESSAGE))
    ensures Filled(year, month, day, hour, latitude, longitude) && ValidateDate(toInt, year, month, day) &&
            HourPasses(toInt, hour) && LatitudePasses(toInt, latitude) ==>
              && (toInt(longitude).None? ==> r == Raised)
              && (toInt(longitude).Some? && !LongitudePasses(toInt, longitude) ==> r == Message(LONGITUDE_MESSAGE))
    ensures r == Accepted <==>
              && Filled(year, month, day, hour, latitude, longitude)
              && ValidateDate(toInt, year, month, day)
              && HourPasses(toInt, hour) && LatitudePasses(toInt, latitude) && LongitudePasses(toInt, longitude)
    ensures r == Raised ==> toInt(hour).None? || toInt(latitude).None? || toInt(longitude).None?
  {
    if year == "" || month == "" || day == "" || hour == "" || latitude == "" || longitude == "" then
      Message(FILL_MESSAGE)
    else if !ValidateDate(toInt, year, month, day) then Message(DATE_MESSAGE)
    else if toInt(hour).None? then Raised
    else if toInt(hour).value % 6 != 0 then Message(HOUR_MESSAGE)
    else if toInt(latitude).None? then Raised
    else if !(toInt(latitude).value > -90 && toInt(latitude).value < 90) then Message(LATITUDE_MESSAGE)
    else if toInt(longitude).None? then Raised
    else if !(toInt(longitude).value > -180 && toInt(longitude).value < 180) then Message(LONGITUDE_MESSAGE)
    else Accepted
  }

  /** A negative hour that is a multiple of 6, such as -6, passes the hour
      check: only the remainder is tested. */
  lemma NegativeHourAccepted(toInt: string -> Option<int>, year: string, month: string, day: string,
                             hour: string, latitude: string, longitude: string)
    requires year != "" && month != "" && day != "" && hour != "" && latitude != "" && longitude != ""
    requires ValidateDate(toInt, year, month, day)
    requires toInt(hour) == Some(-6) && toInt(latitude) == Some(0) && toInt(longitude) == Some(0)
    ensures SubmitForm(toInt, year, month, day, hour, latitude, longitude) == Accepted
  {
  }
}
