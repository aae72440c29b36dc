/** The month and weekday selection at the end of `load_data`. */
module Filter {
  import opened Wrappers
  import opened Text
  import opened Trips
  import opened Validation

  const MonthNames: seq<string> := ["january", "february", "march", "april", "may", "june"]
  const DayNames: seq<string> :=
    ["monday", "tuesday", "wednesday", "thursday", "friday", "saturday", "sunday"]

  /** `names.index(x)`: the first position of `x`, or nothing where Python
      raises `ValueError`. */
  function IndexOf(names: seq<string>, x: string): (r: Option<nat>)
    ensures r.Some? <==> x in names
    ensures r.Some? ==> r.value < |names| && names[r.value] == x && x !in names[..r.value]
  {
    if names == [] then None
    else if names[0] == x then Some(0)
    else match IndexOf(names[1..], x)
      case None => None
      case Some(i) =>
        assert names[..i + 1] == [names[0]] + names[1..][..i];
        Some(i + 1)
  }

  /** `months.index(month.lower()) + 1`: January is 1. */
  function MonthIndex(month: string): (r: Option<int>)
    ensures r.Some? <==> Lower(month) in MonthNames
    ensures r.Some? ==> 1 <= r.value <= 6 && MonthNames[r.value - 1] == Lower(month)
  {
    match IndexOf(MonthNames, Lower(month))
    case None => None
    case Some(i) => Some(i + 1)
  }

  /** `days.index(day.lower())`: Monday is 0. */
  function DayIndex(day: string): (r: Option<int>)
    ensures r.Some? <==> Lower(day) in DayNames
    ensures r.Some? ==> 0 <= r.value <= 6 && DayNames[r.value] == Lower(day)
  {
    match IndexOf(DayNames, Lower(day))
    case None => None
    case Some(i) => Some(i)
  }

  /** The `ValueError` that `list.index` raises for a name not in the list. */
  datatype FilterError = UnknownMonth | UnknownDay

  function MonthIs(m: int): Trip -> bool {
    (r: Trip) => r.month == m
  }

  function WeekdayIs(d: int): Trip -> bool {
    (r: Trip) => r.weekday == d
  }

  /** The filter of `load_data`: first by month unless `month` is exactly
      "all", then by weekday unless `day` is exactly "all". */
  function ApplyFilters(rs: seq<Trip>, month: string, day: string): (res: Result<seq<Trip>, FilterError>)
    ensures res == Failure(UnknownMonth) <==> month != "all" && MonthIndex(month).None?
    ensures res == Failure(UnknownDay) <==>
      (month == "all" || MonthIndex(month).Some?) && day != "all" && DayIndex(day).None?
    ensures month == "all" && day == "all" ==> res == Success(rs)
  {
    if month != "all" && MonthIndex(month).None? then Failure(UnknownMonth)
    else
      var byMonth := if month == "all" then rs else Where(rs, MonthIs(MonthIndex(month).value));
      if day != "all" && DayIndex(day).None? then Failure(UnknownDay)
      else if day == "all" then Success(byMonth)
      else Success(Where(byMonth, WeekdayIs(DayIndex(day).value)))
  }

  /** A record passes the month constraint ("all" or the named month) and the
      weekday constraint ("all" or the named day). */
  predicate Selected(r: Trip, month: string, day: string) {
    (month == "all" || MonthIndex(month) == Some(r.month)) &&
    (day == "all" || DayIndex(day) == Some(r.weekday))
  }

  function Selects(month: string, day: string): Trip -> bool {
    (r: Trip) => Selected(r, month, day)
  }

  /** The two masks applied one after the other are one selection by the
      conjunction of the two constraints. */
  lemma {:induction false} FilterIsConjunction(rs: seq<Trip>, month: string, day: string)
    requires ApplyFilters(rs, month, day).Success?
    ensures ApplyFilters(rs, month, day).value == Where(rs, Selects(month, day))
  {
    var out := ApplyFilters(rs, month, day).value;
    var all: Trip -> bool := (r: Trip) => true;
    if month == "all" && day == "all" {
      WhereAll(rs, Selects(month, day));
    } else if month == "all" {
      var byDay := WeekdayIs(DayIndex(day).value);
      assert out == Where(rs, byDay);
      WhereWhere(rs, all, byDay, Selects(month, day));
      WhereAll(rs, all);
    } else if day == "all" {
      var byMonth := MonthIs(MonthIndex(month).value);
      assert out == Where(rs, byMonth);
      WhereWhere(rs, byMonth, all, Selects(month, day));
      WhereAll(Where(rs, byMonth), all);
    } else {
      var byMonth := MonthIs(MonthIndex(month).value);
      var byDay := WeekdayIs(DayIndex(day).value);
      assert out == Where(Where(rs, byMonth), byDay);
      WhereWhere(rs, byMonth, byDay, Selects(month, day));
    }
  }

  /** The result is an order-preserving subsequence of the input, and a record
      is in it exactly when it was in the input and meets both constraints;
      a matching record keeps every one of its occurrences. */
  lemma FilterKeepsOrder(rs: seq<Trip>, month: string, day: string, r: Trip)
    requires ApplyFilters(rs, month, day).Success?
    ensures Subseq(ApplyFilters(rs, month, day).value, rs)
    ensures r in ApplyFilters(rs, month, day).value <==> r in rs && Selected(r, month, day)
    ensures multiset(ApplyFilters(rs, month, day).value)[r] ==
      if Selected(r, month, day) then multiset(rs)[r] else 0
  {
    FilterIsConjunction(rs, month, day);
    WhereMembers(rs, Selects(month, day), r);
  }

  /** Every month and day that `get_month` and `get_day` accept is one that
      the filter knows, so a validated choice never raises. */
  lemma {:induction false} ValidatedChoicesNeverFail(rs: seq<Trip>, monthInput: string, dayInput: string)
    requires ValidMonth(monthInput).Some? && ValidDay(dayInput).Some?
    ensures ApplyFilters(rs, ValidMonth(monthInput).value, ValidDay(dayInput).value).Success?
  {
    var m, d := ValidMonth(monthInput).value, ValidDay(dayInput).value;
    LowerKeepsSpace(Strip(monthInput));
    LowerKeepsSpace(Strip(dayInput));
    assert Lower(m) == m && Lower(d) == d;
  }
}
