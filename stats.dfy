/** The four report functions `time_stats`, `station_stats`,
    `trip_duration_stats` and `user_stats`, as values computed from the
    (filtered) records. Where pandas raises on the data, the result is `None`. */
module Stats {
  import opened Wrappers
  import opened Text
  import opened Trips
  import opened Frequency
  import opened Filter
  import Validation

  // ---------------------------------------------------------------- columns

  function MonthOf(r: Trip): int { r.month }
  function WeekdayOf(r: Trip): int { r.weekday }
  function HourOf(r: Trip): int { r.hour }
  function StartOf(r: Trip): string { r.startStation }
  function EndOf(r: Trip): string { r.endStation }
  function PairOf(r: Trip): (string, string) { (r.startStation, r.endStation) }
  function UserTypeOf(r: Trip): string { r.userType }
  function GenderOf(r: Trip): Option<string> { r.gender }
  function BirthYearOf(r: Trip): Option<int> { r.birthYear }

  // ------------------------------------------------------------- time_stats

  datatype TimeReport = TimeReport(month: int, weekday: int, hour: int)

  /** Most common month, weekday and start hour, each `column.mode()[0]`: a
      value of highest frequency, the smallest one when several tie. An empty
      selection has no `mode()[0]` and pandas raises. */
  function TimeStats(rs: seq<Trip>): (t: Option<TimeReport>)
    ensures t.None? <==> rs == []
    ensures t.Some? ==> IsSmallestMode(Column(rs, MonthOf), t.value.month)
    ensures t.Some? ==> IsSmallestMode(Column(rs, WeekdayOf), t.value.weekday)
    ensures t.Some? ==> IsSmallestMode(Column(rs, HourOf), t.value.hour)
  {
    if rs == [] then None
    else Some(TimeReport(
      SmallestMode(Column(rs, MonthOf)).value,
      SmallestMode(Column(rs, WeekdayOf)).value,
      SmallestMode(Column(rs, HourOf)).value))
  }

  /** Each reported time is the time of some record, so it lies in the range
      of its field; in particular the weekday is a key of the weekday-name
      table and its lookup cannot fail. */
  lemma TimeReportInRange(rs: seq<Trip>)
    requires rs != []
    requires forall r :: r in rs ==> WellFormed(r)
    ensures 1 <= TimeStats(rs).value.month <= 12
    ensures 0 <= TimeStats(rs).value.weekday <= 6
    ensures 0 <= TimeStats(rs).value.hour <= 23
  {
    var t := TimeStats(rs).value;
    var r1 := ColumnMember(rs, MonthOf, t.month);
    var r2 := ColumnMember(rs, WeekdayOf, t.weekday);
    var r3 := ColumnMember(rs, HourOf, t.hour);
  }

  /** After a month (weekday) filter, the most common month (weekday) of a
      non-empty result is the month (weekday) that was asked for. */
  lemma FilteredTimeIsReported(rs: seq<Trip>, month: string, day: string)
    requires ApplyFilters(rs, month, day).Success?
    requires ApplyFilters(rs, month, day).value != []
    ensures month != "all" ==>
      TimeStats(ApplyFilters(rs, month, day).value).value.month == MonthIndex(month).value
    ensures day != "all" ==>
      TimeStats(ApplyFilters(rs, month, day).value).value.weekday == DayIndex(day).value
  {
    var out := ApplyFilters(rs, month, day).value;
    var t := TimeStats(out).value;
    var r1 := ColumnMember(out, MonthOf, t.month);
    FilterKeepsOrder(rs, month, day, r1);
    var r2 := ColumnMember(out, WeekdayOf, t.weekday);
    FilterKeepsOrder(rs, month, day, r2);
  }

  // ---------------------------------------------------------- station_stats

  /** The combination label that `station_stats` builds for one trip. */
  function JointKey(start: string, end: string): (k: string)
    ensures |k| == |start| + |end| + 20
    ensures k[..|start|] == start && k[|k| - |end| - 7..|k| - 7] == end
    ensures k[|start|..|start| + 13] == " (start) and " && k[|k| - 7..] == " (end)."
  {
    start + " (start) and " + end + " (end)."
  }

  function JointKeyOf(r: Trip): string { JointKey(r.startStation, r.endStation) }

  datatype StationReport = StationReport(commonStart: string, commonEnd: string, commonTrip: string)

  /** Most common start station, end station and combination label, each
      `value_counts().idxmax()`; the combination is a mode of the joint label
      column, not a pair of separate modes. An empty selection raises. */
  function StationStats(rs: seq<Trip>): (s: Option<StationReport>)
    ensures s.None? <==> rs == []
    ensures s.Some? ==> IsMode(Column(rs, StartOf), s.value.commonStart)
    ensures s.Some? ==> IsMode(Column(rs, EndOf), s.value.commonEnd)
    ensures s.Some? ==> IsMode(Column(rs, JointKeyOf), s.value.commonTrip)
  {
    if rs == [] then None
    else Some(StationReport(
      MostCommon(Column(rs, StartOf)).value,
      MostCommon(Column(rs, EndOf)).value,
      MostCommon(Column(rs, JointKeyOf)).value))
  }

  /** Distinct trips whose start stations contain no '(' get distinct labels. */
  lemma JointKeyInjective(s1: string, e1: string, s2: string, e2: string)
    requires '(' !in s1 && '(' !in s2
    requires JointKey(s1, e1) == JointKey(s2, e2)
    ensures s1 == s2 && e1 == e2
  {
    var k := JointKey(s1, e1);
    assert k[|s1| + 1] == '(';
    assert k[|s2| + 1] == '(';
    assert s1 == k[..|s1|] == s2;
    assert e1 == k[|s1| + 13..|k| - 7] == e2;
  }

  /** Without that condition the label can merge two different trips. */
  lemma JointKeyCollision()
    ensures ("A (start) and B", "C") != ("A", "B (start) and C")
    ensures JointKey("A (start) and B", "C") == JointKey("A", "B (start) and C")
  {
    assert "A (start) and B" + " (start) and " + "C" == "A" + " (start) and " + "B (start) and C";
  }

  ghost predicate NoParenInStarts(rs: seq<Trip>) {
    forall r :: r in rs ==> '(' !in r.startStation
  }

  /** When no start station contains '(', counting a trip's label counts the
      trips with the same start and end station. */
  lemma {:induction false} LabelCountIsPairCount(rs: seq<Trip>, s: string, e: string)
    requires NoParenInStarts(rs) && '(' !in s
    ensures multiset(Column(rs, JointKeyOf))[JointKey(s, e)] == multiset(Column(rs, PairOf))[(s, e)]
  {
    if rs != [] {
      LabelCountIsPairCount(rs[1..], s, e);
      ColumnCons(rs, JointKeyOf);
      ColumnCons(rs, PairOf);
      assert rs[0] in rs;
      if JointKeyOf(rs[0]) == JointKey(s, e) {
        JointKeyInjective(rs[0].startStation, rs[0].endStation, s, e);
      }
    }
  }

  /** So the reported combination is the label of a most frequent
      (start, end) pair. */
  lemma CommonTripIsModalPair(rs: seq<Trip>) returns (r: Trip)
    requires rs != [] && NoParenInStarts(rs)
    ensures r in rs && StationStats(rs).value.commonTrip == JointKeyOf(r)
    ensures IsMode(Column(rs, PairOf), PairOf(r))
  {
    var keys, pairs := Column(rs, JointKeyOf), Column(rs, PairOf);
    r := ColumnMember(rs, JointKeyOf, StationStats(rs).value.commonTrip);
    LabelCountIsPairCount(rs, r.startStation, r.endStation);
    forall y | y in pairs
      ensures multiset(pairs)[y] <= multiset(pairs)[PairOf(r)]
    {
      var r' := ColumnMember(rs, PairOf, y);
      LabelCountIsPairCount(rs, r'.startStation, r'.endStation);
      assert keys[..] == keys;
      assert JointKeyOf(r') in keys;
    }
    assert PairOf(r) in pairs;
  }

  // ---------------------------------------------------- trip_duration_stats

  /** `df['Trip Duration'].sum()`, in seconds (TotalAtLeast, TotalAtMost and
      TotalSplits state its properties). */
  function TotalSeconds(rs: seq<Trip>): real {
    if rs == [] then 0.0 else rs[0].duration + TotalSeconds(rs[1..])
  }

  /** Total and mean trip duration in hours. pandas gives a total of 0 and a
      mean of NaN (`None`) for an empty selection. */
  datatype DurationReport = DurationReport(totalHours: real, meanHours: Option<real>)

  function DurationStats(rs: seq<Trip>): (d: DurationReport)
    ensures d.totalHours * 3600.0 == TotalSeconds(rs)
    ensures d.meanHours.None? <==> rs == []
    ensures d.meanHours.Some? ==> d.meanHours.value * (|rs| as real) == d.totalHours
  {
    var total := TotalSeconds(rs);
    DurationReport(total / 3600.0,
      if rs == [] then None else Some(total / (|rs| as real) / 3600.0))
  }

  lemma {:induction false} TotalAtLeast(rs: seq<Trip>, lo: real)
    requires forall r :: r in rs ==> lo <= r.duration
    ensures lo * (|rs| as real) <= TotalSeconds(rs)
  {
    if rs != [] {
      var tail := rs[1..];
      assert rs[0] in rs;
      assert forall r :: r in tail ==> r in rs;
      TotalAtLeast(tail, lo);
      var m := |tail| as real;
      assert TotalSeconds(rs) == rs[0].duration + TotalSeconds(tail);
      assert |rs| as real == m + 1.0;
      assert lo * (m + 1.0) == lo * m + lo;
    }
  }

  lemma {:induction false} TotalAtMost(rs: seq<Trip>, hi: real)
    requires forall r :: r in rs ==> r.duration <= hi
    ensures TotalSeconds(rs) <= hi * (|rs| as real)
  {
    if rs != [] {
      var tail := rs[1..];
      assert rs[0] in rs;
      assert forall r :: r in tail ==> r in rs;
      TotalAtMost(tail, hi);
      var m := |tail| as real;
      assert TotalSeconds(rs) == rs[0].duration + TotalSeconds(tail);
      assert |rs| as real == m + 1.0;
      assert hi * (m + 1.0) == hi * m + hi;
    }
  }

  /** The mean lies between the shortest and the longest trip. */
  lemma MeanBetweenExtremes(rs: seq<Trip>, lo: real, hi: real)
    requires rs != []
    requires forall r :: r in rs ==> lo <= r.duration <= hi
    ensures lo / 3600.0 <= DurationStats(rs).meanHours.value <= hi / 3600.0
  {
    var n := |rs| as real;
    var total := TotalSeconds(rs);
    TotalAtLeast(rs, lo);
    TotalAtMost(rs, hi);
    assert lo <= total / n <= hi by {
      assert lo * n <= total <= hi * n;
    }
  }

  /** Splitting the records by any condition splits the total between the two
      parts: totals of, say, the months add up to the total of the year. */
  lemma {:induction false} TotalSplits(rs: seq<Trip>, keep: Trip -> bool, drop: Trip -> bool)
    requires forall r :: drop(r) == !keep(r)
    ensures TotalSeconds(rs) == TotalSeconds(Where(rs, keep)) + TotalSeconds(Where(rs, drop))
  {
    if rs != [] {
      TotalSplits(rs[1..], keep, drop);
    }
  }

  // ------------------------------------------------------------- user_stats

  datatype UserTypeCounts = UserTypeCounts(subscribers: nat, customers: nat)

  /** `(usertypes == 'Subscriber').sum()` and `(usertypes == 'Customer').sum()`:
      exact labels only, every other label being ignored. */
  function CountUserTypes(rs: seq<Trip>): (c: UserTypeCounts)
    ensures c.subscribers == multiset(Column(rs, UserTypeOf))["Subscriber"]
    ensures c.customers == multiset(Column(rs, UserTypeOf))["Customer"]
    ensures c.subscribers + c.customers <= |rs|
    ensures c.subscribers + c.customers == |rs| <==>
      forall t :: t in Column(rs, UserTypeOf) ==> t == "Subscriber" || t == "Customer"
  {
    var types := Column(rs, UserTypeOf);
    TwoLabelCounts(types, "Subscriber", "Customer");
    UserTypeCounts(Count(types, "Subscriber"), Count(types, "Customer"))
  }

  datatype GenderCounts = GenderCounts(male: nat, female: nat)

  /** `(gender == 'Male').sum()` and `(gender == 'Female').sum()`; a missing
      value matches neither. */
  function CountGenders(rs: seq<Trip>): (c: GenderCounts)
    ensures c.male == multiset(Column(rs, GenderOf))[Some("Male")]
    ensures c.female == multiset(Column(rs, GenderOf))[Some("Female")]
    ensures c.male + c.female <= |rs|
    ensures c.male + c.female == |rs| <==>
      forall g :: g in Column(rs, GenderOf) ==> g == Some("Male") || g == Some("Female")
  {
    var genders := Column(rs, GenderOf);
    TwoLabelCounts(genders, Some("Male"), Some("Female"));
    GenderCounts(Count(genders, Some("Male")), Count(genders, Some("Female")))
  }

  /** `df['Birth Year'].dropna()`: the present years in record order. */
  function PresentYears(rs: seq<Trip>): (ys: seq<int>)
    ensures |ys| <= |rs|
  {
    if rs == [] then []
    else match rs[0].birthYear
      case None => PresentYears(rs[1..])
      case Some(y) => [y] + PresentYears(rs[1..])
  }

  /** Dropping the missing values keeps every present year as often as records
      carry it, and leaves nothing exactly when no record has a year. */
  lemma {:induction false} PresentYearsCounts(rs: seq<Trip>)
    ensures forall y :: multiset(PresentYears(rs))[y] == multiset(Column(rs, BirthYearOf))[Some(y)]
    ensures PresentYears(rs) == [] <==> forall r :: r in rs ==> r.birthYear.None?
  {
    if rs != [] {
      PresentYearsCounts(rs[1..]);
      ColumnCons(rs, BirthYearOf);
      assert forall r :: r in rs <==> r == rs[0] || r in rs[1..];
    }
  }

  lemma {:induction false} PresentYearsAppend(a: seq<Trip>, b: seq<Trip>)
    ensures PresentYears(a + b) == PresentYears(a) + PresentYears(b)
  {
    if a == [] {
      assert a + b == b;
    } else {
      assert (a + b)[0] == a[0];
      assert (a + b)[1..] == a[1..] + b;
      PresentYearsAppend(a[1..], b);
    }
  }

  datatype BirthYearReport = BirthYearReport(earliest: int, latest: int, mostCommon: int)

  /** Earliest (`int(min)`), most recent (`max`) and most common
      (`value_counts().idxmax()`) of the present birth years. With no present
      year `int(NaN)` raises, which is `None`. */
  function BirthYearStats(rs: seq<Trip>): (b: Option<BirthYearReport>)
    ensures b.None? <==> forall r :: r in rs ==> r.birthYear.None?
    ensures b.Some? ==>
      var ys, v := PresentYears(rs), b.value;
      v.earliest in ys && v.latest in ys &&
      (forall y :: y in ys ==> v.earliest <= y <= v.latest) &&
      IsMode(ys, v.mostCommon) && v.earliest <= v.mostCommon <= v.latest
  {
    var ys := PresentYears(rs);
    PresentYearsCounts(rs);
    if ys == [] then None
    else Some(BirthYearReport(Min(ys), Max(ys), MostCommon(ys).value))
  }

  /** A record without a birth year, wherever it stands, does not change the
      birth-year report. */
  lemma MissingBirthYearIgnored(a: seq<Trip>, r: Trip, b: seq<Trip>)
    requires r.birthYear.None?
    ensures BirthYearStats(a + [r] + b) == BirthYearStats(a + b)
  {
    PresentYearsAppend(a + [r], b);
    PresentYearsAppend(a, [r]);
    PresentYearsAppend(a, b);
    assert [r][1..] == [];
    assert PresentYears([r]) == [];
    assert PresentYears(a + [r] + b) == PresentYears(a + b);
  }

  /** `user_stats` prints gender and birth-year figures unless
      `city.title()` is "Washington". */
  predicate HasDemographics(city: string): (h: bool)
    ensures h <==> Lower(city) != "washington"
  {
    WashingtonInAnyCase(city);
    Title(city) != "Washington"
  }

  /** `title()` gives "Washington" exactly for the spellings of washington in
      any mix of cases. */
  lemma WashingtonInAnyCase(city: string)
    ensures Title(city) == "Washington" <==> Lower(city) == "washington"
  {
    var t, l := Title(city), Lower(city);
    if l == "washington" {
      forall k | 0 <= k < |city|
        ensures IsLetter(city[k])
      {
        assert l[k] == "washington"[k];
        assert "washington"[k] != 'k';
      }
      TitleOfWord(city);
      assert t == "Washington";
    }
    if t == "Washington" {
      forall k | 0 <= k < |city|
        ensures l[k] == Lower(t)[k]
      {
        assert IsLetter(t[k]);
        assert t[k] == TitleChar(city[k], k > 0 && IsLetter(city[k - 1]));
        assert IsLetter(city[k]);
      }
      assert l == Lower(t);
    }
  }

  /** For the three catalogue cities that is every city but Washington. */
  lemma DemographicsForCatalogCities(city: string)
    requires city in Validation.Cities
    ensures HasDemographics(city) <==> city != "washington"
  {
    assert Lower(city) == city;
  }

  datatype Demographics = Demographics(genders: GenderCounts, birthYears: BirthYearReport)
  datatype UserReport = UserReport(userTypes: UserTypeCounts, demographics: Option<Demographics>)

  /** All of `user_stats`: user-type counts always, gender counts and birth
      years only for a city with those columns. `None` is the `ValueError` of
      `int(birth_years.min())` when no record of such a city has a year. */
  function UserStats(rs: seq<Trip>, city: string): (u: Option<UserReport>)
    ensures u.None? <==> HasDemographics(city) && forall r :: r in rs ==> r.birthYear.None?
    ensures u.Some? ==> u.value.userTypes == CountUserTypes(rs)
    ensures u.Some? ==> (u.value.demographics.Some? <==> HasDemographics(city))
    ensures u.Some? && u.value.demographics.Some? ==>
      u.value.demographics.value.genders == CountGenders(rs) &&
      Some(u.value.demographics.value.birthYears) == BirthYearStats(rs)
  {
    var types := CountUserTypes(rs);
    if !HasDemographics(city) then Some(UserReport(types, None))
    else match BirthYearStats(rs)
      case None => None
      case Some(years) => Some(UserReport(types, Some(Demographics(CountGenders(rs), years))))
  }
}
