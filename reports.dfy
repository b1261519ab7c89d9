/**
 * The four reporters (`time_stats`, `station_stats`, `trip_duration_stats`,
 * `user_stats`) as functions from the loaded table to what they print.
 */
module Reports {
  import opened Wrappers
  import opened Dataset
  import opened Stats

  /** Why a reporter stops with an exception instead of printing. */
  datatype StatError =
    | EmptySelection  // idxmax of an empty column
    | NoBirthYears    // int() of the NaN minimum of a Birth Year column without values

  datatype TimeReport = TimeReport(commonMonth: int, commonDay: string, commonHour: int)

  /** A (start station, end station) combination. */
  datatype Route = Route(start: string, end: string)

  datatype StationReport = StationReport(commonStart: string, commonEnd: string, commonRoute: Route, routeTrips: nat)

  datatype BirthYears = BirthYears(earliest: int, mostRecent: int, common: int)

  /** `None` in genders or birthYears: the city's file has no such column (a message is printed instead). */
  datatype UserReport = UserReport(userTypes: map<string, nat>, genders: Option<map<string, nat>>, birthYears: Option<BirthYears>)

  datatype Report = Report(time: TimeReport, stations: StationReport, totalDuration: int, users: UserReport)

  function Months(rows: seq<Trip>): seq<int> { Project(rows, (t: Trip) => t.month) }
  function Days(rows: seq<Trip>): seq<string> { Project(rows, (t: Trip) => t.dayOfWeek) }
  function Hours(rows: seq<Trip>): seq<int> { Project(rows, (t: Trip) => t.hour) }
  function Starts(rows: seq<Trip>): seq<string> { Project(rows, (t: Trip) => t.startStation) }
  function Ends(rows: seq<Trip>): seq<string> { Project(rows, (t: Trip) => t.endStation) }
  function Routes(rows: seq<Trip>): seq<Route> { Project(rows, (t: Trip) => Route(t.startStation, t.endStation)) }
  function Durations(rows: seq<Trip>): seq<int> { Project(rows, (t: Trip) => t.duration) }
  function UserTypes(rows: seq<Trip>): seq<string> { Project(rows, (t: Trip) => t.userType) }
  function Genders(rows: seq<Trip>): seq<Option<string>> { Project(rows, (t: Trip) => t.gender) }
  function Births(rows: seq<Trip>): seq<Option<int>> { Project(rows, (t: Trip) => t.birthYear) }

  /**
   * `time_stats`: the most common month and weekday and the most common start
   * hour (the smallest, when several are equally common); nothing on an empty
   * selection.
   */
  function TimeStats(rows: seq<Trip>): (r: Option<TimeReport>)
    ensures r.None? <==> rows == []
    ensures r.Some? ==> IsMode(Months(rows), r.value.commonMonth)
    ensures r.Some? ==> IsMode(Days(rows), r.value.commonDay)
    ensures r.Some? ==> IsMode(Hours(rows), r.value.commonHour)
    ensures r.Some? ==> forall h :: IsMode(Hours(rows), h) ==> r.value.commonHour <= h
  {
    if rows == [] then None
    else Some(TimeReport(MostCommon(Months(rows)).value, MostCommon(Days(rows)).value, LowestMode(Hours(rows)).value))
  }

  /**
   * `groupby(['Start Station', 'End Station']).size().nlargest(1)`: a route
   * taken by at least as many trips as any other, with its number of trips;
   * nothing (an empty series) on an empty selection.
   */
  function PopularRoute(rows: seq<Trip>): (r: Option<(Route, nat)>)
    ensures r.None? <==> rows == []
    ensures r.Some? ==> exists i :: 0 <= i < |rows| && r.value.0 == Route(rows[i].startStation, rows[i].endStation)
    ensures r.Some? ==> r.value.1 == Count(Routes(rows), r.value.0) > 0
    ensures r.Some? ==> forall route :: Count(Routes(rows), route) <= r.value.1
  {
    match MostCommon(Routes(rows))
    case None => None
    case Some(route) => Some((route, Count(Routes(rows), route)))
  }

  /** `station_stats`: the most common start station, end station and route; nothing on an empty selection. */
  function StationStats(rows: seq<Trip>): (r: Option<StationReport>)
    ensures r.None? <==> rows == []
    ensures r.Some? ==> IsMode(Starts(rows), r.value.commonStart) && IsMode(Ends(rows), r.value.commonEnd)
    ensures r.Some? ==> PopularRoute(rows) == Some((r.value.commonRoute, r.value.routeTrips))
  {
    if rows == [] then None
    else
      var (route, trips) := PopularRoute(rows).value;
      Some(StationReport(MostCommon(Starts(rows)).value, MostCommon(Ends(rows)).value, route, trips))
  }

  /** The total travel time in seconds (`trip_duration_stats` prints it divided by 3600). */
  function TotalDuration(rows: seq<Trip>): int
  {
    Sum(Durations(rows))
  }

  /** The total of a selection is the sum of the totals of its parts. */
  lemma TotalDurationSplits(a: seq<Trip>, b: seq<Trip>)
    ensures TotalDuration(a + b) == TotalDuration(a) + TotalDuration(b)
  {
    assert Durations(a + b) == Durations(a) + Durations(b);
    SumAppend(Durations(a), Durations(b));
  }

  /**
   * The Birth Year part of `user_stats`: earliest, most recent and most common
   * year among the cells that are not missing; nothing when every cell is missing.
   */
  function BirthYearStats(col: seq<Option<int>>): (r: Option<BirthYears>)
    ensures r.None? <==> forall i :: 0 <= i < |col| ==> col[i].None?
    ensures r.Some? ==> r.value.earliest <= r.value.common <= r.value.mostRecent
    ensures r.Some? ==> Some(r.value.earliest) in col && Some(r.value.mostRecent) in col && Some(r.value.common) in col
    ensures r.Some? ==> forall i :: 0 <= i < |col| && col[i].Some? ==> r.value.earliest <= col[i].value <= r.value.mostRecent
    ensures r.Some? ==> IsMode(Present(col), r.value.common)
  {
    var years := Present(col);
    if years == [] then None
    else
      ExtremesAroundMode(years);
      forall i | 0 <= i < |col| && col[i].Some? ensures Min(years) <= col[i].value <= Max(years) {
        assert col[i].value in years;
      }
      Some(BirthYears(Min(years), Max(years), MostCommon(years).value))
  }

  /**
   * `user_stats`: counts per user type; counts per gender when the column
   * exists; birth-year extremes and mode when the column exists, failing when
   * it holds no value.
   */
  function UserStats(t: Table): (r: Result<UserReport, StatError>)
    ensures r.Failure? <==> t.hasBirthYear && forall i :: 0 <= i < |t.rows| ==> t.rows[i].birthYear.None?
    ensures r.Failure? ==> r.error == NoBirthYears
    ensures r.Success? ==> forall u :: u in r.value.userTypes <==> u in UserTypes(t.rows)
    ensures r.Success? ==> forall u :: u in r.value.userTypes ==> r.value.userTypes[u] == Count(UserTypes(t.rows), u)
    ensures r.Success? ==> (r.value.genders.Some? <==> t.hasGender)
    ensures r.Success? && t.hasGender ==> forall g :: g in r.value.genders.value <==> Some(g) in Genders(t.rows)
    ensures r.Success? && t.hasGender ==> forall g :: g in r.value.genders.value ==> r.value.genders.value[g] == Count(Genders(t.rows), Some(g))
    ensures r.Success? ==> (r.value.birthYears.Some? <==> t.hasBirthYear)
    ensures r.Success? && t.hasBirthYear ==> BirthYearStats(Births(t.rows)) == r.value.birthYears
  {
    var userTypes := ValueCounts(UserTypes(t.rows));
    var genders := if t.hasGender then Some(ValueCounts(Present(Genders(t.rows)))) else None;
    if !t.hasBirthYear then Success(UserReport(userTypes, genders, None))
    else match BirthYearStats(Births(t.rows))
      case None => Failure(NoBirthYears)
      case Some(b) => Success(UserReport(userTypes, genders, Some(b)))
  }

  /** The four reporters in the order the session runs them; the first exception stops the program. */
  function Analyze(t: Table): Result<Report, StatError>
  {
    if t.rows == [] then Failure(EmptySelection)
    else match UserStats(t)
      case Failure(e) => Failure(e)
      case Success(u) => Success(Report(TimeStats(t.rows).value, StationStats(t.rows).value, TotalDuration(t.rows), u))
  }

  /**
   * The session's reports fail exactly when the selection is empty (`idxmax` of an
   * empty column) or its Birth Year column holds no value; otherwise each part is
   * what its reporter computes.
   */
  lemma AnalyzeCases(t: Table)
    ensures Analyze(t).Failure? <==> t.rows == [] || UserStats(t).Failure?
    ensures Analyze(t).Failure? ==> Analyze(t).error == if t.rows == [] then EmptySelection else NoBirthYears
    ensures Analyze(t).Success? ==> Some(Analyze(t).value.time) == TimeStats(t.rows) && Some(Analyze(t).value.stations) == StationStats(t.rows)
    ensures Analyze(t).Success? ==> Analyze(t).value.totalDuration == TotalDuration(t.rows) && Success(Analyze(t).value.users) == UserStats(t)
  {
  }
}
