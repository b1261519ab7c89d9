/**
 * `load_data`: look the city up in CITY_DATA, take the rows of its file, and
 * keep the rows of the chosen month and weekday.
 */
module Loader {
  import opened Wrappers
  import opened Text
  import opened Dataset
  import opened Stats
  import Filters

  /** The month list of `load_data`: first three letters of January to June. */
  const MONTHS: seq<string> := ["jan", "feb", "mar", "apr", "may", "jun"]

  /** The weekday names the timestamp library gives (`weekday_name`). */
  const WEEKDAY_NAMES: seq<string> := ["Monday", "Tuesday", "Wednesday", "Thursday", "Friday", "Saturday", "Sunday"]

  datatype LoadError =
    | UnknownCity(city: string)   // CITY_DATA[city] raises KeyError
    | MissingFile(path: string)   // read_csv finds no such file
    | UnknownMonth(month: string) // months.index raises ValueError

  /** `s[:3]`. */
  function Prefix3(s: string): (p: string)
    ensures |p| == if |s| < 3 then |s| else 3
    ensures p <= s
  {
    s[..if |s| < 3 then |s| else 3]
  }

  /** `xs.index(x)`: the first position of `x`, or none when `x` does not occur. */
  function IndexOf(xs: seq<string>, x: string): (r: Option<nat>)
    ensures r.Some? ==> r.value < |xs| && xs[r.value] == x && x !in xs[..r.value]
    ensures r.None? <==> x !in xs
  {
    if xs == [] then None
    else if xs[0] == x then Some(0)
    else match IndexOf(xs[1..], x)
      case None => None
      case Some(i) => assert xs[..i + 1] == [xs[0]] + xs[1..][..i]; Some(i + 1)
  }

  /** `months.index(month[:3]) + 1`. */
  function MonthNumber(month: string): (r: Option<int>)
    ensures r.Some? ==> 1 <= r.value <= 6 && MONTHS[r.value - 1] == Prefix3(month)
    ensures r.None? <==> Prefix3(month) !in MONTHS
  {
    match IndexOf(MONTHS, Prefix3(month))
    case None => None
    case Some(i) => Some(i + 1)
  }

  /** Every month the prompter accepts, other than "all", is numbered by its place in the year. */
  lemma MonthNumberOfValidMonth(i: nat)
    requires 1 <= i < |Filters.VALID_MONTHS|
    ensures MonthNumber(Filters.VALID_MONTHS[i]) == Some(i)
  {
    var m := Filters.VALID_MONTHS[i];
    if i == 1 { assert m == "january" && Prefix3(m) == "jan"; }
    else if i == 2 { assert m == "february" && Prefix3(m) == "feb"; }
    else if i == 3 { assert m == "march" && Prefix3(m) == "mar"; }
    else if i == 4 { assert m == "april" && Prefix3(m) == "apr"; }
    else if i == 5 { assert m == "may" && Prefix3(m) == "may"; }
    else { assert m == "june" && Prefix3(m) == "jun"; }
  }

  /** Every day the prompter accepts, other than "all", title-cases to the weekday name the rows carry. */
  lemma TitleOfValidDay(i: nat)
    requires 1 <= i < |Filters.VALID_DAYS|
    ensures Title(Filters.VALID_DAYS[i]) == WEEKDAY_NAMES[i - 1]
  {
    if i <= 3 {
      TitleOfEarlyDay(i);
    } else {
      TitleOfLateDay(i);
    }
  }

  lemma TitleOfEarlyDay(i: nat)
    requires 1 <= i <= 3
    ensures Title(Filters.VALID_DAYS[i]) == WEEKDAY_NAMES[i - 1]
  {
    if i == 1 {
      assert Title(Filters.VALID_DAYS[1]) == WEEKDAY_NAMES[0] by {
        assert Filters.VALID_DAYS[1] == "monday" && WEEKDAY_NAMES[0] == "Monday";
        assert Title("monday") == "Monday";
      }
    } else if i == 2 {
      assert Title(Filters.VALID_DAYS[2]) == WEEKDAY_NAMES[1] by {
        assert Filters.VALID_DAYS[2] == "tuesday" && WEEKDAY_NAMES[1] == "Tuesday";
        assert Title("tuesday") == "Tuesday";
      }
    } else {
      assert Title(Filters.VALID_DAYS[3]) == WEEKDAY_NAMES[2] by {
        assert Filters.VALID_DAYS[3] == "wednesday" && WEEKDAY_NAMES[2] == "Wednesday";
        assert Title("wednesday") == "Wednesday";
      }
    }
  }

  lemma TitleOfLateDay(i: nat)
    requires 4 <= i < |Filters.VALID_DAYS|
    ensures Title(Filters.VALID_DAYS[i]) == WEEKDAY_NAMES[i - 1]
  {
    if i == 4 {
      assert Title(Filters.VALID_DAYS[4]) == WEEKDAY_NAMES[3] by {
        assert Filters.VALID_DAYS[4] == "thursday" && WEEKDAY_NAMES[3] == "Thursday";
        assert Title("thursday") == "Thursday";
      }
    } else if i == 5 {
      assert Title(Filters.VALID_DAYS[5]) == WEEKDAY_NAMES[4] by {
        assert Filters.VALID_DAYS[5] == "friday" && WEEKDAY_NAMES[4] == "Friday";
        assert Title("friday") == "Friday";
      }
    } else if i == 6 {
      assert Title(Filters.VALID_DAYS[6]) == WEEKDAY_NAMES[5] by {
        assert Filters.VALID_DAYS[6] == "saturday" && WEEKDAY_NAMES[5] == "Saturday";
        assert Title("saturday") == "Saturday";
      }
    } else {
      assert Title(Filters.VALID_DAYS[7]) == WEEKDAY_NAMES[6] by {
        assert Filters.VALID_DAYS[7] == "sunday" && WEEKDAY_NAMES[6] == "Sunday";
        assert Title("sunday") == "Sunday";
      }
    }
  }


  /** `df[mask]`: the rows for which `keep` holds, in their original order. */
  function Where(rows: seq<Trip>, keep: Trip -> bool): (r: seq<Trip>)
    ensures |r| <= |rows|
    ensures forall i :: 0 <= i < |r| ==> keep(r[i])
    ensures forall x :: Count(r, x) == if keep(x) then Count(rows, x) else 0
  {
    if rows == [] then []
    else if keep(rows[0]) then
      var rest := Where(rows[1..], keep);
      assert ([rows[0]] + rest)[1..] == rest;
      [rows[0]] + rest
    else Where(rows[1..], keep)
  }

  /** `a` is `b` with some elements dropped and the rest in their order. */
  ghost predicate IsSubsequence(a: seq<Trip>, b: seq<Trip>)
    decreases |b|
  {
    a == [] || (b != [] && ((a[0] == b[0] && IsSubsequence(a[1..], b[1..])) || IsSubsequence(a, b[1..])))
  }

  lemma {:induction false} WhereIsSubsequence(rows: seq<Trip>, keep: Trip -> bool)
    ensures IsSubsequence(Where(rows, keep), rows)
  {
    if rows != [] {
      WhereIsSubsequence(rows[1..], keep);
      var rest := Where(rows[1..], keep);
      if keep(rows[0]) {
        assert Where(rows, keep) == [rows[0]] + rest;
        assert ([rows[0]] + rest)[1..] == rest;
      } else {
        assert Where(rows, keep) == rest;
      }
    }
  }

  lemma {:induction false} SubsequenceTransitive(a: seq<Trip>, b: seq<Trip>, c: seq<Trip>)
    requires IsSubsequence(a, b) && IsSubsequence(b, c)
    ensures IsSubsequence(a, c)
    decreases |c|
  {
    if a != [] {
      assert b != [] && c != [];
      if IsSubsequence(b, c[1..]) {
        SubsequenceTransitive(a, b, c[1..]);
      } else {
        assert b[0] == c[0] && IsSubsequence(b[1..], c[1..]);
        if a[0] == b[0] && IsSubsequence(a[1..], b[1..]) {
          SubsequenceTransitive(a[1..], b[1..], c[1..]);
        } else {
          SubsequenceTransitive(a, b[1..], c[1..]);
        }
      }
    }
  }

  /**
   * Every row of the selection is kept exactly when it matches the chosen month
   * (when it is not "all") and the chosen weekday (when it is not "all").
   */
  predicate Keeps(month: string, day: string, t: Trip)
  {
    (month == "all" || MonthNumber(month) == Some(t.month))
    && (day == "all" || t.dayOfWeek == Title(day))
  }

  /** The mask `df['month'] == number`. */
  function MonthIs(number: int): Trip -> bool
  {
    (t: Trip) => t.month == number
  }

  /** The mask `df['day_of_week'] == name`. */
  function DayIs(name: string): Trip -> bool
  {
    (t: Trip) => t.dayOfWeek == name
  }

  /** `load_data(city, month, day)` with `files` the contents of the CSV files by path. */
  function LoadData(files: map<string, Table>, city: string, month: string, day: string): Result<Table, LoadError>
  {
    if city !in CITY_DATA then Failure(UnknownCity(city))
    else if CITY_DATA[city] !in files then Failure(MissingFile(CITY_DATA[city]))
    else
      var df := files[CITY_DATA[city]];
      if month != "all" && MonthNumber(month).None? then Failure(UnknownMonth(month))
      else
        var byMonth := if month != "all" then Where(df.rows, MonthIs(MonthNumber(month).value)) else df.rows;
        var byDay := if day != "all" then Where(byMonth, DayIs(Title(day))) else byMonth;
        Success(df.(rows := byDay))
  }

  /** The failure cases of `load_data`, and that it fails in no other case. */
  lemma LoadDataFails(files: map<string, Table>, city: string, month: string, day: string)
    ensures LoadData(files, city, month, day).Failure? <==>
      city !in CITY_DATA || CITY_DATA[city] !in files || (month != "all" && Prefix3(month) !in MONTHS)
    ensures city !in CITY_DATA ==> LoadData(files, city, month, day) == Failure(UnknownCity(city))
  {
  }

  /**
   * Filter soundness and completeness: the loaded rows are a subsequence of the
   * file's rows and hold each row exactly as often as the file does when the row
   * matches the selection, and not at all otherwise. The column flags do not change.
   */
  lemma LoadDataFilters(files: map<string, Table>, city: string, month: string, day: string)
    requires LoadData(files, city, month, day).Success?
    ensures city in CITY_DATA && CITY_DATA[city] in files
    ensures var df := files[CITY_DATA[city]]; var t := LoadData(files, city, month, day).value;
      && IsSubsequence(t.rows, df.rows)
      && |t.rows| <= |df.rows|
      && (forall x :: Count(t.rows, x) == if Keeps(month, day, x) then Count(df.rows, x) else 0)
      && t.hasGender == df.hasGender && t.hasBirthYear == df.hasBirthYear
  {
    var df := files[CITY_DATA[city]];
    var byMonth := if month != "all" then Where(df.rows, MonthIs(MonthNumber(month).value)) else df.rows;
    var byDay := if day != "all" then Where(byMonth, DayIs(Title(day))) else byMonth;
    assert LoadData(files, city, month, day).value.rows == byDay;
    ReflexiveSubsequence(df.rows);
    if month != "all" {
      WhereIsSubsequence(df.rows, MonthIs(MonthNumber(month).value));
    }
    if day != "all" {
      WhereIsSubsequence(byMonth, DayIs(Title(day)));
      SubsequenceTransitive(byDay, byMonth, df.rows);
    }
  }

  /**
   * The same two properties row by row: every loaded row matches the selection,
   * and every row of the file that matches it is loaded.
   */
  lemma LoadDataKeepsExactly(files: map<string, Table>, city: string, month: string, day: string)
    requires LoadData(files, city, month, day).Success?
    ensures city in CITY_DATA && CITY_DATA[city] in files
    ensures var df := files[CITY_DATA[city]]; var t := LoadData(files, city, month, day).value;
      && (forall i :: 0 <= i < |t.rows| ==> Keeps(month, day, t.rows[i]))
      && (forall i :: 0 <= i < |df.rows| && Keeps(month, day, df.rows[i]) ==> df.rows[i] in t.rows)
  {
    LoadDataFilters(files, city, month, day);
    var df := files[CITY_DATA[city]];
    var t := LoadData(files, city, month, day).value;
    forall i | 0 <= i < |t.rows|
      ensures Keeps(month, day, t.rows[i])
    {
      CountPositive(t.rows, t.rows[i]);
    }
    forall i | 0 <= i < |df.rows| && Keeps(month, day, df.rows[i])
      ensures df.rows[i] in t.rows
    {
      CountPositive(df.rows, df.rows[i]);
      CountPositive(t.rows, df.rows[i]);
    }
  }

  lemma {:induction false} ReflexiveSubsequence(a: seq<Trip>)
    ensures IsSubsequence(a, a)
    decreases |a|
  {
    if a != [] {
      ReflexiveSubsequence(a[1..]);
    }
  }

  /** With "all" for both month and day the file's table comes back unchanged. */
  lemma LoadDataAll(files: map<string, Table>, city: string)
    requires city in CITY_DATA && CITY_DATA[city] in files
    ensures LoadData(files, city, "all", "all") == Success(files[CITY_DATA[city]])
  {
  }
}
