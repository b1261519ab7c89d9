/**
 * The rows the script works on. A CSV row of a city file becomes a `Trip`
 * whose calendar fields (month, weekday name, hour) are already derived from
 * its start time; a whole file becomes a `Table` that also records whether
 * the optional Gender and Birth Year columns exist.
 */
module Dataset {
  import opened Wrappers

  /** One trip. `None` in gender or birthYear is a missing (NaN) cell. */
  datatype Trip = Trip(
    month: int,
    dayOfWeek: string,
    hour: int,
    startStation: string,
    endStation: string,
    duration: int,
    userType: string,
    gender: Option<string>,
    birthYear: Option<int>)

  datatype Table = Table(rows: seq<Trip>, hasGender: bool, hasBirthYear: bool)

  /** The city key to file name table. */
  const CITY_DATA: map<string, string> := map[
    "chicago" := "chicago.csv",
    "newyorkcity" := "new_york_city.csv",
    "new york city" := "new_york_city.csv",
    "washington" := "washington.csv"]

  /** The keys of CITY_DATA in their declared order: the accepted city answers. */
  const CITY_KEYS: seq<string> := ["chicago", "newyorkcity", "new york city", "washington"]

  /** Both spellings of New York City name the same file, and the accepted answers are exactly the keys. */
  lemma CityKeysAreCityData()
    ensures forall c :: c in CITY_KEYS <==> c in CITY_DATA
    ensures CITY_DATA["newyorkcity"] == CITY_DATA["new york city"]
    ensures |CITY_DATA.Values| == 3
  {
    assert CITY_DATA.Values == {"chicago.csv", "new_york_city.csv", "washington.csv"} by {
      assert CITY_DATA["chicago"] == "chicago.csv";
      assert CITY_DATA["newyorkcity"] == "new_york_city.csv";
      assert CITY_DATA["washington"] == "washington.csv";
    }
  }

  /** A column of the table, one entry per row. */
  function Project<U>(rows: seq<Trip>, field: Trip -> U): (col: seq<U>)
    ensures |col| == |rows|
    ensures forall i :: 0 <= i < |rows| ==> col[i] == field(rows[i])
  {
    seq(|rows|, i requires 0 <= i < |rows| => field(rows[i]))
  }
}
