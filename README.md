# US bikeshare explorer, modelled in Dafny

`bikeshare.py` is an interactive command-line explorer for bikeshare trip data
from three US cities: Chicago, New York City and Washington. The user answers
three prompts for a city, a month and a day; "all" means no filter. The script:

- loads the city's CSV file and keeps the trips that match the chosen month and weekday;
- prints the most frequent times of travel;
- prints the most popular stations and route;
- prints the total trip duration;
- prints counts per user type and gender;
- prints the earliest, most recent and most common birth year;
- offers to page through the raw rows five at a time;
- asks whether to start over.

This project models that core:

- **`Dataset`** is the trip row and the city table. A row carries its month, weekday name and start hour; whether the optional Gender and Birth Year columns exist is part of the table. `CITY_DATA` maps each city key to its file.
- **`Text`** is ASCII `str.lower` and `str.title`.
- **`Filters`** covers `check_data_entry` and `get_filters`. Standard input is a sequence of lines read from a position. EOF is the input error that the bare `except` catches, and the prompt then has no answer.
- **`Loader`** is `load_data`. The files are a map from path to table, standing in for `read_csv`; a missing path gives `MissingFile`. The month filter runs through `months.index(month[:3]) + 1`, the day filter through `day.title()`.
- **`Stats`** holds counts, modes, `value_counts`, minimum, maximum and sum over a column.
- **`Reports`** covers `time_stats`, `station_stats`, the total of `trip_duration_stats` and `user_stats`, including the exceptions they raise.
- **`Pager`** covers `display_data`: `iloc[start_loc:start_loc+5]` while the answer is "yes".
- **`Session`** covers `main`: rounds follow one another while the restart answer is "yes". Round k starts on the line after the previous restart answer. It either completes with a run that is *faithful* to the files, or stops with the exception that ends the program.

`CheckDataEntry`, `DisplayData` and `Explore` are methods with the script's loops. `GetFilters` and `Round` are methods without a loop: the three prompts in order, and one pass of the session loop. `CheckDataEntry`, `GetFilters` and `DisplayData` are proved against the specification functions `Prompt`, `Choose`, and `Pages` with `LeadingYes`. `Round` is proved against the predicates `CanComplete`, `Completed` and `StopsWith`, and `Explore` against `IsSession`. The remaining operations are functions with lemmas about them.

## Model

| member | source | states |
|---|---|---|
| Dataset.CityKeysAreCityData | bikeshare.py:6-11 | The accepted city answers are exactly the keys of `CITY_DATA`. Both New York spellings name the same file. There are three distinct files. |
| Text.LowerCases | bikeshare.py:24 | `Lower`, the model of `str.lower()`: lower-casing keeps the length, leaves no upper-case letter and changes each character only in its case. |
| Text.LowerIdempotent | bikeshare.py:24 | Lower-casing twice equals lower-casing once, so an entry that was already accepted stays accepted. |
| Text.TitleCases | bikeshare.py:89 | `Title`, the model of `str.title()`, keeps the length and the letters. A letter becomes upper case exactly when it starts a word. |
| Text.TitleIgnoresCase | bikeshare.py:89 | `title()` of the lower-cased day equals `title()` of the day as typed. |
| Filters.Prompt | bikeshare.py:23-34 | An entry is one of `valid_entries`, and the prompt has consumed the line it came from. Without an entry the input has run out. |
| Filters.PromptFindsFirst | bikeshare.py:24-31 | The entry is the lower-cased form of the line the prompt stopped at. Every earlier line was rejected; without an entry, every remaining line was. |
| Filters.CheckDataEntry | bikeshare.py:23-34 | The re-prompting loop returns exactly what `Prompt` describes, and the entry it returns is always one of `valid_entries`. |
| Filters.ChooseValid | bikeshare.py:36-58 | `Choose`, the model of `get_filters`: a selection uses a `CITY_DATA` key, one of the seven month answers and one of the eight day answers, and it consumes at least one line per prompt. A missing answer means the input has run out. |
| Filters.GetFilters | bikeshare.py:45-55 | The three prompts in order, with `CITY_DATA.keys()`, the month list at line 49 and the day list at line 53. The result equals `Choose`, and its values are accepted ones. |
| Loader.IndexOf | bikeshare.py:85 | `list.index`: the position of the first occurrence, and none (a ValueError) exactly when the value is absent. |
| Loader.MonthNumber | bikeshare.py:84-85 | The month number is in 1..6, and `months` at that position is the first three letters of the month. It is missing exactly when that prefix is not in `months`. |
| Loader.MonthNumberOfValidMonth | bikeshare.py:84-85 | january..june, as accepted by the prompt, are numbered 1..6. |
| Loader.TitleOfValidDay | bikeshare.py:88-89 | Every accepted weekday, once title-cased, is the weekday name the rows carry. |
| Loader.Where | bikeshare.py:86-89 | A boolean mask keeps each row exactly as often as it occurs when the mask holds for it, and not at all otherwise. |
| Loader.WhereIsSubsequence | bikeshare.py:86-89 | The masked rows keep their original order. |
| Loader.LoadDataFails | bikeshare.py:74-85 | `load_data` fails exactly when the city is not a key (KeyError), the file is missing, or the month's prefix is not a month (ValueError). An unknown city is reported as such. |
| Loader.LoadDataFilters | bikeshare.py:62-91 | `LoadData`, the model of `load_data`, is sound and complete as a filter. The result is a subsequence of the file's rows. Each row occurs as often as in the file when it matches the month and day, and not at all otherwise. The result is no longer than the file, and the columns do not change. |
| Loader.LoadDataKeepsExactly | bikeshare.py:83-89 | Every loaded row matches the selection, and every row of the file that matches it is loaded. |
| Loader.LoadDataAll | bikeshare.py:83-91 | With "all" and "all" the file's table comes back unchanged. |
| Stats.CountIsMultiplicity | bikeshare.py:104 | The counts used by `value_counts` are multiset multiplicities. |
| Stats.CountPositive | bikeshare.py:104 | A value has a positive count exactly when it occurs in the column. |
| Stats.MostCommon | bikeshare.py:104-108 | `value_counts().idxmax()` occurs in the column and no value is more frequent. It is missing exactly when the column is empty. Among equally frequent values it is the one that occurs first. |
| Stats.LowestMode | bikeshare.py:113 | `mode()[0]` is a most frequent value and the smallest of the modes. It is missing exactly when the column is empty. |
| Stats.Min | bikeshare.py:187 | The minimum occurs in the column and bounds it from below. |
| Stats.Max | bikeshare.py:188 | The maximum occurs in the column and bounds it from above. |
| Stats.ValueCounts | bikeshare.py:170-177 | `value_counts()` has a key for exactly the values present, and each key maps to that value's number of occurrences. |
| Stats.Present | bikeshare.py:177-189 | Dropping missing cells keeps each present value as often as it occurs and no other values. |
| Stats.SumAppend | bikeshare.py:151 | The sum of a concatenation is the sum of the sums. |
| Stats.ExtremesAroundMode | bikeshare.py:187-189 | The most common value lies between the minimum and the maximum. |
| Reports.TimeStats | bikeshare.py:103-113 | The reported month and day are modes of their columns. The hour is the smallest mode of the hour column. Nothing is reported on an empty selection. |
| Reports.PopularRoute | bikeshare.py:136 | The reported (start, end) pair is the route of some row, and its reported trip count is its number of occurrences, which is positive. No route occurs more often. Nothing is reported on an empty selection. |
| Reports.StationStats | bikeshare.py:127-136 | The start and end stations are modes of their columns. The route and its count are those of `PopularRoute`. |
| Reports.TotalDurationSplits | bikeshare.py:151 | The total duration of two selections together is the sum of their totals. |
| Reports.BirthYearStats | bikeshare.py:187-189 | earliest ≤ common ≤ most recent. All three occur among the present birth years. Every present year lies between earliest and most recent, and common is a mode. Nothing is reported exactly when every cell is missing. |
| Reports.UserStats | bikeshare.py:169-189 | User-type counts cover exactly the types present, with their numbers of occurrences. Gender counts exist exactly when the column does and count the genders present. Birth-year statistics exist exactly when the column does. It fails (NaN to `int`) exactly when that column exists and holds no value. |
| Reports.AnalyzeCases | bikeshare.py:223-226 | `Analyze`, the model of the four reporter calls in `main`: the four reporters fail exactly on an empty selection (`idxmax` of an empty column) or a Birth Year column without values. Otherwise each part of the report is what its reporter computes. |
| Pager.SliceShape | bikeshare.py:214 | `Slice`, the model of `iloc[lo:hi]`, holds the rows from `lo` on, cut at `hi` and at the end: it is shorter near the end and empty past it. |
| Pager.PagesAt | bikeshare.py:213-215 | After k windows, window i is rows 5i up to 5i+5. |
| Pager.PagesCover | bikeshare.py:213-215 | The first k windows together are exactly the first min(5k, n) rows, with nothing skipped or repeated. |
| Pager.PagePastEnd | bikeshare.py:214 | A window starting past the last row is empty rather than an error. |
| Pager.TwelveRows | bikeshare.py:213-216 | With twelve rows, three "yes" answers show rows 0-4, 5-9 and 10-11. |
| Pager.YesIsLowerYes | bikeshare.py:211-213 | `IsYes`, the test `== 'yes'` on a lower-cased answer at lines 213 and 231: an answer continues the pager or the session exactly when its `.lower()` is "yes". |
| Pager.LeadingYes | bikeshare.py:211-216 | The number of "yes" answers before the first other answer never runs past the end of the input. |
| Pager.LeadingYesStops | bikeshare.py:211-216 | Every answer that `LeadingYes` counts is "yes" in any case, and the answer after them, if any, is not. |
| Pager.LeadingYesIs | bikeshare.py:211-216 | That number is determined by the position of the first answer that is not "yes". |
| Pager.DisplayData | bikeshare.py:211-216 | The loop shows exactly the first k pages, where k is the number of leading "yes" answers, and ends with `start_loc` = 5k. It stops at the first other answer and fails only when the input runs out before one. |
| Session.AcceptedChoiceLoads | bikeshare.py:74-86 | A selection the prompts accept fails to load only because the city's file is missing. |
| Session.RoundIsFaithful | bikeshare.py:220-228 | A loaded selection, the report computed for it and its first k windows form a faithful run. |
| Session.CompletedIsDetermined | bikeshare.py:219-231 | A round that completes could complete. The files and the input determine its run and the line of its restart answer. |
| Session.StopIsDetermined | bikeshare.py:219-231 | A round that stops ends with exactly one exception and never finishes normally. A loading exception is a missing file. |
| Session.MissingFileStops | bikeshare.py:74-76 | Once the city is accepted and its file is missing, the round cannot complete. It stops with that missing file whether or not the month and day prompts were answered, because `read_csv` runs before the month and day are used. |
| Session.ChicagoFileMissing | bikeshare.py:74-85 | With no Chicago file, a session whose only input line is "chicago" stops with that missing file, not with an input error. |
| Session.Round | bikeshare.py:219-231 | One pass of the loop. It completes exactly when the prompts give a selection, its file loads, the reporters succeed and the input holds the pager's stopping answer and a restart answer. A completed run is faithful. It holds the selection the prompts gave and one window per "yes" to the pager. Its restart answer is the line right after the pager's stop. Otherwise the round stops with the exception `StopsWith` names: a missing file if the city was accepted and its file is missing, else the prompt's or the reporters' failure, else the end of input. |
| Session.AppendRound | bikeshare.py:219-232 | Adding the next round's run keeps every run equal to the run of its round. |
| Session.SessionIsFaithful | bikeshare.py:218-232 | Every run of a session is faithful to the files. |
| Session.SessionEnds | bikeshare.py:218-232 | A session finishes normally exactly when its last restart answer was not "yes", and it then has at least one run. Otherwise it ends with an exception, and a loading exception is a missing file. |
| Session.SessionPrefixAgrees | bikeshare.py:218-232 | Two sessions on the same files and input agree on their common runs, and the first is no longer than the second. |
| Session.SessionIsDetermined | bikeshare.py:218-232 | The files and the input determine the runs and the outcome of the session. |
| Session.Explore | bikeshare.py:218-232 | The loop gives a session. Round k starts on the line after restart answer k-1, and run k is what that round completes with. Every run but the last was answered "yes". The loop ends at the first other restart answer, or with the exception of the first round that stops. |

## Left out

- File reading is not modelled. A city file is a `Table` in a map from path to table, so `read_csv`'s parsing and I/O errors other than a missing file are out of scope.
- `to_datetime` and the `.dt` fields are not modelled. Month, weekday name and hour are fields of each `Trip`, already derived from the start time.
- Printing, the `time.time()` timings and the separator lines are left out. When a round completes, the model returns the values that would be printed.
- Reports.Analyze: returns only the failure when a reporter raises. The script has already printed the earlier reports by then. For example, with a Birth Year column that holds no value, the time, station, duration, user-type and gender output comes out before `int()` of NaN raises at line 187. That partial output is not modelled.
- Session.Round: when the input runs out at the pager or restart prompt, the script has already printed all four reports and the pages shown, and only then raises an EOFError (lines 223-230). The round then returns only the input failure, not those reports and pages.
- Floating point is left out: the `/ 3600.0` scaling, the mean trip duration and the gender percentages. Durations are whole seconds and only their total is modelled.
- `lower()` and `title()` are modelled on ASCII letters only; other Unicode case mappings are not modelled.
- The bare `except` in `check_data_entry` is modelled only for the input running out, which makes the prompt return `None`. What `load_data` raises then depends on which prompt failed:
  - a `None` city raises a KeyError at line 74;
  - with an accepted city, `read_csv` runs first at line 76, so a missing file raises FileNotFoundError there;
  - otherwise a `None` month raises a TypeError at line 85 (`None[:3]`), and a `None` day raises an AttributeError at line 89 (`None.title()`).

  The model reports the missing file as `LoadFailed(MissingFile(...))` (see `Session.StopsWith` and `Session.MissingFileStops`). It reports the other cases as the input failure that ends the session. Other exceptions the bare `except` swallows, such as a keyboard interrupt, are not modelled.
- End of input at the pager prompt or the restart prompt ends the program with an EOFError, and the model reports it as that same input failure.
- Missing cells in the User Type, Start Station and End Station columns are not modelled: every trip has a user type and both stations. `value_counts` at lines 128, 132 and 170, and `groupby` at line 136, drop such cells.
- Stats.MostCommon: breaks ties by first occurrence in the column. The contract is stated only for this choice and does not claim to match every pandas version's ordering of equal counts.
- Reports.PopularRoute: pandas `nlargest(1)` breaks ties in the group-by's sorted key order. The model states only that the route occurs and that no route is more frequent, not which of several equally frequent routes is printed.
- The `UnknownCity` and `UnknownMonth` failures of `load_data` are reachable only through direct calls: `Session.AcceptedChoiceLoads` shows that the prompts never produce them.
