/**
 * `main`: prompt for filters, load, run the four reporters, page through the
 * rows, and start over while the restart answer is "yes".
 */
module Session {
  import opened Wrappers
  import opened Dataset
  import opened Filters
  import opened Loader
  import opened Reports
  import opened Pager
  import Text

  /** One completed round of the session: what was chosen, reported and shown, and the answer to the restart prompt. */
  datatype Run = Run(selection: Selection, report: Report, shown: seq<seq<Trip>>, restart: string)

  /** How the session ends: a restart answer other than "yes", or the exception that stops the program. */
  datatype Outcome =
    | Finished
    | InputFailed                 // standard input ran out
    | LoadFailed(loadError: LoadError)
    | ReportFailed(statError: StatError)

  /**
   * A run is faithful to the files when its selection uses accepted values, the
   * loader succeeds on it, and for the table it loads the run's report is what the
   * reporters compute and the shown windows are its leading pages.
   */
  ghost predicate Faithful(files: map<string, Table>, run: Run)
  {
    var sel := run.selection;
    && sel.city in CITY_DATA && sel.month in VALID_MONTHS && sel.day in VALID_DAYS
    && LoadData(files, sel.city, sel.month, sel.day).Success?
    && forall t {:trigger Analyze(t)} :: LoadData(files, sel.city, sel.month, sel.day) == Success(t) ==>
         Analyze(t) == Success(run.report) && run.shown == Pages(t.rows, |run.shown|)
  }

  /** A choice the prompter accepts can only fail to load because the city's file is missing. */
  lemma AcceptedChoiceLoads(files: map<string, Table>, sel: Selection)
    requires sel.city in CITY_DATA && sel.month in VALID_MONTHS && sel.day in VALID_DAYS
    ensures LoadData(files, sel.city, sel.month, sel.day).Failure? <==> CITY_DATA[sel.city] !in files
    ensures LoadData(files, sel.city, sel.month, sel.day).Failure? ==>
      LoadData(files, sel.city, sel.month, sel.day).error == MissingFile(CITY_DATA[sel.city])
  {
    if sel.month != "all" {
      var i :| 0 <= i < |VALID_MONTHS| && VALID_MONTHS[i] == sel.month;
      MonthNumberOfValidMonth(i);
    }
  }

  /** A completed round with a loaded selection, its report and its first k windows is faithful. */
  lemma RoundIsFaithful(files: map<string, Table>, choice: Selection, t: Table, report: Report, k: nat, restart: string)
    requires choice.city in CITY_KEYS && choice.month in VALID_MONTHS && choice.day in VALID_DAYS
    requires LoadData(files, choice.city, choice.month, choice.day) == Success(t)
    requires Analyze(t) == Success(report)
    ensures Faithful(files, Run(choice, report, Pages(t.rows, k), restart))
  {
    CityKeysAreCityData();
    PagesAt(t.rows, k);
  }

  /**
   * The line a round from `pos` reads its restart answer from: the one right after
   * the pager's first answer that is not "yes".
   */
  function RestartLine(inputs: seq<string>, pos: nat): (line: nat)
    requires pos <= |inputs|
    ensures pos < line
  {
    var afterFilters := Choose(inputs, pos).1;
    afterFilters + LeadingYes(inputs, afterFilters) + 1
  }

  /**
   * A round from `pos` can complete: the prompts give a selection, its file loads,
   * the reporters succeed on the loaded table, and the input still holds the
   * pager's stopping answer and a restart answer.
   */
  ghost predicate CanComplete(files: map<string, Table>, inputs: seq<string>, pos: nat)
    requires pos <= |inputs|
  {
    var sel := Choose(inputs, pos).0;
    && sel.Some?
    && LoadData(files, sel.value.city, sel.value.month, sel.value.day).Success?
    && (forall t {:trigger Analyze(t)} :: LoadData(files, sel.value.city, sel.value.month, sel.value.day) == Success(t) ==>
          Analyze(t).Success?)
    && RestartLine(inputs, pos) < |inputs|
  }

  /**
   * `run` is what a round from `pos` completes with, its restart answer read from
   * line `answer`: the selection the prompts gave, one window per "yes" answer to
   * the pager, and the line after the pager's stop as the restart answer.
   */
  ghost predicate Completed(files: map<string, Table>, inputs: seq<string>, pos: nat, run: Run, answer: nat)
    requires pos <= |inputs|
  {
    var (sel, afterFilters) := Choose(inputs, pos);
    && sel == Some(run.selection)
    && answer == RestartLine(inputs, pos) && answer < |inputs|
    && run.restart == inputs[answer]
    && |run.shown| == LeadingYes(inputs, afterFilters)
    && Faithful(files, run)
  }

  /**
   * `stop` is the exception that ends a round from `pos`. When a prompt runs out of
   * input, `load_data` still reads the file of an accepted city before it touches
   * the missing month or day, so a missing file is what stops the program then;
   * otherwise the missing answer itself raises. With a full selection the
   * exception is the loader's, then the reporters', and then the end of input at
   * the pager or restart prompt.
   */
  ghost predicate StopsWith(files: map<string, Table>, inputs: seq<string>, pos: nat, stop: Outcome)
    requires pos <= |inputs|
  {
    var sel := Choose(inputs, pos).0;
    if sel.None? then
      var city := Prompt(inputs, pos, CITY_KEYS).entry;
      stop == if city.Some? && city.value in CITY_DATA && CITY_DATA[city.value] !in files
              then LoadFailed(MissingFile(CITY_DATA[city.value]))
              else InputFailed
    else
      var choice := sel.value;
      && (LoadData(files, choice.city, choice.month, choice.day).Failure? ==>
            stop == LoadFailed(LoadData(files, choice.city, choice.month, choice.day).error))
      && (forall t {:trigger Analyze(t)} :: LoadData(files, choice.city, choice.month, choice.day) == Success(t) ==>
            stop == if Analyze(t).Failure? then ReportFailed(Analyze(t).error) else InputFailed)
  }

  /** A completed round could complete, and its run and restart line are the only ones it can complete with. */
  lemma CompletedIsDetermined(files: map<string, Table>, inputs: seq<string>, pos: nat, run: Run, answer: nat, run': Run, answer': nat)
    requires pos <= |inputs|
    requires Completed(files, inputs, pos, run, answer)
    requires Completed(files, inputs, pos, run', answer')
    ensures CanComplete(files, inputs, pos)
    ensures run == run' && answer == answer'
  {
    var sel := run.selection;
    var t := LoadData(files, sel.city, sel.month, sel.day).value;
    assert Analyze(t) == Success(run.report) == Success(run'.report);
  }

  /**
   * A round that stops ends the program with an exception, never normally; a
   * loading exception is a missing file, and the exception is the only one the
   * round can stop with.
   */
  lemma StopIsDetermined(files: map<string, Table>, inputs: seq<string>, pos: nat, stop: Outcome, stop': Outcome)
    requires pos <= |inputs|
    requires StopsWith(files, inputs, pos, stop)
    requires StopsWith(files, inputs, pos, stop')
    ensures stop == stop'
    ensures stop != Finished
    ensures stop.LoadFailed? ==> stop.loadError.MissingFile?
  {
    var sel := Choose(inputs, pos).0;
    ChooseValid(inputs, pos);
    CityKeysAreCityData();
    if sel.Some? {
      var choice := sel.value;
      AcceptedChoiceLoads(files, choice);
      var df := LoadData(files, choice.city, choice.month, choice.day);
      if df.Success? {
        var report := Analyze(df.value);
      }
    }
  }

  /**
   * Once the city is accepted and its file is missing, the round stops with that
   * missing file whether or not the month and day prompts got an answer.
   */
  lemma MissingFileStops(files: map<string, Table>, inputs: seq<string>, pos: nat)
    requires pos <= |inputs|
    requires Prompt(inputs, pos, CITY_KEYS).entry.Some?
    requires CITY_DATA[Prompt(inputs, pos, CITY_KEYS).entry.value] !in files
    ensures !CanComplete(files, inputs, pos)
    ensures StopsWith(files, inputs, pos, LoadFailed(MissingFile(CITY_DATA[Prompt(inputs, pos, CITY_KEYS).entry.value])))
  {
    CityKeysAreCityData();
    var sel := Choose(inputs, pos).0;
    if sel.Some? {
      AcceptedChoiceLoads(files, sel.value);
    }
  }

  /**
   * With no file for Chicago, a session whose input is the single line "chicago"
   * stops with that missing file and not with an input error: `read_csv` raises
   * before the missing month answer is used.
   */
  lemma ChicagoFileMissing()
    ensures IsSession(map[], ["chicago"], [], LoadFailed(MissingFile("chicago.csv")))
  {
    assert Text.Lower("chicago") == "chicago";
    MissingFileStops(map[], ["chicago"], 0);
  }

  /** One pass of the session loop: filters, load, reports, pager and the restart prompt. */
  method Round(files: map<string, Table>, inputs: seq<string>, pos: nat) returns (run: Option<Run>, stop: Outcome, answer: nat)
    requires pos <= |inputs|
    ensures run.Some? <==> CanComplete(files, inputs, pos)
    ensures run.Some? ==> Completed(files, inputs, pos, run.value, answer) && stop == Finished
    ensures run.None? ==> StopsWith(files, inputs, pos, stop)
  {
    answer := pos;
    CityKeysAreCityData();
    var sel, afterFilters := GetFilters(inputs, pos);
    if sel.None? {
      var city := Prompt(inputs, pos, CITY_KEYS).entry;
      if city.Some? && city.value in CITY_DATA && CITY_DATA[city.value] !in files {
        return None, LoadFailed(MissingFile(CITY_DATA[city.value])), answer;
      }
      return None, InputFailed, answer;
    }
    var choice := sel.value;
    var df := LoadData(files, choice.city, choice.month, choice.day);
    if df.Failure? {
      return None, LoadFailed(df.error), answer;
    }
    var report := Analyze(df.value);
    if report.Failure? {
      return None, ReportFailed(report.error), answer;
    }
    var shown, _, afterPager, ok := DisplayData(df.value.rows, inputs, afterFilters);
    if !ok || afterPager == |inputs| {
      return None, InputFailed, answer;
    }
    PagesAt(df.value.rows, LeadingYes(inputs, afterFilters));
    RoundIsFaithful(files, choice, df.value, report.value, LeadingYes(inputs, afterFilters), inputs[afterPager]);
    return Some(Run(choice, report.value, shown, inputs[afterPager])), Finished, afterPager;
  }

  /** The line round `n` of the session starts on: line 0, then the line after each restart answer. */
  function RoundStart(inputs: seq<string>, n: nat): (line: nat)
  {
    if n == 0 then 0
    else
      var previous := RoundStart(inputs, n - 1);
      if previous <= |inputs| then RestartLine(inputs, previous) + 1 else previous
  }

  /** `run` is what round `n` of the session completes with. */
  ghost predicate RoundAt(files: map<string, Table>, inputs: seq<string>, n: nat, run: Run)
  {
    var start := RoundStart(inputs, n);
    start <= |inputs| && Completed(files, inputs, start, run, RestartLine(inputs, start))
  }

  /** The round from `pos` cannot complete and ends the program with `stop`. */
  ghost predicate Stopped(files: map<string, Table>, inputs: seq<string>, pos: nat, stop: Outcome)
  {
    pos <= |inputs| && !CanComplete(files, inputs, pos) && StopsWith(files, inputs, pos, stop)
  }

  /**
   * `runs` and `outcome` are what the session loop gives: round k completes with
   * `runs[k]`, the loop goes on while the restart answer is "yes", and it ends with
   * the first other restart answer or with the round after the last run stopping.
   */
  ghost predicate IsSession(files: map<string, Table>, inputs: seq<string>, runs: seq<Run>, outcome: Outcome)
  {
    && (forall k {:trigger RoundAt(files, inputs, k, runs[k])} :: 0 <= k < |runs| ==> RoundAt(files, inputs, k, runs[k]))
    && (forall k :: 0 <= k < |runs| - 1 ==> IsYes(runs[k].restart))
    && if runs != [] && !IsYes(runs[|runs| - 1].restart) then outcome == Finished
       else Stopped(files, inputs, RoundStart(inputs, |runs|), outcome)
  }

  /** Every run of a session is faithful to the files. */
  lemma SessionIsFaithful(files: map<string, Table>, inputs: seq<string>, runs: seq<Run>, outcome: Outcome)
    requires IsSession(files, inputs, runs, outcome)
    ensures forall k :: 0 <= k < |runs| ==> Faithful(files, runs[k])
  {
    forall k | 0 <= k < |runs|
      ensures Faithful(files, runs[k])
    {
      assert RoundAt(files, inputs, k, runs[k]);
    }
  }

  /**
   * A session finishes normally exactly when the last restart answer was not
   * "yes", and then it has at least one run; otherwise it ends with an exception,
   * and a loading exception is a missing file.
   */
  lemma SessionEnds(files: map<string, Table>, inputs: seq<string>, runs: seq<Run>, outcome: Outcome)
    requires IsSession(files, inputs, runs, outcome)
    ensures runs != [] ==> (IsYes(runs[|runs| - 1].restart) <==> outcome != Finished)
    ensures outcome == Finished ==> runs != []
    ensures outcome.LoadFailed? ==> outcome.loadError.MissingFile?
  {
    if runs == [] || IsYes(runs[|runs| - 1].restart) {
      var start := RoundStart(inputs, |runs|);
      StopIsDetermined(files, inputs, start, outcome, outcome);
    }
  }

  /** A session's runs and outcome are the only ones the loop can give on these files and this input. */
  lemma SessionIsDetermined(files: map<string, Table>, inputs: seq<string>,
                            runs: seq<Run>, outcome: Outcome, runs': seq<Run>, outcome': Outcome)
    requires IsSession(files, inputs, runs, outcome)
    requires IsSession(files, inputs, runs', outcome')
    ensures runs == runs' && outcome == outcome'
  {
    SessionPrefixAgrees(files, inputs, runs, outcome, runs', outcome');
    SessionPrefixAgrees(files, inputs, runs', outcome', runs, outcome);
    assert runs == runs';
    if runs == [] || IsYes(runs[|runs| - 1].restart) {
      var start := RoundStart(inputs, |runs|);
      assert Stopped(files, inputs, start, outcome);
      assert Stopped(files, inputs, start, outcome');
      StopIsDetermined(files, inputs, start, outcome, outcome');
    }
  }

  /** Two sessions on the same files and input agree on their common runs, and the first is no longer than the second. */
  lemma SessionPrefixAgrees(files: map<string, Table>, inputs: seq<string>,
                            runs: seq<Run>, outcome: Outcome, runs': seq<Run>, outcome': Outcome)
    requires IsSession(files, inputs, runs, outcome)
    requires IsSession(files, inputs, runs', outcome')
    ensures |runs| <= |runs'|
    ensures forall k :: 0 <= k < |runs| ==> runs[k] == runs'[k]
  {
    forall k | 0 <= k < |runs| && k < |runs'|
      ensures runs[k] == runs'[k]
    {
      assert RoundAt(files, inputs, k, runs[k]) && RoundAt(files, inputs, k, runs'[k]);
      var start := RoundStart(inputs, k);
      CompletedIsDetermined(files, inputs, start, runs[k], RestartLine(inputs, start), runs'[k], RestartLine(inputs, start));
    }
    if |runs'| < |runs| {
      var n := |runs'|;
      assert RoundAt(files, inputs, n, runs[n]);
      var start := RoundStart(inputs, n);
      CompletedIsDetermined(files, inputs, start, runs[n], RestartLine(inputs, start), runs[n], RestartLine(inputs, start));
    }
  }

  /** Appending the run of the next round keeps every run the run of its round. */
  lemma AppendRound(files: map<string, Table>, inputs: seq<string>, runs: seq<Run>, run: Run)
    requires forall k {:trigger RoundAt(files, inputs, k, runs[k])} :: 0 <= k < |runs| ==> RoundAt(files, inputs, k, runs[k])
    requires RoundAt(files, inputs, |runs|, run)
    ensures forall k {:trigger RoundAt(files, inputs, k, (runs + [run])[k])} :: 0 <= k < |runs| + 1 ==> RoundAt(files, inputs, k, (runs + [run])[k])
  {
    forall k | 0 <= k < |runs| + 1
      ensures RoundAt(files, inputs, k, (runs + [run])[k])
    {
      if k < |runs| {
        assert (runs + [run])[k] == runs[k];
      }
    }
  }

  /** The session loop over the lines of standard input. */
  method Explore(files: map<string, Table>, inputs: seq<string>) returns (runs: seq<Run>, outcome: Outcome)
    ensures IsSession(files, inputs, runs, outcome)
  {
    runs := [];
    var pos := 0;
    while true
      invariant pos == RoundStart(inputs, |runs|) && pos <= |inputs|
      invariant forall k {:trigger RoundAt(files, inputs, k, runs[k])} :: 0 <= k < |runs| ==> RoundAt(files, inputs, k, runs[k])
      invariant forall k :: 0 <= k < |runs| ==> IsYes(runs[k].restart)
      decreases |inputs| - pos
    {
      var run, stop, answer := Round(files, inputs, pos);
      if run.None? {
        return runs, stop;
      }
      AppendRound(files, inputs, runs, run.value);
      runs := runs + [run.value];
      if !IsYes(run.value.restart) {
        return runs, Finished;
      }
      pos := answer + 1;
    }
  }
}
