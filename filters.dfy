/**
 * The filter prompter: `check_data_entry` and `get_filters`.
 *
 * Standard input is a sequence of lines `inputs` read from position `pos`
 * onwards. Reading past the last line is the input error that
 * `check_data_entry` catches; it then returns no value.
 */
module Filters {
  import opened Wrappers
  import opened Text
  import opened Dataset

  const VALID_MONTHS: seq<string> := ["all", "january", "february", "march", "april", "may", "june"]

  const VALID_DAYS: seq<string> := ["all", "monday", "tuesday", "wednesday", "thursday", "friday", "saturday", "sunday"]

  /** The answer to one prompt: the accepted entry, if any, and the position of the next unread line. */
  datatype Answer = Answer(entry: Option<string>, next: nat)

  /** The city, month and day the user chose. */
  datatype Selection = Selection(city: string, month: string, day: string)

  /**
   * What `check_data_entry` returns: the first line from `pos` on whose lower-cased
   * form is accepted, every line before it having been rejected; no entry when
   * the lines run out first.
   */
  function Prompt(inputs: seq<string>, pos: nat, valid: seq<string>): (a: Answer)
    requires pos <= |inputs|
    ensures pos <= a.next <= |inputs|
    ensures a.entry.Some? ==> pos < a.next && a.entry.value in valid
    ensures a.entry.None? ==> a.next == |inputs|
    decreases |inputs| - pos
  {
    if pos == |inputs| then Answer(None, pos)
    else if Lower(inputs[pos]) in valid then Answer(Some(Lower(inputs[pos])), pos + 1)
    else Prompt(inputs, pos + 1, valid)
  }

  /**
   * The entry of a prompt is the lower-cased form of the line it stopped at, and
   * every line before that one (every remaining line, when there is no entry) was
   * rejected.
   */
  lemma {:induction false} PromptFindsFirst(inputs: seq<string>, pos: nat, valid: seq<string>)
    requires pos <= |inputs|
    ensures var a := Prompt(inputs, pos, valid);
      && (a.entry.Some? ==> a.entry.value == Lower(inputs[a.next - 1]))
      && (forall i :: pos <= i < |inputs| && (a.entry.None? || i < a.next - 1) ==> Lower(inputs[i]) !in valid)
    decreases |inputs| - pos
  {
    if pos < |inputs| && Lower(inputs[pos]) !in valid {
      PromptFindsFirst(inputs, pos + 1, valid);
    }
  }

  /** The re-prompting loop of `check_data_entry`. */
  method CheckDataEntry(inputs: seq<string>, pos: nat, valid: seq<string>) returns (entry: Option<string>, next: nat)
    requires pos <= |inputs|
    ensures entry.Some? ==> entry.value in valid
    ensures Answer(entry, next) == Prompt(inputs, pos, valid)
  {
    PromptFindsFirst(inputs, pos, valid);
    if pos == |inputs| {
      return None, pos;
    }
    var userInput := Lower(inputs[pos]);
    next := pos + 1;
    while userInput !in valid
      invariant pos < next <= |inputs|
      invariant userInput == Lower(inputs[next - 1])
      invariant forall i :: pos <= i < next - 1 ==> Lower(inputs[i]) !in valid
      decreases |inputs| - next
    {
      if next == |inputs| {
        return None, next;
      }
      userInput := Lower(inputs[next]);
      next := next + 1;
    }
    entry := Some(userInput);
  }

  /**
   * What `get_filters` collects: three prompts in a row. When one of them gets
   * no entry the selection is missing (the later prompts then find no input either).
   */
  function Choose(inputs: seq<string>, pos: nat): (r: (Option<Selection>, nat))
    requires pos <= |inputs|
    ensures pos <= r.1 <= |inputs|
  {
    var city := Prompt(inputs, pos, CITY_KEYS);
    var month := Prompt(inputs, city.next, VALID_MONTHS);
    var day := Prompt(inputs, month.next, VALID_DAYS);
    if city.entry.Some? && month.entry.Some? && day.entry.Some?
    then (Some(Selection(city.entry.value, month.entry.value, day.entry.value)), day.next)
    else (None, day.next)
  }

  /** A selection is made of accepted values only, and consumes at least one line per prompt. */
  lemma ChooseValid(inputs: seq<string>, pos: nat)
    requires pos <= |inputs|
    ensures var (sel, next) := Choose(inputs, pos);
      && pos <= next <= |inputs|
      && (sel.Some? ==> sel.value.city in CITY_DATA && sel.value.month in VALID_MONTHS
                        && sel.value.day in VALID_DAYS && pos + 3 <= next)
      && (sel.None? ==> next == |inputs|)
  {
    CityKeysAreCityData();
  }

  method GetFilters(inputs: seq<string>, pos: nat) returns (sel: Option<Selection>, next: nat)
    requires pos <= |inputs|
    ensures (sel, next) == Choose(inputs, pos)
    ensures sel.Some? ==> sel.value.city in CITY_KEYS && sel.value.month in VALID_MONTHS && sel.value.day in VALID_DAYS
    ensures pos <= next <= |inputs|
    ensures sel.Some? ==> pos < next
  {
    var city, p1 := CheckDataEntry(inputs, pos, CITY_KEYS);
    var month, p2 := CheckDataEntry(inputs, p1, VALID_MONTHS);
    var day, p3 := CheckDataEntry(inputs, p2, VALID_DAYS);
    next := p3;
    if city.Some? && month.Some? && day.Some? {
      sel := Some(Selection(city.value, month.value, day.value));
    } else {
      sel := None;
    }
  }
}
