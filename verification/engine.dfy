/**
 The password-strength engine the wrappers call. Its matchers, guess
 estimators, optimiser, time estimates, feedback and frequency lists live in
 modules that are not part of this model (zxcvbn/zxcvbn_class.py:6,
 zxcvbn/__init__.py:4), so they enter as the fields of an `Engine` value and
 nothing is assumed about what they compute.
 */
module Engine {
  import opened Matches
  import opened Ranking

  /** The eight matchers `_omnimatch` runs, in its order (zxcvbn/zxcvbn_class.py:180-182). */
  datatype Matcher =
    | DictionaryMatch | ReverseDictionaryMatch | L33tMatch | SpatialMatch
    | RepeatMatch | SequenceMatch | RegexMatch | DateMatch

  const MatcherOrder: seq<Matcher> := [
    DictionaryMatch, ReverseDictionaryMatch, L33tMatch, SpatialMatch,
    RepeatMatch, SequenceMatch, RegexMatch, DateMatch
  ]

  /** The catalogue lookup made with a fallback chain; it stands for the installed translation function. */
  datatype Translation = Translation(languages: seq<string>)

  /** The feedback part of a result: a warning and suggestions, already translated. */
  datatype Feedback = Feedback(warning: string, suggestions: seq<string>)

  /** The result dictionary of one evaluation, reduced to the fields that are not floats or clock readings. */
  datatype Report = Report(sequence: seq<Match>, score: int, feedback: Feedback)

  /** The code outside the model:
      - `frequencyLists`: `FREQUENCY_LISTS`, word lists by name, most common first;
      - `matcher`: one of the eight matchers run on a password against given dictionaries;
      - `omnimatch`: `matching.omnimatch` with the cleaned user inputs, as the module-level entry calls it;
      - `assess`: scoring, time estimates and feedback of a password's matches under a translation. */
  datatype Engine = Engine(
    frequencyLists: map<string, seq<string>>,
    matcher: (Matcher, string, Dictionaries) -> seq<Match>,
    omnimatch: (string, seq<string>) -> seq<Match>,
    assess: (string, seq<Match>, Translation) -> Report)

  /** The matchers' outputs concatenated in the given matcher order (`matches.extend` in a loop). */
  function Collect(e: Engine, password: string, dicts: Dictionaries, kinds: seq<Matcher>): seq<Match> {
    if |kinds| == 0 then []
    else e.matcher(kinds[0], password, dicts) + Collect(e, password, dicts, kinds[1..])
  }
}
