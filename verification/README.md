# zxcvbn-python wrappers, modelled in Dafny

This project models the two entry points that liu-kan/zxcvbn-python puts in front of the zxcvbn
password-strength engine:

- the `ZxcvbnInstance` class (`zxcvbn/zxcvbn_class.py`). It builds the ranked dictionaries once,
  caches a translation for its language and re-evaluates the current password when the user
  inputs or the language change;
- the module-level `zxcvbn(...)` function and its `setup_translation` (`zxcvbn/__init__.py`). These
  keep the last language code set up in process-wide state.

The engine itself is not modelled. It covers the matchers, the scoring optimiser, the time
estimates, the feedback texts and the frequency lists. It enters as an `Engine` value whose fields
are functions, and nothing is assumed about what they compute. Every operation is a pure function
over an immutable state: `Instance.Instance` for an instance, `Entry.Globals` for the module's
process-wide variables. Raised exceptions become `Outcomes.Result` errors.

Modules:

- `Text`: the ASCII part of `str.lower()` and `str.startswith`.
- `Inputs`: user inputs of any type, their `str()` rendering and the cleaning loop.
- `Sequences`: first and last occurrences, and the order-preserving de-duplication
  `sorted(set(xs), key=xs.index)`.
- `Locale`: the language fallback chain.
- `Ranking`: the ranked dictionaries and the merge of user inputs done before every evaluation.
- `Matches`: candidate matches and their stable sort by `(i, j)`.
- `Engine`: the engine as a parameter.
- `Instance`: the instance's state machine.
- `Entry`: the module-level function.

Three facts the proofs bring out:

- The merge in `_omnimatch` updates the cached "user_inputs" map in place, because
  `dict(self._ranked_dictionaries)` is a shallow copy, although the comment at
  zxcvbn/zxcvbn_class.py:166 calls it a copy. With n inputs whose cleaned words are duplicate-free, the cached rank of the
  k-th input is `k + 1` when the instance is built and `n + k + 1` after the first evaluation, and
  from then on the cache stays as it is. Since the dictionaries the matchers get are that same map,
  they see the user words at `n + k + 1` from the first evaluation on, never at `k + 1`.
- Evaluation history is invisible to the matchers all the same, as long as the caller does not
  change the input list it handed over. In every state reachable from the constructor by any series
  of password, input and language changes, the cached "user_inputs" map ranks exactly the current
  cleaned inputs, and in such a state a password's result does not depend on whether another
  password, accepted or rejected, was submitted before it. The instance keeps a reference to the
  caller's list, not a copy (zxcvbn/zxcvbn_class.py:31, :223, :231). A caller that appends to the
  list after handing it over breaks this: the cleaning loop sees the new word, the cache was built
  without it, and then the ranks the matchers get do depend on earlier evaluations.
- The sort is pinned down completely. Ordered by span, with each span keeping the matchers' order,
  and a uniqueness lemma shows only one sequence meets that.

For a Chinese code the code tries `[lang, 'zh_CN', 'zh']` (zxcvbn/__init__.py:30,
zxcvbn/zxcvbn_class.py:87). The repository's tests ask for "zh_Hans"
(tests/test_zxcvbn_instance.py:92 and :176), whose chain is therefore `["zh_Hans", "zh_CN", "zh"]`.

## Model

| member | source | states |
|---|---|---|
| Text.Lower | zxcvbn/zxcvbn_class.py:70 | `lower()` keeps the length and lowers each character in place; the result has no capitals |
| Text.LowerIdempotent | zxcvbn/zxcvbn_class.py:145 | lowering an already cleaned word changes nothing |
| Inputs.Decimal | zxcvbn/zxcvbn_class.py:69 | `str(n)` of a natural number is all digits, a single digit exactly when n < 10, and never starts with '0' when n >= 10 |
| Inputs.DecimalUnique | zxcvbn/zxcvbn_class.py:69 | the only digit string without a superfluous leading zero that reads as n is `str(n)` |
| Inputs.DecimalRoundTrip | zxcvbn/zxcvbn_class.py:69 | reading the decimal rendering back gives the number |
| Inputs.ToStr | zxcvbn/zxcvbn_class.py:68-69 | `str(None)` is "None", `str()` of a bool is "True" or "False", and `str()` of an int is digits that read back as its absolute value, with no superfluous leading zero and a leading '-' when negative |
| Inputs.ToStrInjectiveOnInts | zxcvbn/zxcvbn_class.py:68-69 | distinct integers give distinct user-input words |
| Inputs.Clean | zxcvbn/zxcvbn_class.py:140-145 | one cleaned word per input, in order; the k-th is the lowered `str()` of the k-th input |
| Inputs.CleanAppend | zxcvbn/__init__.py:83-87 | cleaning works input by input, so it distributes over concatenation |
| Inputs.CleanIdempotent | zxcvbn/__init__.py:83-87 | cleaned words passed back in as strings come out unchanged |
| Inputs.NoneBecomesWord | zxcvbn/__init__.py:85-87 | a `None` input becomes the word "none", wherever it stands in the list |
| Sequences.FirstIndex | zxcvbn/__init__.py:32 | `xs.index(x)` is the first position holding x |
| Sequences.Dedup | zxcvbn/__init__.py:32 | `sorted(set(xs), key=xs.index)` lists each element once, ordered by first occurrence, head kept |
| Sequences.NoDuplicatesCardinality | zxcvbn/__init__.py:32 | a duplicate-free list has as many elements as its set |
| Sequences.DedupUnique | zxcvbn/__init__.py:32 | any list meeting that description equals the de-duplication |
| Locale.FallbackChain | zxcvbn/__init__.py:27-35 | the chain starts with the code and has no repeats; a Chinese code gets the de-duplicated `[code, zh_CN, zh]`, any other code only itself |
| Locale.ChineseChain | zxcvbn/zxcvbn_class.py:84-92 | the chains written out for "zh_CN", "zh" and any other Chinese code; both fallbacks are always present |
| Locale.ChineseIff | zxcvbn/zxcvbn_class.py:85 | a code is Chinese exactly when its first two characters are z and h in either case |
| Ranking.RankMapSpec | zxcvbn/zxcvbn_class.py:62 | the enumerate comprehension ranks exactly the listed words, each by its last position plus the start |
| Ranking.RankMapRange | zxcvbn/zxcvbn_class.py:62 | ranks lie in `[start, start + n)` and no two words share one |
| Ranking.RankMapDistinct | zxcvbn/zxcvbn_class.py:71 | without repeats the k-th word has rank `start + k` and the map has one entry per word |
| Ranking.RankMapSize | zxcvbn/zxcvbn_class.py:71 | a ranked map has one key per distinct word |
| Ranking.BuildDictionaries | zxcvbn/zxcvbn_class.py:52-73 | one dictionary per frequency list, plus "user_inputs" exactly when there are inputs |
| Ranking.BuildDictionariesRanks | zxcvbn/zxcvbn_class.py:60-71 | every list and the cleaned inputs are ranked from 1 by last position |
| Ranking.MergeUserInputs | zxcvbn/zxcvbn_class.py:166-175 | no inputs leave all dictionaries alone; otherwise only "user_inputs" changes; the cache takes the merge exactly when it already held that map |
| Ranking.MergeKeepsOtherDictionaries | zxcvbn/zxcvbn_class.py:164-175 | the matchers see every cached dictionary, plus "user_inputs" when there are inputs, with every other dictionary unchanged |
| Ranking.MergeUserRanks | zxcvbn/zxcvbn_class.py:170-174 | the merged map keeps existing words, adds new ones after the existing count, and leaves words not re-listed alone |
| Ranking.MergeRanksNewWords | zxcvbn/zxcvbn_class.py:173 | without repeats the k-th new word gets rank `existing + k + 1` |
| Ranking.MergeSettles | zxcvbn/zxcvbn_class.py:167-175 | when the cache ranks exactly the words, one merge shifts their ranks past the distinct count and a second merge changes nothing |
| Ranking.MergeUnobservable | zxcvbn/zxcvbn_class.py:164-175 | a later merge hands the matchers the same dictionaries as the first |
| Ranking.FirstMergeShiftsUserRanks | zxcvbn/zxcvbn_class.py:170-175 | on a freshly built cache, the k-th word goes from rank k + 1 to `n + k + 1` |
| Ranking.BuiltMergeShiftsUserRanks | zxcvbn/zxcvbn_class.py:64-75 | the same shift on the dictionaries the constructor builds |
| Ranking.BuiltInStep | zxcvbn/zxcvbn_class.py:64-71 | the constructor's cache holds "user_inputs" ranking exactly the cleaned inputs whenever there are any |
| Ranking.MergeKeepsInStep | zxcvbn/zxcvbn_class.py:166-175 | a merge of the same words keeps the cached "user_inputs" map ranking exactly those words |
| Matches.Insert | zxcvbn/zxcvbn_class.py:186 | insertion keeps the elements, keeps sortedness and puts the new match before its equals |
| Matches.SortBySpan | zxcvbn/zxcvbn_class.py:186 | the sort is a permutation, non-decreasing by `(i, j)`, and keeps the order of matches on one span |
| Matches.StableSortUnique | zxcvbn/zxcvbn_class.py:186 | two sequences both sorted by span with the same matches per span are equal |
| Instance.LoadDictionaries | zxcvbn/zxcvbn_class.py:52-73 | builds the cache only when there is none, touching nothing else |
| Instance.SetupTranslation | zxcvbn/zxcvbn_class.py:75-92 | looks the translation up with the language's chain only when none is cached |
| Instance.Create | zxcvbn/zxcvbn_class.py:17-50 | a new instance is loaded, has no password or result, keeps `user_inputs or []` and uses its language's chain |
| Instance.Omnimatch | zxcvbn/zxcvbn_class.py:161-186 | the matches are the matchers' outputs on the merged dictionaries, stably sorted by span; the cache is left as the merge leaves it |
| Instance.EvaluatePassword | zxcvbn/zxcvbn_class.py:134-159 | records password and result; the report assesses a stable span sort of the matchers' outputs |
| Instance.SetPassword | zxcvbn/zxcvbn_class.py:112-132 | raises exactly when the password is too long, changing nothing; otherwise the password and result are what the getters return |
| Instance.UpdateUserInputs | zxcvbn/zxcvbn_class.py:214-237 | new inputs; the dictionaries are rebuilt from them, and when a password is set it is re-evaluated and the cache is the rebuilt one after that evaluation's merge |
| Instance.SetLanguage | zxcvbn/zxcvbn_class.py:239-264 | the same code, or "" against "en", is a no-op; otherwise the chain is looked up again, the dictionaries are kept when no password is set, and a set password is re-evaluated, leaving the cache as its merge leaves it |
| Instance.TranslationStaysCurrent | zxcvbn/zxcvbn_class.py:239-264 | the cached translation always belongs to the instance's current language |
| Instance.LanguageRoundTrip | zxcvbn/zxcvbn_class.py:239-264 | switching language and back restores the language and its translation |
| Instance.EvaluationSettlesCache | zxcvbn/zxcvbn_class.py:161-175 | the first evaluation rewrites the cached user ranks; later ones leave the cache alone |
| Instance.EvaluationIndependentOfHistory | zxcvbn/zxcvbn_class.py:112-186 | in a state whose cached user ranks cover exactly the current cleaned inputs, a password gets the same answer whether or not another password, accepted or rejected, was submitted first |
| Instance.CreateInStep | zxcvbn/zxcvbn_class.py:17-50 | a new instance's cache ranks exactly its cleaned inputs |
| Instance.SetPasswordKeepsInStep | zxcvbn/zxcvbn_class.py:112-159 | evaluating a password keeps the inputs and keeps the cache in step with them |
| Instance.UpdateUserInputsInStep | zxcvbn/zxcvbn_class.py:214-237 | after new inputs the cache is in step with the new inputs |
| Instance.SetLanguageKeepsInStep | zxcvbn/zxcvbn_class.py:239-264 | a language change keeps the cache in step with the inputs |
| Instance.ApplyKeepsInStep | zxcvbn/zxcvbn_class.py:112-264 | any one public setter keeps the cache in step with the inputs |
| Instance.ApplyAllKeepsInStep | zxcvbn/zxcvbn_class.py:112-264 | any series of setters keeps the cache in step with the inputs |
| Instance.ReachableIndependentOfHistory | zxcvbn/zxcvbn_class.py:17-264 | in every state reachable from the constructor through the public calls, a password gets the same answer whether or not another password, accepted or rejected, was submitted first |
| Instance.FreshUserRanks | zxcvbn/zxcvbn_class.py:64-71 | on a new instance whose inputs' cleaned words are duplicate-free, the k-th input has cached rank k + 1 |
| Instance.FirstPasswordShiftsUserRanks | zxcvbn/zxcvbn_class.py:166-175 | with n inputs whose cleaned words are duplicate-free, after the first accepted password the k-th input's cached rank is `n + k + 1` |
| Entry.SetupTranslation | zxcvbn/__init__.py:10-62 | the language set up last is skipped; any other installs its chain; the code is recorded |
| Entry.SetupTranslationInstalls | zxcvbn/__init__.py:19-21 | from a consistent state the requested chain is installed either way, and repeating the setup changes nothing |
| Entry.Zxcvbn | zxcvbn/__init__.py:64-100 | raises exactly when the password is too long, changing nothing; otherwise sets the language up and assesses the matches of the cleaned inputs |
| Entry.ZxcvbnUsesLanguageChain | zxcvbn/__init__.py:64-89 | from a consistent state an accepted call is assessed under the requested language's chain |
| Entry.NoInputsAsEmpty | zxcvbn/__init__.py:78-79 | `user_inputs=None` behaves as an empty list |
| Entry.RunConsistent | zxcvbn/__init__.py:20-62 | any series of calls keeps the installed translation in step with the last code |
| Entry.InitialConsistent | zxcvbn/__init__.py:8 | the state at import time is consistent, so every reachable state is |
| Entry.DefaultLangChain | zxcvbn/__init__.py:64 | the default language "en" is not Chinese, so its chain is `["en"]` |
| Entry.DefaultCall | zxcvbn/__init__.py:64-89 | with every default, passwords over 72 characters raise and any other is matched with no user inputs under the English catalogue alone |
| Entry.DefaultInstance | zxcvbn/zxcvbn_class.py:17 | the instance built with every default has language "en", no inputs, a 72-character limit and only the English catalogue |

## Left out

- The engine is a parameter and is not modelled: matching, scoring, time estimates, feedback texts and `FREQUENCY_LISTS`. It is code outside these two files.
- Concurrency is out of scope. Locks and the `thread_safe` flag (`threading.RLock`) are erased, and each operation is treated as one step. In the source the length check (zxcvbn/zxcvbn_class.py:125) and the no-op test (zxcvbn/zxcvbn_class.py:246) run outside the lock, and `thread_safe=False` takes no lock at all.
- The gettext catalogue lookup, `translation.install()` and the `FileNotFoundError` fallback are foreign library I/O. A translation is represented by the chain it was looked up with.
- The process-wide `feedback._` that both entry points overwrite is left out. This includes one instance's setup replacing another's, or the module-level one's, because it is global I/O state shared outside the model. As a result the instance assesses under its own cached translation.
- The `print` calls in `setup_translation`, `datetime` and `calc_time`, and the float fields of the result are left out. They are output, a clock and floating point.
- The Python 2 branch of `zxcvbn(...)` and `__repr__` are left out. They have no bearing on behaviour under Python 3.
- Text.Lower: lowers ASCII capitals only, because Python's full Unicode case mapping (including length-changing cases such as 'ẞ') is a table outside the model.
- Inputs.ToStr: renders only `None`, booleans and integers. `str()` of other objects calls their own `__str__`, which is code outside the model. Since CPython 3.11 (and 3.10.7, 3.9.14, 3.8.14), `str()` of an integer with more than 4300 digits raises `ValueError`; that limit is interpreter configuration, so the model renders every integer and cleaning never fails.
- Instance.SetPassword: raises only for a too long password. The `ValueError` that `str()` of a huge integer input can raise (zxcvbn/zxcvbn_class.py:144) is not modelled, nor the state it leaves behind: the new password already recorded at zxcvbn/zxcvbn_class.py:136 next to the previous result. The constructor (zxcvbn/zxcvbn_class.py:69) and the re-evaluations in the setters share this gap.
- Entry.Zxcvbn: raises only for a too long password. The same `ValueError` from `str()` of a huge integer input (zxcvbn/__init__.py:86) is not modelled.
- Instance.Create: holds the inputs as a value. The source keeps a reference to the caller's non-empty list, here and in `update_user_inputs` (zxcvbn/zxcvbn_class.py:31, :223, :231), and reads it again at every evaluation (zxcvbn/zxcvbn_class.py:142). Changes the caller makes to that list afterwards are not modelled, because they happen in code outside the instance; with them the cache can fall out of step with the inputs and evaluation history becomes visible.
- Inputs.Clean: treats every input as text. `bytes` inputs, kept as bytes and lowered bytewise, are not distinguished.
- Instance.EvaluatePassword: states that the report assesses some stable span sort of the matchers' outputs rather than naming the list, because the sorted list is unique by Matches.StableSortUnique.

