/**
 The `ZxcvbnInstance` wrapper (zxcvbn/zxcvbn_class.py:9-264) as an immutable
 state threaded through its operations, with its locks erased. The state
 holds the language, the maximum length, the user inputs, the cached ranked
 dictionaries and translation, the current password and the last result.
 */
module Instance {
  import opened Outcomes
  import opened Inputs
  import opened Locale
  import opened Ranking
  import opened Matches
  import opened Engine

  datatype Instance = Instance(
    lang: string,
    maxLength: int,
    userInputs: seq<Input>,
    dictionaries: Option<Dictionaries>,
    translation: Option<Translation>,
    password: Option<string>,
    lastResult: Option<Report>)

  /** Dictionaries and translation are loaded: the constructor leaves every instance so. */
  predicate Ready(inst: Instance) {
    inst.dictionaries.Some? && inst.translation.Some?
  }

  /** `_load_dictionaries`: builds the cache only when there is none. */
  function LoadDictionaries(inst: Instance, e: Engine): (r: Instance)
    ensures r.dictionaries.Some?
    ensures inst.dictionaries.Some? ==> r == inst
    ensures r == inst.(dictionaries := r.dictionaries)
    ensures inst.dictionaries.None? ==>
      r.dictionaries.value.Keys == e.frequencyLists.Keys + (if |inst.userInputs| > 0 then {UserInputsKey} else {})
  {
    if inst.dictionaries.Some? then inst
    else inst.(dictionaries := Some(BuildDictionaries(e.frequencyLists, inst.userInputs)))
  }

  /** `_setup_translation`: looks the catalogue up with the language's fallback chain only when none is cached. */
  function SetupTranslation(inst: Instance): (r: Instance)
    ensures r.translation.Some?
    ensures inst.translation.Some? ==> r == inst
    ensures r == inst.(translation := r.translation)
    ensures inst.translation.None? ==> r.translation.value.languages == FallbackChain(inst.lang)
  {
    if inst.translation.Some? then inst
    else inst.(translation := Some(Translation(FallbackChain(inst.lang))))
  }

  /** `ZxcvbnInstance(lang, user_inputs, max_length)`. */
  function Create(e: Engine, lang: string, userInputs: Option<seq<Input>>, maxLength: int): (inst: Instance)
    ensures Ready(inst)
    ensures inst.password.None? && inst.lastResult.None?
    ensures inst.lang == lang && inst.maxLength == maxLength && inst.userInputs == OrEmpty(userInputs)
    ensures inst.translation.value.languages == FallbackChain(lang)
    ensures inst.dictionaries == Some(BuildDictionaries(e.frequencyLists, inst.userInputs))
  {
    SetupTranslation(LoadDictionaries(Instance(lang, maxLength, OrEmpty(userInputs), None, None, None, None), e))
  }

  /** `get_password`. */
  function GetPassword(inst: Instance): Option<string> {
    inst.password
  }

  /** `get_result`. */
  function GetResult(inst: Instance): Option<Report> {
    inst.lastResult
  }

  /** What `_omnimatch` returns, together with the cache as its in-place merge leaves it. */
  datatype Omnimatched = Omnimatched(matches: seq<Match>, cache: Dictionaries)

  /** `_omnimatch`: merge the cleaned user inputs, run the eight matchers on the merged dictionaries
      and sort their outputs stably by span. */
  function Omnimatch(e: Engine, password: string, cache: Dictionaries, words: seq<string>): (r: Omnimatched)
    ensures SortedBySpan(r.matches)
    ensures multiset(r.matches) == multiset(Collect(e, password, MergeUserInputs(cache, words).effective, MatcherOrder))
    ensures forall i, j :: OnSpan(r.matches, i, j) == OnSpan(Collect(e, password, MergeUserInputs(cache, words).effective, MatcherOrder), i, j)
    ensures r.cache == MergeUserInputs(cache, words).cache
  {
    var merged := MergeUserInputs(cache, words);
    Omnimatched(SortBySpan(Collect(e, password, merged.effective, MatcherOrder)), merged.cache)
  }

  /** One evaluation's result and the state after it. */
  datatype Evaluated = Evaluated(report: Report, after: Instance)

  /** `_evaluate_password`: records the password, evaluates it with the cleaned user inputs and records the result. */
  function EvaluatePassword(inst: Instance, e: Engine, password: string): (r: Evaluated)
    requires Ready(inst)
    ensures r.after.password == Some(password) && r.after.lastResult == Some(r.report)
    ensures r.after.lang == inst.lang && r.after.maxLength == inst.maxLength
    ensures r.after.userInputs == inst.userInputs && r.after.translation == inst.translation
    ensures r.after.dictionaries == Some(MergeUserInputs(inst.dictionaries.value, Clean(inst.userInputs)).cache)
    ensures exists ms ::
      && SortedBySpan(ms)
      && (forall i, j :: OnSpan(ms, i, j) ==
            OnSpan(Collect(e, password, MergeUserInputs(inst.dictionaries.value, Clean(inst.userInputs)).effective, MatcherOrder), i, j))
      && r.report == e.assess(password, ms, inst.translation.value)
  {
    var found := Omnimatch(e, password, inst.dictionaries.value, Clean(inst.userInputs));
    var report := e.assess(password, found.matches, inst.translation.value);
    Evaluated(report, inst.(password := Some(password), lastResult := Some(report), dictionaries := Some(found.cache)))
  }

  /** The answer of a call and the state after it. */
  datatype Step = Step(reply: Result<Report>, after: Instance)

  /** `set_password`: too long a password raises before anything changes; otherwise it is evaluated. */
  function SetPassword(inst: Instance, e: Engine, password: string): (r: Step)
    requires Ready(inst)
    ensures r.reply.Err? <==> |password| > inst.maxLength
    ensures r.reply.Err? ==> r.after == inst && r.reply.error == LengthExceeded(inst.maxLength)
    ensures r.reply.Ok? ==> GetPassword(r.after) == Some(password) && GetResult(r.after) == Some(r.reply.value)
    ensures r.reply.Ok? ==> r == Step(Ok(EvaluatePassword(inst, e, password).report), EvaluatePassword(inst, e, password).after)
    ensures Ready(r.after)
  {
    if |password| > inst.maxLength then Step(Err(LengthExceeded(inst.maxLength)), inst)
    else
      var ev := EvaluatePassword(inst, e, password);
      Step(Ok(ev.report), ev.after)
  }

  /** The state `update_user_inputs` evaluates in: new inputs and freshly built dictionaries. */
  function Reloaded(inst: Instance, e: Engine, inputs: Option<seq<Input>>): Instance {
    LoadDictionaries(inst.(userInputs := OrEmpty(inputs), dictionaries := None), e)
  }

  /** `update_user_inputs`: replaces the inputs, rebuilds the dictionaries and re-evaluates the current password if any. */
  function UpdateUserInputs(inst: Instance, e: Engine, inputs: Option<seq<Input>>): (after: Instance)
    requires Ready(inst)
    ensures Ready(after)
    ensures after.userInputs == OrEmpty(inputs)
    ensures after.lang == inst.lang && after.maxLength == inst.maxLength
    ensures after.translation == inst.translation && after.password == inst.password
    ensures inst.password.None? ==>
      after.lastResult == inst.lastResult && after.dictionaries == Some(BuildDictionaries(e.frequencyLists, OrEmpty(inputs)))
    ensures inst.password.Some? ==>
      after.lastResult == Some(EvaluatePassword(Reloaded(inst, e, inputs), e, inst.password.value).report)
    ensures inst.password.Some? ==>
      after.dictionaries == Some(MergeUserInputs(BuildDictionaries(e.frequencyLists, OrEmpty(inputs)), Clean(OrEmpty(inputs))).cache)
  {
    var reloaded := Reloaded(inst, e, inputs);
    if inst.password.Some? then EvaluatePassword(reloaded, e, inst.password.value).after else reloaded
  }

  /** The no-op rule of `set_language`: the same code, or "" and "en" in either order. */
  predicate SameLanguage(current: string, lang: string) {
    current == lang || (lang == "" && current == "en") || (lang == "en" && current == "")
  }

  /** The state `set_language` evaluates in: the new language and its freshly looked-up translation. */
  function Relocalized(inst: Instance, lang: string): Instance {
    SetupTranslation(inst.(lang := lang, translation := None))
  }

  /** `set_language`: a no-op for the same language; otherwise reloads the translation and re-evaluates the current password if any. */
  function SetLanguage(inst: Instance, e: Engine, lang: string): (after: Instance)
    requires Ready(inst)
    ensures Ready(after)
    ensures SameLanguage(inst.lang, lang) ==> after == inst
    ensures after.userInputs == inst.userInputs && after.maxLength == inst.maxLength && after.password == inst.password
    ensures !SameLanguage(inst.lang, lang) ==> after.lang == lang && after.translation.value.languages == FallbackChain(lang)
    ensures !SameLanguage(inst.lang, lang) && inst.password.None? ==>
      after.lastResult == inst.lastResult && after.dictionaries == inst.dictionaries
    ensures !SameLanguage(inst.lang, lang) && inst.password.Some? ==>
      after.lastResult == Some(EvaluatePassword(Relocalized(inst, lang), e, inst.password.value).report)
    ensures !SameLanguage(inst.lang, lang) && inst.password.Some? ==>
      after.dictionaries == Some(MergeUserInputs(inst.dictionaries.value, Clean(inst.userInputs)).cache)
  {
    if SameLanguage(inst.lang, lang) then inst
    else
      var relocalized := Relocalized(inst, lang);
      if inst.password.Some? then EvaluatePassword(relocalized, e, inst.password.value).after else relocalized
  }

  /** The cached translation is the one looked up for the instance's current language. */
  predicate TranslationCurrent(inst: Instance) {
    inst.translation == Some(Translation(FallbackChain(inst.lang)))
  }

  /** Construction establishes a current translation and every operation keeps it current. */
  lemma TranslationStaysCurrent(inst: Instance, e: Engine, p: string, inputs: Option<seq<Input>>, lang: string)
    requires Ready(inst) && TranslationCurrent(inst)
    ensures TranslationCurrent(Create(e, lang, inputs, inst.maxLength))
    ensures TranslationCurrent(SetPassword(inst, e, p).after)
    ensures TranslationCurrent(UpdateUserInputs(inst, e, inputs))
    ensures TranslationCurrent(SetLanguage(inst, e, lang))
  {
  }

  /** Switching to another language and back restores the language and the translation of the start. */
  lemma LanguageRoundTrip(inst: Instance, e: Engine, lang: string)
    requires Ready(inst) && TranslationCurrent(inst)
    ensures SetLanguage(SetLanguage(inst, e, lang), e, inst.lang).lang == inst.lang
    ensures SetLanguage(SetLanguage(inst, e, lang), e, inst.lang).translation == inst.translation
  {
  }

  /** The shallow copy in `_omnimatch` lets the first evaluation rewrite the cached "user_inputs" ranks
      to start after the number of distinct inputs; from then on evaluations leave the cache as it is. */
  lemma EvaluationSettlesCache(inst: Instance, e: Engine, p: string, q: string)
    requires Ready(inst) && |inst.userInputs| > 0
    requires inst.dictionaries == Some(BuildDictionaries(e.frequencyLists, inst.userInputs))
    requires |p| <= inst.maxLength && |q| <= inst.maxLength
    ensures SetPassword(inst, e, p).after.dictionaries.value[UserInputsKey] ==
      RankMap(Clean(inst.userInputs), |Sequences.Elements(Clean(inst.userInputs))| + 1)
    ensures SetPassword(SetPassword(inst, e, p).after, e, q).after.dictionaries == SetPassword(inst, e, p).after.dictionaries
  {
    var words := Clean(inst.userInputs);
    var cache := inst.dictionaries.value;
    BuildDictionariesUserEntry(e.frequencyLists, inst.userInputs);
    RankMapSize(words, 1);
    MergeSettles(cache, words);
  }

  /** The cached "user_inputs" ranks hold exactly the words `words`, the instance's cleaned inputs. */
  predicate CacheInStep(inst: Instance, words: seq<string>) {
    inst.dictionaries.Some? && UserCacheInStep(inst.dictionaries.value, words)
  }

  /** A new instance's cache is in step with its cleaned inputs. */
  lemma CreateInStep(e: Engine, lang: string, inputs: Option<seq<Input>>, maxLength: int, words: seq<string>)
    requires words == Clean(OrEmpty(inputs))
    ensures CacheInStep(Create(e, lang, inputs, maxLength), words)
  {
    BuiltInStep(e.frequencyLists, OrEmpty(inputs), words);
  }

  /** `set_password` keeps the inputs and keeps the cache in step with them. */
  lemma SetPasswordKeepsInStep(inst: Instance, e: Engine, p: string, words: seq<string>)
    requires Ready(inst) && words == Clean(inst.userInputs) && CacheInStep(inst, words)
    ensures SetPassword(inst, e, p).after.userInputs == inst.userInputs
    ensures CacheInStep(SetPassword(inst, e, p).after, words)
  {
    MergeKeepsInStep(inst.dictionaries.value, words);
  }

  /** `update_user_inputs` brings the cache in step with the new inputs, whatever state it started from. */
  lemma UpdateUserInputsInStep(inst: Instance, e: Engine, inputs: Option<seq<Input>>, words: seq<string>)
    requires Ready(inst) && words == Clean(OrEmpty(inputs))
    ensures CacheInStep(UpdateUserInputs(inst, e, inputs), words)
  {
    BuiltInStep(e.frequencyLists, OrEmpty(inputs), words);
    MergeKeepsInStep(BuildDictionaries(e.frequencyLists, OrEmpty(inputs)), words);
  }

  /** `set_language` keeps the cache in step with the inputs. */
  lemma SetLanguageKeepsInStep(inst: Instance, e: Engine, lang: string, words: seq<string>)
    requires Ready(inst) && words == Clean(inst.userInputs) && CacheInStep(inst, words)
    ensures CacheInStep(SetLanguage(inst, e, lang), words)
  {
    MergeKeepsInStep(inst.dictionaries.value, words);
  }

  /** The in-place update never shows in a result: in every state whose cache is in step with its
      inputs (every state the operations reach), a password gets the same answer whether or not
      another password, accepted or rejected, was submitted just before it. */
  lemma EvaluationIndependentOfHistory(inst: Instance, e: Engine, p: string, q: string, words: seq<string>)
    requires Ready(inst) && words == Clean(inst.userInputs) && CacheInStep(inst, words)
    ensures SetPassword(SetPassword(inst, e, p).after, e, q).reply == SetPassword(inst, e, q).reply
  {
    if |p| <= inst.maxLength {
      MergeUnobservable(inst.dictionaries.value, words);
    }
  }

  /** A public call that changes an instance. */
  datatype Operation = PasswordOp(password: string) | InputsOp(inputs: Option<seq<Input>>) | LanguageOp(lang: string)

  /** The state after one call; a rejected password leaves the instance as it was. */
  function Apply(inst: Instance, e: Engine, op: Operation): (after: Instance)
    requires Ready(inst)
    ensures Ready(after) && after.maxLength == inst.maxLength
  {
    match op
    case PasswordOp(p) => SetPassword(inst, e, p).after
    case InputsOp(inputs) => UpdateUserInputs(inst, e, inputs)
    case LanguageOp(lang) => SetLanguage(inst, e, lang)
  }

  /** The state after a series of calls, in order. */
  function ApplyAll(inst: Instance, e: Engine, ops: seq<Operation>): (after: Instance)
    requires Ready(inst)
    ensures Ready(after) && after.maxLength == inst.maxLength
    decreases |ops|
  {
    if |ops| == 0 then inst else ApplyAll(Apply(inst, e, ops[0]), e, ops[1..])
  }

  /** Every call keeps the cache in step with the instance's cleaned inputs. */
  lemma ApplyKeepsInStep(inst: Instance, e: Engine, op: Operation, words: seq<string>, after: Instance)
    requires Ready(inst) && words == Clean(inst.userInputs) && CacheInStep(inst, words)
    requires after == Apply(inst, e, op)
    ensures CacheInStep(after, Clean(after.userInputs))
  {
    match op
    case PasswordOp(p) =>
      SetPasswordKeepsInStep(inst, e, p, words);
    case InputsOp(inputs) =>
      UpdateUserInputsInStep(inst, e, inputs, Clean(OrEmpty(inputs)));
    case LanguageOp(lang) =>
      SetLanguageKeepsInStep(inst, e, lang, words);
  }

  /** Any series of calls keeps the cache in step. */
  lemma {:induction false} ApplyAllKeepsInStep(inst: Instance, e: Engine, ops: seq<Operation>)
    requires Ready(inst) && CacheInStep(inst, Clean(inst.userInputs))
    ensures CacheInStep(ApplyAll(inst, e, ops), Clean(ApplyAll(inst, e, ops).userInputs))
    decreases |ops|
  {
    if |ops| > 0 {
      var next := Apply(inst, e, ops[0]);
      ApplyKeepsInStep(inst, e, ops[0], Clean(inst.userInputs), next);
      ApplyAllKeepsInStep(next, e, ops[1..]);
    }
  }

  /** In every state reachable from the constructor, a password's answer does not depend on whether
      another password was evaluated just before it. */
  lemma ReachableIndependentOfHistory(e: Engine, lang: string, inputs: Option<seq<Input>>, maxLength: int,
                                      ops: seq<Operation>, p: string, q: string)
    ensures var inst := ApplyAll(Create(e, lang, inputs, maxLength), e, ops);
      SetPassword(SetPassword(inst, e, p).after, e, q).reply == SetPassword(inst, e, q).reply
  {
    var start := Create(e, lang, inputs, maxLength);
    CreateInStep(e, lang, inputs, maxLength, Clean(start.userInputs));
    ApplyAllKeepsInStep(start, e, ops);
    var inst := ApplyAll(start, e, ops);
    EvaluationIndependentOfHistory(inst, e, p, q, Clean(inst.userInputs));
  }

  /** On an instance whose cache was just built from distinct cleaned inputs, the k-th input is ranked `k + 1`. */
  lemma FreshUserRanks(inst: Instance, e: Engine)
    requires |inst.userInputs| > 0 && Sequences.NoDuplicates(Clean(inst.userInputs))
    requires inst.dictionaries == Some(BuildDictionaries(e.frequencyLists, inst.userInputs))
    ensures forall k :: 0 <= k < |inst.userInputs| ==>
      UserRank(inst, Clean(inst.userInputs)[k]) == Some(k + 1)
  {
    var words := Clean(inst.userInputs);
    BuildDictionariesUserEntry(e.frequencyLists, inst.userInputs);
    RankMapDistinct(words, 1);
    assert |words| == |inst.userInputs|;
  }

  /** On the same instance, the state a successful `set_password` leaves behind ranks the k-th input
      `|inputs| + k + 1`: the merge has rewritten the cached map in place. */
  lemma FirstPasswordShiftsUserRanks(inst: Instance, e: Engine, p: string, words: seq<string>, after: Instance)
    requires Ready(inst) && |inst.userInputs| > 0
    requires words == Clean(inst.userInputs) && Sequences.NoDuplicates(words)
    requires inst.dictionaries == Some(BuildDictionaries(e.frequencyLists, inst.userInputs))
    requires |p| <= inst.maxLength && after == SetPassword(inst, e, p).after
    ensures forall k :: 0 <= k < |words| ==> UserRank(after, words[k]) == Some(|words| + k + 1)
  {
    SetPasswordCache(inst, e, p);
    BuiltMergeShiftsUserRanks(e.frequencyLists, inst.userInputs, words);
    RanksAfterMerge(after, MergeUserInputs(inst.dictionaries.value, words).cache, words);
  }

  /** An accepted password leaves the cache as the user-input merge left it. */
  lemma SetPasswordCache(inst: Instance, e: Engine, p: string)
    requires Ready(inst) && |p| <= inst.maxLength
    ensures SetPassword(inst, e, p).after.dictionaries == Some(MergeUserInputs(inst.dictionaries.value, Clean(inst.userInputs)).cache)
  {
  }

  /** Reads the ranks of a cache off an instance holding it. */
  lemma RanksAfterMerge(after: Instance, cache: Dictionaries, words: seq<string>)
    requires after.dictionaries == Some(cache) && UserInputsKey in cache
    requires forall k :: 0 <= k < |words| ==> words[k] in cache[UserInputsKey] && cache[UserInputsKey][words[k]] == |words| + k + 1
    ensures forall k :: 0 <= k < |words| ==> UserRank(after, words[k]) == Some(|words| + k + 1)
  {
  }

  /** The rank a word has in the cached "user_inputs" dictionary, if any. */
  function UserRank(inst: Instance, w: string): Option<int> {
    if inst.dictionaries.Some? && UserInputsKey in inst.dictionaries.value && w in inst.dictionaries.value[UserInputsKey]
    then Some(inst.dictionaries.value[UserInputsKey][w])
    else None
  }
}
