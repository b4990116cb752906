/**
 The module-level entry point `zxcvbn(password, user_inputs=None, max_length=72, lang='en')`
 and its `setup_translation` (zxcvbn/__init__.py:8-100). The process-wide state is the
 last language code set up and the translation installed for it; a call with the
 language set up last skips the catalogue lookup.
 */
module Entry {
  import opened Outcomes
  import opened Inputs
  import opened Locale
  import opened Engine
  import Instance

  /** The default `max_length` of the entry point and of the instance constructor. */
  const DefaultMaxLength: int := 72

  /** The default language code. */
  const DefaultLang: string := "en"

  /** `_LAST_LANG_CODE_SETUP` and the installed translation. Before any setup no catalogue has been looked up. */
  datatype Globals = Globals(lastLangCode: Option<string>, installed: Translation)

  /** The state at import time. */
  const Initial: Globals := Globals(None, Translation([]))

  /** The installed translation is the one looked up for the last language code set up. */
  predicate Consistent(g: Globals) {
    g.lastLangCode.Some? ==> g.installed == Translation(FallbackChain(g.lastLangCode.value))
  }

  /** `setup_translation(lang_code)`: does nothing for the language set up last; otherwise installs the
      translation looked up with the code's fallback chain and records the code. */
  function SetupTranslation(g: Globals, code: string): (r: Globals)
    ensures r.lastLangCode == Some(code)
    ensures g.lastLangCode == Some(code) ==> r == g
    ensures g.lastLangCode != Some(code) ==> r.installed == Translation(FallbackChain(code))
    ensures Consistent(g) ==> Consistent(r)
  {
    if g.lastLangCode == Some(code) then g
    else Globals(Some(code), Translation(FallbackChain(code)))
  }

  /** In a consistent state, setting a language up always leaves its own chain installed, whether or not
      the lookup was skipped, and a second setup of the same language changes nothing. */
  lemma SetupTranslationInstalls(g: Globals, code: string)
    requires Consistent(g)
    ensures SetupTranslation(g, code).installed == Translation(FallbackChain(code))
    ensures SetupTranslation(SetupTranslation(g, code), code) == SetupTranslation(g, code)
  {
  }

  /** The answer of one call and the process-wide state after it. */
  datatype Call = Call(reply: Result<Report>, globals: Globals)

  /** `zxcvbn(...)`: too long a password raises before anything else; otherwise the language is set up,
      the inputs (none meaning no inputs) are cleaned, matched against and the matches assessed
      under the installed translation. */
  function Zxcvbn(g: Globals, e: Engine, password: string, userInputs: Option<seq<Input>>, maxLength: int, lang: string): (r: Call)
    ensures r.reply.Err? <==> |password| > maxLength
    ensures r.reply.Err? ==> r.globals == g && r.reply.error == LengthExceeded(maxLength)
    ensures r.reply.Ok? ==> r.globals == SetupTranslation(g, lang)
    ensures r.reply.Ok? ==>
      r.reply.value == e.assess(password, e.omnimatch(password, Clean(OrEmpty(userInputs))), r.globals.installed)
  {
    if |password| > maxLength then Call(Err(LengthExceeded(maxLength)), g)
    else
      var g' := SetupTranslation(g, lang);
      var words := Clean(OrEmpty(userInputs));
      Call(Ok(e.assess(password, e.omnimatch(password, words), g'.installed)), g')
  }

  /** From a consistent state, an accepted call is assessed under the requested language's chain. */
  lemma ZxcvbnUsesLanguageChain(g: Globals, e: Engine, password: string, userInputs: Option<seq<Input>>, maxLength: int, lang: string)
    requires Consistent(g) && |password| <= maxLength
    ensures Zxcvbn(g, e, password, userInputs, maxLength, lang).reply ==
      Ok(e.assess(password, e.omnimatch(password, Clean(OrEmpty(userInputs))), Translation(FallbackChain(lang))))
    ensures Consistent(Zxcvbn(g, e, password, userInputs, maxLength, lang).globals)
  {
    SetupTranslationInstalls(g, lang);
  }

  /** Passing no inputs is the same as passing an empty list. */
  lemma NoInputsAsEmpty(g: Globals, e: Engine, password: string, maxLength: int, lang: string)
    ensures Zxcvbn(g, e, password, None, maxLength, lang) == Zxcvbn(g, e, password, Some([]), maxLength, lang)
  {
  }

  /** The English code is not Chinese, so its chain is the code alone. */
  lemma DefaultLangChain()
    ensures FallbackChain(DefaultLang) == [DefaultLang]
  {
    ChineseIff(DefaultLang);
  }

  /** `zxcvbn(password)` with every default: passwords over 72 characters raise; any other is matched
      with no user inputs and assessed under the English catalogue alone. */
  lemma DefaultCall(g: Globals, e: Engine, password: string)
    requires Consistent(g)
    ensures Zxcvbn(g, e, password, None, DefaultMaxLength, DefaultLang).reply.Err? <==> |password| > 72
    ensures |password| <= 72 ==>
      Zxcvbn(g, e, password, None, DefaultMaxLength, DefaultLang).reply == Ok(e.assess(password, e.omnimatch(password, []), Translation(["en"])))
  {
    DefaultLangChain();
    if |password| <= 72 {
      ZxcvbnUsesLanguageChain(g, e, password, None, DefaultMaxLength, DefaultLang);
    }
  }

  /** `ZxcvbnInstance()` with every default: English, no inputs, at most 72 characters, and only the
      English catalogue looked up. */
  lemma DefaultInstance(e: Engine)
    ensures Instance.Create(e, DefaultLang, None, DefaultMaxLength).lang == "en"
    ensures Instance.Create(e, DefaultLang, None, DefaultMaxLength).userInputs == []
    ensures Instance.Create(e, DefaultLang, None, DefaultMaxLength).maxLength == 72
    ensures Instance.Create(e, DefaultLang, None, DefaultMaxLength).translation == Some(Translation(["en"]))
  {
    DefaultLangChain();
  }

  /** One call of the entry point: the password, the inputs, the maximum length and the language. */
  datatype Request = Request(password: string, userInputs: Option<seq<Input>>, maxLength: int, lang: string)

  /** The process-wide state after a series of calls, in order. */
  function Run(g: Globals, e: Engine, calls: seq<Request>): (r: Globals)
    decreases |calls|
  {
    if |calls| == 0 then g
    else
      var c := calls[0];
      Run(Zxcvbn(g, e, c.password, c.userInputs, c.maxLength, c.lang).globals, e, calls[1..])
  }

  /** Every state reachable from import time keeps the installed translation in step with the last
      language code, so the skipped lookup never leaves a stale translation behind. */
  lemma {:induction false} RunConsistent(g: Globals, e: Engine, calls: seq<Request>)
    requires Consistent(g)
    ensures Consistent(Run(g, e, calls))
    decreases |calls|
  {
    if |calls| > 0 {
      var c := calls[0];
      var g' := Zxcvbn(g, e, c.password, c.userInputs, c.maxLength, c.lang).globals;
      assert Consistent(g');
      RunConsistent(g', e, calls[1..]);
    }
  }

  /** The initial state is consistent, so every reachable state is. */
  lemma InitialConsistent(e: Engine, calls: seq<Request>)
    ensures Consistent(Run(Initial, e, calls))
  {
    RunConsistent(Initial, e, calls);
  }
}
