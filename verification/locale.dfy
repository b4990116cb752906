/**
 The list of catalogue languages tried for a language code. The module-level
 `setup_translation` (zxcvbn/__init__.py:27-35) and the instance's
 `_setup_translation` (zxcvbn/zxcvbn_class.py:84-92) build it the same way:
 a code whose lower-cased form starts with "zh" falls back to "zh_CN" and then
 "zh", de-duplicated in order; any other code is tried on its own.
 */
module Locale {
  import opened Text
  import opened Sequences

  /** `lang.lower().startswith('zh')`. */
  predicate IsChinese(lang: string) {
    StartsWith(Lower(lang), "zh")
  }

  /** The candidate list before de-duplication. */
  function ChineseCandidates(lang: string): seq<string> {
    [lang, "zh_CN", "zh"]
  }

  /** The fallback chain handed to the catalogue lookup. */
  function FallbackChain(lang: string): (chain: seq<string>)
    ensures |chain| > 0 && chain[0] == lang
    ensures NoDuplicates(chain)
    ensures IsChinese(lang) ==> OrderedByFirstOccurrence(chain, ChineseCandidates(lang))
    ensures !IsChinese(lang) ==> chain == [lang]
  {
    if IsChinese(lang) then Dedup(ChineseCandidates(lang)) else [lang]
  }

  /** De-duplicating three candidates whose last two differ, written out case by case. */
  lemma DedupThree(a: string, b: string, c: string)
    requires b != c
    ensures a == b ==> Dedup([a, b, c]) == [b, c]
    ensures a == c ==> Dedup([a, b, c]) == [a, b]
    ensures a != b && a != c ==> Dedup([a, b, c]) == [a, b, c]
  {
    assert [a, b, c][..2] == [a, b];
    assert [a, b][..1] == [a];
    assert [a][..0] == [];
    assert Dedup([a]) == [a];
  }

  /** The chain of a Chinese code, written out: the code first, then whichever of "zh_CN" and "zh" it is not. */
  lemma ChineseChain(lang: string)
    requires IsChinese(lang)
    ensures lang == "zh_CN" ==> FallbackChain(lang) == ["zh_CN", "zh"]
    ensures lang == "zh" ==> FallbackChain(lang) == ["zh", "zh_CN"]
    ensures lang != "zh_CN" && lang != "zh" ==> FallbackChain(lang) == [lang, "zh_CN", "zh"]
    ensures "zh_CN" in FallbackChain(lang) && "zh" in FallbackChain(lang)
    ensures |FallbackChain(lang)| == (if lang == "zh_CN" || lang == "zh" then 2 else 3)
  {
    assert |"zh_CN"| != |"zh"|;
    DedupThree(lang, "zh_CN", "zh");
  }

  /** A code is Chinese exactly when its first two characters are 'z' and 'h' in either letter case. */
  lemma ChineseIff(lang: string)
    ensures IsChinese(lang) <==> |lang| >= 2 && LowerChar(lang[0]) == 'z' && LowerChar(lang[1]) == 'h'
  {
    if |lang| >= 2 {
      assert Lower(lang)[..2] == [LowerChar(lang[0]), LowerChar(lang[1])];
    }
  }
}
