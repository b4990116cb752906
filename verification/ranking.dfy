/**
 Ranked dictionaries: each word list becomes a map from word to its 1-based
 position (zxcvbn/zxcvbn_class.py:52-73), and the cleaned user inputs of an
 evaluation are merged into the "user_inputs" dictionary before matching
 (zxcvbn/zxcvbn_class.py:166-175).

 The merge works on a shallow copy of the cached dictionaries, so when the
 cache already holds a "user_inputs" map, that very map is updated in place.
 `Merged.cache` is the cache as it stands after the merge.
 */
module Ranking {
  import opened Sequences
  import opened Inputs

  /** One ranked dictionary: word to rank, 1 for the most common word. */
  type Ranked = map<string, int>

  /** All ranked dictionaries by name. */
  type Dictionaries = map<string, Ranked>

  /** The name under which the caller's words are ranked. */
  const UserInputsKey: string := "user_inputs"

  /** `m` ranks exactly the words of `words`, each at its last position counted from `start`. */
  predicate RanksByLastPosition(m: Ranked, words: seq<string>, start: int) {
    && (forall w :: w in m ==> w in words)
    && (forall w :: w in words ==> w in m)
    && forall w :: w in m ==> IsLastIndex(words, w, m[w] - start)
  }

  /** Appending a word to a ranked list adds it at the next rank and leaves every other last position alone. */
  lemma ExtendRanks(init: seq<string>, last: string, start: int, m0: Ranked)
    requires RanksByLastPosition(m0, init, start)
    ensures RanksByLastPosition(m0[last := start + |init|], init + [last], start)
  {
    var words := init + [last];
    var m := m0[last := start + |init|];
    forall w | w in m
      ensures w in words && IsLastIndex(words, w, m[w] - start)
    {
      if w != last {
        assert IsLastIndex(init, w, m0[w] - start);
      }
    }
    forall w | w in words
      ensures w in m
    {
      if w != last {
        var k :| 0 <= k < |words| && words[k] == w;
        assert init[k] == w;
      }
    }
  }

  /** `{word: idx for idx, word in enumerate(words, start)}`: later positions overwrite earlier ones. */
  function RankMap(words: seq<string>, start: int): Ranked
    decreases |words|
  {
    if |words| == 0 then map[]
    else RankMap(words[..|words| - 1], start)[words[|words| - 1] := start + |words| - 1]
  }

  /** The comprehension ranks exactly the listed words, each by its last 0-based position plus `start`. */
  lemma {:induction false} RankMapSpec(words: seq<string>, start: int)
    ensures RanksByLastPosition(RankMap(words, start), words, start)
    decreases |words|
  {
    if |words| > 0 {
      var init := words[..|words| - 1];
      var last := words[|words| - 1];
      RankMapSpec(init, start);
      ExtendRanks(init, last, start, RankMap(init, start));
      assert RankMap(words, start) == RankMap(init, start)[last := start + |init|];
      assert words == init + [last];
    }
  }

  /** Ranks lie in `[start, start + |words|)` and no two words share one. */
  lemma RankMapRange(words: seq<string>, start: int)
    ensures forall w :: w in RankMap(words, start) ==> start <= RankMap(words, start)[w] < start + |words|
    ensures forall v, w :: v in RankMap(words, start) && w in RankMap(words, start) && v != w ==>
      RankMap(words, start)[v] != RankMap(words, start)[w]
  {
    RankMapSpec(words, start);
    var m := RankMap(words, start);
    forall w | w in m
      ensures start <= m[w] < start + |words|
    {
      assert IsLastIndex(words, w, m[w] - start);
    }
    forall v, w | v in m && w in m && v != w
      ensures m[v] != m[w]
    {
      assert IsLastIndex(words, v, m[v] - start);
      assert IsLastIndex(words, w, m[w] - start);
    }
  }

  /** Without repeated words, the k-th word has rank `start + k` and every word gets its own entry. */
  lemma RankMapDistinct(words: seq<string>, start: int)
    requires NoDuplicates(words)
    ensures forall k :: 0 <= k < |words| ==> words[k] in RankMap(words, start) && RankMap(words, start)[words[k]] == start + k
    ensures |RankMap(words, start)| == |words|
  {
    RankMapSpec(words, start);
    var m := RankMap(words, start);
    forall k | 0 <= k < |words|
      ensures words[k] in m && m[words[k]] == start + k
    {
      assert words[k] in words;
      assert IsLastIndex(words, words[k], m[words[k]] - start);
    }
    RankMapSize(words, start);
    NoDuplicatesCardinality(words);
  }

  /** A ranked map has one entry per distinct word. */
  lemma RankMapSize(words: seq<string>, start: int)
    ensures RankMap(words, start).Keys == Elements(words)
    ensures |RankMap(words, start)| == |Elements(words)|
  {
    RankMapSpec(words, start);
    var m := RankMap(words, start);
    assert forall w :: w in m.Keys ==> w in Elements(words);
    assert forall w :: w in Elements(words) ==> w in m.Keys;
    assert m.Keys == Elements(words);
  }

  /** The dictionaries `_load_dictionaries` builds from the frequency lists and the instance's user inputs. */
  function BuildDictionaries(lists: map<string, seq<string>>, inputs: seq<Input>): (d: Dictionaries)
    ensures d.Keys == lists.Keys + (if |inputs| > 0 then {UserInputsKey} else {})
    ensures UserInputsKey !in lists ==> (UserInputsKey in d <==> |inputs| > 0)
  {
    var ranked := map name | name in lists :: RankMap(lists[name], 1);
    if |inputs| > 0 then ranked[UserInputsKey := RankMap(Clean(inputs), 1)] else ranked
  }

  /** Every frequency list is ranked by 1-based last position, and so are the cleaned user inputs when there are any. */
  lemma BuildDictionariesRanks(lists: map<string, seq<string>>, inputs: seq<Input>)
    ensures forall name :: name in lists && name != UserInputsKey ==>
      RanksByLastPosition(BuildDictionaries(lists, inputs)[name], lists[name], 1)
    ensures |inputs| > 0 ==> RanksByLastPosition(BuildDictionaries(lists, inputs)[UserInputsKey], Clean(inputs), 1)
  {
    forall name | name in lists && name != UserInputsKey {
      RankMapSpec(lists[name], 1);
    }
    RankMapSpec(Clean(inputs), 1);
  }

  /** The user-input dictionary of a fresh build is the ranking of the cleaned inputs from 1. */
  lemma BuildDictionariesUserEntry(lists: map<string, seq<string>>, inputs: seq<Input>)
    requires |inputs| > 0
    ensures UserInputsKey in BuildDictionaries(lists, inputs)
    ensures BuildDictionaries(lists, inputs)[UserInputsKey] == RankMap(Clean(inputs), 1)
  {
  }

  /** The "user_inputs" map the merge starts from: the cached one, or a new empty one. */
  function ExistingUserRanks(cache: Dictionaries): Ranked {
    if UserInputsKey in cache then cache[UserInputsKey] else map[]
  }

  /** `m` is `existing` updated with `words` ranked from `|existing| + 1` on. */
  predicate MergedRanks(m: Ranked, existing: Ranked, words: seq<string>) {
    && m.Keys == existing.Keys + Elements(words)
    && (forall w :: w in words ==> IsLastIndex(words, w, m[w] - |existing| - 1))
    && forall w :: w in existing && w !in words ==> m[w] == existing[w]
  }

  /** The dictionaries the matchers receive, and the cache as the in-place update leaves it. */
  datatype Merged = Merged(effective: Dictionaries, cache: Dictionaries)

  /** `existing_user_inputs.update(new_user_inputs)`: the words ranked from `|existing| + 1`, laid over the existing map. */
  function MergedUserMap(cache: Dictionaries, words: seq<string>): Ranked {
    ExistingUserRanks(cache) + RankMap(words, |ExistingUserRanks(cache)| + 1)
  }

  /** The user-input merge of `_omnimatch`. */
  function MergeUserInputs(cache: Dictionaries, words: seq<string>): (r: Merged)
    ensures |words| == 0 ==> r.effective == cache && r.cache == cache
    ensures |words| > 0 ==> UserInputsKey in r.effective && r.effective == cache[UserInputsKey := r.effective[UserInputsKey]]
    ensures UserInputsKey in cache ==> r.cache == r.effective
    ensures UserInputsKey !in cache ==> r.cache == cache
  {
    if |words| == 0 then Merged(cache, cache)
    else
      var effective := cache[UserInputsKey := MergedUserMap(cache, words)];
      Merged(effective, if UserInputsKey in cache then effective else cache)
  }

  /** The matchers see every cached dictionary, with only "user_inputs" replaced. */
  lemma MergeKeepsOtherDictionaries(cache: Dictionaries, words: seq<string>)
    ensures |words| > 0 ==> MergeUserInputs(cache, words).effective.Keys == cache.Keys + {UserInputsKey}
    ensures forall name :: name in cache && name != UserInputsKey ==>
      name in MergeUserInputs(cache, words).effective && MergeUserInputs(cache, words).effective[name] == cache[name]
  {
    var r := MergeUserInputs(cache, words);
    if |words| > 0 {
      assert r.effective.Keys == cache.Keys + {UserInputsKey};
    }
  }

  /** The merged "user_inputs" map keeps every existing word, adds every new one, ranks the new ones
      after the existing count, and leaves the ranks of the untouched words alone. */
  lemma MergeUserRanks(cache: Dictionaries, words: seq<string>)
    requires |words| > 0
    ensures MergedRanks(MergeUserInputs(cache, words).effective[UserInputsKey], ExistingUserRanks(cache), words)
  {
    var existing := ExistingUserRanks(cache);
    RankMapSize(words, |existing| + 1);
    RankMapSpec(words, |existing| + 1);
    UnionRanks(existing, RankMap(words, |existing| + 1), words);
  }

  /** Laying a ranking of `words` from `|existing| + 1` over `existing` gives `MergedRanks`. */
  lemma UnionRanks(existing: Ranked, added: Ranked, words: seq<string>)
    requires added.Keys == Elements(words) && RanksByLastPosition(added, words, |existing| + 1)
    ensures MergedRanks(existing + added, existing, words)
  {
    var m := existing + added;
    forall w | w in words
      ensures IsLastIndex(words, w, m[w] - |existing| - 1)
    {
      assert m[w] == added[w];
    }
  }

  /** Without repeats, the k-th new word gets rank `|existing| + k + 1`. */
  lemma MergeRanksNewWords(cache: Dictionaries, words: seq<string>)
    requires |words| > 0 && NoDuplicates(words)
    ensures forall k :: 0 <= k < |words| ==>
      words[k] in MergeUserInputs(cache, words).effective[UserInputsKey] &&
      MergeUserInputs(cache, words).effective[UserInputsKey][words[k]] == |ExistingUserRanks(cache)| + k + 1
  {
    var existing := ExistingUserRanks(cache);
    RankMapDistinct(words, |existing| + 1);
    var m := MergeUserInputs(cache, words).effective[UserInputsKey];
    assert m == existing + RankMap(words, |existing| + 1);
  }

  /** When the cached map ranks exactly the current words, one merge turns it into the ranking from
      `|distinct words| + 1`, and a further merge changes nothing: the cache settles after one evaluation. */
  lemma MergeSettles(cache: Dictionaries, words: seq<string>)
    requires |words| > 0
    requires UserInputsKey in cache && cache[UserInputsKey].Keys == Elements(words)
    ensures MergeUserInputs(cache, words).cache[UserInputsKey] == RankMap(words, |Elements(words)| + 1)
    ensures MergeUserInputs(MergeUserInputs(cache, words).cache, words).cache == MergeUserInputs(cache, words).cache
  {
    var n := |Elements(words)|;
    var existing := cache[UserInputsKey];
    assert |existing| == n by {
      assert |existing| == |existing.Keys|;
    }
    var shifted := RankMap(words, n + 1);
    RankMapSize(words, n + 1);
    assert existing + shifted == shifted;
    var once := MergeUserInputs(cache, words).cache;
    assert once[UserInputsKey] == shifted;
    assert ExistingUserRanks(once) == shifted;
    assert shifted + shifted == shifted;
    assert once[UserInputsKey := shifted] == once;
  }

  /** When there are words, the cached "user_inputs" map holds exactly them. */
  predicate UserCacheInStep(cache: Dictionaries, words: seq<string>) {
    |words| > 0 ==> UserInputsKey in cache && cache[UserInputsKey].Keys == Elements(words)
  }

  /** The dictionaries built from the inputs start in step with their cleaned words. */
  lemma BuiltInStep(lists: map<string, seq<string>>, inputs: seq<Input>, words: seq<string>)
    requires words == Clean(inputs)
    ensures UserCacheInStep(BuildDictionaries(lists, inputs), words)
  {
    if |inputs| > 0 {
      BuildDictionariesUserEntry(lists, inputs);
      RankMapSize(words, 1);
    }
  }

  /** A merge of the same words keeps the cache in step. */
  lemma MergeKeepsInStep(cache: Dictionaries, words: seq<string>)
    requires UserCacheInStep(cache, words)
    ensures UserCacheInStep(MergeUserInputs(cache, words).cache, words)
  {
    if |words| > 0 {
      MergeSettles(cache, words);
      RankMapSize(words, |Elements(words)| + 1);
    }
  }

  /** The in-place update cannot be seen by the matchers: on a cache in step with the words, the
      dictionaries of a later merge equal those of the first one. */
  lemma MergeUnobservable(cache: Dictionaries, words: seq<string>)
    requires UserCacheInStep(cache, words)
    ensures MergeUserInputs(MergeUserInputs(cache, words).cache, words).effective == MergeUserInputs(cache, words).effective
  {
    if |words| > 0 {
      MergeSettles(cache, words);
    }
  }

  /** The in-place update seen on a freshly loaded cache: the k-th user word, ranked `k + 1` when
      loaded, is ranked `|words| + k + 1` in the cache once an evaluation has merged the same words. */
  lemma FirstMergeShiftsUserRanks(cache: Dictionaries, words: seq<string>)
    requires |words| > 0 && NoDuplicates(words)
    requires UserInputsKey in cache && cache[UserInputsKey] == RankMap(words, 1)
    ensures forall k :: 0 <= k < |words| ==>
      words[k] in cache[UserInputsKey] && cache[UserInputsKey][words[k]] == k + 1
    ensures forall k :: 0 <= k < |words| ==>
      words[k] in MergeUserInputs(cache, words).cache[UserInputsKey] &&
      MergeUserInputs(cache, words).cache[UserInputsKey][words[k]] == |words| + k + 1
  {
    RankMapDistinct(words, 1);
    RankMapSize(words, 1);
    NoDuplicatesCardinality(words);
    MergeSettles(cache, words);
    RankMapDistinct(words, |words| + 1);
  }

  /** `FirstMergeShiftsUserRanks` on the dictionaries `_load_dictionaries` builds from distinct cleaned inputs. */
  lemma BuiltMergeShiftsUserRanks(lists: map<string, seq<string>>, inputs: seq<Input>, words: seq<string>)
    requires |inputs| > 0 && words == Clean(inputs) && NoDuplicates(words)
    ensures UserInputsKey in MergeUserInputs(BuildDictionaries(lists, inputs), words).cache
    ensures forall k :: 0 <= k < |words| ==>
      words[k] in MergeUserInputs(BuildDictionaries(lists, inputs), words).cache[UserInputsKey] &&
      MergeUserInputs(BuildDictionaries(lists, inputs), words).cache[UserInputsKey][words[k]] == |words| + k + 1
  {
    BuildDictionariesUserEntry(lists, inputs);
    FirstMergeShiftsUserRanks(BuildDictionaries(lists, inputs), words);
  }
}
