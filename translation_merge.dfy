/** The translation merge of the add-translations handler: incoming words
    are stamped with their contributor and appended to the entry's group for
    the target language, or to a new group when the entry has none. */
module TranslationMerge {
  import opened Common
  import opened Seqs
  import opened EntrySchema

  /** One translated word as the request body supplies it. */
  datatype TranslationInput = TranslationInput(
    word: Option<string>,
    context: Option<string>,
    contributors: seq<UserId>)

  /** `translations.map(t => ({ ...t, contributors: [userId] }))`: every word
      keeps its text and context and has the caller as its sole contributor,
      whatever contributors the request claimed. */
  function StampWords(ts: seq<TranslationInput>, u: UserId): (r: seq<TranslatedWord>)
    ensures |r| == |ts|
    ensures forall i :: 0 <= i < |ts| ==>
              r[i].word == ts[i].word && r[i].context == ts[i].context && r[i].contributors == [u]
  {
    seq(|ts|, i requires 0 <= i < |ts| => TranslatedWord(ts[i].word, ts[i].context, [u]))
  }

  /** `translations.findIndex(t => t.language == lang)`. */
  function FindGroup(gs: seq<TranslationGroup>, lang: LanguageId): (r: Option<nat>)
    ensures r.Some? ==> r.value < |gs| && gs[r.value].language == lang
    ensures r.Some? ==> forall j :: 0 <= j < r.value ==> gs[j].language != lang
    ensures r.None? <==> forall j :: 0 <= j < |gs| ==> gs[j].language != lang
  {
    FirstIndex(gs, (g: TranslationGroup) => g.language == lang)
  }

  /** The merge: the words go to the end of the first group for `lang`, or
      into one new group appended after all others. Every group keeps its
      language and position, and groups of other languages are untouched. */
  function Merge(gs: seq<TranslationGroup>, lang: LanguageId, words: seq<TranslatedWord>): (r: seq<TranslationGroup>)
    ensures |r| == (if FindGroup(gs, lang).Some? then |gs| else |gs| + 1)
    ensures forall j :: 0 <= j < |gs| ==> r[j].language == gs[j].language
    ensures FindGroup(gs, lang).None? ==> r[|gs|] == TranslationGroup(lang, words)
    ensures forall j :: 0 <= j < |gs| && gs[j].language != lang ==> r[j] == gs[j]
  {
    match FindGroup(gs, lang)
    case Some(k) => gs[k := gs[k].(words := gs[k].words + words)]
    case None => gs + [TranslationGroup(lang, words)]
  }

  /** At most one group per target language. */
  ghost predicate UniqueLanguages(gs: seq<TranslationGroup>)
  {
    forall i, j :: 0 <= i < j < |gs| ==> gs[i].language != gs[j].language
  }

  /** Exactly one group for `lang`. */
  ghost predicate ExactlyOneGroup(gs: seq<TranslationGroup>, lang: LanguageId)
  {
    exists k :: 0 <= k < |gs| && gs[k].language == lang &&
      forall j :: 0 <= j < |gs| && gs[j].language == lang ==> j == k
  }

  /** The words an entry holds for `lang`: those of its first group for that language. */
  function WordsFor(gs: seq<TranslationGroup>, lang: LanguageId): seq<TranslatedWord>
  {
    match FindGroup(gs, lang)
    case Some(k) => gs[k].words
    case None => []
  }

  /** Two group lists with the same languages position by position find the same group. */
  lemma FindGroupAgrees(gs: seq<TranslationGroup>, hs: seq<TranslationGroup>, lang: LanguageId)
    requires |gs| == |hs|
    requires forall j :: 0 <= j < |gs| ==> gs[j].language == hs[j].language
    ensures FindGroup(gs, lang) == FindGroup(hs, lang)
  {
  }

  /** The group the words went into is the one later lookups find. */
  lemma FindGroupAfterMerge(gs: seq<TranslationGroup>, lang: LanguageId, words: seq<TranslatedWord>)
    ensures FindGroup(Merge(gs, lang, words), lang) ==
              if FindGroup(gs, lang).Some? then FindGroup(gs, lang) else Some(|gs|)
  {
    var r := Merge(gs, lang, words);
    if FindGroup(gs, lang).Some? {
      FindGroupAgrees(gs, r, lang);
    }
  }

  /** The words for the target language become the old words followed by the
      new ones, in order; every other language keeps its words. */
  lemma MergeAppendsWords(gs: seq<TranslationGroup>, lang: LanguageId, words: seq<TranslatedWord>, other: LanguageId)
    ensures WordsFor(Merge(gs, lang, words), lang) == WordsFor(gs, lang) + words
    ensures other != lang ==> WordsFor(Merge(gs, lang, words), other) == WordsFor(gs, other)
  {
    var r := Merge(gs, lang, words);
    FindGroupAfterMerge(gs, lang, words);
    if other != lang {
      if FindGroup(gs, lang).Some? {
        FindGroupAgrees(gs, r, other);
      } else {
        assert r == gs + [TranslationGroup(lang, words)];
        var a := FindGroup(gs, other);
        var b := FindGroup(r, other);
        if b.Some? && b.value < |gs| {
          assert a.Some? && a.value == b.value;
        }
      }
    }
  }

  /** The merge never creates a second group for a language. */
  lemma MergeKeepsUnique(gs: seq<TranslationGroup>, lang: LanguageId, words: seq<TranslatedWord>)
    requires UniqueLanguages(gs)
    ensures UniqueLanguages(Merge(gs, lang, words))
  {
  }

  /** After a merge into a list with at most one group per language, the
      target language has exactly one group. */
  lemma MergeLeavesOneGroup(gs: seq<TranslationGroup>, lang: LanguageId, words: seq<TranslatedWord>)
    requires UniqueLanguages(gs)
    ensures ExactlyOneGroup(Merge(gs, lang, words), lang)
  {
    var r := Merge(gs, lang, words);
    MergeKeepsUnique(gs, lang, words);
    FindGroupAfterMerge(gs, lang, words);
    var k := FindGroup(r, lang).value;
    forall j | 0 <= j < |r| && r[j].language == lang
      ensures j == k
    {
    }
  }

  /** Two submissions for a language the entry has no group for: one group,
      holding the first batch and then the second. */
  lemma TwoSubmissionsOneGroup(gs: seq<TranslationGroup>, lang: LanguageId, first: seq<TranslatedWord>, second: seq<TranslatedWord>)
    requires UniqueLanguages(gs)
    requires FindGroup(gs, lang).None?
    ensures ExactlyOneGroup(Merge(Merge(gs, lang, first), lang, second), lang)
    ensures WordsFor(Merge(Merge(gs, lang, first), lang, second), lang) == first + second
  {
    MergeAppendsWords(gs, lang, first, lang);
    MergeKeepsUnique(gs, lang, first);
    MergeAppendsWords(Merge(gs, lang, first), lang, second, lang);
    MergeLeavesOneGroup(Merge(gs, lang, first), lang, second);
  }

  /** The words of several submissions, one batch after another. */
  function Concat(bs: seq<seq<TranslatedWord>>): seq<TranslatedWord>
    decreases |bs|
  {
    if bs == [] then [] else Concat(bs[..|bs| - 1]) + bs[|bs| - 1]
  }

  /** The groups after the batches `bs` were submitted for `lang`, one
      request after another. */
  function MergeAll(gs: seq<TranslationGroup>, lang: LanguageId, bs: seq<seq<TranslatedWord>>): seq<TranslationGroup>
    decreases |bs|
  {
    if bs == [] then gs else Merge(MergeAll(gs, lang, bs[..|bs| - 1]), lang, bs[|bs| - 1])
  }

  /** Any number of submissions for one target language: its words are its
      old words followed by every batch, in submission order. */
  lemma {:induction false} MergeAllAppends(gs: seq<TranslationGroup>, lang: LanguageId, bs: seq<seq<TranslatedWord>>)
    ensures WordsFor(MergeAll(gs, lang, bs), lang) == WordsFor(gs, lang) + Concat(bs)
    decreases |bs|
  {
    if bs == [] {
      assert WordsFor(gs, lang) + Concat(bs) == WordsFor(gs, lang);
    } else {
      var init, last := bs[..|bs| - 1], bs[|bs| - 1];
      var prev := MergeAll(gs, lang, init);
      var w := WordsFor(gs, lang);
      MergeAllAppends(gs, lang, init);
      MergeAppendsWords(prev, lang, last, lang);
      calc {
        WordsFor(MergeAll(gs, lang, bs), lang);
        WordsFor(Merge(prev, lang, last), lang);
        WordsFor(prev, lang) + last;
        (w + Concat(init)) + last;
        w + (Concat(init) + last);
        w + Concat(bs);
      }
    }
  }

  /** Any number of submissions keeps at most one group per language. */
  lemma {:induction false} MergeAllKeepsUnique(gs: seq<TranslationGroup>, lang: LanguageId, bs: seq<seq<TranslatedWord>>)
    requires UniqueLanguages(gs)
    ensures UniqueLanguages(MergeAll(gs, lang, bs))
    decreases |bs|
  {
    if bs != [] {
      MergeAllKeepsUnique(gs, lang, bs[..|bs| - 1]);
      MergeKeepsUnique(MergeAll(gs, lang, bs[..|bs| - 1]), lang, bs[|bs| - 1]);
    }
  }

  /** Submissions for one target language leave every other language's words alone. */
  lemma {:induction false} MergeAllKeepsOthers(gs: seq<TranslationGroup>, lang: LanguageId,
                                              bs: seq<seq<TranslatedWord>>, other: LanguageId)
    requires other != lang
    ensures WordsFor(MergeAll(gs, lang, bs), other) == WordsFor(gs, other)
    decreases |bs|
  {
    if bs != [] {
      MergeAllKeepsOthers(gs, lang, bs[..|bs| - 1], other);
      MergeAppendsWords(MergeAll(gs, lang, bs[..|bs| - 1]), lang, bs[|bs| - 1], other);
    }
  }

  /** After at least one submission the target language has exactly one group. */
  lemma MergeAllOneGroup(gs: seq<TranslationGroup>, lang: LanguageId, bs: seq<seq<TranslatedWord>>)
    requires UniqueLanguages(gs) && bs != []
    ensures ExactlyOneGroup(MergeAll(gs, lang, bs), lang)
  {
    MergeAllKeepsUnique(gs, lang, bs[..|bs| - 1]);
    MergeLeavesOneGroup(MergeAll(gs, lang, bs[..|bs| - 1]), lang, bs[|bs| - 1]);
  }
}
