/** The lexicon store: the Entry and Language collections held in memory,
    and the route handlers that read and change them. Each handler takes the
    caller's identity (and role, where it matters) and the current time as
    parameters. */
module Store {
  import opened Common
  import opened Text
  import opened EntrySchema
  import opened LanguageSchema
  import opened VoteLedger
  import opened TranslationMerge
  import opened EntryCreation
  import opened LanguageCatalog

  /** The references an entry holds resolve in the catalog, and it has at
      most one translation group per target language. */
  ghost predicate EntryLinked(e: Entry, ids: set<LanguageId>)
  {
    && e.language in ids
    && UniqueLanguages(e.translations)
    && forall j :: 0 <= j < |e.translations| ==> e.translations[j].language in ids
  }

  /** `document.save()` on the collection: replaces the document with the same
      id, or inserts it at the end when there is none. */
  function UpsertEntry(es: seq<Entry>, e: Entry): (r: seq<Entry>)
    ensures e in r
    ensures |r| == (if FindEntry(es, e.id).Some? then |es| else |es| + 1)
    ensures forall j :: 0 <= j < |es| && es[j].id != e.id ==> r[j] == es[j]
    ensures forall j :: 0 <= j < |es| ==> r[j].id == es[j].id
  {
    match FindEntry(es, e.id)
    case Some(k) => assert es[k := e][k] == e; es[k := e]
    case None => assert (es + [e])[|es|] == e; es + [e]
  }

  function UpsertLanguage(langs: seq<Language>, l: Language): (r: seq<Language>)
    ensures l in r
    ensures |r| == (if FindLanguage(langs, l.id).Some? then |langs| else |langs| + 1)
    ensures forall j :: 0 <= j < |langs| && langs[j].id != l.id ==> r[j] == langs[j]
    ensures forall j :: 0 <= j < |langs| ==> r[j].id == langs[j].id
  {
    match FindLanguage(langs, l.id)
    case Some(k) => assert langs[k := l][k] == l; langs[k := l]
    case None => assert (langs + [l])[|langs|] == l; langs + [l]
  }

  /** Reading back what was saved: the first document with the saved id is
      the saved one, and every document with another id keeps its place. */
  lemma UpsertEntryReadBack(es: seq<Entry>, e: Entry)
    ensures var after := UpsertEntry(es, e);
            && FindEntry(after, e.id).Some?
            && after[FindEntry(after, e.id).value] == e
  {
    var after := UpsertEntry(es, e);
    match FindEntry(es, e.id)
    case Some(k) =>
      assert after[k] == e;
      assert forall j :: 0 <= j < k ==> after[j].id != e.id;
    case None =>
      assert after[|es|] == e;
      assert forall j :: 0 <= j < |es| ==> after[j].id != e.id;
  }

  /** The same for a saved language. */
  lemma UpsertLanguageReadBack(langs: seq<Language>, l: Language)
    ensures var after := UpsertLanguage(langs, l);
            && FindLanguage(after, l.id).Some?
            && after[FindLanguage(after, l.id).value] == l
  {
    var after := UpsertLanguage(langs, l);
    match FindLanguage(langs, l.id)
    case Some(k) =>
      assert after[k] == l;
      assert forall j :: 0 <= j < k ==> after[j].id != l.id;
    case None =>
      assert after[|langs|] == l;
      assert forall j :: 0 <= j < |langs| ==> after[j].id != l.id;
  }

  /** Votes are not validated: replacing one definition's votes keeps an
      entry stored and linked. */
  lemma VotesKeepEntry(e: Entry, d: nat, v: Votes, ids: set<LanguageId>)
    requires d < |e.definitions| && EntryStored(e) && EntryLinked(e, ids)
    ensures var e' := e.(definitions := e.definitions[d := e.definitions[d].(votes := v)]);
            EntryStored(e') && EntryLinked(e', ids)
  {
    var ds := e.definitions[d := e.definitions[d].(votes := v)];
    assert forall i :: 0 <= i < |ds| ==> ds[i].meaning == e.definitions[i].meaning;
  }

  /** The pre-save hook touches only `lastUpdated`, which nothing validates. */
  lemma StampKeepsEntry(e: Entry, now: Time, ids: set<LanguageId>)
    requires EntryStored(e) && EntryLinked(e, ids)
    ensures EntryStored(e.(lastUpdated := now)) && EntryLinked(e.(lastUpdated := now), ids)
  {
  }

  /** The Entry collection as saves leave it: every document passed
      validation with its word trimmed, carries its own identifier handed out
      before `bound`, and is linked to the languages `ids`. */
  ghost predicate EntriesOk(es: seq<Entry>, ids: set<LanguageId>, bound: nat)
  {
    && (forall i :: 0 <= i < |es| ==> es[i].id < bound && EntryStored(es[i]) && EntryLinked(es[i], ids))
    && DistinctIds(es)
  }

  /** The Language collection as saves leave it: valid trimmed documents with
      distinct identifiers handed out before `bound`, and the unique indexes
      on name and code in force. */
  ghost predicate LanguagesOk(langs: seq<Language>, bound: nat)
  {
    && (forall i :: 0 <= i < |langs| ==> langs[i].id < bound && LanguageStored(langs[i]))
    && (forall i, j :: 0 <= i < j < |langs| ==> langs[i].id != langs[j].id)
    && UniqueNamesAndCodes(langs)
  }

  /** Saving an entry that passes validation keeps the collection well formed. */
  lemma UpsertEntryKeepsOk(es: seq<Entry>, ids: set<LanguageId>, bound: nat, e: Entry)
    requires EntriesOk(es, ids, bound)
    requires e.id < bound && EntryStored(e) && EntryLinked(e, ids)
    ensures EntriesOk(UpsertEntry(es, e), ids, bound)
  {
    var after := UpsertEntry(es, e);
    if FindEntry(es, e.id).None? {
      assert after == es + [e];
    }
  }

  /** More languages and a later bound keep an entry collection well formed. */
  lemma EntriesOkWiden(es: seq<Entry>, ids: set<LanguageId>, ids': set<LanguageId>, bound: nat, bound': nat)
    requires EntriesOk(es, ids, bound) && ids <= ids' && bound <= bound'
    ensures EntriesOk(es, ids', bound')
  {
    forall i | 0 <= i < |es| ensures EntryLinked(es[i], ids') {
      assert EntryLinked(es[i], ids);
    }
  }

  /** Rewriting the language at position `k` with a valid document of the
      same id that breaks no unique index keeps the collection well formed. */
  lemma ReplaceLanguageKeepsOk(langs: seq<Language>, bound: nat, k: nat, l: Language)
    requires LanguagesOk(langs, bound) && k < |langs| && langs[k].id == l.id
    requires l.id < bound && LanguageStored(l) && !ClashesWith(langs, l)
    ensures LanguagesOk(langs[k := l], bound)
  {
    var after := langs[k := l];
    forall i, j | 0 <= i < j < |after|
      ensures after[i].id != after[j].id
      ensures after[i].name != after[j].name && after[i].code != after[j].code
    {
      if i == k {
        assert langs[k].id != langs[j].id;
        assert !(langs[j].id != l.id && (langs[j].name == l.name || langs[j].code == l.code));
      } else if j == k {
        assert langs[i].id != langs[k].id;
        assert !(langs[i].id != l.id && (langs[i].name == l.name || langs[i].code == l.code));
      }
    }
  }

  /** Appending a valid document with a new id that breaks no unique index
      keeps the collection well formed. */
  lemma AppendLanguageKeepsOk(langs: seq<Language>, bound: nat, l: Language)
    requires LanguagesOk(langs, bound) && forall j :: 0 <= j < |langs| ==> langs[j].id != l.id
    requires l.id < bound && LanguageStored(l) && !ClashesWith(langs, l)
    ensures LanguagesOk(langs + [l], bound)
  {
    var after := langs + [l];
    forall i, j | 0 <= i < j < |after|
      ensures after[i].id != after[j].id
      ensures after[i].name != after[j].name && after[i].code != after[j].code
    {
      if j == |langs| {
        assert !(langs[i].id != l.id && (langs[i].name == l.name || langs[i].code == l.code));
      }
    }
  }

  /** Saving a valid language that breaks no unique index keeps the
      collection well formed, and loses no identifier. */
  lemma UpsertLanguageKeepsOk(langs: seq<Language>, bound: nat, l: Language)
    requires LanguagesOk(langs, bound)
    requires l.id < bound && LanguageStored(l) && !ClashesWith(langs, l)
    ensures LanguagesOk(UpsertLanguage(langs, l), bound)
    ensures LanguageIds(langs) <= LanguageIds(UpsertLanguage(langs, l))
  {
    match FindLanguage(langs, l.id)
    case Some(k) =>
      LanguageIdsUpdate(langs, k, l);
      ReplaceLanguageKeepsOk(langs, bound, k, l);
    case None =>
      LanguageIdsAppend(langs, l);
      AppendLanguageKeepsOk(langs, bound, l);
  }

  /** A document that keeps the name and code of the stored language with its
      id cannot break a unique index. */
  lemma SameKeysNoClash(langs: seq<Language>, bound: nat, k: nat, l: Language)
    requires LanguagesOk(langs, bound) && k < |langs|
    requires l.id == langs[k].id && l.name == langs[k].name && l.code == langs[k].code
    ensures !ClashesWith(langs, l)
  {
    forall j | 0 <= j < |langs| && langs[j].id != l.id
      ensures langs[j].name != l.name && langs[j].code != l.code
    {
      assert j != k;
    }
  }

  /** With distinct identifiers, looking up a stored language's id finds its own position. */
  lemma FindLanguageAt(langs: seq<Language>, bound: nat, k: nat)
    requires LanguagesOk(langs, bound) && k < |langs|
    ensures FindLanguage(langs, langs[k].id) == Some(k)
  {
  }

  /** Merging translations into a target language held in the catalog keeps
      the entry linked. */
  lemma MergeKeepsLinked(e: Entry, lang: LanguageId, words: seq<TranslatedWord>, ids: set<LanguageId>)
    requires EntryLinked(e, ids) && lang in ids
    ensures EntryLinked(e.(translations := Merge(e.translations, lang, words)), ids)
  {
    MergeKeepsUnique(e.translations, lang, words);
  }

  /** A later bound keeps a language collection well formed. */
  lemma LanguagesOkWiden(langs: seq<Language>, bound: nat, bound': nat)
    requires LanguagesOk(langs, bound) && bound <= bound'
    ensures LanguagesOk(langs, bound')
  {
  }

  class Store {
    /** The Entry collection, in store order. */
    var entries: seq<Entry>
    /** The Language collection, in store order. */
    var languages: seq<Language>
    /** Where fresh document identifiers start. */
    var nextId: nat

    /** What every save establishes and no handler breaks: see `EntriesOk`
        and `LanguagesOk`. */
    ghost predicate Valid()
      reads this
    {
      EntriesOk(entries, LanguageIds(languages), nextId) && LanguagesOk(languages, nextId)
    }

    constructor ()
      ensures Valid()
      ensures entries == [] && languages == []
    {
      entries := [];
      languages := [];
      nextId := 0;
    }

    /** `entry.save()`: validation, then the pre-save hook that sets
        `lastUpdated` to the current time, then the write. */
    method SaveEntry(doc: Entry, now: Time) returns (r: Result<Entry>)
      requires Valid()
      requires doc.id < nextId && IsTrimmed(doc.word) && EntryLinked(doc, LanguageIds(languages))
      modifies this
      ensures Valid()
      ensures languages == old(languages) && nextId == old(nextId)
      ensures !EntryValid(doc) ==> r == Err(Invalid) && entries == old(entries)
      ensures EntryValid(doc) ==>
                && r == Ok(doc.(lastUpdated := now))
                && entries == UpsertEntry(old(entries), r.value)
    {
      if !EntryValid(doc) {
        return Err(Invalid);
      }
      var saved := doc.(lastUpdated := now);
      ghost var ids := LanguageIds(languages);
      StampKeepsEntry(doc, now, ids);
      UpsertEntryKeepsOk(entries, ids, nextId, saved);
      var after := UpsertEntry(entries, saved);
      entries := after;
      r := Ok(saved);
      assert EntriesOk(entries, ids, nextId) && LanguagesOk(languages, nextId);
    }

    /** `language.save()`: validation, the unique indexes on name and code,
        then the pre-save hook and the write. */
    method SaveLanguage(doc: Language, now: Time) returns (r: Result<Language>)
      requires Valid()
      requires doc.id < nextId
      requires IsTrimmed(doc.name) && IsTrimmed(doc.code) && IsTrimmed(doc.nativeName)
      modifies this
      ensures Valid()
      ensures entries == old(entries) && nextId == old(nextId)
      ensures !LanguageValid(doc) ==> r == Err(Invalid) && languages == old(languages)
      ensures LanguageValid(doc) && ClashesWith(old(languages), doc) ==>
                r == Err(Duplicate) && languages == old(languages)
      ensures LanguageValid(doc) && !ClashesWith(old(languages), doc) ==>
                && r == Ok(doc.(lastUpdated := now))
                && languages == UpsertLanguage(old(languages), r.value)
    {
      if !LanguageValid(doc) {
        return Err(Invalid);
      }
      if ClashesWith(languages, doc) {
        return Err(Duplicate);
      }
      var saved := doc.(lastUpdated := now);
      UpsertLanguageKeepsOk(languages, nextId, saved);
      EntriesOkWiden(entries, LanguageIds(languages), LanguageIds(UpsertLanguage(languages, saved)), nextId, nextId);
      languages := UpsertLanguage(languages, saved);
      r := Ok(saved);
    }

    /** GET /:id: the stored entry, or NotFound. */
    function GetEntry(id: EntryId): (r: Result<Entry>)
      reads this
      ensures r.Ok? ==> r.value in entries && r.value.id == id
      ensures r.Err? ==> r.error == NotFound && forall j :: 0 <= j < |entries| ==> entries[j].id != id
    {
      match FindEntry(entries, id)
      case Some(k) => Ok(entries[k])
      case None => Err(NotFound)
    }

    /** GET /:code on the language routes: the stored language, or NotFound. */
    function GetLanguage(code: string): (r: Result<Language>)
      reads this
      ensures r.Ok? ==> r.value in languages && r.value.code == code
      ensures r.Err? ==> r.error == NotFound && forall j :: 0 <= j < |languages| ==> languages[j].code != code
    {
      match FindByCode(languages, code)
      case Some(k) => Ok(languages[k])
      case None => Err(NotFound)
    }

    /** POST /: resolve the language code, build the entry with the author as
        sole contributor, save it, then append its id to the language's
        `entries` and save the language as a second, separate write. */
    method CreateEntry(req: EntryRequest, user: UserId, now: Time) returns (r: Result<Entry>)
      requires Valid()
      modifies this
      ensures Valid()
      ensures FindByCode(old(languages), req.languageCode).None? ==>
                r == Err(NotFound) && entries == old(entries) && languages == old(languages)
      ensures FindByCode(old(languages), req.languageCode).Some? ==>
                var k := FindByCode(old(languages), req.languageCode).value;
                var lang := old(languages)[k];
                var e := NewEntry(old(nextId), req, lang.id, user, now);
                && (!EntryValid(e) ==>
                      r == Err(Invalid) && entries == old(entries) && languages == old(languages))
                && (EntryValid(e) ==>
                      && r == Ok(e)
                      && entries == old(entries) + [e]
                      && languages == old(languages)[k := lang.(entries := lang.entries + [e.id], lastUpdated := now)])
    {
      var found := FindByCode(languages, req.languageCode);
      if found.None? {
        return Err(NotFound);
      }
      var k := found.value;
      var language := languages[k];
      var id := nextId;
      EntriesOkWiden(entries, LanguageIds(languages), LanguageIds(languages), nextId, nextId + 1 + |req.definitions|);
      LanguagesOkWiden(languages, nextId, nextId + 1 + |req.definitions|);
      nextId := nextId + 1 + |req.definitions|;
      var entry := NewEntry(id, req, language.id, user, now);
      assert language.id in LanguageIds(languages);
      assert FindEntry(entries, id).None?;
      var saved := SaveEntry(entry, now);
      if saved.Err? {
        return saved;
      }
      assert saved.value == entry;
      // The language keeps its name and code, so this second save succeeds.
      var doc := language.(entries := language.entries + [id]);
      SameKeysNoClash(languages, nextId, k, doc);
      FindLanguageAt(languages, nextId, k);
      assert LanguageStored(languages[k]);
      var _ := SaveLanguage(doc, now);
      r := saved;
    }

    /** POST /:id/translations: find the entry, resolve the target language,
        stamp the words with the caller, append them to the first group for
        that language or push a new group, and save. */
    method AddTranslations(entryId: EntryId, languageCode: string, translations: seq<TranslationInput>,
                           user: UserId, now: Time) returns (r: Result<Entry>)
      requires Valid()
      modifies this
      ensures Valid()
      ensures languages == old(languages) && nextId == old(nextId)
      ensures FindEntry(old(entries), entryId).None? ==> r == Err(NotFound) && entries == old(entries)
      ensures FindEntry(old(entries), entryId).Some? && FindByCode(old(languages), languageCode).None? ==>
                r == Err(NotFound) && entries == old(entries)
      ensures FindEntry(old(entries), entryId).Some? && FindByCode(old(languages), languageCode).Some? ==>
                var k := FindEntry(old(entries), entryId).value;
                var e := old(entries)[k];
                var target := old(languages)[FindByCode(old(languages), languageCode).value].id;
                && r == Ok(e.(translations := Merge(e.translations, target, StampWords(translations, user)),
                              lastUpdated := now))
                && entries == old(entries)[k := r.value]
    {
      var found := FindEntry(entries, entryId);
      if found.None? {
        return Err(NotFound);
      }
      var k := found.value;
      var entry := entries[k];
      var resolved := FindByCode(languages, languageCode);
      if resolved.None? {
        return Err(NotFound);
      }
      var target := languages[resolved.value].id;
      var words := StampWords(translations, user);
      var groups := entry.translations;
      match FindGroup(groups, target) {
        case Some(g) => groups := groups[g := groups[g].(words := groups[g].words + words)];
        case None => groups := groups + [TranslationGroup(target, words)];
      }
      assert groups == Merge(entry.translations, target, words);
      assert target in LanguageIds(languages);
      MergeKeepsLinked(entry, target, words, LanguageIds(languages));
      entry := entry.(translations := groups);
      r := SaveEntry(entry, now);
    }

    /** POST /:id/definitions/:defId/vote: find the entry and the definition,
        toggle the caller's vote with push and pull on the two lists, and save. */
    method Vote(entryId: EntryId, defId: DefinitionId, vote: string, user: UserId, now: Time)
      returns (r: Result<Entry>)
      requires Valid()
      modifies this
      ensures Valid()
      ensures languages == old(languages) && nextId == old(nextId)
      ensures FindEntry(old(entries), entryId).None? ==> r == Err(NotFound) && entries == old(entries)
      ensures FindEntry(old(entries), entryId).Some? ==>
                var k := FindEntry(old(entries), entryId).value;
                var e := old(entries)[k];
                match FindDefinition(e.definitions, defId)
                case None => r == Err(NotFound) && entries == old(entries)
                case Some(d) =>
                  var ds := e.definitions;
                  && r == Ok(e.(definitions := ds[d := ds[d].(votes := Cast(ds[d].votes, user, vote))],
                                lastUpdated := now))
                  && entries == old(entries)[k := r.value]
    {
      var found := FindEntry(entries, entryId);
      if found.None? {
        return Err(NotFound);
      }
      var k := found.value;
      var entry := entries[k];
      var at := FindDefinition(entry.definitions, defId);
      if at.None? {
        return Err(NotFound);
      }
      var d := at.value;
      var definition := entry.definitions[d];
      var votes := ToggleVote(definition.votes, user, vote);
      VotesKeepEntry(entry, d, votes, LanguageIds(languages));
      entry := entry.(definitions := entry.definitions[d := definition.(votes := votes)]);
      r := SaveEntry(entry, now);
    }

    /** POST / on the language routes: admins only; the creator becomes the
        sole contributor; the save may fail validation or a unique index. */
    method CreateLanguage(role: Role, req: LanguageRequest, user: UserId, now: Time) returns (r: Result<Language>)
      requires Valid()
      modifies this
      ensures Valid()
      ensures entries == old(entries)
      ensures !Allowed(role, Action.CreateLanguage) ==> r == Err(Forbidden) && languages == old(languages)
      ensures Allowed(role, Action.CreateLanguage) ==>
                var l := NewLanguage(old(nextId), req, user, now);
                && (!LanguageValid(l) ==> r == Err(Invalid) && languages == old(languages))
                && (LanguageValid(l) && ClashesWith(old(languages), l) ==>
                      r == Err(Duplicate) && languages == old(languages))
                && (LanguageValid(l) && !ClashesWith(old(languages), l) ==>
                      r == Ok(l) && languages == old(languages) + [l])
    {
      if !Allowed(role, Action.CreateLanguage) {
        return Err(Forbidden);
      }
      var id := nextId;
      nextId := nextId + 1;
      var language := NewLanguage(id, req, user, now);
      assert FindLanguage(languages, id).None?;
      r := SaveLanguage(language, now);
    }

    /** PUT /:code: admins and moderators only; copies every key of the body
        except `_id` and `contributors` onto the loaded language, in key
        order, then saves. */
    method UpdateLanguage(role: Role, code: string, updates: seq<Update>, now: Time) returns (r: Result<Language>)
      requires Valid()
      modifies this
      ensures Valid()
      ensures entries == old(entries) && nextId == old(nextId)
      ensures !Allowed(role, Action.UpdateLanguage) ==> r == Err(Forbidden) && languages == old(languages)
      ensures Allowed(role, Action.UpdateLanguage) && FindByCode(old(languages), code).None? ==>
                r == Err(NotFound) && languages == old(languages)
      ensures Allowed(role, Action.UpdateLanguage) && FindByCode(old(languages), code).Some? ==>
                var k := FindByCode(old(languages), code).value;
                var doc := ApplyUpdates(old(languages)[k], updates);
                && (!LanguageValid(doc) ==> r == Err(Invalid) && languages == old(languages))
                && (LanguageValid(doc) && ClashesWith(old(languages), doc) ==>
                      r == Err(Duplicate) && languages == old(languages))
                && (LanguageValid(doc) && !ClashesWith(old(languages), doc) ==>
                      r == Ok(doc.(lastUpdated := now)) && languages == old(languages)[k := r.value])
    {
      if !Allowed(role, Action.UpdateLanguage) {
        return Err(Forbidden);
      }
      var found := FindByCode(languages, code);
      if found.None? {
        return Err(NotFound);
      }
      var k := found.value;
      var language := languages[k];
      for i := 0 to |updates|
        invariant language == ApplyUpdates(languages[k], updates[..i])
      {
        assert updates[..i + 1][..i] == updates[..i];
        if !Skipped(updates[i]) {
          language := Assign(language, updates[i]);
        }
      }
      assert updates[..|updates|] == updates;
      ApplyUpdatesKeepsTrimmed(languages[k], updates);
      FindLanguageAt(languages, nextId, k);
      r := SaveLanguage(language, now);
    }

    /** POST /:code/contributors: any caller; appended once, and the language
        saved only when the caller was not yet a contributor. */
    method AddContributor(code: string, user: UserId, now: Time) returns (r: Result<()>)
      requires Valid()
      modifies this
      ensures Valid()
      ensures entries == old(entries) && nextId == old(nextId)
      ensures FindByCode(old(languages), code).None? ==> r == Err(NotFound) && languages == old(languages)
      ensures FindByCode(old(languages), code).Some? ==>
                var k := FindByCode(old(languages), code).value;
                r == Ok(()) && languages == old(languages)[k := WithContributor(old(languages)[k], user, now)]
    {
      var found := FindByCode(languages, code);
      if found.None? {
        return Err(NotFound);
      }
      var k := found.value;
      var language := languages[k];
      if user !in language.contributors {
        var doc := language.(contributors := language.contributors + [user]);
        SameKeysNoClash(languages, nextId, k, doc);
        assert LanguageStored(languages[k]);
        FindLanguageAt(languages, nextId, k);
        // The document is valid and keeps its name and code, so this save succeeds.
        var _ := SaveLanguage(doc, now);
        r := Ok(());
      } else {
        r := Ok(());
      }
    }
  }
}
