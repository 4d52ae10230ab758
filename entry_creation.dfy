/** How the create-entry handler builds a new Entry document from the
    request body: the author becomes the sole contributor of every definition
    and of the etymology, and the schema defaults fill the rest. */
module EntryCreation {
  import opened Common
  import opened Text
  import opened EntrySchema

  /** One definition as the request body supplies it. The spread `...def`
      keeps every field the schema knows except `contributors`, which the
      handler overwrites; supplied vote lists are kept (absent ones are empty). */
  datatype DefinitionInput = DefinitionInput(
    meaning: string,
    examples: seq<string>,
    context: Option<string>,
    dialectOrRegion: Option<string>,
    contributors: seq<UserId>,
    votes: Votes)

  datatype EtymologyInput = EtymologyInput(
    origin: Option<string>,
    history: Option<string>,
    contributors: seq<UserId>)

  /** The fields of the request body the handler reads. A missing `word` or
      `partOfSpeech` is the empty string here: the `required` validator
      rejects both alike. */
  datatype EntryRequest = EntryRequest(
    word: string,
    languageCode: string,
    partOfSpeech: string,
    definitions: seq<DefinitionInput>,
    etymology: Option<EtymologyInput>)

  /** `definitions.map(def => ({ ...def, contributors: [userId] }))`, each
      sub-document receiving a fresh identifier. */
  function StampDefinitions(defs: seq<DefinitionInput>, u: UserId, firstId: DefinitionId): (r: seq<Definition>)
    ensures |r| == |defs|
    ensures forall i :: 0 <= i < |defs| ==>
              && r[i].id == firstId + i
              && r[i].contributors == [u]
              && r[i].meaning == defs[i].meaning
              && r[i].examples == defs[i].examples
              && r[i].context == defs[i].context
              && r[i].dialectOrRegion == defs[i].dialectOrRegion
              && r[i].votes == defs[i].votes
  {
    seq(|defs|, i requires 0 <= i < |defs| =>
      Definition(firstId + i, defs[i].meaning, defs[i].examples, defs[i].context,
                 defs[i].dialectOrRegion, [u], defs[i].votes))
  }

  /** `etymology ? { ...etymology, contributors: [userId] } : undefined`. */
  function StampEtymology(ety: Option<EtymologyInput>, u: UserId): (r: Option<Etymology>)
    ensures r.Some? <==> ety.Some?
    ensures r.Some? ==> r.value == Etymology(ety.value.origin, ety.value.history, [u])
  {
    match ety
    case None => None
    case Some(x) => Some(Etymology(x.origin, x.history, [u]))
  }

  /** The new document: `word` through the trim setter, the resolved language,
      no translations, status and both timestamps from the schema defaults.
      The author is the creator and the sole contributor of every definition
      and of the etymology. The definition sub-documents take the identifiers
      that follow `id`. */
  function NewEntry(id: EntryId, req: EntryRequest, language: LanguageId, u: UserId, now: Time): (e: Entry)
    ensures e.id == id && e.word == Trim(req.word)
    ensures e.language == language && e.partOfSpeech == req.partOfSpeech && e.createdBy == u
    ensures e.definitions == StampDefinitions(req.definitions, u, id + 1)
    ensures e.etymology == StampEtymology(req.etymology, u)
    ensures ParseEntryStatus(e.status) == Some(Pending)
    ensures e.translations == []
    ensures e.createdAt == now && e.lastUpdated == now
  {
    Entry(id, Trim(req.word), language, req.partOfSpeech,
          StampDefinitions(req.definitions, u, id + 1), [],
          StampEtymology(req.etymology, u), DefaultEntryStatus, u, now, now)
  }

  /** Saving the new entry succeeds exactly when the word keeps a
      non-whitespace character, the part of speech is one of the nine, and
      every definition has a meaning. */
  lemma NewEntryValidIff(id: EntryId, req: EntryRequest, language: LanguageId, u: UserId, now: Time)
    ensures EntryValid(NewEntry(id, req, language, u, now)) <==>
              && (exists i :: 0 <= i < |req.word| && !IsSpace(req.word[i]))
              && req.partOfSpeech in PartOfSpeechValues
              && forall i :: 0 <= i < |req.definitions| ==> |req.definitions[i].meaning| > 0
  {
    var e := NewEntry(id, req, language, u, now);
    assert |e.word| > 0 <==> exists i :: 0 <= i < |req.word| && !IsSpace(req.word[i]) by {
      TrimEmptyIff(req.word);
    }
    assert e.status in EntryStatusValues;
    assert (forall i :: 0 <= i < |e.definitions| ==> |e.definitions[i].meaning| > 0)
       <==> (forall i :: 0 <= i < |req.definitions| ==> |req.definitions[i].meaning| > 0);
  }
}
