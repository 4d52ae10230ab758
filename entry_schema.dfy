/** The Entry document: one word of one language with its definitions,
    their vote ledgers, the translation groups and the etymology, and the
    rules the schema checks each time the document is saved. */
module EntrySchema {
  import opened Common
  import opened Text
  import opened Seqs

  /** The closed set of parts of speech the schema accepts. */
  datatype PartOfSpeech =
    | Noun | Verb | Adjective | Adverb | Pronoun | Preposition
    | Conjunction | Interjection | OtherPart

  function PartOfSpeechName(p: PartOfSpeech): string
  {
    match p
    case Noun => "noun"
    case Verb => "verb"
    case Adjective => "adjective"
    case Adverb => "adverb"
    case Pronoun => "pronoun"
    case Preposition => "preposition"
    case Conjunction => "conjunction"
    case Interjection => "interjection"
    case OtherPart => "other"
  }

  /** The `enum` list of the `partOfSpeech` path, in schema order. */
  const PartOfSpeechValues: seq<string> :=
    ["noun", "verb", "adjective", "adverb", "pronoun", "preposition", "conjunction", "interjection", "other"]

  /** The typed reading of a `partOfSpeech` value: the enum validator accepts
      exactly the strings that name a part of speech. */
  function ParsePartOfSpeech(s: string): (r: Option<PartOfSpeech>)
    ensures r.Some? <==> s in PartOfSpeechValues
    ensures forall p :: r == Some(p) <==> PartOfSpeechName(p) == s
  {
    match s
    case "noun" => Some(Noun)
    case "verb" => Some(Verb)
    case "adjective" => Some(Adjective)
    case "adverb" => Some(Adverb)
    case "pronoun" => Some(Pronoun)
    case "preposition" => Some(Preposition)
    case "conjunction" => Some(Conjunction)
    case "interjection" => Some(Interjection)
    case "other" => Some(OtherPart)
    case _ => None
  }

  /** Moderation status of an entry. */
  datatype EntryStatus = Approved | Pending | Rejected

  function EntryStatusName(st: EntryStatus): string
  {
    match st
    case Approved => "approved"
    case Pending => "pending"
    case Rejected => "rejected"
  }

  /** The `enum` list of the `status` path. */
  const EntryStatusValues: seq<string> := ["approved", "pending", "rejected"]

  /** The typed reading of a `status` value. */
  function ParseEntryStatus(s: string): (r: Option<EntryStatus>)
    ensures r.Some? <==> s in EntryStatusValues
    ensures forall st :: r == Some(st) <==> EntryStatusName(st) == s
  {
    match s
    case "approved" => Some(Approved)
    case "pending" => Some(Pending)
    case "rejected" => Some(Rejected)
    case _ => None
  }

  /** The status a new entry receives when none is given. */
  const DefaultEntryStatus: string := "pending"

  /** The two voter lists of one definition. */
  datatype Votes = Votes(upvotes: seq<UserId>, downvotes: seq<UserId>)

  datatype Definition = Definition(
    id: DefinitionId,
    meaning: string,
    examples: seq<string>,
    context: Option<string>,
    dialectOrRegion: Option<string>,
    contributors: seq<UserId>,
    votes: Votes)

  datatype TranslatedWord = TranslatedWord(
    word: Option<string>,
    context: Option<string>,
    contributors: seq<UserId>)

  /** The translated words of one entry into one target language. */
  datatype TranslationGroup = TranslationGroup(language: LanguageId, words: seq<TranslatedWord>)

  datatype Etymology = Etymology(
    origin: Option<string>,
    history: Option<string>,
    contributors: seq<UserId>)

  /** An Entry document. Enum paths hold the raw string assigned to them,
      since Mongoose checks enums only when the document is saved. */
  datatype Entry = Entry(
    id: EntryId,
    word: string,
    language: LanguageId,
    partOfSpeech: string,
    definitions: seq<Definition>,
    translations: seq<TranslationGroup>,
    etymology: Option<Etymology>,
    status: string,
    createdBy: UserId,
    createdAt: Time,
    lastUpdated: Time)

  /** The schema's validators, run on every save: `word` and each definition's
      `meaning` are required (a missing or empty string fails), `partOfSpeech`
      and `status` must be enum members. `language` and `createdBy` are
      required too; their fields here are never empty. */
  predicate EntryValid(e: Entry)
  {
    && |e.word| > 0
    && e.partOfSpeech in PartOfSpeechValues
    && e.status in EntryStatusValues
    && forall i :: 0 <= i < |e.definitions| ==> |e.definitions[i].meaning| > 0
  }

  /** How a stored entry looks in addition to passing validation: `word` went
      through the trim setter. */
  predicate EntryStored(e: Entry)
  {
    EntryValid(e) && IsTrimmed(e.word)
  }

  /** No two stored entries share an identifier. */
  ghost predicate DistinctIds(entries: seq<Entry>)
  {
    forall i, j :: 0 <= i < j < |entries| ==> entries[i].id != entries[j].id
  }

  /** `Entry.findById`: the position of the entry with identifier `id`. */
  function FindEntry(entries: seq<Entry>, id: EntryId): (r: Option<nat>)
    ensures r.Some? ==> r.value < |entries| && entries[r.value].id == id
    ensures r.None? <==> forall j :: 0 <= j < |entries| ==> entries[j].id != id
  {
    FirstIndex(entries, (e: Entry) => e.id == id)
  }

  /** `entry.definitions.id(defId)`: the position of the definition with identifier `id`. */
  function FindDefinition(defs: seq<Definition>, id: DefinitionId): (r: Option<nat>)
    ensures r.Some? ==> r.value < |defs| && defs[r.value].id == id
    ensures r.None? <==> forall j :: 0 <= j < |defs| ==> defs[j].id != id
  {
    FirstIndex(defs, (d: Definition) => d.id == id)
  }
}
