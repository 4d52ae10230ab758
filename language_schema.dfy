/** The Language document and the rules its schema enforces on save:
    required and trimmed text paths, the 2-3 character code, the status
    enum, and the unique indexes on name and code. */
module LanguageSchema {
  import opened Common
  import opened Text
  import opened Seqs

  /** Workflow status of a language. */
  datatype LanguageStatus = Active | InProgress | Review

  function LanguageStatusName(st: LanguageStatus): string
  {
    match st
    case Active => "active"
    case InProgress => "in-progress"
    case Review => "review"
  }

  /** The `enum` list of the `status` path. */
  const LanguageStatusValues: seq<string> := ["active", "in-progress", "review"]

  /** The typed reading of a `status` value. */
  function ParseLanguageStatus(s: string): (r: Option<LanguageStatus>)
    ensures r.Some? <==> s in LanguageStatusValues
    ensures forall st :: r == Some(st) <==> LanguageStatusName(st) == s
  {
    match s
    case "active" => Some(Active)
    case "in-progress" => Some(InProgress)
    case "review" => Some(Review)
    case _ => None
  }

  /** The status a new language receives when none is given. */
  const DefaultLanguageStatus: string := "in-progress"

  /** A Language document. `entries` is the back-reference list of the
      entries written in the language. */
  datatype Language = Language(
    id: LanguageId,
    name: string,
    code: string,
    nativeName: string,
    description: string,
    writingSystem: string,
    contributors: seq<UserId>,
    entries: seq<EntryId>,
    status: string,
    createdAt: Time,
    lastUpdated: Time)

  /** The schema's validators, run on every save: the five text paths are
      required (a missing or empty string fails), `code` is 2 to 3 characters
      long, and `status` is an enum member. */
  predicate LanguageValid(l: Language)
  {
    && |l.name| > 0
    && 2 <= |l.code| <= 3
    && |l.nativeName| > 0
    && |l.description| > 0
    && |l.writingSystem| > 0
    && l.status in LanguageStatusValues
  }

  /** How a stored language looks in addition to passing validation:
      `name`, `code` and `nativeName` went through the trim setter. */
  predicate LanguageStored(l: Language)
  {
    LanguageValid(l) && IsTrimmed(l.name) && IsTrimmed(l.code) && IsTrimmed(l.nativeName)
  }

  /** The unique indexes: no two stored languages share a name or a code. */
  predicate UniqueNamesAndCodes(langs: seq<Language>)
  {
    forall i, j :: 0 <= i < j < |langs| ==>
      langs[i].name != langs[j].name && langs[i].code != langs[j].code
  }

  /** Saving `l` would break a unique index: another document (a different
      id) already holds its name or its code. */
  predicate ClashesWith(langs: seq<Language>, l: Language)
  {
    exists j :: 0 <= j < |langs| && langs[j].id != l.id &&
      (langs[j].name == l.name || langs[j].code == l.code)
  }

  /** `Language.findOne({ code })`: the position of the first language whose
      stored code equals `code` exactly. */
  function FindByCode(langs: seq<Language>, code: string): (r: Option<nat>)
    ensures r.Some? ==> r.value < |langs| && langs[r.value].code == code
    ensures r.None? <==> forall j :: 0 <= j < |langs| ==> langs[j].code != code
  {
    FirstIndex(langs, (l: Language) => l.code == code)
  }

  /** The position of the stored language with identifier `id`. */
  function FindLanguage(langs: seq<Language>, id: LanguageId): (r: Option<nat>)
    ensures r.Some? ==> r.value < |langs| && langs[r.value].id == id
    ensures r.None? <==> forall j :: 0 <= j < |langs| ==> langs[j].id != id
  {
    FirstIndex(langs, (l: Language) => l.id == id)
  }

  /** With the unique index in force a code names at most one language, so
      the first match is the only one. */
  lemma FindByCodeUnique(langs: seq<Language>, code: string, j: nat)
    requires UniqueNamesAndCodes(langs)
    requires j < |langs| && langs[j].code == code
    ensures FindByCode(langs, code) == Some(j)
  {
  }

  /** The identifiers of the stored languages: what an entry's `language`
      reference may point to. */
  function LanguageIds(langs: seq<Language>): set<LanguageId>
  {
    set j | 0 <= j < |langs| :: langs[j].id
  }

  /** Rewriting one language without touching its id keeps the set of identifiers. */
  lemma LanguageIdsUpdate(langs: seq<Language>, k: nat, l: Language)
    requires k < |langs| && l.id == langs[k].id
    ensures LanguageIds(langs[k := l]) == LanguageIds(langs)
  {
    var after := langs[k := l];
    forall id | id in LanguageIds(langs) ensures id in LanguageIds(after) {
      var j :| 0 <= j < |langs| && langs[j].id == id;
      assert after[j].id == id;
    }
    forall id | id in LanguageIds(after) ensures id in LanguageIds(langs) {
      var j :| 0 <= j < |after| && after[j].id == id;
      assert langs[j].id == id;
    }
  }

  /** Appending a language adds exactly its identifier. */
  lemma LanguageIdsAppend(langs: seq<Language>, l: Language)
    ensures LanguageIds(langs + [l]) == LanguageIds(langs) + {l.id}
  {
    var after := langs + [l];
    forall id | id in LanguageIds(langs) ensures id in LanguageIds(after) {
      var j :| 0 <= j < |langs| && langs[j].id == id;
      assert after[j].id == id;
    }
    assert after[|langs|].id == l.id;
  }
}
