# Lexicon store model

This project models the core of a collaborative multilingual dictionary
server. The server keeps two MongoDB collections, behind Mongoose schemas:

- **Entry**: a word in one language, with part of speech, definitions that
  users vote on, translations grouped by target language, an etymology, a
  review status and timestamps.
- **Language**: a catalog entry with a unique name and a unique 2–3 character
  code, contributors, back-references to its entries, a status and
  timestamps.

The model covers the route handlers that read and change these collections:

- the dictionary routes: search with pagination, get by id, create, add
  translations, and vote on a definition;
- the language routes: get by code, create, update and add a contributor;
- the schema rules those handlers rely on: required and trimmed paths, the
  enums and their defaults, the code length, the unique indexes, and the
  pre-save hook that stamps `lastUpdated`.

Layout:

- `common.dfy`: identifiers, roles, errors and the `Result`/`Option` types.
- `text.dfy`: JavaScript's `String.prototype.trim`, which the `trim: true`
  option applies on assignment.
- `seqs.dfy`: first-match lookup, shared by `findOne`, `findById`,
  `findIndex` and `.id()`.
- `entry_schema.dfy`: the Entry document, its enums and validators, and the
  lookups by entry id and definition id.
- `language_schema.dfy`: the Language document, its validators, the unique
  indexes and lookup by code.
- `vote_ledger.dfy`: the vote toggle on a definition's two voter lists
  (`push`, and `pull`, which removes every occurrence).
- `translation_merge.dfy`: appending stamped words to the one group for a
  target language, or adding that group.
- `entry_creation.dfy`: building a new entry from a create request.
- `language_catalog.dfy`: role checks, building a new language, the key-wise
  update merge and the idempotent contributor append.
- `entry_search.dfy`: the search handler as a function of the collections:
  query, language filter, skip/limit window and page count.
- `store.dfy`: the class `Store.Store`, whose `entries`, `languages` and
  identifier counter the handlers update in place. Every handler preserves
  `Valid()`. That invariant says:
  - every stored document passes its schema and is trimmed;
  - identifiers are unique within each collection;
  - the name and code indexes hold;
  - every entry's language references resolve, with at most one translation
    group per language.

Each handler's `ensures` ties the new state of the collections to the pure
functions of the other modules, and the lemmas there state what those
functions guarantee.

A search whose language code resolves to no language drops the language
clause: it returns the unfiltered page (`server/routes/dictionary.js:17-22`),
not an empty one. `EntrySearch.UnresolvedCodeDropsFilter` states this.

Inputs the handlers take from outside become parameters:

- the caller's id and role (from the authentication middleware);
- the current time (`Date.now()` in the defaults and the pre-save hooks);
- the text index's matches, in relevance order (`hits` in
  `EntrySearch.Search`).

Fresh ObjectIds come from the counter `Store.nextId`.

## Model

| member | source | states |
|---|---|---|
| Seqs.FirstIndex | server/routes/dictionary.js:130-132 | the result is the first position whose element satisfies the predicate, and None exactly when none does |
| Text.Trim | server/models/Entry.js:4-8 | the stored value has no whitespace at either end, is no longer than the input, and an already trimmed value is kept as is |
| Text.TrimKeepsInfix | server/models/Language.js:4-22 | trim keeps one contiguous piece of the value, and every character it drops is whitespace |
| Text.TrimEmptyIff | server/models/Entry.js:4-8 | a value trims to the empty string, which `required` rejects, exactly when it is all whitespace |
| Text.TrimIdempotent | server/models/Language.js:4-22 | assigning a stored trimmed value again leaves it unchanged |
| EntrySchema.ParsePartOfSpeech | server/models/Entry.js:14-18 | a string is in the schema's enum list exactly when it names one of the nine parts of speech, and then it reads as that part |
| EntrySchema.ParseEntryStatus | server/models/Entry.js:70-74 | a status is in the enum list exactly when it is "approved", "pending" or "rejected", read as that status |
| EntrySchema.EntryValid | server/models/Entry.js:3-88 | the validators run on save, as a definition: the word and every meaning are non-empty, and part of speech and status are enum members |
| EntrySchema.FindEntry | server/routes/dictionary.js:47-57 | finds a stored entry with the id, and None exactly when no entry has it |
| EntrySchema.FindDefinition | server/routes/dictionary.js:157-160 | finds a definition with the id, and None exactly when no definition has it |
| LanguageSchema.ParseLanguageStatus | server/models/Language.js:39-43 | a status is in the enum list exactly when it is "active", "in-progress" or "review", read as that status |
| LanguageSchema.LanguageValid | server/models/Language.js:3-58 | the validators run on save, as a definition: the five required text paths are non-empty, the code has 2 to 3 characters, and the status is an enum member |
| LanguageSchema.FindByCode | server/routes/languages.js:19-27 | finds a language whose stored code equals the requested code, and None exactly when none has it |
| LanguageSchema.FindByCodeUnique | server/models/Language.js:10-17 | with the unique index in force, the language found by code is the only one holding that code |
| VoteLedger.Pull | server/routes/dictionary.js:168 | `pull` removes every occurrence of the user and keeps every other voter with the same multiplicity; a list without the user is unchanged |
| VoteLedger.PullAppend | server/routes/dictionary.js:168 | pulling works on each part of a list separately, so the voters that stay keep their order |
| VoteLedger.PullPushed | server/routes/dictionary.js:167-170 | pulling a user right after pushing them onto a list that lacked them restores the list |
| VoteLedger.Cast | server/routes/dictionary.js:162-184 | "up" toggles the user's upvote; a new upvote is added once and withdraws a downvote; "down" is symmetric; any other value changes nothing; other voters' counts never change |
| VoteLedger.ToggleVote | server/routes/dictionary.js:162-184 | the handler's push and pull steps on the two lists compute exactly the toggle `Cast` describes |
| VoteLedger.CastKeepsVoterApart | server/routes/dictionary.js:166-184 | a user who was not on both lists is still not on both lists after voting |
| VoteLedger.CastKeepsExclusive | server/routes/dictionary.js:166-184 | if no user was on both lists of a definition, none is after a vote |
| VoteLedger.UpTwiceRestores | server/routes/dictionary.js:166-174 | a fresh user voting "up" twice leaves the definition's votes as they were |
| VoteLedger.DownTwiceRestores | server/routes/dictionary.js:175-183 | a fresh user voting "down" twice leaves the definition's votes as they were |
| VoteLedger.UpThenDown | server/routes/dictionary.js:166-184 | a fresh user voting "up" then "down" ends on the downvotes only |
| VoteLedger.ReplayKeepsExclusive | server/routes/dictionary.js:148-191 | any sequence of votes keeps every user on at most one of the two lists |
| TranslationMerge.StampWords | server/routes/dictionary.js:124-127 | each submitted word keeps its word and context and gets the caller as sole contributor, in order |
| TranslationMerge.FindGroup | server/routes/dictionary.js:130-132 | finds the first group for the target language, and None exactly when there is none |
| TranslationMerge.Merge | server/routes/dictionary.js:130-138 | the merge keeps every group's language and position, adds a group holding the words at the end exactly when none had the target language, and leaves groups of other languages unchanged |
| TranslationMerge.FindGroupAfterMerge | server/routes/dictionary.js:130-138 | after a merge, the lookup finds the group that received the words |
| TranslationMerge.MergeAppendsWords | server/routes/dictionary.js:134-138 | the target language's words become its old words followed by the new ones; every other language keeps its words |
| TranslationMerge.MergeKeepsUnique | server/routes/dictionary.js:134-138 | the merge never creates a second group for a language |
| TranslationMerge.MergeLeavesOneGroup | server/routes/dictionary.js:134-138 | after a merge, the target language has exactly one group |
| TranslationMerge.TwoSubmissionsOneGroup | server/routes/dictionary.js:108-145 | two submissions for a language with no group yield one group holding the first batch and then the second |
| TranslationMerge.MergeAllAppends | server/routes/dictionary.js:108-145 | after any number of submissions for a language, its words are its old words followed by every batch in submission order |
| TranslationMerge.MergeAllKeepsUnique | server/routes/dictionary.js:108-145 | any number of submissions keeps at most one group per language |
| TranslationMerge.MergeAllKeepsOthers | server/routes/dictionary.js:108-145 | submissions for one language never change the words of another |
| TranslationMerge.MergeAllOneGroup | server/routes/dictionary.js:108-145 | after at least one submission for a language, it has exactly one group |
| EntryCreation.StampDefinitions | server/routes/dictionary.js:86-89 | each definition keeps its meaning, examples, context, region and votes, gets the author as sole contributor and a fresh id, in order |
| EntryCreation.StampEtymology | server/routes/dictionary.js:91 | an etymology is present exactly when one was supplied, with the author as sole contributor |
| EntryCreation.NewEntry | server/routes/dictionary.js:82-93 | the new entry has the given id, the trimmed request word, the resolved language and the request's part of speech; its definitions and etymology are the stamped request values with the author as sole contributor; it is created by the author, "pending", without translations, with both timestamps at creation time |
| EntryCreation.NewEntryValidIff | server/models/Entry.js:4-23 | a new entry passes validation exactly when the word has a non-whitespace character, the part of speech is one of the nine and every definition has a meaning |
| LanguageCatalog.Allowed | server/routes/languages.js:36-74 | an admin may do both operations; a moderator may update and may not create; a contributor may do neither |
| LanguageCatalog.NewLanguage | server/routes/languages.js:51-59 | the new language has the given id, the trimmed request name, code and native name, the request's description and writing system, the creator as sole contributor, no entries, status "in-progress" and both timestamps at creation time |
| LanguageCatalog.Assign | server/routes/languages.js:83 | assigning one key sets that path to the written value, trimmed on trimmed paths, and leaves every other path unchanged |
| LanguageCatalog.LastWrite | server/routes/languages.js:81-85 | the copied key for a path that no later copied key overrides, or None when every key naming the path is `_id` or `contributors` |
| LanguageCatalog.ApplyUpdates | server/routes/languages.js:80-85 | whatever the body holds, the merged document keeps the id and the contributor list |
| LanguageCatalog.ApplyUpdatesPaths | server/routes/languages.js:80-85 | after the merge each path holds what the last copied key for it wrote, and keeps its old value when no copied key names it |
| LanguageCatalog.ApplyUpdatesKeepsTrimmedAt | server/models/Language.js:4-22 | a trimmed path stays trimmed whatever the update body holds |
| LanguageCatalog.ApplyUpdatesKeepsTrimmed | server/models/Language.js:4-22 | name, code and native name stay trimmed whatever the update body holds |
| LanguageCatalog.WithContributor | server/routes/languages.js:102-105 | the caller is a contributor afterwards, appended exactly once and with `lastUpdated` set to now when absent; nothing changes when present; no other field changes |
| LanguageCatalog.WithContributorIdempotent | server/routes/languages.js:95-111 | adding the same contributor again changes nothing |
| EntrySearch.BuildQuery | server/routes/dictionary.js:10-22 | a text clause exactly when `q` is non-empty; a language clause exactly when the code is non-empty and resolves, holding that language's id |
| EntrySearch.HitEntries | server/routes/dictionary.js:13-15 | the text matches are stored entries among the index's hits; a single hit gives its stored entry, or nothing when none is stored |
| EntrySearch.HitEntriesAppend | server/routes/dictionary.js:13-15 | the matches of a hit list are those of its parts in order, so every stored hit appears once, in relevance order |
| EntrySearch.HitEntriesIff | server/routes/dictionary.js:13-15 | with distinct ids, an entry is a text match exactly when it is stored and its id is among the hits |
| EntrySearch.FilterLanguage | server/routes/dictionary.js:17-24 | keeps exactly the entries of the requested language; without a clause keeps everything; a single entry is kept or dropped by its language |
| EntrySearch.FilterLanguageAppend | server/routes/dictionary.js:17-24 | filtering distributes over concatenation, so the kept entries stay in order and with their multiplicity |
| EntrySearch.Matched | server/routes/dictionary.js:10-28 | every matched document is stored; under a text clause every one is among the hits; without `q` and code the whole collection matches |
| EntrySearch.MatchedIff | server/routes/dictionary.js:10-31 | with distinct ids, an entry is matched (and counted) exactly when it is stored, among the hits under a text clause, and of the language a resolved code names |
| EntrySearch.PageCount | server/routes/dictionary.js:38 | the page count is the ceiling of total over limit: enough pages for every match, and no empty last page |
| EntrySearch.Window | server/routes/dictionary.js:27-28 | the page is the run of matches starting at `skip`, of length `limit`, or what is left after `skip`, or empty when `skip` is past the end |
| EntrySearch.Search | server/routes/dictionary.js:8-44 | fails exactly when the page is below 1 (negative skip); otherwise the page holds the matches from `(page - 1) * limit` on, exactly `limit` of them or all that remain, with the unpaginated total and the ceiling page count |
| EntrySearch.SearchWithDefaults | server/routes/dictionary.js:10 | the answer is the search with limit 10 when none is given and page 1 when none is given; an absent page never fails; with both absent the answer is the first ten matches |
| EntrySearch.SearchRespectsLanguage | server/routes/dictionary.js:17-22 | under a resolved language code, every entry on the page belongs to that language |
| EntrySearch.UnresolvedCodeDropsFilter | server/routes/dictionary.js:17-22 | a code that resolves to no language gives the same answer as no code at all |
| EntrySearch.PageNonEmptyIff | server/routes/dictionary.js:27-38 | page `p` holds entries exactly when `p` is at most the reported page count |
| Store.UpsertEntryReadBack | server/models/Entry.js:90-94 | after a save, looking the id up finds the saved document |
| Store.UpsertEntry | server/routes/dictionary.js:140 | a save leaves the document in the collection, adds a place only for a new id, keeps every other document in its place and keeps every place's id |
| Store.UpsertLanguageReadBack | server/models/Language.js:60-64 | after a save, looking the id up finds the saved language |
| Store.UpsertLanguage | server/routes/languages.js:87 | a save leaves the document in the collection, adds a place only for a new id, keeps every other document in its place and keeps every place's id |
| Store.StampKeepsEntry | server/models/Entry.js:90-94 | the pre-save hook changes only `lastUpdated`, so a stored, linked entry stays stored and linked |
| Store.VotesKeepEntry | server/routes/dictionary.js:157-186 | voter lists are not validated, so changing one definition's votes keeps an entry stored and linked |
| Store.UpsertEntryKeepsOk | server/models/Entry.js:3-94 | saving an entry that passes validation keeps the collection valid, trimmed, linked and with distinct ids |
| Store.UpsertLanguageKeepsOk | server/models/Language.js:3-64 | saving a valid language that breaks no unique index keeps the collection valid, with distinct ids and unique names and codes |
| Store.ReplaceLanguageKeepsOk | server/models/Language.js:7-13 | rewriting a language under its own id keeps the unique indexes when no other language holds its name or code |
| Store.AppendLanguageKeepsOk | server/models/Language.js:7-13 | adding a language with a new id keeps the unique indexes when no language holds its name or code |
| Store.SameKeysNoClash | server/routes/languages.js:102-105 | a language saved with its own name and code cannot break a unique index |
| Store.MergeKeepsLinked | server/routes/dictionary.js:117-138 | merging translations for a stored target language keeps the entry's references resolved and one group per language |
| Store.Store.SaveEntry | server/models/Entry.js:90-94 | an invalid entry is rejected and nothing changes; a valid one is stored with `lastUpdated` set to now, replacing the document with its id |
| Store.Store.SaveLanguage | server/models/Language.js:60-64 | an invalid language is rejected, a name or code held by another language is a duplicate; otherwise it is stored with `lastUpdated` set to now |
| Store.Store.GetEntry | server/routes/dictionary.js:47-63 | returns the stored entry with the id, or NotFound exactly when none has it |
| Store.Store.GetLanguage | server/routes/languages.js:19-33 | returns the stored language with the code, or NotFound exactly when none has it |
| Store.Store.CreateEntry | server/routes/dictionary.js:66-105 | an unknown language code is NotFound; an invalid entry is rejected unchanged; otherwise the new entry is appended and its id pushed onto its language's entries |
| Store.Store.AddTranslations | server/routes/dictionary.js:108-145 | NotFound for an unknown entry or target code; otherwise the entry's groups become the merge of the stamped words, saved with `lastUpdated` now |
| Store.Store.Vote | server/routes/dictionary.js:148-191 | NotFound for an unknown entry or definition; otherwise only that definition's votes change, as the toggle says, and the entry is saved |
| Store.Store.CreateLanguage | server/routes/languages.js:36-66 | Forbidden unless admin; otherwise the new language is appended, or rejected as invalid or duplicate with nothing changed |
| Store.Store.UpdateLanguage | server/routes/languages.js:69-92 | Forbidden unless admin or moderator, NotFound for an unknown code; otherwise the merged document replaces the language, or is rejected as invalid or duplicate with nothing changed |
| Store.Store.AddContributor | server/routes/languages.js:95-111 | NotFound for an unknown code; otherwise succeeds, and the language gains the caller once, or stays unchanged when they already contribute |

## Left out

- Express, HTTP status codes and JSON bodies are not modelled. Handlers return
  `Result` values, and `Common.Error` notes the status each error becomes.
- Authentication (`server/middleware/auth`) is not part of this model. The
  caller's id and role are parameters.
- `populate` is left out. It only reshapes the response and changes no
  stored state.
- The language listing (`server/routes/languages.js:7-16`) is left out. It
  only reads the collection, sorted by name, and checks nothing.
- Text relevance is not modelled. MongoDB's text index (stemming, stop words,
  scoring) becomes the `hits` parameter of `EntrySearch.Search`: the
  matching entry ids in descending score order.
- EntrySearch.Search: a search without `q` returns a page in store order.
  The code always sorts by `{ $meta: 'textScore' }`, even without a `$text`
  clause (`server/routes/dictionary.js:29`). A server that refuses that sort
  fails the query, and the handler answers 500 where the model returns a
  page. A server that accepts it may return another order.
- EntrySearch.Search: requires `limit > 0`. The text index's `hits` are
  taken to name each entry at most once, as the index returns them; a
  repeated id would list and count the entry twice. Query-string coercion is
  not modelled: `parseInt` on `page` and `limit`, string arithmetic in
  `(page - 1) * limit`, and the floating-point `Math.ceil(total / limit)`.
  A zero or negative limit, which MongoDB treats as "no limit" or as a
  single batch, is not modelled.
- `pronunciation`, `tags`, and the Language `metadata` are left out. So
  are the cast errors of their typed paths. A `metadata.totalSpeakers` or
  `metadata.dialectCount` that is not a number fails the save with a 500,
  while `Store.Store.CreateLanguage` and `Store.Store.UpdateLanguage`
  succeed on the same request.
- Mongoose casting of request values of other JSON types (numbers, objects
  and arrays assigned to string paths) is left out. Request fields are
  typed values here.
- Absent `definitions` or `translations` arrays in a request body are left
  out. In the code they raise a TypeError and a 500 before anything is
  written.
- Malformed entry ids in a URL are not modelled. Identifiers are naturals
  here. `findById` cannot cast such an id to an ObjectId, and the handler
  answers 500. A malformed definition id in the vote route is covered:
  `definitions.id()` returns `null` for it, and the handler answers 404, which
  is the `NotFound` of `Store.Store.Vote`.
- A client-supplied `_id` inside a definition is not modelled. Definitions
  receive fresh ids from `nextId`. Translation groups and translated words
  are sub-documents with their own `_id` in the code
  (`server/models/Entry.js:42-55`); in the model they carry no id, and
  `Store.Store.AddTranslations` hands out none.
- LanguageSchema.LanguageValid: counts the code's length in characters,
  while Mongoose counts UTF-16 code units. The two differ only for codes
  outside the Basic Multilingual Plane.
- Query-time casting is not modelled. A code lookup compares the code
  exactly as given, while Mongoose may also trim query values.
- Store failures other than validation, unique indexes and negative skips
  are not modelled: lost connections and write errors.
- Concurrency is not modelled. Each handler runs alone, although the real
  handlers interleave between their awaits. In particular, entry creation
  writes the entry and the language's back-reference as two separate saves.
- Store.Store.UpdateLanguage: a body key that names a member of the
  Mongoose document, such as `save`, is a no-op here (`SetOther`). In the
  code the assignment hides that member, the following save throws, and the
  handler answers 500 with nothing stored.
- Client-supplied vote lists are kept. `...def` in entry creation copies
  any `votes` the request supplies, so a user can appear on both lists of a
  new definition. For this reason exclusivity is proved per vote
  (`VoteLedger.CastKeepsExclusive`) and is not part of `Valid()`.
- An update may rewrite `createdAt`, `entries` and `status`, since only
  `_id` and `contributors` are skipped. Because of this, `lastUpdated >=
  createdAt` and the entry back-references are not invariants of the model.
