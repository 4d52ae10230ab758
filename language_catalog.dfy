/** The rules of the language routes: who may create and update a language,
    how a new language is built, how an update body is merged onto the
    loaded document, and how a contributor is added. */
module LanguageCatalog {
  import opened Common
  import opened Text
  import opened LanguageSchema

  /** The two role-guarded operations on the catalog. */
  datatype Action = CreateLanguage | UpdateLanguage

  /** Creating a language is for admins only; updating one is for admins and moderators. */
  predicate Allowed(role: Role, action: Action)
    ensures role == Admin ==> Allowed(role, action)
    ensures Allowed(role, action) ==> role != Contributor
    ensures action.CreateLanguage? && Allowed(role, action) ==> role == Admin
    ensures role == Moderator ==> (Allowed(role, action) <==> action.UpdateLanguage?)
  {
    match action
    case CreateLanguage => role == Admin
    case UpdateLanguage => role == Admin || role == Moderator
  }

  /** The fields of the create request the handler reads; a missing one is
      the empty string, which the `required` validator rejects. `metadata` is
      not part of this model. */
  datatype LanguageRequest = LanguageRequest(
    name: string,
    code: string,
    nativeName: string,
    description: string,
    writingSystem: string)

  /** The new document: trimmed name, code and native name, the creator as
      sole contributor, no entries, status and timestamps from the defaults. */
  function NewLanguage(id: LanguageId, req: LanguageRequest, u: UserId, now: Time): (r: Language)
    ensures r.id == id
    ensures r.name == Trim(req.name) && r.code == Trim(req.code) && r.nativeName == Trim(req.nativeName)
    ensures IsTrimmed(r.name) && IsTrimmed(r.code) && IsTrimmed(r.nativeName)
    ensures r.description == req.description && r.writingSystem == req.writingSystem
    ensures r.contributors == [u] && r.entries == []
    ensures ParseLanguageStatus(r.status) == Some(InProgress)
    ensures r.createdAt == now && r.lastUpdated == now
  {
    Language(id, Trim(req.name), Trim(req.code), Trim(req.nativeName), req.description,
             req.writingSystem, [u], [], DefaultLanguageStatus, now, now)
  }

  /** The paths of a Language document an update body can name. `OtherPath`
      stands for `metadata` and for keys the schema does not know; neither is
      part of this model. */
  datatype Path =
    | IdPath | NamePath | CodePath | NativeNamePath | DescriptionPath | WritingSystemPath
    | ContributorsPath | EntriesPath | StatusPath | CreatedAtPath | LastUpdatedPath
    | OtherPath(key: string)

  /** One key of the update body with its value, already of the path's type. */
  datatype Update =
    | SetId(newId: LanguageId)
    | SetName(newName: string)
    | SetCode(newCode: string)
    | SetNativeName(newNativeName: string)
    | SetDescription(newDescription: string)
    | SetWritingSystem(newWritingSystem: string)
    | SetContributors(newContributors: seq<UserId>)
    | SetEntries(newEntries: seq<EntryId>)
    | SetStatus(newStatus: string)
    | SetCreatedAt(newCreatedAt: Time)
    | SetLastUpdated(newLastUpdated: Time)
    | SetOther(otherKey: string)

  function PathOf(u: Update): Path
  {
    match u
    case SetId(_) => IdPath
    case SetName(_) => NamePath
    case SetCode(_) => CodePath
    case SetNativeName(_) => NativeNamePath
    case SetDescription(_) => DescriptionPath
    case SetWritingSystem(_) => WritingSystemPath
    case SetContributors(_) => ContributorsPath
    case SetEntries(_) => EntriesPath
    case SetStatus(_) => StatusPath
    case SetCreatedAt(_) => CreatedAtPath
    case SetLastUpdated(_) => LastUpdatedPath
    case SetOther(k) => OtherPath(k)
  }

  /** The value at one path of a document, for stating what an update changes. */
  datatype Value = Text(text: string) | Ids(ids: seq<nat>) | Number(number: int) | Untracked

  function Project(l: Language, p: Path): Value
  {
    match p
    case IdPath => Number(l.id)
    case NamePath => Text(l.name)
    case CodePath => Text(l.code)
    case NativeNamePath => Text(l.nativeName)
    case DescriptionPath => Text(l.description)
    case WritingSystemPath => Text(l.writingSystem)
    case ContributorsPath => Ids(l.contributors)
    case EntriesPath => Ids(l.entries)
    case StatusPath => Text(l.status)
    case CreatedAtPath => Number(l.createdAt)
    case LastUpdatedPath => Number(l.lastUpdated)
    case OtherPath(_) => Untracked
  }

  /** What the document's setter stores for an update: the trimmed string on
      the three trimmed paths, the value itself elsewhere. */
  function Written(u: Update): Value
  {
    match u
    case SetId(x) => Number(x)
    case SetName(s) => Text(Trim(s))
    case SetCode(s) => Text(Trim(s))
    case SetNativeName(s) => Text(Trim(s))
    case SetDescription(s) => Text(s)
    case SetWritingSystem(s) => Text(s)
    case SetContributors(xs) => Ids(xs)
    case SetEntries(xs) => Ids(xs)
    case SetStatus(s) => Text(s)
    case SetCreatedAt(t) => Number(t)
    case SetLastUpdated(t) => Number(t)
    case SetOther(_) => Untracked
  }

  /** `language[key] = updates[key]` for one key. */
  function Assign(l: Language, u: Update): (r: Language)
    ensures Project(r, PathOf(u)) == Written(u)
    ensures forall p :: p != PathOf(u) ==> Project(r, p) == Project(l, p)
  {
    match u
    case SetId(x) => l.(id := x)
    case SetName(s) => l.(name := Trim(s))
    case SetCode(s) => l.(code := Trim(s))
    case SetNativeName(s) => l.(nativeName := Trim(s))
    case SetDescription(s) => l.(description := s)
    case SetWritingSystem(s) => l.(writingSystem := s)
    case SetContributors(xs) => l.(contributors := xs)
    case SetEntries(xs) => l.(entries := xs)
    case SetStatus(s) => l.(status := s)
    case SetCreatedAt(t) => l.(createdAt := t)
    case SetLastUpdated(t) => l.(lastUpdated := t)
    case SetOther(_) => l
  }

  /** The two keys the update handler refuses to copy: `_id` and `contributors`. */
  predicate Skipped(u: Update)
  {
    u.SetId? || u.SetContributors?
  }

  /** The update handler's merge: every key of the body, in order, except the
      skipped ones, assigned onto the loaded document. */
  function ApplyUpdates(l: Language, us: seq<Update>): (r: Language)
    ensures r.id == l.id && r.contributors == l.contributors
    decreases |us|
  {
    if us == [] then l
    else
      var prev := ApplyUpdates(l, us[..|us| - 1]);
      var last := us[|us| - 1];
      if Skipped(last) then prev
      else
        var next := Assign(prev, last);
        assert Project(next, IdPath) == Project(prev, IdPath);
        assert Project(next, ContributorsPath) == Project(prev, ContributorsPath);
        next
  }

  /** The last update in `us` that the merge copies onto path `p`, if any. */
  function LastWrite(us: seq<Update>, p: Path): (r: Option<Update>)
    ensures r.Some? ==> !Skipped(r.value) && PathOf(r.value) == p && r.value in us
    ensures r.Some? ==>
              exists i :: 0 <= i < |us| && us[i] == r.value &&
                (forall j :: i < j < |us| && PathOf(us[j]) == p ==> Skipped(us[j]))
    ensures r.None? ==> forall i :: 0 <= i < |us| && PathOf(us[i]) == p ==> Skipped(us[i])
    decreases |us|
  {
    if us == [] then None
    else
      var last := us[|us| - 1];
      if !Skipped(last) && PathOf(last) == p then Some(last)
      else LastWrite(us[..|us| - 1], p)
  }

  /** The merge as a whole: each path holds what the last copied key for it
      wrote, and keeps its old value when no copied key names it. */
  lemma {:induction false} ApplyUpdatesPaths(l: Language, us: seq<Update>, p: Path)
    ensures Project(ApplyUpdates(l, us), p) ==
              match LastWrite(us, p)
              case None => Project(l, p)
              case Some(u) => Written(u)
    decreases |us|
  {
    if us != [] {
      ApplyUpdatesPaths(l, us[..|us| - 1], p);
    }
  }

  /** The paths that carry the `trim` option. */
  predicate TrimmedPath(p: Path)
  {
    p == NamePath || p == CodePath || p == NativeNamePath
  }

  /** A path whose value is a trimmed string. */
  predicate TrimmedAt(l: Language, p: Path)
  {
    Project(l, p).Text? && IsTrimmed(Project(l, p).text)
  }

  /** One trimmed path stays trimmed through any update. */
  lemma ApplyUpdatesKeepsTrimmedAt(l: Language, us: seq<Update>, p: Path)
    requires TrimmedPath(p) && TrimmedAt(l, p)
    ensures TrimmedAt(ApplyUpdates(l, us), p)
  {
    ApplyUpdatesPaths(l, us, p);
    var w := LastWrite(us, p);
    if w.Some? {
      assert w.value.SetName? || w.value.SetCode? || w.value.SetNativeName?;
    }
  }

  /** The trim setters keep the three trimmed paths trimmed through any update. */
  lemma ApplyUpdatesKeepsTrimmed(l: Language, us: seq<Update>)
    requires IsTrimmed(l.name) && IsTrimmed(l.code) && IsTrimmed(l.nativeName)
    ensures var r := ApplyUpdates(l, us);
            IsTrimmed(r.name) && IsTrimmed(r.code) && IsTrimmed(r.nativeName)
  {
    ApplyUpdatesKeepsTrimmedAt(l, us, NamePath);
    ApplyUpdatesKeepsTrimmedAt(l, us, CodePath);
    ApplyUpdatesKeepsTrimmedAt(l, us, NativeNamePath);
  }

  /** The add-contributor handler's change: the user is appended when absent,
      and only then is the document saved (which stamps `lastUpdated`). */
  function WithContributor(l: Language, u: UserId, now: Time): (r: Language)
    ensures u in r.contributors
    ensures u in l.contributors ==> r == l
    ensures u !in l.contributors ==>
              r.contributors == l.contributors + [u] && multiset(r.contributors)[u] == 1 && r.lastUpdated == now
    ensures r.(contributors := l.contributors, lastUpdated := l.lastUpdated) == l
  {
    if u in l.contributors then l
    else l.(contributors := l.contributors + [u], lastUpdated := now)
  }

  /** Adding the same contributor again changes nothing. */
  lemma WithContributorIdempotent(l: Language, u: UserId, now: Time, later: Time)
    ensures WithContributor(WithContributor(l, u, now), u, later) == WithContributor(l, u, now)
  {
  }
}
