/** The search handler: a query built from the optional text and language
    code, the matching entries in store order, a skip/limit window over them,
    and the pagination record computed from the unpaginated count. */
module EntrySearch {
  import opened Common
  import opened EntrySchema
  import opened LanguageSchema

  /** The query document: a `$text` clause when `q` is truthy, a `language`
      clause when the code is truthy and resolves to a stored language. */
  datatype Query = Query(text: bool, language: Option<LanguageId>)

  function BuildQuery(q: string, code: string, langs: seq<Language>): (r: Query)
    ensures r.text <==> q != ""
    ensures r.language.Some? <==> code != "" && FindByCode(langs, code).Some?
    ensures r.language.Some? ==> r.language.value == langs[FindByCode(langs, code).value].id
  {
    var language :=
      if code == "" then None
      else match FindByCode(langs, code)
        case Some(k) => Some(langs[k].id)
        case None => None;
    Query(q != "", language)
  }

  /** The documents the text index matched, in the order of `hits` (the
      index's descending relevance order); ids no longer stored are skipped. */
  function HitEntries(entries: seq<Entry>, hits: seq<EntryId>): (r: seq<Entry>)
    ensures |r| <= |hits|
    ensures forall i :: 0 <= i < |r| ==> r[i] in entries && r[i].id in hits
    ensures |hits| == 1 ==>
              r == match FindEntry(entries, hits[0])
                   case Some(k) => [entries[k]]
                   case None => []
    decreases |hits|
  {
    if hits == [] then []
    else
      var head := match FindEntry(entries, hits[0])
        case Some(k) => [entries[k]]
        case None => [];
      head + HitEntries(entries, hits[1..])
  }

  /** The `language` clause: keeps, in order, the entries of that language. */
  function FilterLanguage(es: seq<Entry>, lang: Option<LanguageId>): (r: seq<Entry>)
    ensures |r| <= |es|
    ensures lang.None? ==> r == es
    ensures lang.Some? ==> forall i :: 0 <= i < |r| ==> r[i].language == lang.value
    ensures forall e :: e in r <==> e in es && (lang.None? || e.language == lang.value)
    ensures |es| == 1 ==> r == if lang.None? || es[0].language == lang.value then es else []
    decreases |es|
  {
    if es == [] then []
    else if lang.None? || es[0].language == lang.value then
      assert es == [es[0]] + es[1..];
      [es[0]] + FilterLanguage(es[1..], lang)
    else
      assert es == [es[0]] + es[1..];
      FilterLanguage(es[1..], lang)
  }

  /** The text matches of a list of hits are those of its parts, one after
      the other: with the one-hit case above, every stored hit appears once,
      in the order of `hits`. */
  lemma {:induction false} HitEntriesAppend(entries: seq<Entry>, a: seq<EntryId>, b: seq<EntryId>)
    ensures HitEntries(entries, a + b) == HitEntries(entries, a) + HitEntries(entries, b)
    decreases |a|
  {
    if a == [] {
      assert a + b == b;
    } else {
      var head := HitEntries(entries, [a[0]]);
      assert [a[0]][1..] == [];
      assert (a + b)[0] == a[0];
      assert (a + b)[1..] == a[1..] + b;
      HitEntriesAppend(entries, a[1..], b);
      calc {
        HitEntries(entries, a + b);
        head + HitEntries(entries, a[1..] + b);
        head + (HitEntries(entries, a[1..]) + HitEntries(entries, b));
        (head + HitEntries(entries, a[1..])) + HitEntries(entries, b);
        HitEntries(entries, a) + HitEntries(entries, b);
      }
    }
  }

  /** With distinct identifiers, the text matches are exactly the stored
      entries whose id the index returned. */
  lemma {:induction false} HitEntriesIff(entries: seq<Entry>, hits: seq<EntryId>, e: Entry)
    requires DistinctIds(entries)
    ensures e in HitEntries(entries, hits) <==> e in entries && e.id in hits
    decreases |hits|
  {
    if hits != [] {
      HitEntriesIff(entries, hits[1..], e);
      assert hits == [hits[0]] + hits[1..];
      if e in entries && e.id == hits[0] {
        var j :| 0 <= j < |entries| && entries[j] == e;
        var k := FindEntry(entries, hits[0]).value;
        assert entries[k].id == entries[j].id;
      }
    }
  }

  /** The language clause filters each part of a list separately: with the
      one-entry case above, it keeps the entries of the language in their
      order and with their multiplicity. */
  lemma {:induction false} FilterLanguageAppend(a: seq<Entry>, b: seq<Entry>, lang: Option<LanguageId>)
    ensures FilterLanguage(a + b, lang) == FilterLanguage(a, lang) + FilterLanguage(b, lang)
    decreases |a|
  {
    if a == [] {
      assert a + b == b;
    } else {
      assert (a + b)[0] == a[0];
      assert (a + b)[1..] == a[1..] + b;
      FilterLanguageAppend(a[1..], b, lang);
    }
  }

  /** Every document the query matches, in the order the store returns them:
      relevance order under a text clause, store order otherwise. */
  function Matched(entries: seq<Entry>, langs: seq<Language>, q: string, code: string, hits: seq<EntryId>): (r: seq<Entry>)
    ensures forall i :: 0 <= i < |r| ==> r[i] in entries
    ensures q != "" ==> forall i :: 0 <= i < |r| ==> r[i].id in hits
    ensures q == "" && code == "" ==> r == entries
  {
    var query := BuildQuery(q, code, langs);
    var candidates := if query.text then HitEntries(entries, hits) else entries;
    FilterLanguage(candidates, query.language)
  }

  /** Every document the query matches is matched: with distinct identifiers,
      an entry is matched exactly when it is stored, is among the hits under a
      text clause, and is of the language a resolved code names. */
  lemma MatchedIff(entries: seq<Entry>, langs: seq<Language>, q: string, code: string, hits: seq<EntryId>, e: Entry)
    requires DistinctIds(entries)
    ensures var query := BuildQuery(q, code, langs);
            e in Matched(entries, langs, q, code, hits) <==>
              && e in entries
              && (q == "" || e.id in hits)
              && (query.language.None? || e.language == query.language.value)
  {
    if q != "" {
      HitEntriesIff(entries, hits, e);
    }
  }

  /** `Math.ceil(total / limit)` for a positive limit. */
  function PageCount(total: nat, limit: int): (r: nat)
    requires limit > 0
    ensures total <= r * limit
    ensures r > 0 ==> (r - 1) * limit < total
  {
    var n := total + limit - 1;
    assert n == (n / limit) * limit + n % limit;
    assert (n / limit - 1) * limit == (n / limit) * limit - limit;
    n / limit
  }

  /** `.skip(skip).limit(limit)` over the matched documents. */
  function Window(ms: seq<Entry>, skip: nat, limit: nat): (r: seq<Entry>)
    ensures |r| == if skip >= |ms| then 0 else if skip + limit <= |ms| then limit else |ms| - skip
    ensures forall i :: 0 <= i < |r| ==> skip + i < |ms| && r[i] == ms[skip + i]
  {
    if skip >= |ms| then []
    else if skip + limit <= |ms| then ms[skip..skip + limit]
    else ms[skip..]
  }

  /** The response body: one page of entries and the pagination record. */
  datatype SearchPage = SearchPage(entries: seq<Entry>, total: nat, page: int, pages: nat)

  /** The search handler. A page below 1 makes the skip negative, which the
      store refuses. */
  function Search(entries: seq<Entry>, langs: seq<Language>, q: string, code: string,
                  limit: int, page: int, hits: seq<EntryId>): (r: Result<SearchPage>)
    requires limit > 0
    ensures r.Err? <==> page < 1
    ensures r.Err? ==> r.error == StoreFailure
    ensures r.Ok? ==> var ms := Matched(entries, langs, q, code, hits);
              && var skip := (page - 1) * limit;
              && |r.value.entries| == (if skip >= |ms| then 0 else if skip + limit <= |ms| then limit else |ms| - skip)
              && r.value.total == |ms|
              && r.value.page == page
              && r.value.total <= r.value.pages * limit
              && (r.value.pages > 0 ==> (r.value.pages - 1) * limit < r.value.total)
              && forall i :: 0 <= i < |r.value.entries| ==>
                   (page - 1) * limit + i < |ms| && r.value.entries[i] == ms[(page - 1) * limit + i]
  {
    var ms := Matched(entries, langs, q, code, hits);
    var skip := (page - 1) * limit;
    assert skip < 0 <==> page < 1 by {
      if page >= 1 { assert (page - 1) * limit >= 0; }
    }
    if skip < 0 then Err(StoreFailure)
    else Ok(SearchPage(Window(ms, skip, limit), |ms|, page, PageCount(|ms|, limit)))
  }

  /** Every entry on a page under a resolved language code belongs to that language. */
  lemma SearchRespectsLanguage(entries: seq<Entry>, langs: seq<Language>, q: string, code: string,
                               limit: int, page: int, hits: seq<EntryId>, k: nat)
    requires limit > 0
    requires code != "" && FindByCode(langs, code) == Some(k)
    ensures var r := Search(entries, langs, q, code, limit, page, hits);
            r.Ok? ==> forall i :: 0 <= i < |r.value.entries| ==> r.value.entries[i].language == langs[k].id
  {
    var ms := Matched(entries, langs, q, code, hits);
    assert forall i :: 0 <= i < |ms| ==> ms[i].language == langs[k].id;
  }

  /** A language code that resolves to nothing drops the language clause: the
      search answers exactly as if no code had been given. */
  lemma UnresolvedCodeDropsFilter(entries: seq<Entry>, langs: seq<Language>, q: string, code: string,
                                  limit: int, page: int, hits: seq<EntryId>)
    requires limit > 0
    requires FindByCode(langs, code).None?
    ensures Search(entries, langs, q, code, limit, page, hits) == Search(entries, langs, q, "", limit, page, hits)
  {
    assert BuildQuery(q, code, langs) == BuildQuery(q, "", langs);
  }

  /** The query string's defaults: `limit = 10, page = 1`. */
  const DefaultLimit: int := 10
  const DefaultPage: int := 1

  /** The handler with `limit` and `page` as they arrive, absent or given:
      an absent page is the first, an absent limit is ten. */
  function SearchWithDefaults(entries: seq<Entry>, langs: seq<Language>, q: string, code: string,
                              limit: Option<int>, page: Option<int>, hits: seq<EntryId>): (r: Result<SearchPage>)
    requires limit.None? || limit.value > 0
    ensures page.Some? ==> (r.Err? <==> page.value < 1)
    ensures page.None? ==> r.Ok? && r.value.page == DefaultPage
    ensures r.Ok? ==> |r.value.entries| <= if limit.Some? then limit.value else DefaultLimit
    ensures r == Search(entries, langs, q, code, if limit.Some? then limit.value else DefaultLimit,
                        if page.Some? then page.value else DefaultPage, hits)
    ensures limit.None? && page.None? ==>
              var ms := Matched(entries, langs, q, code, hits);
              r.Ok? && r.value.entries == if |ms| <= DefaultLimit then ms else ms[..DefaultLimit]
  {
    var lim := if limit.Some? then limit.value else DefaultLimit;
    var pg := if page.Some? then page.value else DefaultPage;
    Search(entries, langs, q, code, lim, pg, hits)
  }

  lemma MulMonotone(a: int, b: int, c: int)
    requires 0 <= a <= b && c >= 0
    ensures a * c <= b * c
  {
    assert b * c - a * c == (b - a) * c;
  }

  /** The pagination record is consistent with the pages themselves: page
      `p` (from 1) holds entries exactly when `p <= pages`. */
  lemma PageNonEmptyIff(entries: seq<Entry>, langs: seq<Language>, q: string, code: string,
                        limit: int, page: int, hits: seq<EntryId>)
    requires limit > 0 && page >= 1
    ensures var r := Search(entries, langs, q, code, limit, page, hits);
            r.Ok? && (|r.value.entries| > 0 <==> page <= r.value.pages)
  {
    var r := Search(entries, langs, q, code, limit, page, hits);
    var ms := Matched(entries, langs, q, code, hits);
    var total, pages, a := |ms|, PageCount(|ms|, limit), page - 1;
    if a < pages {
      MulMonotone(a, pages - 1, limit);
      assert a * limit < total;
    } else {
      MulMonotone(pages, a, limit);
      assert a * limit >= total;
    }
  }
}
