/** The `guides` table behind GuideRepository: lookups that do or do not see
    logically deleted guides, the text search, and the author and feed finders. */
module GuideTable {
  import opened Outcomes
  import opened SeqUtil
  import opened Tables
  import opened JavaText
  import opened GuideEntity

  function GuideIdOf(g: GuideRecord): int { g.id }
  function WithGuideId(g: GuideRecord, id: int): GuideRecord { g.(id := id) }
  function GuideCreatedAt(g: GuideRecord): int { g.createdAt }
  function GuideUpdatedAt(g: GuideRecord): int { g.updatedAt }

  /** A row the column constraints accept: a category is set and the title and
      template key fit their columns. */
  predicate GuideStorable(g: GuideRecord)
  {
    && g.category.Some?
    && |g.title| <= TitleLength
    && (g.templateKey.None? || |g.templateKey.value| <= TemplateKeyLength)
  }

  predicate GuidesValid(rows: seq<GuideRecord>, nextId: int)
  {
    IdsValid(rows, GuideIdOf, nextId) && forall i :: 0 <= i < |rows| ==> GuideStorable(rows[i])
  }

  function GuideHasId(id: int): GuideRecord -> bool
  {
    (g: GuideRecord) => g.id == id
  }

  function LiveGuideHasId(id: int): GuideRecord -> bool
  {
    (g: GuideRecord) => g.id == id && !g.deleted
  }

  /** `existsById`: deleted guides still have their row. */
  predicate ExistsGuideById(rows: seq<GuideRecord>, id: int)
  {
    HasRow(rows, GuideIdOf, id)
  }

  /** `findById`: sees deleted guides too. */
  function FindGuideById(rows: seq<GuideRecord>, id: int): (r: Option<GuideRecord>)
    ensures r.Some? ==> r.value in rows && r.value.id == id
    ensures r.Some? <==> ExistsGuideById(rows, id)
  {
    First(rows, GuideHasId(id))
  }

  /** `existsByIdAndDeletedFalse` */
  predicate ExistsByIdAndDeletedFalse(rows: seq<GuideRecord>, id: int)
  {
    exists i :: 0 <= i < |rows| && rows[i].id == id && !rows[i].deleted
  }

  /** `findByIdWithAuthor`: only a guide that is not deleted. */
  function FindByIdWithAuthor(rows: seq<GuideRecord>, id: int): (r: Option<GuideRecord>)
    ensures r.Some? ==> r.value in rows && r.value.id == id && !r.value.deleted
    ensures r.Some? <==> ExistsByIdAndDeletedFalse(rows, id)
  {
    First(rows, LiveGuideHasId(id))
  }

  /** A deleted guide is absent for `findByIdWithAuthor` and
      `existsByIdAndDeletedFalse`, but present for `findById` and `existsById`;
      a guide that is not deleted is found by all four. */
  lemma LookupsAndDeletion(rows: seq<GuideRecord>, nextId: int, g: GuideRecord)
    requires GuidesValid(rows, nextId) && g in rows
    ensures FindGuideById(rows, g.id) == Some(g) && ExistsGuideById(rows, g.id)
    ensures g.deleted ==> FindByIdWithAuthor(rows, g.id).None? && !ExistsByIdAndDeletedFalse(rows, g.id)
    ensures !g.deleted ==> FindByIdWithAuthor(rows, g.id) == Some(g)
  {
    FirstUnique(rows, GuideIdOf, g.id, GuideHasId(g.id), g);
    if g.deleted {
    } else {
      var found := FindByIdWithAuthor(rows, g.id).value;
      var j :| 0 <= j < |rows| && rows[j] == found;
      var k :| 0 <= k < |rows| && rows[k] == g;
      assert j == k || GuideIdOf(rows[j]) != GuideIdOf(rows[k]);
    }
  }

  /** The `search` query's `where` clause: not deleted; a null category means
      any category; a null `q` means no text filter, otherwise lower(q) occurs in
      lower(title) or in lower(contentMarkdown). */
  function SearchMatches(category: Option<GuideCategory>, q: Option<string>): GuideRecord -> bool
  {
    (g: GuideRecord) =>
      && !g.deleted
      && (category.None? || g.category == category)
      && (q.None? || TextMatches(g, q.value))
  }

  predicate TextMatches(g: GuideRecord, q: string)
  {
    Contains(ToLowerCase(g.title), ToLowerCase(q)) || Contains(ToLowerCase(g.contentMarkdown), ToLowerCase(q))
  }

  /** `search(category, q, pageable)` before ordering and paging. */
  function Search(rows: seq<GuideRecord>, category: Option<GuideCategory>, q: Option<string>): (r: seq<GuideRecord>)
    ensures forall g :: g in r ==> g in rows && !g.deleted
    ensures forall g :: g in r ==> category.None? || g.category == category
    ensures forall g :: g in r && q.Some? ==> TextMatches(g, q.value)
    ensures forall g :: g in r <==>
      && g in rows && !g.deleted && (category.None? || g.category == category)
      && (q.None? || TextMatches(g, q.value))
  {
    Filter(rows, SearchMatches(category, q))
  }

  /** An empty text matches every guide: `q = ""` filters nothing. */
  lemma SearchEmptyText(rows: seq<GuideRecord>, category: Option<GuideCategory>)
    ensures Search(rows, category, Some("")) == Search(rows, category, None)
  {
    forall g | g in rows ensures SearchMatches(category, Some(""))(g) == SearchMatches(category, None)(g) {
      ContainsEmptyAndSelf(ToLowerCase(g.title));
      assert ToLowerCase("") == "";
    }
    FilterCongruent(rows, SearchMatches(category, Some("")), SearchMatches(category, None));
  }

  /** The text filter ignores ASCII case on both sides. */
  lemma SearchIgnoresCase(rows: seq<GuideRecord>, category: Option<GuideCategory>, q: string)
    ensures Search(rows, category, Some(ToLowerCase(q))) == Search(rows, category, Some(q))
  {
    ToLowerCaseIdempotent(q);
    FilterCongruent(rows, SearchMatches(category, Some(ToLowerCase(q))), SearchMatches(category, Some(q)));
  }

  function LiveInCategory(c: GuideCategory): GuideRecord -> bool
  {
    (g: GuideRecord) => g.category == Some(c) && !g.deleted
  }

  /** `findByCategoryAndDeletedFalse` before paging. */
  function FindByCategoryAndDeletedFalse(rows: seq<GuideRecord>, c: GuideCategory): seq<GuideRecord>
  {
    Filter(rows, LiveInCategory(c))
  }

  /** The derived category finder is the search with a category and no text. */
  lemma CategoryFinderIsSearch(rows: seq<GuideRecord>, c: GuideCategory)
    ensures FindByCategoryAndDeletedFalse(rows, c) == Search(rows, Some(c), None)
  {
    FilterCongruent(rows, LiveInCategory(c), SearchMatches(Some(c), None));
  }

  function LiveByAuthor(a: int): GuideRecord -> bool
  {
    (g: GuideRecord) => g.authorId == a && !g.deleted
  }

  function ByAuthor(a: int): GuideRecord -> bool
  {
    (g: GuideRecord) => g.authorId == a
  }

  function LiveByAuthors(authors: seq<int>): GuideRecord -> bool
  {
    (g: GuideRecord) => g.authorId in authors && !g.deleted
  }

  /** `findByAuthorIdAndDeletedFalseOrderByCreatedAtDesc(a, pageable)`: one
      page of `a`'s guides that are not deleted, newest first. */
  function FindByAuthorIdAndDeletedFalseOrderByCreatedAtDesc(rows: seq<GuideRecord>, a: int, p: Pageable): (r: seq<GuideRecord>)
    ensures |r| <= p.size
    ensures forall g :: g in r ==> g in rows && g.authorId == a && !g.deleted
    ensures SortedDescBy(r, GuideCreatedAt)
    ensures p.page == 0 && |Filter(rows, LiveByAuthor(a))| <= p.size ==>
      multiset(r) == multiset(Filter(rows, LiveByAuthor(a)))
  {
    NewestFirstPage(Filter(rows, LiveByAuthor(a)), p, GuideCreatedAt)
  }

  /** `findByAuthor_IdOrderByCreatedAtDesc(a, pageable)`: deleted guides included. */
  function FindByAuthorIdOrderByCreatedAtDesc(rows: seq<GuideRecord>, a: int, p: Pageable): (r: seq<GuideRecord>)
    ensures |r| <= p.size
    ensures forall g :: g in r ==> g in rows && g.authorId == a
    ensures SortedDescBy(r, GuideCreatedAt)
    ensures p.page == 0 && |Filter(rows, ByAuthor(a))| <= p.size ==>
      multiset(r) == multiset(Filter(rows, ByAuthor(a)))
  {
    NewestFirstPage(Filter(rows, ByAuthor(a)), p, GuideCreatedAt)
  }

  /** The feed query: the guides that are not deleted and whose author is in
      `authors`, newest first, one page. */
  function FindFeed(rows: seq<GuideRecord>, authors: seq<int>, p: Pageable): (r: seq<GuideRecord>)
    ensures |r| <= p.size
    ensures forall g :: g in r ==> g in rows && g.authorId in authors && !g.deleted
    ensures SortedDescBy(r, GuideCreatedAt)
    ensures p.page == 0 && |Filter(rows, LiveByAuthors(authors))| <= p.size ==>
      multiset(r) == multiset(Filter(rows, LiveByAuthors(authors)))
  {
    NewestFirstPage(Filter(rows, LiveByAuthors(authors)), p, GuideCreatedAt)
  }

  /** `save`: a null category, an over-long title or template key is a
      data-integrity violation and changes nothing. */
  function SaveGuide(rows: seq<GuideRecord>, nextId: int, e: GuideRecord): (s: Saved<GuideRecord>)
    requires GuidesValid(rows, nextId) && e.id >= 0
    ensures GuidesValid(s.rows, s.nextId)
    ensures s.result.Err? ==> s.rows == rows && s.nextId == nextId
    ensures !GuideStorable(e) ==> s.result == Err(DataIntegrityViolation)
    ensures GuideStorable(e) ==> s == Upsert(rows, nextId, e, GuideIdOf, WithGuideId)
  {
    if !GuideStorable(e) then Saved(rows, nextId, Err(DataIntegrityViolation))
    else
      UpsertRows(rows, nextId, e, GuideIdOf, WithGuideId);
      UpsertKeepsIds(rows, nextId, e, GuideIdOf, WithGuideId);
      Upsert(rows, nextId, e, GuideIdOf, WithGuideId)
  }

  class GuideRepository {
    var rows: seq<GuideRecord>
    var nextId: int

    ghost predicate Valid()
      reads this
    {
      GuidesValid(rows, nextId)
    }

    constructor ()
      ensures Valid() && rows == [] && nextId == 1
    {
      rows := [];
      nextId := 1;
    }

    method Save(g: Guide) returns (r: Result<GuideRecord>)
      requires Valid() && g.id >= 0
      modifies this
      ensures Valid()
      ensures Saved(rows, nextId, r) == SaveGuide(old(rows), old(nextId), g.Record())
    {
      var s := SaveGuide(rows, nextId, g.Record());
      rows, nextId, r := s.rows, s.nextId, s.result;
    }
  }
}
