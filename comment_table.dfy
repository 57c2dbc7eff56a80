/** The `comments` table and CommentRepository: the per-guide listing, oldest
    first, and the cascade deletes. Comment.java is not part of this model; a
    row is given the columns the service and the controller use. */
module CommentTable {
  import opened Outcomes
  import opened SeqUtil
  import opened Tables

  /** A row: `userId` wrote `content` on `guideId`. */
  datatype CommentRecord = CommentRecord(id: int, guideId: int, userId: int, content: string, createdAt: Instant)

  function CommentIdOf(c: CommentRecord): int { c.id }
  function WithCommentId(c: CommentRecord, id: int): CommentRecord { c.(id := id) }
  function CommentCreatedAt(c: CommentRecord): int { c.createdAt }

  predicate CommentsValid(rows: seq<CommentRecord>, nextId: int)
  {
    IdsValid(rows, CommentIdOf, nextId)
  }

  function OnCommentGuide(g: int): CommentRecord -> bool
  {
    (c: CommentRecord) => c.guideId == g
  }

  function ByCommenter(u: int): CommentRecord -> bool
  {
    (c: CommentRecord) => c.userId == u
  }

  /** `findByGuideIdOrderByCreatedAtAsc(g)`: exactly g's comments, oldest first. */
  function FindByGuideIdOrderByCreatedAtAsc(rows: seq<CommentRecord>, g: int): (r: seq<CommentRecord>)
    ensures forall c :: c in r <==> c in rows && c.guideId == g
    ensures multiset(r) == multiset(Filter(rows, OnCommentGuide(g)))
    ensures SortedBy(r, CommentCreatedAt)
  {
    var f := Filter(rows, OnCommentGuide(g));
    var r := SortBy(f, CommentCreatedAt);
    PermutationSameElements(f, r);
    r
  }

  /** `save` */
  function SaveComment(rows: seq<CommentRecord>, nextId: int, e: CommentRecord): (s: Saved<CommentRecord>)
    requires CommentsValid(rows, nextId) && e.id >= 0
    ensures CommentsValid(s.rows, s.nextId)
    ensures e.id == 0 ==> s == Saved(rows + [e.(id := nextId)], nextId + 1, Ok(e.(id := nextId)))
  {
    UpsertKeepsIds(rows, nextId, e, CommentIdOf, WithCommentId);
    Upsert(rows, nextId, e, CommentIdOf, WithCommentId)
  }

  class CommentRepository {
    var rows: seq<CommentRecord>
    var nextId: int

    ghost predicate Valid()
      reads this
    {
      CommentsValid(rows, nextId)
    }

    constructor ()
      ensures Valid() && rows == [] && nextId == 1
    {
      rows := [];
      nextId := 1;
    }

    method Save(e: CommentRecord) returns (r: Result<CommentRecord>)
      requires Valid() && e.id >= 0
      modifies this
      ensures Valid()
      ensures Saved(rows, nextId, r) == SaveComment(old(rows), old(nextId), e)
    {
      var s := SaveComment(rows, nextId, e);
      rows, nextId, r := s.rows, s.nextId, s.result;
    }

    /** `deleteByGuide_Id(g)`: removes exactly g's comments. */
    method DeleteByGuideId(g: int)
      requires Valid()
      modifies this`rows
      ensures Valid()
      ensures rows == Filter(old(rows), Not(OnCommentGuide(g)))
      ensures forall c :: c in rows <==> c in old(rows) && c.guideId != g
    {
      FilterKeepsKeys(rows, nextId, CommentIdOf, CommentIdOf, Not(OnCommentGuide(g)));
      rows := Filter(rows, Not(OnCommentGuide(g)));
    }

    /** `deleteByUser_Id(u)`: removes exactly u's comments. */
    method DeleteByUserId(u: int)
      requires Valid()
      modifies this`rows
      ensures Valid()
      ensures rows == Filter(old(rows), Not(ByCommenter(u)))
      ensures forall c :: c in rows <==> c in old(rows) && c.userId != u
    {
      FilterKeepsKeys(rows, nextId, CommentIdOf, CommentIdOf, Not(ByCommenter(u)));
      rows := Filter(rows, Not(ByCommenter(u)));
    }
  }
}
