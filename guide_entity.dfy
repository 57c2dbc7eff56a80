/** The `guides` entity: a row value and the mutable JPA entity object. */
module GuideEntity {
  import opened Outcomes

  datatype GuideCategory = TRAVEL | GAME | STUDY

  /** Column lengths of `title` and `template_key`. */
  const TitleLength: nat := 120
  const TemplateKeyLength: nat := 32

  /** A row of `guides`. The author reference is kept as the author's user id.
      `category` is null only on an entity that was never given one. */
  datatype GuideRecord = GuideRecord(
    id: int,
    authorId: int,
    title: string,
    category: Option<GuideCategory>,
    templateKey: Option<string>,
    contentMarkdown: string,
    createdAt: Instant,
    updatedAt: Instant,
    deleted: bool)

  /** Check-ins are offered only on study and game guides. */
  predicate SupportsCheckIn(g: GuideRecord)
  {
    g.category == Some(STUDY) || g.category == Some(GAME)
  }

  class Guide {
    var id: int
    var authorId: int
    var title: string
    var category: Option<GuideCategory>
    var templateKey: Option<string>
    var contentMarkdown: string
    /** Set once, when the object is created; there is no setter. */
    const createdAt: Instant
    var updatedAt: Instant
    /** Logical deletion: a deleted guide keeps its row. */
    var deleted: bool

    function Record(): GuideRecord
      reads this
    {
      GuideRecord(id, authorId, title, category, templateKey, contentMarkdown, createdAt, updatedAt, deleted)
    }

    /** `new Guide()` at time `now`: both timestamps are `now` and the guide is
        not deleted. No author (id 0) and no category yet; the non-null string
        columns start empty and every caller sets them. */
    constructor (now: Instant)
      ensures Record() == GuideRecord(0, 0, "", None, None, "", now, now, false)
    {
      id := 0;
      authorId := 0;
      title := "";
      category := None;
      templateKey := None;
      contentMarkdown := "";
      createdAt := now;
      updatedAt := now;
      deleted := false;
    }

    constructor Load(r: GuideRecord)
      ensures Record() == r
    {
      id := r.id;
      authorId := r.authorId;
      title := r.title;
      category := r.category;
      templateKey := r.templateKey;
      contentMarkdown := r.contentMarkdown;
      createdAt := r.createdAt;
      updatedAt := r.updatedAt;
      deleted := r.deleted;
    }

    method SetAuthor(authorId: int)
      modifies this`authorId
      ensures Record() == old(Record()).(authorId := authorId)
    {
      this.authorId := authorId;
    }

    method SetTitle(v: string)
      modifies this`title
      ensures Record() == old(Record()).(title := v)
    {
      title := v;
    }

    method SetCategory(v: Option<GuideCategory>)
      modifies this`category
      ensures Record() == old(Record()).(category := v)
    {
      category := v;
    }

    method SetTemplateKey(v: Option<string>)
      modifies this`templateKey
      ensures Record() == old(Record()).(templateKey := v)
    {
      templateKey := v;
    }

    method SetContentMarkdown(v: string)
      modifies this`contentMarkdown
      ensures Record() == old(Record()).(contentMarkdown := v)
    {
      contentMarkdown := v;
    }

    /** `touchUpdatedAt()` at time `now`: only `updatedAt` changes. */
    method TouchUpdatedAt(now: Instant)
      modifies this`updatedAt
      ensures Record() == old(Record()).(updatedAt := now)
    {
      updatedAt := now;
    }

    /** `setDeleted`: only the flag changes. */
    method SetDeleted(v: bool)
      modifies this`deleted
      ensures Record() == old(Record()).(deleted := v)
    {
      deleted := v;
    }
  }
}
