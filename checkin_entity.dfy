/** The `study_checkins` entity: a row value and the mutable JPA entity object. */
module CheckInEntity {
  import opened Outcomes

  /** Column length of `note`. */
  const NoteLength: nat := 400

  /** A row of `study_checkins`: `userId`'s progress on `guideId` for one day.
      `day` is null only on an entity that was never given one; `note` is a
      nullable column. */
  datatype CheckInRecord = CheckInRecord(
    id: int,
    userId: int,
    guideId: int,
    day: Option<Day>,
    progress: int,
    note: Option<string>,
    createdAt: Instant)

  class StudyCheckIn {
    var id: int
    var userId: int
    var guideId: int
    var day: Option<Day>
    var progress: int
    var note: Option<string>
    /** Set once, when the object is created; there is no setter. */
    const createdAt: Instant

    function Record(): CheckInRecord
      reads this
    {
      CheckInRecord(id, userId, guideId, day, progress, note, createdAt)
    }

    /** `new StudyCheckIn()` at time `now`: progress 0, no day and no note yet.
        The user and guide references start at 0, which no row has as id; every
        caller sets them. */
    constructor (now: Instant)
      ensures Record() == CheckInRecord(0, 0, 0, None, 0, None, now)
    {
      id := 0;
      userId := 0;
      guideId := 0;
      day := None;
      progress := 0;
      note := None;
      createdAt := now;
    }

    constructor Load(r: CheckInRecord)
      ensures Record() == r
    {
      id := r.id;
      userId := r.userId;
      guideId := r.guideId;
      day := r.day;
      progress := r.progress;
      note := r.note;
      createdAt := r.createdAt;
    }

    method SetUserId(v: int)
      modifies this`userId
      ensures Record() == old(Record()).(userId := v)
    {
      userId := v;
    }

    method SetGuideId(v: int)
      modifies this`guideId
      ensures Record() == old(Record()).(guideId := v)
    {
      guideId := v;
    }

    method SetDay(v: Day)
      modifies this`day
      ensures Record() == old(Record()).(day := Some(v))
    {
      day := Some(v);
    }

    /** `setProgress`: no range check here; the 0 to 100 range is enforced on
        the request body. */
    method SetProgress(v: int)
      modifies this`progress
      ensures Record() == old(Record()).(progress := v)
    {
      progress := v;
    }

    method SetNote(v: Option<string>)
      modifies this`note
      ensures Record() == old(Record()).(note := v)
    {
      note := v;
    }
  }
}
