/** The `study_checkins` table and StudyCheckInRepository: the day-keyed
    lookup, the two ordered lists, the distinct-user count and the cascade
    deletes. */
module CheckInTable {
  import opened Outcomes
  import opened SeqUtil
  import opened Tables
  import opened CheckInEntity

  function CheckInIdOf(c: CheckInRecord): int { c.id }
  function WithCheckInId(c: CheckInRecord, id: int): CheckInRecord { c.(id := id) }
  function CheckInCreatedAt(c: CheckInRecord): int { c.createdAt }
  function CheckInUserOf(c: CheckInRecord): int { c.userId }
  /** The day as an ordering key; stored rows always have one. */
  function DayKey(c: CheckInRecord): int { if c.day.Some? then c.day.value else 0 }
  /** The columns of the unique key `uk_checkin_user_guide_day`. */
  function SlotOf(c: CheckInRecord): (int, int, Option<Day>) { (c.userId, c.guideId, c.day) }

  /** A row the column constraints accept: the day is set and the note fits. */
  predicate CheckInStorable(c: CheckInRecord)
  {
    c.day.Some? && (c.note.None? || |c.note.value| <= NoteLength)
  }

  /** The table invariant: valid ids, one row per (user, guide, day), storable rows. */
  predicate CheckInsValid(rows: seq<CheckInRecord>, nextId: int)
  {
    && IdsValid(rows, CheckInIdOf, nextId)
    && KeysUnique(rows, SlotOf)
    && forall i :: 0 <= i < |rows| ==> CheckInStorable(rows[i])
  }

  function IsSlot(u: int, g: int, d: Day): CheckInRecord -> bool
  {
    (c: CheckInRecord) => c.userId == u && c.guideId == g && c.day == Some(d)
  }

  function OfUserOnGuide(u: int, g: int): CheckInRecord -> bool
  {
    (c: CheckInRecord) => c.userId == u && c.guideId == g
  }

  function ByCheckInUser(u: int): CheckInRecord -> bool
  {
    (c: CheckInRecord) => c.userId == u
  }

  function OnCheckInGuide(g: int): CheckInRecord -> bool
  {
    (c: CheckInRecord) => c.guideId == g
  }

  /** `findByUserIdAndGuideIdAndDay(u, g, d)` */
  function FindByUserIdAndGuideIdAndDay(rows: seq<CheckInRecord>, u: int, g: int, d: Day): (r: Option<CheckInRecord>)
    ensures r.Some? ==> r.value in rows && r.value.userId == u && r.value.guideId == g && r.value.day == Some(d)
    ensures r.None? <==> forall c :: c in rows ==> !(c.userId == u && c.guideId == g && c.day == Some(d))
  {
    First(rows, IsSlot(u, g, d))
  }

  /** The unique key makes the lookup's answer the only row for that day. */
  lemma SlotLookupUnique(rows: seq<CheckInRecord>, nextId: int, c: CheckInRecord)
    requires CheckInsValid(rows, nextId) && c in rows && c.day.Some?
    ensures FindByUserIdAndGuideIdAndDay(rows, c.userId, c.guideId, c.day.value) == Some(c)
    ensures Count(rows, IsSlot(c.userId, c.guideId, c.day.value)) == 1
  {
    var p := IsSlot(c.userId, c.guideId, c.day.value);
    FirstUnique(rows, SlotOf, SlotOf(c), p, c);
    AtMostOneWithKey(rows, SlotOf, SlotOf(c), p);
    CountPositive(rows, p);
  }

  /** `findByUserIdAndGuideIdOrderByDayAsc(u, g)`: exactly the pair's rows, by
      day; under the table invariant each day occurs once, so the days rise
      strictly. */
  function FindByUserIdAndGuideIdOrderByDayAsc(rows: seq<CheckInRecord>, u: int, g: int): (r: seq<CheckInRecord>)
    ensures forall c :: c in r <==> c in rows && c.userId == u && c.guideId == g
    ensures multiset(r) == multiset(Filter(rows, OfUserOnGuide(u, g)))
    ensures SortedBy(r, DayKey)
  {
    var f := Filter(rows, OfUserOnGuide(u, g));
    var r := SortBy(f, DayKey);
    PermutationSameElements(f, r);
    r
  }

  /** Two different rows of one user on one guide are on different days. */
  lemma SlotsDifferInDay(rows: seq<CheckInRecord>, nextId: int, x: CheckInRecord, y: CheckInRecord)
    requires CheckInsValid(rows, nextId) && x in rows && y in rows && x != y
    requires x.userId == y.userId && x.guideId == y.guideId
    ensures x.day.Some? && y.day.Some? && x.day.value != y.day.value
  {
    var a :| 0 <= a < |rows| && rows[a] == x;
    var b :| 0 <= b < |rows| && rows[b] == y;
    assert SlotOf(rows[a]) != SlotOf(rows[b]);
    assert CheckInStorable(rows[a]) && CheckInStorable(rows[b]);
  }

  lemma DaysStrictlyAscending(rows: seq<CheckInRecord>, nextId: int, u: int, g: int)
    requires CheckInsValid(rows, nextId)
    ensures var r := FindByUserIdAndGuideIdOrderByDayAsc(rows, u, g);
      forall i, j :: 0 <= i < j < |r| ==> r[i].day.Some? && r[i].day.value < r[j].day.value
  {
    var f := Filter(rows, OfUserOnGuide(u, g));
    var r := FindByUserIdAndGuideIdOrderByDayAsc(rows, u, g);
    KeysUniqueFilter(rows, SlotOf, OfUserOnGuide(u, g));
    KeysUniqueNoDuplicates(f, SlotOf);
    PermutationNoDuplicates(f, r);
    forall i, j | 0 <= i < j < |r| ensures r[i].day.Some? && r[i].day.value < r[j].day.value {
      assert r[i] in r && r[j] in r;
      SlotsDifferInDay(rows, nextId, r[i], r[j]);
      assert DayKey(r[i]) <= DayKey(r[j]);
    }
  }

  /** `findByUserIdOrderByCreatedAtDesc(u, pageable)`: one page of u's rows, newest first. */
  function FindByUserIdOrderByCreatedAtDesc(rows: seq<CheckInRecord>, u: int, p: Pageable): (r: seq<CheckInRecord>)
    ensures |r| <= p.size
    ensures forall c :: c in r ==> c in rows && c.userId == u
    ensures SortedDescBy(r, CheckInCreatedAt)
    ensures p.page == 0 && |Filter(rows, ByCheckInUser(u))| <= p.size ==>
      multiset(r) == multiset(Filter(rows, ByCheckInUser(u)))
  {
    NewestFirstPage(Filter(rows, ByCheckInUser(u)), p, CheckInCreatedAt)
  }

  /** `countDistinctUserIdByGuideId(g)`: the number of different users with a
      row for `g`; never more than g's rows, and zero only without any. */
  function CountDistinctUserIdByGuideId(rows: seq<CheckInRecord>, g: int): (n: nat)
    ensures n <= Count(rows, OnCheckInGuide(g))
    ensures n == 0 <==> forall c :: c in rows ==> c.guideId != g
  {
    var f := Filter(rows, OnCheckInGuide(g));
    DistinctCountBound(f, CheckInUserOf);
    CountPositive(rows, OnCheckInGuide(g));
    DistinctCount(f, CheckInUserOf)
  }

  /** `save`: an unstorable row or a second row for a (user, guide, day) is a
      data-integrity violation and changes nothing. */
  function SaveCheckIn(rows: seq<CheckInRecord>, nextId: int, e: CheckInRecord): (s: Saved<CheckInRecord>)
    requires CheckInsValid(rows, nextId) && e.id >= 0
    ensures CheckInsValid(s.rows, s.nextId)
    ensures s.result.Err? ==> s.rows == rows && s.nextId == nextId
    ensures !CheckInStorable(e) ==> s.result == Err(DataIntegrityViolation)
    ensures (exists c :: c in rows && c.id != e.id && SlotOf(c) == SlotOf(e)) ==> s.result == Err(DataIntegrityViolation)
    ensures CheckInStorable(e) && !(exists c :: c in rows && c.id != e.id && SlotOf(c) == SlotOf(e)) ==>
      s == Upsert(rows, nextId, e, CheckInIdOf, WithCheckInId)
  {
    if !CheckInStorable(e) || exists c :: c in rows && c.id != e.id && SlotOf(c) == SlotOf(e) then
      Saved(rows, nextId, Err(DataIntegrityViolation))
    else
      UpsertRows(rows, nextId, e, CheckInIdOf, WithCheckInId);
      UpsertKeepsKeys(rows, nextId, e, CheckInIdOf, WithCheckInId, SlotOf);
      Upsert(rows, nextId, e, CheckInIdOf, WithCheckInId)
  }

  /** Saving a stored row with only its progress and note changed overwrites
      that row in place; it stays the only row for its day. */
  lemma SaveOverwritesCheckIn(rows: seq<CheckInRecord>, nextId: int, c: CheckInRecord, progress: int, note: Option<string>)
    requires CheckInsValid(rows, nextId) && c in rows
    requires note.None? || |note.value| <= NoteLength
    ensures var e := c.(progress := progress, note := note);
      var s := SaveCheckIn(rows, nextId, e);
      && s == Saved(ReplaceRow(rows, CheckInIdOf, e), nextId, Ok(e))
      && Count(s.rows, IsSlot(c.userId, c.guideId, c.day.value)) == 1
  {
    var e := c.(progress := progress, note := note);
    var k :| 0 <= k < |rows| && rows[k] == c;
    assert CheckInStorable(rows[k]);
    forall x | x in rows && x.id != e.id ensures SlotOf(x) != SlotOf(e) {
      var j :| 0 <= j < |rows| && rows[j] == x;
      assert j != k;
    }
    StoredIdIssued(rows, CheckInIdOf, nextId, c);
    var s := SaveCheckIn(rows, nextId, e);
    assert s.rows[k] == e;
    SlotLookupUnique(s.rows, s.nextId, e);
  }

  /** Deleting rows keeps the table invariant. */
  lemma FilterKeepsCheckIns(rows: seq<CheckInRecord>, nextId: int, p: CheckInRecord -> bool)
    requires CheckInsValid(rows, nextId)
    ensures CheckInsValid(Filter(rows, p), nextId)
  {
    FilterKeepsKeys(rows, nextId, CheckInIdOf, SlotOf, p);
    var r := Filter(rows, p);
    forall i | 0 <= i < |r| ensures CheckInStorable(r[i]) {
      assert r[i] in rows;
    }
  }

  class CheckInRepository {
    var rows: seq<CheckInRecord>
    var nextId: int

    ghost predicate Valid()
      reads this
    {
      CheckInsValid(rows, nextId)
    }

    constructor ()
      ensures Valid() && rows == [] && nextId == 1
    {
      rows := [];
      nextId := 1;
    }

    method Save(c: StudyCheckIn) returns (r: Result<CheckInRecord>)
      requires Valid() && c.id >= 0
      modifies this
      ensures Valid()
      ensures Saved(rows, nextId, r) == SaveCheckIn(old(rows), old(nextId), c.Record())
    {
      var s := SaveCheckIn(rows, nextId, c.Record());
      rows, nextId, r := s.rows, s.nextId, s.result;
    }

    /** `deleteByGuideId(g)`: removes every row for guide `g`. */
    method DeleteByGuideId(g: int)
      requires Valid()
      modifies this`rows
      ensures Valid()
      ensures rows == Filter(old(rows), Not(OnCheckInGuide(g)))
      ensures forall c :: c in rows <==> c in old(rows) && c.guideId != g
    {
      FilterKeepsCheckIns(rows, nextId, Not(OnCheckInGuide(g)));
      rows := Filter(rows, Not(OnCheckInGuide(g)));
    }

    /** `deleteByUserId(u)`: removes every row of user `u`. */
    method DeleteByUserId(u: int)
      requires Valid()
      modifies this`rows
      ensures Valid()
      ensures rows == Filter(old(rows), Not(ByCheckInUser(u)))
      ensures forall c :: c in rows <==> c in old(rows) && c.userId != u
    {
      FilterKeepsCheckIns(rows, nextId, Not(ByCheckInUser(u)));
      rows := Filter(rows, Not(ByCheckInUser(u)));
    }
  }
}
