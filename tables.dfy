/** What every JPA table of the backend has in common: rows with a generated
    identity, `save` as insert-or-update, and query-derived deletes.

    A row's identity is assigned from a counter that starts at 1; an entity that
    has not been saved yet carries the id 0, which stands for Java's null id. */
module Tables {
  import opened Outcomes
  import opened SeqUtil

  /** The table and id counter after a `save`, and what `save` returned. */
  datatype Saved<T> = Saved(rows: seq<T>, nextId: int, result: Result<T>)

  /** A table after an operation that returns nothing, and the operation's outcome. */
  datatype Step<T> = Step(rows: seq<T>, nextId: int, outcome: Outcome)

  /** Ids are unique, at least 1, and below the counter, which starts at 1. */
  predicate IdsValid<T>(rows: seq<T>, idOf: T -> int, nextId: int)
  {
    && nextId >= 1
    && (forall i :: 0 <= i < |rows| ==> 1 <= idOf(rows[i]) < nextId)
    && KeysUnique(rows, idOf)
  }

  /** `existsById` */
  predicate HasRow<T>(rows: seq<T>, idOf: T -> int, id: int)
  {
    exists i :: 0 <= i < |rows| && idOf(rows[i]) == id
  }

  /** The row with `e`'s id replaced by `e` (the `merge` half of `save`). */
  function ReplaceRow<T>(rows: seq<T>, idOf: T -> int, e: T): (r: seq<T>)
    ensures |r| == |rows|
    ensures forall i :: 0 <= i < |rows| ==> r[i] == if idOf(rows[i]) == idOf(e) then e else rows[i]
  {
    seq(|rows|, i requires 0 <= i < |rows| => if idOf(rows[i]) == idOf(e) then e else rows[i])
  }

  /** `save` once the database constraints have been checked: an entity with
      no id is inserted under the next id; one with an id overwrites its row; a
      detached entity whose row is gone fails. */
  function Upsert<T>(rows: seq<T>, nextId: int, e: T, idOf: T -> int, setId: (T, int) -> T): (s: Saved<T>)
    ensures s.result.Ok? ==> s.result.value in s.rows
    ensures idOf(e) == 0 ==> s == Saved(rows + [setId(e, nextId)], nextId + 1, Ok(setId(e, nextId)))
    ensures idOf(e) != 0 && HasRow(rows, idOf, idOf(e)) ==> s == Saved(ReplaceRow(rows, idOf, e), nextId, Ok(e))
    ensures idOf(e) != 0 && !HasRow(rows, idOf, idOf(e)) ==> s == Saved(rows, nextId, Err(UncheckedException))
  {
    if idOf(e) == 0 then
      var x := setId(e, nextId);
      assert (rows + [x])[|rows|] == x;
      Saved(rows + [x], nextId + 1, Ok(x))
    else if HasRow(rows, idOf, idOf(e)) then
      var r := ReplaceRow(rows, idOf, e);
      var i :| 0 <= i < |rows| && idOf(rows[i]) == idOf(e);
      assert r[i] == e;
      Saved(r, nextId, Ok(e))
    else Saved(rows, nextId, Err(UncheckedException))
  }

  /** Every row after an upsert is an old row or the saved entity. */
  lemma UpsertRows<T>(rows: seq<T>, nextId: int, e: T, idOf: T -> int, setId: (T, int) -> T)
    ensures forall x :: x in Upsert(rows, nextId, e, idOf, setId).rows ==>
      x in rows || x == e || x == setId(e, nextId)
  {
    var s := Upsert(rows, nextId, e, idOf, setId);
    forall x | x in s.rows ensures x in rows || x == e || x == setId(e, nextId) {
      var i :| 0 <= i < |s.rows| && s.rows[i] == x;
      if idOf(e) == 0 && i == |rows| {
      } else if idOf(e) == 0 {
        assert x == rows[i];
      }
    }
  }

  /** An upsert keeps ids valid and keeps a unique key unique, provided no other
      row already carries the saved entity's key. */
  lemma UpsertKeepsKeys<T, K>(rows: seq<T>, nextId: int, e: T, idOf: T -> int, setId: (T, int) -> T, key: T -> K)
    requires IdsValid(rows, idOf, nextId) && KeysUnique(rows, key)
    requires idOf(e) >= 0
    requires forall x :: x in rows && idOf(x) != idOf(e) ==> key(x) != key(e)
    requires idOf(setId(e, nextId)) == nextId && key(setId(e, nextId)) == key(e)
    ensures var s := Upsert(rows, nextId, e, idOf, setId);
      IdsValid(s.rows, idOf, s.nextId) && KeysUnique(s.rows, key)
  {
    var s := Upsert(rows, nextId, e, idOf, setId);
    if idOf(e) == 0 {
      var x := setId(e, nextId);
      forall i, j | 0 <= i < j < |s.rows| ensures key(s.rows[i]) != key(s.rows[j]) && idOf(s.rows[i]) != idOf(s.rows[j]) {
        if j == |rows| {
          assert s.rows[i] == rows[i] && rows[i] in rows;
        } else {
          assert s.rows[i] == rows[i] && s.rows[j] == rows[j];
        }
      }
      forall i | 0 <= i < |s.rows| ensures 1 <= idOf(s.rows[i]) < s.nextId {
        if i < |rows| { assert s.rows[i] == rows[i]; }
      }
    } else if HasRow(rows, idOf, idOf(e)) {
      forall i, j | 0 <= i < j < |s.rows| ensures key(s.rows[i]) != key(s.rows[j]) && idOf(s.rows[i]) != idOf(s.rows[j]) {
        assert rows[i] in rows && rows[j] in rows;
      }
    }
  }

  /** A stored row's id was issued by the counter. */
  lemma StoredIdIssued<T>(rows: seq<T>, idOf: T -> int, nextId: int, x: T)
    requires IdsValid(rows, idOf, nextId) && x in rows
    ensures 1 <= idOf(x) < nextId && HasRow(rows, idOf, idOf(x))
  {
    var i :| 0 <= i < |rows| && rows[i] == x;
  }

  /** Saving a row exactly as it is stored leaves the table as it was. */
  lemma ReplaceSameRow<T>(rows: seq<T>, idOf: T -> int, nextId: int, x: T)
    requires IdsValid(rows, idOf, nextId) && x in rows
    ensures ReplaceRow(rows, idOf, x) == rows
  {
    var k :| 0 <= k < |rows| && rows[k] == x;
    assert forall i :: 0 <= i < |rows| && idOf(rows[i]) == idOf(x) ==> i == k;
  }

  /** An upsert keeps ids valid on a table without a further unique key. */
  lemma UpsertKeepsIds<T>(rows: seq<T>, nextId: int, e: T, idOf: T -> int, setId: (T, int) -> T)
    requires IdsValid(rows, idOf, nextId)
    requires idOf(e) >= 0 && idOf(setId(e, nextId)) == nextId
    ensures var s := Upsert(rows, nextId, e, idOf, setId);
      IdsValid(s.rows, idOf, s.nextId)
  {
    var s := Upsert(rows, nextId, e, idOf, setId);
    if idOf(e) == 0 {
      forall i, j | 0 <= i < j < |s.rows| ensures idOf(s.rows[i]) != idOf(s.rows[j]) {
        assert s.rows[i] == rows[i];
      }
      forall i | 0 <= i < |s.rows| ensures 1 <= idOf(s.rows[i]) < s.nextId {
        if i < |rows| { assert s.rows[i] == rows[i]; }
      }
    } else if HasRow(rows, idOf, idOf(e)) {
      forall i, j | 0 <= i < j < |s.rows| ensures idOf(s.rows[i]) != idOf(s.rows[j]) {
        assert rows[i] in rows && rows[j] in rows;
      }
    }
  }

  /** Deleting rows keeps ids valid and unique keys unique. */
  lemma FilterKeepsKeys<T(!new), K>(rows: seq<T>, nextId: int, idOf: T -> int, key: T -> K, p: T -> bool)
    requires IdsValid(rows, idOf, nextId) && KeysUnique(rows, key)
    ensures IdsValid(Filter(rows, p), idOf, nextId) && KeysUnique(Filter(rows, p), key)
  {
    KeysUniqueFilter(rows, idOf, p);
    KeysUniqueFilter(rows, key, p);
    var r := Filter(rows, p);
    forall i | 0 <= i < |r| ensures 1 <= idOf(r[i]) < nextId {
      assert r[i] in rows;
    }
  }
}
