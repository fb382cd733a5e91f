/**
 The SPACES table (database/SQLDatabase.cpp): one function for the effect of each statement, the generic meaning of an
 SQL UPDATE under the UNIQUE constraint that those effects are proved against, and the database object.
 */
module SpaceTable {
  import opened Basics

  /** FREE, RESERVED and OCCUPIED, in the order of their numbers. */
  datatype SpaceState = Free | Reserved | Occupied

  /** SECTION, STATE, LAST_CHANGE and OCCUPANT_PLATE; a plate may be the empty string, which is not NULL. */
  datatype Row = Row(section: string, state: SpaceState, lastChange: int, plate: Option<string>)

  /** Rows by PID. */
  type Table = map<int, Row>

  /** What a query returns about a space; a NULL plate reads as the empty string. */
  datatype Space = Space(id: int, state: SpaceState, section: string, occupant: string)

  const EXPIRATION := 45 * 60

  function SpaceOf(t: Table, id: int): Space
    requires id in t
  {
    Space(id, t[id].state, t[id].section, if t[id].plate.Some? then t[id].plate.value else "")
  }

  /** UNIQUE(OCCUPANT_PLATE): no two rows hold the same plate; NULLs do not clash. */
  ghost predicate Unique(t: Table) {
    forall a, b :: a in t && b in t && a != b && t[a].plate.Some? ==> t[a].plate != t[b].plate
  }

  /** Does another row hold the plate? */
  predicate Clashes(t: Table, id: int, plate: string) {
    exists r :: r in t && r != id && t[r].plate == Some(plate)
  }

  predicate HasReservation(t: Table, id: int, plate: string) {
    id in t && t[id].state == Reserved && t[id].plate == Some(plate)
  }

  // ---------- the statements ----------

  function Inserted(t: Table, id: int, section: string, now: int): Table {
    if id in t then t else t[id := Row(section, Free, now, None)]
  }

  /** UPDATE_SPACE: an empty plate is stored as NULL. */
  function StateUpdated(t: Table, id: int, state: SpaceState, plate: string, now: int): Table {
    if id !in t || (plate != "" && Clashes(t, id, plate)) then t
    else t[id := Row(t[id].section, state, now, if plate == "" then None else Some(plate))]
  }

  predicate CanReserve(t: Table, id: int, plate: string) {
    id in t && t[id].state == Free && !Clashes(t, id, plate)
  }

  /** MAKE_RESERVATION. */
  function ReservationMade(t: Table, id: int, plate: string, now: int): Table {
    if CanReserve(t, id, plate) then t[id := Row(t[id].section, Reserved, now, Some(plate))] else t
  }

  /** DELETE_RESERVATION_FOR_PLATE: the plate is cleared. */
  function PlateCancelled(t: Table, plate: string, now: int): Table {
    map id | id in t :: if HasReservation(t, id, plate) then Row(t[id].section, Free, now, None) else t[id]
  }

  /** DELETE_RESERVATION_FOR_SPACE: the plate stays in the row. */
  function SpotCancelled(t: Table, id: int, now: int): Table {
    if id in t && t[id].state == Reserved then t[id := Row(t[id].section, Free, now, t[id].plate)] else t
  }

  /** UPDATE_SPACE_PLATE succeeds on no row at all, and whatever the state of the row. */
  predicate CanStorePlate(t: Table, id: int, plate: string) {
    id in t ==> !Clashes(t, id, plate)
  }

  function PlateStored(t: Table, id: int, plate: string): Table {
    if id in t && !Clashes(t, id, plate) then t[id := t[id].(plate := Some(plate))] else t
  }

  /** SELECT_EXPIRED_RESERVATIONS. */
  predicate Expired(t: Table, id: int, now: int) {
    id in t && t[id].state == Reserved && t[id].lastChange <= now - EXPIRATION
  }

  // ---------- what an UPDATE means ----------

  /** UPDATE SPACES SET .. WHERE ..: every selected row is rewritten, unless that would break the constraint. */
  ghost function Update(t: Table, selected: (int, Row) -> bool, rewritten: Row -> Row): (r: Option<Table>) {
    var t' := map id | id in t :: if selected(id, t[id]) then rewritten(t[id]) else t[id];
    if Unique(t') then Some(t') else None
  }

  /** The table after an UPDATE: a failed one changes nothing. */
  ghost function After(t: Table, outcome: Option<Table>): Table {
    if outcome.Some? then outcome.value else t
  }

  /** How many rows an UPDATE selects; `sqlite3_changes` reports that number after a successful one. */
  ghost predicate SelectsSome(t: Table, selected: (int, Row) -> bool) {
    exists id :: id in t && selected(id, t[id])
  }

  lemma RewritingOneRow(t: Table, id: int, row: Row)
    requires Unique(t) && id in t
    ensures Unique(t[id := row]) <==> (row.plate.Some? ==> !Clashes(t, id, row.plate.value))
  {
    var t' := t[id := row];
    if row.plate.Some? && Clashes(t, id, row.plate.value) {
      var r :| r in t && r != id && t[r].plate == Some(row.plate.value);
      assert t'[r].plate == t'[id].plate;
    }
  }

  lemma UpdateOfOne(t: Table, id: int, selected: (int, Row) -> bool, rewritten: Row -> Row)
    requires Unique(t)
    requires forall k, r :: selected(k, r) ==> k == id
    ensures id in t && selected(id, t[id]) ==>
              var plate := rewritten(t[id]).plate;
              Update(t, selected, rewritten) ==
                if plate.Some? && Clashes(t, id, plate.value) then None else Some(t[id := rewritten(t[id])])
    ensures id !in t || !selected(id, t[id]) ==> Update(t, selected, rewritten) == Some(t)
  {
    var t' := map k | k in t :: if selected(k, t[k]) then rewritten(t[k]) else t[k];
    assert t'.Keys == t.Keys;
    assert forall k :: k in t && k != id ==> t'[k] == t[k];
    if id in t && selected(id, t[id]) {
      assert t'[id] == rewritten(t[id]);
      assert t' == t[id := rewritten(t[id])];
      RewritingOneRow(t, id, rewritten(t[id]));
    } else {
      assert t' == t;
    }
  }

  /** UPDATE_SPACE is an UPDATE of the row with the given PID. */
  lemma StateUpdatedIsUpdate(t: Table, id: int, state: SpaceState, plate: string, now: int)
    requires Unique(t)
    ensures StateUpdated(t, id, state, plate, now) ==
            After(t, Update(t, (k, r) => k == id,
                            (r: Row) => Row(r.section, state, now, if plate == "" then None else Some(plate))))
  {
    UpdateOfOne(t, id, (k, r) => k == id,
                (r: Row) => Row(r.section, state, now, if plate == "" then None else Some(plate)));
  }

  /** MAKE_RESERVATION reports success exactly if the UPDATE meets no clash and selects the free row. */
  lemma ReservationMadeIsUpdate(t: Table, id: int, plate: string, now: int)
    requires Unique(t)
    ensures var selected, rewritten := (k: int, r: Row) => k == id && r.state == Free,
                                       (r: Row) => Row(r.section, Reserved, now, Some(plate));
            && ReservationMade(t, id, plate, now) == After(t, Update(t, selected, rewritten))
            && (CanReserve(t, id, plate) <==> Update(t, selected, rewritten).Some? && SelectsSome(t, selected))
  {
    var selected := (k: int, r: Row) => k == id && r.state == Free;
    var rewritten := (r: Row) => Row(r.section, Reserved, now, Some(plate));
    UpdateOfOne(t, id, selected, rewritten);
    if id in t && t[id].state == Free {
      assert selected(id, t[id]);
    }
  }

  /** DELETE_RESERVATION_FOR_SPACE reports success exactly if the space is reserved. */
  lemma SpotCancelledIsUpdate(t: Table, id: int, now: int)
    requires Unique(t)
    ensures var selected, rewritten := (k: int, r: Row) => k == id && r.state == Reserved,
                                       (r: Row) => Row(r.section, Free, now, r.plate);
            && Update(t, selected, rewritten) == Some(SpotCancelled(t, id, now))
            && (SelectsSome(t, selected) <==> id in t && t[id].state == Reserved)
  {
    var selected := (k: int, r: Row) => k == id && r.state == Reserved;
    var rewritten := (r: Row) => Row(r.section, Free, now, r.plate);
    UpdateOfOne(t, id, selected, rewritten);
    if id in t && t[id].state == Reserved {
      assert selected(id, t[id]);
    }
  }

  /** UPDATE_SPACE_PLATE succeeds exactly if the UPDATE does. */
  lemma PlateStoredIsUpdate(t: Table, id: int, plate: string)
    requires Unique(t)
    ensures var outcome := Update(t, (k, r) => k == id, (r: Row) => r.(plate := Some(plate)));
            && PlateStored(t, id, plate) == After(t, outcome)
            && (CanStorePlate(t, id, plate) <==> outcome.Some?)
  {
    UpdateOfOne(t, id, (k, r) => k == id, (r: Row) => r.(plate := Some(plate)));
  }

  /** DELETE_RESERVATION_FOR_PLATE never clashes, and changes one row at most. */
  lemma PlateCancelledIsUpdate(t: Table, plate: string, now: int)
    requires Unique(t)
    ensures var selected, rewritten := (k: int, r: Row) => r.state == Reserved && r.plate == Some(plate),
                                       (r: Row) => Row(r.section, Free, now, None);
            Update(t, selected, rewritten) == Some(PlateCancelled(t, plate, now))
    ensures forall id :: HasReservation(t, id, plate) ==>
              PlateCancelled(t, plate, now) == t[id := Row(t[id].section, Free, now, None)]
    ensures (forall id :: !HasReservation(t, id, plate)) ==> PlateCancelled(t, plate, now) == t
  {
    var selected := (k: int, r: Row) => r.state == Reserved && r.plate == Some(plate);
    var rewritten := (r: Row) => Row(r.section, Free, now, None);
    var t' := map id | id in t :: if selected(id, t[id]) then rewritten(t[id]) else t[id];
    assert t' == PlateCancelled(t, plate, now);
    assert Unique(t');
  }

  /** INSERT_SPACE: a new row is free, has no plate, and was changed now; every other row, and an old one, stays. */
  lemma InsertedRow(t: Table, id: int, section: string, now: int)
    ensures var t' := Inserted(t, id, section, now);
            && t'.Keys == t.Keys + {id} && (forall r :: r in t ==> t'[r] == t[r])
            && (id !in t ==> t'[id].section == section && t'[id].state == Free && t'[id].lastChange == now
                             && t'[id].plate == None)
  {
  }

  lemma InsertedIsUnique(t: Table, id: int, section: string, now: int)
    requires Unique(t)
    ensures Unique(Inserted(t, id, section, now))
  {
  }

  lemma Element<T>(s: set<T>) returns (x: T)
    requires s != {}
    ensures x in s
  {
    x :| x in s;
  }

  /** The listing holds the selected rows, each once. */
  ghost predicate ListsSpaces(t: Table, spaces: seq<Space>, selected: set<int>) {
    && (forall i :: 0 <= i < |spaces| ==>
          spaces[i].id in selected && spaces[i].id in t && spaces[i] == SpaceOf(t, spaces[i].id))
    && (forall i, j :: 0 <= i < j < |spaces| ==> spaces[i].id != spaces[j].id)
    && (forall id :: id in selected ==> exists i :: 0 <= i < |spaces| && spaces[i].id == id)
  }

  lemma ListsOneMore(t: Table, spaces: seq<Space>, selected: set<int>, id: int)
    requires ListsSpaces(t, spaces, selected) && id in t && id !in selected
    ensures ListsSpaces(t, spaces + [SpaceOf(t, id)], selected + {id})
  {
    var more := spaces + [SpaceOf(t, id)];
    forall k | k in selected + {id} ensures exists i :: 0 <= i < |more| && more[i].id == k {
      if k == id {
        assert more[|spaces|].id == id;
      } else {
        var i :| 0 <= i < |spaces| && spaces[i].id == k;
        assert more[i].id == k;
      }
    }
  }

  // ---------- the object ----------

  class SQLDatabase {
    var rows: Table

    constructor (rows: Table)
      ensures this.rows == rows
    {
      this.rows := rows;
    }

    method InsertSpace(id: int, section: string, now: int)
      modifies this
      ensures rows == Inserted(old(rows), id, section, now)
    {
      if id !in rows {
        rows := rows[id := Row(section, Free, now, None)];
      }
    }

    method GetStateForSpace(id: int) returns (space: Option<Space>)
      ensures space == if id in rows then Some(SpaceOf(rows, id)) else None
      ensures space.Some? ==>
                && space.value.id == id && space.value.state == rows[id].state
                && space.value.section == rows[id].section
                && space.value.occupant == match rows[id].plate case Some(plate) => plate case None => ""
    {
      space := if id in rows then Some(SpaceOf(rows, id)) else None;
    }

    /** Another row with the plate makes the statement fail; the failure is only printed. */
    method UpdateSpaceState(id: int, state: SpaceState, plate: string, now: int) returns (before: Option<Space>)
      modifies this
      ensures before == if id in old(rows) then Some(SpaceOf(old(rows), id)) else None
      ensures rows == StateUpdated(old(rows), id, state, plate, now)
    {
      before := GetStateForSpace(id);
      var stored := if plate == "" then None else Some(plate);
      if id in rows && (stored.None? || !Clashes(rows, id, plate)) {
        rows := rows[id := Row(rows[id].section, state, now, stored)];
      }
    }

    method AttemptToReserveSpot(id: int, plate: string, now: int) returns (done: bool)
      modifies this
      ensures done <==> CanReserve(old(rows), id, plate)
      ensures rows == ReservationMade(old(rows), id, plate, now)
    {
      var changes := 0;
      if id in rows && rows[id].state == Free {
        if Clashes(rows, id, plate) {
          return false;
        }
        rows := rows[id := Row(rows[id].section, Reserved, now, Some(plate))];
        changes := changes + 1;
      }
      done := changes > 0;
    }

    method CancelReservationsFor(plate: string, now: int) returns (done: bool)
      modifies this
      ensures done <==> exists id :: HasReservation(old(rows), id, plate)
      ensures rows == PlateCancelled(old(rows), plate, now)
    {
      done := exists id :: id in rows && HasReservation(rows, id, plate);
      rows := map id | id in rows ::
        if HasReservation(rows, id, plate) then Row(rows[id].section, Free, now, None) else rows[id];
    }

    method CancelReservationForSpot(id: int, now: int) returns (done: bool)
      modifies this
      ensures done <==> id in old(rows) && old(rows)[id].state == Reserved
      ensures rows == SpotCancelled(old(rows), id, now)
    {
      var changes := 0;
      if id in rows && rows[id].state == Reserved {
        rows := rows[id := Row(rows[id].section, Free, now, rows[id].plate)];
        changes := changes + 1;
      }
      done := changes > 0;
    }

    method UpdateSpacePlate(id: int, plate: string) returns (done: bool)
      modifies this
      ensures done <==> CanStorePlate(old(rows), id, plate)
      ensures rows == PlateStored(old(rows), id, plate)
    {
      if id in rows {
        if Clashes(rows, id, plate) {
          return false;
        }
        rows := rows[id := rows[id].(plate := Some(plate))];
      }
      done := true;
    }

    method GetReservationForLicensePlate(plate: string) returns (space: Option<Space>)
      ensures space.Some? ==>
                HasReservation(rows, space.value.id, plate) && space.value == SpaceOf(rows, space.value.id)
      ensures space.None? ==> forall id :: !HasReservation(rows, id, plate)
    {
      space := None;
      if exists id :: id in rows && HasReservation(rows, id, plate) {
        var id :| id in rows && HasReservation(rows, id, plate);
        space := Some(SpaceOf(rows, id));
      }
    }

    /** The rows come in no particular order, each once. */
    method FetchAllSpaceStates() returns (spaces: seq<Space>)
      ensures ListsSpaces(rows, spaces, rows.Keys)
    {
      spaces := SelectSpaces(rows.Keys);
    }

    method GetExpiredReserveStates(now: int) returns (spaces: seq<Space>)
      ensures ListsSpaces(rows, spaces, set id | id in rows && Expired(rows, id, now))
      ensures forall id :: (exists i :: 0 <= i < |spaces| && spaces[i].id == id) <==>
                             id in rows && rows[id].state == Reserved && now - rows[id].lastChange >= 2700
    {
      var expired := set id | id in rows && Expired(rows, id, now);
      spaces := SelectSpaces(expired);
      assert forall id :: id in expired <==>
                            id in rows && rows[id].state == Reserved && now - rows[id].lastChange >= 2700;
    }

    /** The loop over the rows of a result. */
    method SelectSpaces(selected: set<int>) returns (spaces: seq<Space>)
      requires selected <= rows.Keys
      ensures ListsSpaces(rows, spaces, selected)
    {
      spaces := [];
      var ahead := selected;
      while ahead != {}
        invariant ahead <= selected
        invariant ListsSpaces(rows, spaces, selected - ahead)
      {
        ghost var one := Element(ahead);
        var id :| id in ahead;
        ListsOneMore(rows, spaces, selected - ahead, id);
        assert selected - (ahead - {id}) == (selected - ahead) + {id};
        spaces := spaces + [SpaceOf(rows, id)];
        ahead := ahead - {id};
      }
      assert selected - ahead == selected;
    }
  }
}
