/**
 The reservation protocol: what the sensors, the plate readers, the clients and the expiry thread make the server do
 (server/server.cpp and server/parkingspacesimpl.cpp), as functions on the server's world and as the objects that
 compute them.
 */
module ParkingServer {
  import opened Basics
  import opened SpaceTable

  /** The ReservationState of a published reservation update. */
  datatype Notice =
    | ReserveCancelled
    | ReserveCancelledExpired
    | ReserveCancelledParkedElsewhere
    | ReserveCancelledSpaceOccupied
    | ReserveOccupied
    | ReserveConcluded

  /** What the server sends out, in the order in which it does. */
  datatype Effect =
    | SpaceUpdate(space: int, section: string, state: SpaceState)
    | ReserveUpdate(space: int, notice: Notice)
    | EndReservationStreams(space: int)
    | PlateRequest(space: int)
    | ArduinoFlag(space: int, reserved: bool)

  /** The table, the plates the server waits for, and everything it has sent out. */
  datatype World = World(table: Table, pending: map<int, string>, log: seq<Effect>)

  datatype ReserveAnswer = Successful | FailedSpaceOccupied | FailedSpaceReserved | FailedPlateAlreadyHasReserve

  datatype CancelAnswer = CancelDone(space: int) | NoReservationForPlate

  // ---------- what each call does ----------

  /** The space a plate has reserved; there is one at most, because plates are unique. */
  ghost function Reservation(t: Table, plate: string): Option<int> {
    if exists id :: HasReservation(t, id, plate) then
      var id :| HasReservation(t, id, plate);
      Some(id)
    else None
  }

  ghost function Published(w: World, effects: seq<Effect>): World {
    w.(log := w.log + effects)
  }

  /** The plate is on another row: if that is a reservation it ends, and the plate moves to the space. */
  ghost function ReservationMoved(w: World, space: int, plate: string, now: int): World {
    match Reservation(w.table, plate)
    case None => w
    case Some(other) =>
      Published(w.(table := PlateStored(PlateCancelled(w.table, plate, now), space, plate)),
                [ReserveUpdate(other, ReserveCancelledParkedElsewhere), EndReservationStreams(other),
                 ArduinoFlag(other, false)])
  }

  /** `receiveLicensePlate`, for a space whose plate is awaited. */
  ghost function PlateArrived(w: World, space: int, plate: string, now: int): World
    requires space in w.pending
  {
    var w' := w.(pending := w.pending - {space});
    var refused := [ReserveUpdate(space, ReserveCancelledSpaceOccupied), EndReservationStreams(space)];
    if CanStorePlate(w.table, space, plate) then
      Published(w'.(table := PlateStored(w.table, space, plate)),
                if w.pending[space] == plate
                then [ReserveUpdate(space, ReserveConcluded), EndReservationStreams(space)] else refused)
    else
      Published(ReservationMoved(w', space, plate, now), refused)
  }

  /** A plate for a space that is not awaited has no defined effect in the original; here it has none. */
  ghost function PlateReceived(w: World, space: int, plate: string, now: int): World {
    if space in w.pending then PlateArrived(w, space, plate, now) else w
  }

  /** The plate request for a space that became occupied; `readers` readers got it. */
  ghost function PlateAsked(w: World, space: int, occupant: string, readers: nat, now: int): World {
    var pending := if space in w.pending then w.pending else w.pending[space := occupant];
    var asked := World(w.table, pending, w.log + [PlateRequest(space)]);
    if readers == 0 then PlateArrived(asked, space, "", now) else asked
  }

  /** `receiveParkingSpaceNotification`. */
  ghost function SpaceSensed(w: World, space: int, occupied: bool, readers: nat, now: int): World
    decreases if space in w.table then 0 else 1
  {
    var state := if occupied then Occupied else Free;
    var table := StateUpdated(w.table, space, state, "", now);
    if space !in w.table then
      SpaceSensed(w.(table := Inserted(table, space, "A", now)), space, occupied, readers, now)
    else
      var before := SpaceOf(w.table, space);
      var shown := Published(w.(table := table), [SpaceUpdate(space, before.section, state)]);
      if !occupied then shown
      else
        var asked := PlateAsked(shown, space, before.occupant, readers, now);
        if before.state == Reserved
        then Published(asked, [ReserveUpdate(space, ReserveOccupied), ArduinoFlag(space, false)])
        else asked
  }

  /** `attemptToReserveSpace`. */
  ghost function SpaceReserved(w: World, space: int, plate: string, now: int): World {
    if CanReserve(w.table, space, plate) then
      var table := ReservationMade(w.table, space, plate, now);
      Published(w.(table := table), [SpaceUpdate(space, table[space].section, table[space].state),
                                     ArduinoFlag(space, true)])
    else w
  }

  function AnswerToReserve(t: Table, space: int, plate: string): ReserveAnswer {
    if CanReserve(t, space, plate) then Successful
    else if space !in t || t[space].state == Occupied then FailedSpaceOccupied
    else if t[space].state == Reserved then FailedSpaceReserved
    else FailedPlateAlreadyHasReserve
  }

  /** `cancelSpaceReservation`. */
  ghost function ReservationCancelled(w: World, plate: string, now: int): World {
    match Reservation(w.table, plate)
    case None => w
    case Some(space) =>
      Published(w.(table := PlateCancelled(w.table, plate, now)),
                [SpaceUpdate(space, w.table[space].section, Free), ReserveUpdate(space, ReserveCancelled),
                 ArduinoFlag(space, false)])
  }

  /** What the expiry thread does for one space of its snapshot. */
  ghost function SpaceExpired(w: World, space: int, now: int): World {
    if space in w.table && w.table[space].state == Reserved then
      Published(w.(table := SpotCancelled(w.table, space, now)),
                [ReserveUpdate(space, ReserveCancelledExpired), ArduinoFlag(space, false)])
    else w
  }

  // ---------- plates ----------

  lemma ReservationIsUnique(t: Table, plate: string, id: int)
    requires Unique(t) && HasReservation(t, id, plate)
    ensures Reservation(t, plate) == Some(id)
  {
  }

  lemma StoringIsUnique(t: Table, id: int, plate: string)
    requires Unique(t)
    ensures Unique(PlateStored(t, id, plate))
  {
    if id in t && !Clashes(t, id, plate) {
      RewritingOneRow(t, id, t[id].(plate := Some(plate)));
    }
  }

  lemma CancellingFreesThePlate(t: Table, other: int, plate: string, now: int)
    requires Unique(t) && HasReservation(t, other, plate)
    ensures var t' := PlateCancelled(t, plate, now);
            && Unique(t') && t' == t[other := Row(t[other].section, Free, now, None)]
            && forall id :: !Clashes(t', id, plate)
  {
    PlateCancelledIsUpdate(t, plate, now);
    assert Unique(PlateCancelled(t, plate, now));
  }

  datatype PlateOutcome = StoredAtOnce | MovedFrom(other: int) | LeftAsItWas

  /** The plate is nowhere else; or it is on a reserved space; or it is on a space that is not reserved. */
  ghost function OutcomeOf(t: Table, space: int, plate: string): PlateOutcome {
    if CanStorePlate(t, space, plate) then StoredAtOnce
    else if Reservation(t, plate).Some? then MovedFrom(Reservation(t, plate).value)
    else LeftAsItWas
  }

  /**
   Plate resolution is complete and keeps plates unique. A plate that no other row holds is stored. A plate on another
   row leaves that row exactly if it is a reservation, which is freed and cleared, and then storing it succeeds.
   Otherwise the table stays as it is. Exactly this space stops being awaited.
   */
  lemma PlateResolution(w: World, space: int, plate: string, now: int)
    requires Unique(w.table) && space in w.pending
    ensures var w', t := PlateArrived(w, space, plate, now), w.table;
            && Unique(w'.table) && w'.pending == w.pending - {space}
            && match OutcomeOf(t, space, plate)
               case StoredAtOnce =>
                 if space !in t then w'.table == t
                 else (forall r :: r in t && t[r].plate == Some(plate) ==> r == space)
                      && w'.table == t[space := t[space].(plate := Some(plate))]
               case MovedFrom(other) =>
                 && other != space && space in t && HasReservation(t, other, plate)
                 && w'.table == t[other := Row(t[other].section, Free, now, None)]
                                 [space := t[space].(plate := Some(plate))]
               case LeftAsItWas =>
                 && w'.table == t
                 && exists r :: r in t && r != space && t[r].state != Reserved && t[r].plate == Some(plate)
  {
    var t := w.table;
    match OutcomeOf(t, space, plate)
    case StoredAtOnce =>
      StoringIsUnique(t, space, plate);
    case MovedFrom(other) =>
      CancellingFreesThePlate(t, other, plate, now);
      StoringIsUnique(PlateCancelled(t, plate, now), space, plate);
    case LeftAsItWas =>
      var r :| r in t && r != space && t[r].plate == Some(plate);
      assert t[r].state != Reserved by {
        if t[r].state == Reserved {
          assert HasReservation(t, r, plate);
        }
      }
  }

  /**
   What plate resolution tells the holders of reservations. First, a reservation that the plate left is told that its
   car parked somewhere else, its streams are ended and its flag lowered. Then the space is told CONCLUDED if the plate
   was stored at once and is the awaited one, and CANCELLED_SPACE_OCCUPIED otherwise, and its streams are ended.
   */
  lemma PlateNotices(w: World, space: int, plate: string, now: int)
    requires Unique(w.table) && space in w.pending
    ensures var outcome := OutcomeOf(w.table, space, plate);
            var notice := if outcome.StoredAtOnce? && w.pending[space] == plate then ReserveConcluded
                          else ReserveCancelledSpaceOccupied;
            PlateArrived(w, space, plate, now).log ==
              w.log
              + (if outcome.MovedFrom?
                 then [ReserveUpdate(outcome.other, ReserveCancelledParkedElsewhere),
                       EndReservationStreams(outcome.other), ArduinoFlag(outcome.other, false)]
                 else [])
              + [ReserveUpdate(space, notice), EndReservationStreams(space)]
  {
    assert w.log + [] == w.log;
  }

  // ---------- answers ----------

  /**
   The answer to a reservation tells the truth about the table it was given: success puts the plate on the free space
   and nowhere else and announces it; "reserved" and "plate already has a reserve" name the space's state, the latter
   with another row holding the plate; an unknown space is answered as an occupied one.
   */
  lemma ReserveAnswerIsTrue(w: World, space: int, plate: string, now: int)
    requires Unique(w.table)
    ensures var t, t' := w.table, SpaceReserved(w, space, plate, now).table;
            && Unique(t')
            && match AnswerToReserve(t, space, plate)
               case Successful =>
                 && HasReservation(t', space, plate) && t'[space].lastChange == now
                 && t'[space].section == t[space].section
                 && (forall r :: r in t' && t'[r].plate == Some(plate) ==> r == space)
                 && t' == t[space := t'[space]] && t[space].state == Free
               case FailedSpaceReserved => t' == t && space in t && t[space].state == Reserved
               case FailedSpaceOccupied => t' == t && (space in t ==> t[space].state == Occupied)
               case FailedPlateAlreadyHasReserve =>
                 && t' == t && space in t && t[space].state == Free
                 && exists r :: r in t && r != space && t[r].plate == Some(plate)
  {
    if CanReserve(w.table, space, plate) {
      RewritingOneRow(w.table, space, ReservationMade(w.table, space, plate, now)[space]);
    }
  }

  function AnswerToCancel(reservation: Option<int>): CancelAnswer {
    if reservation.Some? then CancelDone(reservation.value) else NoReservationForPlate
  }

  /** CANCELLED is answered exactly if the plate had a reservation, and names the one row that changed. */
  lemma CancelAnswerIsTrue(w: World, plate: string, now: int)
    requires Unique(w.table)
    ensures var t, t' := w.table, ReservationCancelled(w, plate, now).table;
            && Unique(t')
            && match AnswerToCancel(Reservation(t, plate))
               case CancelDone(space) =>
                 && HasReservation(t, space, plate) && t' == t[space := Row(t[space].section, Free, now, None)]
                 && (forall id :: HasReservation(t, id, plate) ==> id == space)
                 && (forall r :: r in t' ==> t'[r].plate != Some(plate))
               case NoReservationForPlate => t' == t && forall id :: !HasReservation(t, id, plate)
  {
    if Reservation(w.table, plate).Some? {
      CancellingFreesThePlate(w.table, Reservation(w.table, plate).value, plate, now);
    }
  }

  // ---------- everything a call sends ----------

  /** What the reservation with the empty plate on another space is told when that plate moves to the space. */
  ghost function LeftBy(t: Table, space: int): seq<Effect> {
    if exists r :: r != space && HasReservation(t, r, "") then
      var r :| r != space && HasReservation(t, r, "");
      [ReserveUpdate(r, ReserveCancelledParkedElsewhere), EndReservationStreams(r), ArduinoFlag(r, false)]
    else []
  }

  ghost predicate SameOthers(t: Table, t': Table, space: int) {
    forall r :: r != space ==> (r in t' <==> r in t) && (r in t ==> t'[r] == t[r])
  }

  lemma LeftByOthers(t: Table, t': Table, space: int)
    requires Unique(t) && Unique(t') && SameOthers(t, t', space)
    ensures LeftBy(t', space) == LeftBy(t, space)
    ensures Clashes(t', space, "") <==> Clashes(t, space, "")
  {
    forall r | r != space ensures HasReservation(t', r, "") <==> HasReservation(t, r, "") {
    }
    if Clashes(t, space, "") {
      var r :| r in t && r != space && t[r].plate == Some("");
      assert r in t' && t'[r].plate == Some("");
    }
    if Clashes(t', space, "") {
      var r :| r in t' && r != space && t'[r].plate == Some("");
      assert r in t && t[r].plate == Some("");
    }
  }

  lemma UnreadLog(w: World, space: int, now: int)
    requires Unique(w.table) && space in w.pending && space in w.table && w.table[space].plate.None?
    ensures var notice := if !Clashes(w.table, space, "") && w.pending[space] == "" then ReserveConcluded
                          else ReserveCancelledSpaceOccupied;
            PlateArrived(w, space, "", now).log ==
              w.log + LeftBy(w.table, space) + [ReserveUpdate(space, notice), EndReservationStreams(space)]
  {
    PlateNotices(w, space, "", now);
    if exists r :: r != space && HasReservation(w.table, r, "") {
      var r :| r != space && HasReservation(w.table, r, "");
      assert Clashes(w.table, space, "");
      ReservationIsUnique(w.table, "", r);
    } else {
      assert !HasReservation(w.table, space, "");
      assert w.log + [] == w.log;
    }
  }

  lemma KnownReportLog(w: World, space: int, occupied: bool, readers: nat, now: int)
    requires Unique(w.table) && space in w.table
    ensures var t := w.table;
            var awaited := if space in w.pending then w.pending[space] else SpaceOf(t, space).occupant;
            var shown := SpaceUpdate(space, t[space].section, if occupied then Occupied else Free);
            var notice := if !Clashes(t, space, "") && awaited == "" then ReserveConcluded
                          else ReserveCancelledSpaceOccupied;
            SpaceSensed(w, space, occupied, readers, now).log ==
              w.log + [shown]
              + (if occupied then [PlateRequest(space)] else [])
              + (if occupied && readers == 0
                 then LeftBy(t, space) + [ReserveUpdate(space, notice), EndReservationStreams(space)] else [])
              + (if occupied && t[space].state == Reserved
                 then [ReserveUpdate(space, ReserveOccupied), ArduinoFlag(space, false)] else [])
  {
    var state := if occupied then Occupied else Free;
    var t' := StateUpdated(w.table, space, state, "", now);
    RewritingOneRow(w.table, space, Row(w.table[space].section, state, now, None));
    LeftByOthers(w.table, t', space);
    var shown := w.log + [SpaceUpdate(space, w.table[space].section, state)];
    if occupied && readers == 0 {
      var pending := if space in w.pending then w.pending else w.pending[space := SpaceOf(w.table, space).occupant];
      var asked := World(t', pending, shown + [PlateRequest(space)]);
      UnreadLog(asked, space, now);
    }
  }

  /**
   A report sends the new state with the section of the row; then, for an occupied space, one plate request, the answer
   of an empty plate if no reader takes it, and the end of the reservation if there was one.
   */
  lemma ReportLog(w: World, space: int, occupied: bool, readers: nat, now: int)
    requires Unique(w.table)
    ensures var t, known := w.table, space in w.table;
            var awaited := if space in w.pending then w.pending[space]
                           else if known && t[space].plate.Some? then t[space].plate.value else "";
            var elsewhere := exists r :: r in t && r != space && t[r].plate == Some("");
            var section := if known then t[space].section else "A";
            var shown := SpaceUpdate(space, section, if occupied then Occupied else Free);
            var left := LeftBy(t, space);
            var notice := if !elsewhere && awaited == "" then ReserveConcluded else ReserveCancelledSpaceOccupied;
            SpaceSensed(w, space, occupied, readers, now).log ==
              w.log + [shown]
              + (if occupied then [PlateRequest(space)] else [])
              + (if occupied && readers == 0 then left + [ReserveUpdate(space, notice), EndReservationStreams(space)]
                 else [])
              + (if occupied && known && t[space].state == Reserved
                 then [ReserveUpdate(space, ReserveOccupied), ArduinoFlag(space, false)] else [])
  {
    if space in w.table {
      KnownReportLog(w, space, occupied, readers, now);
    } else {
      InsertedIsUnique(w.table, space, "A", now);
      var known := w.(table := Inserted(w.table, space, "A", now));
      KnownReportLog(known, space, occupied, readers, now);
      LeftByOthers(w.table, known.table, space);
    }
  }

  /**
   A reservation succeeds exactly if the space is free and no other row holds the plate; then it sends the row's section
   with the new state, and raises the flag. Otherwise it sends nothing.
   */
  lemma ReservationLog(w: World, space: int, plate: string, now: int)
    ensures var t := w.table;
            var free := && space in t && t[space].state == Free
                        && forall r :: r in t && r != space ==> t[r].plate != Some(plate);
            SpaceReserved(w, space, plate, now).log ==
              w.log + if free then [SpaceUpdate(space, t[space].section, Reserved), ArduinoFlag(space, true)] else []
  {
    assert w.log + [] == w.log;
  }

  /** A cancellation sends three things about the one space reserved for the plate, and nothing if there is none. */
  lemma CancellationLog(w: World, plate: string, now: int, space: int)
    requires Unique(w.table)
    ensures var t, log := w.table, ReservationCancelled(w, plate, now).log;
            && (space in t && t[space].state == Reserved && t[space].plate == Some(plate) ==>
                  log == w.log + [SpaceUpdate(space, t[space].section, Free), ReserveUpdate(space, ReserveCancelled),
                                  ArduinoFlag(space, false)])
            && ((forall r :: r in t && t[r].state == Reserved ==> t[r].plate != Some(plate)) ==> log == w.log)
  {
    if HasReservation(w.table, space, plate) {
      ReservationIsUnique(w.table, plate, space);
    }
  }

  /** An expiry tells the holder and lowers the flag, and shows nothing to the clients. */
  lemma ExpiryLog(w: World, space: int, now: int)
    ensures SpaceExpired(w, space, now).log ==
            w.log + if space in w.table && w.table[space].state == Reserved
                    then [ReserveUpdate(space, ReserveCancelledExpired), ArduinoFlag(space, false)] else []
  {
    assert w.log + [] == w.log;
  }

  // ---------- listings and snapshots ----------

  function Statuses(spaces: seq<Space>): seq<Effect> {
    if spaces == [] then []
    else var last := spaces[|spaces| - 1];
      Statuses(spaces[..|spaces| - 1]) + [SpaceUpdate(last.id, last.section, last.state)]
  }

  lemma {:induction false} StatusesAre(spaces: seq<Space>)
    ensures |Statuses(spaces)| == |spaces|
    ensures forall k :: 0 <= k < |spaces| ==>
              Statuses(spaces)[k] == SpaceUpdate(spaces[k].id, spaces[k].section, spaces[k].state)
  {
    if spaces != [] {
      StatusesAre(spaces[..|spaces| - 1]);
    }
  }

  /** Every row has its line, with its section and state, and there is no other line and none twice. */
  ghost predicate ShowsEachRowOnce(t: Table, lines: seq<Effect>) {
    && (forall id :: id in t ==> SpaceUpdate(id, t[id].section, t[id].state) in lines)
    && (forall k :: 0 <= k < |lines| ==>
          && lines[k].SpaceUpdate? && lines[k].space in t
          && lines[k].section == t[lines[k].space].section && lines[k].state == t[lines[k].space].state)
    && (forall j, k :: 0 <= j < k < |lines| ==> lines[j] != lines[k])
  }

  lemma ListingLines(t: Table, spaces: seq<Space>)
    requires ListsSpaces(t, spaces, t.Keys)
    ensures ShowsEachRowOnce(t, Statuses(spaces))
  {
    StatusesAre(spaces);
    forall id | id in t ensures SpaceUpdate(id, t[id].section, t[id].state) in Statuses(spaces) {
      var i :| 0 <= i < |spaces| && spaces[i].id == id;
      assert Statuses(spaces)[i] == SpaceUpdate(id, t[id].section, t[id].state);
    }
  }

  /** The spaces of a snapshot, expired one after the other at the same time. */
  ghost function SpacesExpired(w: World, order: seq<int>, now: int): World {
    if order == [] then w else SpaceExpired(SpacesExpired(w, order[..|order| - 1], now), order[|order| - 1], now)
  }

  function Ids(spaces: seq<Space>): (ids: seq<int>)
    ensures |ids| == |spaces| && forall i :: 0 <= i < |ids| ==> ids[i] == spaces[i].id
  {
    if spaces == [] then [] else Ids(spaces[..|spaces| - 1]) + [spaces[|spaces| - 1].id]
  }

  /** The expired reservations, each once, in some order. */
  ghost predicate Snapshot(t: Table, order: seq<int>, now: int) {
    && (forall id :: id in order <==> Expired(t, id, now))
    && (forall i, j :: 0 <= i < j < |order| ==> order[i] != order[j])
  }

  lemma SnapshotOf(t: Table, spaces: seq<Space>, now: int)
    requires ListsSpaces(t, spaces, set id | id in t && Expired(t, id, now))
    ensures Snapshot(t, Ids(spaces), now)
  {
    var order, expired := Ids(spaces), set id | id in t && Expired(t, id, now);
    forall id | Expired(t, id, now) ensures id in order {
      assert id in expired;
      var i :| 0 <= i < |spaces| && spaces[i].id == id;
      assert order[i] == id;
    }
  }

  // ---------- the objects ----------

  /** The notification streams and the Arduino connection, as what is sent through them. */
  class Outbox {
    var log: seq<Effect>

    constructor ()
      ensures log == []
    {
      log := [];
    }

    method Send(effect: Effect)
      modifies this
      ensures log == old(log) + [effect]
    {
      log := log + [effect];
    }
  }

  class ParkingSpacesImpl {
    const db: SQLDatabase
    const out: Outbox

    constructor (db: SQLDatabase, out: Outbox)
      ensures this.db == db && this.out == out
    {
      this.db, this.out := db, out;
    }

    ghost function View(): World
      reads this, db, out
    {
      World(db.rows, map[], out.log)
    }

    method AttemptToReserveSpace(space: int, plate: string, now: int) returns (answer: ReserveAnswer)
      modifies db, out
      ensures View() == SpaceReserved(old(View()), space, plate, now)
      ensures answer == AnswerToReserve(old(db.rows), space, plate)
    {
      var done := db.AttemptToReserveSpot(space, plate, now);
      var state := db.GetStateForSpace(space);
      if done {
        answer := Successful;
        out.Send(SpaceUpdate(state.value.id, state.value.section, state.value.state));
        out.Send(ArduinoFlag(state.value.id, true));
      } else if state.Some? {
        if state.value.state == Occupied {
          answer := FailedSpaceOccupied;
        } else if state.value.state == Reserved {
          answer := FailedSpaceReserved;
        } else {
          answer := FailedPlateAlreadyHasReserve;
        }
      } else {
        answer := FailedSpaceOccupied;
      }
    }

    method CancelSpaceReservation(plate: string, now: int) returns (answer: CancelAnswer)
      requires Unique(db.rows)
      modifies db, out
      ensures View() == ReservationCancelled(old(View()), plate, now)
      ensures answer == AnswerToCancel(Reservation(old(db.rows), plate))
    {
      var state := db.GetReservationForLicensePlate(plate);
      answer := NoReservationForPlate;
      if state.Some? {
        ReservationIsUnique(db.rows, plate, state.value.id);
        var done := db.CancelReservationsFor(plate, now);
        if done {
          answer := CancelDone(state.value.id);
          out.Send(SpaceUpdate(state.value.id, state.value.section, Free));
          out.Send(ReserveUpdate(state.value.id, ReserveCancelled));
          out.Send(ArduinoFlag(state.value.id, false));
        }
      }
    }

    /** The listing a client starts from: every space once, with its state. */
    method FetchAllParkingStates() returns (written: seq<Effect>)
      ensures exists spaces :: ListsSpaces(db.rows, spaces, db.rows.Keys) && written == Statuses(spaces)
      ensures ShowsEachRowOnce(db.rows, written)
    {
      var spaces := db.FetchAllSpaceStates();
      written := [];
      for i := 0 to |spaces|
        invariant written == Statuses(spaces[..i])
      {
        assert spaces[..i + 1][..i] == spaces[..i];
        written := written + [SpaceUpdate(spaces[i].id, spaces[i].section, spaces[i].state)];
      }
      assert spaces[..|spaces|] == spaces;
      ListingLines(db.rows, spaces);
    }
  }

  class ParkingServer {
    const db: SQLDatabase
    const out: Outbox
    var pending: map<int, string>

    constructor (db: SQLDatabase, out: Outbox)
      ensures this.db == db && this.out == out && pending == map[]
    {
      this.db, this.out, pending := db, out, map[];
    }

    ghost function View(): World
      reads this, db, out
    {
      World(db.rows, pending, out.log)
    }

    method MoveReservation(space: int, plate: string, now: int)
      requires Unique(db.rows)
      modifies db, out
      ensures View() == ReservationMoved(old(View()), space, plate, now)
    {
      var reserve := db.GetReservationForLicensePlate(plate);
      if reserve.Some? {
        ReservationIsUnique(db.rows, plate, reserve.value.id);
        var done := db.CancelReservationsFor(plate, now);
        out.Send(ReserveUpdate(reserve.value.id, ReserveCancelledParkedElsewhere));
        out.Send(EndReservationStreams(reserve.value.id));
        var stored := db.UpdateSpacePlate(space, plate);
        out.Send(ArduinoFlag(reserve.value.id, false));
      }
    }

    /**
     The awaited plate is read before its entry is erased; the original reads it after. For a space that is not awaited
     the original erases an end iterator; here the call ends.
     */
    method ReceiveLicensePlate(space: int, plate: string, now: int)
      requires Unique(db.rows)
      modifies this, db, out
      ensures View() == PlateReceived(old(View()), space, plate, now)
    {
      if space !in pending {
        return;
      }
      var awaited := pending[space];
      pending := pending - {space};
      var stored := db.UpdateSpacePlate(space, plate);
      if stored {
        if awaited == plate {
          out.Send(ReserveUpdate(space, ReserveConcluded));
          out.Send(EndReservationStreams(space));
          return;
        }
      } else {
        MoveReservation(space, plate, now);
      }
      out.Send(ReserveUpdate(space, ReserveCancelledSpaceOccupied));
      out.Send(EndReservationStreams(space));
    }

    /** `readers` is the number of plate readers that take the request. */
    method AskForPlate(space: int, occupant: string, readers: nat, now: int)
      requires Unique(db.rows)
      modifies this, db, out
      ensures View() == PlateAsked(old(View()), space, occupant, readers, now)
    {
      if space !in pending {
        pending := pending[space := occupant];
      }
      out.Send(PlateRequest(space));
      if readers <= 0 {
        ReceiveLicensePlate(space, "", now);
      }
    }

    method ReceiveParkingSpaceNotification(space: int, occupied: bool, readers: nat, now: int)
      requires Unique(db.rows)
      modifies this, db, out
      ensures View() == SpaceSensed(old(View()), space, occupied, readers, now)
      decreases if space in db.rows then 0 else 1
    {
      var state := if occupied then Occupied else Free;
      ghost var rows := db.rows;
      var before := db.UpdateSpaceState(space, state, "", now);
      assert Unique(db.rows);
      if before.None? {
        db.InsertSpace(space, "A", now);
        ReceiveParkingSpaceNotification(space, occupied, readers, now);
        return;
      }
      out.Send(SpaceUpdate(space, before.value.section, state));
      if occupied {
        AskForPlate(space, before.value.occupant, readers, now);
      }
      if before.value.state == Reserved && occupied {
        out.Send(ReserveUpdate(space, ReserveOccupied));
        out.Send(ArduinoFlag(space, false));
      }
    }

    /** The body of the expiry thread's loop. */
    method ExpireSpace(space: int, now: int)
      modifies db, out
      ensures View() == SpaceExpired(old(View()), space, now)
    {
      var done := db.CancelReservationForSpot(space, now);
      if done {
        out.Send(ReserveUpdate(space, ReserveCancelledExpired));
        out.Send(ArduinoFlag(space, false));
      }
    }

    /** One round of the expiry thread, with nothing else in between. */
    method CheckExpirations(now: int) returns (order: seq<int>)
      modifies db, out
      ensures Snapshot(old(db.rows), order, now)
      ensures forall id :: id in order <==> id in old(db.rows) && old(db.rows)[id].state == Reserved
                                            && now - old(db.rows)[id].lastChange >= 2700
      ensures View() == SpacesExpired(old(View()), order, now)
    {
      var states := db.GetExpiredReserveStates(now);
      order := [];
      for i := 0 to |states|
        invariant order == Ids(states[..i])
        invariant View() == SpacesExpired(old(View()), order, now)
      {
        assert states[..i + 1][..i] == states[..i];
        var id := states[i].id;
        ExpireSpace(id, now);
        assert (order + [id])[..|order|] == order;
        order := order + [id];
      }
      assert states[..|states|] == states;
      SnapshotOf(old(db.rows), states, now);
    }
  }
}
