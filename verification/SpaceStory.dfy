/**
 Whole runs of the server. Whatever sensors, readers, clients and the expiry thread do, in whatever order, each space
 goes through a story of its own: every event means one of a few fates for it, which decides its state and what is sent
 out about it. The promises about runs follow from that.
 */
module SpaceStory {
  import opened Basics
  import opened SpaceTable
  import opened ParkingServer

  datatype Op =
    | Sensor(space: int, occupied: bool, readers: nat)
    | Plate(space: int, plate: string)
    | Reserve(space: int, plate: string)
    | CancelFor(plate: string)
    | Expire(space: int)
    | Startup

  /** What happens, and when. */
  datatype Event = At(now: int, op: Op)

  /** The space whose flag the program raises when it starts. */
  const STARTUP_SPACE := 2

  ghost function Step(w: World, e: Event): World {
    match e.op
    case Sensor(space, occupied, readers) => SpaceSensed(w, space, occupied, readers, e.now)
    case Plate(space, plate) => PlateReceived(w, space, plate, e.now)
    case Reserve(space, plate) => SpaceReserved(w, space, plate, e.now)
    case CancelFor(plate) => ReservationCancelled(w, plate, e.now)
    case Expire(space) => SpaceExpired(w, space, e.now)
    case Startup => Published(w, [ArduinoFlag(STARTUP_SPACE, true)])
  }

  ghost function Exec(w: World, run: seq<Event>): World {
    if run == [] then w else Step(Exec(w, run[..|run| - 1]), run[|run| - 1])
  }

  // ---------- one space ----------

  /** STATE and LAST_CHANGE of a space, if it has a row. */
  datatype Stamp = Stamp(state: SpaceState, since: int)

  function StampOf(t: Table, space: int): Option<Stamp> {
    if space in t then Some(Stamp(t[space].state, t[space].lastChange)) else None
  }

  predicate Held(t: Table, space: int) {
    space in t && t[space].state == Reserved
  }

  /** What is sent out about a space: its state to the clients, the end of a reservation, its flag to the Arduino. */
  datatype Mark = Shown(state: SpaceState) | Ended(notice: Notice) | Flagged(reserved: bool)

  function MarksOf(effect: Effect, space: int): seq<Mark> {
    match effect
    case SpaceUpdate(s, _, state) => if s == space then [Shown(state)] else []
    case ReserveUpdate(s, notice) =>
      if s == space && !notice.ReserveConcluded? && !notice.ReserveCancelledSpaceOccupied? then [Ended(notice)] else []
    case ArduinoFlag(s, reserved) => if s == space then [Flagged(reserved)] else []
    case _ => []
  }

  function About(log: seq<Effect>, space: int): seq<Mark> {
    if log == [] then [] else About(log[..|log| - 1], space) + MarksOf(log[|log| - 1], space)
  }

  lemma Associative<T>(a: seq<T>, b: seq<T>, c: seq<T>)
    ensures (a + b) + c == a + (b + c)
  {
  }

  lemma {:induction false} AboutConcat(a: seq<Effect>, b: seq<Effect>, space: int)
    ensures About(a + b, space) == About(a, space) + About(b, space)
  {
    if b == [] {
      assert a + b == a;
    } else {
      var init, last := b[..|b| - 1], b[|b| - 1];
      AboutConcat(a, init, space);
      assert (a + b)[..|a + b| - 1] == a + init && (a + b)[|a + b| - 1] == last;
      Associative(About(a, space), About(init, space), MarksOf(last, space));
    }
  }

  /** What an event can mean for a space. */
  datatype Fate = Untouched | Taken | GivenBack | Lapsed | Moved | Sensed(occupied: bool) | Started

  function FateOf(w: World, e: Event, space: int): Fate {
    match e.op
    case Sensor(s, occupied, readers) =>
      if s == space then Sensed(occupied)
      else if occupied && readers == 0 && HasReservation(w.table, space, "") then Moved
      else Untouched
    case Plate(s, plate) =>
      if s in w.pending && s in w.table && s != space && HasReservation(w.table, space, plate) then Moved else Untouched
    case Reserve(s, plate) => if s == space && CanReserve(w.table, s, plate) then Taken else Untouched
    case CancelFor(plate) => if HasReservation(w.table, space, plate) then GivenBack else Untouched
    case Expire(s) => if s == space && Held(w.table, s) then Lapsed else Untouched
    case Startup => if space == STARTUP_SPACE then Started else Untouched
  }

  function StampAfter(f: Fate, before: Option<Stamp>, now: int): Option<Stamp> {
    match f
    case Untouched => before
    case Started => before
    case Taken => Some(Stamp(Reserved, now))
    case Sensed(occupied) => Some(Stamp(if occupied then Occupied else Free, now))
    case _ => Some(Stamp(Free, now))
  }

  function MarksAfter(f: Fate, held: bool): seq<Mark> {
    match f
    case Untouched => []
    case Started => [Flagged(true)]
    case Taken => [Shown(Reserved), Flagged(true)]
    case GivenBack => [Shown(Free), Ended(ReserveCancelled), Flagged(false)]
    case Lapsed => [Ended(ReserveCancelledExpired), Flagged(false)]
    case Moved => [Ended(ReserveCancelledParkedElsewhere), Flagged(false)]
    case Sensed(occupied) =>
      [Shown(if occupied then Occupied else Free)]
      + if occupied && held then [Ended(ReserveOccupied), Flagged(false)] else []
  }

  /** Only a free space is taken; only a reservation is given back, lapses or moves. */
  predicate Possible(f: Fate, before: Option<Stamp>) {
    match f
    case Taken => before.Some? && before.value.state == Free
    case GivenBack => before.Some? && before.value.state == Reserved
    case Lapsed => before.Some? && before.value.state == Reserved
    case Moved => before.Some? && before.value.state == Reserved
    case _ => true
  }

  /** A plate fits on a space if no other row holds it, or the one that does is a reservation, which it ends. */
  ghost predicate PlateFits(t: Table, space: int, plate: string) {
    !Clashes(t, space, plate) || exists r :: r != space && HasReservation(t, r, plate)
  }

  function PlateOf(t: Table, space: int): Option<string> {
    if space in t then t[space].plate else None
  }

  /** The event answers the plate request for the space, and the plate it brings fits there. */
  ghost predicate Stores(w: World, e: Event, space: int) {
    && e.op.Plate? && e.op.space == space && space in w.pending && space in w.table
    && PlateFits(w.table, space, e.op.plate)
  }

  /**
   The plate of a space after an event. Whatever frees a reservation clears its plate, except expiry; a report clears it
   too, and puts the empty plate there if the space is occupied and nobody reads its plate.
   */
  ghost function PlateAfter(w: World, e: Event, space: int): Option<string> {
    match FateOf(w, e, space)
    case Taken => Some(e.op.plate)
    case GivenBack => None
    case Moved => None
    case Sensed(occupied) =>
      if occupied && e.op.readers == 0 && PlateFits(w.table, space, "") then Some("") else None
    case _ => if Stores(w, e, space) then Some(e.op.plate) else PlateOf(w.table, space)
  }

  /** From `w` to `w'` the space met fate `f` at time `now`. */
  ghost predicate Meets(w: World, w': World, space: int, f: Fate, now: int) {
    && Possible(f, StampOf(w.table, space))
    && StampOf(w'.table, space) == StampAfter(f, StampOf(w.table, space), now)
    && About(w'.log, space) == About(w.log, space) + MarksAfter(f, Held(w.table, space))
  }

  lemma PublishedAbout(w: World, effects: seq<Effect>, space: int)
    ensures About(Published(w, effects).log, space) == About(w.log, space) + About(effects, space)
  {
    AboutConcat(w.log, effects, space);
  }

  lemma AboutOne(a: Effect, space: int)
    ensures About([a], space) == MarksOf(a, space)
  {
    assert [a][..0] == [];
  }

  lemma AboutTwo(a: Effect, b: Effect, space: int)
    ensures About([a, b], space) == MarksOf(a, space) + MarksOf(b, space)
  {
    AboutOne(a, space);
    assert [a, b][..1] == [a];
  }

  lemma AboutThree(a: Effect, b: Effect, c: Effect, space: int)
    ensures About([a, b, c], space) == MarksOf(a, space) + MarksOf(b, space) + MarksOf(c, space)
  {
    AboutTwo(a, b, space);
    assert [a, b, c][..2] == [a, b];
  }

  lemma ReservedFate(w: World, s: int, plate: string, now: int, space: int)
    requires Unique(w.table)
    ensures Unique(SpaceReserved(w, s, plate, now).table)
    ensures Meets(w, SpaceReserved(w, s, plate, now), space, FateOf(w, At(now, Reserve(s, plate)), space), now)
  {
    if CanReserve(w.table, s, plate) {
      RewritingOneRow(w.table, s, Row(w.table[s].section, Reserved, now, Some(plate)));
      var table := ReservationMade(w.table, s, plate, now);
      var a, b := SpaceUpdate(s, table[s].section, table[s].state), ArduinoFlag(s, true);
      PublishedAbout(w.(table := table), [a, b], space);
      AboutTwo(a, b, space);
    }
  }

  lemma CancelledFate(w: World, plate: string, now: int, space: int)
    requires Unique(w.table)
    ensures Unique(ReservationCancelled(w, plate, now).table)
    ensures Meets(w, ReservationCancelled(w, plate, now), space, FateOf(w, At(now, CancelFor(plate)), space), now)
  {
    if Reservation(w.table, plate).Some? {
      var s := Reservation(w.table, plate).value;
      CancellingFreesThePlate(w.table, s, plate, now);
      if HasReservation(w.table, space, plate) {
        ReservationIsUnique(w.table, plate, space);
      }
      var a, b, c := SpaceUpdate(s, w.table[s].section, Free), ReserveUpdate(s, ReserveCancelled),
                     ArduinoFlag(s, false);
      PublishedAbout(w.(table := PlateCancelled(w.table, plate, now)), [a, b, c], space);
      AboutThree(a, b, c, space);
    }
  }

  lemma ExpiredFate(w: World, s: int, now: int, space: int)
    ensures Meets(w, SpaceExpired(w, s, now), space, FateOf(w, At(now, Expire(s)), space), now)
  {
    if Held(w.table, s) {
      var a, b := ReserveUpdate(s, ReserveCancelledExpired), ArduinoFlag(s, false);
      PublishedAbout(w.(table := SpotCancelled(w.table, s, now)), [a, b], space);
      AboutTwo(a, b, space);
    }
  }

  lemma ExpiredIsUnique(w: World, s: int, now: int)
    requires Unique(w.table)
    ensures Unique(SpaceExpired(w, s, now).table)
  {
    if Held(w.table, s) {
      RewritingOneRow(w.table, s, Row(w.table[s].section, Free, now, w.table[s].plate));
    }
  }

  /** The fate of a space when a plate is resolved for another one, or for itself. */
  function PlateFate(t: Table, s: int, plate: string, space: int): Fate {
    if s in t && s != space && HasReservation(t, space, plate) then Moved else Untouched
  }

  lemma MovedFate(w: World, s: int, plate: string, now: int, space: int)
    requires Unique(w.table) && !CanStorePlate(w.table, s, plate)
    ensures Unique(ReservationMoved(w, s, plate, now).table)
    ensures Meets(w, ReservationMoved(w, s, plate, now), space, PlateFate(w.table, s, plate, space), now)
  {
    if HasReservation(w.table, space, plate) {
      ReservationIsUnique(w.table, plate, space);
    }
    if Reservation(w.table, plate).Some? {
      var other := Reservation(w.table, plate).value;
      CancellingFreesThePlate(w.table, other, plate, now);
      var table := PlateCancelled(w.table, plate, now);
      StoringIsUnique(table, s, plate);
      var a, b, c := ReserveUpdate(other, ReserveCancelledParkedElsewhere), EndReservationStreams(other),
                     ArduinoFlag(other, false);
      PublishedAbout(w.(table := PlateStored(table, s, plate)), [a, b, c], space);
      AboutThree(a, b, c, space);
    }
  }

  lemma PlateArrivedFate(w: World, s: int, plate: string, now: int, space: int)
    requires Unique(w.table) && s in w.pending
    ensures Unique(PlateArrived(w, s, plate, now).table)
    ensures Meets(w, PlateArrived(w, s, plate, now), space, PlateFate(w.table, s, plate, space), now)
  {
    var w' := w.(pending := w.pending - {s});
    var refused, ended := ReserveUpdate(s, ReserveCancelledSpaceOccupied), EndReservationStreams(s);
    AboutTwo(refused, ended, space);
    if CanStorePlate(w.table, s, plate) {
      StoringIsUnique(w.table, s, plate);
      AboutTwo(ReserveUpdate(s, ReserveConcluded), ended, space);
      var stored := w'.(table := PlateStored(w.table, s, plate));
      PublishedAbout(stored, [ReserveUpdate(s, ReserveConcluded), ended], space);
      PublishedAbout(stored, [refused, ended], space);
    } else {
      MovedFate(w', s, plate, now, space);
      PublishedAbout(ReservationMoved(w', s, plate, now), [refused, ended], space);
    }
  }

  lemma RequestSaysNothing(w: World, s: int, space: int)
    ensures About(w.log + [PlateRequest(s)], space) == About(w.log, space)
  {
    AboutConcat(w.log, [PlateRequest(s)], space);
    AboutOne(PlateRequest(s), space);
  }

  lemma SameStart(w: World, asked: World, w': World, space: int, f: Fate, now: int)
    requires Meets(asked, w', space, f, now)
    requires asked.table == w.table && About(asked.log, space) == About(w.log, space)
    ensures Meets(w, w', space, f, now)
  {
  }

  lemma AskedFate(w: World, s: int, occupant: string, readers: nat, now: int, space: int)
    requires Unique(w.table)
    ensures Unique(PlateAsked(w, s, occupant, readers, now).table)
    ensures Meets(w, PlateAsked(w, s, occupant, readers, now), space,
                  if readers == 0 then PlateFate(w.table, s, "", space) else Untouched, now)
  {
    var pending := if s in w.pending then w.pending else w.pending[s := occupant];
    var asked := World(w.table, pending, w.log + [PlateRequest(s)]);
    RequestSaysNothing(w, s, space);
    if readers == 0 {
      PlateArrivedFate(asked, s, "", now, space);
      SameStart(w, asked, PlateArrived(asked, s, "", now), space, PlateFate(w.table, s, "", space), now);
    }
  }

  /** The part of `receiveParkingSpaceNotification` that updates the row of a known space and shows it. */
  ghost function Updated(w: World, s: int, occupied: bool, now: int): World
    requires s in w.table
  {
    var state := if occupied then Occupied else Free;
    Published(w.(table := StateUpdated(w.table, s, state, "", now)), [SpaceUpdate(s, w.table[s].section, state)])
  }

  lemma UpdatedFate(w: World, s: int, occupied: bool, now: int, space: int)
    requires Unique(w.table) && s in w.table
    ensures var w', state := Updated(w, s, occupied, now), if occupied then Occupied else Free;
            && Unique(w'.table) && s in w'.table
            && StampOf(w'.table, space) == (if space == s then Some(Stamp(state, now)) else StampOf(w.table, space))
            && About(w'.log, space) == About(w.log, space) + (if space == s then [Shown(state)] else [])
            && (space != s ==> (HasReservation(w'.table, space, "") <==> HasReservation(w.table, space, "")))
  {
    var state := if occupied then Occupied else Free;
    RewritingOneRow(w.table, s, Row(w.table[s].section, state, now, None));
    var a := SpaceUpdate(s, w.table[s].section, state);
    PublishedAbout(w.(table := StateUpdated(w.table, s, state, "", now)), [a], space);
    AboutOne(a, space);
  }

  /** The part of `receiveParkingSpaceNotification` that follows the plate request. */
  ghost function Concluded(asked: World, s: int, before: SpaceState): World {
    if before == Reserved then Published(asked, [ReserveUpdate(s, ReserveOccupied), ArduinoFlag(s, false)]) else asked
  }

  lemma ConcludedAbout(asked: World, s: int, before: SpaceState, space: int)
    ensures Concluded(asked, s, before).table == asked.table
    ensures About(Concluded(asked, s, before).log, space) == About(asked.log, space)
              + if space == s && before == Reserved then [Ended(ReserveOccupied), Flagged(false)] else []
  {
    var a, b := ReserveUpdate(s, ReserveOccupied), ArduinoFlag(s, false);
    PublishedAbout(asked, [a, b], space);
    AboutTwo(a, b, space);
  }

  /** A report that a known space is occupied, as its three parts. */
  ghost function OccupiedReported(w: World, s: int, readers: nat, now: int): World
    requires s in w.table
  {
    var asked := PlateAsked(Updated(w, s, true, now), s, SpaceOf(w.table, s).occupant, readers, now);
    Concluded(asked, s, w.table[s].state)
  }

  lemma KnownSensed(w: World, s: int, occupied: bool, readers: nat, now: int)
    requires s in w.table
    ensures SpaceSensed(w, s, occupied, readers, now) ==
            if occupied then OccupiedReported(w, s, readers, now) else Updated(w, s, occupied, now)
  {
  }

  lemma JoinedFate(w: World, shown: World, asked: World, after: World, s: int, moved: bool, now: int, space: int)
    requires StampOf(shown.table, space) == if space == s then Some(Stamp(Occupied, now)) else StampOf(w.table, space)
    requires About(shown.log, space) == About(w.log, space) + if space == s then [Shown(Occupied)] else []
    requires Meets(shown, asked, space, if moved then Moved else Untouched, now) && (moved ==> space != s)
    requires after.table == asked.table
    requires About(after.log, space) == About(asked.log, space)
               + if space == s && Held(w.table, s) then [Ended(ReserveOccupied), Flagged(false)] else []
    ensures Meets(w, after, space, if space == s then Sensed(true) else if moved then Moved else Untouched, now)
  {
  }

  lemma OccupiedFate(w: World, s: int, readers: nat, now: int, space: int)
    requires Unique(w.table) && s in w.table
    ensures Unique(OccupiedReported(w, s, readers, now).table)
    ensures Meets(w, OccupiedReported(w, s, readers, now), space,
                  FateOf(w, At(now, Sensor(s, true, readers)), space), now)
  {
    var shown, occupant := Updated(w, s, true, now), SpaceOf(w.table, s).occupant;
    var asked := PlateAsked(shown, s, occupant, readers, now);
    var moved := readers == 0 && space != s && HasReservation(w.table, space, "");
    UpdatedFate(w, s, true, now, space);
    AskedFate(shown, s, occupant, readers, now, space);
    ConcludedAbout(asked, s, w.table[s].state, space);
    JoinedFate(w, shown, asked, Concluded(asked, s, w.table[s].state), s, moved, now, space);
  }

  lemma KnownSensedFate(w: World, s: int, occupied: bool, readers: nat, now: int, space: int)
    requires Unique(w.table) && s in w.table
    ensures var w' := SpaceSensed(w, s, occupied, readers, now);
            Unique(w'.table) && Meets(w, w', space, FateOf(w, At(now, Sensor(s, occupied, readers)), space), now)
  {
    KnownSensed(w, s, occupied, readers, now);
    if occupied {
      OccupiedFate(w, s, readers, now, space);
    } else {
      UpdatedFate(w, s, occupied, now, space);
    }
  }

  lemma SensedFate(w: World, s: int, occupied: bool, readers: nat, now: int, space: int)
    requires Unique(w.table)
    ensures var w' := SpaceSensed(w, s, occupied, readers, now);
            Unique(w'.table) && Meets(w, w', space, FateOf(w, At(now, Sensor(s, occupied, readers)), space), now)
  {
    if s in w.table {
      KnownSensedFate(w, s, occupied, readers, now, space);
    } else {
      InsertedIsUnique(w.table, s, "A", now);
      KnownSensedFate(w.(table := Inserted(w.table, s, "A", now)), s, occupied, readers, now, space);
    }
  }

  /** The row of another space after a report about `s`: untouched, unless its reservation has the plate nobody read. */
  function RowAfterReport(row: Row, disturbed: bool, now: int): Row {
    if disturbed && row.state == Reserved && row.plate == Some("") then Row(row.section, Free, now, None) else row
  }

  /** Every row but that of `s` is as `RowAfterReport` says. */
  ghost predicate OthersAfterReport(t: Table, t': Table, s: int, disturbed: bool, now: int) {
    forall r :: r != s ==>
      (r in t' <==> r in t) && (r in t ==> t'[r] == RowAfterReport(t[r], disturbed, now))
  }

  lemma AskedRows(w: World, s: int, occupant: string, readers: nat, now: int)
    requires Unique(w.table) && s in w.table && w.table[s].state != Reserved
    ensures var t' := PlateAsked(w, s, occupant, readers, now).table;
            && s in t' && t'[s].state == w.table[s].state && t'[s].section == w.table[s].section
            && OthersAfterReport(w.table, t', s, readers == 0, now)
  {
    var t, t' := w.table, PlateAsked(w, s, occupant, readers, now).table;
    if readers == 0 {
      if !CanStorePlate(t, s, "") && Reservation(t, "").Some? {
        CancellingFreesThePlate(t, Reservation(t, "").value, "", now);
      }
      forall r | r in t && r != s ensures r in t' && t'[r] == RowAfterReport(t[r], true, now) {
        if HasReservation(t, r, "") {
          assert Clashes(t, s, "");
          ReservationIsUnique(t, "", r);
        }
      }
    }
  }

  lemma KnownSensorStep(w: World, s: int, occupied: bool, readers: nat, now: int)
    requires Unique(w.table) && s in w.table
    ensures var t' := SpaceSensed(w, s, occupied, readers, now).table;
            && s in t' && t'[s].state == (if occupied then Occupied else Free)
            && t'[s].section == (if s in w.table then w.table[s].section else "A")
            && OthersAfterReport(w.table, t', s, occupied && readers == 0, now)
  {
    KnownSensed(w, s, occupied, readers, now);
    UpdatedFate(w, s, occupied, now, s);
    if occupied {
      AskedRows(Updated(w, s, true, now), s, SpaceOf(w.table, s).occupant, readers, now);
    }
  }

  /**
   A sensor's report leaves its space with a row in the reported state, whether or not it had one. One other row at most
   changes, and only when the space became occupied, no reader took the plate request, and that row is the reservation
   with the empty plate; it is freed and its plate cleared.
   */
  lemma SensorStep(w: World, s: int, occupied: bool, readers: nat, now: int)
    requires Unique(w.table)
    ensures var t' := SpaceSensed(w, s, occupied, readers, now).table;
            && s in t' && t'[s].state == (if occupied then Occupied else Free)
            && t'[s].section == (if s in w.table then w.table[s].section else "A")
            && OthersAfterReport(w.table, t', s, occupied && readers == 0, now)
    ensures forall a, b :: HasReservation(w.table, a, "") && HasReservation(w.table, b, "") ==> a == b
  {
    if s in w.table {
      KnownSensorStep(w, s, occupied, readers, now);
    } else {
      InsertedIsUnique(w.table, s, "A", now);
      KnownSensorStep(w.(table := Inserted(w.table, s, "A", now)), s, occupied, readers, now);
    }
  }

  ghost predicate Requests(log: seq<Effect>, space: int) {
    PlateRequest(space) in log
  }

  lemma AskedRequests(w: World, s: int, occupant: string, readers: nat, now: int, space: int)
    ensures Requests(PlateAsked(w, s, occupant, readers, now).log, space) <==> Requests(w.log, space) || space == s
  {
    var pending := if s in w.pending then w.pending else w.pending[s := occupant];
    var asked := World(w.table, pending, w.log + [PlateRequest(s)]);
    assert Requests(asked.log, space) <==> Requests(w.log, space) || space == s;
    if readers == 0 {
      assert Requests(PlateArrived(asked, s, "", now).log, space) <==> Requests(asked.log, space);
    }
  }

  /** A report asks for the plate of its space, and of no other, exactly if it says that the space is occupied. */
  lemma RequestedIff(w: World, s: int, occupied: bool, readers: nat, now: int, space: int)
    ensures Requests(SpaceSensed(w, s, occupied, readers, now).log, space) <==>
            Requests(w.log, space) || (occupied && space == s)
  {
    var known := if s in w.table then w else w.(table := Inserted(w.table, s, "A", now));
    KnownSensed(known, s, occupied, readers, now);
    var shown := Updated(known, s, occupied, now);
    assert Requests(shown.log, space) <==> Requests(w.log, space);
    if occupied {
      AskedRequests(shown, s, SpaceOf(known.table, s).occupant, readers, now, space);
    }
  }

  lemma StartupFate(w: World, now: int, space: int)
    ensures Meets(w, Step(w, At(now, Startup)), space, FateOf(w, At(now, Startup), space), now)
  {
    PublishedAbout(w, [ArduinoFlag(STARTUP_SPACE, true)], space);
    AboutOne(ArduinoFlag(STARTUP_SPACE, true), space);
  }

  lemma StepMeets(w: World, e: Event, space: int)
    requires Unique(w.table)
    ensures Unique(Step(w, e).table)
    ensures Meets(w, Step(w, e), space, FateOf(w, e, space), e.now)
  {
    match e.op
    case Sensor(s, occupied, readers) => SensedFate(w, s, occupied, readers, e.now, space);
    case Plate(s, plate) =>
      if s in w.pending {
        PlateArrivedFate(w, s, plate, e.now, space);
      }
    case Reserve(s, plate) => ReservedFate(w, s, plate, e.now, space);
    case CancelFor(plate) => CancelledFate(w, plate, e.now, space);
    case Expire(s) =>
      ExpiredFate(w, s, e.now, space);
      ExpiredIsUnique(w, s, e.now);
    case Startup => StartupFate(w, e.now, space);
  }

  lemma ArrivedPlate(w: World, s: int, plate: string, now: int)
    requires Unique(w.table) && s in w.pending
    ensures PlateOf(PlateArrived(w, s, plate, now).table, s) ==
            if s in w.table && PlateFits(w.table, s, plate) then Some(plate) else PlateOf(w.table, s)
  {
    PlateResolution(w, s, plate, now);
    if s in w.table && PlateFits(w.table, s, plate) && Clashes(w.table, s, plate) {
      var r :| r != s && HasReservation(w.table, r, plate);
      ReservationIsUnique(w.table, plate, r);
    }
  }

  /** Whether a plate fits on a space is a matter of the other rows. */
  lemma FitsByOthers(t: Table, t': Table, s: int, plate: string)
    requires forall r :: r != s ==> (r in t' <==> r in t) && (r in t ==> t'[r] == t[r])
    ensures PlateFits(t', s, plate) <==> PlateFits(t, s, plate)
  {
    if PlateFits(t, s, plate) && Clashes(t', s, plate) {
      var c :| c in t' && c != s && t'[c].plate == Some(plate);
      assert Clashes(t, s, plate);
      var r :| r != s && HasReservation(t, r, plate);
      assert HasReservation(t', r, plate);
    }
    if PlateFits(t', s, plate) && Clashes(t, s, plate) {
      var c :| c in t && c != s && t[c].plate == Some(plate);
      assert Clashes(t', s, plate);
      var r :| r != s && HasReservation(t', r, plate);
      assert HasReservation(t, r, plate);
    }
  }

  lemma KnownSensedPlate(w: World, s: int, occupied: bool, readers: nat, now: int)
    requires Unique(w.table) && s in w.table
    ensures PlateOf(SpaceSensed(w, s, occupied, readers, now).table, s) ==
            if occupied && readers == 0 && PlateFits(w.table, s, "") then Some("") else None
  {
    KnownSensed(w, s, occupied, readers, now);
    UpdatedFate(w, s, occupied, now, s);
    if occupied && readers == 0 {
      var shown := Updated(w, s, true, now);
      var pending := if s in shown.pending then shown.pending else shown.pending[s := SpaceOf(w.table, s).occupant];
      ArrivedPlate(World(shown.table, pending, shown.log + [PlateRequest(s)]), s, "", now);
      FitsByOthers(w.table, shown.table, s, "");
    }
  }

  lemma SensedPlate(w: World, s: int, occupied: bool, readers: nat, now: int)
    requires Unique(w.table)
    ensures PlateOf(SpaceSensed(w, s, occupied, readers, now).table, s) ==
            if occupied && readers == 0 && PlateFits(w.table, s, "") then Some("") else None
  {
    if s in w.table {
      KnownSensedPlate(w, s, occupied, readers, now);
    } else {
      var known := w.(table := Inserted(w.table, s, "A", now));
      InsertedIsUnique(w.table, s, "A", now);
      KnownSensedPlate(known, s, occupied, readers, now);
      FitsByOthers(w.table, known.table, s, "");
    }
  }

  lemma OthersPlate(w: World, s: int, plate: string, now: int, space: int)
    requires Unique(w.table) && s in w.pending && space != s
    ensures PlateOf(PlateArrived(w, s, plate, now).table, space) ==
            if s in w.table && HasReservation(w.table, space, plate) then None else PlateOf(w.table, space)
  {
    PlateResolution(w, s, plate, now);
    if s in w.table && HasReservation(w.table, space, plate) {
      ReservationIsUnique(w.table, plate, space);
      assert Clashes(w.table, s, plate);
    }
  }

  lemma StepPlate(w: World, e: Event, space: int)
    requires Unique(w.table)
    ensures PlateOf(Step(w, e).table, space) == PlateAfter(w, e, space)
  {
    match e.op
    case Sensor(s, occupied, readers) =>
      if space == s {
        SensedPlate(w, s, occupied, readers, e.now);
      } else {
        SensorStep(w, s, occupied, readers, e.now);
      }
    case Plate(s, plate) =>
      if s in w.pending {
        if space == s {
          ArrivedPlate(w, s, plate, e.now);
        } else {
          OthersPlate(w, s, plate, e.now, space);
        }
      }
    case CancelFor(plate) => CancelAnswerIsTrue(w, plate, e.now);
    case _ =>
  }

  /**
   The story of one space: every event of every run keeps the plates unique and means exactly its fate for the space,
   in its state, its time, its plate and everything that is sent out about it.
   */
  lemma StepFate(w: World, e: Event, space: int)
    requires Unique(w.table)
    ensures Unique(Step(w, e).table)
    ensures Meets(w, Step(w, e), space, FateOf(w, e, space), e.now)
    ensures PlateOf(Step(w, e).table, space) == PlateAfter(w, e, space)
  {
    StepMeets(w, e, space);
    StepPlate(w, e, space);
  }

  lemma {:induction false} RunIsUnique(w: World, run: seq<Event>)
    requires Unique(w.table)
    ensures Unique(Exec(w, run).table)
  {
    if run != [] {
      RunIsUnique(w, run[..|run| - 1]);
      StepFate(Exec(w, run[..|run| - 1]), run[|run| - 1], 0);
    }
  }
}
