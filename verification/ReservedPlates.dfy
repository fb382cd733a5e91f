/**
 Whose plate a reserved space holds. The table is meant to hold, for a reserved space, the plate of the car that
 reserved it; the answer to a plate request that was still awaited when the space was reserved can replace it.
 */
module ReservedPlates {
  import opened Basics
  import opened SpaceTable
  import opened ParkingServer
  import opened SpaceStory
  import opened ReservationRuns

  /** A reserved space never is without a plate. */
  lemma {:induction false} ReservedHasPlate(w: World, run: seq<Event>, space: int)
    requires Unique(w.table) && (Held(w.table, space) ==> w.table[space].plate.Some?)
    ensures Held(Exec(w, run).table, space) ==> Exec(w, run).table[space].plate.Some?
  {
    if run != [] {
      ReservedHasPlate(w, run[..|run| - 1], space);
      LastStep(w, run, space);
    }
  }

  /** The plate the space was last reserved for; for one that was not reserved during the run, its plate before it. */
  ghost function Reserver(w: World, run: seq<Event>, space: int): Option<string> {
    if run == [] then PlateOf(w.table, space)
    else if LastFate(w, run, space) == Taken then Some(run[|run| - 1].op.plate)
    else Reserver(w, run[..|run| - 1], space)
  }

  /** Does the last event put the answer to a plate request on the space? */
  ghost predicate LastStores(w: World, run: seq<Event>, space: int)
    requires run != []
  {
    Stores(WorldBefore(w, run), run[|run| - 1], space)
  }

  /** The plate that was put on the space last: by its reservation, or by the answer to a plate request after it. */
  ghost function PlateGiven(w: World, run: seq<Event>, space: int): Option<string> {
    if run == [] then PlateOf(w.table, space)
    else if LastFate(w, run, space) == Taken || LastStores(w, run, space) then Some(run[|run| - 1].op.plate)
    else PlateGiven(w, run[..|run| - 1], space)
  }

  lemma {:induction false} HoldsPlateGiven(w: World, run: seq<Event>, space: int)
    requires Unique(w.table) && Held(Exec(w, run).table, space)
    ensures PlateOf(Exec(w, run).table, space) == PlateGiven(w, run, space)
  {
    if run != [] {
      LastStep(w, run, space);
      if LastFate(w, run, space) != Taken {
        HoldsPlateGiven(w, run[..|run| - 1], space);
      }
    }
  }

  /** Since the space was reserved an answer was stored there, and the last one was not the plate of the reserver. */
  ghost predicate Overwritten(w: World, run: seq<Event>, space: int) {
    run != [] && LastFate(w, run, space) != Taken
    && if LastStores(w, run, space) then Some(run[|run| - 1].op.plate) != Reserver(w, run, space)
       else Overwritten(w, run[..|run| - 1], space)
  }

  lemma {:induction false} OverwrittenIff(w: World, run: seq<Event>, space: int)
    ensures Overwritten(w, run, space) <==> PlateGiven(w, run, space) != Reserver(w, run, space)
  {
    if run != [] {
      OverwrittenIff(w, run[..|run| - 1], space);
    }
  }

  /** Was the space awaited when it was last reserved; or when the run began, if it was not reserved in it? */
  ghost predicate AwaitedWhenReserved(w: World, run: seq<Event>, space: int) {
    if run == [] then space in w.pending
    else if LastFate(w, run, space) == Taken then space in WorldBefore(w, run).pending
    else AwaitedWhenReserved(w, run[..|run| - 1], space)
  }

  lemma ReservedStaysUnawaited(w: World, e: Event, space: int)
    requires Unique(w.table) && Held(Step(w, e).table, space)
    ensures space in Step(w, e).pending ==> space in w.pending
  {
    StepFate(w, e, space);
    if e.op.Sensor? {
      PendingAfterReport(w, e.op.space, e.op.occupied, e.op.readers, e.now, space);
    }
  }

  lemma {:induction false} OnlyLateAnswersOverwrite(w: World, run: seq<Event>, space: int)
    requires Unique(w.table) && Held(Exec(w, run).table, space)
    ensures space in Exec(w, run).pending || Overwritten(w, run, space) ==> AwaitedWhenReserved(w, run, space)
  {
    if run != [] {
      LastStep(w, run, space);
      RunIsUnique(w, run[..|run| - 1]);
      ReservedStaysUnawaited(WorldBefore(w, run), run[|run| - 1], space);
      if LastFate(w, run, space) != Taken {
        OnlyLateAnswersOverwrite(w, run[..|run| - 1], space);
      }
    }
  }

  lemma {:induction false} ReserverIsKnown(w: World, run: seq<Event>, space: int)
    requires Unique(w.table) && (Held(w.table, space) ==> w.table[space].plate.Some?)
    requires Held(Exec(w, run).table, space)
    ensures Reserver(w, run, space).Some?
  {
    if run != [] {
      LastStep(w, run, space);
      if LastFate(w, run, space) != Taken {
        ReserverIsKnown(w, run[..|run| - 1], space);
      }
    }
  }

  /**
   The promise of the schema, over any run: a reserved space holds the plate of the car that reserved it, and that car's
   reservation is the one found for its plate, exactly if no answer has overwritten it. None has if the plate of the
   space was not awaited when the space was reserved.
   */
  lemma HoldsReserversPlate(w: World, run: seq<Event>, space: int)
    requires Unique(w.table) && (Held(w.table, space) ==> w.table[space].plate.Some?)
    requires Held(Exec(w, run).table, space)
    ensures Reserver(w, run, space).Some?
    ensures var t, plate := Exec(w, run).table, Reserver(w, run, space).value;
            && (t[space].plate == Some(plate) <==> !Overwritten(w, run, space))
            && (Reservation(t, plate) == Some(space) <==> !Overwritten(w, run, space))
    ensures Overwritten(w, run, space) ==> AwaitedWhenReserved(w, run, space)
  {
    ReserverIsKnown(w, run, space);
    HoldsPlateGiven(w, run, space);
    OverwrittenIff(w, run, space);
    OnlyLateAnswersOverwrite(w, run, space);
    RunIsUnique(w, run);
    var t, plate := Exec(w, run).table, Reserver(w, run, space).value;
    if HasReservation(t, space, plate) {
      ReservationIsUnique(t, plate, space);
    }
  }

  // ---------- whose reservation is concluded ----------

  /** Does the server tell the space that its reservation was concluded, when this plate arrives? */
  ghost predicate Concludes(w: World, space: int, plate: string, now: int)
    requires space in w.pending
  {
    exists k :: |w.log| <= k < |PlateArrived(w, space, plate, now).log|
                && PlateArrived(w, space, plate, now).log[k] == ReserveUpdate(space, ReserveConcluded)
  }

  lemma ConcludesIff(w: World, space: int, plate: string, now: int)
    requires Unique(w.table) && space in w.pending
    ensures Concludes(w, space, plate, now) <==> CanStorePlate(w.table, space, plate) && plate == w.pending[space]
  {
    PlateNotices(w, space, plate, now);
    if CanStorePlate(w.table, space, plate) && plate == w.pending[space] {
      assert PlateArrived(w, space, plate, now).log[|w.log|] == ReserveUpdate(space, ReserveConcluded);
    }
  }

  /** Nothing of this settles a plate request for the space. */
  ghost predicate NothingSettles(run: seq<Event>, space: int) {
    forall k :: 0 <= k < |run| ==> !Settles(run[k], space)
  }

  lemma {:induction false} StaysAwaited(w: World, run: seq<Event>, space: int)
    requires space in w.pending && NothingSettles(run, space)
    ensures space in Exec(w, run).pending && Exec(w, run).pending[space] == w.pending[space]
  {
    if run != [] {
      StaysAwaited(w, run[..|run| - 1], space);
      AwaitedPlate(Exec(w, run[..|run| - 1]), [run[|run| - 1]], space);
      AwaitedPlate(w, run, space);
      AwaitedPlate(w, run[..|run| - 1], space);
    }
  }

  /**
   The plate that a report of occupation leaves a reserved space waiting for is the reserver's: the space was not
   awaited before and its plate not overwritten, or it was awaited, and with that very plate.
   */
  ghost predicate AwaitsReserver(w: World, run: seq<Event>, space: int) {
    var before := Exec(w, run);
    if space in before.pending then Some(before.pending[space]) == Reserver(w, run, space)
    else !Overwritten(w, run, space)
  }

  lemma ReportAwaits(w: World, report: Event, space: int)
    requires Held(w.table, space) && w.table[space].plate.Some? && Asks(report, space)
    ensures Awaited(Step(w, report).pending, space) ==
            Some(if space in w.pending then w.pending[space] else w.table[space].plate.value)
  {
    PendingAfterReport(w, space, true, report.op.readers, report.now, space);
  }

  lemma AwaitedUntilAnswered(w: World, run: seq<Event>, report: Event, more: seq<Event>, space: int)
    requires var before := Exec(w, run).table; Held(before, space) && before[space].plate.Some?
    requires Asks(report, space) && NothingSettles(more, space)
    ensures var before, after := Exec(w, run), Exec(w, run + [report] + more);
            Awaited(after.pending, space) ==
            Some(if space in before.pending then before.pending[space] else before.table[space].plate.value)
  {
    ReportAwaits(Exec(w, run), report, space);
    StaysAwaited(Step(Exec(w, run), report), more, space);
    ExecOneMore(w, run, report);
    ExecConcat(w, run + [report], more);
  }

  lemma AwaitsAfterReport(w: World, run: seq<Event>, report: Event, more: seq<Event>, space: int)
    requires Unique(w.table) && (Held(w.table, space) ==> w.table[space].plate.Some?)
    requires Held(Exec(w, run).table, space) && Asks(report, space) && NothingSettles(more, space)
    ensures Reserver(w, run, space).Some? && Awaited(Exec(w, run + [report] + more).pending, space).Some?
    ensures Awaited(Exec(w, run + [report] + more).pending, space) == Reserver(w, run, space) <==>
            AwaitsReserver(w, run, space)
  {
    ReservedHasPlate(w, run, space);
    AwaitedUntilAnswered(w, run, report, more, space);
    HoldsReserversPlate(w, run, space);
  }

  /**
   Over any run: a space is reserved when a report of its occupation finds a reader, and nothing settles the request
   before its answer arrives. The answer that the reserver parked there concludes the reservation exactly if the space
   waits for the reserver's plate and no other row holds it. Any other plate concludes it exactly if the space waits for
   that one instead.
   */
  lemma ConcludedForReserverIff(w: World, run: seq<Event>, report: Event, more: seq<Event>, plate: string, now: int,
                                space: int)
    requires Unique(w.table) && (Held(w.table, space) ==> w.table[space].plate.Some?)
    requires Held(Exec(w, run).table, space) && Asks(report, space) && NothingSettles(more, space)
    ensures var w', reserver := Exec(w, run + [report] + more), Reserver(w, run, space);
            && space in w'.pending && reserver.Some?
            && (plate == reserver.value ==>
                  (Concludes(w', space, plate, now) <==>
                     AwaitsReserver(w, run, space) && CanStorePlate(w'.table, space, plate)))
            && (plate != reserver.value ==>
                  (Concludes(w', space, plate, now) <==>
                     !AwaitsReserver(w, run, space) && plate == w'.pending[space]
                     && CanStorePlate(w'.table, space, plate)))
  {
    AwaitsAfterReport(w, run, report, more, space);
    RunIsUnique(w, run + [report] + more);
    ConcludesIff(Exec(w, run + [report] + more), space, plate, now);
  }

  // ---------- runs that break the promises ----------

  /** A car stops on space 1 and leaves before its plate was read, and someone reserves the space. */
  lemma ReservedWhileAwaited(plate: string) returns (run: seq<Event>)
    ensures run == [At(0, Sensor(1, true, 1)), At(0, Sensor(1, false, 0)), At(0, Reserve(1, plate))]
    ensures var before, w := Exec(EMPTY, run[..2]), Exec(EMPTY, run);
            && FateOf(before, run[2], 1) == Taken
            && w.table == map[1 := Row("A", Reserved, 0, Some(plate))] && w.pending == map[1 := ""]
  {
    var stops, leaves, reserves := At(0, Sensor(1, true, 1)), At(0, Sensor(1, false, 0)), At(0, Reserve(1, plate));
    run := [stops, leaves, reserves];
    ExecThree(EMPTY, stops, leaves, reserves);
    assert run[..2] == [stops, leaves];
    var known := EMPTY.(table := Inserted(map[], 1, "A", 0));
    KnownSensed(known, 1, true, 1, 0);
    var w1 := Step(EMPTY, stops);
    assert w1.table == map[1 := Row("A", Occupied, 0, None)] && w1.pending == map[1 := ""];
    KnownSensed(w1, 1, false, 0, 0);
    assert Step(w1, leaves).table == map[1 := Row("A", Free, 0, None)];
  }

  /**
   A run that breaks it: a car with plate A stops on space 1 and leaves before its plate was read; B reserves the space;
   then the plate A arrives. The space is reserved, it holds A, and B's cancellation finds no reservation.
   */
  lemma ReserverLosesSpace() returns (run: seq<Event>)
    ensures |run| == 4 && run[2].op == Reserve(1, "B")
    ensures FateOf(Exec(EMPTY, run[..2]), run[2], 1) == Taken
    ensures var t := Exec(EMPTY, run).table;
            HasReservation(t, 1, "A") && AnswerToCancel(Reservation(t, "B")) == NoReservationForPlate
  {
    var earlier := ReservedWhileAwaited("B");
    var answered := At(0, Plate(1, "A"));
    run := earlier + [answered];
    ExecOneMore(EMPTY, earlier, answered);
    assert run[..2] == earlier[..2];
    assert Exec(EMPTY, run).table == map[1 := Row("A", Reserved, 0, Some("A"))];
  }

  /**
   And another: the car of the reserver arrives, but the space still waits for a plate since before it was reserved. The
   plate is stored, and the reserver is told that the space was taken by somebody else.
   */
  lemma ReserverIsRefused() returns (run: seq<Event>)
    ensures |run| == 5 && run[2].op == Reserve(1, "B") && run[4] == At(0, Plate(1, "B"))
    ensures FateOf(Exec(EMPTY, run[..2]), run[2], 1) == Taken
    ensures var before, w := Exec(EMPTY, run[..4]), Exec(EMPTY, run);
            && w.table == map[1 := Row("A", Occupied, 0, Some("B"))]
            && w.log == before.log + [ReserveUpdate(1, ReserveCancelledSpaceOccupied), EndReservationStreams(1)]
  {
    var earlier := ReservedWhileAwaited("B");
    var parks, answered := At(0, Sensor(1, true, 1)), At(0, Plate(1, "B"));
    run := earlier + [parks] + [answered];
    ExecOneMore(EMPTY, earlier, parks);
    ExecOneMore(EMPTY, earlier + [parks], answered);
    assert run[..2] == earlier[..2] && run[..4] == earlier + [parks];
    var w3 := Exec(EMPTY, earlier);
    KnownSensed(w3, 1, true, 1, 0);
    var w4 := Exec(EMPTY, earlier + [parks]);
    assert w4.table == map[1 := Row("A", Occupied, 0, None)] && w4.pending == map[1 := ""];
  }
}
