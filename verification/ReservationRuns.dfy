/**
 What holds over every run of the server: reservations and their announced endings balance, the Arduino's flags and a
 client's view stay in step with the table except in exactly described cases, and reservations expire in time.
 */
module ReservationRuns {
  import opened Basics
  import opened SpaceTable
  import opened ParkingServer
  import opened SpaceStory

  /** The last event of a run, and the world it met. */
  ghost function WorldBefore(w: World, run: seq<Event>): World
    requires run != []
  {
    Exec(w, run[..|run| - 1])
  }

  ghost function LastFate(w: World, run: seq<Event>, space: int): Fate
    requires run != []
  {
    FateOf(WorldBefore(w, run), run[|run| - 1], space)
  }

  lemma LastStep(w: World, run: seq<Event>, space: int)
    requires Unique(w.table) && run != []
    ensures Meets(WorldBefore(w, run), Exec(w, run), space, LastFate(w, run, space), run[|run| - 1].now)
    ensures PlateOf(Exec(w, run).table, space) == PlateAfter(WorldBefore(w, run), run[|run| - 1], space)
  {
    RunIsUnique(w, run[..|run| - 1]);
    StepFate(WorldBefore(w, run), run[|run| - 1], space);
  }

  lemma ExecOneMore(w: World, run: seq<Event>, e: Event)
    ensures Exec(w, run + [e]) == Step(Exec(w, run), e)
    ensures WorldBefore(w, run + [e]) == Exec(w, run)
  {
    assert (run + [e])[..|run|] == run;
  }

  lemma {:induction false} ExecConcat(w: World, a: seq<Event>, b: seq<Event>)
    ensures Exec(w, a + b) == Exec(Exec(w, a), b)
  {
    if b == [] {
      assert a + b == a;
    } else {
      ExecConcat(w, a, b[..|b| - 1]);
      assert (a + b)[..|a + b| - 1] == a + b[..|b| - 1];
    }
  }

  lemma ExecThree(w: World, a: Event, b: Event, c: Event)
    ensures Exec(w, [a]) == Step(w, a)
    ensures Exec(w, [a, b]) == Step(Step(w, a), b)
    ensures Exec(w, [a, b, c]) == Step(Step(Step(w, a), b), c)
  {
    ExecOneMore(w, [], a);
    assert [] + [a] == [a];
    ExecOneMore(w, [a], b);
    assert [a] + [b] == [a, b];
    ExecOneMore(w, [a, b], c);
    assert [a, b] + [c] == [a, b, c];
  }

  /** The server before anything happened. */
  const EMPTY := World(map[], map[], [])

  /** The run by which a free space becomes known and is reserved. */
  function ReservedAtFirst(plate: string): seq<Event> {
    [At(0, Sensor(1, false, 0)), At(0, Reserve(1, plate))]
  }

  lemma ReservedAtFirstIs(plate: string)
    ensures var w := Exec(EMPTY, ReservedAtFirst(plate));
            && w.table == map[1 := Row("A", Reserved, 0, Some(plate))] && w.pending == map[]
  {
    var senses, reserves := At(0, Sensor(1, false, 0)), At(0, Reserve(1, plate));
    ExecThree(EMPTY, senses, reserves, reserves);
    KnownSensed(EMPTY.(table := Inserted(map[], 1, "A", 0)), 1, false, 0, 0);
    assert Step(EMPTY, senses).table == map[1 := Row("A", Free, 0, None)];
  }

  // ---------- the balance of reservations ----------

  function Weight(mark: Mark): int {
    if mark == Shown(Reserved) then 1 else if mark.Ended? then -1 else 0
  }

  /** Announced reservations less announced endings. */
  function Net(marks: seq<Mark>): int {
    if marks == [] then 0 else Net(marks[..|marks| - 1]) + Weight(marks[|marks| - 1])
  }

  lemma OneMore<T>(a: seq<T>, x: T)
    ensures a + [x] != [] && (a + [x])[..|a + [x]| - 1] == a && (a + [x])[|a + [x]| - 1] == x
  {
  }

  lemma NetOneMore(a: seq<Mark>, x: Mark)
    ensures Net(a + [x]) == Net(a) + Weight(x)
  {
    OneMore(a, x);
  }

  /** The marks of a fate are added one at a time. */
  lemma MarksOneByOne(marks: seq<Mark>, f: Fate, held: bool)
    ensures var m := MarksAfter(f, held);
            && (m == [] ==> marks + m == marks)
            && (|m| == 1 ==> marks + m == marks + [m[0]])
            && (|m| == 2 ==> marks + m == (marks + [m[0]]) + [m[1]])
            && (|m| == 3 ==> marks + m == ((marks + [m[0]]) + [m[1]]) + [m[2]])
            && |m| <= 3
  {
  }

  /** What a fate adds to the balance. */
  function NetOf(f: Fate, held: bool): int {
    match f
    case Taken => 1
    case GivenBack => -1
    case Lapsed => -1
    case Moved => -1
    case Sensed(occupied) => if occupied && held then -1 else 0
    case _ => 0
  }

  lemma NetAfterFate(marks: seq<Mark>, f: Fate, held: bool)
    ensures Net(marks + MarksAfter(f, held)) == Net(marks) + NetOf(f, held)
  {
    var m := MarksAfter(f, held);
    MarksOneByOne(marks, f, held);
    if |m| >= 1 {
      NetOneMore(marks, m[0]);
    }
    if |m| >= 2 {
      NetOneMore(marks + [m[0]], m[1]);
    }
    if |m| == 3 {
      NetOneMore((marks + [m[0]]) + [m[1]], m[2]);
    }
  }

  /** How often the sensor reported a reserved space free. */
  ghost function Overrides(w: World, run: seq<Event>, space: int): nat {
    if run == [] then 0
    else
      var earlier := Overrides(w, run[..|run| - 1], space);
      if LastFate(w, run, space) == Sensed(false) && Held(WorldBefore(w, run).table, space)
      then earlier + 1 else earlier
  }

  function Holds(t: Table, space: int): int {
    if Held(t, space) then 1 else 0
  }

  lemma HoldsAfterFate(w: World, w': World, space: int, f: Fate, now: int)
    requires Meets(w, w', space, f, now)
    ensures NetOf(f, Held(w.table, space)) == Holds(w'.table, space) - Holds(w.table, space)
                                            + if f == Sensed(false) && Held(w.table, space) then 1 else 0
  {
    assert Held(w.table, space) <==>
           StampOf(w.table, space).Some? && StampOf(w.table, space).value.state == Reserved;
    assert Held(w'.table, space) <==>
           StampOf(w'.table, space).Some? && StampOf(w'.table, space).value.state == Reserved;
  }

  lemma BalanceOfFate(w: World, w': World, space: int, f: Fate, now: int)
    requires Meets(w, w', space, f, now)
    ensures Net(About(w'.log, space)) - Net(About(w.log, space))
         == Holds(w'.table, space) - Holds(w.table, space)
          + if f == Sensed(false) && Held(w.table, space) then 1 else 0
  {
    HoldsAfterFate(w, w', space, f, now);
    NetAfterFate(About(w.log, space), f, Held(w.table, space));
  }

  /**
   Over any run, for each space: what was announced, reservations less endings (cancelled, expired, parked elsewhere,
   occupied), is one if the run left the space reserved, less one if it began so, and one more for every time the sensor
   reported the reserved space free, which is the one ending nobody announces.
   */
  lemma {:induction false} ReservationsBalance(w: World, run: seq<Event>, space: int)
    requires Unique(w.table)
    ensures Net(About(Exec(w, run).log, space)) - Net(About(w.log, space))
         == Holds(Exec(w, run).table, space) - Holds(w.table, space) + Overrides(w, run, space)
  {
    if run != [] {
      ReservationsBalance(w, run[..|run| - 1], space);
      LastStep(w, run, space);
      BalanceOfFate(WorldBefore(w, run), Exec(w, run), space, LastFate(w, run, space), run[|run| - 1].now);
    }
  }

  /**
   After any run plates are distinct; and an event reserves a space only if it is a reservation for it, the space is
   free, and no other space holds the plate. So an occupied space is never reserved by the next event.
   */
  lemma ReservedFromFreeOnly(w: World, run: seq<Event>, e: Event, space: int)
    requires Unique(w.table)
    ensures var t, t' := Exec(w, run).table, Step(Exec(w, run), e).table;
            && Unique(t)
            && (Held(t', space) && !Held(t, space) ==>
                  && e.op.Reserve? && e.op.space == space && t[space].state == Free
                  && (forall r :: r in t && r != space ==> t[r].plate != Some(e.op.plate))
                  && HasReservation(t', space, e.op.plate))
  {
    RunIsUnique(w, run);
    StepFate(Exec(w, run), e, space);
  }

  // ---------- the Arduino's flags ----------

  /** The flag last sent for the space. */
  function FlagOf(marks: seq<Mark>): bool {
    if marks == [] then false
    else if marks[|marks| - 1].Flagged? then marks[|marks| - 1].reserved
    else FlagOf(marks[..|marks| - 1])
  }

  lemma FlagAfterFate(marks: seq<Mark>, f: Fate, held: bool)
    ensures FlagOf(marks + MarksAfter(f, held)) ==
            match f
            case Untouched => FlagOf(marks)
            case Started => true
            case Taken => true
            case Sensed(occupied) => if occupied && held then false else FlagOf(marks)
            case _ => false
  {
    var m := MarksAfter(f, held);
    MarksOneByOne(marks, f, held);
    if |m| >= 1 {
      OneMore(marks, m[0]);
    }
    if |m| >= 2 {
      OneMore(marks + [m[0]], m[1]);
    }
    if |m| == 3 {
      OneMore((marks + [m[0]]) + [m[1]], m[2]);
    }
  }

  /**
   The flag is stuck when the last event that bears on it is the sensor reporting the reserved space free, or the
   start-up flag on a space that is not reserved.
   */
  ghost predicate Stuck(w: World, run: seq<Event>, space: int) {
    run != [] &&
    match LastFate(w, run, space)
    case Sensed(occupied) =>
      (!occupied && Held(WorldBefore(w, run).table, space)) || Stuck(w, run[..|run| - 1], space)
    case Started => !Held(WorldBefore(w, run).table, space)
    case Taken => false
    case _ => Stuck(w, run[..|run| - 1], space)
  }

  /**
   The Arduino mirror: after every event of any run the last flag sent for a space is up exactly if the space is
   reserved or its flag is stuck, and these exclude each other. So a reserved space always has its flag up.
   */
  lemma {:induction false} ArduinoMirror(w: World, run: seq<Event>, space: int)
    requires Unique(w.table) && FlagOf(About(w.log, space)) == Held(w.table, space)
    ensures FlagOf(About(Exec(w, run).log, space)) <==> Held(Exec(w, run).table, space) || Stuck(w, run, space)
    ensures !(Held(Exec(w, run).table, space) && Stuck(w, run, space))
  {
    if run != [] {
      ArduinoMirror(w, run[..|run| - 1], space);
      LastStep(w, run, space);
      var before := WorldBefore(w, run);
      FlagAfterFate(About(before.log, space), LastFate(w, run, space), Held(before.table, space));
    }
  }

  lemma StuckByReport(w: World, run: seq<Event>, e: Event, space: int)
    requires Unique(w.table) && FlagOf(About(w.log, space)) == Held(w.table, space)
    requires Held(Exec(w, run).table, space) && FateOf(Exec(w, run), e, space) == Sensed(false)
    ensures StampOf(Exec(w, run + [e]).table, space) == Some(Stamp(Free, e.now))
    ensures FlagOf(About(Exec(w, run + [e]).log, space))
  {
    ExecOneMore(w, run, e);
    LastStep(w, run + [e], space);
    ArduinoMirror(w, run + [e], space);
  }

  /** A run that leaves a flag stuck: the sensor reports a space free, it is reserved, and it is reported free again. */
  lemma FlagStuck() returns (run: seq<Event>)
    ensures run == ReservedAtFirst("A") + [At(0, Sensor(1, false, 0))]
    ensures var w := Exec(EMPTY, run);
            StampOf(w.table, 1) == Some(Stamp(Free, 0)) && FlagOf(About(w.log, 1))
  {
    var earlier, e := ReservedAtFirst("A"), At(0, Sensor(1, false, 0));
    run := earlier + [e];
    ReservedAtFirstIs("A");
    StuckByReport(EMPTY, earlier, e, 1);
  }

  /** Without the start-up flag, and if the sensor never reports a reserved space free, no flag is ever stuck. */
  lemma {:induction false} NotStuck(w: World, run: seq<Event>, space: int)
    requires Overrides(w, run, space) == 0
    requires forall k :: 0 <= k < |run| ==> run[k].op != Startup
    ensures !Stuck(w, run, space)
  {
    if run != [] {
      NotStuck(w, run[..|run| - 1], space);
    }
  }

  // ---------- the awaited plates ----------

  function Awaited(pending: map<int, string>, space: int): Option<string> {
    if space in pending then Some(pending[space]) else None
  }

  /** The plate in the row of a space; a space without a row, and a NULL plate, read as the empty string. */
  function OccupantIn(t: Table, space: int): string {
    if space in t then SpaceOf(t, space).occupant else ""
  }

  /**
   The plate a space was left with by the first report of its occupation that is not answered yet. Later reports do not
   replace it; an answer, or a request no reader takes, settles it.
   */
  ghost function FirstUnanswered(w: World, run: seq<Event>, space: int): Option<string> {
    if run == [] then Awaited(w.pending, space)
    else
      var earlier := FirstUnanswered(w, run[..|run| - 1], space);
      match run[|run| - 1].op
      case Sensor(s, occupied, readers) =>
        if s != space || !occupied then earlier
        else if readers == 0 then None
        else if earlier.Some? then earlier
        else Some(OccupantIn(WorldBefore(w, run).table, space))
      case Plate(s, _) => if s == space then None else earlier
      case _ => earlier
  }

  lemma PendingAfterPlate(w: World, s: int, plate: string, now: int)
    requires s in w.pending
    ensures PlateArrived(w, s, plate, now).pending == w.pending - {s}
  {
  }

  lemma PendingAfterAsking(w: World, s: int, occupant: string, readers: nat, now: int, space: int)
    ensures Awaited(PlateAsked(w, s, occupant, readers, now).pending, space) ==
            if s != space then Awaited(w.pending, space)
            else if readers == 0 then None
            else if space in w.pending then Some(w.pending[space])
            else Some(occupant)
  {
    var pending := if s in w.pending then w.pending else w.pending[s := occupant];
    PendingAfterPlate(World(w.table, pending, w.log + [PlateRequest(s)]), s, "", now);
  }

  lemma PendingAfterReport(w: World, s: int, occupied: bool, readers: nat, now: int, space: int)
    ensures Awaited(SpaceSensed(w, s, occupied, readers, now).pending, space) ==
            if s != space || !occupied then Awaited(w.pending, space)
            else if readers == 0 then None
            else if space in w.pending then Some(w.pending[space])
            else Some(OccupantIn(w.table, space))
  {
    var known := if s in w.table then w else w.(table := Inserted(w.table, s, "A", now));
    KnownSensed(known, s, occupied, readers, now);
    if occupied {
      PendingAfterAsking(Updated(known, s, true, now), s, SpaceOf(known.table, s).occupant, readers, now, space);
    }
  }

  /** What a plate is compared with to conclude a reservation, over any run. */
  lemma {:induction false} AwaitedPlate(w: World, run: seq<Event>, space: int)
    ensures Awaited(Exec(w, run).pending, space) == FirstUnanswered(w, run, space)
  {
    if run != [] {
      AwaitedPlate(w, run[..|run| - 1], space);
      var before, e := WorldBefore(w, run), run[|run| - 1];
      if e.op.Sensor? {
        PendingAfterReport(before, e.op.space, e.op.occupied, e.op.readers, e.now, space);
      }
    }
  }

  /** A report of occupation whose plate request some reader takes. */
  predicate Asks(e: Event, space: int) {
    e.op.Sensor? && e.op.space == space && e.op.occupied && e.op.readers > 0
  }

  /** An answer for the space, or a report of its occupation whose plate request no reader takes. */
  predicate Settles(e: Event, space: int) {
    || (e.op.Plate? && e.op.space == space)
    || (e.op.Sensor? && e.op.space == space && e.op.occupied && e.op.readers == 0)
  }

  ghost predicate SettledSince(run: seq<Event>, from: nat, space: int) {
    exists k :: from <= k < |run| && Settles(run[k], space)
  }

  /** Is there a request in the run that nothing settles after it? */
  ghost predicate Unsettled(run: seq<Event>, space: int) {
    exists k :: 0 <= k < |run| && Asks(run[k], space) && !SettledSince(run, k + 1, space)
  }

  lemma SettledSinceOneMore(run: seq<Event>, from: nat, space: int)
    requires from < |run|
    ensures SettledSince(run, from, space) <==>
            SettledSince(run[..|run| - 1], from, space) || Settles(run[|run| - 1], space)
  {
    var init := run[..|run| - 1];
    if SettledSince(init, from, space) {
      var k :| from <= k < |init| && Settles(init[k], space);
      assert Settles(run[k], space);
    }
    if SettledSince(run, from, space) && !Settles(run[|run| - 1], space) {
      var k :| from <= k < |run| && Settles(run[k], space);
      assert Settles(init[k], space);
    }
  }

  lemma UnsettledOneMore(run: seq<Event>, space: int)
    requires run != []
    ensures Unsettled(run, space) <==>
            Asks(run[|run| - 1], space) || (Unsettled(run[..|run| - 1], space) && !Settles(run[|run| - 1], space))
  {
    var n := |run| - 1;
    var init := run[..n];
    if Asks(run[n], space) {
      assert !SettledSince(run, n + 1, space);
    }
    if Unsettled(init, space) && !Settles(run[n], space) {
      var k :| 0 <= k < |init| && Asks(init[k], space) && !SettledSince(init, k + 1, space);
      if k + 1 < |run| {
        SettledSinceOneMore(run, k + 1, space);
      }
      assert Asks(run[k], space);
    }
    if Unsettled(run, space) && !Asks(run[n], space) {
      var k :| 0 <= k < |run| && Asks(run[k], space) && !SettledSince(run, k + 1, space);
      SettledSinceOneMore(run, k + 1, space);
      assert Asks(init[k], space);
    }
  }

  /**
   A space is awaited exactly if some reader took a plate request for it that no answer, and no later request without
   a reader, has settled. One answer settles every request before it: a second one is not awaited.
   */
  lemma {:induction false} AwaitedIff(w: World, run: seq<Event>, space: int)
    ensures space in Exec(w, run).pending <==>
            Unsettled(run, space) || (space in w.pending && !SettledSince(run, 0, space))
  {
    if run != [] {
      AwaitedIff(w, run[..|run| - 1], space);
      AwaitedPlate(w, run[..|run| - 1], space);
      AwaitedPlate(w, run, space);
      UnsettledOneMore(run, space);
      SettledSinceOneMore(run, 0, space);
    }
  }

  // ---------- a client's view ----------

  function Column(t: Table): map<int, SpaceState> {
    map space | space in t :: t[space].state
  }

  /** A client keeps the state last shown to it for each space. */
  function Replay(view: map<int, SpaceState>, updates: seq<Effect>): map<int, SpaceState> {
    if updates == [] then view
    else
      var before, last := Replay(view, updates[..|updates| - 1]), updates[|updates| - 1];
      if last.SpaceUpdate? then before[last.space := last.state] else before
  }

  function SeenIn(view: map<int, SpaceState>, space: int): Option<SpaceState> {
    if space in view then Some(view[space]) else None
  }

  /** The state last shown by these marks, or the one seen before. */
  function LastShown(marks: seq<Mark>, before: Option<SpaceState>): Option<SpaceState> {
    if marks == [] then before
    else if marks[|marks| - 1].Shown? then Some(marks[|marks| - 1].state)
    else LastShown(marks[..|marks| - 1], before)
  }

  lemma {:induction false} ReplayShows(view: map<int, SpaceState>, updates: seq<Effect>, space: int)
    ensures SeenIn(Replay(view, updates), space) == LastShown(About(updates, space), SeenIn(view, space))
  {
    if updates != [] {
      var init, last := updates[..|updates| - 1], updates[|updates| - 1];
      ReplayShows(view, init, space);
      var marks := MarksOf(last, space);
      if marks == [] {
        assert About(init, space) + marks == About(init, space);
      } else {
        assert (About(init, space) + marks)[..|About(init, space)|] == About(init, space);
      }
    }
  }

  lemma ShownOneMore(a: seq<Mark>, x: Mark, before: Option<SpaceState>)
    ensures LastShown(a + [x], before) == if x.Shown? then Some(x.state) else LastShown(a, before)
  {
    OneMore(a, x);
  }

  lemma ShownAfterFate(marks: seq<Mark>, f: Fate, held: bool, before: Option<SpaceState>)
    ensures LastShown(marks + MarksAfter(f, held), before) ==
            match f
            case Taken => Some(Reserved)
            case GivenBack => Some(Free)
            case Sensed(occupied) => Some(if occupied then Occupied else Free)
            case _ => LastShown(marks, before)
  {
    var m := MarksAfter(f, held);
    MarksOneByOne(marks, f, held);
    if |m| >= 1 {
      ShownOneMore(marks, m[0], before);
    }
    if |m| >= 2 {
      ShownOneMore(marks + [m[0]], m[1], before);
    }
    if |m| == 3 {
      ShownOneMore((marks + [m[0]]) + [m[1]], m[2], before);
    }
  }

  /** The space was last freed without telling: by its expiry, or because its car parked somewhere else. */
  ghost predicate FreedSilently(w: World, run: seq<Event>, space: int) {
    run != [] &&
    match LastFate(w, run, space)
    case Lapsed => true
    case Moved => true
    case Untouched => FreedSilently(w, run[..|run| - 1], space)
    case Started => FreedSilently(w, run[..|run| - 1], space)
    case _ => false
  }

  ghost function StateIn(t: Table, space: int): Option<SpaceState> {
    SeenIn(Column(t), space)
  }

  predicate ExpiryNotice(effect: Effect) {
    effect.ReserveUpdate? && effect.notice == ReserveCancelledExpired
  }

  /** Effects were added, none of them the notice that a reservation expired. */
  ghost predicate GrowsQuietly(log: seq<Effect>, log': seq<Effect>) {
    log <= log' && forall k :: |log| <= k < |log'| ==> !ExpiryNotice(log'[k])
  }

  lemma AskedGrows(w: World, s: int, occupant: string, readers: nat, now: int)
    ensures GrowsQuietly(w.log, PlateAsked(w, s, occupant, readers, now).log)
  {
    var pending := if s in w.pending then w.pending else w.pending[s := occupant];
    var asked := World(w.table, pending, w.log + [PlateRequest(s)]);
    assert GrowsQuietly(asked.log, PlateArrived(asked, s, "", now).log);
  }

  lemma SensedGrows(w: World, s: int, occupied: bool, readers: nat, now: int)
    ensures GrowsQuietly(w.log, SpaceSensed(w, s, occupied, readers, now).log)
  {
    var known := if s in w.table then w else w.(table := Inserted(w.table, s, "A", now));
    KnownSensed(known, s, occupied, readers, now);
    if occupied {
      AskedGrows(Updated(known, s, true, now), s, SpaceOf(known.table, s).occupant, readers, now);
    }
  }

  lemma StepGrows(w: World, e: Event)
    ensures w.log <= Step(w, e).log
    ensures !e.op.Expire? ==> GrowsQuietly(w.log, Step(w, e).log)
  {
    match e.op
    case Sensor(s, occupied, readers) =>
      SensedGrows(w, s, occupied, readers, e.now);
    case _ =>
  }

  lemma {:induction false} LogGrows(w: World, run: seq<Event>)
    requires Unique(w.table)
    ensures w.log <= Exec(w, run).log
  {
    if run != [] {
      LogGrows(w, run[..|run| - 1]);
      StepGrows(WorldBefore(w, run), run[|run| - 1]);
    }
  }

  /** A run appends to the log, and what it appends is told apart space by space. */
  lemma AboutGrows(w: World, run: seq<Event>, space: int)
    requires Unique(w.table)
    ensures w.log <= Exec(w, run).log
    ensures About(Exec(w, run).log, space) == About(w.log, space) + About(Exec(w, run).log[|w.log|..], space)
  {
    LogGrows(w, run);
    var sent := Exec(w, run).log[|w.log|..];
    assert Exec(w, run).log == w.log + sent;
    AboutConcat(w.log, sent, space);
  }

  lemma Cancels<T>(a: seq<T>, b: seq<T>, c: seq<T>)
    requires a + b == a + c
    ensures b == c
  {
    assert b == (a + b)[|a|..] && c == (a + c)[|a|..];
  }

  /** The marks a run adds are those added before its last event, and those of that event. */
  lemma SentByLast(w: World, run: seq<Event>, space: int)
    requires Unique(w.table) && run != []
    ensures w.log <= WorldBefore(w, run).log && w.log <= Exec(w, run).log
    ensures About(Exec(w, run).log[|w.log|..], space) ==
            About(WorldBefore(w, run).log[|w.log|..], space)
            + MarksAfter(LastFate(w, run, space), Held(WorldBefore(w, run).table, space))
  {
    AboutGrows(w, run, space);
    AboutGrows(w, run[..|run| - 1], space);
    LastStep(w, run, space);
    var earlier := About(WorldBefore(w, run).log[|w.log|..], space);
    var last := MarksAfter(LastFate(w, run, space), Held(WorldBefore(w, run).table, space));
    Associative(About(w.log, space), earlier, last);
    Cancels(About(w.log, space), About(Exec(w, run).log[|w.log|..], space), earlier + last);
  }

  /** The state last shown to a client that began with the listing at `w`. */
  ghost function ShownBy(w: World, run: seq<Event>, space: int): Option<SpaceState>
    requires w.log <= Exec(w, run).log
  {
    LastShown(About(Exec(w, run).log[|w.log|..], space), StateIn(w.table, space))
  }

  lemma {:induction false} ShownToDate(w: World, run: seq<Event>, space: int)
    requires Unique(w.table) && w.log <= Exec(w, run).log
    ensures ShownBy(w, run, space) != StateIn(Exec(w, run).table, space) <==> FreedSilently(w, run, space)
    ensures FreedSilently(w, run, space) ==>
              ShownBy(w, run, space) == Some(Reserved) && StateIn(Exec(w, run).table, space) == Some(Free)
  {
    if run != [] {
      var before, f := WorldBefore(w, run), LastFate(w, run, space);
      SentByLast(w, run, space);
      ShownToDate(w, run[..|run| - 1], space);
      LastStep(w, run, space);
      ShownAfterFate(About(before.log[|w.log|..], space), f, Held(before.table, space), StateIn(w.table, space));
    }
  }

  /**
   A client that takes the listing at any moment and replays the updates published since agrees with the table about
   every space, except about those that were freed silently since their last update: these it takes for reserved while
   they are free.
   */
  lemma ClientView(w: World, run: seq<Event>, space: int)
    requires Unique(w.table)
    ensures var w' := Exec(w, run);
            && w.log <= w'.log
            && var seen := SeenIn(Replay(Column(w.table), w'.log[|w.log|..]), space);
               && (seen != SeenIn(Column(w'.table), space) <==> FreedSilently(w, run, space))
               && (FreedSilently(w, run, space) ==>
                     seen == Some(Reserved) && SeenIn(Column(w'.table), space) == Some(Free))
  {
    AboutGrows(w, run, space);
    var sent := Exec(w, run).log[|w.log|..];
    ReplayShows(Column(w.table), sent, space);
    ShownToDate(w, run, space);
  }

  /** A run that a client does not see the end of: a space is reserved, and its reservation expires. */
  lemma ExpiryIsNotShown() returns (run: seq<Event>)
    ensures run == ReservedAtFirst("A") + [At(EXPIRATION, Expire(1))]
    ensures var w := Exec(EMPTY, run);
            && StampOf(w.table, 1) == Some(Stamp(Free, EXPIRATION))
            && SeenIn(Replay(Column(EMPTY.table), w.log), 1) == Some(Reserved)
  {
    var earlier, e := ReservedAtFirst("A"), At(EXPIRATION, Expire(1));
    run := earlier + [e];
    ReservedAtFirstIs("A");
    ExecOneMore(EMPTY, earlier, e);
    ClientView(EMPTY, run, 1);
    assert Exec(EMPTY, run).log[|EMPTY.log|..] == Exec(EMPTY, run).log;
  }

  lemma WithoutLast(t: Table, spaces: seq<Space>, selected: set<int>)
    requires ListsSpaces(t, spaces, selected) && spaces != []
    ensures ListsSpaces(t, spaces[..|spaces| - 1], selected - {spaces[|spaces| - 1].id})
  {
    var init, last := spaces[..|spaces| - 1], spaces[|spaces| - 1];
    forall id | id in selected - {last.id} ensures exists i :: 0 <= i < |init| && init[i].id == id {
      var i :| 0 <= i < |spaces| && spaces[i].id == id;
      assert init[i].id == id;
    }
  }

  lemma ReplayStatuses(spaces: seq<Space>)
    requires spaces != []
    ensures var last := spaces[|spaces| - 1];
            Replay(map[], Statuses(spaces)) == Replay(map[], Statuses(spaces[..|spaces| - 1]))[last.id := last.state]
  {
    assert Statuses(spaces)[..|Statuses(spaces)| - 1] == Statuses(spaces[..|spaces| - 1]);
  }

  /** The listing a client is written is the STATE column. */
  lemma {:induction false} ListingIsColumn(t: Table, spaces: seq<Space>, selected: set<int>)
    requires ListsSpaces(t, spaces, selected) && selected <= t.Keys
    ensures Replay(map[], Statuses(spaces)) == map space | space in selected :: t[space].state
  {
    if spaces == [] {
      assert forall id :: id !in selected;
      assert selected == {};
    } else {
      var last := spaces[|spaces| - 1];
      WithoutLast(t, spaces, selected);
      ListingIsColumn(t, spaces[..|spaces| - 1], selected - {last.id});
      ReplayStatuses(spaces);
    }
  }
}
