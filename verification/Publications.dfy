/**
 What runs of the server send out, and not only for whom: one plate request for each report of occupation, and every
 state with the section of its row, which never changes.
 */
module Publications {
  import opened Basics
  import opened SpaceTable
  import opened ParkingServer
  import opened SpaceStory
  import opened ReservationRuns

  // ---------- plate requests ----------

  /** How many plate requests for the space were sent. */
  function RequestsFor(log: seq<Effect>, space: int): nat {
    if log == [] then 0
    else RequestsFor(log[..|log| - 1], space) + if log[|log| - 1] == PlateRequest(space) then 1 else 0
  }

  lemma {:induction false} RequestsOfConcat(a: seq<Effect>, b: seq<Effect>, space: int)
    ensures RequestsFor(a + b, space) == RequestsFor(a, space) + RequestsFor(b, space)
  {
    if b == [] {
      assert a + b == a;
    } else {
      RequestsOfConcat(a, b[..|b| - 1], space);
      assert (a + b)[..|a + b| - 1] == a + b[..|b| - 1];
    }
  }

  lemma {:induction false} NoRequestAmong(b: seq<Effect>, space: int)
    requires forall k :: 0 <= k < |b| ==> !b[k].PlateRequest?
    ensures RequestsFor(b, space) == 0
  {
    if b != [] {
      NoRequestAmong(b[..|b| - 1], space);
    }
  }

  lemma OneRequestAmong(a: seq<Effect>, s: int, b: seq<Effect>, space: int)
    requires forall k :: 0 <= k < |a| ==> !a[k].PlateRequest?
    requires forall k :: 0 <= k < |b| ==> !b[k].PlateRequest?
    ensures RequestsFor(a + [PlateRequest(s)] + b, space) == if s == space then 1 else 0
  {
    NoRequestAmong(a, space);
    NoRequestAmong(b, space);
    RequestsOfConcat(a + [PlateRequest(s)], b, space);
    RequestsOfConcat(a, [PlateRequest(s)], space);
    assert [PlateRequest(s)][..0] == [];
  }

  lemma Regroup<T>(log: seq<T>, a: seq<T>, b: seq<T>, c: seq<T>, d: seq<T>)
    ensures log + a + b + c + d == log + (a + b + (c + d))
  {
  }

  /** Neither a request nor a state. */
  predicate Notices(effects: seq<Effect>) {
    forall k :: 0 <= k < |effects| ==> !effects[k].PlateRequest? && !effects[k].SpaceUpdate?
  }

  lemma LeavingIsNotices(t: Table, space: int, notice: Notice)
    ensures Notices(LeftBy(t, space) + [ReserveUpdate(space, notice), EndReservationStreams(space)])
  {
  }

  /** A report sends the state, then the request, then notices. */
  lemma ReportSends(w: World, e: Event) returns (shown: Effect, rest: seq<Effect>)
    requires Unique(w.table) && e.op.Sensor?
    ensures Step(w, e).log ==
            w.log + ([shown] + (if e.op.occupied then [PlateRequest(e.op.space)] else []) + rest)
    ensures shown == SpaceUpdate(e.op.space, if e.op.space in w.table then w.table[e.op.space].section else "A",
                                 if e.op.occupied then Occupied else Free)
    ensures Notices(rest)
  {
    var t, s := w.table, e.op.space;
    var awaited := if s in w.pending then w.pending[s]
                   else if s in t && t[s].plate.Some? then t[s].plate.value else "";
    var elsewhere := exists r :: r in t && r != s && t[r].plate == Some("");
    var notice := if !elsewhere && awaited == "" then ReserveConcluded else ReserveCancelledSpaceOccupied;
    shown := SpaceUpdate(s, if s in t then t[s].section else "A", if e.op.occupied then Occupied else Free);
    var asked := if e.op.occupied then [PlateRequest(s)] else [];
    var unread := if e.op.occupied && e.op.readers == 0
                  then LeftBy(t, s) + [ReserveUpdate(s, notice), EndReservationStreams(s)] else [];
    var ended := if e.op.occupied && s in t && t[s].state == Reserved
                 then [ReserveUpdate(s, ReserveOccupied), ArduinoFlag(s, false)] else [];
    rest := unread + ended;
    LeavingIsNotices(t, s, notice);
    Regroup(w.log, [shown], asked, unread, ended);
    ReportLog(w, s, e.op.occupied, e.op.readers, e.now);
  }

  /** An event other than a report sends no plate request. */
  lemma OthersRequestNothing(w: World, e: Event)
    requires !e.op.Sensor?
    ensures w.log <= Step(w, e).log
    ensures forall k :: |w.log| <= k < |Step(w, e).log| ==> !Step(w, e).log[k].PlateRequest?
  {
  }

  lemma StepRequests(w: World, e: Event, space: int)
    requires Unique(w.table)
    ensures RequestsFor(Step(w, e).log, space) ==
            RequestsFor(w.log, space) + if e.op.Sensor? && e.op.occupied && e.op.space == space then 1 else 0
  {
    if e.op.Sensor? {
      var shown, rest := ReportSends(w, e);
      var asked := if e.op.occupied then [PlateRequest(e.op.space)] else [];
      RequestsOfConcat(w.log, [shown] + asked + rest, space);
      if e.op.occupied {
        OneRequestAmong([shown], e.op.space, rest, space);
      } else {
        NoRequestAmong([shown] + asked + rest, space);
      }
    } else {
      OthersRequestNothing(w, e);
      var sent := Step(w, e).log[|w.log|..];
      assert Step(w, e).log == w.log + sent;
      RequestsOfConcat(w.log, sent, space);
      NoRequestAmong(sent, space);
    }
  }

  /** How often the space was reported occupied. */
  function OccupiedReports(run: seq<Event>, space: int): nat {
    if run == [] then 0
    else
      var e := run[|run| - 1];
      OccupiedReports(run[..|run| - 1], space)
      + if e.op.Sensor? && e.op.occupied && e.op.space == space then 1 else 0
  }

  /** Over any run, one plate request is sent for each report that the space is occupied, and no other. */
  lemma {:induction false} OneRequestForEachReport(w: World, run: seq<Event>, space: int)
    requires Unique(w.table)
    ensures RequestsFor(Exec(w, run).log, space) == RequestsFor(w.log, space) + OccupiedReports(run, space)
  {
    if run != [] {
      OneRequestForEachReport(w, run[..|run| - 1], space);
      RunIsUnique(w, run[..|run| - 1]);
      StepRequests(WorldBefore(w, run), run[|run| - 1], space);
    }
  }

  // ---------- sections ----------

  /** A row stays in the table, and in its section; a new row is in section A. */
  lemma SectionKept(w: World, e: Event, space: int)
    requires Unique(w.table)
    ensures space in w.table ==> space in Step(w, e).table && Step(w, e).table[space].section == w.table[space].section
    ensures space !in w.table && space in Step(w, e).table ==>
              Step(w, e).table[space].section == "A" && e.op.Sensor? && e.op.space == space
  {
    match e.op
    case Sensor(s, occupied, readers) => SensorStep(w, s, occupied, readers, e.now);
    case Plate(s, plate) =>
      if s in w.pending {
        PlateResolution(w, s, plate, e.now);
      }
    case CancelFor(plate) => CancelAnswerIsTrue(w, plate, e.now);
    case _ =>
  }

  /** The update shows the section of its row. */
  predicate RightSection(t: Table, effect: Effect) {
    effect.SpaceUpdate? ==> effect.space in t && effect.section == t[effect.space].section
  }

  lemma ReportShowsSection(w: World, e: Event)
    requires Unique(w.table) && e.op.Sensor?
    ensures w.log <= Step(w, e).log
    ensures forall k :: |w.log| <= k < |Step(w, e).log| ==> RightSection(Step(w, e).table, Step(w, e).log[k])
  {
    var shown, rest := ReportSends(w, e);
    SensorStep(w, e.op.space, e.op.occupied, e.op.readers, e.now);
    var asked := if e.op.occupied then [PlateRequest(e.op.space)] else [];
    var sent := [shown] + asked + rest;
    forall k | 0 <= k < |sent| ensures RightSection(Step(w, e).table, sent[k]) {
      if k > |asked| {
        assert sent[k] == rest[k - 1 - |asked|];
      }
    }
  }

  lemma StepShowsSection(w: World, e: Event)
    requires Unique(w.table)
    ensures w.log <= Step(w, e).log
    ensures forall k :: |w.log| <= k < |Step(w, e).log| ==> RightSection(Step(w, e).table, Step(w, e).log[k])
  {
    match e.op
    case Sensor(_, _, _) => ReportShowsSection(w, e);
    case CancelFor(plate) =>
      CancelAnswerIsTrue(w, plate, e.now);
    case _ =>
  }

  /**
   Over any run a row never changes its section, a row that is new is in section A, and every state that was sent out
   came with the section of its row.
   */
  lemma {:induction false} SectionsAreTrue(w: World, run: seq<Event>)
    requires Unique(w.table)
    ensures var w' := Exec(w, run);
            && w.log <= w'.log
            && (forall s :: s in w.table ==> s in w'.table && w'.table[s].section == w.table[s].section)
            && (forall s :: s in w'.table && s !in w.table ==> w'.table[s].section == "A")
            && (forall k :: |w.log| <= k < |w'.log| && w'.log[k].SpaceUpdate? ==>
                  var s := w'.log[k].space; s in w'.table && w'.log[k].section == w'.table[s].section)
  {
    if run != [] {
      var before, e, w' := WorldBefore(w, run), run[|run| - 1], Exec(w, run);
      SectionsAreTrue(w, run[..|run| - 1]);
      RunIsUnique(w, run[..|run| - 1]);
      forall s
        ensures s in before.table ==> s in w'.table && w'.table[s].section == before.table[s].section
        ensures s !in before.table && s in w'.table ==> w'.table[s].section == "A"
      {
        SectionKept(before, e, s);
      }
      StepShowsSection(before, e);
      forall k | |w.log| <= k < |w'.log| && w'.log[k].SpaceUpdate? ensures RightSection(w'.table, w'.log[k]) {
        if k < |before.log| {
          assert w'.log[k] == before.log[k];
        }
      }
    }
  }

  // ---------- the start-up flag ----------

  /** At start-up the flag of space 2 is raised, and nothing else is sent or changed. */
  lemma StartupLog(w: World, now: int)
    ensures Step(w, At(now, Startup)) == World(w.table, w.pending, w.log + [ArduinoFlag(2, true)])
  {
  }
}
