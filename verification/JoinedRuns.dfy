/**
 The server's world and its plate readers in one run. A report that a space is occupied asks the readers registered for
 it; a result that a reader reads goes to the server as the plate of the space it names. An answer for a space that is
 not awaited has no defined effect in the original, so the question is when every answer finds its space awaited.
 */
module JoinedRuns {
  import opened Basics
  import opened SpaceTable
  import opened ParkingServer
  import P = PlateStream
  import R = ReaderPopulation
  import S = SpaceStory
  import V = ReservationRuns

  datatype Joint = Joint(world: World, readers: R.Readers)

  /** What the sensors, the readers' completions and clients, the reserving clients, and the expiry thread do. */
  datatype Happening =
    | Report(space: int, occupied: bool)
    | Completed(id: nat, op: Operation, message: P.Result)
    | ReaderLeaves(id: nat)
    | Reserve(space: int, plate: string)
    | CancelFor(plate: string)
    | Expire(space: int)

  datatype Event = At(now: int, what: Happening)

  function Start(table: Table): Joint {
    Joint(World(table, map[], []), R.Start())
  }

  function Takers(r: R.Readers, space: int): set<nat> {
    set id | id in r.registered && R.Takes(r, id, space)
  }

  /** The results that a tick passes to the server. */
  ghost function Answered(w: World, calls: seq<P.Call>, now: int): World {
    if calls == [] then w
    else
      var earlier, last := Answered(w, calls[..|calls| - 1], now), calls[|calls| - 1];
      if last.ReceivePlate? then PlateReceived(earlier, last.space, last.plate, now) else earlier
  }

  /** What the next tick of a reader asks of the server. */
  function CallsIn(r: R.Readers, id: nat, op: Operation, message: P.Result): seq<P.Call>
    requires id < |r.members|
  {
    P.CallsOf(P.Popped(r.members[id].stream, op, message))
  }

  ghost function Step(j: Joint, e: Event): Joint {
    match e.what
    case Report(space, occupied) =>
      Joint(SpaceSensed(j.world, space, occupied, |Takers(j.readers, space)|, e.now),
            if occupied then R.Ask(j.readers, space) else j.readers)
    case Completed(id, op, message) =>
      if id >= |j.readers.members| then j
      else Joint(Answered(j.world, CallsIn(j.readers, id, op, message), e.now), R.Complete(j.readers, id, op, message))
    case ReaderLeaves(id) => j.(readers := R.Step(j.readers, R.ClientLeaves(id)))
    case Reserve(space, plate) => j.(world := SpaceReserved(j.world, space, plate, e.now))
    case CancelFor(plate) => j.(world := ReservationCancelled(j.world, plate, e.now))
    case Expire(space) => j.(world := SpaceExpired(j.world, space, e.now))
  }

  /** What the readers see of an event. */
  function ForReaders(e: Event): Option<R.Event> {
    match e.what
    case Report(space, occupied) => if occupied then Some(R.AskFor(space)) else None
    case Completed(id, op, message) => Some(R.Done(id, op, message))
    case ReaderLeaves(id) => Some(R.ClientLeaves(id))
    case _ => None
  }

  predicate Legal(j: Joint, e: Event) {
    ForReaders(e).Some? ==> R.Legal(j.readers, ForReaders(e).value)
  }

  ghost function Run(table: Table, es: seq<Event>): Joint {
    if es == [] then Start(table) else Step(Run(table, es[..|es| - 1]), es[|es| - 1])
  }

  ghost predicate LegalRun(table: Table, es: seq<Event>) {
    es == [] || (LegalRun(table, es[..|es| - 1]) && Legal(Run(table, es[..|es| - 1]), es[|es| - 1]))
  }

  // ---------- the environment ----------

  /** A reader that said which space it watches. */
  predicate Watches(r: R.Readers, id: nat, space: int) {
    id < |r.members| && 0 <= r.members[id].stream.spaceId == space
  }

  ghost predicate Unwatched(r: R.Readers, space: int) {
    forall id: nat :: !Watches(r, id, space)
  }

  /** A reader's client first says which space it watches, one nobody else watches, and then answers for it only. */
  ghost predicate Expected(r: R.Readers, id: nat, message: P.Result)
    requires id < |r.members|
  {
    var watched := r.members[id].stream.spaceId;
    if watched < 0 then
      message.registration && 0 <= message.space && Unwatched(r, message.space)
    else
      !message.registration && message.space == watched
  }

  /** A space is reported occupied only when the reader that watches it has answered what it was asked before. */
  ghost predicate Orderly(j: Joint, e: Event) {
    match e.what
    case Report(space, occupied) =>
      occupied ==> forall id :: 0 <= id < |j.readers.members| && Watches(j.readers, id, space) ==>
                     j.readers.members[id].stream.status == P.Waiting
    case Completed(id, op, message) =>
      op == Read && id < |j.readers.members| ==> Expected(j.readers, id, message)
    case _ => true
  }

  ghost predicate OrderlyRun(table: Table, es: seq<Event>) {
    es == [] || (OrderlyRun(table, es[..|es| - 1]) && Orderly(Run(table, es[..|es| - 1]), es[|es| - 1]))
  }

  // ---------- what every orderly run keeps ----------

  /** A reader is asked for one plate at a time, and for none before it registered. */
  predicate OneAtATime(s: P.Reader) {
    if s.count == 0 then s.spaceId == -1
    else
      && s.spaceId >= -1
      && (s.spaceId == -1 ==> s.status == P.Reading)
      && (s.status != P.Waiting ==> s.readQueue == 1 && s.queue == [])
  }

  /** The reader that watches the space owes its plate. */
  predicate Owes(r: R.Readers, id: nat, space: int) {
    Watches(r, id, space) && r.members[id].stream.status != P.Waiting
  }

  ghost predicate OneWatcher(r: R.Readers) {
    forall a: nat, b: nat, space :: Watches(r, a, space) && Watches(r, b, space) ==> a == b
  }

  /** A space is awaited exactly while the reader that watches it owes its plate. */
  ghost predicate AwaitedWhileOwed(j: Joint) {
    forall space :: space in j.world.pending <==> exists id: nat :: Owes(j.readers, id, space)
  }

  ghost predicate ReadersKept(r: R.Readers) {
    && R.Sound(r) && R.AllCalm(r) && OneWatcher(r)
    && forall id :: 0 <= id < |r.members| ==> OneAtATime(r.members[id].stream)
  }

  ghost predicate Kept(j: Joint) {
    ReadersKept(j.readers) && AwaitedWhileOwed(j)
  }

  function Settled(s: P.Reader, op: Operation, message: P.Result): P.Reader {
    P.Proceeded(P.Popped(s, op, message), P.AsWritten)
  }

  lemma WriteCompletes(s: P.Reader, op: Operation, message: P.Result)
    requires R.StreamSound(s) && R.Calm(s) && OneAtATime(s) && P.Legal(s, P.Done(op, message))
    requires s.count == 0 || s.status == P.Writing
    ensures var s' := Settled(s, op, message);
            && s'.count > 0 && s'.status == P.Reading && s'.spaceId == s.spaceId && s'.readQueue == 1 && s'.queue == []
    ensures forall c :: c in P.CallsOf(P.Popped(s, op, message)) ==> !c.ReceivePlate?
  {
  }

  lemma ReadCompletes(s: P.Reader, op: Operation, message: P.Result)
    requires R.StreamSound(s) && R.Calm(s) && OneAtATime(s) && P.Legal(s, P.Done(op, message))
    requires s.count > 0 && s.status == P.Reading
    ensures op == Read
    ensures var s' := Settled(s, op, message);
            && s'.count > 0 && s'.status == P.Waiting
            && s'.spaceId == if message.registration then message.space else s.spaceId
    ensures P.CallsOf(P.Popped(s, op, message)) ==
            if message.registration then [] else [P.ReceivePlate(message.space, message.plate)]
  {
    assert op == Read by {
      assert s.wire.inFlight == multiset{Read};
    }
  }

  lemma AnsweredNothing(w: World, calls: seq<P.Call>, now: int)
    requires forall c :: c in calls ==> !c.ReceivePlate?
    ensures Answered(w, calls, now) == w
  {
    if calls != [] {
      assert forall c :: c in calls[..|calls| - 1] ==> c in calls;
      AnsweredNothing(w, calls[..|calls| - 1], now);
      assert calls[|calls| - 1] in calls;
    }
  }

  lemma AskedIsOneAtATime(s: P.Reader, space: int)
    requires R.StreamSound(s) && s.count > 0 && s.status == P.Waiting && s.spaceId >= 0
    ensures var s' := R.Asked(s, space);
            OneAtATime(s') && s'.spaceId == s.spaceId && s'.status != P.Waiting && s'.count > 0
  {
  }

  /** Only a reader that watches the space takes a request for it, so only one that waits. */
  lemma TakersWait(j: Joint, e: Event)
    requires Orderly(j, e) && e.what.Report? && e.what.occupied
    ensures R.Patient(j.readers, R.AskFor(e.what.space))
  {
    forall id | 0 <= id < |j.readers.members| && R.Takes(j.readers, id, e.what.space)
      ensures j.readers.members[id].stream.status == P.Waiting
    {
      assert Watches(j.readers, id, e.what.space);
    }
  }

  lemma StreamsKept(r: R.Readers, e: R.Event)
    requires R.Sound(r) && R.AllCalm(r) && R.Legal(r, e) && R.Patient(r, e)
    ensures R.Sound(R.Step(r, e)) && R.AllCalm(R.Step(r, e))
  {
    R.StepKeeps(r, e);
    forall id: nat | id < |R.Step(r, e).members| ensures R.Calm(R.Step(r, e).members[id].stream) {
      R.StepIsCalm(r, e, id);
    }
  }

  lemma AskKeepsWatchers(r: R.Readers, space: int)
    requires OneWatcher(r)
    ensures OneWatcher(R.Ask(r, space))
  {
    forall id: nat, x ensures Watches(R.Ask(r, space), id, x) <==> Watches(r, id, x) {
    }
  }

  lemma AskKeepsOneAtATime(j: Joint, e: Event, id: nat)
    requires ReadersKept(j.readers) && Orderly(j, e) && e.what.Report? && e.what.occupied && id < |j.readers.members|
    ensures OneAtATime(R.Ask(j.readers, e.what.space).members[id].stream)
  {
    assert R.MemberSound(j.readers, id) && OneAtATime(j.readers.members[id].stream);
    if R.Takes(j.readers, id, e.what.space) {
      assert Watches(j.readers, id, e.what.space);
      AskedIsOneAtATime(j.readers.members[id].stream, e.what.space);
    }
  }

  lemma AskKeepsReaders(j: Joint, e: Event)
    requires ReadersKept(j.readers) && Orderly(j, e) && e.what.Report? && e.what.occupied
    ensures ReadersKept(R.Ask(j.readers, e.what.space))
  {
    TakersWait(j, e);
    StreamsKept(j.readers, R.AskFor(e.what.space));
    AskKeepsWatchers(j.readers, e.what.space);
    forall id: nat | id < |j.readers.members|
      ensures OneAtATime(R.Ask(j.readers, e.what.space).members[id].stream)
    {
      AskKeepsOneAtATime(j, e, id);
    }
  }

  lemma AskedOwes(j: Joint, e: Event, id: nat, x: int)
    requires ReadersKept(j.readers) && Orderly(j, e) && e.what.Report? && e.what.occupied
    ensures var r, space := j.readers, e.what.space;
            Owes(R.Ask(r, space), id, x) <==> if x == space then R.Takes(r, id, space) else Owes(r, id, x)
  {
    var r, space := j.readers, e.what.space;
    if id < |r.members| {
      assert R.MemberSound(r, id) && OneAtATime(r.members[id].stream);
      if R.Takes(r, id, space) {
        assert Watches(r, id, space);
        AskedIsOneAtATime(r.members[id].stream, space);
      } else if x == space && Watches(r, id, x) {
        assert r.members[id].stream.status == P.Waiting;
      }
    }
  }

  lemma ReportKeepsAwaited(j: Joint, e: Event, x: int)
    requires Kept(j) && Orderly(j, e) && e.what.Report? && e.what.occupied
    ensures x in Step(j, e).world.pending <==> exists id: nat :: Owes(Step(j, e).readers, id, x)
  {
    var space, takers := e.what.space, Takers(j.readers, e.what.space);
    V.PendingAfterReport(j.world, space, true, |takers|, e.now, x);
    forall id: nat ensures Owes(Step(j, e).readers, id, x) <==>
                           if x == space then R.Takes(j.readers, id, space) else Owes(j.readers, id, x)
    {
      AskedOwes(j, e, id, x);
    }
    assert forall id: nat :: R.Takes(j.readers, id, space) <==> id in takers;
    if x == space && takers != {} {
      var id := Element(takers);
      assert Owes(Step(j, e).readers, id, x);
    }
  }

  // ---------- completions ----------

  /** The owner of the completion, before and after. */
  ghost predicate OwnerMoves(r: R.Readers, r': R.Readers, id: nat, read: bool, message: P.Result)
    requires id < |r.members| <= |r'.members|
  {
    var s, s' := r.members[id].stream, r'.members[id].stream;
    && OneAtATime(s') && s'.count > 0
    && s'.status == (if read then P.Waiting else P.Reading)
    && s'.spaceId == (if read && s.spaceId < 0 then message.space else s.spaceId)
  }

  lemma OwnerCompletes(r: R.Readers, id: nat, op: Operation, message: P.Result)
    requires ReadersKept(r) && R.Legal(r, R.Done(id, op, message)) && (op == Read ==> Expected(r, id, message))
    ensures OwnerMoves(r, R.Complete(r, id, op, message), id, op == Read, message)
    ensures op == Read <==> r.members[id].stream.count > 0 && r.members[id].stream.status == P.Reading
    ensures op == Read && r.members[id].stream.spaceId >= 0 ==>
              CallsIn(r, id, op, message) == [P.ReceivePlate(r.members[id].stream.spaceId, message.plate)]
    ensures op != Read || r.members[id].stream.spaceId < 0 ==>
              forall c :: c in CallsIn(r, id, op, message) ==> !c.ReceivePlate?
  {
    var s := r.members[id].stream;
    assert R.MemberSound(r, id) && OneAtATime(s) && R.Calm(s);
    if s.count > 0 && s.status == P.Reading {
      ReadCompletes(s, op, message);
    } else {
      assert s.wire.inFlight == P.InFlightFor(s);
      WriteCompletes(s, op, message);
    }
  }

  lemma OthersStay(r: R.Readers, id: nat, op: Operation, message: P.Result, other: nat)
    requires id < |r.members| && other != id && other < |R.Complete(r, id, op, message).members|
    ensures var r' := R.Complete(r, id, op, message);
            r'.members[other].stream == if other < |r.members| then r.members[other].stream else P.Opened()
  {
  }

  /** Does the completion register its reader? */
  predicate Registers(r: R.Readers, id: nat, op: Operation)
    requires id < |r.members|
  {
    op == Read && r.members[id].stream.spaceId < 0
  }

  lemma WatchesAfter(r: R.Readers, id: nat, op: Operation, message: P.Result, other: nat, x: int)
    requires ReadersKept(r) && R.Legal(r, R.Done(id, op, message)) && (op == Read ==> Expected(r, id, message))
    ensures Watches(R.Complete(r, id, op, message), other, x) <==>
            if other == id && Registers(r, id, op) then 0 <= x == message.space else Watches(r, other, x)
  {
    OwnerCompletes(r, id, op, message);
    if other != id && other < |R.Complete(r, id, op, message).members| {
      OthersStay(r, id, op, message, other);
    }
  }

  lemma OneWatcherAfter(r: R.Readers, id: nat, op: Operation, message: P.Result)
    requires ReadersKept(r) && R.Legal(r, R.Done(id, op, message)) && (op == Read ==> Expected(r, id, message))
    ensures OneWatcher(R.Complete(r, id, op, message))
  {
    var r' := R.Complete(r, id, op, message);
    forall a: nat, b: nat, x | Watches(r', a, x) && Watches(r', b, x) ensures a == b {
      WatchesAfter(r, id, op, message, a, x);
      WatchesAfter(r, id, op, message, b, x);
    }
  }

  lemma CompleteKeepsReaders(r: R.Readers, id: nat, op: Operation, message: P.Result)
    requires ReadersKept(r) && R.Legal(r, R.Done(id, op, message)) && (op == Read ==> Expected(r, id, message))
    ensures ReadersKept(R.Complete(r, id, op, message))
  {
    var r' := R.Complete(r, id, op, message);
    StreamsKept(r, R.Done(id, op, message));
    OwnerCompletes(r, id, op, message);
    OneWatcherAfter(r, id, op, message);
    forall other: nat | other < |r'.members| ensures OneAtATime(r'.members[other].stream) {
      if other != id {
        OthersStay(r, id, op, message, other);
        assert other < |r.members| ==> OneAtATime(r.members[other].stream);
      }
    }
  }

  /** Which readers owe a plate afterwards: the owner no longer does, if it had been read from. */
  lemma OwesAfter(r: R.Readers, id: nat, op: Operation, message: P.Result, other: nat, x: int)
    requires ReadersKept(r) && R.Legal(r, R.Done(id, op, message)) && (op == Read ==> Expected(r, id, message))
    ensures Owes(R.Complete(r, id, op, message), other, x) <==> Owes(r, other, x) && !(other == id && op == Read)
  {
    OwnerCompletes(r, id, op, message);
    WatchesAfter(r, id, op, message, other, x);
    if other == id {
      assert R.MemberSound(r, id) && OneAtATime(r.members[id].stream);
    } else if other < |R.Complete(r, id, op, message).members| {
      OthersStay(r, id, op, message, other);
    }
  }

  /** The answer that a completion brings to the server, if it brings one, is for the space the reader watches. */
  lemma AnswersOwed(j: Joint, id: nat, op: Operation, message: P.Result, now: int)
    requires Kept(j) && R.Legal(j.readers, R.Done(id, op, message))
    requires op == Read ==> Expected(j.readers, id, message)
    ensures var space := j.readers.members[id].stream.spaceId;
            if op == Read && space >= 0 then
              && Owes(j.readers, id, space) && space in j.world.pending
              && CallsIn(j.readers, id, op, message) == [P.ReceivePlate(space, message.plate)]
              && Answered(j.world, CallsIn(j.readers, id, op, message), now)
                 == PlateArrived(j.world, space, message.plate, now)
            else
              && (forall c :: c in CallsIn(j.readers, id, op, message) ==> !c.ReceivePlate?)
              && Answered(j.world, CallsIn(j.readers, id, op, message), now) == j.world
  {
    OwnerCompletes(j.readers, id, op, message);
    var space, calls := j.readers.members[id].stream.spaceId, CallsIn(j.readers, id, op, message);
    if op == Read && space >= 0 {
      assert Owes(j.readers, id, space);
      assert calls[..|calls| - 1] == [];
    } else {
      AnsweredNothing(j.world, calls, now);
    }
  }

  lemma CompleteKeepsAwaited(j: Joint, id: nat, op: Operation, message: P.Result, now: int, x: int)
    requires Kept(j) && R.Legal(j.readers, R.Done(id, op, message))
    requires op == Read ==> Expected(j.readers, id, message)
    ensures x in Answered(j.world, CallsIn(j.readers, id, op, message), now).pending <==>
            exists other: nat :: Owes(R.Complete(j.readers, id, op, message), other, x)
  {
    AnswersOwed(j, id, op, message, now);
    forall other: nat ensures Owes(R.Complete(j.readers, id, op, message), other, x) <==>
                              Owes(j.readers, other, x) && !(other == id && op == Read)
    {
      OwesAfter(j.readers, id, op, message, other, x);
    }
    var space := j.readers.members[id].stream.spaceId;
    if op == Read && space >= 0 {
      V.PendingAfterPlate(j.world, space, message.plate, now);
      if x == space {
        assert Owes(j.readers, id, x);
        assert forall other: nat :: Owes(j.readers, other, x) ==> Watches(j.readers, other, x);
      }
    } else if op == Read {
      assert !Owes(j.readers, id, x);
    }
  }

  // ---------- the joined runs ----------

  lemma LeavingKeeps(j: Joint, id: nat)
    requires Kept(j) && R.Legal(j.readers, R.ClientLeaves(id))
    ensures Kept(j.(readers := R.Step(j.readers, R.ClientLeaves(id))))
  {
    var r, r' := j.readers, R.Step(j.readers, R.ClientLeaves(id));
    StreamsKept(r, R.ClientLeaves(id));
    assert forall k :: 0 <= k < |r.members| ==> r'.members[k].stream == r.members[k].stream;
    forall k: nat, x
      ensures Watches(r', k, x) <==> Watches(r, k, x)
      ensures Owes(r', k, x) <==> Owes(r, k, x)
    {
    }
  }

  lemma StepKeeps(j: Joint, e: Event)
    requires Kept(j) && Legal(j, e) && Orderly(j, e)
    ensures Kept(Step(j, e))
  {
    var j' := Step(j, e);
    match e.what
    case Report(space, occupied) =>
      if occupied {
        AskKeepsReaders(j, e);
        forall x ensures x in j'.world.pending <==> exists id: nat :: Owes(j'.readers, id, x) {
          ReportKeepsAwaited(j, e, x);
        }
      } else {
        forall x ensures x in j'.world.pending <==> x in j.world.pending {
          V.PendingAfterReport(j.world, space, false, |Takers(j.readers, space)|, e.now, x);
        }
      }
    case Completed(id, op, message) =>
      CompleteKeepsReaders(j.readers, id, op, message);
      forall x ensures x in j'.world.pending <==> exists other: nat :: Owes(j'.readers, other, x) {
        CompleteKeepsAwaited(j, id, op, message, e.now, x);
      }
    case ReaderLeaves(id) => LeavingKeeps(j, id);
    case _ =>
  }

  lemma StartIsKept(table: Table)
    ensures Kept(Start(table))
  {
    R.EveryRunIsSound([]);
    R.PatientRunsAreDisciplined([]);
    assert R.Run([]) == R.Start();
  }

  lemma {:induction false} OrderlyRunsAreKept(table: Table, es: seq<Event>)
    requires LegalRun(table, es) && OrderlyRun(table, es)
    ensures Kept(Run(table, es))
  {
    if es == [] {
      StartIsKept(table);
    } else {
      OrderlyRunsAreKept(table, es[..|es| - 1]);
      StepKeeps(Run(table, es[..|es| - 1]), es[|es| - 1]);
    }
  }

  /** What the readers see of a run. */
  function ReaderEvents(es: seq<Event>): seq<R.Event> {
    if es == [] then []
    else
      var earlier, last := ReaderEvents(es[..|es| - 1]), ForReaders(es[|es| - 1]);
      if last.Some? then earlier + [last.value] else earlier
  }

  lemma ReadersStep(j: Joint, e: Event)
    requires Legal(j, e)
    ensures Step(j, e).readers == if ForReaders(e).Some? then R.Step(j.readers, ForReaders(e).value) else j.readers
  {
  }

  lemma {:induction false} ReadersRun(table: Table, es: seq<Event>)
    requires LegalRun(table, es)
    ensures R.LegalRun(ReaderEvents(es)) && R.Run(ReaderEvents(es)) == Run(table, es).readers
  {
    if es != [] {
      var init, last := es[..|es| - 1], es[|es| - 1];
      ReadersRun(table, init);
      ReadersStep(Run(table, init), last);
      if ForReaders(last).Some? {
        assert (ReaderEvents(init) + [ForReaders(last).value])[..|ReaderEvents(init)|] == ReaderEvents(init);
      }
    }
  }

  /** The results a tick passes to the server, as events of the server. */
  function Answers(calls: seq<P.Call>, now: int): seq<S.Event> {
    if calls == [] then []
    else
      var earlier, last := Answers(calls[..|calls| - 1], now), calls[|calls| - 1];
      if last.ReceivePlate? then earlier + [S.At(now, S.Plate(last.space, last.plate))] else earlier
  }

  /** What the server sees of an event. */
  function ForServer(r: R.Readers, e: Event): seq<S.Event> {
    match e.what
    case Report(space, occupied) => [S.At(e.now, S.Sensor(space, occupied, |Takers(r, space)|))]
    case Completed(id, op, message) =>
      if id < |r.members| then Answers(CallsIn(r, id, op, message), e.now) else []
    case ReaderLeaves(_) => []
    case Reserve(space, plate) => [S.At(e.now, S.Reserve(space, plate))]
    case CancelFor(plate) => [S.At(e.now, S.CancelFor(plate))]
    case Expire(space) => [S.At(e.now, S.Expire(space))]
  }

  ghost function ServerEvents(table: Table, es: seq<Event>): seq<S.Event> {
    if es == [] then []
    else
      ServerEvents(table, es[..|es| - 1]) + ForServer(Run(table, es[..|es| - 1]).readers, es[|es| - 1])
  }

  lemma {:induction false} AnswersAreRun(w: World, calls: seq<P.Call>, now: int)
    ensures Answered(w, calls, now) == S.Exec(w, Answers(calls, now))
  {
    if calls != [] {
      var init, last := calls[..|calls| - 1], calls[|calls| - 1];
      AnswersAreRun(w, init, now);
      if last.ReceivePlate? {
        V.ExecOneMore(w, Answers(init, now), S.At(now, S.Plate(last.space, last.plate)));
      }
    }
  }

  lemma OneEvent(w: World, e: S.Event)
    ensures S.Exec(w, [e]) == S.Step(w, e)
  {
    assert [e][..0] == [];
  }

  lemma StepIsRun(j: Joint, e: Event)
    ensures Step(j, e).world == S.Exec(j.world, ForServer(j.readers, e))
  {
    if e.what.Completed? {
      if e.what.id < |j.readers.members| {
        AnswersAreRun(j.world, CallsIn(j.readers, e.what.id, e.what.op, e.what.message), e.now);
      }
    } else if ForServer(j.readers, e) != [] {
      OneEvent(j.world, ForServer(j.readers, e)[0]);
    }
  }

  /** A joined run is a run of the server and a run of the readers: everything that holds of those holds in it. */
  lemma {:induction false} JoinedRunIsBoth(table: Table, es: seq<Event>)
    requires LegalRun(table, es)
    ensures Run(table, es).world == S.Exec(Start(table).world, ServerEvents(table, es))
    ensures R.LegalRun(ReaderEvents(es)) && Run(table, es).readers == R.Run(ReaderEvents(es))
  {
    ReadersRun(table, es);
    if es != [] {
      var init, e := es[..|es| - 1], es[|es| - 1];
      JoinedRunIsBoth(table, init);
      StepIsRun(Run(table, init), e);
      V.ExecConcat(Start(table).world, ServerEvents(table, init), ForServer(Run(table, init).readers, e));
    }
  }

  /**
   In every run in which a space is reported occupied only when the reader that watches it has nothing to answer, in
   which readers watch different spaces, and in which clients register first and then answer for their own space, the
   server awaits the plate of a space exactly while the reader that watches it owes it. And every reader keeps the
   design rule. But a reader can be asked only if no report since it connected was about another space.
   */
  lemma {:induction false} OrderlyRunsKeep(table: Table, es: seq<Event>)
    requires LegalRun(table, es) && OrderlyRun(table, es)
    ensures Kept(Run(table, es))
    ensures forall id :: id in Run(table, es).readers.registered <==> R.NeverDropped(R.History(ReaderEvents(es)), id)
  {
    OrderlyRunsAreKept(table, es);
    ReadersRun(table, es);
    forall id: nat
      ensures id in Run(table, es).readers.registered <==> R.NeverDropped(R.History(ReaderEvents(es)), id)
    {
      R.RegisteredIff(ReaderEvents(es), id);
    }
  }

  /**
   So in such a run every answer that reaches the server finds its space awaited, and no longer awaited after it; and
   what the server takes is the plate the client sent, for the space the reader watches.
   */
  lemma {:induction false} EveryAnswerIsAwaited(table: Table, es: seq<Event>, e: Event)
    requires LegalRun(table, es) && OrderlyRun(table, es) && e.what.Completed?
    requires Legal(Run(table, es), e) && Orderly(Run(table, es), e)
    ensures var j := Run(table, es);
            forall c :: c in CallsIn(j.readers, e.what.id, e.what.op, e.what.message) && c.ReceivePlate? ==>
              && c.space in j.world.pending && Owes(j.readers, e.what.id, c.space)
              && Step(j, e).world.pending == j.world.pending - {c.space}
              && c.space == e.what.message.space && c.plate == e.what.message.plate
              && Step(j, e).world == PlateArrived(j.world, e.what.message.space, e.what.message.plate, e.now)
  {
    OrderlyRunsAreKept(table, es);
    var j := Run(table, es);
    AnswersOwed(j, e.what.id, e.what.op, e.what.message, e.now);
    var space := j.readers.members[e.what.id].stream.spaceId;
    if e.what.op == Read && space >= 0 {
      V.PendingAfterPlate(j.world, space, e.what.message.plate, e.now);
    }
  }

  // ---------- a report drops the readers of every other space ----------

  /** Exactly who gets the request of a report. */
  lemma {:induction false} AskedIff(table: Table, es: seq<Event>, id: nat, space: int)
    requires LegalRun(table, es)
    ensures var r := Run(table, es).readers;
            R.Takes(r, id, space) <==> R.Wants(r, id, space) && R.NeverDropped(R.History(ReaderEvents(es)), id)
  {
    ReadersRun(table, es);
    R.RegisteredIff(ReaderEvents(es), id);
  }

  lemma DroppedByReport(j: Joint, a: int, b: int, now: int)
    requires a != b
    ensures Takers(Step(j, At(now, Report(a, true))).readers, b) == {}
  {
    var r := Step(j, At(now, Report(a, true))).readers;
    forall id ensures id !in Takers(r, b) {
      assert id in r.registered ==> R.Takes(j.readers, id, a);
    }
  }

  /** A report that a reader takes brings no empty plate into the table. */
  lemma NoEmptyPlateAfter(w: World, a: int, readers: nat, now: int)
    requires Unique(w.table) && readers > 0 && forall r :: r in w.table ==> w.table[r].plate != Some("")
    ensures var t := SpaceSensed(w, a, true, readers, now).table;
            Unique(t) && forall r :: r in t ==> t[r].plate != Some("")
  {
    S.StepFate(w, S.At(now, S.Sensor(a, true, readers)), a);
    S.SensorStep(w, a, true, readers, now);
  }

  /**
   When a reader takes the request of a report about `a`, every reader of another space is dropped. So if `b` becomes
   occupied next nobody is asked, whoever watches it: its plate is taken as the empty one, which is stored if it fits,
   and the space is not awaited.
   */
  lemma OthersAreNotAsked(j: Joint, a: int, b: int, now: int)
    requires Unique(j.world.table) && a != b && Takers(j.readers, a) != {}
    ensures var j1 := Step(j, At(now, Report(a, true)));
            var j2 := Step(j1, At(now, Report(b, true)));
            && Takers(j1.readers, b) == {} && b !in j2.world.pending
            && S.PlateOf(j2.world.table, b) == (if S.PlateFits(j1.world.table, b, "") then Some("") else None)
            && ((forall r :: r in j.world.table ==> j.world.table[r].plate != Some("")) ==>
                  S.PlateOf(j2.world.table, b) == Some(""))
  {
    var n := |Takers(j.readers, a)|;
    var j1 := Step(j, At(now, Report(a, true)));
    DroppedByReport(j, a, b, now);
    S.StepFate(j.world, S.At(now, S.Sensor(a, true, n)), a);
    S.SensedPlate(j1.world, b, true, 0, now);
    V.PendingAfterReport(j1.world, b, true, 0, now, b);
    if forall r :: r in j.world.table ==> j.world.table[r].plate != Some("") {
      NoEmptyPlateAfter(j.world, a, n, now);
    }
  }

  // ---------- the condition is needed ----------

  function Answer(now: int, id: nat, space: int, plate: string): Event {
    At(now, Completed(id, Read, P.Result(false, space, plate)))
  }

  /** It reads, and owes two answers. */
  predicate OwesTwo(s: P.Reader) {
    && s.status == P.Reading && s.readQueue == 2 && s.count > 0 && !s.finish && !s.wire.deleted
    && Read in s.wire.inFlight
  }

  lemma ReadsTwice(s: P.Reader, first: P.Result, second: P.Result)
    requires OwesTwo(s) && !first.registration && !second.registration
    ensures var s' := Settled(s, Read, first);
            && P.Legal(s, P.Done(Read, first)) && P.Legal(s', P.Done(Read, second))
            && P.CallsOf(P.Popped(s, Read, first)) == [P.ReceivePlate(first.space, first.plate)]
            && P.CallsOf(P.Popped(s', Read, second)) == [P.ReceivePlate(second.space, second.plate)]
            && s'.count > 0
  {
    var s' := Settled(s, Read, first);
    assert s'.status == P.Reading && s'.readQueue == 1 && Read in s'.wire.inFlight;
  }

  lemma AskedWhileReading(s: P.Reader, space: int)
    requires R.StreamSound(s) && R.Calm(s) && OneAtATime(s) && s.count > 0 && s.status == P.Reading
    ensures OwesTwo(R.Asked(s, space))
  {
    assert s.wire.inFlight == multiset{Read};
  }

  /** As the code is written, the completion of the write lets it read while the second request is written. */
  lemma AskedWhileWriting(s: P.Reader, space: int)
    requires R.StreamSound(s) && R.Calm(s) && OneAtATime(s) && s.count > 0 && s.status == P.Writing
    ensures var asked := R.Asked(s, space);
            && P.Legal(asked, P.Done(Write, P.BLANK)) && OwesTwo(Settled(asked, Write, P.BLANK))
            && P.CallsOf(P.Popped(asked, Write, P.BLANK)) == []
  {
    var asked := R.Asked(s, space);
    assert s.wire.inFlight == multiset{Write};
    assert asked.status == P.Writing && asked.readQueue == 2 && |asked.queue| == 1;
    P.LateWrite(asked);
  }

  lemma AnsweredOnce(w: World, space: int, plate: string, now: int)
    ensures Answered(w, [P.ReceivePlate(space, plate)], now) == PlateReceived(w, space, plate, now)
  {
    assert [P.ReceivePlate(space, plate)][..0] == [];
  }

  lemma AnswersTwice(j: Joint, id: nat, space: int, a: string, b: string, now: int)
    requires id < |j.readers.members| && OwesTwo(j.readers.members[id].stream)
    ensures var first, second := Answer(now, id, space, a), Answer(now, id, space, b);
            var j' := Step(j, first);
            && Legal(j, first) && Legal(j', second)
            && CallsIn(j'.readers, id, Read, second.what.message) == [P.ReceivePlate(space, b)]
            && space !in j'.world.pending
  {
    var s, first, second := j.readers.members[id].stream, P.Result(false, space, a), P.Result(false, space, b);
    ReadsTwice(s, first, second);
    AnsweredOnce(j.world, space, a, now);
    var r' := R.Complete(j.readers, id, Read, first);
    assert r'.members[id].stream == Settled(s, Read, first);
  }

  lemma AskedIsAsked(j: Joint, id: nat, space: int, now: int)
    requires Kept(j) && R.Takes(j.readers, id, space)
    ensures var s, j' := j.readers.members[id].stream, Step(j, At(now, Report(space, true)));
            && R.StreamSound(s) && R.Calm(s) && OneAtATime(s) && s.count > 0
            && id < |j'.readers.members| && j'.readers.members[id].stream == R.Asked(s, space)
  {
    assert R.MemberSound(j.readers, id) && OneAtATime(j.readers.members[id].stream);
  }

  /**
   If a space is reported occupied again while its reader still reads the answer to the report before, the first answer
   settles both requests, and the second one finds the space no longer awaited.
   */
  lemma SecondAnswerIsNotAwaited(j: Joint, id: nat, space: int, a: string, b: string, now: int)
    requires Kept(j) && R.Takes(j.readers, id, space) && j.readers.members[id].stream.status == P.Reading
    ensures var report := At(now, Report(space, true));
            var first, second := Answer(now, id, space, a), Answer(now, id, space, b);
            var j1 := Step(j, report);
            var j2 := Step(j1, first);
            && Legal(j, report) && Legal(j1, first) && Legal(j2, second)
            && CallsIn(j2.readers, id, Read, second.what.message) == [P.ReceivePlate(space, b)]
            && space !in j2.world.pending
  {
    AskedIsAsked(j, id, space, now);
    AskedWhileReading(j.readers.members[id].stream, space);
    AnswersTwice(Step(j, At(now, Report(space, true))), id, space, a, b, now);
  }

  /** And so if it is reported again while its reader still writes the request of the report before. */
  lemma SecondAnswerToWriting(j: Joint, id: nat, space: int, a: string, b: string, now: int)
    requires Kept(j) && R.Takes(j.readers, id, space) && j.readers.members[id].stream.status == P.Writing
    ensures var report, written := At(now, Report(space, true)), At(now, Completed(id, Write, P.BLANK));
            var first, second := Answer(now, id, space, a), Answer(now, id, space, b);
            var j1 := Step(j, report);
            var j2 := Step(j1, written);
            var j3 := Step(j2, first);
            && Legal(j, report) && Legal(j1, written) && Legal(j2, first) && Legal(j3, second)
            && CallsIn(j3.readers, id, Read, second.what.message) == [P.ReceivePlate(space, b)]
            && space !in j3.world.pending
  {
    AskedIsAsked(j, id, space, now);
    AskedWhileWriting(j.readers.members[id].stream, space);
    var j1 := Step(j, At(now, Report(space, true)));
    var j2 := Step(j1, At(now, Completed(id, Write, P.BLANK)));
    assert j2.readers.members[id].stream == Settled(j1.readers.members[id].stream, Write, P.BLANK);
    AnswersTwice(j2, id, space, a, b, now);
  }

  lemma RunOneMore(table: Table, es: seq<Event>, e: Event)
    ensures Run(table, es + [e]) == Step(Run(table, es), e)
    ensures LegalRun(table, es + [e]) <==> LegalRun(table, es) && Legal(Run(table, es), e)
    ensures OrderlyRun(table, es + [e]) <==> OrderlyRun(table, es) && Orderly(Run(table, es), e)
  {
    assert (es + [e])[..|es|] == es;
  }

  /** One reader more, and nothing else has changed. */
  ghost predicate JoinedBy(r: R.Readers, r': R.Readers, id: nat, space: int) {
    && |r'.members| == |r.members| + 1 && r'.registered == r.registered + {id}
    && (forall k :: 0 <= k < |r.members| && k != id ==> r'.members[k] == r.members[k])
    && (forall x :: x != space && Unwatched(r, x) ==> Unwatched(r', x))
  }

  /** The reader that waits for a client connects, and its client registers it for a space. */
  lemma Joins(r: R.Readers, space: int) returns (r1: R.Readers, r2: R.Readers, id: nat)
    requires ReadersKept(r) && 0 <= space && Unwatched(r, space)
    ensures id == |r.members| - 1
    ensures R.Legal(r, R.Done(id, Accept, P.BLANK)) && r1 == R.Complete(r, id, Accept, P.BLANK)
    ensures forall c :: c in CallsIn(r, id, Accept, P.BLANK) ==> !c.ReceivePlate?
    ensures var message := P.Result(true, space, "");
            && R.Legal(r1, R.Done(id, Read, message)) && Expected(r1, id, message)
            && r2 == R.Complete(r1, id, Read, message)
            && forall c :: c in CallsIn(r1, id, Read, message) ==> !c.ReceivePlate?
    ensures R.Takes(r2, id, space) && JoinedBy(r, r2, id, space)
    ensures r2.members[id].stream.status == P.Waiting && r2.members[id].stream.count > 0
  {
    id := |r.members| - 1;
    assert R.MemberSound(r, id);
    r1 := R.Complete(r, id, Accept, P.BLANK);
    OwnerCompletes(r, id, Accept, P.BLANK);
    R.CompletionIsSound(r.members[id].stream, Accept, P.BLANK);
    CompleteKeepsReaders(r, id, Accept, P.BLANK);
    var message := P.Result(true, space, "");
    assert r1.members[id].stream.wire.inFlight == multiset{Read} by {
      assert R.Calm(r1.members[id].stream);
    }
    assert OneAtATime(r.members[id].stream);
    forall other: nat ensures !Watches(r1, other, space) {
      WatchesAfter(r, id, Accept, P.BLANK, other, space);
    }
    r2 := R.Complete(r1, id, Read, message);
    OwnerCompletes(r1, id, Read, message);
    forall x, other: nat | x != space && Unwatched(r, x) ensures !Watches(r2, other, x) {
      WatchesAfter(r, id, Accept, P.BLANK, other, x);
      WatchesAfter(r1, id, Read, message, other, x);
    }
  }

  lemma ReaderJoins(table: Table, es: seq<Event>, space: int) returns (more: seq<Event>, id: nat)
    requires LegalRun(table, es) && OrderlyRun(table, es)
    requires 0 <= space && Unwatched(Run(table, es).readers, space)
    ensures LegalRun(table, more) && OrderlyRun(table, more) && Run(table, more).world == Run(table, es).world
    ensures var r, r' := Run(table, es).readers, Run(table, more).readers;
            && id == |r.members| - 1 && R.Takes(r', id, space) && JoinedBy(r, r', id, space)
            && r'.members[id].stream.status == P.Waiting && r'.members[id].stream.count > 0
  {
    var j := Run(table, es);
    OrderlyRunsAreKept(table, es);
    var r1, r2, last := Joins(j.readers, space);
    id := last;
    var connects := At(0, Completed(id, Accept, P.BLANK));
    var registers := At(0, Completed(id, Read, P.Result(true, space, "")));
    AnsweredNothing(j.world, CallsIn(j.readers, id, Accept, P.BLANK), 0);
    AnsweredNothing(j.world, CallsIn(r1, id, Read, P.Result(true, space, "")), 0);
    RunOneMore(table, es, connects);
    RunOneMore(table, es + [connects], registers);
    more := es + [connects] + [registers];
  }

  lemma AskedAndReading(table: Table) returns (es: seq<Event>)
    ensures LegalRun(table, es) && OrderlyRun(table, es)
    ensures var r := Run(table, es).readers; R.Takes(r, 0, 1) && r.members[0].stream.status == P.Reading
  {
    var registered, first := ReaderJoins(table, [], 1);
    var j0 := Run(table, registered);
    var asked, written := At(0, Report(1, true)), At(0, Completed(0, Write, P.BLANK));
    OrderlyRunsAreKept(table, registered);
    assert R.MemberSound(j0.readers, 0);
    assert Orderly(j0, asked) by {
      assert Watches(j0.readers, 0, 1);
    }
    RunOneMore(table, registered, asked);
    RunOneMore(table, registered + [asked], written);
    var j1 := Step(j0, asked);
    StepKeeps(j0, asked);
    AskedIsOneAtATime(j0.readers.members[0].stream, 1);
    var s := j1.readers.members[0].stream;
    assert R.Calm(s);
    assert s.status == P.Writing && s.wire.inFlight == multiset{Write};
    OwnerCompletes(j1.readers, 0, Write, P.BLANK);
    es := registered + [asked] + [written];
  }

  /** Such a run, from the start: reader 0 registers for space 1 and is asked, and asked again while it reads. */
  lemma AnswerIsLost(table: Table) returns (es: seq<Event>, e: Event)
    ensures LegalRun(table, es) && Legal(Run(table, es), e)
    ensures var j := Run(table, es);
            e.what.Completed? && e.what.id == 0 && 1 !in j.world.pending
            && CallsIn(j.readers, 0, Read, e.what.message) == [P.ReceivePlate(1, "B")]
  {
    var before := AskedAndReading(table);
    var asked, first := At(0, Report(1, true)), Answer(0, 0, 1, "A");
    OrderlyRunsAreKept(table, before);
    SecondAnswerIsNotAwaited(Run(table, before), 0, 1, "A", "B", 0);
    RunOneMore(table, before, asked);
    RunOneMore(table, before + [asked], first);
    es, e := before + [asked] + [first], Answer(0, 0, 1, "B");
  }

  lemma TwoReaders(table: Table) returns (es: seq<Event>)
    ensures LegalRun(table, es) && OrderlyRun(table, es) && Run(table, es).world == Start(table).world
    ensures var r := Run(table, es).readers;
            && |r.members| == 3 && R.Takes(r, 0, 1) && R.Takes(r, 1, 2)
            && r.members[0].stream.status == P.Waiting && r.members[1].stream.status == P.Waiting
  {
    assert Unwatched(Start(table).readers, 1) && Unwatched(Start(table).readers, 2);
    var one, first := ReaderJoins(table, [], 1);
    var two, second := ReaderJoins(table, one, 2);
    es := two;
  }

  /** Two readers, each registered for its space, and a report about each: the second one is asked of nobody. */
  lemma ReaderIsDropped() returns (es: seq<Event>, e: Event)
    ensures LegalRun(map[], es) && OrderlyRun(map[], es) && e == At(0, Report(2, true))
    ensures var j := Run(map[], es);
            && Legal(j, e) && Orderly(j, e) && R.Wants(j.readers, 1, 2)
            && j.readers.members[1].stream.status == P.Waiting
            && Takers(j.readers, 2) == {} && 2 !in Step(j, e).world.pending
            && S.PlateOf(Step(j, e).world.table, 2) == Some("")
  {
    var before := TwoReaders(map[]);
    var report := At(0, Report(1, true));
    var j := Run(map[], before);
    es, e := before + [report], At(0, Report(2, true));
    OrderlyRunsAreKept(map[], before);
    RunOneMore(map[], before, report);
    assert Watches(j.readers, 0, 1) && 0 in Takers(j.readers, 1);
    StepKeeps(j, report);
    OthersAreNotAsked(j, 1, 2, 0);
    assert Watches(Step(j, report).readers, 1, 2);
  }
}
