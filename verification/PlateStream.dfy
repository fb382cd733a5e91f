/**
 The plate-reader stream (BiDirectionalCallData and PlateReader in server/parkingnotifications.cpp). The server writes
 plate requests to it and reads results from it, and must not do both at once. A method body is one atomic step.
 */
module PlateStream {
  import opened Basics

  /** B_CREATE, B_WAITING, B_READ, B_WRITE and B_FINISHED. */
  datatype Status = Create | Waiting | Reading | Writing | Finished

  datatype Request = Request(space: int)

  datatype Result = Result(registration: bool, space: int, plate: string)

  /** A protobuf message nothing was parsed into yet. */
  const BLANK := Result(false, 0, "")

  /**
   `clearQueue` is documented to return whether the queue was already empty when it was called. As written it returns
   whether the queue is empty when it returns, which differs when it sends the last queued message.
   */
  datatype Contract = AsWritten | AsDocumented

  /**
   The reader's dealings with the outside: operations in flight, requests `write` was given, requests passed to the
   responder, calls of `Finish`, results the client's reads brought in, results passed to the handler, calls of
   `readMessage`, and whether the object deleted itself.
   */
  datatype Wire = Wire(
    inFlight: multiset<Operation>,
    accepted: seq<Request>,
    handed: seq<Request>,
    finishes: nat,
    delivered: seq<Result>,
    handled: seq<Result>,
    owed: nat,
    deleted: bool)
  {
    function Starting(op: Operation): Wire { this.(inFlight := inFlight + multiset{op}) }
    function Sending(m: Request): Wire { Starting(Write).(handed := handed + [m]) }
    function Finishing(): Wire { Starting(Finish).(finishes := finishes + 1) }
    function Taking(m: Request): Wire { this.(accepted := accepted + [m]) }
    function Owing(): Wire { this.(owed := owed + 1) }
    function Handling(r: Result): Wire { this.(handled := handled + [r]) }
    function Answered(op: Operation): Wire { this.(inFlight := inFlight - multiset{op}) }
    function Deleting(): Wire { this.(deleted := true) }
  }

  datatype Reader = Reader(
    status: Status,
    writeReady: bool,
    finish: bool,
    readQueue: int,
    queue: seq<Request>,
    count: nat,
    request: Result,
    spaceId: int,
    wire: Wire)

  function Owed(s: Reader): Reader {
    var s' := s.(readQueue := s.readQueue + 1, wire := s.wire.Owing());
    if s.status != Waiting then s'
    else if s.readQueue == 0 then s'.(status := Reading, wire := s'.wire.Starting(Read))
    else s'.(status := Reading)
  }

  function Written(s: Reader, m: Request): Reader {
    if s.status == Waiting && s.writeReady then
      s.(status := Writing, writeReady := false, wire := s.wire.Taking(m).Sending(m))
    else
      s.(status := if s.status == Waiting then Writing else s.status, queue := s.queue + [m], wire := s.wire.Taking(m))
  }

  function Ended(s: Reader): Reader {
    if s.readQueue == 0 && s.queue == [] && s.status != Finished then
      s.(status := Finished, wire := s.wire.Finishing())
    else
      s.(finish := true)
  }

  function QueueCleared(s: Reader): Reader {
    if s.queue == [] then s.(writeReady := true)
    else s.(queue := s.queue[1..], wire := s.wire.Sending(s.queue[0]))
  }

  /** What `clearQueue` returns. */
  predicate SaysEmpty(s: Reader, c: Contract) {
    if c == AsDocumented then s.queue == [] else |s.queue| <= 1
  }

  /** The first tick of a connected reader: its successor is started, a read is owed, and it is registered. */
  function Connected(s: Reader): Reader {
    if s.count == 0 then Owed(s.(count := 1)) else s
  }

  function Handled(s: Reader): Reader {
    s.(spaceId := if s.request.registration then s.request.space else s.spaceId, wire := s.wire.Handling(s.request))
  }

  /** Where a reader goes that has nothing to read and nothing to write. */
  function Idled(s: Reader): Reader {
    if s.finish then s.(status := Finished, wire := s.wire.Finishing()) else s.(status := Waiting)
  }

  function ReadTicked(s: Reader): Reader {
    var h := Handled(s);
    var s' := h.(readQueue := h.readQueue - 1);
    if s'.readQueue != 0 then s'.(wire := s'.wire.Starting(Read))
    else if s'.queue != [] then QueueCleared(s'.(status := Writing))
    else Idled(s')
  }

  function WriteTicked(s: Reader, c: Contract): Reader {
    var s' := QueueCleared(s);
    if !SaysEmpty(s, c) then s'
    else if s'.readQueue > 0 then s'.(writeReady := true, status := Reading, wire := s'.wire.Starting(Read))
    else Idled(s'.(writeReady := true))
  }

  function Proceeded(s: Reader, c: Contract): Reader {
    match s.status
    case Create => s.(status := Waiting, wire := s.wire.Starting(Accept))
    case Waiting => Connected(s)
    case Reading => ReadTicked(Connected(s))
    case Writing => WriteTicked(Connected(s), c)
    case Finished => s.(wire := s.wire.Deleting())
  }

  function Opened(): Reader {
    var wire := Wire(multiset{}, [], [], 0, [], [], 0, false);
    Proceeded(Reader(Create, true, false, 0, [], 0, BLANK, -1, wire), AsWritten)
  }

  /** The completion queue hands back an operation; a read brings the client's message into the request buffer. */
  function Popped(s: Reader, op: Operation, message: Result): Reader {
    var w := s.wire.Answered(op);
    if op == Read then s.(request := message, wire := w.(delivered := w.delivered + [message])) else s.(wire := w)
  }

  // ---------- runs ----------

  datatype Event = Send(request: Request) | Owe | End | Done(op: Operation, message: Result)

  function Step(s: Reader, e: Event, c: Contract): Reader {
    match e
    case Send(m) => Written(s, m)
    case Owe => Owed(s)
    case End => Ended(s)
    case Done(op, message) => Proceeded(Popped(s, op, message), c)
  }

  /** The server reaches a reader through the registry, which a reader enters when it connects. */
  predicate Legal(s: Reader, e: Event) {
    !s.wire.deleted && if e.Done? then e.op in s.wire.inFlight else s.count > 0
  }

  function Run(s: Reader, es: seq<Event>, c: Contract): Reader {
    if es == [] then s else Step(Run(s, es[..|es| - 1], c), es[|es| - 1], c)
  }

  /** Every prefix of a legal run is a legal run, so what holds after every legal run holds at every moment. */
  predicate LegalRun(s: Reader, es: seq<Event>, c: Contract) {
    es == [] || (LegalRun(s, es[..|es| - 1], c) && Legal(Run(s, es[..|es| - 1], c), es[|es| - 1]))
  }

  /** What the fields promise whatever completions arrive, in whatever order. */
  ghost predicate Consistent(s: Reader) {
    && s.wire.accepted == s.wire.handed + s.queue
    && s.readQueue >= 0 && |s.wire.handled| + s.readQueue == s.wire.owed
    && s.wire.finishes == (if s.status == Finished then 1 else 0)
    && s.status != Create
    && (s.status == Waiting ==> s.queue == [] && s.readQueue == 0 && s.writeReady && !s.finish)
    && (s.status == Reading ==> s.readQueue >= 1 && s.writeReady)
    && (s.count == 0 ==> s.status == Waiting && s.wire.owed == 0 && s.wire.accepted == [])
    && (s.wire.deleted ==> s.status == Finished)
  }

  function InFlightFor(s: Reader): multiset<Operation> {
    if s.wire.deleted then multiset{}
    else match s.status
      case Create => multiset{}
      case Waiting => if s.count == 0 then multiset{Accept} else multiset{}
      case Reading => multiset{Read}
      case Writing => multiset{Write}
      case Finished => multiset{Finish}
  }

  /** The design rule: one operation in flight at most, the status says which, and every result read is handled once. */
  ghost predicate Disciplined(s: Reader) {
    && s.wire.handled == s.wire.delivered
    && s.wire.inFlight == InFlightFor(s)
  }

  /** The steps that break the design rule. */
  predicate Hazard(s: Reader, e: Event, c: Contract) {
    && s.status == Writing
    && match e
       case Done(_, _) => c == AsWritten && |s.queue| == 1
       case End => s.queue == [] && s.readQueue == 0
       case _ => false
  }

  /** The space of the last registration among these results; -1 if there is none. */
  function SpaceNamed(handled: seq<Result>): int {
    if handled == [] then -1
    else if handled[|handled| - 1].registration then handled[|handled| - 1].space
    else SpaceNamed(handled[..|handled| - 1])
  }

  predicate NamesSpace(s: Reader) {
    s.spaceId == SpaceNamed(s.wire.handled)
  }

  lemma HandlingNamesSpace(s: Reader)
    requires NamesSpace(s)
    ensures NamesSpace(Handled(s))
  {
    assert (s.wire.handled + [s.request])[..|s.wire.handled|] == s.wire.handled;
  }

  lemma SameNames(s: Reader, s': Reader)
    requires NamesSpace(s) && s'.spaceId == s.spaceId && s'.wire.handled == s.wire.handled
    ensures NamesSpace(s')
  {
  }

  lemma ReadTickNames(s: Reader)
    ensures ReadTicked(s).spaceId == Handled(s).spaceId && ReadTicked(s).wire.handled == Handled(s).wire.handled
  {
  }

  lemma WriteTickNames(s: Reader, c: Contract)
    ensures WriteTicked(s, c).spaceId == s.spaceId && WriteTicked(s, c).wire.handled == s.wire.handled
  {
  }

  lemma TickNamesSpace(s: Reader, c: Contract)
    requires NamesSpace(s)
    ensures NamesSpace(Proceeded(s, c))
  {
    var connected := Connected(s);
    assert NamesSpace(connected);
    match s.status
    case Reading =>
      ReadTickNames(connected);
      HandlingNamesSpace(connected);
    case Writing =>
      WriteTickNames(connected, c);
    case _ =>
  }

  lemma StepNamesSpace(s: Reader, e: Event, c: Contract)
    requires NamesSpace(s)
    ensures NamesSpace(Step(s, e, c))
  {
    if e.Done? {
      SameNames(s, Popped(s, e.op, e.message));
      TickNamesSpace(Popped(s, e.op, e.message), c);
    } else {
      SameNames(s, Step(s, e, c));
    }
  }

  /** Over any run, a reader watches the space of the last registration it handled. */
  lemma {:induction false} WatchesLastRegistered(es: seq<Event>, c: Contract)
    ensures Run(Opened(), es, c).spaceId == SpaceNamed(Run(Opened(), es, c).wire.handled)
  {
    if es != [] {
      WatchesLastRegistered(es[..|es| - 1], c);
      StepNamesSpace(Run(Opened(), es[..|es| - 1], c), es[|es| - 1], c);
    }
  }

  lemma QueueClearedKeepsOrder(s: Reader)
    requires s.wire.accepted == s.wire.handed + s.queue
    ensures var s' := QueueCleared(s); s'.wire.accepted == s'.wire.handed + s'.queue
  {
  }

  /** What a step that calls `Finish` promises: nothing is left to send or to read. */
  ghost predicate FinishesDrained(s: Reader, s': Reader) {
    s'.wire.finishes > s.wire.finishes ==> s'.wire.handed == s'.wire.accepted && s'.readQueue == 0
  }

  lemma ReadTickIsConsistent(s: Reader)
    requires Consistent(s) && s.status == Reading
    ensures Consistent(ReadTicked(s)) && FinishesDrained(s, ReadTicked(s))
  {
    QueueClearedKeepsOrder(s);
  }

  lemma WriteTickIsConsistent(s: Reader, c: Contract)
    requires Consistent(s) && s.status == Writing
    ensures Consistent(WriteTicked(s, c)) && FinishesDrained(s, WriteTicked(s, c))
  {
    QueueClearedKeepsOrder(s);
  }

  lemma TickIsConsistent(s: Reader, c: Contract)
    requires Consistent(s) && !s.wire.deleted
    ensures Consistent(Proceeded(s, c)) && FinishesDrained(s, Proceeded(s, c))
  {
    match s.status
    case Reading => ReadTickIsConsistent(s);
    case Writing => WriteTickIsConsistent(s, c);
    case _ =>
  }

  lemma CallIsConsistent(s: Reader, e: Event, c: Contract)
    requires Consistent(s) && Legal(s, e) && !e.Done?
    ensures Consistent(Step(s, e, c)) && FinishesDrained(s, Step(s, e, c))
  {
  }

  lemma StepIsConsistent(s: Reader, e: Event, c: Contract)
    requires Consistent(s) && Legal(s, e)
    ensures Consistent(Step(s, e, c)) && FinishesDrained(s, Step(s, e, c))
  {
    if e.Done? {
      TickIsConsistent(Popped(s, e.op, e.message), c);
    } else {
      CallIsConsistent(s, e, c);
    }
  }

  lemma {:induction false} RunIsConsistent(s: Reader, es: seq<Event>, c: Contract)
    requires Consistent(s) && LegalRun(s, es, c)
    ensures Consistent(Run(s, es, c))
  {
    if es != [] {
      RunIsConsistent(s, es[..|es| - 1], c);
      StepIsConsistent(Run(s, es[..|es| - 1], c), es[|es| - 1], c);
    }
  }

  /**
   Every run, hazards included: requests leave in the order they were accepted, none lost or doubled; every read owed
   is either handled or still counted; `Finish` is called once at most.
   */
  lemma {:induction false} EveryRun(es: seq<Event>, c: Contract)
    requires LegalRun(Opened(), es, c)
    ensures var s := Run(Opened(), es, c);
            && s.wire.accepted == s.wire.handed + s.queue
            && |s.wire.handled| + s.readQueue == s.wire.owed
            && s.wire.finishes <= 1
  {
    RunIsConsistent(Opened(), es, c);
  }

  /** The branch that queues a message though the reader waits, and the late connections, are never taken. */
  lemma {:induction false} UnreachableBranches(es: seq<Event>, c: Contract)
    requires LegalRun(Opened(), es, c)
    ensures var s := Run(Opened(), es, c);
            && !(s.status == Waiting && !s.writeReady)
            && !(s.status == Waiting && s.readQueue != 0)
            && !(s.status in {Reading, Writing} && s.count == 0)
  {
    RunIsConsistent(Opened(), es, c);
  }

  lemma ReadTickIsDisciplined(s: Reader)
    requires Consistent(s) && s.status == Reading && s.wire.inFlight == multiset{}
    requires s.wire.delivered == s.wire.handled + [s.request]
    ensures Disciplined(ReadTicked(s))
  {
  }

  lemma WriteTickIsDisciplinedIff(s: Reader, c: Contract)
    requires Consistent(s) && s.status == Writing && s.wire.inFlight == multiset{}
    requires s.wire.delivered == s.wire.handled
    ensures Disciplined(WriteTicked(s, c)) <==> !(c == AsWritten && |s.queue| == 1)
  {
    if SaysEmpty(s, c) && s.queue != [] {
      assert WriteTicked(s, c).wire.inFlight[Write] == 1;
      assert WriteTicked(s, c).status != Writing;
    }
  }

  lemma OtherTickIsDisciplined(s: Reader, c: Contract)
    requires Consistent(s) && s.status !in {Reading, Writing} && !s.wire.deleted && s.wire.inFlight == multiset{}
    requires s.count == 0 || s.status == Finished
    requires s.wire.delivered == s.wire.handled
    ensures Disciplined(Proceeded(s, c))
  {
  }

  lemma TickIsDisciplinedIff(s: Reader, op: Operation, message: Result, c: Contract)
    requires Consistent(s) && Disciplined(s) && Legal(s, Done(op, message))
    ensures Disciplined(Step(s, Done(op, message), c)) <==> !Hazard(s, Done(op, message), c)
  {
    var s' := Popped(s, op, message);
    assert s.wire.inFlight == multiset{op} && s'.wire.inFlight == multiset{};
    match s.status
    case Reading => ReadTickIsDisciplined(s');
    case Writing => WriteTickIsDisciplinedIff(s', c);
    case _ => OtherTickIsDisciplined(s', c);
  }

  lemma CallIsDisciplinedIff(s: Reader, e: Event, c: Contract)
    requires Consistent(s) && Disciplined(s) && Legal(s, e) && !e.Done?
    ensures Disciplined(Step(s, e, c)) <==> !Hazard(s, e, c)
  {
    if Hazard(s, e, c) {
      assert Step(s, e, c).wire.inFlight[Write] == 1;
    }
  }

  lemma {:induction false} DisciplinedStepIff(s: Reader, e: Event, c: Contract)
    requires Consistent(s) && Disciplined(s) && Legal(s, e)
    ensures Disciplined(Step(s, e, c)) <==> !Hazard(s, e, c)
  {
    if e.Done? {
      TickIsDisciplinedIff(s, e.op, e.message, c);
    } else {
      CallIsDisciplinedIff(s, e, c);
    }
  }

  ghost predicate AlwaysDisciplined(s: Reader, es: seq<Event>, c: Contract) {
    Disciplined(Run(s, es, c)) && (es != [] ==> AlwaysDisciplined(s, es[..|es| - 1], c))
  }

  predicate HazardFree(s: Reader, es: seq<Event>, c: Contract) {
    es == [] || (HazardFree(s, es[..|es| - 1], c) && !Hazard(Run(s, es[..|es| - 1], c), es[|es| - 1], c))
  }

  /** The design rule holds throughout a run if and only if no step of the run is a hazard. */
  lemma {:induction false} DisciplinedIff(s: Reader, es: seq<Event>, c: Contract)
    requires Consistent(s) && Disciplined(s) && LegalRun(s, es, c)
    ensures AlwaysDisciplined(s, es, c) <==> HazardFree(s, es, c)
  {
    if es != [] {
      var before := es[..|es| - 1];
      DisciplinedIff(s, before, c);
      RunIsConsistent(s, before, c);
      if AlwaysDisciplined(s, before, c) {
        assert Disciplined(Run(s, before, c)) by {
          assert AlwaysDisciplined(s, before, c);
        }
        DisciplinedStepIff(Run(s, before, c), es[|es| - 1], c);
      }
    }
  }

  lemma OpenedIsDisciplined()
    ensures Consistent(Opened()) && Disciplined(Opened())
  {
  }

  lemma DisciplinedIsSingle(s: Reader)
    requires Disciplined(s)
    ensures |s.wire.inFlight| <= 1
  {
  }

  lemma {:induction false} NoHazardAsDocumented(s: Reader, es: seq<Event>)
    requires End !in es
    ensures HazardFree(s, es, AsDocumented)
  {
    if es != [] {
      NoHazardAsDocumented(s, es[..|es| - 1]);
      assert es[|es| - 1] in es;
    }
  }

  /** With the documented `clearQueue`, and no `end` (nothing ends a plate reader), every run keeps the design rule. */
  lemma {:induction false} DocumentedContractIsDisciplined(es: seq<Event>)
    requires LegalRun(Opened(), es, AsDocumented) && End !in es
    ensures AlwaysDisciplined(Opened(), es, AsDocumented)
    ensures |Run(Opened(), es, AsDocumented).wire.inFlight| <= 1
  {
    OpenedIsDisciplined();
    NoHazardAsDocumented(Opened(), es);
    DisciplinedIff(Opened(), es, AsDocumented);
    DisciplinedIsSingle(Run(Opened(), es, AsDocumented));
  }

  /** A reader that was asked for two plates in a row while it waited. */
  function AskedTwice(s: Reader, first: Request, second: Request): Reader {
    Owed(Written(Owed(Written(s, first)), second))
  }

  lemma AskedTwiceIs(s: Reader, first: Request, second: Request)
    requires Consistent(s) && Disciplined(s) && s.status == Waiting && s.count > 0 && !s.wire.deleted
    ensures var s' := AskedTwice(s, first, second);
            && Consistent(s') && Disciplined(s') && !s'.wire.deleted && s'.status == Writing
            && s'.queue == [second] && s'.readQueue == 2 && s'.request == s.request
            && s'.wire.handled == s.wire.handled
  {
    var s1 := Written(s, first);
    assert s1.status == Writing && s1.queue == [] && s1.readQueue == 0;
  }

  lemma LateWrite(s: Reader)
    requires s.status == Writing && |s.queue| == 1 && s.readQueue > 0 && s.count > 0
    requires s.wire.inFlight == multiset{Write}
    ensures var s' := Step(s, Done(Write, BLANK), AsWritten);
            && s'.status == Reading && s'.count == s.count && s'.request == s.request
            && s'.wire.inFlight == multiset{Write, Read} && s'.wire.handled == s.wire.handled
            && s'.wire.deleted == s.wire.deleted
  {
  }

  lemma WriteTakenForRead(s: Reader)
    requires s.status == Reading && s.count > 0
    ensures Step(s, Done(Write, BLANK), AsWritten).wire.handled == s.wire.handled + [s.request]
  {
  }

  lemma TwoSteps(s: Reader, e: Event, f: Event, c: Contract)
    ensures Run(s, [e], c) == Step(s, e, c) && Run(s, [e, f], c) == Step(Step(s, e, c), f, c)
    ensures Legal(s, e) && Legal(Step(s, e, c), f) ==> LegalRun(s, [e, f], c)
  {
    assert [e][..0] == [] && [e, f][..1] == [e];
    assert Run(s, [e], c) == Step(Run(s, [e][..0], c), e, c);
    assert LegalRun(s, [e][..0], c);
  }

  /**
   Two plate requests in a row break the rule as written, whatever waiting reader gets them: once the first one is
   sent, a read starts while the second one is still being written, and when that write completes the old message is
   handled once more.
   */
  lemma TwoRequestsOverlap(s: Reader, first: Request, second: Request)
    requires Consistent(s) && Disciplined(s) && s.status == Waiting && s.count > 0 && !s.wire.deleted
    ensures LegalRun(AskedTwice(s, first, second), [Done(Write, BLANK), Done(Write, BLANK)], AsWritten)
    ensures Run(AskedTwice(s, first, second), [Done(Write, BLANK)], AsWritten).wire.inFlight == multiset{Write, Read}
    ensures Run(AskedTwice(s, first, second), [Done(Write, BLANK), Done(Write, BLANK)], AsWritten).wire.handled
         == s.wire.handled + [s.request]
  {
    AskedTwiceIs(s, first, second);
    var asked, e := AskedTwice(s, first, second), Done(Write, BLANK);
    LateWrite(asked);
    WriteTakenForRead(Step(asked, e, AsWritten));
    TwoSteps(asked, e, e, AsWritten);
  }

  lemma RunOneMore(s: Reader, es: seq<Event>, e: Event, c: Contract)
    ensures Run(s, es + [e], c) == Step(Run(s, es, c), e, c)
    ensures LegalRun(s, es + [e], c) <==> LegalRun(s, es, c) && Legal(Run(s, es, c), e)
    ensures HazardFree(s, es + [e], c) <==> HazardFree(s, es, c) && !Hazard(Run(s, es, c), e, c)
  {
    assert (es + [e])[..|es|] == es;
  }

  /** A reader that has connected and registered, and waits. */
  function Registered(space: int): seq<Event> {
    [] + [Done(Accept, BLANK)] + [Done(Read, Result(true, space, ""))]
  }

  lemma RegisteredWaits(space: int)
    ensures LegalRun(Opened(), Registered(space), AsWritten) && End !in Registered(space)
    ensures var s := Run(Opened(), Registered(space), AsWritten);
            && Consistent(s) && Disciplined(s) && s.status == Waiting && s.count > 0 && !s.wire.deleted
            && s.spaceId == space
  {
    var accepted, registers := Done(Accept, BLANK), Done(Read, Result(true, space, ""));
    RunOneMore(Opened(), [], accepted, AsWritten);
    RunOneMore(Opened(), [] + [accepted], registers, AsWritten);
    var connected := Step(Opened(), accepted, AsWritten);
    assert connected.status == Reading && connected.readQueue == 1 && connected.wire.inFlight == multiset{Read};
    RunIsConsistent(Opened(), Registered(space), AsWritten);
    OpenedIsDisciplined();
    DisciplinedStepIff(Opened(), accepted, AsWritten);
    StepIsConsistent(Opened(), accepted, AsWritten);
    DisciplinedStepIff(connected, registers, AsWritten);
  }

  lemma AskedRun(es: seq<Event>, m: Request) returns (all: seq<Event>)
    requires LegalRun(Opened(), es, AsWritten) && Legal(Run(Opened(), es, AsWritten), Send(m)) && End !in es
    ensures LegalRun(Opened(), all, AsWritten) && End !in all
    ensures Run(Opened(), all, AsWritten) == Owed(Written(Run(Opened(), es, AsWritten), m))
  {
    RunOneMore(Opened(), es, Send(m), AsWritten);
    RunOneMore(Opened(), es + [Send(m)], Owe, AsWritten);
    all := es + [Send(m)] + [Owe];
  }

  /** A write with one request behind it, and a read owed: when it completes, a read and a write are in flight. */
  predicate AboutToOverlap(s: Reader) {
    && s.status == Writing && |s.queue| == 1 && s.readQueue > 0 && s.count > 0 && !s.wire.deleted
    && s.wire.inFlight == multiset{Write}
  }

  lemma WriteOverlaps(es: seq<Event>) returns (all: seq<Event>)
    ensures all == es + [Done(Write, BLANK)]
    ensures LegalRun(Opened(), es, AsWritten) && AboutToOverlap(Run(Opened(), es, AsWritten)) ==>
              && LegalRun(Opened(), all, AsWritten) && !HazardFree(Opened(), all, AsWritten)
              && Run(Opened(), all, AsWritten).wire.inFlight == multiset{Write, Read}
  {
    all := es + [Done(Write, BLANK)];
    RunOneMore(Opened(), es, Done(Write, BLANK), AsWritten);
    if AboutToOverlap(Run(Opened(), es, AsWritten)) {
      LateWrite(Run(Opened(), es, AsWritten));
    }
  }

  /** The run from the start in which they overlap: nothing ends the reader, and every step of it is legal. */
  lemma OverlapFromStart(space: int) returns (es: seq<Event>)
    ensures LegalRun(Opened(), es, AsWritten) && End !in es && !HazardFree(Opened(), es, AsWritten)
    ensures Run(Opened(), es, AsWritten).wire.inFlight == multiset{Write, Read}
  {
    RegisteredWaits(space);
    var once := AskedRun(Registered(space), Request(space));
    var before := AskedRun(once, Request(space));
    AskedTwiceIs(Run(Opened(), Registered(space), AsWritten), Request(space), Request(space));
    es := WriteOverlaps(before);
  }

  /** Completions until a write in flight and `queued` further ones let go of the reader. */
  function Sends(queued: nat, c: Contract): nat {
    if c == AsDocumented || queued == 0 then queued + 1 else queued
  }

  /** Completions until the reader waits or finishes. */
  function Remaining(s: Reader, c: Contract): int {
    match s.status
    case Reading => s.readQueue + (if s.queue == [] then 0 else Sends(|s.queue| - 1, c))
    case Writing => Sends(|s.queue|, c) + s.readQueue
    case _ => 0
  }

  lemma ReadTickCounts(s: Reader, c: Contract)
    requires Consistent(s) && s.status == Reading
    ensures Remaining(ReadTicked(s), c) == Remaining(s, c) - 1
  {
  }

  lemma WriteTickCounts(s: Reader, c: Contract)
    requires Consistent(s) && s.status == Writing
    ensures Remaining(WriteTicked(s, c), c) == Remaining(s, c) - 1
  {
  }

  lemma CompletionCounts(s: Reader, e: Event, c: Contract)
    requires Consistent(s) && Legal(s, e) && e.Done? && s.status in {Reading, Writing}
    ensures Remaining(Step(s, e, c), c) == Remaining(s, c) - 1
  {
    match s.status
    case Reading => ReadTickCounts(Popped(s, e.op, e.message), c);
    case Writing => WriteTickCounts(Popped(s, e.op, e.message), c);
    case _ =>
  }

  /**
   The exact drain. With no new calls a reader waits or finishes after exactly `Remaining` completions, and not before:
   readQueue + |queue| from a read and 1 + |queue| + readQueue from a write as documented; as written the last queued
   message is not waited for.
   */
  lemma {:induction false} Drain(s: Reader, es: seq<Event>, c: Contract)
    requires Consistent(s) && LegalRun(s, es, c) && |es| <= Remaining(s, c)
    requires forall k :: 0 <= k < |es| ==> es[k].Done?
    ensures Remaining(Run(s, es, c), c) == Remaining(s, c) - |es|
    ensures Run(s, es, c).status in {Waiting, Finished} <==> |es| == Remaining(s, c)
  {
    RunIsConsistent(s, es, c);
    if es != [] {
      Drain(s, es[..|es| - 1], c);
      RunIsConsistent(s, es[..|es| - 1], c);
      CompletionCounts(Run(s, es[..|es| - 1], c), es[|es| - 1], c);
    }
  }

  /** A busy reader has something in flight that will bring it on. */
  ghost predicate HasOperation(s: Reader) {
    s.status in {Reading, Writing} ==> exists op :: op in s.wire.inFlight
  }

  lemma ReadTickHasOperation(s: Reader)
    requires Consistent(s) && s.status == Reading
    ensures HasOperation(ReadTicked(s))
  {
    assert ReadTicked(s).status == Reading ==> Read in ReadTicked(s).wire.inFlight;
    assert ReadTicked(s).status == Writing ==> Write in ReadTicked(s).wire.inFlight;
  }

  lemma WriteTickHasOperation(s: Reader, c: Contract)
    requires Consistent(s) && s.status == Writing
    ensures HasOperation(WriteTicked(s, c))
  {
    assert WriteTicked(s, c).status == Reading ==> Read in WriteTicked(s, c).wire.inFlight;
    assert WriteTicked(s, c).status == Writing ==> Write in WriteTicked(s, c).wire.inFlight;
  }

  lemma TickHasOperation(s: Reader, op: Operation, c: Contract)
    requires Consistent(s) && Legal(s, Done(op, BLANK)) && s.status in {Reading, Writing}
    ensures HasOperation(Step(s, Done(op, BLANK), c))
  {
    var popped := Popped(s, op, BLANK);
    assert Connected(popped) == popped;
    if s.status == Reading {
      ReadTickHasOperation(popped);
    } else {
      WriteTickHasOperation(popped, c);
    }
  }

  lemma GoesOn(s: Reader, es: seq<Event>, c: Contract) returns (op: Operation)
    requires var s' := Run(s, es, c); Consistent(s') && HasOperation(s') && s'.status in {Reading, Writing}
    ensures Legal(Run(s, es, c), Done(op, BLANK)) && HasOperation(Run(s, es + [Done(op, BLANK)], c))
  {
    op :| op in Run(s, es, c).wire.inFlight;
    TickHasOperation(Run(s, es, c), op, c);
    RunOneMore(s, es, Done(op, BLANK), c);
  }

  lemma {:induction false} CanGoOn(s: Reader, n: nat, c: Contract) returns (es: seq<Event>)
    requires Consistent(s) && HasOperation(s) && n <= Remaining(s, c)
    ensures LegalRun(s, es, c) && |es| == n && forall k :: 0 <= k < |es| ==> es[k].Done?
    ensures HasOperation(Run(s, es, c))
  {
    es := [];
    if n > 0 {
      var earlier := CanGoOn(s, n - 1, c);
      Drain(s, earlier, c);
      RunIsConsistent(s, earlier, c);
      var op := GoesOn(s, earlier, c);
      RunOneMore(s, earlier, Done(op, BLANK), c);
      es := earlier + [Done(op, BLANK)];
    }
  }

  /**
   The drain is not an empty promise: every connected reader that keeps the design rule has a run of completions that
   brings it to rest.
   */
  lemma {:induction false} RestIsReachable(s: Reader, c: Contract) returns (es: seq<Event>)
    requires Consistent(s) && Disciplined(s) && s.count > 0
    ensures LegalRun(s, es, c) && |es| == Remaining(s, c) && forall k :: 0 <= k < |es| ==> es[k].Done?
    ensures Run(s, es, c).status in {Waiting, Finished}
  {
    assert HasOperation(s) by {
      if s.status == Reading {
        assert Read in s.wire.inFlight;
      } else if s.status == Writing {
        assert Write in s.wire.inFlight;
      }
    }
    es := CanGoOn(s, Remaining(s, c), c);
    Drain(s, es, c);
  }

  /**
   A request goes out at once exactly if the reader waits, which makes it busy and not ready to write; otherwise it is
   the last in the queue, and the reader goes on with what it does.
   */
  lemma RequestGoesOut(s: Reader, m: Request)
    requires Consistent(s)
    ensures var s' := Written(s, m);
            && s'.wire.accepted == s.wire.accepted + [m]
            && s'.readQueue == s.readQueue && s'.finish == s.finish && s'.spaceId == s.spaceId
            && if s.status == Waiting then
                 && s'.status == Writing && !s'.writeReady && s'.queue == s.queue == []
                 && s'.wire.handed == s.wire.handed + [m] && s'.wire.inFlight == s.wire.inFlight + multiset{Write}
               else
                 && s'.status == s.status && s'.writeReady == s.writeReady && s'.queue == s.queue + [m]
                 && s'.wire.handed == s.wire.handed && s'.wire.inFlight == s.wire.inFlight
  {
  }

  lemma ReadTickKeepsFlag(s: Reader)
    ensures ReadTicked(s).finish == s.finish
  {
  }

  lemma WriteTickKeepsFlag(s: Reader, c: Contract)
    ensures WriteTicked(s, c).finish == s.finish
  {
  }

  lemma TickKeepsFlag(s: Reader, c: Contract)
    ensures Proceeded(s, c).finish == s.finish
  {
    var connected := Connected(s);
    assert connected.finish == s.finish;
    match s.status
    case Reading => ReadTickKeepsFlag(connected);
    case Writing => WriteTickKeepsFlag(connected, c);
    case _ =>
  }

  /** The finish flag is raised by an `end` that cannot finish at once, by nothing else, and is never lowered. */
  lemma FinishFlag(s: Reader, e: Event, c: Contract)
    requires Consistent(s)
    ensures Step(s, e, c).finish <==>
            s.finish || (e.End? && (s.readQueue > 0 || s.queue != [] || s.status == Finished))
  {
    if e.Done? {
      TickKeepsFlag(Popped(s, e.op, e.message), c);
    }
  }

  // ---------- in which order it drains ----------

  lemma ReadsOn(s: Reader, e: Event, c: Contract)
    requires Consistent(s) && Legal(s, e) && e.Done? && s.status == Reading
    ensures var s' := Step(s, e, c);
            if s.readQueue > 1 then
              s'.status == Reading && s'.readQueue == s.readQueue - 1
              && s'.wire.handed == s.wire.handed && s'.queue == s.queue
            else if s.queue != [] then
              s'.status == Writing && s'.readQueue == 0
              && s'.wire.handed == s.wire.handed + [s.queue[0]] && s'.queue == s.queue[1..]
            else s'.status in {Waiting, Finished}
  {
    assert Connected(Popped(s, e.op, e.message)) == Popped(s, e.op, e.message);
  }

  lemma WriteTickClears(s: Reader, c: Contract)
    requires Consistent(s) && s.status == Writing
    ensures var s' := WriteTicked(s, c);
            && s'.readQueue == s.readQueue && s'.wire.handled == s.wire.handled
            && s'.queue == (if s.queue == [] then [] else s.queue[1..])
  {
  }

  lemma WriteTickMoves(s: Reader, c: Contract)
    requires Consistent(s) && s.status == Writing
    ensures var s', waited := WriteTicked(s, c), if c == AsWritten then 1 else 0;
            && (s'.status == Writing <==> |s.queue| > waited)
            && (s'.status == Reading <==> |s.queue| <= waited && s.readQueue > 0)
  {
  }

  lemma WritesOn(s: Reader, e: Event, c: Contract)
    requires Consistent(s) && Legal(s, e) && e.Done? && s.status == Writing
    ensures var s', waited := Step(s, e, c), if c == AsWritten then 1 else 0;
            && s'.readQueue == s.readQueue && s'.wire.handled == s.wire.handled
            && |s'.queue| == (if s.queue == [] then 0 else |s.queue| - 1)
            && (s'.status == Writing <==> |s.queue| > waited)
            && (s'.status == Reading <==> |s.queue| <= waited && s.readQueue > 0)
  {
    var popped := Popped(s, e.op, e.message);
    assert Connected(popped) == popped;
    WriteTickClears(popped, c);
    WriteTickMoves(popped, c);
  }

  /**
   A reader handles everything it owes before it hands on what is queued; and one that writes hands on everything queued
   before it reads again (as written, it does not wait for the last one).
   */
  lemma {:induction false} ReadsBeforeWrites(s: Reader, es: seq<Event>, c: Contract)
    requires Consistent(s) && s.status == Reading && LegalRun(s, es, c)
    requires |es| <= s.readQueue && forall k :: 0 <= k < |es| ==> es[k].Done?
    ensures var r := Run(s, es, c);
            if |es| < s.readQueue then
              && r.status == Reading && r.readQueue == s.readQueue - |es|
              && r.queue == s.queue && r.wire.handed == s.wire.handed
            else
              r.readQueue == 0 && if s.queue == [] then r.status in {Waiting, Finished}
                                  else r.status == Writing && r.wire.handed == s.wire.handed + [s.queue[0]]
  {
    if es != [] {
      var before := es[..|es| - 1];
      ReadsBeforeWrites(s, before, c);
      RunIsConsistent(s, before, c);
      ReadsOn(Run(s, before, c), es[|es| - 1], c);
      StepIsConsistent(Run(s, before, c), es[|es| - 1], c);
    }
  }

  lemma {:induction false} WritesSoFar(s: Reader, es: seq<Event>, c: Contract)
    requires Consistent(s) && s.status == Writing && LegalRun(s, es, c)
    requires |es| <= Sends(|s.queue|, c) && forall k :: 0 <= k < |es| ==> es[k].Done?
    ensures var r := Run(s, es, c);
            && Consistent(r) && r.readQueue == s.readQueue && r.wire.handled == s.wire.handled
            && |r.queue| == (if |es| <= |s.queue| then |s.queue| - |es| else 0)
            && (r.status == Writing <==> |es| < Sends(|s.queue|, c))
            && (|es| == Sends(|s.queue|, c) ==> (r.status == Reading <==> s.readQueue > 0))
  {
    if es != [] {
      var before := es[..|es| - 1];
      WritesSoFar(s, before, c);
      WritesOn(Run(s, before, c), es[|es| - 1], c);
      StepIsConsistent(Run(s, before, c), es[|es| - 1], c);
    }
  }

  lemma {:induction false} WritesBeforeReads(s: Reader, es: seq<Event>, c: Contract)
    requires Consistent(s) && s.status == Writing && LegalRun(s, es, c)
    requires |es| <= Sends(|s.queue|, c) && forall k :: 0 <= k < |es| ==> es[k].Done?
    ensures var r := Run(s, es, c);
            && r.readQueue == s.readQueue && r.wire.handled == s.wire.handled
            && (r.status == Writing <==> |es| < Sends(|s.queue|, c))
            && (|es| == Sends(|s.queue|, c) ==> r.queue == [] && (r.status == Reading <==> s.readQueue > 0))
  {
    WritesSoFar(s, es, c);
  }

  // ---------- a reader that was ended ----------

  /** It has finished, or will when it comes to rest. */
  predicate WillFinish(s: Reader) {
    s.status == Finished || (s.status in {Reading, Writing} && s.finish)
  }

  lemma EndedWillFinish(s: Reader)
    requires Consistent(s) && Legal(s, End)
    ensures WillFinish(Ended(s))
  {
  }

  /** A read or a write leaves it so; and nothing but `end` brings it there. */
  lemma CompletionWillFinishIff(s: Reader, e: Event, c: Contract)
    requires Consistent(s) && Legal(s, e) && e.Done? && s.status in {Reading, Writing}
    ensures WillFinish(Step(s, e, c)) <==> WillFinish(s)
  {
    var popped := Popped(s, e.op, e.message);
    assert Connected(popped) == popped;
  }

  /** A completion deletes a reader exactly if it had finished. */
  lemma CompletionDeletesIff(s: Reader, e: Event, c: Contract)
    requires Consistent(s) && Legal(s, e) && e.Done?
    ensures Step(s, e, c).wire.deleted <==> s.status == Finished
  {
    var popped := Popped(s, e.op, e.message);
    if s.count > 0 {
      assert Connected(popped) == popped;
    }
  }

  lemma {:induction false} WillFinishIff(s: Reader, es: seq<Event>, c: Contract)
    requires Consistent(s) && LegalRun(s, es, c) && |es| <= Remaining(s, c)
    requires forall k :: 0 <= k < |es| ==> es[k].Done?
    ensures WillFinish(Run(s, es, c)) <==> WillFinish(s)
    ensures Run(s, es, c).wire.deleted <==> s.wire.deleted
  {
    if es != [] {
      var before := es[..|es| - 1];
      WillFinishIff(s, before, c);
      Drain(s, before, c);
      RunIsConsistent(s, before, c);
      CompletionDeletesIff(Run(s, before, c), es[|es| - 1], c);
      CompletionWillFinishIff(Run(s, before, c), es[|es| - 1], c);
    }
  }

  /** A legal run of completions that brings the reader to rest. */
  ghost predicate BringsToRest(s: Reader, es: seq<Event>, c: Contract) {
    && LegalRun(s, es, c) && |es| == Remaining(s, c)
    && forall k :: 0 <= k < |es| ==> es[k].Done?
  }

  /** It called `Finish` once, and whatever completes next deletes it. */
  ghost predicate RestsFinished(s: Reader, c: Contract) {
    && s.status == Finished && s.wire.finishes == 1 && !s.wire.deleted
    && forall e: Event :: e.Done? && Legal(s, e) ==> Step(s, e, c).wire.deleted
  }

  lemma FinishedRests(s: Reader, c: Contract)
    requires Consistent(s) && s.status == Finished && !s.wire.deleted
    ensures RestsFinished(s, c)
  {
    forall e: Event | e.Done? && Legal(s, e) ensures Step(s, e, c).wire.deleted {
      CompletionDeletesIff(s, e, c);
    }
  }

  lemma {:induction false} RestsAsItWill(s: Reader, es: seq<Event>, c: Contract)
    requires Consistent(s) && BringsToRest(s, es, c)
    ensures var r := Run(s, es, c);
            && Consistent(r) && (r.wire.deleted <==> s.wire.deleted)
            && r.status == if WillFinish(s) then Finished else Waiting
  {
    WillFinishIff(s, es, c);
    Drain(s, es, c);
    RunIsConsistent(s, es, c);
  }

  /**
   Ending a reader is honoured: the completions that bring it to rest bring it to B_FINISHED, with `Finish` called once,
   and the next completion deletes it.
   */
  lemma {:induction false} EndIsHonoured(s: Reader, c: Contract)
    requires Consistent(s) && Legal(s, End)
    ensures forall es :: BringsToRest(Ended(s), es, c) ==> RestsFinished(Run(Ended(s), es, c), c)
  {
    StepIsConsistent(s, End, c);
    EndedWillFinish(s);
    forall es | BringsToRest(Ended(s), es, c) ensures RestsFinished(Run(Ended(s), es, c), c) {
      RestsAsItWill(Ended(s), es, c);
      FinishedRests(Run(Ended(s), es, c), c);
    }
  }

  /** A reader that was not ended comes to rest waiting. */
  lemma {:induction false} UnendedWaits(s: Reader, c: Contract)
    requires Consistent(s) && !s.finish && s.status != Finished
    ensures forall es :: BringsToRest(s, es, c) ==> Run(s, es, c).status == Waiting
  {
    forall es | BringsToRest(s, es, c) ensures Run(s, es, c).status == Waiting {
      RestsAsItWill(s, es, c);
    }
  }

  // ---------- what a caller of write can see to ----------

  /** No completion to come can be a hazard, as long as nobody asks the reader for anything else. */
  predicate Safe(s: Reader) {
    && (s.status == Writing ==> s.queue == [])
    && (s.status == Reading ==> |s.queue| <= 1)
  }

  lemma CompletionIsSafeIff(s: Reader, e: Event)
    requires Consistent(s) && Legal(s, e) && e.Done? && s.status in {Reading, Writing}
    ensures Safe(s) <==> !Hazard(s, e, AsWritten) && Safe(Step(s, e, AsWritten))
  {
    var popped := Popped(s, e.op, e.message);
    assert Connected(popped) == popped;
    if s.status == Reading {
      assert Step(s, e, AsWritten) == ReadTicked(popped);
    } else {
      assert Step(s, e, AsWritten) == WriteTicked(popped, AsWritten);
    }
  }

  /**
   The code as written, left to itself: a safe reader meets no hazard and stays safe, and any other meets one or stays
   unsafe. So the completions that bring a reader to rest are free of hazards if and only if the reader was safe.
   */
  lemma {:induction false} SafeIff(s: Reader, es: seq<Event>)
    requires Consistent(s) && LegalRun(s, es, AsWritten) && |es| <= Remaining(s, AsWritten)
    requires forall k :: 0 <= k < |es| ==> es[k].Done?
    ensures Safe(s) <==> HazardFree(s, es, AsWritten) && Safe(Run(s, es, AsWritten))
    ensures |es| == Remaining(s, AsWritten) ==> (HazardFree(s, es, AsWritten) <==> Safe(s))
  {
    Drain(s, es, AsWritten);
    if es != [] {
      var before := es[..|es| - 1];
      SafeIff(s, before);
      Drain(s, before, AsWritten);
      RunIsConsistent(s, before, AsWritten);
      CompletionIsSafeIff(Run(s, before, AsWritten), es[|es| - 1]);
    }
  }

  /**
   Whether a plate request is safe, as far as its caller can see before asking: the completions that then bring the
   reader to rest are free of hazards if and only if it was waiting, or reading with nothing queued, or had finished.
   */
  lemma {:induction false} AskingIsSafeIff(s: Reader, m: Request)
    requires Consistent(s) && Legal(s, Send(m))
    ensures forall es :: BringsToRest(Owed(Written(s, m)), es, AsWritten) ==>
              (HazardFree(Owed(Written(s, m)), es, AsWritten) <==>
                 s.status in {Waiting, Finished} || (s.status == Reading && s.queue == []))
  {
    var asked := Owed(Written(s, m));
    StepIsConsistent(s, Send(m), AsWritten);
    StepIsConsistent(Written(s, m), Owe, AsWritten);
    forall es | BringsToRest(asked, es, AsWritten) ensures HazardFree(asked, es, AsWritten) <==> Safe(asked) {
      SafeIff(asked, es);
    }
  }

  // ---------- the object ----------

  /** What a tick asks of the rest of the server. */
  datatype Call = StartSuccessor | Register | Unregister | ReceivePlate(space: int, plate: string)

  function CallsOf(s: Reader): seq<Call> {
    var connecting := if s.count == 0 then [StartSuccessor, Register] else [];
    match s.status
    case Waiting => connecting
    case Writing => connecting
    case Reading =>
      connecting
      + (if s.request.registration then [] else [ReceivePlate(s.request.space, s.request.plate)])
      + (if Connected(s).readQueue == 1 && s.queue == [] && s.finish then [Unregister] else [])
    case _ => []
  }

  /**
   What a tick of a living reader asks of the server, in this order: its first tick starts a successor and registers it,
   and no other does; a result that is not a registration is delivered as it came; and the tick that finishes it after a
   read unregisters it.
   */
  lemma TickAsks(s: Reader, c: Contract)
    requires Consistent(s) && s.status != Finished
    ensures CallsOf(s) ==
            (if s.count == 0 then [StartSuccessor, Register] else [])
            + (if s.status == Reading && !s.request.registration
               then [ReceivePlate(s.request.space, s.request.plate)] else [])
            + (if s.status == Reading && Proceeded(s, c).status == Finished then [Unregister] else [])
  {
    assert s.count > 0 ==> Connected(s) == s;
  }

  class PlateReader {
    var status: Status
    var writeReady: bool
    var finish: bool
    var readQueue: int
    var queue: seq<Request>
    var count: nat
    var request: Result
    var spaceId: int
    var cancelled: bool
    ghost var wire: Wire

    ghost function View(): Reader
      reads this
    {
      Reader(status, writeReady, finish, readQueue, queue, count, request, spaceId, wire)
    }

    constructor ()
      ensures View() == Opened() && !cancelled
    {
      status, writeReady, finish, readQueue, queue, count := Create, true, false, 0, [], 0;
      request, spaceId, cancelled := BLANK, -1, false;
      wire := Wire(multiset{}, [], [], 0, [], [], 0, false);
      new;
      var calls := Proceed();
      assert calls == [];
    }

    method ReadMessage()
      modifies this
      ensures View() == Owed(old(View())) && cancelled == old(cancelled)
    {
      wire := wire.Owing();
      if status == Waiting {
        status := Reading;
        readQueue := readQueue + 1;
        if readQueue - 1 == 0 {
          wire := wire.Starting(Read);
        }
      } else {
        readQueue := readQueue + 1;
      }
    }

    method Write(m: Request)
      modifies this
      ensures View() == Written(old(View()), m) && cancelled == old(cancelled)
    {
      wire := wire.Taking(m);
      if status == Waiting {
        status := Writing;
        if writeReady {
          writeReady := false;
          wire := wire.Sending(m);
        } else {
          queue := queue + [m];
        }
      } else {
        queue := queue + [m];
      }
    }

    method End()
      modifies this
      ensures View() == Ended(old(View())) && cancelled == old(cancelled)
    {
      if readQueue == 0 && queue == [] && status != Finished {
        status := Finished;
        wire := wire.Finishing();
      } else {
        finish := true;
      }
    }

    method ClearQueue() returns (empty: bool)
      modifies this
      ensures View() == QueueCleared(old(View())) && cancelled == old(cancelled)
      ensures empty <==> SaysEmpty(old(View()), AsWritten)
    {
      if queue == [] {
        writeReady := true;
        empty := true;
      } else {
        wire := wire.Sending(queue[0]);
        queue := queue[1..];
        empty := queue == [];
      }
    }

    /** The completion queue pops this object's tag. */
    method Pop(ghost op: Operation, message: Option<Result>)
      requires message.Some? <==> op == Read
      modifies this
      ensures View() == Popped(old(View()), op, if message.Some? then message.value else BLANK)
      ensures cancelled == old(cancelled)
    {
      wire := wire.Answered(op);
      match message
      case None =>
      case Some(r) =>
        request := r;
        wire := wire.(delivered := wire.delivered + [r]);
    }

    /** The first tick of a connected reader. */
    method Connect() returns (calls: seq<Call>)
      modifies this
      ensures View() == Connected(old(View())) && cancelled == old(cancelled)
      ensures calls == if old(count) == 0 then [StartSuccessor, Register] else []
    {
      calls := [];
      if count == 0 {
        calls := [StartSuccessor];
        count := count + 1;
        ReadMessage();
        calls := calls + [Register];
      }
    }

    method HandleNewMessage() returns (calls: seq<Call>)
      modifies this
      ensures View() == Handled(old(View())) && cancelled == old(cancelled)
      ensures calls == if request.registration then [] else [ReceivePlate(request.space, request.plate)]
    {
      calls := [];
      wire := wire.Handling(request);
      if request.registration {
        spaceId := request.space;
      } else {
        calls := [ReceivePlate(request.space, request.plate)];
      }
    }

    method ReadTick() returns (calls: seq<Call>)
      requires status == Reading
      modifies this
      ensures View() == ReadTicked(old(View())) && cancelled == old(cancelled)
      ensures calls == (if old(request).registration then []
                        else [ReceivePlate(old(request).space, old(request).plate)])
                     + (if old(readQueue) == 1 && old(queue) == [] && old(finish) then [Unregister] else [])
    {
      calls := HandleNewMessage();
      readQueue := readQueue - 1;
      if readQueue == 0 {
        if queue != [] {
          status := Writing;
          var empty := ClearQueue();
        } else if finish {
          status := Finished;
          calls := calls + [Unregister];
          wire := wire.Finishing();
        } else {
          status := Waiting;
        }
      } else {
        wire := wire.Starting(Read);
      }
    }

    method WriteTick()
      requires status == Writing
      modifies this
      ensures View() == WriteTicked(old(View()), AsWritten) && cancelled == old(cancelled)
    {
      var empty := ClearQueue();
      if empty {
        writeReady := true;
        if readQueue > 0 {
          status := Reading;
          wire := wire.Starting(Read);
        } else if finish {
          status := Finished;
          wire := wire.Finishing();
        } else {
          status := Waiting;
        }
      }
    }

    method Proceed() returns (calls: seq<Call>)
      requires !wire.deleted
      modifies this
      ensures View() == Proceeded(old(View()), AsWritten) && cancelled == old(cancelled)
      ensures calls == CallsOf(old(View()))
    {
      calls := [];
      match status
      case Create =>
        status := Waiting;
        wire := wire.Starting(Accept);
      case Waiting =>
        calls := Connect();
      case Reading =>
        var connecting := Connect();
        calls := ReadTick();
        calls := connecting + calls;
      case Writing =>
        calls := Connect();
        WriteTick();
      case Finished =>
        wire := wire.Deleting();
    }
  }
}
