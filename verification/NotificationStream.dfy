/**
 The server-to-client stream (CallData in server/parkingnotifications.cpp): its fields, what the gRPC library
 has been asked on its behalf, and one function for each of its methods. A method body is one atomic step.
 */
module NotificationStream {
  import opened Basics

  /** C_CREATE, C_LISTENING, C_FINISH and C_FINISHED. */
  datatype Status = Create | Listening | Finishing | Finished

  /**
   A stream's dealings with the outside: the operations in flight, the messages `write` was given, the messages
   passed to the responder, the calls of `Finish` and of `end`, whether an `end` met a ready stream, and whether the
   object deleted itself.
   */
  datatype Wire<M> = Wire(
    inFlight: multiset<Operation>,
    accepted: seq<M>,
    handed: seq<M>,
    finishes: nat,
    ends: nat,
    endedReady: bool,
    deleted: bool)
  {
    function Accepting(): Wire<M> { this.(inFlight := inFlight + multiset{Accept}) }
    function Taking(m: M): Wire<M> { this.(accepted := accepted + [m]) }
    function Writing(m: M): Wire<M> { this.(inFlight := inFlight + multiset{Write}, handed := handed + [m]) }
    function Finishing(): Wire<M> { this.(inFlight := inFlight + multiset{Finish}, finishes := finishes + 1) }
    function Ending(ready: bool): Wire<M> { this.(ends := ends + 1, endedReady := endedReady || ready) }
    function Answered(op: Operation): Wire<M> { this.(inFlight := inFlight - multiset{op}) }
    function Deleting(): Wire<M> { this.(deleted := true) }
  }

  function Untouched<M>(): Wire<M> { Wire(multiset{}, [], [], 0, 0, false, false) }

  /** The fields of the object, and its wire. */
  datatype Stream<M> = Stream(status: Status, ready: bool, queue: seq<M>, count: nat, wire: Wire<M>)

  function Written<M>(s: Stream<M>, m: M): Stream<M> {
    if s.ready then s.(ready := false, wire := s.wire.Taking(m).Writing(m))
    else s.(queue := s.queue + [m], wire := s.wire.Taking(m))
  }

  function Ended<M>(s: Stream<M>): Stream<M> {
    var wire := s.wire.Ending(s.ready);
    if s.ready && s.status == Finished then
      s.(ready := false, wire := wire)
    else if s.ready then
      // The status written beside the call of Finish is overwritten on the way out of the method.
      s.(ready := false, status := Finishing, wire := wire.Finishing())
    else
      s.(status := Finishing, wire := wire)
  }

  function QueueCleared<M>(s: Stream<M>): Stream<M> {
    if s.queue == [] then s.(ready := true) else s.(queue := s.queue[1..], wire := s.wire.Writing(s.queue[0]))
  }

  function Proceeded<M>(s: Stream<M>): Stream<M> {
    match s.status
    case Create => s.(status := Listening, wire := s.wire.Accepting())
    case Listening => QueueCleared(s).(count := if s.count == 0 then 1 else s.count)
    case Finishing =>
      if s.queue != [] then QueueCleared(s) else s.(status := Finished, wire := s.wire.Finishing())
    case Finished => s.(wire := s.wire.Deleting())
  }

  /** A stream whose constructor has run: it waits for a client. */
  function Opened<M>(): Stream<M> {
    Proceeded(Stream(Create, false, [], 0, Untouched()))
  }

  /** The completion queue hands back an operation: it is no longer in flight. */
  function Popped<M>(s: Stream<M>, op: Operation): Stream<M> {
    s.(wire := s.wire.Answered(op))
  }

  /** Does this tick start the successor of the stream and register it with the subscribers? */
  predicate Connects<M>(s: Stream<M>) {
    s.status == Listening && s.count == 0
  }

  // ---------- runs ----------

  datatype Event<M> = Send(message: M) | End | Done(op: Operation)

  function Step<M>(s: Stream<M>, e: Event<M>): Stream<M> {
    match e
    case Send(m) => Written(s, m)
    case End => Ended(s)
    case Done(op) => Proceeded(Popped(s, op))
  }

  /** Messages and `end` reach a stream through the subscribers only: once connected, and until it was ended. */
  predicate Legal<M>(s: Stream<M>, e: Event<M>) {
    && !s.wire.deleted
    && match e
       case Send(_) => s.count > 0 && s.wire.ends == 0
       case End => s.count > 0 && s.wire.ends == 0
       case Done(op) => op in s.wire.inFlight
  }

  function Run<M>(s: Stream<M>, es: seq<Event<M>>): Stream<M> {
    if es == [] then s else Step(Run(s, es[..|es| - 1]), es[|es| - 1])
  }

  /** Every prefix of a legal run is a legal run, so what holds after every legal run holds at every moment. */
  predicate LegalRun<M>(s: Stream<M>, es: seq<Event<M>>) {
    es == [] || (LegalRun(s, es[..|es| - 1]) && Legal(Run(s, es[..|es| - 1]), es[|es| - 1]))
  }

  /** Never two operations in flight, and the status, the flag and the `end` seen so far say which one. */
  ghost predicate Sound<M>(s: Stream<M>) {
    && s.wire.accepted == s.wire.handed + s.queue
    && (s.ready ==> s.queue == [])
    && s.wire.ends <= 1
    && (s.wire.endedReady ==> s.wire.ends == 1)
    && if s.wire.deleted then
         && s.wire.ends == 1 && s.queue == [] && !s.ready && s.count > 0 && s.wire.inFlight == multiset{}
         && s.wire.finishes == (if s.wire.endedReady then 2 else 1)
       else match s.status
         case Create => false
         case Listening =>
           && s.wire.ends == 0 && s.wire.finishes == 0
           && (s.count == 0 ==> !s.ready && s.wire.accepted == [] && s.wire.inFlight == multiset{Accept})
           && (s.count > 0 ==> s.wire.inFlight == if s.ready then multiset{} else multiset{Write})
         case Finishing =>
           && s.wire.ends == 1 && !s.ready && s.count > 0
           && (s.wire.endedReady ==> s.queue == [] && s.wire.finishes == 1 && s.wire.inFlight == multiset{Finish})
           && (!s.wire.endedReady ==> s.wire.finishes == 0 && s.wire.inFlight == multiset{Write})
         case Finished =>
           && s.wire.ends == 1 && !s.ready && s.queue == [] && s.count > 0 && s.wire.inFlight == multiset{Finish}
           && s.wire.finishes == (if s.wire.endedReady then 2 else 1)
  }

  lemma CallIsSound<M>(s: Stream<M>, e: Event<M>)
    requires Sound(s) && Legal(s, e) && !e.Done?
    ensures Sound(Step(s, e))
    ensures Step(s, e).wire.finishes > s.wire.finishes ==> Step(s, e).wire.handed == Step(s, e).wire.accepted
  {
  }

  lemma TickIsSound<M>(s: Stream<M>, op: Operation)
    requires Sound(s) && Legal(s, Done(op))
    ensures var s' := Proceeded(Popped(s, op));
            && Sound(s')
            && (s'.wire.finishes > s.wire.finishes ==> s'.wire.handed == s'.wire.accepted)
  {
    assert s.wire.inFlight == multiset{op};
    assert Popped(s, op).wire.inFlight == multiset{};
  }

  lemma StepIsSound<M>(s: Stream<M>, e: Event<M>)
    requires Sound(s) && Legal(s, e)
    ensures Sound(Step(s, e))
    ensures Step(s, e).wire.finishes > s.wire.finishes ==> Step(s, e).wire.handed == Step(s, e).wire.accepted
  {
    if e.Done? {
      TickIsSound(s, e.op);
    } else {
      CallIsSound(s, e);
    }
  }

  /** A stream deletes itself only when a `Finish` completes that it had called with everything handed on. */
  lemma DeletedByFinish<M>(s: Stream<M>, e: Event<M>)
    requires Sound(s) && Legal(s, e) && Step(s, e).wire.deleted
    ensures e == Done(Finish) && s.status == Finished && s.wire.handed == s.wire.accepted
  {
    if e.Done? {
      assert s.wire.inFlight == multiset{e.op};
    }
  }

  lemma {:induction false} RunIsSound<M>(s: Stream<M>, es: seq<Event<M>>)
    requires Sound(s) && LegalRun(s, es)
    ensures Sound(Run(s, es))
  {
    if es != [] {
      var n := |es| - 1;
      RunIsSound(s, es[..n]);
      StepIsSound(Run(s, es[..n]), es[n]);
    }
  }

  /**
   Every run of a stream: nothing lost, doubled or reordered; at most one operation in flight; a ready stream has
   nothing queued and nothing in flight.
   */
  lemma {:induction false} EveryRun<M>(es: seq<Event<M>>)
    requires LegalRun(Opened(), es)
    ensures var s := Run(Opened(), es);
            && s.wire.accepted == s.wire.handed + s.queue
            && |s.wire.inFlight| <= 1
            && (s.ready ==> s.queue == [] && s.wire.inFlight == multiset{})
            && (s.wire.deleted ==> s.wire.handed == s.wire.accepted && s.wire.inFlight == multiset{})
  {
    RunIsSound(Opened(), es);
  }

  lemma OneMore<M>(s: Stream<M>, es: seq<Event<M>>, e: Event<M>)
    ensures Run(s, es + [e]) == Step(Run(s, es), e)
    ensures LegalRun(s, es + [e]) <==> LegalRun(s, es) && Legal(Run(s, es), e)
  {
    assert (es + [e])[..|es|] == es;
  }

  /** The run that shows it: a client connects, nothing is sent, the stream is ended, and `Finish` is called twice. */
  lemma FinishedTwice() returns (es: seq<Event<int>>)
    ensures LegalRun(Opened(), es)
    ensures Run(Opened<int>(), es).wire.deleted && Run(Opened<int>(), es).wire.finishes == 2
  {
    var none: seq<Event<int>> := [];
    es := none + [Done(Accept)] + [End] + [Done(Finish)] + [Done(Finish)];
    OneMore<int>(Opened(), none, Done(Accept));
    OneMore<int>(Opened(), none + [Done(Accept)], End);
    OneMore<int>(Opened(), none + [Done(Accept)] + [End], Done(Finish));
    OneMore<int>(Opened(), none + [Done(Accept)] + [End] + [Done(Finish)], Done(Finish));
  }

  /** Completions until the stream is ready for the next message or, once ended, until it deletes itself. */
  function Remaining<M>(s: Stream<M>): nat {
    if s.wire.deleted || s.ready then 0
    else match s.status
      case Create => 0
      case Listening => |s.queue| + 1
      case Finishing => |s.queue| + 2
      case Finished => 1
  }

  lemma CompletionCounts<M>(s: Stream<M>, op: Operation)
    requires Sound(s) && s.count > 0 && Legal(s, Done(op))
    ensures var s' := Step(s, Done(op));
            && Remaining(s') == Remaining(s) - 1
            && s'.count > 0 && s'.wire.ends == s.wire.ends && s'.wire.endedReady == s.wire.endedReady
  {
  }

  lemma {:induction false} CompletionsCount<M>(s: Stream<M>, es: seq<Event<M>>)
    requires Sound(s) && s.count > 0 && LegalRun(s, es) && forall k :: 0 <= k < |es| ==> es[k].Done?
    ensures var r := Run(s, es);
            && Sound(r) && Remaining(r) == Remaining(s) - |es|
            && r.count > 0 && r.wire.ends == s.wire.ends && r.wire.endedReady == s.wire.endedReady
  {
    if es != [] {
      var n := |es| - 1;
      CompletionsCount(s, es[..n]);
      CompletionCounts(Run(s, es[..n]), es[n].op);
      StepIsSound(Run(s, es[..n]), es[n]);
    }
  }

  /**
   The exact drain. With no new calls a busy stream is ready after exactly one completion more than it has queued
   messages. If it was ended while busy, that completion is the one that calls `Finish`, and the next one deletes the
   stream. If it was ended while ready it takes two completions. No run of completions goes on longer.
   */
  lemma {:induction false} Drain<M>(s: Stream<M>, es: seq<Event<M>>)
    requires Sound(s) && s.count > 0 && LegalRun(s, es) && forall k :: 0 <= k < |es| ==> es[k].Done?
    ensures |es| <= Remaining(s)
    ensures s.wire.ends == 0 ==> (Run(s, es).ready <==> |es| == Remaining(s))
    ensures s.wire.ends == 1 ==> (Run(s, es).wire.deleted <==> |es| == Remaining(s))
    ensures s.wire.ends == 1 && !s.wire.endedReady ==>
              (Run(s, es).wire.finishes == 1 <==> |es| + 1 >= Remaining(s))
  {
    CompletionsCount(s, es);
  }

  /** The operation that a connected stream has in flight until it is ready or deleted. */
  function Pending<M>(s: Stream<M>): Operation {
    if Write in s.wire.inFlight then Write else Finish
  }

  lemma PendingIsLegal<M>(s: Stream<M>)
    requires Sound(s) && s.count > 0 && Remaining(s) > 0
    ensures Legal(s, Done(Pending(s)))
  {
  }

  /** There is such a run: a stream that is not ready or deleted yet has an operation in flight. */
  lemma {:induction false} DrainIsReachable<M>(s: Stream<M>, n: nat) returns (es: seq<Event<M>>)
    requires Sound(s) && s.count > 0 && n <= Remaining(s)
    ensures LegalRun(s, es) && |es| == n && forall k :: 0 <= k < |es| ==> es[k].Done?
  {
    es := [];
    if n > 0 {
      var earlier := DrainIsReachable(s, n - 1);
      CompletionsCount(s, earlier);
      PendingIsLegal(Run(s, earlier));
      OneMore(s, earlier, Done(Pending(Run(s, earlier))));
      es := earlier + [Done(Pending(Run(s, earlier)))];
    }
  }

  lemma StepAfterEnd<M>(s: Stream<M>, e: Event<M>)
    requires Sound(s) && s.wire.ends == 1 && Legal(s, e)
    ensures e.Done? && Step(s, e).wire.ends == 1 && Step(s, e).wire.endedReady == s.wire.endedReady
  {
  }

  lemma {:induction false} RunAfterEnd<M>(s: Stream<M>, es: seq<Event<M>>)
    requires Sound(s) && s.wire.ends == 1 && LegalRun(s, es)
    ensures Run(s, es).wire.ends == 1 && Run(s, es).wire.endedReady == s.wire.endedReady
  {
    if es != [] {
      RunAfterEnd(s, es[..|es| - 1]);
      RunIsSound(s, es[..|es| - 1]);
      StepAfterEnd(Run(s, es[..|es| - 1]), es[|es| - 1]);
    }
  }

  /**
   The design asks for one `Finish` a stream. A connected stream that is ended and then runs until it deletes itself
   has called `Finish` once if and only if `end` did not find it ready; otherwise it has called it twice.
   */
  lemma FinishedOnceIff<M>(s: Stream<M>, es: seq<Event<M>>)
    requires Sound(s) && Legal(s, End) && LegalRun(Ended(s), es) && Run(Ended(s), es).wire.deleted
    ensures Run(Ended(s), es).wire.finishes == if s.ready then 2 else 1
  {
    StepIsSound(s, End);
    RunIsSound(Ended(s), es);
    RunAfterEnd(Ended(s), es);
  }

  // ---------- the object ----------

  class CallData<M> {
    var status: Status
    var ready: bool
    var queue: seq<M>
    var count: nat
    var cancelled: bool
    /** The space the client asked about; None for a subscription to every space. */
    var topic: Option<int>

    ghost var wire: Wire<M>

    ghost function View(): Stream<M>
      reads this
    {
      Stream(status, ready, queue, count, wire)
    }

    constructor (topic: Option<int>)
      ensures View() == Opened() && !cancelled && this.topic == topic
    {
      status, ready, queue, count, cancelled, this.topic := Create, false, [], 0, false, topic;
      wire := Untouched();
      new;
      var connected := Proceed();
      assert !connected;
    }

    method Write(m: M)
      modifies this
      ensures View() == Written(old(View()), m) && cancelled == old(cancelled) && topic == old(topic)
    {
      wire := wire.Taking(m);
      if ready {
        ready := false;
        wire := wire.Writing(m);
      } else {
        queue := queue + [m];
      }
    }

    method End()
      modifies this
      ensures View() == Ended(old(View())) && cancelled == old(cancelled) && topic == old(topic)
    {
      wire := wire.Ending(ready);
      if ready {
        ready := false;
        if status != Finished {
          status := Finished;
          wire := wire.Finishing();
        } else {
          return;
        }
      }
      status := Finishing;
    }

    method ClearQueue()
      modifies this
      ensures View() == QueueCleared(old(View())) && cancelled == old(cancelled) && topic == old(topic)
    {
      if queue == [] {
        ready := true;
      } else {
        wire := wire.Writing(queue[0]);
        queue := queue[1..];
      }
    }

    /** The completion queue pops this object's tag. */
    ghost method Pop(op: Operation)
      requires op in wire.inFlight
      modifies this
      ensures View() == Popped(old(View()), op) && cancelled == old(cancelled) && topic == old(topic)
    {
      wire := wire.Answered(op);
    }

    /** `connected` says that the object started its successor and registered itself. */
    method Proceed() returns (connected: bool)
      requires !wire.deleted
      modifies this
      ensures View() == Proceeded(old(View())) && cancelled == old(cancelled) && topic == old(topic)
      ensures connected <==> Connects(old(View()))
    {
      connected := false;
      match status {
        case Create =>
          status := Listening;
          wire := wire.Accepting();
        case Listening =>
          ClearQueue();
          if count == 0 {
            connected := true;
            count := count + 1;
          }
        case Finishing =>
          if queue != [] {
            ClearQueue();
            return;
          }
          status := Finished;
          wire := wire.Finishing();
        case Finished =>
          wire := wire.Deleting();
      }
    }
  }
}
