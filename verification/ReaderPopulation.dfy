/**
 All the plate readers over whole runs: they are started, connect and register, are asked for plates, answer, and
 are dropped. Asking is what the server does when a space becomes occupied: it sends the request to the readers of the
 space and then owes one read to each of those that got it.
 */
module ReaderPopulation {
  import opened Basics
  import P = PlateStream

  datatype Member = Member(stream: P.Reader, cancelled: bool)

  /** Readers are known by the order in which they were started. */
  datatype Readers = Readers(members: seq<Member>, registered: set<nat>)

  function Start(): Readers {
    Readers([Member(P.Opened(), false)], {})
  }

  /** Not cancelled, and `shouldReceive`: a reader gets the requests for the space it said it watches. */
  predicate Wants(r: Readers, id: nat, space: int) {
    id < |r.members| && !r.members[id].cancelled && 0 <= r.members[id].stream.spaceId == space
  }

  predicate Takes(r: Readers, id: nat, space: int) {
    id in r.registered && Wants(r, id, space)
  }

  function Asked(s: P.Reader, space: int): P.Reader {
    P.Owed(P.Written(s, P.Request(space)))
  }

  function Ask(r: Readers, space: int): Readers {
    Readers(
      seq(|r.members|, i requires 0 <= i < |r.members| =>
        if Takes(r, i, space) then r.members[i].(stream := Asked(r.members[i].stream, space)) else r.members[i]),
      (set id | id in r.registered && Takes(r, id, space)))
  }

  function Complete(r: Readers, id: nat, op: Operation, message: P.Result): Readers
    requires id < |r.members|
  {
    var popped := P.Popped(r.members[id].stream, op, message);
    var members := r.members[id := r.members[id].(stream := P.Proceeded(popped, P.AsWritten))];
    var calls := P.CallsOf(popped);
    Readers(
      if P.StartSuccessor in calls then members + [Member(P.Opened(), false)] else members,
      r.registered + (if P.Register in calls then {id} else {}) - (if P.Unregister in calls then {id} else {}))
  }

  datatype Event = AskFor(space: int) | ClientLeaves(id: nat) | Done(id: nat, op: Operation, message: P.Result)

  function Step(r: Readers, e: Event): Readers {
    match e
    case AskFor(space) => Ask(r, space)
    case ClientLeaves(id) =>
      if id < |r.members| then r.(members := r.members[id := r.members[id].(cancelled := true)]) else r
    case Done(id, op, message) => if id < |r.members| then Complete(r, id, op, message) else r
  }

  predicate Legal(r: Readers, e: Event) {
    match e
    case AskFor(_) => true
    case ClientLeaves(id) => id < |r.members| && r.members[id].stream.count > 0
    case Done(id, op, message) => id < |r.members| && P.Legal(r.members[id].stream, P.Done(op, message))
  }

  function Run(es: seq<Event>): Readers {
    if es == [] then Start() else Step(Run(es[..|es| - 1]), es[|es| - 1])
  }

  predicate LegalRun(es: seq<Event>) {
    es == [] || (LegalRun(es[..|es| - 1]) && Legal(Run(es[..|es| - 1]), es[|es| - 1]))
  }

  // ---------- what every run keeps ----------

  /**
   Nothing ends a reader; it owes one read for its registration and one for every request it accepted; and only a reader
   without a client has an accept in flight.
   */
  ghost predicate StreamSound(s: P.Reader) {
    && P.Consistent(s)
    && !s.finish && s.status != P.Finished
    && s.wire.owed == (if s.count == 0 then 0 else |s.wire.accepted| + 1)
    && (s.count == 0 ==> s.wire.inFlight == multiset{Accept})
    && (s.count > 0 ==> Accept !in s.wire.inFlight)
  }

  ghost predicate MemberSound(r: Readers, id: nat)
    requires id < |r.members|
  {
    && StreamSound(r.members[id].stream)
    && (r.members[id].stream.count == 0 <==> id == |r.members| - 1)
    && (id in r.registered || r.members[id].cancelled ==> r.members[id].stream.count > 0)
  }

  ghost predicate Sound(r: Readers) {
    && |r.members| > 0
    && (forall id :: id in r.registered ==> id < |r.members|)
    && forall id :: 0 <= id < |r.members| ==> MemberSound(r, id)
  }

  lemma AskedIsSound(s: P.Reader, space: int)
    requires StreamSound(s) && s.count > 0
    ensures StreamSound(Asked(s, space)) && Asked(s, space).count > 0
  {
    P.StepIsConsistent(s, P.Send(P.Request(space)), P.AsWritten);
    P.StepIsConsistent(P.Written(s, P.Request(space)), P.Owe, P.AsWritten);
  }

  lemma TickOwesNothingNew(s: P.Reader)
    requires StreamSound(s) && s.count > 0
    ensures var s' := P.Proceeded(s, P.AsWritten);
            && !s'.finish && s'.status != P.Finished && s'.count > 0
            && s'.wire.owed == s.wire.owed && s'.wire.accepted == s.wire.accepted
            && Accept !in s'.wire.inFlight
  {
    match s.status
    case Reading => assert P.Connected(s) == s;
    case Writing => assert P.Connected(s) == s;
    case _ =>
  }

  /** A tick starts a successor and registers its reader exactly if it is its first; and none unregisters it. */
  predicate FirstTickAlone(calls: seq<P.Call>, s: P.Reader) {
    && (P.StartSuccessor in calls <==> s.count == 0)
    && (P.Register in calls <==> s.count == 0)
    && (!s.finish ==> P.Unregister !in calls)
  }

  lemma RegistersOnce(s: P.Reader)
    requires P.Consistent(s) && s.status != P.Finished
    ensures FirstTickAlone(P.CallsOf(s), s)
  {
    P.TickAsks(s, P.AsWritten);
    if s.count == 0 {
      assert P.CallsOf(s)[0] == P.StartSuccessor && P.CallsOf(s)[1] == P.Register;
    }
  }

  lemma CompletionIsSound(s: P.Reader, op: Operation, message: P.Result)
    requires StreamSound(s) && P.Legal(s, P.Done(op, message))
    ensures var s' := P.Proceeded(P.Popped(s, op, message), P.AsWritten); StreamSound(s') && s'.count > 0
    ensures FirstTickAlone(P.CallsOf(P.Popped(s, op, message)), s)
  {
    var popped := P.Popped(s, op, message);
    assert P.Consistent(popped);
    P.TickIsConsistent(popped, P.AsWritten);
    RegistersOnce(popped);
    if s.count > 0 {
      TickOwesNothingNew(popped);
    }
  }

  lemma StepKeeps(r: Readers, e: Event)
    requires Sound(r) && Legal(r, e)
    ensures Sound(Step(r, e))
  {
    var q := Step(r, e);
    if e.Done? {
      assert MemberSound(r, e.id);
      CompletionIsSound(r.members[e.id].stream, e.op, e.message);
    }
    forall id: nat | id < |q.members| ensures MemberSound(q, id) {
      if id < |r.members| {
        assert MemberSound(r, id);
        if e.AskFor? && Takes(r, id, e.space) {
          AskedIsSound(r.members[id].stream, e.space);
        }
      }
    }
  }

  lemma {:induction false} EveryRunIsSound(es: seq<Event>)
    requires LegalRun(es)
    ensures Sound(Run(es))
  {
    if es != [] {
      EveryRunIsSound(es[..|es| - 1]);
      StepKeeps(Run(es[..|es| - 1]), es[|es| - 1]);
    }
  }

  lemma AcceptorIff(r: Readers, id: nat)
    requires Sound(r) && id < |r.members|
    ensures r.members[id].stream.count == 0 <==> id == |r.members| - 1
    ensures Accept in r.members[id].stream.wire.inFlight <==> id == |r.members| - 1
    ensures id == |r.members| - 1 ==> r.members[id].stream.wire.inFlight == multiset{Accept}
  {
    assert MemberSound(r, id);
  }

  /** Exactly one reader waits for a client, at every moment of every run: the one that was started last. */
  lemma {:induction false} OneAcceptor(es: seq<Event>)
    requires LegalRun(es)
    ensures var r := Run(es);
            && |r.members| > 0
            && r.members[|r.members| - 1].stream.wire.inFlight == multiset{Accept}
            && forall id :: 0 <= id < |r.members| ==>
                 && (r.members[id].stream.count == 0 <==> id == |r.members| - 1)
                 && (Accept in r.members[id].stream.wire.inFlight <==> id == |r.members| - 1)
  {
    EveryRunIsSound(es);
    var r := Run(es);
    forall id | 0 <= id < |r.members|
      ensures r.members[id].stream.count == 0 <==> id == |r.members| - 1
      ensures Accept in r.members[id].stream.wire.inFlight <==> id == |r.members| - 1
    {
      AcceptorIff(r, id);
    }
    AcceptorIff(r, |r.members| - 1);
  }

  lemma NotLeftAt(r: Readers, e: Event, id: nat)
    requires Legal(r, e) && |Step(r, e).members| <= id
    ensures e != ClientLeaves(id) && |r.members| <= id
  {
  }

  /** A reader that was not started yet has no client that could leave. */
  lemma {:induction false} NotLeftYet(es: seq<Event>, id: nat)
    requires LegalRun(es) && |Run(es).members| <= id
    ensures ClientLeaves(id) !in es
  {
    if es != [] {
      var init, e := es[..|es| - 1], es[|es| - 1];
      NotLeftAt(Run(init), e, id);
      NotLeftYet(init, id);
      assert es == init + [e];
    }
  }

  lemma CancelledAfter(r: Readers, e: Event, id: nat)
    requires Legal(r, e) && id < |Step(r, e).members|
    ensures Step(r, e).members[id].cancelled <==>
            (id < |r.members| && r.members[id].cancelled) || e == ClientLeaves(id)
  {
  }

  /** Over any run, a reader counts as cancelled exactly if its client left. */
  lemma {:induction false} CancelledIff(es: seq<Event>, id: nat)
    requires LegalRun(es) && id < |Run(es).members|
    ensures Run(es).members[id].cancelled <==> ClientLeaves(id) in es
  {
    if es != [] {
      var init, e := es[..|es| - 1], es[|es| - 1];
      CancelledAfter(Run(init), e, id);
      assert ClientLeaves(id) in es <==> ClientLeaves(id) in init || e == ClientLeaves(id) by {
        assert es == init + [e];
      }
      if id < |Run(init).members| {
        CancelledIff(init, id);
      } else {
        NotLeftYet(init, id);
      }
    }
  }

  /** What the tick of an event asks of the server. */
  function CallsAt(r: Readers, e: Event): seq<P.Call> {
    match e
    case Done(id, op, message) =>
      if id < |r.members| then P.CallsOf(P.Popped(r.members[id].stream, op, message)) else []
    case _ => []
  }

  /** How many ticks of a run asked for the call. */
  function CallsMade(es: seq<Event>, call: P.Call): nat {
    if es == [] then 0
    else CallsMade(es[..|es| - 1], call) + if call in CallsAt(Run(es[..|es| - 1]), es[|es| - 1]) then 1 else 0
  }

  lemma TickStarts(r: Readers, e: Event)
    requires Sound(r) && Legal(r, e)
    ensures |Step(r, e).members| == |r.members| + if P.StartSuccessor in CallsAt(r, e) then 1 else 0
    ensures P.Register in CallsAt(r, e) <==> P.StartSuccessor in CallsAt(r, e)
  {
    if e.Done? {
      assert MemberSound(r, e.id);
      RegistersOnce(P.Popped(r.members[e.id].stream, e.op, e.message));
    }
  }

  /**
   Over any run, every reader but the first was started as a successor, by one tick: the successors started, and the
   registrations made, are one fewer than the readers.
   */
  lemma {:induction false} OneSuccessorEach(es: seq<Event>)
    requires LegalRun(es)
    ensures CallsMade(es, P.StartSuccessor) == |Run(es).members| - 1
    ensures CallsMade(es, P.Register) == |Run(es).members| - 1
  {
    if es != [] {
      OneSuccessorEach(es[..|es| - 1]);
      EveryRunIsSound(es[..|es| - 1]);
      TickStarts(Run(es[..|es| - 1]), es[|es| - 1]);
    }
  }

  /**
   For every connected reader, after every server operation of every run, and whatever states the writes and reads met:
   the results handled and the reads still owed make one for each request accepted, and one for the registration.
   */
  lemma {:induction false} Conservation(es: seq<Event>, id: nat)
    requires LegalRun(es) && id < |Run(es).members| && Run(es).members[id].stream.count > 0
    ensures var s := Run(es).members[id].stream;
            && |s.wire.handled| + s.readQueue == |s.wire.accepted| + 1
            && s.wire.accepted == s.wire.handed + s.queue
            && s.wire.finishes == 0 && !s.wire.deleted
  {
    EveryRunIsSound(es);
    assert MemberSound(Run(es), id);
  }

  // ---------- who is asked ----------

  /** An event, and the readers it met. */
  datatype Met = Met(readers: Readers, event: Event)

  function History(es: seq<Event>): (h: seq<Met>)
    ensures |h| == |es|
  {
    if es == [] then [] else History(es[..|es| - 1]) + [Met(Run(es[..|es| - 1]), es[|es| - 1])]
  }

  lemma {:induction false} HistoryIs(es: seq<Event>, k: nat)
    requires k < |es|
    ensures History(es)[k] == Met(Run(es[..k]), es[k])
  {
    if k < |es| - 1 {
      HistoryIs(es[..|es| - 1], k);
      assert es[..|es| - 1][..k] == es[..k];
    }
  }

  predicate Connects(met: Met, id: nat) {
    && met.event.Done? && met.event.id == id
    && id < |met.readers.members| && met.readers.members[id].stream.count == 0
  }

  /** The event does not drop a registered reader: if it is a request, the reader wants it. */
  predicate Survives(met: Met, id: nat) {
    met.event.AskFor? ==> Wants(met.readers, id, met.event.space)
  }

  /** The reader connected at `since`, and the first request after that it did not want is the event at `until`. */
  ghost predicate Followed(h: seq<Met>, id: nat, since: nat, until: nat) {
    && since < until <= |h| && Connects(h[since], id)
    && (forall k :: since < k < until ==> Survives(h[k], id))
    && (until < |h| ==> !Survives(h[until], id))
  }

  /** The requests among the events from `from` up to `to`. */
  function RequestsBetween(h: seq<Met>, from: nat, to: nat): seq<P.Request>
    requires from <= to <= |h|
  {
    if from == to then []
    else
      RequestsBetween(h, from, to - 1)
      + if h[to - 1].event.AskFor? then [P.Request(h[to - 1].event.space)] else []
  }

  lemma {:induction false} RequestsGrow(h: seq<Met>, met: Met, from: nat, to: nat)
    requires from <= to <= |h|
    ensures RequestsBetween(h + [met], from, to) == RequestsBetween(h, from, to)
  {
    if from < to {
      RequestsGrow(h, met, from, to - 1);
    }
  }

  lemma CompletionAccepts(s: P.Reader, op: Operation, message: P.Result)
    requires StreamSound(s) && P.Legal(s, P.Done(op, message))
    ensures P.Proceeded(P.Popped(s, op, message), P.AsWritten).wire.accepted == s.wire.accepted
  {
    var popped := P.Popped(s, op, message);
    if s.count > 0 {
      assert P.Connected(popped) == popped;
    }
  }

  lemma AskedReader(r: Readers, space: int, id: nat)
    requires id < |r.members|
    ensures id in Ask(r, space).registered <==> Takes(r, id, space)
    ensures Ask(r, space).members[id].stream.wire.accepted ==
            r.members[id].stream.wire.accepted + if Takes(r, id, space) then [P.Request(space)] else []
    ensures Ask(r, space).members[id].stream.count == r.members[id].stream.count
  {
  }

  lemma OwnerCompleted(r: Readers, id: nat, op: Operation, message: P.Result)
    requires Sound(r) && Legal(r, Done(id, op, message))
    ensures var s, s' := r.members[id].stream, Complete(r, id, op, message).members[id].stream;
            && s'.wire.accepted == s.wire.accepted && s'.count > 0
            && FirstTickAlone(P.CallsOf(P.Popped(s, op, message)), s) && !s.finish
  {
    assert MemberSound(r, id);
    CompletionIsSound(r.members[id].stream, op, message);
    CompletionAccepts(r.members[id].stream, op, message);
  }

  lemma CompletedReader(r: Readers, e: Event, id: nat)
    requires Sound(r) && e.Done? && Legal(r, e) && id < |r.members|
    ensures var r' := Step(r, e);
            && (id in r'.registered <==> id in r.registered || (e.id == id && r.members[id].stream.count == 0))
            && r'.members[id].stream.wire.accepted == r.members[id].stream.wire.accepted
            && (r'.members[id].stream.count > 0 <==> r.members[id].stream.count > 0 || e.id == id)
  {
    OwnerCompleted(r, e.id, e.op, e.message);
    if id != e.id {
      assert Step(r, e).members[id] == r.members[id];
    }
  }

  /** What a step does to the registration of a reader, and to the requests it accepted. */
  lemma ReaderAfter(r: Readers, e: Event, id: nat)
    requires Sound(r) && Legal(r, e) && id < |r.members|
    ensures id in Step(r, e).registered <==>
            match e
            case AskFor(space) => Takes(r, id, space)
            case ClientLeaves(_) => id in r.registered
            case Done(owner, _, _) => id in r.registered || (owner == id && r.members[id].stream.count == 0)
    ensures Step(r, e).members[id].stream.wire.accepted ==
            r.members[id].stream.wire.accepted
            + if e.AskFor? && Takes(r, id, e.space) then [P.Request(e.space)] else []
    ensures r.members[id].stream.count > 0 ==> Step(r, e).members[id].stream.count > 0
    ensures r.members[id].stream.count == 0 && Step(r, e).members[id].stream.count > 0 ==> e.Done? && e.id == id
  {
    match e
    case AskFor(space) => AskedReader(r, space, id);
    case Done(_, _, _) => CompletedReader(r, e, id);
    case _ =>
  }

  /** What a reader was asked for, and whether it is registered, told by how long it followed the requests. */
  ghost predicate Tells(accepted: seq<P.Request>, registered: bool, h: seq<Met>, id: nat, since: nat, until: nat) {
    && Followed(h, id, since, until)
    && accepted == RequestsBetween(h, since + 1, until)
    && (registered <==> until == |h|)
  }

  lemma TellsOn(accepted: seq<P.Request>, registered: bool, h: seq<Met>, met: Met, id: nat, since: nat, until: nat)
    requires Tells(accepted, registered, h, id, since, until)
    ensures var survives := Survives(met, id);
            Tells(accepted + if met.event.AskFor? && registered && survives then [P.Request(met.event.space)] else [],
                  registered && survives, h + [met], id, since, if registered && survives then |h| + 1 else until)
  {
    RequestsGrow(h, met, since + 1, until);
  }

  lemma FirstHeard(r: Readers, e: Event, h: seq<Met>, id: nat)
    requires Sound(r) && Legal(r, e) && id < |Step(r, e).members| && Step(r, e).members[id].stream.count > 0
    requires id < |r.members| ==> r.members[id].stream.count == 0
    ensures var r' := Step(r, e);
            Tells(r'.members[id].stream.wire.accepted, id in r'.registered, h + [Met(r, e)], id, |h|, |h| + 1)
  {
    assert id < |r.members|;
    assert MemberSound(r, id);
    ReaderAfter(r, e, id);
  }

  lemma HeardOn(r: Readers, e: Event, h: seq<Met>, id: nat, since: nat, until: nat)
    requires Sound(r) && Legal(r, e) && id < |r.members| && r.members[id].stream.count > 0
    requires Tells(r.members[id].stream.wire.accepted, id in r.registered, h, id, since, until)
    ensures var r' := Step(r, e);
            Tells(r'.members[id].stream.wire.accepted, id in r'.registered, h + [Met(r, e)], id, since,
                  if id in r'.registered then |h| + 1 else until)
  {
    ReaderAfter(r, e, id);
    TellsOn(r.members[id].stream.wire.accepted, id in r.registered, h, Met(r, e), id, since, until);
  }

  lemma {:induction false} ToldByHistory(es: seq<Event>, id: nat) returns (since: nat, until: nat)
    requires LegalRun(es) && id < |Run(es).members| && Run(es).members[id].stream.count > 0
    ensures var r := Run(es);
            Tells(r.members[id].stream.wire.accepted, id in r.registered, History(es), id, since, until)
  {
    var n := |es| - 1;
    var before := Run(es[..n]);
    EveryRunIsSound(es[..n]);
    if id < |before.members| && before.members[id].stream.count > 0 {
      since, until := ToldByHistory(es[..n], id);
      HeardOn(before, es[n], History(es[..n]), id, since, until);
      until := if id in Run(es).registered then |es| else until;
    } else {
      FirstHeard(before, es[n], History(es[..n]), id);
      since, until := n, |es|;
    }
  }

  /**
   What a connected reader was asked for is exactly what was requested after it connected, of whatever reader, until the
   first request that it did not want: for another space, before it registered, or after its client left. It is still
   registered exactly if there has been none.
   */
  lemma {:induction false} HeardExactly(es: seq<Event>, id: nat) returns (since: nat, until: nat)
    requires LegalRun(es) && id < |Run(es).members| && Run(es).members[id].stream.count > 0
    ensures Followed(History(es), id, since, until)
    ensures Run(es).members[id].stream.wire.accepted == RequestsBetween(History(es), since + 1, until)
    ensures id in Run(es).registered <==> until == |es|
  {
    since, until := ToldByHistory(es, id);
  }

  ghost predicate SurvivesFrom(h: seq<Met>, id: nat, from: nat) {
    forall k :: from <= k < |h| ==> Survives(h[k], id)
  }

  /** It connected at some event, and every request since met it uncancelled and watching the space it was for. */
  ghost predicate NeverDropped(h: seq<Met>, id: nat) {
    exists since :: 0 <= since < |h| && Connects(h[since], id) && SurvivesFrom(h, id, since + 1)
  }

  lemma SurvivesOneMore(h: seq<Met>, met: Met, id: nat, from: nat)
    requires from <= |h|
    ensures SurvivesFrom(h + [met], id, from) <==> SurvivesFrom(h, id, from) && Survives(met, id)
  {
    assert (h + [met])[|h|] == met;
    assert forall k :: from <= k < |h| ==> (h + [met])[k] == h[k];
  }

  lemma NeverDroppedOneMore(h: seq<Met>, met: Met, id: nat)
    ensures NeverDropped(h + [met], id) <==> Connects(met, id) || (NeverDropped(h, id) && Survives(met, id))
  {
    var h' := h + [met];
    assert SurvivesFrom(h', id, |h| + 1) && h'[|h|] == met;
    if NeverDropped(h, id) && Survives(met, id) {
      var since :| 0 <= since < |h| && Connects(h[since], id) && SurvivesFrom(h, id, since + 1);
      SurvivesOneMore(h, met, id, since + 1);
      assert Connects(h'[since], id);
    }
    if NeverDropped(h', id) && !Connects(met, id) {
      var since :| 0 <= since < |h'| && Connects(h'[since], id) && SurvivesFrom(h', id, since + 1);
      SurvivesOneMore(h, met, id, since + 1);
      assert Connects(h[since], id);
    }
  }

  /**
   A reader is registered exactly if it connected and every request since then was one it wanted. So one request for any
   other space, even before the reader has said which one it watches, drops it for good.
   */
  lemma {:induction false} RegisteredIff(es: seq<Event>, id: nat)
    requires LegalRun(es)
    ensures id in Run(es).registered <==> NeverDropped(History(es), id)
  {
    if es != [] {
      var n := |es| - 1;
      var before := Run(es[..n]);
      RegisteredIff(es[..n], id);
      EveryRunIsSound(es[..n]);
      NeverDroppedOneMore(History(es[..n]), Met(before, es[n]), id);
      if id < |before.members| {
        ReaderAfter(before, es[n], id);
      }
    }
  }

  /**
   A request reaches a registered reader whose client is there exactly if it is for the space the reader said it
   watches; then it stays registered and owes one read more, and otherwise it is dropped. It reaches nobody else.
   */
  lemma RequestReaches(r: Readers, space: int, id: nat)
    requires id < |r.members|
    ensures var d, d' := r.members[id], Ask(r, space).members[id];
            var reached := id in r.registered && !d.cancelled && d.stream.spaceId >= 0 && d.stream.spaceId == space;
            && (id in Ask(r, space).registered <==> reached)
            && d'.stream.wire.accepted == d.stream.wire.accepted + (if reached then [P.Request(space)] else [])
            && d'.stream.readQueue == d.stream.readQueue + (if reached then 1 else 0)
            && d'.stream.spaceId == d.stream.spaceId && d'.cancelled == d.cancelled
  {
  }

  /** What a step does to one stream. */
  lemma StreamAfter(r: Readers, e: Event, id: nat)
    requires id < |Step(r, e).members|
    ensures var s' := Step(r, e).members[id].stream;
            if id >= |r.members| then s' == P.Opened()
            else if e.AskFor? && Takes(r, id, e.space) then s' == Asked(r.members[id].stream, e.space)
            else if e.Done? && e.id == id then
              s' == P.Proceeded(P.Popped(r.members[id].stream, e.op, e.message), P.AsWritten)
            else s' == r.members[id].stream
  {
  }

  /** The client registered its reader for the space, in one of these results. */
  predicate RegisteredFor(handled: seq<P.Result>, space: int) {
    exists k :: 0 <= k < |handled| && handled[k].registration && handled[k].space == space
  }

  lemma RegisteredForMore(handled: seq<P.Result>, more: seq<P.Result>, space: int)
    requires handled <= more && RegisteredFor(handled, space)
    ensures RegisteredFor(more, space)
  {
    var k :| 0 <= k < |handled| && handled[k].registration && handled[k].space == space;
    assert more[k] == handled[k];
  }

  lemma {:induction false} NamedIsRegistered(handled: seq<P.Result>)
    ensures P.SpaceNamed(handled) == -1 || RegisteredFor(handled, P.SpaceNamed(handled))
  {
    if handled != [] {
      var n := |handled| - 1;
      NamedIsRegistered(handled[..n]);
      if handled[n].registration {
      } else if P.SpaceNamed(handled[..n]) != -1 {
        RegisteredForMore(handled[..n], handled, P.SpaceNamed(handled[..n]));
      }
    }
  }

  /** The reader watches the space it was last registered for, and was asked only for spaces it was registered for. */
  ghost predicate AskedForOwn(s: P.Reader) {
    && P.NamesSpace(s)
    && forall k :: 0 <= k < |s.wire.accepted| ==> RegisteredFor(s.wire.handled, s.wire.accepted[k].space)
  }

  lemma AskedKeepsOwn(s: P.Reader)
    requires AskedForOwn(s) && s.spaceId >= 0
    ensures AskedForOwn(Asked(s, s.spaceId))
  {
    NamedIsRegistered(s.wire.handled);
    P.StepNamesSpace(s, P.Send(P.Request(s.spaceId)), P.AsWritten);
    P.StepNamesSpace(P.Written(s, P.Request(s.spaceId)), P.Owe, P.AsWritten);
  }

  lemma TickHandles(s: P.Reader)
    requires P.Consistent(s) && s.count > 0
    ensures s.wire.handled <= P.Proceeded(s, P.AsWritten).wire.handled
  {
    assert P.Connected(s) == s;
    match s.status
    case Reading => P.ReadTickNames(s);
    case Writing => P.WriteTickNames(s, P.AsWritten);
    case _ =>
  }

  lemma HandledGrows(s: P.Reader, op: Operation, message: P.Result)
    requires StreamSound(s)
    ensures s.wire.handled <= P.Proceeded(P.Popped(s, op, message), P.AsWritten).wire.handled
  {
    if s.count > 0 {
      TickHandles(P.Popped(s, op, message));
    }
  }

  lemma StayRegisteredFor(accepted: seq<P.Request>, handled: seq<P.Result>, more: seq<P.Result>)
    requires handled <= more
    requires forall k :: 0 <= k < |accepted| ==> RegisteredFor(handled, accepted[k].space)
    ensures forall k :: 0 <= k < |accepted| ==> RegisteredFor(more, accepted[k].space)
  {
    forall k | 0 <= k < |accepted| ensures RegisteredFor(more, accepted[k].space) {
      RegisteredForMore(handled, more, accepted[k].space);
    }
  }

  lemma OwnKept(s: P.Reader, s': P.Reader)
    requires AskedForOwn(s) && P.NamesSpace(s')
    requires s'.wire.accepted == s.wire.accepted && s.wire.handled <= s'.wire.handled
    ensures AskedForOwn(s')
  {
    StayRegisteredFor(s.wire.accepted, s.wire.handled, s'.wire.handled);
  }

  lemma CompletionKeepsOwn(s: P.Reader, s': P.Reader, op: Operation, message: P.Result)
    requires StreamSound(s) && P.Legal(s, P.Done(op, message)) && AskedForOwn(s)
    requires s' == P.Step(s, P.Done(op, message), P.AsWritten)
    ensures AskedForOwn(s')
  {
    assert P.NamesSpace(s') by {
      P.StepNamesSpace(s, P.Done(op, message), P.AsWritten);
    }
    assert s'.wire.accepted == s.wire.accepted by {
      CompletionAccepts(s, op, message);
    }
    assert s.wire.handled <= s'.wire.handled by {
      HandledGrows(s, op, message);
    }
    OwnKept(s, s');
  }

  lemma {:induction false} AskedForOwnOnly(es: seq<Event>, id: nat)
    requires LegalRun(es) && id < |Run(es).members|
    ensures AskedForOwn(Run(es).members[id].stream)
  {
    if es != [] {
      var before, e := Run(es[..|es| - 1]), es[|es| - 1];
      EveryRunIsSound(es[..|es| - 1]);
      StreamAfter(before, e, id);
      if id < |before.members| {
        AskedForOwnOnly(es[..|es| - 1], id);
        assert MemberSound(before, id);
        if e.AskFor? && Takes(before, id, e.space) {
          AskedKeepsOwn(before.members[id].stream);
        } else if e.Done? && e.id == id {
          CompletionKeepsOwn(before.members[id].stream, Run(es).members[id].stream, e.op, e.message);
        }
      }
    }
  }

  /** Over any run, every request a reader was given is for a space that its client had registered it for. */
  lemma {:induction false} RequestsAreForOwnSpaces(es: seq<Event>, id: nat)
    requires LegalRun(es) && id < |Run(es).members|
    ensures var wire := Run(es).members[id].stream.wire;
            forall k :: 0 <= k < |wire.accepted| ==> RegisteredFor(wire.handled, wire.accepted[k].space)
  {
    AskedForOwnOnly(es, id);
  }

  // ---------- safe requests ----------

  /** A server that asks a reader only while it waits, or reads with nothing queued. */
  predicate Patient(r: Readers, e: Event) {
    e.AskFor? ==>
      forall id :: 0 <= id < |r.members| && Takes(r, id, e.space) ==>
        var s := r.members[id].stream; s.status == P.Waiting || (s.status == P.Reading && s.queue == [])
  }

  predicate PatientRun(es: seq<Event>) {
    es == [] || (PatientRun(es[..|es| - 1]) && Patient(Run(es[..|es| - 1]), es[|es| - 1]))
  }

  /** In the design rule's states, with no hazard to come. */
  ghost predicate Calm(s: P.Reader) {
    P.Disciplined(s) && P.Safe(s)
  }

  lemma AskedIsCalm(s: P.Reader, space: int)
    requires StreamSound(s) && Calm(s) && s.count > 0
    requires s.status == P.Waiting || (s.status == P.Reading && s.queue == [])
    ensures Calm(Asked(s, space))
  {
    var written := P.Written(s, P.Request(space));
    P.StepIsConsistent(s, P.Send(P.Request(space)), P.AsWritten);
    P.DisciplinedStepIff(s, P.Send(P.Request(space)), P.AsWritten);
    P.DisciplinedStepIff(written, P.Owe, P.AsWritten);
  }

  lemma CompletionIsCalm(s: P.Reader, op: Operation, message: P.Result)
    requires StreamSound(s) && Calm(s) && P.Legal(s, P.Done(op, message))
    ensures Calm(P.Proceeded(P.Popped(s, op, message), P.AsWritten))
  {
    P.DisciplinedStepIff(s, P.Done(op, message), P.AsWritten);
    if s.status in {P.Reading, P.Writing} {
      P.CompletionIsSafeIff(s, P.Done(op, message));
    }
  }

  ghost predicate AllCalm(r: Readers) {
    forall id :: 0 <= id < |r.members| ==> Calm(r.members[id].stream)
  }

  lemma StepIsCalm(r: Readers, e: Event, id: nat)
    requires Sound(r) && AllCalm(r) && Legal(r, e) && Patient(r, e) && id < |Step(r, e).members|
    ensures Calm(Step(r, e).members[id].stream)
  {
    StreamAfter(r, e, id);
    if id >= |r.members| {
      P.OpenedIsDisciplined();
    } else {
      assert MemberSound(r, id);
      if e.AskFor? && Takes(r, id, e.space) {
        AskedIsCalm(r.members[id].stream, e.space);
      } else if e.Done? && e.id == id {
        CompletionIsCalm(r.members[id].stream, e.op, e.message);
      }
    }
  }

  /**
   Asked only while it waits, or reads with nothing queued, every reader keeps the design rule with the code as it is
   written: one operation in flight at most, and each result the client sent is handled exactly once, in order.
   */
  lemma {:induction false} PatientRunsAreDisciplined(es: seq<Event>)
    requires LegalRun(es) && PatientRun(es)
    ensures AllCalm(Run(es))
  {
    if es != [] {
      PatientRunsAreDisciplined(es[..|es| - 1]);
      EveryRunIsSound(es[..|es| - 1]);
      forall id: nat | id < |Run(es).members| ensures Calm(Run(es).members[id].stream) {
        StepIsCalm(Run(es[..|es| - 1]), es[|es| - 1], id);
      }
    }
  }
}
