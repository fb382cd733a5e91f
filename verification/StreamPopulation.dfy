/**
 All the server-to-client streams of one RPC kind, over whole runs: streams are started, connect, register, are
 written to, ended, cancelled by their clients, and delete themselves.
 */
module StreamPopulation {
  import opened Basics
  import opened Subscribers
  import N = NotificationStream

  /**
   `cancelled` is the flag the library's done-notification sets. `since` and `until` are positions in the history: where
   the stream registered, and how far it has followed it, that is, stayed registered.
   */
  datatype Member = Member(stream: N.Stream<Message>, topic: Option<int>, cancelled: bool, since: nat, until: nat)

  /** What happened to the registry: a broadcast, an ending, or a client that went away. */
  datatype Happening = Sent(message: Message) | EndedFor(message: Message) | Left(id: nat)

  /** Streams are known by the order in which they were started. */
  datatype Population = Population(members: seq<Member>, registered: set<nat>, history: seq<Happening>)

  function Newcomer(): Member {
    Member(N.Opened(), None, false, 0, 0)
  }

  /** `HandleRpcs` starts one stream of the kind. */
  function Start(): Population {
    Population([Newcomer()], {}, [])
  }

  predicate Takes(p: Population, id: nat, m: Message) {
    id in p.registered && id < |p.members| && !p.members[id].cancelled && Matches(p.members[id].topic, m)
  }

  // ---------- the steps ----------

  function Broadcast(p: Population, m: Message): Population {
    Population(
      seq(|p.members|, i requires 0 <= i < |p.members| =>
        if Takes(p, i, m) then p.members[i].(stream := N.Written(p.members[i].stream, m), until := |p.history| + 1)
        else p.members[i]),
      (set id | id in p.registered && Takes(p, id, m)),
      p.history + [Sent(m)])
  }

  function EndStreams(p: Population, m: Message): Population {
    Population(
      seq(|p.members|, i requires 0 <= i < |p.members| =>
        if Takes(p, i, m) then p.members[i].(stream := N.Ended(p.members[i].stream)) else p.members[i]),
      {},
      p.history + [EndedFor(m)])
  }

  function Cancel(p: Population, who: nat): Population {
    Population(
      seq(|p.members|, i requires 0 <= i < |p.members| =>
        p.members[i].(cancelled := p.members[i].cancelled || i == who,
                      until := if i in p.registered then |p.history| + 1 else p.members[i].until)),
      p.registered,
      p.history + [Left(who)])
  }

  /** The completion queue hands back an operation of stream `id`; an accept brings the client's topic. */
  function Complete(p: Population, id: nat, op: Operation, topic: Option<int>): Population
    requires id < |p.members|
  {
    var popped := N.Popped(p.members[id].stream, op);
    var member := p.members[id].(stream := N.Proceeded(popped));
    if N.Connects(popped) then
      Population(
        p.members[id := member.(topic := topic, since := |p.history|, until := |p.history|)] + [Newcomer()],
        p.registered + {id},
        p.history)
    else
      p.(members := p.members[id := member])
  }

  datatype Event =
    | Send(message: Message)
    | End(message: Message)
    | ClientLeaves(id: nat)
    | Done(id: nat, op: Operation, topic: Option<int>)

  function Step(p: Population, e: Event): Population {
    match e
    case Send(m) => Broadcast(p, m)
    case End(m) => EndStreams(p, m)
    case ClientLeaves(id) => Cancel(p, id)
    case Done(id, op, topic) => if id < |p.members| then Complete(p, id, op, topic) else p
  }

  /** A completion answers an operation in flight of a stream that still exists; only a connected client can leave. */
  predicate Legal(p: Population, e: Event) {
    match e
    case ClientLeaves(id) => id < |p.members| && p.members[id].stream.count > 0
    case Done(id, op, _) => id < |p.members| && N.Legal(p.members[id].stream, N.Done(op))
    case _ => true
  }

  function Run(es: seq<Event>): Population {
    if es == [] then Start() else Step(Run(es[..|es| - 1]), es[|es| - 1])
  }

  /** Every prefix of a legal run is a legal run, so what holds after every legal run holds at every moment. */
  predicate LegalRun(es: seq<Event>) {
    es == [] || (LegalRun(es[..|es| - 1]) && Legal(Run(es[..|es| - 1]), es[|es| - 1]))
  }

  // ---------- what every run keeps ----------

  /** The messages broadcast between two moments. */
  function SentBetween(h: seq<Happening>, from: nat, to: nat): seq<Message>
    requires from <= to <= |h|
  {
    if from == to then []
    else SentBetween(h, from, to - 1) + if h[to - 1].Sent? then [h[to - 1].message] else []
  }

  ghost predicate LeftBetween(h: seq<Happening>, id: nat, from: nat, to: nat)
    requires from <= to <= |h|
  {
    exists k :: from <= k < to && h[k] == Left(id)
  }

  /** Does a stream with this topic, registered at `from`, stay registered through what happens at `k`? */
  ghost predicate Survives(h: seq<Happening>, id: nat, topic: Option<int>, from: nat, k: nat)
    requires from <= k < |h|
  {
    match h[k]
    case Sent(m) => Matches(topic, m) && !LeftBetween(h, id, from, k)
    case EndedFor(_) => false
    case Left(_) => true
  }

  /** A stream was ended if the happening that took it out of the registry was an ending meant for it. */
  ghost predicate WasEnded(h: seq<Happening>, id: nat, d: Member)
    requires d.since <= d.until <= |h|
  {
    d.until < |h| && h[d.until].EndedFor? && Matches(d.topic, h[d.until].message)
    && !LeftBetween(h, id, d.since, d.until)
  }

  ghost predicate MemberSound(p: Population, id: nat)
    requires id < |p.members|
  {
    var d := p.members[id];
    && N.Sound(d.stream)
    && (d.stream.count == 0 <==> id == |p.members| - 1)
    && (id in p.registered ==> d.stream.count > 0)
    && if d.stream.count == 0 then
         !d.cancelled && d.stream.wire.ends == 0 && d.stream.wire.accepted == []
       else
         && d.since <= d.until <= |p.history|
         && (id in p.registered <==> d.until == |p.history|)
         && (forall k :: d.since <= k < d.until ==> Survives(p.history, id, d.topic, d.since, k))
         && (d.until < |p.history| ==> !Survives(p.history, id, d.topic, d.since, d.until))
         && d.stream.wire.accepted == SentBetween(p.history, d.since, d.until)
         && d.stream.wire.ends == (if WasEnded(p.history, id, d) then 1 else 0)
         && (d.cancelled <==> LeftBetween(p.history, id, d.since, |p.history|))
  }

  ghost predicate Sound(p: Population) {
    && |p.members| > 0
    && (forall id :: id in p.registered ==> id < |p.members|)
    && forall id :: 0 <= id < |p.members| ==> MemberSound(p, id)
  }

  lemma {:induction false} SentBetweenGrows(h: seq<Happening>, x: Happening, from: nat, to: nat)
    requires from <= to <= |h|
    ensures SentBetween(h + [x], from, to) == SentBetween(h, from, to)
  {
    if from < to {
      SentBetweenGrows(h, x, from, to - 1);
    }
  }

  lemma LeftBetweenGrows(h: seq<Happening>, x: Happening, id: nat, from: nat, to: nat)
    requires from <= to <= |h|
    ensures LeftBetween(h + [x], id, from, to) <==> LeftBetween(h, id, from, to)
  {
    if LeftBetween(h, id, from, to) {
      var k :| from <= k < to && h[k] == Left(id);
      assert (h + [x])[k] == Left(id);
    }
  }

  /** What is known about a member's part of the history stays true when the history grows. */
  lemma HistoryGrows(p: Population, id: nat, x: Happening)
    requires id < |p.members| && MemberSound(p, id) && p.members[id].stream.count > 0
    ensures var d, h := p.members[id], p.history + [x];
            && (forall k :: d.since <= k < d.until ==> Survives(h, id, d.topic, d.since, k))
            && (d.until < |p.history| ==> !Survives(h, id, d.topic, d.since, d.until))
            && d.stream.wire.accepted == SentBetween(h, d.since, d.until)
            && (d.until < |p.history| ==> (WasEnded(h, id, d) <==> WasEnded(p.history, id, d)))
            && (LeftBetween(h, id, d.since, |h|) <==> d.cancelled || x == Left(id))
  {
    var d, h := p.members[id], p.history;
    SentBetweenGrows(h, x, d.since, d.until);
    LeftBetweenGrows(h, x, id, d.since, |h|);
    forall k | d.since <= k <= d.until && k < |h|
      ensures Survives(h + [x], id, d.topic, d.since, k) <==> Survives(h, id, d.topic, d.since, k)
      ensures LeftBetween(h + [x], id, d.since, k) <==> LeftBetween(h, id, d.since, k)
    {
      LeftBetweenGrows(h, x, id, d.since, k);
    }
    if x == Left(id) {
      assert (h + [x])[|h|] == Left(id);
    }
  }

  lemma BroadcastKeeps(p: Population, m: Message, id: nat)
    requires Sound(p) && id < |p.members|
    ensures MemberSound(Broadcast(p, m), id)
  {
    var d := p.members[id];
    if d.stream.count > 0 {
      HistoryGrows(p, id, Sent(m));
      if Takes(p, id, m) {
        N.StepIsSound(d.stream, N.Send(m));
      }
    }
  }

  lemma EndStreamsKeeps(p: Population, m: Message, id: nat)
    requires Sound(p) && id < |p.members|
    ensures MemberSound(EndStreams(p, m), id)
  {
    var d := p.members[id];
    if d.stream.count > 0 {
      HistoryGrows(p, id, EndedFor(m));
      LeftBetweenGrows(p.history, EndedFor(m), id, d.since, |p.history|);
      if Takes(p, id, m) {
        N.StepIsSound(d.stream, N.End);
      }
    }
  }

  lemma CancelKeeps(p: Population, who: nat, id: nat)
    requires Sound(p) && id < |p.members| && Legal(p, ClientLeaves(who))
    ensures MemberSound(Cancel(p, who), id)
  {
    var d := p.members[id];
    if d.stream.count > 0 {
      HistoryGrows(p, id, Left(who));
    }
  }

  /** A completion connects a stream exactly if the stream was waiting for its client. */
  lemma ConnectsOnce(s: N.Stream<Message>, op: Operation)
    requires N.Sound(s) && N.Legal(s, N.Done(op))
    ensures N.Connects(N.Popped(s, op)) <==> s.count == 0
    ensures var s' := N.Proceeded(N.Popped(s, op));
            N.Sound(s') && s'.count > 0 && s'.wire.ends == s.wire.ends && s'.wire.accepted == s.wire.accepted
  {
    N.StepIsSound(s, N.Done(op));
  }

  lemma CompleteKeepsOwner(p: Population, e: Event)
    requires Sound(p) && e.Done? && Legal(p, e)
    ensures MemberSound(Step(p, e), e.id)
  {
    assert MemberSound(p, e.id);
    ConnectsOnce(p.members[e.id].stream, e.op);
  }

  /** A member nobody touched stays sound. */
  lemma BystanderKeeps(p: Population, q: Population, id: nat)
    requires id < |p.members| && id < |q.members| && MemberSound(p, id)
    requires q.history == p.history && q.members[id] == p.members[id] && (id in q.registered <==> id in p.registered)
    requires id == |q.members| - 1 <==> id == |p.members| - 1
    ensures MemberSound(q, id)
  {
  }

  lemma CompleteKeepsOthers(p: Population, e: Event, id: nat)
    requires Sound(p) && e.Done? && Legal(p, e) && id < |Step(p, e).members| && id != e.id
    ensures MemberSound(Step(p, e), id)
  {
    assert MemberSound(p, e.id);
    ConnectsOnce(p.members[e.id].stream, e.op);
    var q := Complete(p, e.id, e.op, e.topic);
    if id < |p.members| {
      assert MemberSound(p, id);
      BystanderKeeps(p, q, id);
    } else {
      assert q.members[id] == Newcomer() && N.Sound(N.Opened<Message>());
    }
  }

  lemma StepKeeps(p: Population, e: Event)
    requires Sound(p) && Legal(p, e)
    ensures Sound(Step(p, e))
  {
    forall id: nat | id < |Step(p, e).members| ensures MemberSound(Step(p, e), id) {
      match e
      case Send(m) => BroadcastKeeps(p, m, id);
      case End(m) => EndStreamsKeeps(p, m, id);
      case ClientLeaves(who) => CancelKeeps(p, who, id);
      case Done(owner, _, _) =>
        if id == owner {
          CompleteKeepsOwner(p, e);
        } else {
          CompleteKeepsOthers(p, e, id);
        }
    }
  }

  lemma {:induction false} EveryRunIsSound(es: seq<Event>)
    requires LegalRun(es)
    ensures Sound(Run(es))
  {
    if es == [] {
      assert N.Sound(N.Opened<Message>());
    } else {
      EveryRunIsSound(es[..|es| - 1]);
      StepKeeps(Run(es[..|es| - 1]), es[|es| - 1]);
    }
  }

  /** Exactly one stream waits for a client, at every moment of every run. */
  lemma {:induction false} OneAcceptor(es: seq<Event>)
    requires LegalRun(es)
    ensures var p := Run(es);
            && |p.members| > 0
            && p.members[|p.members| - 1].stream.wire.inFlight == multiset{Accept}
            && forall id :: 0 <= id < |p.members| ==>
                 && (p.members[id].stream.count == 0 <==> id == |p.members| - 1)
                 && (Accept in p.members[id].stream.wire.inFlight <==> id == |p.members| - 1)
  {
    EveryRunIsSound(es);
    var p := Run(es);
    forall id | 0 <= id < |p.members|
      ensures p.members[id].stream.count == 0 <==> id == |p.members| - 1
      ensures Accept in p.members[id].stream.wire.inFlight <==> id == |p.members| - 1
    {
      assert MemberSound(p, id);
    }
    assert MemberSound(p, |p.members| - 1);
  }

  /** The event at `k` completes a `Finish` of the stream, which had finished with nothing left to send. */
  ghost predicate DeletedAt(es: seq<Event>, id: nat, k: nat)
    requires k < |es|
  {
    var before := Run(es[..k]).members;
    && es[k].Done? && es[k].id == id && es[k].op == Finish
    && id < |before| && !before[id].stream.wire.deleted
    && before[id].stream.status == N.Finished
    && before[id].stream.wire.handed == before[id].stream.wire.accepted
  }

  /** Only a completion of its own deletes a stream. */
  lemma DeletedByItself(p: Population, e: Event, id: nat)
    requires Sound(p) && id < |Step(p, e).members| && !(e.Done? && e.id == id)
    requires id < |p.members| ==> !p.members[id].stream.wire.deleted
    ensures !Step(p, e).members[id].stream.wire.deleted
  {
    if e.Done? && e.id < |p.members| && id == |p.members| {
      assert Step(p, e).members[id] == Newcomer();
    }
  }

  lemma DeletedNow(p: Population, e: Event, id: nat)
    requires Sound(p) && Legal(p, e) && id < |Step(p, e).members| && Step(p, e).members[id].stream.wire.deleted
    requires id < |p.members| ==> !p.members[id].stream.wire.deleted
    ensures e.Done? && e.id == id && e.op == Finish && id < |p.members|
    ensures var s := p.members[id].stream; s.status == N.Finished && s.wire.handed == s.wire.accepted
  {
    if e.Done? && e.id == id {
      assert MemberSound(p, id);
      assert Step(p, e).members[id].stream == N.Step(p.members[id].stream, N.Done(e.op));
      N.DeletedByFinish(p.members[id].stream, N.Done(e.op));
    } else {
      DeletedByItself(p, e, id);
    }
  }

  lemma {:induction false} DeletedOnFinish(es: seq<Event>, id: nat)
    requires LegalRun(es) && id < |Run(es).members| && Run(es).members[id].stream.wire.deleted
    ensures exists k :: 0 <= k < |es| && DeletedAt(es, id, k)
  {
    if es != [] {
      var n := |es| - 1;
      var before := Run(es[..n]);
      EveryRunIsSound(es[..n]);
      if id < |before.members| && before.members[id].stream.wire.deleted {
        DeletedOnFinish(es[..n], id);
        var k :| 0 <= k < n && DeletedAt(es[..n], id, k);
        assert es[..n][..k] == es[..k];
        assert DeletedAt(es, id, k);
      } else {
        DeletedNow(before, es[n], id);
        assert DeletedAt(es, id, n);
      }
    }
  }

  /**
   A registered stream is alive and nobody has ended it, so every message goes to such a stream; `end` reaches a
   stream once at most; a stream that deleted itself did so when a `Finish` completed, had passed on everything it was
   given, and had called `Finish` once, or twice if its `end` met it ready.
   */
  lemma {:induction false} EndOfStream(es: seq<Event>, id: nat)
    requires LegalRun(es) && id < |Run(es).members|
    ensures var w := Run(es).members[id].stream.wire;
            && (id in Run(es).registered ==> !w.deleted && w.ends == 0 && w.finishes == 0)
            && w.ends <= 1
            && (w.deleted ==> w.ends == 1 && w.handed == w.accepted && w.inFlight == multiset{})
            && (w.deleted ==> w.finishes == if w.endedReady then 2 else 1)
            && (w.deleted ==> exists k :: 0 <= k < |es| && DeletedAt(es, id, k))
            && |w.inFlight| <= 1
  {
    EveryRunIsSound(es);
    assert MemberSound(Run(es), id);
    if Run(es).members[id].stream.wire.deleted {
      DeletedOnFinish(es, id);
    }
  }

  /**
   What a connected stream was given is exactly what was broadcast from its registration until the first happening it
   does not survive: a message for another space, any ending, or a message after its client left. It is still
   registered exactly if there has been none. So a subscriber to one space is dropped by the first update of another.
   */
  lemma {:induction false} HeardExactly(es: seq<Event>, id: nat)
    requires LegalRun(es) && id < |Run(es).members| && Run(es).members[id].stream.count > 0
    ensures var p, d := Run(es), Run(es).members[id];
            && d.since <= d.until <= |p.history|
            && d.stream.wire.handed + d.stream.queue == SentBetween(p.history, d.since, d.until)
            && (forall k :: d.since <= k < d.until ==> Survives(p.history, id, d.topic, d.since, k))
            && (id in p.registered <==> forall k :: d.since <= k < |p.history| ==>
                                          Survives(p.history, id, d.topic, d.since, k))
  {
    EveryRunIsSound(es);
    assert MemberSound(Run(es), id);
  }

  // ---------- what that means for the topics ----------

  /**
   A broadcast reaches a registered stream whose client is there exactly if the stream asked for every space or for this
   one; then it stays registered, and otherwise it is dropped. It reaches nobody else.
   */
  lemma BroadcastReaches(p: Population, m: Message, id: nat)
    requires id < |p.members|
    ensures var d, d' := p.members[id], Broadcast(p, m).members[id];
            var reached := id in p.registered && !d.cancelled && (d.topic == None || d.topic == Some(m.space));
            && (id in Broadcast(p, m).registered <==> reached)
            && d'.stream.wire.accepted == d.stream.wire.accepted + (if reached then [m] else [])
            && d'.topic == d.topic && d'.cancelled == d.cancelled && d'.stream.wire.ends == d.stream.wire.ends
  {
  }

  /** An ending reaches the same streams that a message would, and leaves nobody registered. */
  lemma EndReaches(p: Population, m: Message, id: nat)
    requires id < |p.members|
    ensures var d, d' := p.members[id], EndStreams(p, m).members[id];
            var reached := id in p.registered && !d.cancelled && (d.topic == None || d.topic == Some(m.space));
            && id !in EndStreams(p, m).registered
            && d'.stream.wire.ends == d.stream.wire.ends + (if reached then 1 else 0)
            && d'.topic == d.topic && d'.cancelled == d.cancelled && d'.stream.wire.accepted == d.stream.wire.accepted
  {
  }

  /** The client of the stream has left between the two moments. */
  ghost predicate ClientLeft(h: seq<Happening>, id: nat, from: nat, to: nat) {
    exists k :: from <= k < to && k < |h| && h[k] == Left(id)
  }

  /** No message since `from` was for another space than the stream's, or came after its client left; and none ended. */
  ghost predicate AllForIt(h: seq<Happening>, id: nat, topic: Option<int>, from: nat) {
    forall k :: from <= k < |h| ==>
      && !h[k].EndedFor?
      && (h[k].Sent? ==> (topic == None || topic == Some(h[k].message.space)) && !ClientLeft(h, id, from, k))
  }

  lemma {:induction false} SentAreFor(h: seq<Happening>, from: nat, to: nat, space: int)
    requires from <= to <= |h|
    requires forall k :: from <= k < to && h[k].Sent? ==> h[k].message.space == space
    ensures forall i :: 0 <= i < |SentBetween(h, from, to)| ==> SentBetween(h, from, to)[i].space == space
  {
    if from < to {
      SentAreFor(h, from, to - 1, space);
    }
  }

  lemma SurvivesAllIff(h: seq<Happening>, id: nat, topic: Option<int>, from: nat)
    requires from <= |h|
    ensures (forall k :: from <= k < |h| ==> Survives(h, id, topic, from, k)) <==> AllForIt(h, id, topic, from)
  {
    forall k | from <= k < |h|
      ensures Survives(h, id, topic, from, k) <==>
              && !h[k].EndedFor?
              && (h[k].Sent? ==> (topic == None || topic == Some(h[k].message.space)) && !ClientLeft(h, id, from, k))
    {
      assert LeftBetween(h, id, from, k) <==> ClientLeft(h, id, from, k);
    }
  }

  /**
   Over any run, a stream that asked for one space was given messages about that space only; a stream is registered
   exactly if every message since it registered was for it, came before its client left, and no ending came; and a
   registered stream was given every message that was sent since it registered.
   */
  lemma {:induction false} HeardOwnOnly(es: seq<Event>, id: nat)
    requires LegalRun(es) && id < |Run(es).members| && Run(es).members[id].stream.count > 0
    ensures var p, d := Run(es), Run(es).members[id];
            && d.since <= |p.history|
            && (forall s, i :: d.topic == Some(s) && 0 <= i < |d.stream.wire.accepted| ==>
                  d.stream.wire.accepted[i].space == s)
            && (id in p.registered <==> AllForIt(p.history, id, d.topic, d.since))
            && (id in p.registered ==> d.stream.wire.accepted == SentBetween(p.history, d.since, |p.history|))
  {
    EveryRunIsSound(es);
    var p, d := Run(es), Run(es).members[id];
    assert MemberSound(p, id);
    SurvivesAllIff(p.history, id, d.topic, d.since);
    if d.topic.Some? {
      forall k | d.since <= k < d.until && p.history[k].Sent? ensures p.history[k].message.space == d.topic.value {
        assert Survives(p.history, id, d.topic, d.since, k);
      }
      SentAreFor(p.history, d.since, d.until, d.topic.value);
    }
  }

  /** What the events of a run did to the registry. */
  function HistoryOf(es: seq<Event>): seq<Happening> {
    if es == [] then []
    else
      var earlier := HistoryOf(es[..|es| - 1]);
      match es[|es| - 1]
      case Send(m) => earlier + [Sent(m)]
      case End(m) => earlier + [EndedFor(m)]
      case ClientLeaves(id) => earlier + [Left(id)]
      case Done(_, _, _) => earlier
  }

  /** The event at `k` is the first completion of the stream: the one that brings its client. */
  ghost predicate ConnectsAt(es: seq<Event>, id: nat, k: nat)
    requires k < |es|
  {
    && es[k].Done? && es[k].id == id && id < |Run(es[..k]).members|
    && Run(es[..k]).members[id].stream.count == 0
  }

  /** A client brings the topic; nothing else gives a stream its topic or its beginning. */
  lemma TopicStays(p: Population, e: Event, id: nat)
    requires id < |p.members| && !(e.Done? && e.id == id)
    ensures var d, d' := p.members[id], Step(p, e).members[id];
            d'.topic == d.topic && d'.since == d.since && (d'.stream.count > 0 <==> d.stream.count > 0)
  {
  }

  lemma TopicOfOwner(p: Population, e: Event)
    requires Sound(p) && e.Done? && Legal(p, e)
    ensures var d, d' := p.members[e.id], Step(p, e).members[e.id];
            if d.stream.count == 0 then d'.topic == e.topic && d'.since == |p.history|
            else d'.topic == d.topic && d'.since == d.since
  {
    assert MemberSound(p, e.id);
    ConnectsOnce(p.members[e.id].stream, e.op);
  }

  lemma TopicAfter(p: Population, e: Event, id: nat)
    requires Sound(p) && Legal(p, e) && id < |Step(p, e).members| && Step(p, e).members[id].stream.count > 0
    ensures id < |p.members|
    ensures var d, d' := p.members[id], Step(p, e).members[id];
            if d.stream.count == 0 then
              e.Done? && e.id == id && d'.topic == e.topic && d'.since == |p.history|
            else d'.topic == d.topic && d'.since == d.since
  {
    assert id < |p.members|;
    if e.Done? && e.id == id {
      TopicOfOwner(p, e);
    } else {
      TopicStays(p, e, id);
    }
  }

  lemma HistoryAfter(p: Population, e: Event)
    ensures Step(p, e).history == p.history + match e
                                              case Send(m) => [Sent(m)]
                                              case End(m) => [EndedFor(m)]
                                              case ClientLeaves(id) => [Left(id)]
                                              case Done(_, _, _) => []
  {
    assert p.history + [] == p.history;
  }

  /** Over any run, what the registry has been through is what was sent, ended and left, in order. */
  lemma {:induction false} HistoryIsTheEvents(es: seq<Event>)
    ensures Run(es).history == HistoryOf(es)
  {
    if es != [] {
      HistoryIsTheEvents(es[..|es| - 1]);
      HistoryAfter(Run(es[..|es| - 1]), es[|es| - 1]);
    }
  }

  /** The client that came at event `k` brought this topic, and the stream counts from that moment. */
  ghost predicate CameAt(es: seq<Event>, id: nat, k: nat, topic: Option<int>, since: nat)
    requires k < |es|
  {
    ConnectsAt(es, id, k) && es[k].topic == topic && |HistoryOf(es[..k])| == since
  }

  lemma CameAtPrefix(es: seq<Event>, n: nat, id: nat, k: nat, topic: Option<int>, since: nat)
    requires k < n <= |es| && CameAt(es[..n], id, k, topic, since)
    ensures CameAt(es, id, k, topic, since)
  {
    assert es[..n][..k] == es[..k];
  }

  /** Over any run, a connected stream has the topic that its client brought. */
  lemma {:induction false} TopicIsTheClients(es: seq<Event>, id: nat)
    requires LegalRun(es) && id < |Run(es).members| && Run(es).members[id].stream.count > 0
    ensures var d := Run(es).members[id]; exists k :: 0 <= k < |es| && CameAt(es, id, k, d.topic, d.since)
  {
    var n := |es| - 1;
    var before, d := Run(es[..n]), Run(es).members[id];
    EveryRunIsSound(es[..n]);
    TopicAfter(before, es[n], id);
    if before.members[id].stream.count == 0 {
      HistoryIsTheEvents(es[..n]);
      assert CameAt(es, id, n, d.topic, d.since);
    } else {
      TopicIsTheClients(es[..n], id);
      var k :| 0 <= k < n && CameAt(es[..n], id, k, d.topic, d.since);
      CameAtPrefix(es, n, id, k, d.topic, d.since);
    }
  }

  // ---------- the registry object takes these steps ----------

  /** A stream knows its topic once it has a client. */
  ghost predicate IsMember(s: Subscriber, d: Member)
    reads s
  {
    s.View() == d.stream && s.cancelled == d.cancelled && (d.stream.count > 0 ==> s.topic == d.topic)
  }

  /** The objects behind a population: stream `id` is `subs[id]`, and the registry holds the registered ones. */
  ghost predicate Represents(r: Registry, subs: seq<Subscriber>, p: Population)
    reads r, subs
  {
    && |subs| == |p.members|
    && (forall i, j :: 0 <= i < j < |subs| ==> subs[i] != subs[j])
    && (forall i :: 0 <= i < |subs| ==> IsMember(subs[i], p.members[i]))
    && (forall id :: id in p.registered ==> id < |subs|)
    && (forall i :: 0 <= i < |subs| ==> (subs[i] in r.registered <==> i in p.registered))
    && (forall s :: s in r.registered ==> s in subs)
  }

  lemma TakesAlike(r: Registry, subs: seq<Subscriber>, p: Population, m: Message, id: nat)
    requires Sound(p) && Represents(r, subs, p) && id < |subs|
    ensures Takes(p, id, m) <==> subs[id] in r.registered && TakesNow(subs[id], m)
  {
    assert MemberSound(p, id) && IsMember(subs[id], p.members[id]);
  }

  /** The broadcast of the registry object is the broadcast of the population. */
  method BroadcastThrough(r: Registry, ghost subs: seq<Subscriber>, ghost p: Population, m: Message)
    requires Sound(p) && Represents(r, subs, p)
    modifies r, r.registered
    ensures Represents(r, subs, Broadcast(p, m))
  {
    ghost var took := set i: nat | i < |subs| && Takes(p, i, m);
    forall i: nat | i < |subs|
      ensures i in took <==> subs[i] in r.registered && TakesNow(subs[i], m)
      ensures IsMember(subs[i], p.members[i]) && MemberSound(p, i)
    {
      TakesAlike(r, subs, p, m, i);
    }
    var received := r.SendMessageToSubscribers(m);
    forall i: nat | i < |subs| ensures IsMember(subs[i], Broadcast(p, m).members[i]) {
      if subs[i] in old(r.registered) {
        assert Served(subs[i], m);
      }
    }
  }

  /** And so is the ending of streams. */
  method EndThrough(r: Registry, ghost subs: seq<Subscriber>, ghost p: Population, m: Message)
    requires Sound(p) && Represents(r, subs, p)
    modifies r, r.registered
    ensures Represents(r, subs, EndStreams(p, m))
  {
    ghost var took := set i: nat | i < |subs| && Takes(p, i, m);
    forall i: nat | i < |subs|
      ensures i in took <==> subs[i] in r.registered && TakesNow(subs[i], m)
      ensures IsMember(subs[i], p.members[i]) && MemberSound(p, i)
    {
      TakesAlike(r, subs, p, m, i);
    }
    r.EndStreamsFor(m);
    forall i: nat | i < |subs| ensures IsMember(subs[i], EndStreams(p, m).members[i]) {
      if subs[i] in old(r.registered) {
        assert Stopped(subs[i], m);
      }
    }
  }
}
