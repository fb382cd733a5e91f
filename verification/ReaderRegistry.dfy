/**
 The registry of the plate readers, and how the server asks for a plate through it: the erasing loop of `Subscribers`
 over another kind of stream, and the loop in server/server.cpp that owes a read to every reader that got the request.
 */
module ReaderRegistry {
  import opened Basics
  import P = PlateStream
  import R = ReaderPopulation
  import S = Subscribers

  type Reader = P.PlateReader

  predicate TakesNow(s: Reader, m: P.Request)
    reads s
  {
    !s.cancelled && 0 <= s.spaceId == m.space
  }

  ghost function Takers(readers: set<Reader>, m: P.Request): set<Reader>
    reads readers
  {
    set s | s in readers && TakesNow(s, m)
  }

  /** What the broadcast of a request does to a registered reader. */
  twostate predicate Served(s: Reader, m: P.Request)
    reads s
  {
    && s.View() == (if old(TakesNow(s, m)) then P.Written(old(s.View()), m) else old(s.View()))
    && s.cancelled == old(s.cancelled)
  }

  /** What asking for a plate does to it: the request is written, and then a read is owed. */
  twostate predicate AskedFor(s: Reader, m: P.Request)
    reads s
  {
    && s.View() == (if old(TakesNow(s, m)) then P.Owed(P.Written(old(s.View()), m)) else old(s.View()))
    && s.cancelled == old(s.cancelled)
  }

  twostate predicate ReadFrom(s: Reader)
    reads s
  {
    s.View() == P.Owed(old(s.View())) && s.cancelled == old(s.cancelled)
  }

  lemma {:induction false} ListsOnce<T>(all: seq<T>, s: set<T>)
    requires S.Lists(all, s)
    ensures forall i, j :: 0 <= i < j < |all| ==> all[i] != all[j]
    ensures forall x :: x in all <==> x in s
  {
    if all != [] {
      var init, last := all[..|all| - 1], all[|all| - 1];
      ListsOnce(init, s - {last});
      assert all == init + [last];
    }
  }

  class Registry {
    var registered: set<Reader>

    constructor ()
      ensures registered == {}
    {
      registered := {};
    }

    method RegisterSubscriber(reader: Reader)
      modifies this
      ensures registered == old(registered) + {reader}
    {
      registered := registered + {reader};
    }

    /** One turn of the loop below: the reader is written to, or erased. */
    method Offer(reader: Reader, m: P.Request) returns (takes: bool)
      modifies this, reader
      ensures takes <==> old(TakesNow(reader, m))
      ensures Served(reader, m)
      ensures registered == if takes then old(registered) else old(registered) - {reader}
    {
      takes := !reader.cancelled && 0 <= reader.spaceId == m.space;
      if takes {
        reader.Write(m);
      } else {
        registered := registered - {reader};
      }
    }

    method SendMessageToSubscribers(m: P.Request) returns (received: seq<Reader>)
      modifies this, registered
      ensures registered == old(Takers(registered, m))
      ensures S.Lists(received, registered)
      ensures forall s :: s in old(registered) ==> Served(s, m)
      ensures forall s :: s in old(registered) ==>
                var takes := old(!s.cancelled && s.spaceId >= 0 && s.spaceId == m.space);
                && (s in registered <==> takes)
                && s.wire.accepted == old(s.wire.accepted) + if takes then [m] else []
    {
      ghost var all, takers := registered, Takers(registered, m);
      ghost var kept := {};
      var ahead := registered;
      received := [];
      while ahead != {}
        invariant ahead <= all && kept == takers - ahead && registered == ahead + kept
        invariant S.Lists(received, kept)
        invariant forall s :: s in all && s !in ahead ==> Served(s, m)
        invariant forall s :: s in ahead ==> s in all && unchanged(s)
      {
        var reader :| reader in ahead;
        S.MoveOn(ahead, takers, reader);
        ahead := ahead - {reader};
        var takes := Offer(reader, m);
        if takes {
          S.OneMoreListed(received, kept, reader);
          received, kept := received + [reader], kept + {reader};
        }
      }
      assert kept == registered;
    }
  }

  /** The server owes a read to every reader in the list. */
  method ReadFromAll(sent: seq<Reader>)
    requires forall i, j :: 0 <= i < j < |sent| ==> sent[i] != sent[j]
    modifies sent
    ensures forall s :: s in sent ==> ReadFrom(s)
  {
    for i := 0 to |sent|
      invariant forall k :: 0 <= k < i ==> ReadFrom(sent[k])
      invariant forall k :: i <= k < |sent| ==> unchanged(sent[k])
    {
      sent[i].ReadMessage();
    }
  }

  /** `readers` is how many the request was sent to, which decides whether the plate is taken as the empty one. */
  method AskForPlate(r: Registry, space: int) returns (readers: nat)
    modifies r, r.registered
    ensures r.registered == old(Takers(r.registered, P.Request(space)))
    ensures readers == |r.registered|
    ensures forall s :: s in old(r.registered) ==> AskedFor(s, P.Request(space))
  {
    ghost var all := r.registered;
    var sent := r.SendMessageToSubscribers(P.Request(space));
    ListsOnce(sent, r.registered);
    S.ListsIsExact(sent, r.registered);
    readers := |sent|;
    assert forall s :: s in sent <==> s in all && old(TakesNow(s, P.Request(space)));
    label Sent:
    assert forall s :: s in all ==> Served(s, P.Request(space));
    if readers > 0 {
      ReadFromAll(sent);
      forall s | s in all ensures AskedFor(s, P.Request(space)) {
        if s in sent {
          assert ReadFrom@Sent(s);
        } else {
          assert s.View() == old@Sent(s.View()) && s.cancelled == old@Sent(s.cancelled);
        }
      }
    }
  }

  // ---------- the registry object takes the steps of the population ----------

  ghost predicate IsMember(s: Reader, d: R.Member)
    reads s
  {
    s.View() == d.stream && s.cancelled == d.cancelled
  }

  /** The objects behind the readers: reader `id` is `objects[id]`, and the registry holds the registered ones. */
  ghost predicate Represents(r: Registry, objects: seq<Reader>, p: R.Readers)
    reads r, objects
  {
    && |objects| == |p.members|
    && (forall i, j :: 0 <= i < j < |objects| ==> objects[i] != objects[j])
    && (forall i :: 0 <= i < |objects| ==> IsMember(objects[i], p.members[i]))
    && (forall id :: id in p.registered ==> id < |objects|)
    && (forall i :: 0 <= i < |objects| ==> (objects[i] in r.registered <==> i in p.registered))
    && (forall s :: s in r.registered ==> s in objects)
  }

  lemma TakesAlike(r: Registry, objects: seq<Reader>, p: R.Readers, space: int, id: nat)
    requires Represents(r, objects, p) && id < |objects|
    ensures R.Takes(p, id, space) <==> objects[id] in r.registered && TakesNow(objects[id], P.Request(space))
  {
    assert IsMember(objects[id], p.members[id]);
  }

  lemma {:induction false} SameSize(objects: seq<Reader>, held: set<Reader>, ids: set<nat>)
    requires forall i, j :: 0 <= i < j < |objects| ==> objects[i] != objects[j]
    requires forall i :: 0 <= i < |objects| ==> (objects[i] in held <==> i in ids)
    requires (forall s :: s in held ==> s in objects) && forall id :: id in ids ==> id < |objects|
    ensures |held| == |ids|
  {
    if objects == [] {
      assert held == {} && ids == {};
    } else {
      var n := |objects| - 1;
      assert objects == objects[..n] + [objects[n]];
      SameSize(objects[..n], held - {objects[n]}, ids - {n});
    }
  }

  /** Asking through the registry object is asking the population; what it returns is how many readers were asked. */
  method AskThrough(r: Registry, ghost objects: seq<Reader>, ghost p: R.Readers, space: int) returns (readers: nat)
    requires Represents(r, objects, p)
    modifies r, r.registered
    ensures Represents(r, objects, R.Ask(p, space))
    ensures readers == |R.Ask(p, space).registered|
  {
    ghost var took := set i: nat | i < |objects| && R.Takes(p, i, space);
    forall i: nat | i < |objects|
      ensures i in took <==> objects[i] in r.registered && TakesNow(objects[i], P.Request(space))
      ensures IsMember(objects[i], p.members[i])
    {
      TakesAlike(r, objects, p, space, i);
    }
    readers := AskForPlate(r, space);
    forall i: nat | i < |objects| ensures IsMember(objects[i], R.Ask(p, space).members[i]) {
      if objects[i] in old(r.registered) {
        assert AskedFor(objects[i], P.Request(space));
      }
    }
    SameSize(objects, r.registered, R.Ask(p, space).registered);
  }
}
