/**
 The registry that joins the server to its streams (Subscribers in server/parkingnotifications.h): an object that
 erases from a set while it iterates over it.
 */
module Subscribers {
  import opened Basics
  import N = NotificationStream

  /** An update about a space. */
  datatype Message = Message(space: int, content: nat)

  /** `shouldReceive`: everything, for a subscription to parking spaces; one space, for a reservation. */
  predicate Matches(topic: Option<int>, m: Message) {
    topic.None? || topic.value == m.space
  }

  type Subscriber = N.CallData<Message>

  predicate TakesNow(s: Subscriber, m: Message)
    reads s
  {
    !s.cancelled && Matches(s.topic, m)
  }

  /** What the broadcast of `m` does to a registered stream. */
  twostate predicate Served(s: Subscriber, m: Message)
    reads s
  {
    && s.View() == (if old(TakesNow(s, m)) then N.Written(old(s.View()), m) else old(s.View()))
    && s.cancelled == old(s.cancelled) && s.topic == old(s.topic)
  }

  /** What ending the streams for `m` does to a registered stream. */
  twostate predicate Stopped(s: Subscriber, m: Message)
    reads s
  {
    && s.View() == (if old(TakesNow(s, m)) then N.Ended(old(s.View())) else old(s.View()))
    && s.cancelled == old(s.cancelled) && s.topic == old(s.topic)
  }

  /** The subscribers that are neither cancelled nor interested in something else. */
  ghost function Takers(subs: set<Subscriber>, m: Message): set<Subscriber>
    reads subs
  {
    set s | s in subs && TakesNow(s, m)
  }

  /** `all` lists every element of `s` once. */
  ghost predicate Lists<T>(all: seq<T>, s: set<T>) {
    if all == [] then s == {}
    else all[|all| - 1] in s && Lists(all[..|all| - 1], s - {all[|all| - 1]})
  }

  ghost function Elements<T>(all: seq<T>): set<T> {
    set x | x in all
  }

  lemma {:induction false} ListsIsExact<T>(all: seq<T>, s: set<T>)
    requires Lists(all, s)
    ensures Elements(all) == s && |all| == |s|
  {
    if all != [] {
      var last := all[|all| - 1];
      ListsIsExact(all[..|all| - 1], s - {last});
      assert all == all[..|all| - 1] + [last];
      assert Elements(all) == Elements(all[..|all| - 1]) + {last};
      assert s == (s - {last}) + {last};
    }
  }

  lemma MoveOn<T>(ahead: set<T>, wanted: set<T>, x: T)
    requires x in ahead
    ensures wanted - (ahead - {x}) == (wanted - ahead) + if x in wanted then {x} else {}
    ensures x in wanted ==> ahead + (wanted - ahead) == (ahead - {x}) + ((wanted - ahead) + {x})
    ensures x !in wanted ==> (ahead + (wanted - ahead)) - {x} == (ahead - {x}) + (wanted - ahead)
  {
  }

  lemma OneMoreListed<T>(all: seq<T>, s: set<T>, x: T)
    requires Lists(all, s) && x !in s
    ensures Lists(all + [x], s + {x})
  {
    assert (all + [x])[..|all|] == all && (s + {x}) - {x} == s;
  }

  /** A std::set of pointers. An iterator over it is the set of elements still ahead; their order is not modelled. */
  class Registry {
    var registered: set<Subscriber>

    constructor ()
      ensures registered == {}
    {
      registered := {};
    }

    method RegisterSubscriber(sub: Subscriber)
      modifies this
      ensures registered == old(registered) + {sub}
    {
      registered := registered + {sub};
    }

    method UnregisterSubscriber(sub: Subscriber)
      modifies this
      ensures registered == old(registered) - {sub}
    {
      registered := registered - {sub};
    }

    /** One turn of the loop below: the subscriber is written to, or erased. */
    method Offer(sub: Subscriber, m: Message) returns (takes: bool)
      modifies this, sub
      ensures takes <==> old(TakesNow(sub, m))
      ensures Served(sub, m)
      ensures registered == if takes then old(registered) else old(registered) - {sub}
    {
      takes := !sub.cancelled && Matches(sub.topic, m);
      if takes {
        sub.Write(m);
      } else {
        registered := registered - {sub};
      }
    }

    method SendMessageToSubscribers(m: Message) returns (received: seq<Subscriber>)
      modifies this, registered
      ensures registered == old(Takers(registered, m))
      ensures Lists(received, registered)
      ensures forall s :: s in old(registered) ==> Served(s, m)
      ensures forall s :: s in old(registered) ==>
                var takes := old(!s.cancelled && (s.topic == None || s.topic == Some(m.space)));
                && (s in registered <==> takes)
                && s.wire.accepted == old(s.wire.accepted) + if takes then [m] else []
    {
      ghost var all, takers := registered, Takers(registered, m);
      ghost var kept := {};
      var ahead := registered;
      received := [];
      while ahead != {}
        invariant ahead <= all && kept == takers - ahead && registered == ahead + kept
        invariant Lists(received, kept)
        invariant forall s :: s in all && s !in ahead ==> Served(s, m)
        invariant forall s :: s in ahead ==> s in all && unchanged(s)
      {
        var sub :| sub in ahead;
        MoveOn(ahead, takers, sub);
        ahead := ahead - {sub};
        var takes := Offer(sub, m);
        if takes {
          OneMoreListed(received, kept, sub);
          received, kept := received + [sub], kept + {sub};
        }
      }
      assert kept == registered;
    }

    method EndStreamsFor(m: Message)
      modifies this, registered
      ensures registered == {}
      ensures forall s :: s in old(registered) ==> Stopped(s, m)
      ensures forall s :: s in old(registered) ==>
                var ends := old(!s.cancelled && (s.topic == None || s.topic == Some(m.space)));
                s.wire.ends == old(s.wire.ends) + if ends then 1 else 0
    {
      ghost var all := registered;
      var ahead := registered;
      while ahead != {}
        invariant ahead == registered <= all
        invariant forall s :: s in all && s !in ahead ==> Stopped(s, m)
        invariant forall s :: s in all && s in ahead ==> unchanged(s)
      {
        var sub :| sub in ahead;
        ahead := ahead - {sub};
        if !sub.cancelled && Matches(sub.topic, m) {
          sub.End();
          registered := registered - {sub};
        } else {
          registered := registered - {sub};
        }
      }
    }
  }
}
