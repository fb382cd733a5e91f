/**
 Reservations expire after 45 minutes, by a thread that takes a snapshot of the expired ones every five minutes and
 cancels them one by one, while everything else goes on.
 */
module Expiry {
  import opened Basics
  import opened SpaceTable
  import opened ParkingServer
  import opened SpaceStory
  import opened ReservationRuns

  // ---------- LAST_CHANGE is the time of the reservation ----------

  /** When the space was last reserved; for one that was not reserved during the run, its LAST_CHANGE before it. */
  ghost function LastTaken(w: World, run: seq<Event>, space: int): int {
    if run == [] then (if space in w.table then w.table[space].lastChange else 0)
    else if LastFate(w, run, space) == Taken then run[|run| - 1].now
    else LastTaken(w, run[..|run| - 1], space)
  }

  lemma {:induction false} ReservedSince(w: World, run: seq<Event>, space: int)
    requires Unique(w.table) && Held(Exec(w, run).table, space)
    ensures Exec(w, run).table[space].lastChange == LastTaken(w, run, space)
  {
    if run != [] {
      LastStep(w, run, space);
      if LastFate(w, run, space) != Taken {
        ReservedSince(w, run[..|run| - 1], space);
      }
    }
  }

  // ---------- a round with nothing in between ----------

  /** Until `order` has been worked through, exactly the rows listed so far are freed. */
  ghost predicate FreedOnly(t: Table, t': Table, order: seq<int>, now: int) {
    && t'.Keys == t.Keys
    && forall id :: id in t ==>
         t'[id] == if id in order && t[id].state == Reserved then Row(t[id].section, Free, now, t[id].plate) else t[id]
  }

  lemma {:induction false} RoundFrees(w: World, order: seq<int>, now: int)
    ensures FreedOnly(w.table, SpacesExpired(w, order, now).table, order, now)
  {
    if order != [] {
      var init, last := order[..|order| - 1], order[|order| - 1];
      RoundFrees(w, init, now);
      assert order == init + [last];
    }
  }

  /** What a round sends about a space: one notice and the flag down, if it frees the space. */
  function RoundMarks(freed: bool): seq<Mark> {
    if freed then [Ended(ReserveCancelledExpired), Flagged(false)] else []
  }

  lemma OneSends(w: World, s: int, now: int, space: int)
    ensures About(SpaceExpired(w, s, now).log, space)
         == About(w.log, space) + RoundMarks(space == s && Held(w.table, s))
  {
    ExpiredFate(w, s, now, space);
  }

  lemma NotYetFreed(w: World, order: seq<int>, now: int, space: int)
    requires space !in order
    ensures Held(SpacesExpired(w, order, now).table, space) == Held(w.table, space)
  {
    RoundFrees(w, order, now);
  }

  /** The last cancellation of a round, for the space it is about and for any other. */
  lemma LastOfRoundSends(w: World, order: seq<int>, last: int, now: int, space: int)
    requires last !in order
    requires About(SpacesExpired(w, order, now).log, space)
          == About(w.log, space) + RoundMarks(space in order && Held(w.table, space))
    ensures About(SpaceExpired(SpacesExpired(w, order, now), last, now).log, space)
         == About(w.log, space) + RoundMarks((space in order || space == last) && Held(w.table, space))
  {
    OneSends(SpacesExpired(w, order, now), last, now, space);
    if space == last {
      NotYetFreed(w, order, now, space);
    }
  }

  lemma {:induction false} RoundSends(w: World, order: seq<int>, now: int, space: int)
    requires forall i, j :: 0 <= i < j < |order| ==> order[i] != order[j]
    ensures About(SpacesExpired(w, order, now).log, space)
         == About(w.log, space) + RoundMarks(space in order && Held(w.table, space))
  {
    if order != [] {
      var init, last := order[..|order| - 1], order[|order| - 1];
      RoundSends(w, init, now, space);
      assert order == init + [last];
      LastOfRoundSends(w, init, last, now, space);
    }
  }

  lemma {:induction false} RoundKeepsPending(w: World, order: seq<int>, now: int)
    ensures SpacesExpired(w, order, now).pending == w.pending
  {
    if order != [] {
      RoundKeepsPending(w, order[..|order| - 1], now);
    }
  }

  /**
   An uninterrupted round frees exactly the reservations that are at least 45 minutes old, tells each of them once that
   it expired, and changes and sends nothing else.
   */
  lemma RoundIsExact(w: World, order: seq<int>, now: int, space: int)
    requires Snapshot(w.table, order, now)
    ensures var w' := SpacesExpired(w, order, now);
            var old45 := space in w.table && w.table[space].state == Reserved
                         && now - w.table[space].lastChange >= 2700;
            && w'.table.Keys == w.table.Keys && w'.pending == w.pending && (space in order <==> old45)
            && (old45 ==>
                  && w'.table[space] == Row(w.table[space].section, Free, now, w.table[space].plate)
                  && About(w'.log, space) == About(w.log, space) + [Ended(ReserveCancelledExpired), Flagged(false)])
            && (!old45 ==>
                  && (space in w.table ==> w'.table[space] == w.table[space])
                  && About(w'.log, space) == About(w.log, space))
            && (Held(w'.table, space) ==> now - w'.table[space].lastChange < 2700)
  {
    RoundFrees(w, order, now);
    RoundSends(w, order, now, space);
    RoundKeepsPending(w, order, now);
  }

  /** Nothing happens before the given time. */
  predicate NotBefore(run: seq<Event>, time: int) {
    forall k :: 0 <= k < |run| ==> time <= run[k].now
  }

  /** The thread comes to the space during the run. */
  ghost predicate Visits(run: seq<Event>, space: int) {
    exists k :: 0 <= k < |run| && run[k].op == Expire(space)
  }

  lemma VisitsOneMore(run: seq<Event>, space: int)
    requires run != []
    ensures Visits(run, space) <==> Visits(run[..|run| - 1], space) || run[|run| - 1].op == Expire(space)
  {
    var init := run[..|run| - 1];
    if Visits(init, space) {
      var k :| 0 <= k < |init| && init[k].op == Expire(space);
      assert run[k].op == Expire(space);
    }
    if Visits(run, space) && run[|run| - 1].op != Expire(space) {
      var k :| 0 <= k < |run| && run[k].op == Expire(space);
      assert init[k].op == Expire(space);
    }
  }

  /** A reservation that was old when the run began and is still held has not been visited; any other is young. */
  lemma {:induction false} OldUntilVisited(w: World, run: seq<Event>, time: int, space: int)
    requires Unique(w.table) && NotBefore(run, time) && Held(Exec(w, run).table, space)
    ensures Exec(w, run).table[space].lastChange > time - EXPIRATION
            || (Expired(w.table, space, time) && !Visits(run, space))
  {
    if run != [] {
      LastStep(w, run, space);
      VisitsOneMore(run, space);
      if LastFate(w, run, space) != Taken {
        OldUntilVisited(w, run[..|run| - 1], time, space);
      }
    }
  }

  /**
   The bound on a reservation's age, for rounds with everything else in between. Once the thread has come to every space
   of the snapshot it took at `time`, and whatever happened before, in between and since, every reservation is younger
   than 45 minutes and the time since the snapshot; so within five minutes of it, younger than 50 minutes.
   */
  lemma AgeBound(w: World, order: seq<int>, time: int, run: seq<Event>, now: int, space: int)
    requires Unique(w.table) && Snapshot(w.table, order, time)
    requires NotBefore(run, time) && forall id :: id in order ==> Visits(run, id)
    requires Held(Exec(w, run).table, space)
    ensures Exec(w, run).table[space].lastChange > time - 2700
    ensures now <= time + 300 ==> now - Exec(w, run).table[space].lastChange < 3000
  {
    OldUntilVisited(w, run, time, space);
  }

  /** The cancellations of an uninterrupted round, as a run. */
  function Cancellations(order: seq<int>, now: int): (run: seq<Event>)
    ensures |run| == |order| && forall k :: 0 <= k < |run| ==> run[k] == At(now, Expire(order[k]))
  {
    seq(|order|, k requires 0 <= k < |order| => At(now, Expire(order[k])))
  }

  lemma {:induction false} RoundIsRun(w: World, order: seq<int>, now: int)
    ensures SpacesExpired(w, order, now) == Exec(w, Cancellations(order, now))
  {
    if order != [] {
      var n := |order| - 1;
      RoundIsRun(w, order[..n], now);
      assert Cancellations(order, now)[..n] == Cancellations(order[..n], now);
    }
  }

  /** The same bound for a round with nothing in between, which is a run that visits every space of its snapshot. */
  lemma AgeBoundOfRound(w: World, order: seq<int>, time: int, run: seq<Event>, now: int, space: int)
    requires Unique(w.table) && Snapshot(w.table, order, time)
    requires NotBefore(run, time) && now <= time + 300
    requires Held(Exec(SpacesExpired(w, order, time), run).table, space)
    ensures now - Exec(SpacesExpired(w, order, time), run).table[space].lastChange < 3000
  {
    var round := Cancellations(order, time);
    RoundIsRun(w, order, time);
    ExecConcat(w, round, run);
    forall id | id in order ensures Visits(round + run, id) {
      var k :| 0 <= k < |order| && order[k] == id;
      assert (round + run)[k].op == Expire(id);
    }
    AgeBound(w, order, time, round + run, now, space);
  }

  /** A round never frees a reservation made less than 45 minutes before it. */
  lemma NoneEarly(w: World, run: seq<Event>, order: seq<int>, time: int, space: int)
    requires Unique(w.table) && Snapshot(Exec(w, run).table, order, time)
    ensures space in order ==> Held(Exec(w, run).table, space) && time - LastTaken(w, run, space) >= 2700
  {
    if space in order {
      ReservedSince(w, run, space);
    }
  }

  // ---------- a round with everything else in between ----------

  /** How often the expiry thread found the space reserved, and so freed it. */
  ghost function Lapses(w: World, run: seq<Event>, space: int): nat {
    if run == [] then 0
    else
      var earlier := Lapses(w, run[..|run| - 1], space);
      if LastFate(w, run, space) == Lapsed then earlier + 1 else earlier
  }

  function ExpiredNotices(marks: seq<Mark>): nat {
    if marks == [] then 0
    else
      var earlier := ExpiredNotices(marks[..|marks| - 1]);
      if marks[|marks| - 1] == Ended(ReserveCancelledExpired) then earlier + 1 else earlier
  }

  lemma NoticesOneMore(a: seq<Mark>, x: Mark)
    ensures ExpiredNotices(a + [x]) == ExpiredNotices(a) + if x == Ended(ReserveCancelledExpired) then 1 else 0
  {
    OneMore(a, x);
  }

  lemma NoticesAfterFate(marks: seq<Mark>, f: Fate, held: bool)
    ensures ExpiredNotices(marks + MarksAfter(f, held)) == ExpiredNotices(marks) + if f == Lapsed then 1 else 0
  {
    var m := MarksAfter(f, held);
    MarksOneByOne(marks, f, held);
    if |m| >= 1 {
      NoticesOneMore(marks, m[0]);
    }
    if |m| >= 2 {
      NoticesOneMore(marks + [m[0]], m[1]);
    }
    if |m| == 3 {
      NoticesOneMore((marks + [m[0]]) + [m[1]], m[2]);
    }
  }

  /** However its cancellations fall among other events, the thread sends one notice for each row it frees. */
  lemma {:induction false} OneNoticeForEachFreed(w: World, run: seq<Event>, space: int)
    requires Unique(w.table)
    ensures ExpiredNotices(About(Exec(w, run).log, space))
         == ExpiredNotices(About(w.log, space)) + Lapses(w, run, space)
  {
    if run != [] {
      OneNoticeForEachFreed(w, run[..|run| - 1], space);
      LastStep(w, run, space);
      var before := WorldBefore(w, run);
      NoticesAfterFate(About(before.log, space), LastFate(w, run, space), Held(before.table, space));
    }
  }

  // ---------- what the thread changes and what it sends, over all spaces ----------

  /** How many notices of an expired reservation were sent out, about any space. */
  function ExpirySent(log: seq<Effect>): nat {
    if log == [] then 0 else ExpirySent(log[..|log| - 1]) + if ExpiryNotice(log[|log| - 1]) then 1 else 0
  }

  lemma {:induction false} QuietSendsNone(log: seq<Effect>, log': seq<Effect>)
    requires GrowsQuietly(log, log')
    ensures ExpirySent(log') == ExpirySent(log)
  {
    if log == log' {
    } else {
      assert log <= log'[..|log'| - 1];
      QuietSendsNone(log, log'[..|log'| - 1]);
    }
  }

  lemma ExpireSends(w: World, space: int, now: int)
    ensures ExpirySent(SpaceExpired(w, space, now).log) == ExpirySent(w.log) + if Held(w.table, space) then 1 else 0
  {
    if Held(w.table, space) {
      var notified := w.log + [ReserveUpdate(space, ReserveCancelledExpired)];
      OneMore(w.log, ReserveUpdate(space, ReserveCancelledExpired));
      OneMore(notified, ArduinoFlag(space, false));
      assert SpaceExpired(w, space, now).log == notified + [ArduinoFlag(space, false)];
    }
  }

  /** Does the event at `k` change some row? */
  ghost predicate ChangesRow(w: World, run: seq<Event>, k: nat)
    requires k < |run|
  {
    Exec(w, run[..k + 1]).table != Exec(w, run[..k]).table
  }

  /** How many cancellations by the thread changed some row. */
  ghost function RowsFreed(w: World, run: seq<Event>): nat {
    if run == [] then 0
    else
      var n := |run| - 1;
      RowsFreed(w, run[..n])
      + if run[n].op.Expire? && Exec(w, run).table != Exec(w, run[..n]).table then 1 else 0
  }

  lemma ExpireChanges(w: World, space: int, now: int)
    ensures var w' := SpaceExpired(w, space, now);
            && (w'.table != w.table <==> Held(w.table, space))
            && (Held(w.table, space) ==>
                  w'.table == w.table[space := Row(w.table[space].section, Free, now, w.table[space].plate)])
            && (!Held(w.table, space) ==> w' == w)
  {
    if Held(w.table, space) {
      assert SpaceExpired(w, space, now).table[space] != w.table[space];
    }
  }

  lemma StepSweeps(w: World, e: Event)
    ensures ExpirySent(Step(w, e).log) ==
            ExpirySent(w.log) + if e.op.Expire? && Step(w, e).table != w.table then 1 else 0
  {
    StepGrows(w, e);
    if e.op.Expire? {
      ExpireSends(w, e.op.space, e.now);
      ExpireChanges(w, e.op.space, e.now);
    } else {
      QuietSendsNone(w.log, Step(w, e).log);
    }
  }

  lemma {:induction false} NoticesAreRowsFreed(w: World, run: seq<Event>)
    ensures ExpirySent(Exec(w, run).log) == ExpirySent(w.log) + RowsFreed(w, run)
  {
    if run != [] {
      NoticesAreRowsFreed(w, run[..|run| - 1]);
      StepSweeps(WorldBefore(w, run), run[|run| - 1]);
    }
  }

  lemma ExecNext(w: World, run: seq<Event>, k: nat)
    requires k < |run|
    ensures Exec(w, run[..k + 1]) == Step(Exec(w, run[..k]), run[k])
  {
    assert run[..k + 1] == run[..k] + [run[k]];
    ExecOneMore(w, run[..k], run[k]);
  }

  /**
   The sweep, however its cancellations fall among other events. A cancellation changes some row exactly if its space is
   reserved at that moment; then it frees exactly that row, and otherwise it does nothing at all. And all the notices of
   expired reservations that the run sent out are as many as the cancellations that changed a row.
   */
  lemma {:induction false} SweepIsExact(w: World, run: seq<Event>)
    ensures ExpirySent(Exec(w, run).log) == ExpirySent(w.log) + RowsFreed(w, run)
    ensures forall k :: 0 <= k < |run| && run[k].op.Expire? ==>
              var before, after, space := Exec(w, run[..k]), Exec(w, run[..k + 1]), run[k].op.space;
              && (ChangesRow(w, run, k) <==> Held(before.table, space))
              && (ChangesRow(w, run, k) ==>
                    after.table == before.table[space := Row(before.table[space].section, Free, run[k].now,
                                                             before.table[space].plate)])
              && (!ChangesRow(w, run, k) ==> after == before)
  {
    NoticesAreRowsFreed(w, run);
    forall k | 0 <= k < |run| && run[k].op.Expire?
      ensures Exec(w, run[..k + 1]) == SpaceExpired(Exec(w, run[..k]), run[k].op.space, run[k].now)
    {
      ExecNext(w, run, k);
    }
    forall k | 0 <= k < |run| && run[k].op.Expire?
      ensures ChangesRow(w, run, k) <==> Held(Exec(w, run[..k]).table, run[k].op.space)
    {
      ExpireChanges(Exec(w, run[..k]), run[k].op.space, run[k].now);
    }
  }

  /** Was the space reserved during the run? */
  ghost predicate TakenDuring(w: World, run: seq<Event>, space: int) {
    run != [] && (LastFate(w, run, space) == Taken || TakenDuring(w, run[..|run| - 1], space))
  }

  lemma {:induction false} TakenLate(w: World, run: seq<Event>, time: int, space: int)
    requires Unique(w.table) && NotBefore(run, time) && space in w.table
    ensures TakenDuring(w, run, space) ==> LastTaken(w, run, space) >= time
    ensures !TakenDuring(w, run, space) ==> LastTaken(w, run, space) == w.table[space].lastChange
  {
    if run != [] {
      TakenLate(w, run[..|run| - 1], time, space);
    }
  }

  /**
   The thread checks the state of a space again when it comes to cancel it, but not the age. So a space of the snapshot
   that it frees, less than 45 minutes after the snapshot, is a reservation younger than that if and only if the space
   was reserved anew in between.
   */
  lemma FreedEarlyIff(w: World, order: seq<int>, time: int, run: seq<Event>, now: int, space: int)
    requires Unique(w.table) && Snapshot(w.table, order, time) && space in order
    requires NotBefore(run, time) && time <= now < time + 2700
    requires FateOf(Exec(w, run), At(now, Expire(space)), space) == Lapsed
    ensures now - Exec(w, run).table[space].lastChange < 2700 <==> TakenDuring(w, run, space)
  {
    ReservedSince(w, run, space);
    TakenLate(w, run, time, space);
  }

  /**
   The run that shows it: the thread finds the reservation of space 1 expired; before it cancels it, its holder gives it
   back and someone else reserves the space; and that reservation, not a minute old, is the one that expires.
   */
  lemma FreedAtOnce(section: string) returns (w: World, run: seq<Event>)
    ensures Unique(w.table) && Snapshot(w.table, [1], EXPIRATION) && NotBefore(run, EXPIRATION)
    ensures FateOf(Exec(w, run), At(EXPIRATION, Expire(1)), 1) == Lapsed
    ensures Exec(w, run).table[1].lastChange == EXPIRATION
  {
    w := World(map[1 := Row(section, Reserved, 0, Some("A"))], map[], []);
    var first, second := At(EXPIRATION, CancelFor("A")), At(EXPIRATION, Reserve(1, "B"));
    run := [first, second];
    assert run[..1] == [first] && run[..1][..0] == [];
    assert HasReservation(w.table, 1, "A");
    StepFate(w, first, 1);
    CancelAnswerIsTrue(w, "A", EXPIRATION);
    var w1 := Step(w, first);
    assert w1 == Exec(w, run[..1]);
    assert CanReserve(w1.table, 1, "B");
    StepFate(w1, second, 1);
    assert Exec(w, run) == Step(w1, second);
  }
}
