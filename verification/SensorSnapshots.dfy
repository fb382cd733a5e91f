/**
 The sensors' snapshots (parseArray and parseObj in conn_arduino/firebase_notifications.cpp): the same spaces may come
 as an array with gaps or as an object with keys, and each reported space becomes one call of the server.
 */
module SensorSnapshots {
  import opened Basics
  import opened SpaceTable
  import opened ParkingServer
  import opened SpaceStory
  import opened ReservationRuns

  /** One call of `receiveSpaceUpdate`. */
  datatype Report = Report(space: int, occupied: bool)

  /** An element of the array: null, or an object whose `occupied` may or may not be a boolean. */
  datatype Element = Null | Entry(occupied: Option<bool>)

  /** What an array reports: the elements that say whether they are occupied, by their position. */
  function ArrayReports(elements: seq<Element>): seq<Report> {
    if elements == [] then []
    else
      var earlier, last := ArrayReports(elements[..|elements| - 1]), elements[|elements| - 1];
      if last.Entry? && last.occupied.Some? then earlier + [Report(|elements| - 1, last.occupied.value)] else earlier
  }

  method ParseArray(elements: seq<Element>) returns (reports: seq<Report>)
    ensures reports == ArrayReports(elements)
  {
    reports := [];
    var current := 0;
    while current < |elements|
      invariant 0 <= current <= |elements|
      invariant reports == ArrayReports(elements[..current])
    {
      assert elements[..current + 1][..current] == elements[..current];
      if elements[current] != Null {
        var occupied := elements[current].occupied;
        if occupied.Some? {
          reports := reports + [Report(current, occupied.value)];
        }
      }
      current := current + 1;
    }
    assert elements[..|elements|] == elements;
  }

  /** The members of an object, as its keys name the spaces, in whatever order they come. */
  method ParseObj(members: seq<(int, bool)>) returns (reports: seq<Report>)
    ensures |reports| == |members|
    ensures forall k :: 0 <= k < |reports| ==> reports[k] == Report(members[k].0, members[k].1)
  {
    reports := [];
    for k := 0 to |members|
      invariant |reports| == k
      invariant forall j :: 0 <= j < k ==> reports[j] == Report(members[j].0, members[j].1)
    {
      reports := reports + [Report(members[k].0, members[k].1)];
    }
  }

  // ---------- what a list of reports does ----------

  /** A run of the server that is made of these reports, whatever plate readers there are and whenever they come. */
  predicate Delivers(run: seq<Event>, reports: seq<Report>) {
    && |run| == |reports|
    && forall k :: 0 <= k < |run| ==>
         run[k].op.Sensor? && run[k].op.space == reports[k].space && run[k].op.occupied == reports[k].occupied
  }

  function StateFor(occupied: bool): SpaceState {
    if occupied then Occupied else Free
  }

  // ---------- the two encodings ----------

  ghost predicate Mentions(reports: seq<Report>, id: int) {
    exists k :: 0 <= k < |reports| && reports[k].space == id
  }

  /** The reports say nothing but what `spaces` says. */
  ghost predicate SaysOnly(reports: seq<Report>, spaces: map<int, bool>) {
    forall k :: 0 <= k < |reports| ==> reports[k].space in spaces && reports[k].occupied == spaces[reports[k].space]
  }

  /** They say all of it, too. */
  ghost predicate Says(reports: seq<Report>, spaces: map<int, bool>) {
    SaysOnly(reports, spaces) && forall id :: id in spaces ==> Mentions(reports, id)
  }

  /** The array form of a snapshot: the spaces at their positions, and anything without a boolean elsewhere. */
  ghost predicate ArrayFormOf(elements: seq<Element>, spaces: map<int, bool>) {
    && (forall id :: id in spaces ==> 0 <= id < |elements| && elements[id] == Entry(Some(spaces[id])))
    && forall i :: 0 <= i < |elements| && i !in spaces ==> elements[i] == Null || elements[i] == Entry(None)
  }

  /** The object form of a snapshot: one member for each space, in any order. */
  ghost predicate ObjectFormOf(members: seq<(int, bool)>, spaces: map<int, bool>) {
    && (forall k :: 0 <= k < |members| ==> members[k].0 in spaces && members[k].1 == spaces[members[k].0])
    && (forall id :: id in spaces ==> exists k :: 0 <= k < |members| && members[k].0 == id)
    && forall j, k :: 0 <= j < k < |members| ==> members[j].0 != members[k].0
  }

  /** Does the run report some space occupied while no reader takes the plate request? */
  predicate Disturbs(run: seq<Event>) {
    exists k :: 0 <= k < |run| && run[k].op.Sensor? && run[k].op.occupied && run[k].op.readers == 0
  }

  lemma DisturbsOneMore(run: seq<Event>)
    requires run != []
    ensures Disturbs(run) <==> Disturbs(run[..|run| - 1]) || Disturbs([run[|run| - 1]])
  {
    var n := |run| - 1;
    if Disturbs(run[..n]) {
      var k :| 0 <= k < n && run[..n][k].op.Sensor? && run[..n][k].op.occupied && run[..n][k].op.readers == 0;
      assert run[k].op.Sensor? && run[k].op.occupied && run[k].op.readers == 0;
    }
    if Disturbs([run[n]]) {
      assert run[n].op.Sensor? && run[n].op.occupied && run[n].op.readers == 0;
    }
    if Disturbs(run) && !Disturbs([run[n]]) {
      var k :| 0 <= k < |run| && run[k].op.Sensor? && run[k].op.occupied && run[k].op.readers == 0;
      assert [run[n]][0] == run[n];
      assert run[..n][k].op.Sensor? && run[..n][k].op.occupied && run[..n][k].op.readers == 0;
    }
  }

  /** The state of a space after a list of reports. */
  ghost function StateAfter(t: Table, id: int, mentioned: bool, spaces: map<int, bool>, disturbed: bool)
    : Option<SpaceState>
    requires mentioned ==> id in spaces
  {
    if mentioned then Some(StateFor(spaces[id]))
    else if disturbed && HasReservation(t, id, "") then Some(Free)
    else StateIn(t, id)
  }

  lemma MentionsOneMore(reports: seq<Report>, id: int)
    requires reports != []
    ensures Mentions(reports, id) <==> Mentions(reports[..|reports| - 1], id) || reports[|reports| - 1].space == id
  {
    var n := |reports| - 1;
    if Mentions(reports[..n], id) {
      var k :| 0 <= k < n && reports[..n][k].space == id;
      assert reports[k].space == id;
    }
    if Mentions(reports, id) && reports[n].space != id {
      var k :| 0 <= k < |reports| && reports[k].space == id;
      assert reports[..n][k].space == id;
    }
  }

  lemma ReportWrites(w: World, e: Event, id: int)
    requires Unique(w.table) && e.op.Sensor?
    ensures var t, t', disturbs := w.table, Step(w, e).table, e.op.occupied && e.op.readers == 0;
            && StateIn(t', id) == (if id == e.op.space then Some(StateFor(e.op.occupied))
                                   else if disturbs && HasReservation(t, id, "") then Some(Free)
                                   else StateIn(t, id))
            && (HasReservation(t', id, "") <==> HasReservation(t, id, "") && id != e.op.space && !disturbs)
  {
    SensorStep(w, e.op.space, e.op.occupied, e.op.readers, e.now);
  }

  lemma {:induction false} ReportsWrite(w: World, run: seq<Event>, reports: seq<Report>, spaces: map<int, bool>,
                                        id: int)
    requires Unique(w.table) && Delivers(run, reports) && SaysOnly(reports, spaces)
    ensures Mentions(reports, id) ==> id in spaces
    ensures var t' := Exec(w, run).table;
            && StateIn(t', id) == StateAfter(w.table, id, Mentions(reports, id), spaces, Disturbs(run))
            && (HasReservation(t', id, "") <==>
                  HasReservation(w.table, id, "") && !Mentions(reports, id) && !Disturbs(run))
  {
    if run != [] {
      var n := |run| - 1;
      var before, e := Exec(w, run[..n]), run[n];
      ReportsWrite(w, run[..n], reports[..n], spaces, id);
      RunIsUnique(w, run[..n]);
      ReportWrites(before, e, id);
      DisturbsOneMore(run);
      assert Disturbs([e]) <==> e.op.occupied && e.op.readers == 0 by {
        assert [e][0] == e;
      }
      MentionsOneMore(reports, id);
    }
  }

  /** The STATE column with the flags of a snapshot written into it. */
  ghost function WrittenInto(column: map<int, SpaceState>, spaces: map<int, bool>): map<int, SpaceState> {
    map id | id in column.Keys + spaces.Keys :: if id in spaces then StateFor(spaces[id]) else column[id]
  }

  /** A reservation with the empty plate, outside the snapshot, that the run frees. */
  ghost predicate Bystander(t: Table, spaces: map<int, bool>, run: seq<Event>, id: int) {
    Disturbs(run) && id !in spaces && HasReservation(t, id, "")
  }

  lemma SameColumn(a: map<int, SpaceState>, b: map<int, SpaceState>)
    ensures a == b <==> forall id :: SeenIn(a, id) == SeenIn(b, id)
  {
    if forall id :: SeenIn(a, id) == SeenIn(b, id) {
      forall id ensures id in a <==> id in b ensures id in a ==> a[id] == b[id] {
        assert SeenIn(a, id) == SeenIn(b, id);
      }
    }
  }

  /**
   Reports that say what a snapshot says write its flags into the STATE column, and do nothing else to it, if and only
   if no space outside the snapshot was reserved with the empty plate while a report came that no reader took.
   */
  lemma SnapshotWritesIff(w: World, run: seq<Event>, reports: seq<Report>, spaces: map<int, bool>)
    requires Unique(w.table) && Delivers(run, reports) && Says(reports, spaces)
    ensures Column(Exec(w, run).table) == WrittenInto(Column(w.table), spaces) <==>
            forall id :: !Bystander(w.table, spaces, run, id)
  {
    var t' := Exec(w, run).table;
    forall id ensures StateIn(t', id) == SeenIn(WrittenInto(Column(w.table), spaces), id) <==>
                      !Bystander(w.table, spaces, run, id)
    {
      ReportsWrite(w, run, reports, spaces, id);
    }
    SameColumn(Column(t'), WrittenInto(Column(w.table), spaces));
  }

  lemma SameStates(t: Table, t': Table)
    ensures Column(t) == Column(t') <==> forall id :: StateIn(t, id) == StateIn(t', id)
  {
    if forall id :: StateIn(t, id) == StateIn(t', id) {
      forall id ensures SeenIn(Column(t), id) == SeenIn(Column(t'), id) {
        assert StateIn(t, id) == StateIn(t', id);
      }
    }
    SameColumn(Column(t), Column(t'));
  }

  /** A run that frees a bystander: space 1 is reserved with the empty plate, and nobody reads the plate at space 2. */
  lemma BystanderFreed() returns (w: World, run: seq<Event>)
    ensures w == Exec(EMPTY, ReservedAtFirst("")) && Held(w.table, 1)
    ensures Delivers(run, [Report(2, true)]) && Says([Report(2, true)], map[2 := true])
    ensures StateIn(Exec(w, run).table, 1) == Some(Free)
    ensures Column(Exec(w, run).table) != WrittenInto(Column(w.table), map[2 := true])
  {
    w, run := Exec(EMPTY, ReservedAtFirst("")), [At(0, Sensor(2, true, 0))];
    var reports, spaces := [Report(2, true)], map[2 := true];
    ReservedAtFirstIs("");
    assert reports[0].space == 2;
    assert run[0].op == Sensor(2, true, 0);
    assert !Mentions(reports, 1);
    assert Bystander(w.table, spaces, run, 1);
    RunIsUnique(EMPTY, ReservedAtFirst(""));
    ReportsWrite(w, run, reports, spaces, 1);
    SnapshotWritesIff(w, run, reports, spaces);
  }

  /** Every element with a boolean is reported once, in the order of the array, and nothing else is. */
  lemma {:induction false} ArrayReportsAre(elements: seq<Element>)
    ensures forall k :: 0 <= k < |ArrayReports(elements)| ==>
              var r := ArrayReports(elements)[k];
              0 <= r.space < |elements| && elements[r.space] == Entry(Some(r.occupied))
    ensures forall j, k :: 0 <= j < k < |ArrayReports(elements)| ==>
              ArrayReports(elements)[j].space < ArrayReports(elements)[k].space
    ensures forall i :: 0 <= i < |elements| && elements[i].Entry? && elements[i].occupied.Some? ==>
              Mentions(ArrayReports(elements), i)
  {
    if elements != [] {
      var n := |elements| - 1;
      ArrayReportsAre(elements[..n]);
      var earlier, all := ArrayReports(elements[..n]), ArrayReports(elements);
      forall i | 0 <= i < |elements| && elements[i].Entry? && elements[i].occupied.Some? ensures Mentions(all, i) {
        if i < n {
          assert elements[..n][i] == elements[i];
          var k :| 0 <= k < |earlier| && earlier[k].space == i;
          assert all[k].space == i;
        } else {
          assert all[|earlier|].space == i;
        }
      }
    }
  }

  lemma ArrayFormSays(elements: seq<Element>, spaces: map<int, bool>)
    requires ArrayFormOf(elements, spaces)
    ensures Says(ArrayReports(elements), spaces)
  {
    ArrayReportsAre(elements);
  }

  lemma ObjectFormSays(members: seq<(int, bool)>, reports: seq<Report>, spaces: map<int, bool>)
    requires ObjectFormOf(members, spaces) && |reports| == |members|
    requires forall k :: 0 <= k < |reports| ==> reports[k] == Report(members[k].0, members[k].1)
    ensures Says(reports, spaces)
  {
    forall id | id in spaces ensures Mentions(reports, id) {
      var k :| 0 <= k < |members| && members[k].0 == id;
      assert reports[k].space == id;
    }
  }

  /**
   The two forms of a snapshot agree. However the members of the object are ordered, delivering the one form or the
   other leaves the same STATE column, if and only if the two ways free the same reservations with the empty plate: so
   always if there is none outside the snapshot, and always if a report found no reader both times, or neither time.
   */
  lemma FormsAgree(w: World, spaces: map<int, bool>, elements: seq<Element>, members: seq<(int, bool)>,
                   reports: seq<Report>, byArray: seq<Event>, byObject: seq<Event>)
    requires Unique(w.table)
    requires ArrayFormOf(elements, spaces) && Delivers(byArray, ArrayReports(elements))
    requires ObjectFormOf(members, spaces) && |reports| == |members|
    requires forall k :: 0 <= k < |reports| ==> reports[k] == Report(members[k].0, members[k].1)
    requires Delivers(byObject, reports)
    ensures Column(Exec(w, byArray).table) == Column(Exec(w, byObject).table) <==>
            forall id :: Bystander(w.table, spaces, byArray, id) <==> Bystander(w.table, spaces, byObject, id)
  {
    ArrayFormSays(elements, spaces);
    ObjectFormSays(members, reports, spaces);
    var t, t' := Exec(w, byArray).table, Exec(w, byObject).table;
    forall id ensures StateIn(t, id) == StateIn(t', id) <==>
                      (Bystander(w.table, spaces, byArray, id) <==> Bystander(w.table, spaces, byObject, id))
    {
      ReportsWrite(w, byArray, ArrayReports(elements), spaces, id);
      ReportsWrite(w, byObject, reports, spaces, id);
    }
    SameStates(t, t');
  }

  /**
   A snapshot delivered once more leaves the STATE column as it is, if and only if it does not free a reservation with
   the empty plate that the first delivery left alone, because every plate request of that one found a reader.
   */
  lemma SnapshotReplays(w: World, spaces: map<int, bool>, reports: seq<Report>, run: seq<Event>, again: seq<Event>)
    requires Unique(w.table) && Says(reports, spaces) && Delivers(run, reports) && Delivers(again, reports)
    ensures Column(Exec(Exec(w, run), again).table) == Column(Exec(w, run).table) <==>
            forall id :: Bystander(w.table, spaces, again, id) ==> Disturbs(run)
  {
    RunIsUnique(w, run);
    var first := Exec(w, run);
    var second := Exec(first, again);
    forall id ensures StateIn(second.table, id) == StateIn(first.table, id) <==>
                      (Bystander(w.table, spaces, again, id) ==> Disturbs(run))
    {
      ReportsWrite(w, run, reports, spaces, id);
      ReportsWrite(first, again, reports, spaces, id);
    }
    SameStates(second.table, first.table);
  }
}
