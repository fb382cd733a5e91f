# Parking-space server: the streams and the reservation protocol

A Dafny model of the central manager of a parking site, with proofs about whole runs of it. It has two halves.

**The notification streams.** The server talks to its clients through asynchronous gRPC streams. A stream may have one
operation in flight at a time; what cannot be sent is queued, and a plate reader also owes reads while it writes and
writes while it reads.

- `NotificationStream`: the server-to-client stream, as an object and as functions on its state; order, loss, the
  operation in flight, how often it finishes, and how long it drains.
- `Subscribers`: the registry that erases from a set while it iterates over it.
- `StreamPopulation`: all streams of one kind over whole runs: who is registered, what each was given, one acceptor; and
  that the registry object takes the same steps.
- `PlateStream`: the plate-reader stream; the design rule, the exact steps that break it, and exactly which requests are
  safe.
- `ReaderPopulation`: all plate readers over whole runs: one acceptor, who is asked, the balance of requests and reads.
- `ReaderRegistry`: the registry of the plate readers as an object, and that it takes the same steps.

**The reservations.** A table of spaces with a state, a unique plate and a time is changed by sensors, plate readers,
clients and an expiry thread, and mirrored by the Arduinos' flags and by the clients' views.

- `SpaceTable`: the SQL statements, proved against the meaning of an UPDATE under a UNIQUE constraint, and the database
  object.
- `ParkingServer`: what each call does to the table, to the awaited plates and to what is sent out; the objects; plate
  resolution and the answers.
- `SpaceStory`: every event, for every space, is one of a few fates. This is the step the run theorems rest on.
- `ReservationRuns`: balance of reservations, the Arduino mirror, the client's view, the awaited plates.
- `ReservedPlates`: whose plate a reserved space holds, and when its reserver's reservation is concluded.
- `Expiry`: rounds of the expiry thread, uninterrupted and interleaved with anything else.
- `Publications`: what runs send out: one plate request for each report of occupation, and every state with the section
  of its row.
- `SensorSnapshots`: the two forms of a sensor snapshot.

`JoinedRuns` puts the halves together: the server's world and all plate readers in one run, and when every answer finds
its space awaited.

A method body of the original is one atomic step here, except that the expiry thread's snapshot and each of its
cancellations are separate events. Times, the completions of the gRPC library, the messages of clients and the order of
rows and of registered streams are parameters. So is the number of readers that take a plate request, except in
`JoinedRuns`, where it follows from the readers.

Objects carry the source's fields, and each method's postcondition gives the new state as a function of the old one; the
lemmas are about those functions. Runs are sequences of events, built up from the end.

## Where the code does not keep its promise

The model follows the code. In each case a lemma says exactly when the promise is kept, and in most another one shows a
run that breaks it.

- The design asks for one `Finish` a stream. `CallData::end` of a ready stream overwrites C_FINISHED with C_FINISH
  (server/parkingnotifications.cpp:107 and 117), so it finishes twice: `NotificationStream.FinishedTwice`,
  `NotificationStream.FinishedOnceIff`.
- `BiDirectionalCallData::clearQueue` is documented to say whether the queue was empty when called (lines 320-323) and
  says whether it is empty on return (line 336). Sending the last queued request therefore lets a read start beside it:
  `PlateStream.OverlapFromStart`, `PlateStream.DisciplinedIff`. The documented contract is modelled beside the code's:
  with it every run is disciplined. With the code as it is, a request is safe exactly if the reader waits, or reads with
  nothing queued: `PlateStream.AskingIsSafeIff`.
- `BiDirectionalCallData::end` may finish beside a write; nothing in the repository ends a plate reader. It is one of the
  two hazards of `PlateStream.DisciplinedIff`.
- A broadcast drops subscribers that do not want the message, as well as cancelled ones, and an ending empties the
  registry: `StreamPopulation.HeardExactly`.
- So does a plate request: it drops the readers of every other space, and those that have not registered yet, for good.
  The next car on such a space is asked of nobody and its plate is taken as the empty one: `JoinedRuns.ReaderIsDropped`,
  `JoinedRuns.OthersAreNotAsked`, `ReaderPopulation.RegisteredIff`.
- A reserved space is meant to hold the plate of the car that reserved it (database/SQLDatabase.cpp:6-7). The plate is
  stored whatever the state of the space (line 24), and a space that is reported free stays awaited, so the plate of a
  car that left can replace it, and the reservation can no longer be cancelled: `ReservedPlates.ReserverLosesSpace`,
  `ReservedPlates.HoldsReserversPlate`.
- A reservation is meant to be concluded when the reserver's car arrives (server/server.cpp:133-146). The awaited plate is
  not replaced while an older request is unanswered (line 96), so the reserver can be told that the space was taken:
  `ReservedPlates.ReserverIsRefused`, `ReservedPlates.ConcludedForReserverIff`.
- server/server.cpp:123-124 assumes that a reserved space is never reported free. It can be, and then the Arduino's flag
  stays up: `ReservationRuns.FlagStuck`, `ReservationRuns.ArduinoMirror`. So does the flag that main.cpp:15 raises at
  start-up.
- Expiry, and a car that parks elsewhere, publish no space update, so clients keep showing the space as reserved:
  `ReservationRuns.ExpiryIsNotShown`, `ReservationRuns.ClientView`.
- The expiry thread checks the state again before it cancels, but not the age: `Expiry.FreedAtOnce`,
  `Expiry.FreedEarlyIff`.
- The empty plate is stored like any other, so an unread plate can end a reservation made with an empty one:
  `SensorSnapshots.BystanderFreed`, `SensorSnapshots.SnapshotWritesIff`.
- `receiveLicensePlate` takes it that the space is awaited (server/server.cpp:129-131). A second answer to two reports of
  one space is not: `JoinedRuns.AnswerIsLost`, `ReservationRuns.AwaitedIff`. `JoinedRuns.EveryAnswerIsAwaited` says what
  of sensors and clients is enough for every answer to be.

Where the code's effect is undefined in C++ the model reads it as follows. `receiveLicensePlate` reads a map entry after
erasing it (server/server.cpp:129-135): the entry is read first. A plate for a space that is not awaited erases the end
iterator: here it has no effect. `getReservationForLicensePlate`
treats an empty result as a row (database/SQLDatabase.cpp:288): its callers test for absence, so it returns None. The
numbers of the space states come from a protocol file that is not part of this model; FREE is 0 and RESERVED is 1, as the
table's default and database/SQLDatabase.cpp:32 presuppose.

## Model

| member | source | states |
|---|---|---|
| NotificationStream.CallData.Write | server/parkingnotifications.cpp:90-99 | a ready stream hands the message on and stops being ready; a busy one queues it at the end |
| NotificationStream.CallData.End | server/parkingnotifications.cpp:101-118 | a ready stream calls Finish, and in every case but one ends in C_FINISH |
| NotificationStream.CallData.ClearQueue | server/parkingnotifications.cpp:129-139 | the oldest queued message is handed on, or the stream becomes ready |
| NotificationStream.CallData.Proceed | server/parkingnotifications.cpp:143-198 | the next state in each of the four states, and that the first tick with a client is the one that spawns and registers |
| NotificationStream.StepIsSound | server/parkingnotifications.cpp:101-198 | every call and every completion keeps the invariant of the stream, and whenever one calls Finish all accepted messages have been handed on |
| NotificationStream.EveryRun | server/parkingnotifications.cpp:11-14 | over every run nothing is lost, doubled or reordered, one operation at most is in flight, and a ready stream has nothing queued or in flight |
| NotificationStream.Drain | server/parkingnotifications.cpp:129-198 | with no new calls a busy stream is ready, or calls Finish if ended, after exactly one completion more than it has queued messages, and an ended one deletes itself after exactly the remaining completions |
| NotificationStream.DrainIsReachable | server/parkingnotifications.cpp:129-198 | such a run of completions exists, of every length up to the exact one |
| NotificationStream.FinishedOnceIff | server/parkingnotifications.cpp:101-118 | an ended stream that runs until it deletes itself has called Finish once, or twice exactly if end found it ready |
| NotificationStream.FinishedTwice | server/parkingnotifications.cpp:105-117 | a run from the start in which Finish is called twice |
| Subscribers.Registry.RegisterSubscriber | server/parkingnotifications.h:54-58 | the subscriber is in the set, once |
| Subscribers.Registry.UnregisterSubscriber | server/parkingnotifications.h:60-64 | the subscriber is not in the set, the others are as before |
| Subscribers.Registry.SendMessageToSubscribers | server/parkingnotifications.h:66-95 | erasing while iterating is an exact filter: what remains are the non-cancelled subscribers that asked for every space or for the message's own, the list returned holds each of them once, each of them was written the message once, and no other |
| Subscribers.ListsIsExact | server/parkingnotifications.h:73-94 | the list returned has exactly the elements of the set and no repetition |
| Subscribers.Registry.EndStreamsFor | server/parkingnotifications.h:97-126 | the set becomes empty, and exactly the non-cancelled subscribers that asked for every space or for the message's own were ended, once |
| StreamPopulation.EveryRunIsSound | server/parkingnotifications.h:44-127 | the joint invariant of registry and streams holds over every run |
| NotificationStream.DeletedByFinish | server/parkingnotifications.cpp:189-194 | a stream deletes itself only when a Finish completes, in C_FINISHED, with everything handed on |
| StreamPopulation.OneAcceptor | server/parkingnotifications.cpp:162-171 | at every moment of every run exactly one stream waits for a client and has its accept in flight: the one started by the last stream that connected |
| StreamPopulation.EndOfStream | server/parkingnotifications.cpp:101-198 | a registered stream is alive and not ended, so no message reaches a finishing or deleted one; end reaches a stream once at most; a deleted stream was deleted by the completion of a Finish at some event of the run, and had handed on all it accepted |
| StreamPopulation.HeardExactly | server/parkingnotifications.h:75-92 | a stream was given exactly what was broadcast from its registration to the first happening that takes it out of the registry, and it is still registered exactly if there was none |
| StreamPopulation.BroadcastReaches | server/parkingnotifications.cpp:511-515 | a broadcast reaches a registered stream whose client is there exactly if it asked for every space or for this one; then it stays registered, otherwise it is dropped |
| StreamPopulation.EndReaches | server/parkingnotifications.h:97-126 | an ending reaches exactly the streams that a message would, once each, and leaves nobody registered |
| StreamPopulation.HeardOwnOnly | server/parkingnotifications.cpp:480-515 | over any run a stream that asked for one space was given messages about that space only; it is registered exactly if since it registered every message was for it and before its client left, and no ending came; and then it was given every message since |
| StreamPopulation.HistoryIsTheEvents | server/parkingnotifications.cpp:611-626 | over any run the registry has been through exactly what was sent, ended and left, in order |
| StreamPopulation.TopicIsTheClients | server/parkingnotifications.cpp:507-515 | over any run a connected stream has the topic its client brought, and counts from the moment it did |
| StreamPopulation.BroadcastThrough | server/parkingnotifications.h:66-95 | a registry that holds the objects of a population is, after the erasing loop, one that holds the objects of the population after the broadcast |
| StreamPopulation.EndThrough | server/parkingnotifications.h:97-126 | the same for the ending of streams |
| PlateStream.PlateReader.ReadMessage | server/parkingnotifications.cpp:277-287 | one more read is owed, and a waiting reader starts it |
| PlateStream.PlateReader.Write | server/parkingnotifications.cpp:289-307 | a waiting reader starts to write, any other queues the request |
| PlateStream.PlateReader.End | server/parkingnotifications.cpp:309-317 | a reader with nothing owed and nothing queued calls Finish, any other remembers to |
| PlateStream.PlateReader.ClearQueue | server/parkingnotifications.cpp:320-338 | the oldest queued request is handed on, and the result says whether at most one was queued |
| PlateStream.PlateReader.HandleNewMessage | server/parkingnotifications.cpp:540-550 | a registration sets the space of the reader, any other result goes to the server |
| PlateStream.PlateReader.ReadTick | server/parkingnotifications.cpp:384-407 | the message is handled, and the reader reads on, writes, finishes or waits, in that order of preference |
| PlateStream.PlateReader.WriteTick | server/parkingnotifications.cpp:422-444 | the reader writes on, or reads, finishes or waits, in that order of preference |
| PlateStream.PlateReader.Proceed | server/parkingnotifications.cpp:342-453 | the next state in each of the five states, and what is asked of the rest of the server |
| PlateStream.TickAsks | server/parkingnotifications.cpp:342-453 | a tick starts a successor and then registers, exactly if it is the first of its reader; delivers a result that is not a registration as it came; and unregisters exactly if it finishes the reader after a read |
| PlateStream.RequestGoesOut | server/parkingnotifications.cpp:289-307 | a request is handed on at once exactly if the reader waits, and otherwise is the last in the queue |
| PlateStream.FinishFlag | server/parkingnotifications.cpp:309-317 | the finish flag is raised exactly by an end that cannot finish at once, and never lowered |
| PlateStream.EndIsHonoured | server/parkingnotifications.cpp:309-449 | an ended reader comes to rest finished, having called Finish once, and its next completion deletes it |
| PlateStream.UnendedWaits | server/parkingnotifications.cpp:384-444 | a reader that was not ended comes to rest waiting |
| PlateStream.ReadsBeforeWrites | server/parkingnotifications.cpp:384-407 | a reader that reads handles everything it owes before it hands on the first queued request |
| PlateStream.WritesBeforeReads | server/parkingnotifications.cpp:422-444 | a reader that writes hands on everything queued before it reads again, and then reads exactly if it owes a read |
| PlateStream.StepIsConsistent | server/parkingnotifications.cpp:277-453 | every call and every completion keeps the order, the counts and the meaning of the status, and whenever one calls Finish nothing is left to send or to read |
| PlateStream.WatchesLastRegistered | server/parkingnotifications.cpp:540-550 | over any run a reader watches the space of the last registration it handled |
| PlateStream.EveryRun | server/parkingnotifications.cpp:277-453 | over every run, also those that break the design rule: requests are handed on in order without loss, every read owed is handled or still counted, Finish is called once at most |
| PlateStream.UnreachableBranches | server/parkingnotifications.cpp:299-302 | a waiting reader is always ready to write and owes nothing, and a reader that reads or writes has connected, so the second write branch and the late connections are never taken |
| PlateStream.DisciplinedStepIff | server/parkingnotifications.cpp:324-338 | a step keeps the design rule exactly if it is not a hazard: the completion of a write with one request queued, or an end beside a write |
| PlateStream.DisciplinedIff | server/parkingnotifications.cpp:16-18 | a run keeps one operation in flight, named by the status, and handles each result once and in order, exactly if no step of it is a hazard |
| PlateStream.DocumentedContractIsDisciplined | server/parkingnotifications.cpp:320-323 | with clearQueue as documented every run without end keeps the rule |
| PlateStream.TwoRequestsOverlap | server/parkingnotifications.cpp:424-432 | two requests in a row to any waiting reader put a read and a write in flight together, and then the old message is handled again |
| PlateStream.OverlapFromStart | server/parkingnotifications.cpp:320-338 | a legal run from the start, without end, in which a read and a write are in flight together |
| PlateStream.Drain | server/parkingnotifications.cpp:370-446 | with no new calls a reader waits or finishes after exactly the computed number of completions and not before, for both contracts |
| PlateStream.RestIsReachable | server/parkingnotifications.cpp:370-446 | every connected reader that keeps the design rule has a run of completions that brings it to rest, for both contracts |
| PlateStream.SafeIff | server/parkingnotifications.cpp:320-338 | with the code as it is, the completions that bring a reader to rest are free of hazards exactly if it writes its last request or reads with at most one queued, or is at rest |
| PlateStream.AskingIsSafeIff | server/parkingnotifications.cpp:277-307 | a plate request leads to no hazard exactly if the reader waits, or reads with nothing queued, or has finished when it is asked |
| ReaderPopulation.OneAcceptor | server/parkingnotifications.cpp:359-367 | at every moment of every run exactly one plate reader waits for a client and has its accept in flight: the one started last |
| ReaderPopulation.OneSuccessorEach | server/parkingnotifications.cpp:552-554 | over any run the successors started, and the registrations made, are one fewer than the readers |
| ReaderPopulation.RequestReaches | server/parkingnotifications.cpp:556-563 | a request reaches a registered reader whose client is there exactly if it names the space the reader said it watches; then it stays registered and owes one read more, otherwise it is dropped |
| ReaderPopulation.RequestsAreForOwnSpaces | server/parkingnotifications.cpp:540-563 | over any run every request a reader was given is for a space that its client had registered it for |
| ReaderPopulation.CancelledIff | server/parkingnotifications.cpp:87 | over any run a reader counts as cancelled exactly if its client left |
| ReaderPopulation.HeardExactly | server/parkingnotifications.h:75-92 | a connected reader was asked for exactly what was requested, of whatever reader, from its connection to the first request it did not want: for another space, before it registered, or after its client left; it is registered exactly if there was none |
| ReaderPopulation.RegisteredIff | server/parkingnotifications.cpp:556-563 | a reader is registered exactly if it connected at some event and every request since met it uncancelled and watching the requested space |
| ReaderRegistry.Registry.SendMessageToSubscribers | server/parkingnotifications.h:66-95 | the erasing loop over plate readers is an exact filter, each reader that remains is listed once and was written to once |
| ReaderRegistry.AskForPlate | server/server.cpp:98-108 | every registered reader that takes the request is written it and then owes one read more, all others are dropped, and the result is how many take it |
| ReaderRegistry.AskThrough | server/server.cpp:98-108 | a registry that holds the objects of a population of readers is, after asking, one that holds the objects of the population that was asked |
| ReaderPopulation.Conservation | server/server.cpp:98-108 | after every server operation of every run, for each connected reader: results handled plus reads owed equal requests accepted plus one |
| ReaderPopulation.PatientRunsAreDisciplined | server/parkingnotifications.cpp:16-18 | if readers are asked only while they wait or read with nothing queued, every reader keeps the design rule with the code as it is |
| SpaceTable.StateUpdatedIsUpdate | database/SQLDatabase.cpp:22 | updating a state is an SQL UPDATE of one row under UNIQUE, an empty plate becoming NULL |
| SpaceTable.ReservationMadeIsUpdate | database/SQLDatabase.cpp:30 | a reservation is an SQL UPDATE, and succeeds exactly if no constraint fails and a row was selected |
| SpaceTable.SpotCancelledIsUpdate | database/SQLDatabase.cpp:38 | cancelling a spot is an SQL UPDATE that cannot fail, and reports a change exactly if the space is reserved |
| SpaceTable.PlateStoredIsUpdate | database/SQLDatabase.cpp:24 | storing a plate is an SQL UPDATE, and succeeds exactly if that does |
| SpaceTable.PlateCancelledIsUpdate | database/SQLDatabase.cpp:40 | cancelling by plate is an SQL UPDATE that cannot fail, and changes the one reserved row of the plate |
| SpaceTable.InsertedRow | database/SQLDatabase.cpp:20 | a new row is free, has no plate, its section and the time of its insertion; every other row, and an old one, stays |
| SpaceTable.SQLDatabase.InsertSpace | database/SQLDatabase.cpp:94-113 | a new row is free and has no plate; an existing one stays |
| SpaceTable.SQLDatabase.GetStateForSpace | database/SQLDatabase.cpp:240-274 | the row of the space, a NULL plate read as empty, or nothing |
| SpaceTable.SQLDatabase.UpdateSpaceState | database/SQLDatabase.cpp:115-142 | the row before, and the table with the row updated unless the plate clashes |
| SpaceTable.SQLDatabase.AttemptToReserveSpot | database/SQLDatabase.cpp:145-172 | succeeds exactly if the space is free and no other row has the plate |
| SpaceTable.SQLDatabase.CancelReservationsFor | database/SQLDatabase.cpp:174-200 | succeeds exactly if the plate has a reservation, which is freed and cleared |
| SpaceTable.SQLDatabase.CancelReservationForSpot | database/SQLDatabase.cpp:403-426 | succeeds exactly if the space is reserved, and frees it with its plate kept |
| SpaceTable.SQLDatabase.UpdateSpacePlate | database/SQLDatabase.cpp:428-448 | fails exactly if another row has the plate, and succeeds for a space without a row |
| SpaceTable.SQLDatabase.GetReservationForLicensePlate | database/SQLDatabase.cpp:276-316 | a reserved row with the plate, or nothing exactly if there is none |
| SpaceTable.SQLDatabase.FetchAllSpaceStates | database/SQLDatabase.cpp:202-238 | every row, once |
| SpaceTable.SQLDatabase.GetExpiredReserveStates | database/SQLDatabase.cpp:359-401 | exactly the reservations at least 2700 s old, once each |
| ParkingServer.PlateResolution | server/server.cpp:127-167 | a plate is stored, or ends the reservation that holds it elsewhere and is then stored, or leaves the table alone, exactly by where it was; plates stay unique; exactly this space stops being awaited |
| ParkingServer.PlateNotices | server/server.cpp:133-175 | exactly one of CONCLUDED and CANCELLED_SPACE_OCCUPIED goes out for the space, CONCLUDED exactly for the awaited plate stored at once, and before it the notice to the reservation the plate left, if any; the streams of these spaces are ended, and no others |
| ParkingServer.ReportLog | server/server.cpp:62-175 | everything a report sends, in order: the state with the row's section, one plate request if occupied, the answer of an empty plate if no reader takes it, and the end of the reservation |
| ParkingServer.ReservationLog | server/parkingspacesimpl.cpp:33-52 | everything a reservation sends: the row's section with the new state, and the flag, exactly if the space is free and no other row holds the plate; otherwise nothing |
| ParkingServer.CancellationLog | server/parkingspacesimpl.cpp:77-100 | everything a cancellation sends: three effects about the reserved space, or nothing |
| ParkingServer.ExpiryLog | server/server.cpp:30-43 | everything an expiry sends: the notice and the flag of a reserved space, or nothing |
| ParkingServer.ReserveAnswerIsTrue | server/parkingspacesimpl.cpp:29-68 | each answer to a reservation tells the truth about the table, and success reserves exactly that space for exactly that plate |
| ParkingServer.CancelAnswerIsTrue | server/parkingspacesimpl.cpp:70-110 | CANCELLED is answered exactly if the plate had a reservation, and names the one row that changed |
| ParkingServer.ParkingSpacesImpl.AttemptToReserveSpace | server/parkingspacesimpl.cpp:29-68 | a success is published as reserved and raises the flag; the answer is chosen from the state of the space |
| ParkingServer.ParkingSpacesImpl.CancelSpaceReservation | server/parkingspacesimpl.cpp:70-110 | a cancelled reservation is published as free and as cancelled and lowers the flag |
| ParkingServer.ParkingSpacesImpl.FetchAllParkingStates | server/parkingspacesimpl.cpp:9-27 | the client is written the section and state of every row, once |
| ParkingServer.ParkingServer.ReceiveLicensePlate | server/server.cpp:127-176 | the table, the awaited plates and the notices after a plate was read, for any space; no effect if the space is not awaited |
| ParkingServer.ParkingServer.AskForPlate | server/server.cpp:89-110 | the plate is awaited unless it already is, and is taken as empty if no reader takes the request |
| ParkingServer.ParkingServer.ReceiveParkingSpaceNotification | server/server.cpp:62-125 | the table, the awaited plates and the notices after a report; one recursive call at most, for an unknown space |
| ParkingServer.ParkingServer.ExpireSpace | server/server.cpp:30-43 | a reserved space is freed, told so and its flag lowered; any other is left alone |
| ParkingServer.ParkingServer.CheckExpirations | server/server.cpp:25-44 | a round works through a list of exactly the expired reservations |
| SpaceStory.SensorStep | server/server.cpp:62-125 | after a report the space has a row in the reported state, and at most one other row changed: the reservation with the empty plate, freed and cleared because nobody read a plate |
| SpaceStory.RequestedIff | server/server.cpp:89-98 | a report asks for the plate of its own space, exactly if it says the space is occupied |
| SpaceStory.StepFate | server/server.cpp:18-176 | any event keeps plates unique and gives every space exactly the state, the time and the published marks of its fate; and its plate is exactly the one reserved for, cleared, read, taken as empty, or left as it was |
| Publications.OneRequestForEachReport | server/server.cpp:89-98 | over any run one plate request is sent for each report that the space is occupied, and no other |
| Publications.SectionsAreTrue | server/server.cpp:81-87 | over any run a row never changes its section, a new row is in section A, and every state sent out carries the section of its row |
| Publications.StartupLog | main.cpp:15 | at start-up the flag of space 2 is raised, and nothing else happens |
| ReservationRuns.ReservationsBalance | server/server.cpp:62-125 | over any run, for each space, announced reservations less announced endings are what it holds now less what it held before, plus the times a reserved space was reported free |
| ReservationRuns.ReservedFromFreeOnly | database/SQLDatabase.cpp:17-30 | after any run plates are distinct, and an event reserves a space only if it is a reservation for it, the space is free and no other space holds the plate; so an occupied space is never reserved next |
| ReservedPlates.ReservedHasPlate | database/SQLDatabase.cpp:6-30 | over any run a reserved space never is without a plate |
| ReservedPlates.HoldsReserversPlate | database/SQLDatabase.cpp:6-7 | over any run a reserved space holds the plate it was reserved for, and that plate's reservation is found, exactly if the last answer stored there since, if any, was the same plate; none is stored unless the space was awaited when it was reserved |
| ReservedPlates.ReserverLosesSpace | database/SQLDatabase.cpp:24 | a run from an empty table in which a space reserved by B ends up reserved with plate A, and B's cancellation finds nothing |
| ReservationRuns.ArduinoMirror | server/server.cpp:112-124 | after any run the last flag sent for a space is up exactly if it is reserved or stuck, never both; so reserved implies up |
| ReservedPlates.ConcludedForReserverIff | server/server.cpp:133-146 | over any run, when a reserved space is reported occupied and its plate read: the reserver's plate concludes the reservation exactly if no other row holds it and the space waits for it, that is, it was not awaited and its plate not overwritten, or it was awaited with that plate; another plate does exactly if the space waits for that one instead |
| ReservedPlates.ReserverIsRefused | server/server.cpp:96 | a run from an empty table in which the reserver parks on the reserved space and is told that somebody else took it |
| ReservationRuns.FlagStuck | server/server.cpp:123-124 | a run in which a free space has its flag up |
| ReservationRuns.NotStuck | server/server.cpp:123-124 | without the start-up flag, and if no reserved space is reported free, no flag is stuck |
| ReservationRuns.AwaitedPlate | server/server.cpp:96 | a space awaits the plate its row had at the first report of its occupation that is still unanswered |
| ReservationRuns.AwaitedIff | server/server.cpp:96-102 | a space is awaited exactly if some reader took a request for it that no answer, and no later request without a reader, has settled |
| JoinedRuns.OrderlyRunsKeep | server/server.cpp:89-108 | over every run of server and readers together in which a space is reported occupied only when its reader has nothing to answer, and clients register first, for different spaces, and answer for their own: a space is awaited exactly while its reader owes its plate, every reader keeps the design rule, and a reader is registered exactly if every occupied report since it connected was about its space and met it uncancelled |
| JoinedRuns.JoinedRunIsBoth | server/server.cpp:89-108 | a joined run is a run of the server, with the readers that take each request and the answers they bring, and a run of the readers; so everything proved of those holds in it |
| JoinedRuns.EveryAnswerIsAwaited | server/server.cpp:127-131 | in such a run every answer finds its space awaited, settles exactly that one, and is taken with the plate the client sent |
| JoinedRuns.AskedIff | server/parkingnotifications.h:75-92 | after any run of server and readers, a report is asked of a reader exactly if it is for the space it watches, its client is there, and no occupied report since it connected was for another space or came before it registered |
| JoinedRuns.OthersAreNotAsked | server/server.cpp:98-101 | after a report that some reader takes, a report about any other space is asked of nobody; that space is not awaited, and its plate is the empty one if that fits |
| JoinedRuns.ReaderIsDropped | server/parkingnotifications.h:80-87 | an orderly run from the start with a reader for each of two spaces, in which the second space becomes occupied and its waiting reader is not asked |
| JoinedRuns.SecondAnswerIsNotAwaited | server/server.cpp:96-108 | asked again while it reads, a reader answers twice, and its second answer finds the space no longer awaited |
| JoinedRuns.SecondAnswerToWriting | server/server.cpp:96-108 | and so does a reader that is asked again while it writes |
| JoinedRuns.AnswerIsLost | server/server.cpp:127-131 | a legal run from the start whose last answer finds its space not awaited |
| ReservationRuns.ClientView | server/parkingspacesimpl.cpp:9-27 | a client that replays the updates onto the listing agrees with the table about a space exactly if it was not freed silently since its last update; otherwise it sees reserved where the table says free |
| ReservationRuns.ExpiryIsNotShown | server/server.cpp:30-43 | a run after which a client sees a free space as reserved |
| ReservationRuns.ListingIsColumn | server/parkingspacesimpl.cpp:14-24 | the listing, replayed, is the STATE column |
| Expiry.ReservedSince | database/SQLDatabase.cpp:30-38 | over any run, LAST_CHANGE of a reserved space is the time of its reservation |
| Expiry.RoundIsExact | server/server.cpp:25-44 | an uninterrupted round frees exactly the reservations at least 2700 s old, with one notice each, and nothing else |
| Expiry.AgeBound | server/server.cpp:18-48 | once the thread has come to every space of its snapshot, whatever happened in between and since, no reservation is older than 2700 s and the time since the snapshot; so within 300 s of it every reservation is younger than 3000 s |
| Expiry.AgeBoundOfRound | server/server.cpp:25-46 | the same for a round with nothing in between |
| Expiry.NoneEarly | database/SQLDatabase.cpp:32 | a round lists no reservation made less than 2700 s before |
| Expiry.OneNoticeForEachFreed | server/server.cpp:28-43 | in any interleaving, the expiry notices for a space are as many as the times the thread freed it |
| Expiry.SweepIsExact | server/server.cpp:28-43 | over any run the cancellations that changed a row are exactly those that met a reserved space, each freed exactly that row, and the expiry notices sent about all spaces are as many |
| Expiry.FreedEarlyIff | server/server.cpp:25-30 | a reservation the thread frees from its snapshot is younger than 2700 s exactly if the space was reserved anew after the snapshot |
| Expiry.FreedAtOnce | server/server.cpp:25-30 | a run in which a reservation expires in the second it was made |
| SensorSnapshots.ParseArray | conn_arduino/firebase_notifications.cpp:29-58 | the reports are the elements with a boolean, by their positions |
| SensorSnapshots.ArrayReportsAre | conn_arduino/firebase_notifications.cpp:29-58 | every element with a boolean is reported once, in the order of the array, and nothing else is |
| SensorSnapshots.ParseObj | conn_arduino/firebase_notifications.cpp:60-81 | one report for each member, in the order of the object |
| SensorSnapshots.ReportsWrite | server/server.cpp:62-79 | after any list of reports that agree, a reported space is as reported, a reservation with the empty plate elsewhere is freed if a report found no reader, and any other state is as before |
| SensorSnapshots.SnapshotWritesIff | conn_arduino/firebase_notifications.cpp:29-81 | a snapshot writes its flags into the STATE column and changes nothing else, exactly if no space outside it was reserved with the empty plate while a report found no reader |
| SensorSnapshots.BystanderFreed | server/server.cpp:100-101 | a run in which a snapshot of one space frees the reservation of another |
| SensorSnapshots.FormsAgree | conn_arduino/firebase_notifications.cpp:142-150 | the array form and the object form, in any order, leave the same STATE column exactly if both free the same reservations with the empty plate outside the snapshot |
| SensorSnapshots.SnapshotReplays | conn_arduino/firebase_notifications.cpp:29-81 | delivering a snapshot once more leaves the STATE column as it is exactly if it frees no reservation with the empty plate that the first delivery left |

## Left out

- gRPC, protobuf, the completion queue and TLS: they appear only as one completion for each operation issued; a completion that is not ok aborts the program.
- Steps inside a method body, and data races: `write` and `end` run under the registry's lock and ticks do not, but each body is one step here.
- The queue loop itself (server/parkingnotifications.cpp:592-609): a run is any legal sequence of completions and calls.
- SQLite's interface, SQL text, file storage, error printing and the 20-character column width: only the effect of each statement is modelled.
- The occupant that three queries read from the wrong column (database/SQLDatabase.cpp:299, 340, 381): nothing modelled uses it.
- `getSpaceOccupiedByLicensePlate` and `checkReserveStatus`: lookups that change nothing and that no modelled step uses.
- Temperatures and fire alarms: one branch without state, whose messages are not space updates.
- The HTTP connection to the sensors, JSON parsing, keys that are not numbers, values that are not booleans in the object form, and single-path updates (conn_arduino/firebase_notifications.cpp:83-251).
- The order of a std::set of pointers and of the rows of a query: any order is allowed.
- Time passing inside one call: a call reads the clock once.
- Liveness that needs a client to answer: the drain lemmas count completions.
