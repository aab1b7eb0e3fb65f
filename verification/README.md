# dynamic-taps, modelled and proved in Dafny

dynamic-taps is a C implementation of the TAPS interface
(draft-ietf-taps-interface). This project models its asynchronous core and
proves what its documentation and comments promise of it. `dafny verify
dfyconfig.toml` checks everything.

The model keeps to the code as it is written, in the same branches and with the
same constants. Where the code does not do what it promises, a lemma gives an
input on which it fails and another says exactly when it holds. For the two
halves of a connection, for discovery and for the parser's clean-up loop there
is also a `Repaired` variant, the smallest change its own comments and
documentation ask for; the theorems about it say what it then keeps.

## How it fits together

| file | what it models |
|---|---|
| Common.dfy | `Option`, and `Variant`: the code as written or repaired |
| ScatterList.dfy | `struct iovec` lists as address sequences; `_taps_trunc_iovec`; memory and `readv` |
| Message.dfy | `tapsMessage` and its truncation in place |
| ItemQueue.dfy | the linked queue of `ADD_ITEM`/`DELETE_ITEM` on the heap, and the teardown loop |
| SendEngine.dfy | sending over a protocol, as a transition system with histories |
| ReceiveEngine.dfy | receiving over a protocol, as a transition system over memory |
| Connection.dfy | the structs of both halves, each method refining a step of its engine |
| Stream.dfy | two connections end to end |
| Listener.dfy | listener, reference count, Stopped and Free, over the connections it spawns |
| Abilities.dfy | 16-bit words as ability sets, and the table of names |
| TransportProperties.dfy | the preference vectors and their setters |
| YamlConfig.dfy | the event-driven parser |
| Cleanup.dfy | the strings it allocates, and the loop that frees them when it fails |
| Kernel.dfy | kernel.yaml, the file that comes with the system |
| Accumulation.dfy | reading files one after another into one array, for any files and entries |
| Discovery.dfy | `tapsUpdateProtocols`: the parser plugged into that |
| Preconnection.dfy | choosing candidates, and releasing them |
| Endpoint.dfy | alias chains |

A connection is a state and the events that may come: calls by the application,
and completions by the protocol. The protocol is the one of src/tcp/tcp.c seen
through its interface (src/taps_protocol.h): it refuses an operation while one
of that direction is pending, it may fail a write, it fills a posted list in
order, it reports a send once and a read at most once, with any of the callbacks
the interface has (src/tcp/tcp.c itself uses only sent, receivedPartial and
closed, and loses a read that fails or finds nothing). It makes that report
after the call that posted the operation has returned. Theorems about runs are
about every finite sequence of such events. A receive's buffers lie in memory
and do not overlap each other; buffers of different receives may. Histories kept
in the state (what was submitted, accepted, read, called back, allocated, freed)
say what happened.

Every callback to the application except those of the teardown is the last
thing its C function does. A call made from inside a callback is therefore the
next event of a run, and the theorems cover applications that send and receive
from their callbacks. The callbacks of the teardown come while its loop runs:
`reactions` says what the application adds to the queue in each of them.
`Teardown` is the repaired loop in either variant; what the loop does as written
is `TeardownAsWritten`.

## Where the code departs from its promises

| source | what happens | exactly when |
|---|---|---|
| src/taps_connection.c:237-241 | `sendReady` is never cleared, so the protocol is called while busy and Send returns an error for a message that is queued and later sent | a send overlaps an earlier one (`BusyIffSendsOverlap`, `SendErrorIff`) |
| src/taps_connection.c:167, 180, 239 | an item whose write failed stays at the head of the queue for good | a write was refused by an idle protocol (`InOrderIffNoRefusedWrite`, `StuckForever`) |
| src/taps_connection.c:286-287, 310-311 | nothing is read any more | the protocol has reported a final or failed receive (`LiveIff`, `NothingIsReadAfterwards`) |
| src/tcp/tcp.c:141-149 | nothing is read any more, repaired or not | a read event has found an error or nothing to read (`LiveIff`, `NothingIsReadAfterwards`) |
| src/tcp/tcp.c:141-149, src/taps_connection.c:409-413 | a list allocated for a re-post is never freed | the receive under way at the teardown was posted again (`TeardownLeaksIff`) |
| src/taps_connection.c:310-311, 359-360 | the length reported is read from an item already freed | the callback is received or receivedPartial (`Connections.Receiver.Deliver`) |
| src/taps_connection.c:61-70, 407, 412 | teardown unlinks and frees the wrong items, and then uses one | a queue holds two or more items, or one whose callback adds another (`DrainLoopIff`, `ItemQueue.Queue.DrainAsWritten`) |
| src/taps_connection.c:337-345 | no partial completion can answer the receive; one that is filled is re-posted with no room | its message has no room left, or is smaller than its minimum (`PartialCanCompleteIff`) |
| src/taps_connection.c:384 | `maxLength` does not bound what is delivered | the message is larger than it, and holds the minimum (`MaxLengthExceededIff`) |
| src/taps_connection.c:254-262 | the loop reads past the list | the length exceeds the list (`TruncIovec`), which its caller `_taps_received_partial` never asks for (`OneReadAtATimeInOrder`) |
| src/taps_message.c:112-119 | truncation empties the message | the length exceeds a message that is not empty (`TruncateKeepsPrefixIff`) |
| src/taps_listener.c:189-193 | `stopped` is called through NULL | Free came before any Stop (`StoppedFiresOnceIff`, `EarlyFreeEndsInNullCall`) |
| src/taps_listener.c:34, 74, 177 | Stopped comes while connections remain, Free then succeeds under them, and the last one calls through NULL | after the protocol has stopped, the number of connections left is a positive multiple of 2^32 (`AlwaysStoppedOnceIff`, `StopThenFreeSucceedsIff`, `WrappedCountFiresEarly`) |
| src/taps_transport_properties.c:59-84 | an ability keeps an old preference, or is in two vectors | its own setter was called last, and the last call that named it required, avoided or prohibited it (`LastWriteWinsIff`, and for the candidates `PassesIffWanted`) |
| src/taps_cfg.c:170-177 | the clean-up of a failed parse never ends | always (`FreesTwiceIff`) |
| src/taps_cfg.c:170-177 | it frees strings of the first entry again and again, and no others | the first entry has a protocol or a library (`FreesTwiceIff`) |
| src/taps_cfg.c:213-215 | earlier files are overwritten and not counted | unless only the last file read has a document, or the first that has fills every slot (`DiscoveryIffOneFileYields`) |
| src/taps_preconnection.c:157 | candidates start at a stale count | the memory of the count was not zero (`CandidatesIffCountStartsAtZero`) |
| src/taps_preconnection.c:141, 180 | memory behind the array of 255 is written | a file begins documents behind the 255th slot, counted from where the file read just before it ended (`LimitBeyondArrayIff`); for complete files: one of them, alone or with the one just before it, has more than 255 (`CompleteFilesBeyondArrayIff`) |
| src/taps_endpoint.c:176-181 | the chain is closed into a ring | both endpoints are in one chain (`AddAlias`) |

## Model

| member | source | states |
|---|---|---|
| ReceiveEngine.StreamReassembly | src/taps_connection.c:290-361 | in every run, the bytes of the callbacks in order, then those the head item holds, are the bytes read from the wire: none lost, doubled or overwritten by a re-post |
| ReceiveEngine.HistoriesAreEvents | src/taps_connection.c:363-397 | in every run, the receives submitted are all those the application asked for, and the bytes read are all those that arrived while a read was pending and fitted |
| ReceiveEngine.SubmitEffect | src/taps_connection.c:378-396 | a Receive is queued behind the others whatever is going on; no callback, no byte and no history but its own changes |
| ReceiveEngine.PartialEffect | src/taps_connection.c:314-361 | some bytes: the oldest receive is answered with all it holds, or keeps them, and a read is pending whenever something is queued |
| ReceiveEngine.FinalEffect | src/taps_connection.c:290-312 | the last bytes: the oldest receive is answered with all it holds, as received, or as an error below its minimum |
| ReceiveEngine.FailureEffect | src/taps_connection.c:273-288 | a failure: the oldest receive gets receiveError with what it held, whatever its minimum |
| ReceiveEngine.LostEffect | src/tcp/tcp.c:141-149 | a lost read: nobody is told, everything stays queued, nothing is pending |
| ReceiveEngine.NothingElseHappens | src/tcp/tcp.c:133-151 | without a pending read, or beyond the room of its message, nothing is reported |
| ReceiveEngine.OneReadAtATimeInOrder | src/taps_connection.c:314-397 | receives get one callback each, in order; the pending read is the oldest item's and covers what is left of its message; the "Two TCP recv at once" branch is never reached |
| ReceiveEngine.MinimumLengthKept | src/taps_connection.c:305-309 | no successful callback reports fewer bytes than `minLength`, or more than the message holds |
| ReceiveEngine.RepostApproachesMinimum | src/taps_connection.c:337-361 | a partial completion calls back with all bytes held, or re-posts the rest and comes strictly closer to the minimum |
| ReceiveEngine.TemporaryListsFreedOnce | src/taps_connection.c:336-345 | in every run, the lists freed are distinct and are exactly those allocated for re-posts, the one under way excepted; no message's own list is ever freed |
| ReceiveEngine.TeardownLeaksIff | src/taps_connection.c:409-413 | after the teardown all of them have been freed exactly when no re-posted receive was under way |
| ReceiveEngine.LiveIff | src/taps_connection.c:347-355 | a read is pending whenever a receive is queued: exactly until a read is lost or, as written, a final or failed receive |
| ReceiveEngine.NothingIsReadAfterwards | src/taps_connection.c:273-312 | once that fails, nothing is read or called back in any continuation |
| ReceiveEngine.FailureStrandsNext | src/taps_connection.c:286-287 | the concrete run: a receive submitted after a failed one is never posted |
| ReceiveEngine.LostReadStrandsNext | src/tcp/tcp.c:141-149 | the concrete run: after a lost read its receive and the next stay queued with no read pending |
| ReceiveEngine.PartialCanCompleteIff | src/taps_connection.c:336-346 | the pending read can lead to a partial callback exactly when its message has room and is large enough for its minimum |
| ReceiveEngine.MinimumBeyondMessageStrands | src/taps_connection.c:337-345 | the concrete run: a message below its minimum is filled, re-posted without room, and lost for good with the list made for it |
| ReceiveEngine.ReceivesCanDrain | src/taps_connection.c:347-361 | while a read is pending whenever a receive is queued, and if every queued message can meet its minimum, reads that fill each message in turn answer every receive and leave the connection ready |
| ReceiveEngine.MaxLengthExceededIff | src/taps_connection.c:383-384 | whatever has arrived already, the next partial or final completion can report more than `maxLength` exactly when the message is larger than it (and holds the minimum) |
| ReceiveEngine.TeardownAnswersAll | src/taps_connection.c:409-413 | with the repaired teardown, every receive of the connection's life, those submitted in its callbacks included, has exactly one callback, and their bytes are all bytes read |
| ReceiveEngine.TeardownCallbacks | src/taps_connection.c:409-413 | each callback of the teardown is receiveError, newest receive first, with the bytes it held; those made before stand; as written the same, if sound |
| ReceiveEngine.TeardownAsWrittenIff | src/taps_connection.c:409-413 | as written it does the same exactly with at most one receive queued, whose callback submits none; else it uses freed memory |
| SendEngine.ExactlyOnce | src/taps_connection.c:154-243 | in every run each submitted message is queued or has had exactly one callback |
| SendEngine.HistoriesAreEvents | src/taps_connection.c:154-243 | in every run, refused writes or not, the messages submitted are those the application sent, and the callbacks answer the messages the protocol was handed, in that order, with the outcomes it reported |
| SendEngine.SubmitEffect | src/taps_connection.c:216-243 | a Send is queued behind the others, and handed over exactly when no event is pending and, repaired, nothing is queued |
| SendEngine.CompleteEffect | src/taps_connection.c:154-214 | a completion answers the message handed over with its outcome, and hands over the one behind it |
| SendEngine.InOrderIffNoRefusedWrite | src/taps_connection.c:154-169 | callbacks then queue is the order of submission, the protocol was handed messages in that order and works on the oldest: exactly in runs where no idle protocol refused a write |
| SendEngine.NoRefusedWriteIff | src/taps_connection.c:166-168 | those are the runs in which each write into an empty queue, and each of the message behind a completed one, is taken |
| SendEngine.StuckForever | src/taps_connection.c:167-169 | after a refused write the oldest queued message stays queued in every continuation |
| SendEngine.RefusedWriteStrandsHead | src/taps_connection.c:237-241 | the concrete run: one refused write, and its message is at the head of the queue for ever |
| SendEngine.RepairedNeverFindsProtocolBusy | docs/protocols.md:70-73 | with the flag cleared, one send is handed over at a time in every run, and the flag is set exactly when the queue is empty |
| SendEngine.BusyIffSendsOverlap | src/tcp/tcp.c:278-281 | as written, the "Sending with event pending" branch is reached exactly when a send overlaps an earlier one |
| SendEngine.SendErrorIff | src/taps_connection.c:216-243 | in every run a Send always queues its message; the code it returns: an error exactly if, as written, an event is pending or its write fails, and repaired, its write into an empty queue fails; else its length, or 0 if it waits |
| SendEngine.SecondSendReportedFailedThenSent | src/taps_connection.c:237-241 | the concrete run: the second of two sends is reported as failed, and then sent |
| SendEngine.CompletionsDrainQueue | src/taps_connection.c:161-184 | as many completions as queued messages empty the queue, answer them in order, and leave the connection ready |
| SendEngine.WireIsPrefixOfSubmitted | src/taps_connection.c:166-168 | in runs without a refused write, the bytes handed over are a prefix of the bytes submitted |
| SendEngine.TeardownAnswersAll | src/taps_connection.c:405-408 | with the repaired teardown, every message of the connection's life, those sent in its callbacks included, has exactly one callback |
| SendEngine.TeardownCallbacks | src/taps_connection.c:405-408 | each callback of the teardown is sendError, newest message first; those made before stand; as written the same, if sound |
| SendEngine.TeardownAsWrittenIff | src/taps_connection.c:405-408 | as written it does the same exactly with at most one message queued, whose callback sends none; else it uses freed memory |
| Streams.EndToEnd | src/taps_connection.c:154-397 | over a reliable protocol that refuses no write, what the receiving application is given is a prefix of what the sending one submitted, for all such runs of the sender and all runs of the receiver |
| Connections.Sender.Send | src/taps_connection.c:216-243 | on the linked queue and flags: the engine's step, and the code returned |
| Connections.Sender.SendCommon | src/taps_connection.c:154-169 | unlinks one item anywhere in the queue and frees it, then hands over the one behind it or becomes ready |
| Connections.Sender.Completed | src/taps_connection.c:171-214 | the engine's step, and the callback made |
| Connections.Sender.FreeAsWritten | src/taps_connection.c:405-408 | uses freed memory exactly with two or more queued sends, or one whose callback sends another; otherwise notifies what the teardown should |
| Connections.Sender.FreeRepaired | src/taps_connection.c:405-408 | the engine's teardown: sendError for every queued send and those its callbacks add, newest first; frees every item |
| Connections.Receiver.Receive | src/taps_connection.c:363-397 | the engine's step: the item goes to the end of the queue; refused and without effect when a callback is missing |
| Connections.Receiver.ReadEvent | src/tcp/tcp.c:133-151 | bytes were read: they land in the posted list, the item counts them, a list not the message's own is freed |
| Connections.Receiver.ReadLost | src/tcp/tcp.c:141-149 | -1 or 0: the read is no longer pending, and nothing else happens |
| Connections.Receiver.Deliver | src/taps_connection.c:310-311 | unlinks and frees the item, and reports its length; touches freed memory exactly as written and for a successful callback |
| Connections.Receiver.ReceivedPartial | src/taps_connection.c:314-361 | the engine's step, the length reported, if any, and whether it came from a freed item |
| Connections.Receiver.Received | src/taps_connection.c:290-312 | the engine's step, the kind of callback, its length, and whether that came from a freed item |
| Connections.Receiver.ReceiveError | src/taps_connection.c:273-288 | the engine's step |
| Connections.Receiver.FreeAsWritten | src/taps_connection.c:409-413 | uses freed memory exactly with two or more queued receives, or one whose callback submits another |
| Connections.Receiver.FreeRepaired | src/taps_connection.c:409-413 | the engine's teardown: receiveError for every queued receive and those its callbacks add, newest first; frees every item |
| ItemQueue.Queue.Add | src/taps_connection.c:50-59 | appends, keeping a chain linked both ways |
| ItemQueue.Queue.Delete | src/taps_connection.c:61-70 | removes a head, middle or tail item and no other, keeps the order, frees the item |
| ItemQueue.Queue.DrainAsWritten | src/taps_connection.c:405-413 | the loop as written, with what each callback adds, makes the callbacks of `DrainLoop` or uses freed memory when that has none; a single item is leaked |
| ItemQueue.DrainLoopIff | src/taps_connection.c:61-70 | the macro on the tail, and the repaired loop: the same callbacks exactly for at most one item whose callback adds none |
| ItemQueue.AnsweredOnce | src/taps_connection.c:405-413 | the repaired loop answers each queued item and each item added by its callbacks exactly once |
| ItemQueue.ReactionIsAnswered | src/taps_connection.c:405-413 | the concrete queue of one item whose callback adds another: both answered, repaired; as written a freed item is used |
| ItemQueue.Queue.DrainRepaired | src/taps_connection.c:405-413 | the loop with the item in a variable makes those callbacks, newest item first, and frees each |
| ScatterList.TruncIovec | src/taps_connection.c:245-271 | a fresh list exactly when the list is long enough, equal to the specification, with the matching count |
| ScatterList.DropVecAddrs | src/taps_connection.c:245-246 | the new list covers the original's addresses without the first `len` |
| ScatterList.DropVecCompose | src/taps_connection.c:338 | dropping a and then b is dropping a + b |
| ScatterList.CutBetweenEntries | src/taps_connection.c:254-270 | the concrete lists: a cut between two entries leaves an empty entry in front when dropping, and none behind when keeping |
| ScatterList.SplitLaw | src/taps_message.c:104-123 | what truncation keeps followed by what dropping leaves is the whole list |
| ScatterList.FillAppends | src/tcp/tcp.c:140-150 | reading into the rest of a list keeps the bytes before it and appends the new ones |
| Messages.Message.Truncate | src/taps_message.c:104-123 | in place: the first `length` bytes stay in view, or none if there are fewer |
| Messages.TruncateKeepsPrefixIff | src/taps.h:288-289 | truncation leaves at most the first `length` bytes exactly when the message has that many or is empty; else it leaves none |
| Messages.TruncateBeyondEndEmpties | src/taps_message.c:117-119 | the concrete message: three bytes truncated to five become none |
| Messages.TruncateTwice | src/taps_message.c:104-123 | the shorter of two truncations wins |
| Messages.Message.GetFirstBuf | src/taps_message.c:84-93 | the first entry, which is where the message's bytes begin exactly unless truncation has left nothing in view of it |
| Listeners.RefCountIsHolders | src/taps_listener.c:41-181 | in every run the count is the number of connections holding the listener, modulo 2^32 |
| Listeners.HoldersAreOpen | src/taps_listener.c:41-64 | in every run, the holders are exactly the connections that were taken and have not ended since; the protocol has stopped, or been told to, exactly when such an event came |
| Listeners.AcceptEffect | src/taps_listener.c:48-63 | a connection that is taken holds the listener; one that is not leaves holders, count and callbacks as they were |
| Listeners.TerminateEffect | src/taps_connection.c:89-118 | a connection that ends lets go, and makes the one deferred call if the count is then zero |
| Listeners.StoppedFiresOnceIff | src/taps.h:238-242 | the stopped callback is made exactly once when the protocol has stopped and the last connection is gone, never before: exactly in runs without a Free before Stop and without a state in which the protocol has stopped and the connections left are a positive multiple of 2^32 |
| Listeners.AlwaysStoppedOnceIff | src/taps_listener.c:66-181 | without such a Free, at every moment of the run: exactly if there is no such state |
| Listeners.EarlyFreeEndsInNullCall | src/taps_listener.c:189-193 | in the other runs it is never made, and the last event waited for calls through NULL |
| Listeners.FreeWithoutStopCallsNull | src/taps_listener.c:66-78 | the concrete run |
| Listeners.StopThenFreeSucceedsIff | src/taps_listener.c:155-202 | from any point of any run: Stop, then the open connections ending in any order, then Free: one stopped callback and the listener is freed, exactly if fewer than 2^32 connections were open |
| Listeners.FreedMeansDone | src/taps_listener.c:195-201 | a freed listener has delivered Stopped; unless the count was misread no connection holds it and nothing uses it again |
| Listeners.FreeRefusedIff | src/taps_listener.c:195-198 | Free returns -1, changing nothing, exactly between Stop and the stopped callback |
| Listeners.WrappedCountFiresEarly | src/taps_listener.c:74-177 | the concrete runs of 2^32 accepts: Stopped comes with all of them open, Free succeeds, and the next to end uses the freed listener; with one more, Stopped comes when the first ends |
| Listeners.Listener.ConnectionReceived | src/taps_listener.c:41-64 | takes a reference; if the application returns no callbacks the count is as before |
| Listeners.Listener.Deref | src/taps_listener.c:170-181 | gives up one reference, and makes a deferred callback |
| Listeners.Listener.Stop | src/taps_listener.c:155-168 | stores the callback, or is refused without one |
| Listeners.Listener.ProtocolStopped | src/taps_listener.c:66-78 | makes the callback now or leaves it to the last connection |
| Listeners.Listener.Free | src/taps_listener.c:183-202 | early, refused, or freed: the new state and code of each |
| Listeners.Connection.Closed | src/taps_connection.c:89-118 | lets go of the listener and forgets it |
| YamlConfig.ParseRendered | src/taps_cfg.c:59-162 | round trip: documents with fields in any order, repeats and unknown ones included, parse to what they describe, the first that fit, exactly when each has its three strings; either way the documents begun are in the first slots and the others untouched |
| YamlConfig.KeyMeaning | src/taps_cfg.c:117-159 | in any state with no key pending, "name", "protocol" or "libpath" and a value set that string, "properties" and a value add that ability, an unknown key does nothing; nothing else changes |
| YamlConfig.StructureEffect | src/taps_cfg.c:65-116 | which other events touch the array, the current slot, and the pending key |
| YamlConfig.SkippedEventsDoNotMatter | src/taps_cfg.c:157-159 | events the parser skips make no difference, wherever they come |
| KernelConfig.KernelParses | kernel.yaml:1-22 | the file's own events parse to its two descriptors, with the bits of the abilities it lists |
| YamlConfig.AbilitiesAreThoseListed | src/taps_cfg.c:123-133 | a descriptor's word has exactly the abilities listed, in any order, with repeats and unknown names |
| Abilities.NamesStandForBits | src/taps.h:170-177 | which of the sixteen names stands for which bit, and that no other name does |
| YamlConfig.RejectedIff | src/taps_cfg.c:65-115 | on every event sequence the level is the nesting depth; the next event is rejected exactly when out of place or ending an incomplete document |
| YamlConfig.ReturnedAreComplete | src/taps_cfg.c:84-95 | every descriptor returned has name, protocol and library; never more than fit |
| YamlConfig.ParseYaml | src/taps_cfg.c:37-162 | the loop, in place, is that machine |
| Cleanups.FreesTwiceIff | src/taps_cfg.c:163-179 | as written, after any failed parse the loop never ends, and from its second round on has freed a pointer twice exactly when the first entry has a protocol or a library |
| Cleanups.RepairFreesEachOnce | src/taps_cfg.c:163-179 | repaired, on every event sequence that fails: only copies the parse made are freed, each once, and all that are in the array, exactly if none was stored outside a document |
| Cleanups.CopiesAreTheStrings | src/taps_cfg.c:117-152 | on every event sequence, each copy in the array is of the scalar whose value its entry has in that place |
| Cleanups.CleanUp | src/taps_cfg.c:170-177 | the repaired loop frees the strings of the finished slots and of a document under way, in order |
| Accumulation.RepairedAccumulates | src/taps_cfg.c:199-219 | adding to the count gives the concatenation in order, cut at the limit, nothing overwritten, whatever the files |
| Accumulation.AgreesIff | src/taps_cfg.c:213-215 | assigning it gives that exactly when one file yields |
| Discovery.UpdateProtocols | src/taps_cfg.c:182-222 | the loop over the directory, in place: skips names and unreadable files, stops when full |
| Discovery.FilesReadAre | src/taps_cfg.c:199-208 | the files read are exactly those that can be opened and are named by two characters or more and "yaml", each once, in directory order |
| Discovery.KernelYamlIsRead | src/taps_cfg.c:199-208 | the concrete directory: of kernel.conf, kernel.yaml, xyaml, a file that cannot be opened and yaml.old, only kernel.yaml |
| Discovery.RepairedDiscovery | src/taps_cfg.c:182-222 | repaired, the concatenation in directory order of what each file parses to |
| Discovery.CompleteDiscovery | src/taps_cfg.c:182-222 | for complete files: all their descriptors, in order, as far as they fit |
| Discovery.DiscoveryIffOneFileYields | src/taps_cfg.c:213-216 | as written, exactly when only the last file has a document or the first that has fills all slots |
| Discovery.SecondFileHidesFirst | src/taps_cfg.c:213-215 | the concrete case of two files |
| Discovery.LimitBeyondArrayIff | src/taps_preconnection.c:141-180 | with the limit of 256, for any files, memory behind the array of 255 is written exactly when a file, from where it is put, begins documents behind the 255th slot |
| Discovery.CompleteFilesBeyondArrayIff | src/taps_preconnection.c:141-180 | for complete files: as written when one, alone or with the one just before it, has more than 255 documents; repaired, when all together have |
| Discovery.TwoFilesGoBeyondArray | src/taps_cfg.c:213-215 | the concrete case: files of 200 and 56 documents |
| Accumulation.WritesLastIff | src/taps_cfg.c:213-215 | for any files and entries: the last slot changes exactly when a file begins so many entries that they reach it from where it is put |
| TransportProperties.LastWriteWinsIff | src/taps_transport_properties.c:59-154 | after any calls at all, an ability has the preference last written for it and no other, exactly unless its own setter was called last and the last call that named it required, avoided or prohibited it; `explicitlySet` is what was written |
| TransportProperties.VectorsEncodeLastWrites | src/taps_transport_properties.c:27-154 | after any documented setter calls the vectors are disjoint and say, for each of 16 abilities, what was written last or its default |
| TransportProperties.DefaultsByName | src/taps_transport_properties.c:27-57 | the default of each ability, by its name, for each type of connection |
| TransportProperties.StoredAreLast | src/taps_transport_properties.c:59-84 | after any calls, multipath, direction and advertises_altaddr are the values last given, or their defaults |
| TransportProperties.OwnSetterEffect | src/taps_transport_properties.c:59-84 | what each dedicated setter stores, and for which values it prefers its ability |
| TransportProperties.OrdinaryAbilitiesEncodeLastWrites | src/taps_transport_properties.c:114-154 | for the 13 documented names, after any calls |
| TransportProperties.CallEffect | src/taps_transport_properties.c:59-84 | what a call changes; a dedicated setter takes effect exactly when the ability is in no other vector |
| TransportProperties.DisabledMultipathStaysRequired | src/taps_transport_properties.c:59-66 | the concrete calls |
| TransportProperties.TransportPropertiesObject.Set | src/taps_transport_properties.c:114-154 | the loop, the clearing and the setting, on the fields |
| Preconnections.PassingIsSubsequence | src/taps_preconnection.c:179-195 | the candidates are exactly the descriptors that pass, in order |
| Preconnections.PassesIff | src/taps_preconnection.c:182-184 | the test on words: every required ability and no prohibited one |
| Preconnections.PassesIffNamed | src/taps_preconnection.c:182-184 | from any setter calls to candidates: has every ability last required by name, none last prohibited by name |
| Preconnections.PassesIffWanted | src/taps_preconnection.c:182-184 | that is what the last calls ask for, whatever the descriptors, exactly when no ability was given to its own setter after being required or prohibited by name |
| Preconnections.StrongerKeepsSome | src/taps_preconnection.c:181-195 | requiring or prohibiting more never adds a candidate |
| Preconnections.MildPreferencesDoNotMatter | src/taps_preconnection.c:181-195 | prefer, ignore and avoid change nothing |
| Preconnections.CandidatesIffCountStartsAtZero | src/taps_preconnection.c:157-195 | the right candidates exactly when the uncleared count was zero; writes beside the array exactly outside 0 to 256 |
| Preconnections.Preconnection.Select | src/taps_preconnection.c:181-195 | the loop, in place, is that selection |
| Preconnections.NewThenFree | src/taps_preconnection.c:179-205 | no preconnection without a candidate; every descriptor's strings are freed exactly once |
| Preconnections.Preconnection.Free | src/taps_preconnection.c:353-368 | frees every candidate's strings, last first |
| Endpoints.AddAlias | src/taps_endpoint.c:171-183 | from anywhere in two chains: terminates with the first followed by the second; in one chain, a ring |
| Endpoints.ChainsAreEqualOrDisjoint | src/taps_endpoint.c:49-50 | an endpoint is in one chain only |
| Endpoints.RingIsNoChain | src/taps_endpoint.c:171-183 | no endpoint of a ring lies in a chain |

## Left out

- Sockets, libevent, `dlopen`, `getifaddrs`, reading the directory and libyaml's tokenising are foreign calls; only the events and callbacks they present are modelled. A write is taken whole or fails.
- Failing allocations and messages on the console: no property speaks of them. A failing `event_add` for a read is not modelled; for a send it counts as a refused write.
- A protocol that completes an operation before the call that posts it has returned: the callbacks would then be made in another order (src/taps_connection.c:180-183).
- From inside the callbacks of `tapsConnectionFree`, a call on the other queue, and the handing over to the protocol of a send made there (src/taps_connection.c:405-413): `reactions` are the items added to the queue being emptied.
- Events that reach a connection or its queues after its teardown: nothing in `tapsConnectionFree` tells the protocol, so the model holds for applications that call it after the closed callback, when src/tcp/tcp.c has removed its events.
- The order of posting the next receive and unlinking the one before it (src/taps_connection.c:347-359) is swapped in `Connections.Receiver.ReceivedPartial`; no event comes between them.
- A second Stop, or a listener used after Free returned 0: the application's contract excludes them (src/taps.h:238-252).
- `conn_limit`, `proto_ctx` and the freeing of protocol handles of connections without a listener (src/taps_connection.c:98-100): initiating connections is disabled in the source.
- YamlConfig.ParseYaml: what the array holds before the first document starts is whatever the caller left there.
- Cleanups.RepairFreesEachOnce: strings that are no longer in the array when the parse fails (a repeated field's first value, an unknown key's value) are not tracked as leaks; nor are the pending key and value, which are freed before the loop (src/taps_cfg.c:164-169).
- Discovery.UpdateProtocols: a file whose parse fails counts as one that gives nothing, as its `return 0` intends; as written the clean-up before it never ends (Cleanups).
- Discovery.UpdateProtocols: the limit is the length of the array; the caller's mismatch of 256 and 255 is the subject of LimitBeyondArrayIff, which takes the memory behind the array for a 256th slot.
- Write-once endpoint setters, property getters, STUN fields, ports, `tapsTransportPropertiesSetInterface`, the fields of `tapsCallbacks` that are only copied: each is read off one branch.
- Everything under `#if 0`, and `numberOfSetBits`, which only that code calls.
