# LES Mesh Chat: a verified model of offline replication

This project models `les-chatd`, the daemon of LES Mesh Chat: its bounded message
store, the message service over it, push replication and catch-up synchronisation
between nodes, the display order, the LuCI chat page, UTF-8 validation, the message
codec, clock synchronisation and peer discovery. `dafny verify dfyconfig.toml`
checks everything.

## How it is built

The code works by changing objects step by step, and so do the classes here:
`MessageStore` (rows under AUTOINCREMENT ids, the `sequences` table and the
in-memory copy), `MessageService`, the request handlers, `Clock`, `PeerRegistry`,
`DiscoveryService` and the page's `View`. Each method is proved equal to a function
on values (`StoreModel`, `ServiceModel`, `SyncModel`, `TimeSync`, `Discovery`), and
the theorems about runs are proved of those functions.

`Replication` is the whole network: any number of nodes, packets that may be lost,
repeated and reordered (a packet once sent may arrive at any later time, any number
of times, or never), crashes after any commit (before publishing, in the middle of a
batch, or between the prune and the retry of an add), restarts, full databases and
pruning; `Steps` says what each step does. `Convergence` and `Agreement` treat the runs without pruning in which pushes
arrive in order per origin; `ValidRuns` treats the runs of correctly configured
daemons, and `ModestRuns` those whose payloads always fit.

The database's page limit is any function of the two tables with any capacity
(`Limits`), and payload sizes are any function of what is sent (`Wire`), so the
theorems hold for every way of counting pages and every serialiser. `Payloads` has
the daemon's own texts and their sizes, and `PayloadLimits` what follows from them.

## Main results

* Every copy of an (origin, sequence), in any store or in flight, is the same
  message, in every run, and no sequence is used twice across crashes and pruning.
* The table is always the newest part of the history of accepted messages, within
  capacity; marks are the highest sequence ever accepted.
* Published events are exactly the newly stored messages of a process lifetime.
* In orderly runs a store holds, of each origin, exactly the sequences 1 to its mark.
* A quiescent network is one in which every node holds every message. After any
  orderly run, with all nodes up, sweeps of rounds over all pairs reach that state in
  one sweep for every 50 messages that the neediest node lacks.
* Repeated rounds deliver messages the receiver was missing, each once and in the
  sender's order, 50 a round. With room on disk they recover everything the sender
  holds above the receiver's marks if and only if the payloads of a plan drawn up at
  the start fit and every cut between two batches ascends per origin.
* In a network of at most 46 valid nodes, where no message takes more than 2336 octets
  for callsign and body on the wire, every payload of every round fits.

## Where the code does less than its documentation

The repository's README (line 16) promises that missed sequence ranges are recovered
on reconnection. With room on disk (which a full disk may regain by pruning, so it is
enough but not needed), what a sender holds above the receiver's marks is recovered if
and only if two conditions hold, both of which can be judged from the two stores before
the first round (`RecoveredExactly`, `CatchUpFromStart`):

* Every planned payload stays within its request limit (4096 and 131072 bytes). A round
  over a limit is refused, and is repeated unchanged for ever. Fifty accepted bodies of
  2048 slashes stop catch-up for good (`SlashesStall`), and so does knowing 59 origins
  with node ids of 64 bytes (`ManyNamesMesh`).
* No cut between two batches falls between two messages of one origin that the sender
  stored in the wrong order (`CutsAscend`). A sender that took message 2 of an origin,
  made 49 of its own, and took message 1 late gives a fresh peer the first 50 rows. The
  peer's mark is then 2, and no round with any node brings message 1 (`CutOffForEver`).
  Tables that ascend per origin, as in orderly runs, have no such cut
  (`AscendingTableCuts`).

What lies at or below the receiver's mark is not recovered:

* No round over a fresh summary brings a message below the receiver's mark (`GapStays`,
  `OvertakenPushIsLost`). A late push or a stale batch still does, whenever the disk has
  room for it (`ArrivalFillsGap`). A push keeps a store free of gaps exactly if it lies at
  most one above the mark (`PushOrderExactly`).
* Such gaps need no fault of the network. A push over 4096 bytes is refused by every
  peer; of pushes that all arrive in order, one is left in a gap exactly if it is over
  that limit and a later one of its origin is not (`OversizePushExactly`). A body of
  2048 slashes, which `create_message` accepts, is lost that way (`LongBodyIsLost`).

Also: the replication endpoint publishes a message it does not store when the key is
already taken under another id (`ReplicaPublishesWhatItStores`), which messages made
by nodes never trigger (`IdTestIsKeyTest`); an add that fails for lack of room has
still thrown away the 100 oldest messages (`AddOutcome`); and a message that arrives is
published exactly if its key is not in the table and it fits, now or after the prune
(`PublishedExactly`), so a pruned message that arrives again is published again
(`PrunedIsPublishedAgain`), which cannot happen while nothing is pruned
(`PublishedOnce`).

## Model

| member | source | states |
|---|---|---|
| Messages.DecimalRoundTrip | src/message_service.cpp:40-41 | the decimal digits of a sequence determine it and have no leading zero |
| Messages.MessageIdInjective | src/message_service.cpp:40-41 | message ids are unique over all node ids and sequences |
| Messages.KeysAgree | src/message_store.cpp:138-145 | for messages nodes make, the two UNIQUE constraints reject the same rows |
| StoreModel.AddOutcome | src/message_store.cpp:194-276 | exactly when an add stores, ignores, fails for room or is out of range, and that uniqueness and marks survive |
| StoreModel.AddExactly | src/message_store.cpp:194-276 | each of the four outcomes if and only if its condition on rows, sizes and range, with the rows and marks it leaves |
| StoreModel.PruneKeepsInvariant | src/message_store.cpp:252-258 | pruning keeps uniqueness and marks, and frees no message of a clash that was not there |
| StoreHistory.BoundedFifo | src/message_store.cpp:252-276 | after any adds the table is the newest part of the accepted history, within capacity, unique, and marks are the highest sequences ever accepted |
| StoreHistory.NextSequenceIsFresh | src/message_store.cpp:282-295 | the next sequence exceeds every one ever accepted, pruned ones included |
| StoreHistory.RunInTurn | src/message_store.cpp:260-276 | a run of the store is its adds in turn, and its history takes what the store takes |
| MessageStores.InOrderAboveCut | src/message_store.cpp:252-258 | deleting the lowest storage ids drops exactly the front of the table |
| MessageStores.MessageStore.LoadMessages | src/message_store.cpp:152-184 | the copy becomes the table in storage order |
| MessageStores.MessageStore.Contains | src/message_store.cpp:186-192 | answers whether some row has the id |
| MessageStores.MessageStore.InsertMessage | src/message_store.cpp:194-250 | one transaction with deduplication, mark update and rollback |
| MessageStores.MessageStore.PruneOldestMessages | src/message_store.cpp:252-258 | removes the 100 oldest rows and reloads |
| MessageStores.MessageStore.Add | src/message_store.cpp:260-276 | insert, or prune and retry; copy and table agree after every outcome |
| MessageStores.MessageStore.NextSequence | src/message_store.cpp:282-295 | one above the mark, refused at a negative mark and at the last 64-bit sequence |
| MessageStores.MessageStore.SequenceSummary | src/message_store.cpp:297-320 | the summary is the table of marks, refused as a whole if one is negative |
| MessageStores.OpenDatabase | src/message_store.cpp:152-184 | a file opens exactly if no stored sequence is below 1, and then with every row in storage order |
| MessageStores.CloseAndReopen | src/message_store.cpp:64-95 | closing and reopening changes nothing that can be observed |
| MessageServices.MessageService.constructor | src/message_service.cpp:15-25 | a start counts on from one above the durable mark, with no events |
| MessageServices.MessageService.CreateLocal | src/message_service.cpp:37-54 | all seven fields of the message, the counter, the store, and publication and broadcast unless the store throws |
| MessageServices.MessageService.IngestReplica | src/message_service.cpp:56-64 | id test, add, publish |
| MessageServices.MessageService.IngestSync | src/message_service.cpp:66-73 | publishes exactly what the store took |
| MessageServices.Launch | src/message_service.cpp:15-25 | a daemon starts unless its last sequence is negative or used up, and then one above it |
| ServiceModel.CreateExactly | src/message_service.cpp:37-54 | the message's fields come from the identity, the counter, the body and the time of the call; replies and events follow the add |
| ServiceModel.ReplicaExactly | src/message_service.cpp:56-64 | a known id is a duplicate and changes nothing; else accepted and published unless the add throws |
| ServiceModel.SyncExactly | src/message_service.cpp:66-73 | accepted and published exactly if stored, a duplicate exactly if ignored |
| ServiceModel.BatchInTurn | src/http_api.cpp:578-601 | a batch is its messages in turn up to the first that fails |
| ServiceModel.KnownBatch | src/http_api.cpp:578-609 | on any disk a batch of messages the store has is read to its end, changes nothing and counts 0 |
| ServiceModel.ReplicaPublishesWhatItStores | src/message_service.cpp:56-64 | reply and event match what was stored, except exactly when the key is taken under another id |
| ServiceModel.IdTestIsKeyTest | src/message_service.cpp:57-59 | for messages nodes make, the id test is the store's own test |
| SyncModel.MissingMember | src/sync_service.cpp:169-185 | the selection holds exactly the rows above the peer's marks |
| SyncModel.CutLaw | src/sync_service.cpp:169-185 | cutting a batch skips nothing if and only if the cut ascends per origin, in any storage order |
| SyncModel.FreshBatchNeverWasted | src/http_api.cpp:578-601 | every message of a fresh batch is new, counted and published in order, up to the first the disk has no room for |
| SyncModel.RoundLaw | src/sync_service.cpp:151-195 | one round delivers the first 50 of what is missing, or the part before an obstacle |
| CatchUp.RoundsInTurn | src/sync_service.cpp:65-121 | rounds run in turn, each with what the one before left |
| CatchUp.CatchUpLaw | src/sync_service.cpp:166-194 | after any number of rounds, in any storage order, what was gained followed by what is missing is what was missing at first, less messages that fell below the marks |
| CatchUp.CatchUpCompletes | src/sync_service.cpp:166-194 | within ceil(m / 50) rounds of fitting payloads nothing is missing above the marks |
| CatchUp.OversizeStalls | src/http.cpp:157-169 | a payload over its limit blocks catch-up for ever, for any serialiser |
| CatchUp.CatchUpExactly | src/http_api.cpp:545-552 | with room on disk, nothing is missing above the marks in the end if and only if every planned payload is within its limit |
| CatchUp.FollowsPlan | src/sync_service.cpp:65-121 | while payloads fit and the disk has room the receiver's marks are the planned ones |
| CatchUp.RecoversAllExactly | src/sync_service.cpp:166-194 | with room on disk the receiver publishes exactly what it was missing, in order, if and only if planned payloads fit and all cuts ascend |
| CatchUp.PlanInOrder | src/sync_service.cpp:169-185 | where cuts ascend the plan is 50 messages further in every round |
| CatchUp.AscendingTableCuts | src/sync_service.cpp:169-185 | the cuts of a table ascending per origin ascend |
| CatchUp.RoomForMissing | src/message_store.cpp:260-276 | if any part of what is missing could be stored in turn (or, where cuts ascend, all of it) no round finds the disk full |
| CatchUp.CatchUpFromStart | src/sync_service.cpp:151-195 | completion and full recovery, each if and only if its conditions hold of the two stores before the first round |
| SyncModel.RoundShortens | src/sync_service.cpp:166-194 | every round that delivers shortens what is missing, whatever the storage order |
| SyncGaps.GapStays | src/sync_service.cpp:171-180 | a message missing below the mark stays missing through rounds with any peers |
| SyncGaps.VisitsInTurn | src/sync_service.cpp:87-120 | rounds with several peers run in turn |
| SyncGaps.ArrivalFillsGap | src/message_service.cpp:56-73 | a missing message that arrives by push or in a stale batch is stored if and only if it fits |
| SyncGaps.RecoveredExactly | src/sync_service.cpp:171-180 | catch-up never brings a message at or below the starting mark, and brings all above it if and only if planned payloads fit and all cuts ascend |
| SyncGaps.OvertakenPushIsLost | README.md:16-16 | a push that overtakes another leaves a gap that no round fills |
| Payloads.MessageSize | src/message_codec.cpp:42-87 | the text of a message takes more octets than its escaped callsign and body, and at most 283 more |
| Payloads.BatchSize | src/sync_service.cpp:188-194 | bounds on the text of a batch from the words of its messages |
| Payloads.BatchTextExactly | src/sync_service.cpp:188-194 | a batch's text is its messages' texts, a comma between each two and 51 octets around them |
| Payloads.SummarySize | src/sync_service.cpp:73-85 | bounds on the text of a summary from the number of origins and the length of their names |
| Payloads.EntriesInAnyOrder | src/sync_service.cpp:76-79 | the order in which the hash table yields origins does not change a summary's size |
| Payloads.EntryTextExactly | src/sync_service.cpp:76-79 | a member of a summary takes its escaped name, its number and four octets |
| Payloads.PlainWordsAreModest | src/json.cpp:21-30 | text without quotation marks, slashes and control characters never makes a batch too long |
| PayloadLimits.PushedLaw | src/http_api.cpp:455-485 | pushes arriving in order leave exactly those within the limit, and the marks they raise |
| PayloadLimits.ReceivePushes | src/http_api.cpp:455-485 | the endpoint, posted one message after the other, does what the pushes of the model do |
| PayloadLimits.OversizePushExactly | src/http_api.cpp:455-485 | of pushes arriving in order one is left in a gap if and only if it is over the limit and a later one of its origin is not |
| PayloadLimits.OversizePushIsLost | src/sync_service.cpp:171-180 | no round with any peer fills that gap |
| PayloadLimits.LongBodyIsLost | README.md:16-16 | an accepted body of 2048 slashes is lost for every peer that takes the next message |
| PayloadLimits.SlashesStall | src/http_api.cpp:545-552 | fifty accepted messages whose batch is over the limit: a fresh peer never gets one of them |
| PayloadLimits.ManyNamesStall | src/http_api.cpp:487-496 | 59 origins with names of full length make a summary that no peer answers |
| PayloadLimits.ManyNamesMesh | src/http_api.cpp:487-496 | a node reaches that state by taking the first push of each of 59 such nodes |
| PayloadLimits.ModestMeshCatchesUp | src/sync_service.cpp:73-195 | with at most 46 origins and modest words every payload fits, and catch-up recovers all exactly if the cuts ascend |
| BatchCuts.CutOffForEver | README.md:16-16 | a message above a fresh peer's mark, held by the sender, with room and all payloads in their limits, that no round ever brings |
| BatchCuts.LateTakerCutsExactly | src/sync_service.cpp:180-185 | in that run the message is cut off exactly if 49 messages or more lie between |
| SyncServices.SendMissing | src/sync_service.cpp:151-195 | the loop selects the first 50 rows above the marks that the summary shows under the origins' C strings |
| SyncServices.SummaryTravels | src/sync_service.cpp:73-85 | a mark survives the summary's JSON, whose names are C strings |
| SyncServices.LastOfExactly | src/sync_service.cpp:171-179 | only a positive integer under the origin's C string is a mark; all else counts as 0 |
| SyncServices.OriginsObject | src/sync_service.cpp:76-79 | the object holds a member for every origin's C string, set by one of the origins it stands for |
| SyncServices.HandleSummaryResponse | src/sync_service.cpp:141-186 | nothing is sent unless the response is within the limit and has origins |
| SyncServices.SomeMarksShown | src/sync_service.cpp:171-179 | whatever object a peer answers with, it shows some marks |
| HttpApi.CreateMessage | src/http_api.cpp:333-403 | each refusal in turn, from the content type on, without effect; else a message is created that every peer can parse |
| HttpApi.ComplaintExactly | src/http_api.cpp:333-389 | each refusal of a new message if and only if its condition, and none for every valid request |
| HttpApi.ReplicateMessage | src/http_api.cpp:455-485 | refused exactly if it cannot be read within the limit or parsed, else ingested |
| HttpApi.PushIsReadIfSmall | src/http_api.cpp:455-462 | a push of a message that travels is read exactly if it is within the limit |
| HttpApi.SyncSummary | src/http_api.cpp:487-543 | a well-formed request within the limit is answered with the marks |
| HttpApi.AnswersExactly | src/http_api.cpp:487-543 | refused unread, refused as malformed, failed at a negative mark or answered, each if and only if its condition |
| HttpApi.SummaryRequestExactly | src/http_api.cpp:498-515 | the protocol, type and origins that a summary request must have |
| HttpApi.SyncMessages | src/http_api.cpp:545-610 | reading, then protocol, type, array and count, then item by item up to the first bad one |
| HttpApi.PostedExactly | src/http_api.cpp:545-576 | a batch request that is refused changes nothing; else its items are taken |
| HttpApi.BatchRequestExactly | src/http_api.cpp:556-576 | the protocol, type, array and count that a batch request must have |
| HttpApi.ReadJsonObject | src/http_api.cpp:50-76 | an object is read exactly if content type, size and text are right, and complete where that is required |
| HttpApi.IngestItems | src/http_api.cpp:578-609 | the ingest loop and its count |
| HttpApi.NextItem | src/http_api.cpp:581-601 | a bad item or an exception ends the batch; else the next item counts exactly if stored |
| HttpApi.BatchTravels | src/http_api.cpp:578-601 | through its JSON trees a batch is ingested as it was sent |
| HttpApi.SyncRound | src/sync_service.cpp:73-195 | the handlers and loops of a round together are the Round of SyncModel |
| ValidRuns.ValidRunsStayValid | src/main.cpp:82-113 | in every run of correctly configured daemons all messages are theirs and all marks are under valid names and in range |
| ValidRuns.FreshNetworksStart | src/main.cpp:82-113 | any set of daemons over fresh databases is a start, a valid one exactly if each configuration is valid |
| ValidRuns.HandlersMakeValidSteps | src/http_api.cpp:333-391 | a body that draws no complaint makes a valid step, and so does every step but a create |
| ValidRuns.PresentTravels | src/message_codec.cpp:10-87 | there every message in a table, in flight or ever committed survives its JSON |
| ValidRuns.RoundsAreReady | src/sync_service.cpp:73-195 | there the conditions of SyncRound hold between any two nodes |
| Replication.StepKeepsInvariant | src/message_service.cpp:25-73 | every step of every node keeps the system invariant; what each step does is stated in the Steps rows |
| Steps.StartIsBoot | src/message_service.cpp:15-25 | a daemon's start is the start of a run's member: one above the mark, no events |
| Steps.PushStep | src/message_service.cpp:56-64 | a delivered push leaves the message in the store if it was there or fits, published exactly if stored, and nothing else changes |
| Steps.CreateStep | src/message_service.cpp:37-54 | a create in range with room is in the author's table and the history, published and sent unless the process dies; else nothing is |
| Steps.AnswerStep | src/http_api.cpp:519-542 | a summary carries the marks as they are |
| Steps.SendStep | src/sync_service.cpp:166-194 | for any summary the first 50 rows above its marks are sent, if there are any |
| Steps.BatchStep | src/http_api.cpp:578-601 | a delivered batch is ingested in turn, whole or up to the crash, with its events |
| Steps.BatchArrives | src/http_api.cpp:578-601 | by its turn every message of a batch is in the store, or the batch has failed |
| Steps.DieStep | src/message_store.cpp:260-276 | dying after the prune of a full add leaves the younger rows and all marks |
| Steps.RestartStep | src/message_service.cpp:15-25 | a restart keeps the store and begins a new lifetime |
| Steps.IdleStep | src/replication_service.cpp:30-69 | a step of a stopped process, or of a packet never sent, changes nothing |
| Replication.RunKeepsInvariant | src/message_service.cpp:25-73 | the invariant holds in every reachable state, with crashes after any commit, restarts and pruning |
| Replication.CopiesAreIdentical | src/message_service.cpp:37-54 | any two copies of an (origin, sequence) anywhere are the same message |
| Replication.NextIsUnused | src/message_service.cpp:25-49 | every message of an origin, anywhere, has a sequence at most its durable mark and below its next sequence |
| Replication.CreateStores | src/message_service.cpp:49-52 | the ignored result of the add is always true when a node creates |
| Replication.EventsExactlyOnce | src/message_service.cpp:27-73 | published events are exactly the newly stored messages of a lifetime, in order |
| Lifetimes.PublishedOnce | src/message_service.cpp:27-73 | in a run without pruning no lifetime publishes a message twice, and all it published it holds |
| Lifetimes.UnlimitedRunsDoNotPrune | src/message_store.cpp:260-276 | on disks without limits every run is without pruning |
| Lifetimes.PublishedExactly | src/message_service.cpp:56-73 | an arrival is published if and only if its key is not in the table and it fits, now or after the prune |
| Lifetimes.PrunedIsPublishedAgain | src/message_store.cpp:268-275 | a push repeated after the prune of its message is stored and published again |
| Replication.MarksNeverFall | src/message_store.cpp:227-236 | durable marks never fall along a run |
| Convergence.BatchKeepsClosed | src/http_api.cpp:578-601 | each message of a batch in order keeps the closure |
| Convergence.MissingInOrder | src/sync_service.cpp:169-185 | what a closed table offers is in order for the asking peer |
| Convergence.StepKeepsClosure | src/sync_service.cpp:169-185 | every orderly step keeps the closure of all stores and packets |
| Convergence.OrderlyRunsStayClosed | src/sync_service.cpp:169-185 | every orderly run stays closed, under loss, duplication, reordering and stale summaries |
| Convergence.SyncOnlyRunsAreOrderly | src/sync_service.cpp:65-195 | runs in which no push arrives are orderly, with any creates, summaries, batches, crashes and restarts |
| Convergence.PushMayJoin | src/message_service.cpp:56-64 | a push may join exactly if it lies at most one above its receiver's mark |
| Convergence.HoldsExactlyBelowMark | src/sync_service.cpp:169-185 | a store holds, per origin, exactly the committed messages up to its mark, all sequences from 1, ascending |
| Convergence.PushOrderExactly | src/message_service.cpp:56-64 | a push keeps the closure if and only if it lies at most one above the mark |
| Agreement.PendingExactly | src/sync_service.cpp:180-188 | nothing is sent exactly when the peer holds all the sender holds |
| Agreement.QuiescenceIsCompleteness | src/sync_service.cpp:180-188 | no node would send anything if and only if every node holds every message ever committed |
| Agreement.QuiescenceMeansAgreement | src/http_api.cpp:297-331 | in every orderly run a quiescent network lists the same messages on every node |
| Agreement.FreshRoundEffect | src/sync_service.cpp:151-195 | a completed round keeps the closure and changes only the receiver, by exactly what was pending |
| Agreement.RoundIsRun | src/sync_service.cpp:65-195 | such a round is a run of three steps |
| Agreement.SweepBrings | src/sync_service.cpp:151-195 | a sweep over all pairs brings each node a full batch of 50 or everything there is |
| Agreement.SweepsConverge | src/sync_service.cpp:65-121 | after any orderly run, with all nodes up, ceil(m / 50) sweeps over all pairs bring every message to every node, m being what the neediest node lacks; the sweeps prolong the run, under the nodes' own limits if no disk gets full, and all nodes show one list |
| ModestRuns.SweepGetsThrough | src/sync_service.cpp:73-195 | in a modest network each round of a sweep is the round of the handlers in the daemon's own sizes |
| ModestRuns.OrderlyRunsAreModest | src/main.cpp:82-113 | orderly runs of valid daemons with modest messages and all nodes up reach the states the sweeps start from |
| MessageOrder.BeforeIsStrictTotal | src/http_api.cpp:305-316 | the comparator is a strict total order on messages with different keys |
| MessageOrder.TextLessExactly | src/http_api.cpp:309-310 | texts compare lexicographically: the first octet that differs decides, and a beginning comes first |
| MessageOrder.KeysInTurn | src/http_api.cpp:305-316 | time decides first, then origin, sequence and id |
| MessageOrder.CreatedInTurn | src/message_service.cpp:45-45 | of messages created at different times on any nodes the earlier comes first |
| MessageOrder.SortOrders | src/http_api.cpp:302-317 | the list is strictly ordered |
| MessageOrder.OrderedArrangementUnique | src/http_api.cpp:302-317 | a set of messages has one ordered arrangement |
| MessageOrder.ArrivalOrderDoesNotMatter | src/http_api.cpp:297-331 | any two arrival orders of the same messages are listed alike |
| ChatView.View.FillMessages | openwrt/package/luci-app-les-chat/files/www/luci-static/resources/view/les_chat/chat.js:131-147 | the list becomes the sorted messages, the known ids theirs |
| ChatView.View.AppendMessage | openwrt/package/luci-app-les-chat/files/www/luci-static/resources/view/les_chat/chat.js:149-173 | unknown messages go before the first element they compare below, or to the end; known ones change nothing |
| ChatView.ComparatorsAgree | openwrt/package/luci-app-les-chat/files/www/luci-static/resources/view/les_chat/chat.js:44-65 | the page's comparator is the daemon's, on objects and on what elements remember |
| ChatView.CompareExactly | openwrt/package/luci-app-les-chat/files/www/luci-static/resources/view/les_chat/chat.js:44-65 | the page's four keys in turn, with callsign and message id as stand-ins |
| ChatView.ArticleShows | openwrt/package/luci-app-les-chat/files/www/luci-static/resources/view/les_chat/chat.js:107-129 | what an element shows and remembers of its message |
| ChatView.PageShowsDaemonOrder | openwrt/package/luci-app-les-chat/files/www/luci-static/resources/view/les_chat/chat.js:131-173 | fill and any appends, with repeats, show the daemon's order of the distinct messages seen |
| ChatView.PollCatchesUp | openwrt/package/luci-app-les-chat/files/www/luci-static/resources/view/les_chat/chat.js:363-383 | after a poll the page shows exactly the daemon's list |
| ChatView.RenderAndPoll | openwrt/package/luci-app-les-chat/files/www/luci-static/resources/view/les_chat/chat.js:340-383 | the page's methods, used as the page uses them, show the daemon's order |
| Utf8.PrefixFree | include/leschat/utf8.hpp:18-41 | no encoding begins another (section 3 of RFC 3629) |
| Utf8.EncodeExactly | include/leschat/utf8.hpp:18-67 | the lengths of section 3 of RFC 3629, and each octet carries its bits of the scalar value |
| Utf8.DecodingUnique | include/leschat/utf8.hpp:8-79 | a text decodes to at most one sequence of scalar values |
| Utf8.GrammarAgrees | include/leschat/utf8.hpp:8-79 | the grammar of section 4 of RFC 3629 describes exactly the encodings of section 3 |
| Utf8.IsValidUtf8 | include/leschat/utf8.hpp:8-79 | true exactly for the encodings of sequences of scalar values |
| MessageCodec.MessageToJson | src/message_codec.cpp:42-87 | builds the message's tree |
| MessageCodec.ParseMessage | src/message_codec.cpp:10-40 | accepts exactly the trees with all members in bounds, and each member becomes its own field |
| MessageCodec.TreeExactly | src/message_codec.cpp:42-87 | seven members, each under its own name |
| MessageCodec.CStringExactly | src/message_codec.cpp:53-65 | a C string ends at the first NUL or at the end |
| MessageCodec.Int64Exactly | src/message_codec.cpp:45-51 | a sequence is written as the congruent 64-bit number and read as the nearest one |
| MessageCodec.RoundTrip | src/message_codec.cpp:10-87 | a message survives the trip if and only if it is acceptable and no NUL cuts its id, origin or callsign |
| MessageCodec.OwnMessagesTravel | src/main.cpp:82-113 | every message of a validly configured node survives the trip |
| TimeSync.Clock.SetSystemTimeMs | include/leschat/clock.hpp:30-45 | sets the clock to the millisecond and clears the offset, or changes nothing |
| TimeSync.Clock.SynchronizeTime | src/discovery_service.cpp:364-397 | moves the clock as Synchronized says |
| TimeSync.Synchronized | src/discovery_service.cpp:364-397 | afterwards the local clock is within 250 ms of the authority's, and on it if it moved: by the system clock where permitted, else by the offset |
| TimeSync.AtMostOneAdjustment | src/discovery_service.cpp:372-378 | under jitter below 250 ms the clock moves at most once, and exactly if some signal is far from the start |
| TimeSync.SteadyMeans | src/discovery_service.cpp:372-378 | the jitter bound in terms of what the signals show and the time between them |
| TimeSync.SharpBound | src/discovery_service.cpp:376-378 | jitter of 250 ms can move it at every signal |
| PeerRegistries.PeerRegistry.Update | src/peer_registry.cpp:16-18 | the latest announcement replaces the last |
| PeerRegistries.PeerRegistry.ActivePeers | src/peer_registry.cpp:20-40 | exactly the peers aged 0 to 20000 ms, strictly sorted by node id |
| PeerRegistries.ActiveListUnique | src/peer_registry.cpp:34-38 | the order in which the map is walked does not show |
| Discovery.DiscoveryService.ReceiveAnnouncements | src/discovery_service.cpp:158-255 | each datagram is skipped or moves the clock and then, if its address converts, stamps the peer |
| Discovery.AcceptedExactly | src/discovery_service.cpp:176-236 | which datagrams are taken, and which member becomes which field |
| Discovery.ReceivedExactly | src/discovery_service.cpp:238-253 | what one datagram does to the clock and the registry |
| Discovery.ReceivedInTurn | src/discovery_service.cpp:158-255 | datagrams are received one after the other |
| Discovery.RefusedDisturbNothing | src/discovery_service.cpp:176-236 | datagrams that are not taken leave clock and peers alone |
| Discovery.RegistryIsLatest | src/discovery_service.cpp:238-253 | the registry holds each node's latest accepted announcement |
| Discovery.ActiveAfter | src/peer_registry.cpp:20-40 | active peers after any history are the latest announcements of the right age |
| Discovery.ActiveForTwentySeconds | src/discovery_service.cpp:238-253 | an announcer is active from its announcement on, clock jump or not, for exactly 20 seconds |

## Left out

- libevent, sockets, HTTP routing and status texts, SSE buffers: foreign calls; the model has the content type, the payload's size and what the parser makes of it.
- SQLite's own code, and disk errors other than a full database.
- JSON parsing: trees stand for what was read. Writing is modelled for sizes only, with json-c's escapes.
- Loss of a database, forged messages, and two nodes with one id: outside what the protocol tries to handle.
- `web/app.js`, the other LuCI views, command-line parsing and packaging: they would add only easy members.
- Strings are byte strings, one `char` a byte. JavaScript compares UTF-16 code units; the two orders agree on ASCII identifiers.
- JavaScript numbers are exact below 2^53; the page's sequences and times are taken to lie below it.
- The page's table of known ids is a plain object, so an id such as `constructor` counts as known from the start; ids made by nodes contain a colon and are not affected.
- The counter of next sequences is unbounded; it would wrap only after 2^64 creates.
- The page marks the node's own messages and formats times; the model's elements carry neither.
- Several competing time authorities: the stability theorem is about one.
- MessageOrder.SortOrders: ties under the comparator need equal ids, which the store forbids, so stability of the sort is not stated.
- Agreement.SweepsConverge: for stores with room, as a full disk may prune what a round brought; that rounds get through is shown for modest networks (ModestRuns.SweepGetsThrough).
