# Verified model of Remote Sync

Remote Sync copies the configuration of one Unfolded Circle Remote, the Primary, to others, its Satellites, and
keeps their activities in step. This project models the parts of it that carry bytes, state and identities, and
proves what they promise. Verify the project with `dafny verify dfyconfig.toml`.

| file | part of the system |
|---|---|
| `WebSocketFrames.dfy`, `WebSocketPeer.dfy` | the RFC 6455 framer and the incremental parser over a growing buffer |
| `DnsNames.dfy`, `DnsPackets.dfy`, `DnsWire.dfy` | names with compression pointers, the packet parser and the published announcement, and packets anybody may have written |
| `ActivitySync.dfy` | numbered activity states on a Primary, an unreliable network and a Satellite that applies them |
| `References.dfy`, `Membership.dfy` | rewriting of references and the members of an activity |
| `ApplyTrace.dfy`, `ApplyRuns.dfy`, `ApplyPayloads.dfy`, `Apply.dfy` | the rules of one application of a snapshot as a run of requests, what they promise, what the requests carry, and the staged application itself |
| `OperationCache.dfy` | the cache that answers repeated operations |
| `Catalog.dfy`, `CatalogEntries.dfy` | the proxies of a Satellite, how their identities evolve over manifests, and what each shows |
| `Canonical.dfy`, `CanonicalText.dfy` | canonical text, how it is written, and the form of the data that the change hash is taken of |
| `Container.dfy`, `ArchiveBuilding.dfy`, `ArchiveReading.dfy` | the snapshot archive, its builder and its reader, and exactly what they take |
| `Mappings.dfy`, `Purge.dfy` | the flat table of recorded objects and the removal of everything in it |
| `Requests.dfy` | requests and responses multiplexed over the Core's socket |
| `SyncFlags.dfy` | the flags and timers that decide when to synchronize |
| `PeerLines.dfy`, `PeerReading.dfy` | pairing identifiers and the text in which Satellites are written down, and how any such text is read |
| `Options.dfy`, `Bytes.dfy`, `Json.dfy`, `Ordering.dfy` | optional values, bytes, JSON values, sorting and ordered sets |

Code that changes state in place is a class whose methods are proved equal to step functions; the theorems are
about those functions, over all inputs, interleavings and runs. Pure tree code is functions and lemmas. Hashes,
the compressor, the printer and parser of manifests, the order of a locale, upper and lower case and the test for
URLs are parameters, with what is assumed of them stated in `Faithful`, `Shortened` and `Sane`. The Core is an
oracle that may answer any request in any way; time is a parameter of the calls that read the clock. Beside the
theorems, lemmas mostly named `…IsExact` say what the step functions come to, over whole runs or on the wire and with
constants written out, so that no theorem rests on a definition alone.

Where the code does less than one would expect, the exact condition is proved: when cuts of a stream after a
protocol error matter (`CutAfterErrorMatters`), when a name gets a stray dot (`NameIsExpanded`), when rewriting is
idempotent (`IdempotentExactlyWhenClosed`), which archives can be read back (`BuildThenRead`), when entries of an
archive lie in place (`EntriesInPlace`), when the two views of the mapping table agree (`ViewsAgree`), which purges
leave nothing behind (`NothingStaysExactly`), which identifiers lose letters (`ShownInFull`) and which lines of the
older form are misread (`LegacyBack`).

## Model

| member | source | states |
|---|---|---|
| `WebSocketFrames.Frame` | src/transport/websocket.js:25-51 | filling the buffer by offset yields exactly the RFC 6455 frame: final bit and opcode, the shortest of three length encodings, the key, the masked or plain payload |
| `WebSocketFrames.DecodeStable` | src/transport/websocket.js:113-140 | bytes that arrive later never change a verdict the header parser has reached |
| `WebSocketFrames.DecodeWireFrame` | src/transport/websocket.js:25-51 | for every opcode, payload, mask and trailing data the parser gives the frame back and its exact size; a payload over the limit is refused instead |
| `WebSocketFrames.ExamplesOfTheStandard` | src/transport/websocket.js:25-51 | the octets of the example frames of RFC 6455, with all three lengths |
| `WebSocketFrames.MaskingOfTheStandard` | src/transport/websocket.js:44-50 | every bit of a masked octet is that of the payload plus that of octet i modulo 4 of the key, which stands before it |
| `WebSocketPeer.ChunkIndependence` | src/transport/websocket.js:110-165 | however a stream is cut, every emitted event, written frame and state change up to and including the first protocol error is that of the stream delivered whole |
| `WebSocketPeer.AnyTwoCutsAgree` | src/transport/websocket.js:110-165 | no two cuts of one stream can be told apart by what the peer does |
| `WebSocketPeer.CutAfterErrorMatters` | src/transport/websocket.js:119-141 | delivering more data after a chunk ends where the joined delivery ends exactly when the chunk raised no error or what is buffered then is not yet a frame |
| `WebSocketPeer.ErrorThenPing` | src/transport/websocket.js:148-151 | a concrete stream for which the cut after a protocol error decides whether a ping is answered |
| `WebSocketPeer.RoundTrip` | src/transport/websocket.js:78-87 | any payloads framed with any masks and cut anywhere are emitted as sent, in order, with nothing left in the buffer; reception fails exactly when a payload exceeds the limit, after everything before it was delivered |
| `WebSocketPeer.Reassembly` | src/transport/websocket.js:141-163 | a text message in any number of fragments with pings and pongs between them is emitted once as the concatenation, a binary one not at all, and every ping is answered by a pong with its payload, in order |
| `WebSocketPeer.CloseIsAnswered` | src/transport/websocket.js:142-147 | in any chunks a close frame is echoed by an open peer and only by one, ends the socket, and the peer is closing |
| `WebSocketPeer.PingIsAnswered` | src/transport/websocket.js:148-149 | in any state a ping is answered with its payload and a pong reported, and nothing else changes |
| `WebSocketPeer.DataIsTaken` | src/transport/websocket.js:161-163 | an unfragmented text or binary frame is emitted at once, a fragmented one begins a message |
| `WebSocketPeer.ContinuationIsTaken` | src/transport/websocket.js:150-160 | a continuation adds to the message, the last one emits a text message as the concatenation and drops a binary one |
| `WebSocketPeer.FrameIsRefused` | src/transport/websocket.js:105-161 | exactly which frames are refused and with which error, the close frame that follows it, and the state after it |
| `WebSocketPeer.HeaderIsRefused` | src/transport/websocket.js:113-133 | reserved bits, lengths beyond the safe integers and lengths over the limit are refused before the payload has come |
| `WebSocketPeer.CloseSays` | src/transport/websocket.js:93-101 | the octets of a close frame: the code in network order and at most 123 octets of the reason |
| `WebSocketPeer.WebSocketPeer.constructor` | src/transport/websocket.js:61-76 | a new peer is open with nothing buffered |
| `WebSocketPeer.WebSocketPeer.OnData` | src/transport/websocket.js:110-165 | the loop over the growing buffer ends, and with exactly the state, events and failure that the step semantics of the theorems give |
| `WebSocketPeer.WebSocketPeer.WriteFrame` | src/transport/websocket.js:148 | one frame goes out, with the next mask key when outgoing frames are masked |
| `WebSocketPeer.WebSocketPeer.Send` | src/transport/websocket.js:78-87 | an open peer writes one text frame; any other writes nothing and says so |
| `WebSocketPeer.WebSocketPeer.SendClose` | src/transport/websocket.js:93-101 | only an open peer starts to close; the reason is cut to 123 bytes, and a code of more than 16 bits throws when the peer is closing already |
| `WebSocketPeer.WebSocketPeer.Fail` | src/transport/websocket.js:105-108 | a protocol error is reported before the close frame with code 1002 |
| `DnsNames.LoopExactlyWhenEndless` | src/pairing/mdns.js:75-104 | a pointer loop is reported exactly when following labels and pointers without any bound would never end |
| `DnsNames.MoreFuel` | src/pairing/mdns.js:80-82 | the bound of one visit per offset is never felt by a walk that ends |
| `DnsNames.ParseName` | src/pairing/mdns.js:75-104 | the recursive walk with a shared set of visited offsets ends on every buffer with exactly the specified name, next offset or error |
| `DnsNames.ReadName` | src/pairing/mdns.js:75-104 | the walk from an empty set of visited offsets |
| `DnsNames.NameIsExpanded` | src/pairing/mdns.js:84-96 | the name is the dotted sequence of all labels on the walk, exactly when no label runs into the root through a pointer |
| `DnsNames.PointerToRoot` | src/pairing/mdns.js:93-95 | a concrete packet whose name gets a stray dot from a pointer to the root |
| `DnsNames.NextOffset` | src/pairing/mdns.js:85-91 | reading resumes just past the terminator or past the first pointer, wherever that leads |
| `DnsNames.EncodeName` | src/pairing/mdns.js:63-73 | the labels with their lengths and a terminator, or an error exactly for a label over 63 bytes |
| `DnsNames.EncodedLabels` | src/pairing/mdns.js:63-73 | names of non-empty dot-free labels encode to those labels, with or without the final dot |
| `DnsNames.EncodesExactly` | src/pairing/mdns.js:63-73 | a name encodes exactly when none of its labels is over 63 bytes, and how long it is then |
| `DnsNames.NameRoundTrip` | src/pairing/mdns.js:63-104 | reading undoes encoding wherever in a packet the name stands |
| `DnsNames.CompressedName` | src/pairing/mdns.js:87-96 | labels and then a pointer, anywhere in a packet: the labels and the name at the 14-bit offset, or the error of that name |
| `DnsNames.CutNames` | src/pairing/mdns.js:79-103 | a name that the packet breaks off is refused for what is missing: the end, half a pointer, or a part of a label |
| `DnsPackets.ParseTxt` | src/pairing/mdns.js:175-187 | the cursor loop yields the specified items: last value per key, a broken item ends the list |
| `DnsPackets.ParseRecord` | src/pairing/mdns.js:156-189 | one record with its decoded payload and the offset after it, or the first error |
| `DnsPackets.ParseQuestions` | src/pairing/mdns.js:147-153 | the questions in order, or the first error |
| `DnsPackets.ParseRecords` | src/pairing/mdns.js:154-190 | the records in order, or the first error |
| `DnsPackets.ParseDnsPacket` | src/pairing/mdns.js:141-192 | the whole packet; anything shorter than a header is empty |
| `DnsPackets.EncodeTxt` | src/pairing/mdns.js:115-122 | items over 255 bytes are left out, all others are written with their length |
| `DnsPackets.BuildAnnouncement` | src/pairing/mdns.js:365-377 | the published packet, or nothing exactly where building it throws |
| `DnsPackets.PutAnnounced` | src/pairing/mdns.js:183-184 | an announced value keeps its equals signs: only the first one of an item separates |
| `DnsPackets.TxtRoundTrip` | src/pairing/mdns.js:175-187 | parsing the text payload gives the announced pairs whose item fits |
| `DnsPackets.PacketRoundTrip` | src/pairing/mdns.js:365-377 | parsing a published packet gives back exactly the PTR, SRV, TXT and A records that were put in |
| `DnsWire.AnyPacketIsRead` | src/pairing/mdns.js:141-192 | any packet of questions and records, of any types, classes, lifetimes and counts per section, is read as what it says, with text items that lack a value or are cut short |
| `DnsWire.ShortEntriesAreRefused` | src/pairing/mdns.js:151-165 | a question or record with too little after its name is refused with the error for what is missing |
| `DnsWire.BadNamesAreRefused` | src/pairing/mdns.js:148-156 | a question or record whose name cannot be read is refused with the error of the name |
| `DnsWire.ShortPacketsAreEmpty` | src/pairing/mdns.js:142 | anything shorter than a header is an empty packet |
| `DnsWire.PublishedPacket` | src/pairing/mdns.js:365-377 | the published packet octet by octet: a response with one answer, the flush bits, and two minutes of life |
| `DnsWire.PublishedExactly` | src/pairing/mdns.js:365-377 | a packet can be built exactly when every label, payload, port and count fits its field |
| `ActivitySync.PublishNumbered` | src/service/activity-sync.js:49-63 | each activity gets strictly increasing revisions in one epoch |
| `ActivitySync.Exclusive` | src/service/activity-sync.js:156-170 | at most one call per activity is between its staleness check and its record |
| `ActivitySync.ExclusiveOverRuns` | src/service/activity-sync.js:156-209 | the same over every interleaving of arrivals, reads, commands and completions |
| `ActivitySync.LastWriterWins` | src/service/activity-sync.js:65-76 | after any reordered, duplicated and partly failing run, the recorded revision is that of an applied update, none applied or ignored is greater, and the activity is in the state asked for |
| `ActivitySync.SameRevisionSameUpdate` | src/service/activity-sync.js:49-63 | in one epoch a revision of an activity names one update |
| `ActivitySync.Convergence` | src/service/activity-sync.js:172-209 | when the newest delivered update of an activity was applied or found recorded, the activity ends where that update asked, whatever failed or was refused before |
| `ActivitySync.RelaysAreSwallowedOnce` | src/service/activity-sync.js:199-223 | over every run a relay is swallowed exactly when a command of its own kind was sent less than ten seconds before it with neither a failure of that command nor another relay of the kind in between |
| `ActivitySync.RelaysAndTime` | src/service/activity-sync.js:211-223 | every relay command is noted with its time and touches neither records nor activities |
| `ActivitySync.SentExactly` | src/service/activity-sync.js:49-63 | over any run exactly those reports are sent that are ON or OFF and differ from the last such report of their activity, with the initializations, in order and numbered without a gap |
| `ActivitySync.DeliveriesAreCalls` | src/service/activity-sync.js:156-164 | every delivery is a new call that waits |
| `ActivitySync.TurnsComeInOrder` | src/service/activity-sync.js:156-164 | over any run a call moves on exactly when all earlier calls of its activity have settled |
| `ActivitySync.IgnoredExactly` | src/service/activity-sync.js:172-185 | over any run a call is ignored exactly when an update of its activity with the same or a greater revision was applied |
| `ActivitySync.CommandedExactly` | src/service/activity-sync.js:187-202 | over any run a command is sent exactly when the state could not be read or is neither the one asked for nor on its way there |
| `ActivitySync.CommandsTakeEffect` | src/service/activity-sync.js:201-208 | a command that succeeds leaves the activity in the state asked for, one that fails changes neither states nor versions |
| `ActivitySync.QueuesAreReleased` | src/service/activity-sync.js:165-169 | over any run a call that is over takes its activity from the queue exactly when no later one has come |
| `ActivitySync.OtherStatesAreRefused` | src/service/activity-sync.js:176-177 | only ON and OFF can be asked for |
| `ActivitySync.UnversionedUpdates` | src/service/activity-sync.js:65-76 | an update without a usable version is never ignored and leaves none |
| `ActivitySync.VersionedUpdates` | src/service/activity-sync.js:72-76 | any other one leaves its version when it is applied |
| `ActivitySync.ActivitySyncManager.constructor` | src/service/activity-sync.js:11-24 | a new manager has numbered, recorded and suppressed nothing |
| `ActivitySync.ActivitySyncManager.StateUpdate` | src/service/activity-sync.js:55-63 | the update carries the epoch and the next revision of its activity |
| `ActivitySync.ActivitySyncManager.OnActivityEvent` | src/service/activity-sync.js:128-132 | states that are no action and repeated states are not numbered |
| `ActivitySync.ActivitySyncManager.InitializeActivity` | src/service/activity-sync.js:143-154 | a snapshot state is numbered without looking at what was observed |
| `ActivitySync.ActivitySyncManager.Apply` | src/service/activity-sync.js:156-164 | the call is chained behind the last unsettled one of its activity |
| `ActivitySync.ActivitySyncManager.StartApplying` | src/service/activity-sync.js:172-185 | refused, ignored as stale, or begun, and only after the call before it settled |
| `ActivitySync.ActivitySyncManager.OnStateRead` | src/service/activity-sync.js:187-202 | an activity already there is recorded; otherwise a suppression is noted and the command sent |
| `ActivitySync.ActivitySyncManager.OnCommandDone` | src/service/activity-sync.js:201-208 | success records the version, failure withdraws the suppression |
| `ActivitySync.ActivitySyncManager.FinishApplying` | src/service/activity-sync.js:165-169 | a call removes the queue entry only while it is its own |
| `ActivitySync.ActivitySyncManager.Forward` | src/service/activity-sync.js:211-223 | a live suppression swallows the relay, and is used up either way |
| `References.RewriteIsClean` | src/apply/index.js:524-557 | at any depth of the output a text under a reference key is a mapping target or no full entity id, no wrapper or sequence holds an empty object |
| `References.ResultIsClean` | src/apply/index.js:558-560 | the same of the whole result |
| `References.WrappersSurvive` | src/apply/index.js:549-552 | an object that had a command or entity wrapper comes out with it, not empty, or not at all |
| `References.ReportIsExact` | src/apply/index.js:539-543 | the dropped set names only unresolvable ids, accounts for every one of them, and is empty exactly when there is none |
| `References.IdempotentExactlyWhenClosed` | src/apply/index.js:519-561 | rewriting twice is rewriting once on every value exactly when every target maps to itself or is not mapped |
| `References.ChainGoesOn` | src/apply/index.js:519-561 | a concrete mapping and value that the second rewriting changes again |
| `References.ResolvableIsRenamed` | src/apply/index.js:524-557 | where nothing is unresolvable or empty, rewriting is plain renaming: nothing else changes |
| `References.FullEntityIds` | src/apply/index.js:522 | which texts pass for full entity ids |
| `References.TextIsRewritten` | src/apply/index.js:524-533 | what a text comes to under each kind of key |
| `References.ItemsInTurn` | src/apply/index.js:534-537 | a list is rewritten entry by entry |
| `References.FieldsInTurn` | src/apply/index.js:544-548 | an object is rewritten field by field |
| `References.EntryStays` | src/apply/index.js:534-537 | an entry that can be resolved and is nowhere empty comes out renamed and in place, whatever stands beside it |
| `References.FieldStays` | src/apply/index.js:544-548 | and so does a field |
| `References.GetRewritten` | src/apply/index.js:544-548 | under every key an object comes out with what that value comes to by itself |
| `References.ValueGoesExactly` | src/apply/index.js:524-555 | exactly when a value goes: an unresolvable text or own entity id, a broken wrapper, or nothing left in a sequence |
| `Membership.MembershipIsExact` | src/apply/index.js:336-362 | the members are exactly the ids referred to in options, buttons and pages at any depth, each once |
| `Membership.Visit` | src/apply/index.js:345-357 | the walk over a list and a set of seen ids collects as specified |
| `Membership.ActivityEntityIds` | src/apply/index.js:336-362 | the three walks together give the specified members |
| `Membership.RelayReplacesSequences` | src/apply/index.js:182-207 | only options change; switching on or off becomes the relay command, other sequences and fields stay |
| `Membership.ListsAsTexts` | src/apply/index.js:339 | a list of an id list as a text |
| `Membership.EntriesAsTexts` | src/apply/index.js:339 | which entries of a list of ids count, and as what |
| `ApplyPayloads.CleaningIsExact` | src/apply/index.js:563-567 | cleaning removes exactly what stands below a read-only key, at any depth |
| `ApplyPayloads.UpdateIsExact` | src/apply/index.js:285 | an update holds the name, icon, description and options of a record, cleaned and rewritten, and nothing else |
| `ApplyPayloads.FieldIsCarried` | src/apply/index.js:285 | a field that can be resolved, is nowhere empty and has no read-only keys is carried renamed |
| `ApplyPayloads.PlainCarries` | src/apply/index.js:313-323 | a macro gets its whole update in one request |
| `ApplyPayloads.MembershipCarries` | src/apply/index.js:325-329 | the members of an activity come with its name, icon and description and without its options |
| `ApplyPayloads.ContentCarries` | src/apply/index.js:331-333 | the options of an activity come cleaned and rewritten but for its sequences, which push the relay, with the ids that options, buttons and pages refer to |
| `ApplyPayloads.LayoutsAreExact` | src/apply/index.js:290-291 | which layouts count as one without pages |
| `ApplyPayloads.CreationCarries` | src/apply/index.js:265 | a record is created with its name, icon and description, renamed |
| `Apply.SnapshotApplier.ApplyProxyEntities` | src/apply/index.js:138-172 | one listing, one configuration of exactly the usable proxies it lacks, the wait for them, then one edit of each editable proxy in order; it throws exactly when the configuring does or an edit is refused, with at most twenty errors; otherwise the obsolete ids are exactly the superseded ones, each once |
| `Apply.SnapshotApplier.EditProxies` | src/apply/index.js:152-162 | one edit for each proxy with anything to edit, whatever becomes of the others, and as many failures as refusals |
| `Apply.SnapshotApplier.EnsureConfigured` | src/apply/index.js:138-149 | a listing, exactly the missing proxies configured by their local ids in one request, and the wait; no return without a throw before the Core has listed every wanted proxy |
| `Apply.SnapshotApplier.AwaitConfigured` | src/apply/index.js:233-245 | listings that all lack an id, up to the first that holds all ids, which is success, or is refused, or the end of the time |
| `Apply.SnapshotApplier.EnsureActivityRelay` | src/apply/index.js:174-180 | a listing, a configuration of exactly the relay when it is not listed, and the wait for it; success means that the Core has listed the relay entity |
| `Apply.SnapshotApplier.Locate` | src/apply/index.js:261-271 | the remembered counterpart as long as the Core has it, else the record of the same id, else what the Core created from the renamed fields |
| `Apply.SnapshotApplier.PruneMapped` | src/apply/index.js:496-505 | a remembered counterpart goes only when no record has it and the Core took its deletion, and an obsolete one stays only when the Core refused |
| `Apply.SnapshotApplier.Exists` | src/apply/index.js:507-511 | found means that the Core has the record, or for a macro the entity; not found that it was asked and has neither |
| `Apply.SnapshotApplier.StageInternalEntities` | src/apply/index.js:251-280 | every record with an id is prepared under an id the Core told, mapped and remembered there, or reported as an error; the two add up |
| `Apply.SnapshotApplier.UpdateInternalEntity` | src/apply/index.js:313-334 | nothing to update sends nothing; without options one plain request, which throws exactly when refused; an activity with options gets its members first and its options directly after exactly when the Core took the members, both with the same ids |
| `Apply.SnapshotApplier.UpdateButtons` | src/apply/index.js:292-305 | buttons go out rewritten under the mapping of the run, a second way exactly when the Core knows the first one not, and the throw is that of the last answer |
| `Apply.SnapshotApplier.ReplaceUi` | src/apply/index.js:364-413 | pages are read, edited any number of times and read again, what the answers in between added comes into the mapping, and the throw is that of a failed reading |
| `Apply.SnapshotApplier.FinishOne` | src/apply/index.js:282-311 | every request fills in this record under its own id; a throw is exactly a failing last request, and without one fields, buttons and pages were all settled |
| `Apply.SnapshotApplier.FinishInternalEntities` | src/apply/index.js:282-311 | as many errors are recorded as requests failed by the answers of the Core, for macros and activities alike; no failure stops the others: every prepared record was filled in or stopped at a failure of its own |
| `Apply.SnapshotApplier.PruneProxyEntities` | src/apply/index.js:209-218 | one deletion for each id, in order |
| `Apply.SnapshotApplier.PrepareGround` | src/apply/index.js:68-71 | resources and docks are touched only when the manifest includes them, and only after the relay was listed where there are activities |
| `Apply.SnapshotApplier.Stage` | src/apply/index.js:72-77 | every record of both sections is prepared under an id the Core told or reported, and the mapping becomes the base of the run: the catalog and all those ids |
| `Apply.SnapshotApplier.Finish` | src/apply/index.js:78-83 | the dependents may follow exactly when no request that fills in a macro or an activity failed; without errors everything was filled in |
| `Apply.SnapshotApplier.ApplyDependencies` | src/apply/index.js:68-83 | every finish request belongs to a prepared record, with its told id and the mapping of the run; the gate is open exactly when none of them failed; without a throw or error all records were filled in |
| `Apply.SnapshotApplier.ApplyDependents` | src/apply/index.js:83-88 | groups and profiles are requested only when the gate is open |
| `Apply.SnapshotApplier.ApplySnapshot` | src/apply/index.js:64-96 | whatever the Core answers, one run: nothing but proxies is touched before all of them and the relay are there, only included parts are touched, finish requests as planned, groups and profiles only after finish requests of which none failed, then the deletions of exactly the superseded proxies exactly when the run ended without a throw and without an error, in which case every record was filled in |
| `Apply.SnapshotApplier.BuildUp` | src/apply/index.js:64-84 | the run up to groups and profiles: what it was founded on, what was planned, and that every prepared record was filled in or stopped at a failure of its own |
| `Apply.SnapshotApplier.ApplyAwake` | src/apply/index.js:46-54 | the inhibitor has its own request before the first run and its release after it; a second run follows exactly when the inhibitor was taken and the first run threw, as it does when its first listing is refused |
| `Apply.SnapshotApplier.Apply` | src/apply/index.js:37-62 | a cached result needs no request; otherwise one such run, a second one exactly after a throw under the inhibitor, the last one done exactly when the report is a success, and a success is stored |
| `Apply.SnapshotApplier.PerformAll` | src/apply/index.js:37-62 | over any operations an entry of the cache stays in it as long as it does not expire and there is room beside all that was stored since |
| `Apply.SnapshotApplier.Replay` | src/apply/index.js:37-39 | a successful operation that comes again before it expires is answered without a single request, after any operations of which fewer were stored than the cache holds |
| `ApplyTrace.RunEnds` | src/apply/index.js:83-94 | dependents after what was built without a failure, and deletions after those, make such a run |
| `ApplyRuns.LateAfterCleanFinish` | src/apply/index.js:83-88 | in any run every finish request comes before every group or profile request, and by the answer of the Core neither fields, members nor the reading of pages failed, nor both ways of sending buttons |
| `ApplyRuns.ProxiesComeFirst` | src/apply/index.js:64-68 | before anything but proxies is touched, the Core has listed every usable proxy and taken every edit of one, and has listed the relay where there are activities |
| `ApplyRuns.OnlyIncludedParts` | src/apply/index.js:68-88 | no request is about a part of the snapshot that the manifest does not include |
| `ApplyRuns.EveryRecordIsRestored` | src/apply/index.js:72-83 | in a run without a throw or error every record with an id of the included sections was prepared under a told id and filled in |
| `ApplyRuns.DeletionsComeLast` | src/apply/index.js:89-94 | a proxy is deleted only in a run without a throw or error, only when superseded, and nothing but deletions follows |
| `ApplyRuns.SupersededIsDeleted` | src/apply/index.js:89-94 | a run without a throw or error that prunes deletes every superseded proxy |
| `ApplyRuns.ContentIsPaired` | src/apply/index.js:313-334 | the content of an activity goes to the id the Core told for it, directly after the membership request that the Core took, with exactly the members of its options, buttons and pages rewritten under the mapping of the run |
| `ApplyTrace.NoneFailed` | src/apply/index.js:282-311 | no failure is counted exactly when no request failed |
| `ApplyTrace.RememberedIsKnown` | src/apply/index.js:261-275 | what is prepared is what a later run knows, and nothing else |
| `ApplyTrace.NamedIsExact` | src/apply/index.js:255-259 | the records that count are those with an id |
| `ApplyTrace.UnlistedExact` | src/apply/index.js:139-142 | usable proxies have both ids, and missing ones are not listed |
| `ApplyTrace.EditableExact` | src/apply/index.js:153-155 | edited are the proxies with a name, an icon or a description |
| `OperationCache.OperationCache.constructor` | src/storage/operations.js:11-17 | stored entries are pruned on load |
| `OperationCache.OperationCache.Prune` | src/storage/operations.js:18-23 | the newest unexpired entries up to the limit remain |
| `OperationCache.OperationCache.Get` | src/storage/operations.js:24 | the result of the id among what remains |
| `OperationCache.OperationCache.Put` | src/storage/operations.js:25 | the last result of an id replaces an earlier one |
| `OperationCache.CacheRefinesHistory` | src/storage/operations.js:18-26 | over any puts and reads, pruning on the way keeps exactly the newest unexpired entries of everything ever put, last put per id |
| `OperationCache.RecentIsAnswered` | src/storage/operations.js:24 | an unexpired result among the newest is what a read returns |
| `OperationCache.PutIsFound` | src/storage/operations.js:25 | what was put last is found until it expires |
| `OperationCache.AmongPut` | src/storage/operations.js:25 | an entry stays when a newer one is put, as long as it is not expired and there is room for both |
| `Catalog.CollectReferencedCommands` | src/proxy/catalog.js:88-100 | one table filled on the walk holds for every entity its commands in order, each once |
| `Catalog.ReferencedIsExact` | src/proxy/catalog.js:88-100 | a command is collected for an entity exactly when some object at any depth names both |
| `Catalog.AugmentReferencedCapabilities` | src/proxy/catalog.js:102-121 | the features after the loop over the commands |
| `Catalog.AugmentedIsExact` | src/proxy/catalog.js:102-121 | no feature is lost, and exactly those that some command needs are added, none twice |
| `Catalog.BuildProxyCatalog` | src/proxy/catalog.js:213-251 | the two loops over entities and remotes build the specified catalog |
| `Catalog.CatalogIsExact` | src/proxy/catalog.js:213-239 | one entry per source, that of its last usable record, and a mapping with exactly those sources leading to their targets |
| `Catalog.RunKeepsIdentity` | src/proxy/catalog.js:196-211 | over any run every id is the plain one of its source or the one revised for its present capability |
| `Catalog.RunGoesOn` | src/proxy/catalog.js:213-224 | each catalog of a run is built from its manifest and the catalog before it |
| `Catalog.TargetsAreShared` | src/proxy/catalog.js:160-171 | two entries of any two catalogs share a target exactly when the shortened hashes of their sources and their revisions are equal |
| `Catalog.DistinctTargets` | src/proxy/catalog.js:160-171 | as long as the hashes of the sources in two catalogs differ, different sources never share a target, within a catalog or across a run |
| `Catalog.FirstTargetsDiffer` | src/proxy/catalog.js:160-171 | in the first catalog different sources have different targets exactly when their hashes differ |
| `Catalog.IdChangesExactlyWithCapability` | src/proxy/catalog.js:196-211 | over any run an entity in two consecutive catalogs changes its id exactly when its capability hash changes |
| `Catalog.FeatureOrderDoesNotMatter` | src/proxy/catalog.js:138-153 | listing the same features in another order changes no capability |
| `Catalog.RebuildIsFixed` | src/proxy/catalog.js:213-251 | building again from the same manifest changes nothing, whatever the catalog before |
| `CatalogEntries.EntriesShowTheirRecords` | src/proxy/catalog.js:213-239 | every entry shows the last record of its source that can be shown, with the features that commands in the data need, and every such record has an entry |
| `CatalogEntries.FeatureIsExact` | src/proxy/catalog.js:102-121 | which feature each command of each type stands for |
| `CatalogEntries.ForeignCommands` | src/proxy/catalog.js:106-107 | a command without a dot or of another type needs nothing |
| `CatalogEntries.TypesAreExact` | src/proxy/catalog.js:12-23 | which types have proxies, and which stand for another one |
| `CatalogEntries.RemoteIsShown` | src/proxy/catalog.js:226-238 | a remote is shown with its options, own commands, buttons and pages |
| `CatalogEntries.EntriesAreSorted` | src/proxy/catalog.js:240 | the entries are sorted by their sources |
| `CatalogEntries.CapabilitiesAgree` | src/proxy/catalog.js:138-153 | two entries have one capability exactly when type, class, options and the features but for their order agree |
| `CatalogEntries.IdsAreExact` | src/proxy/catalog.js:160-211 | the ids letter by letter: plain, kept, or revised for the capability |
| `Canonical.CanonicalExactly` | src/shared/util.js:10-20 | two values print to one canonical text exactly when they are equal up to key order at every depth |
| `Canonical.PrintInjective` | src/shared/util.js:18-20 | the printed text determines the value |
| `Canonical.NormalizedTwice` | src/shared/util.js:10-16 | normalizing is idempotent |
| `Canonical.ArrangedInOrder` | src/shared/util.js:12-14 | a normalized object lists its indices in numeric order, then its other keys by code units |
| `Canonical.StableCommutes` | src/protocol/snapshot.js:51-57 | ignoring volatile keys and normalizing can be done in either order |
| `Canonical.StableSame` | src/protocol/snapshot.js:49-57 | stable forms are equal up to key order exactly when the values differ only in key order and under volatile keys, at any depth |
| `Canonical.ChangeHashSubject` | src/protocol/snapshot.js:98-101 | the change hash is taken of one text exactly when resources and integrations are the same and the data differ only in key order and under volatile keys |
| `CanonicalText.EscapesAreExact` | src/shared/util.js:19 | the quote, the backslash and the control characters are escaped as JSON has it, and nothing else |
| `CanonicalText.PrintIsExact` | src/shared/util.js:19 | how each kind of value is written |
| `CanonicalText.IndexIsExact` | src/shared/util.js:13 | which keys an object lists first: decimal texts of numbers below 4294967295 without leading zeros |
| `CanonicalText.ListedIsExact` | src/shared/util.js:13 | indices come by their numbers and before all other keys |
| `CanonicalText.VolatileIsExact` | src/protocol/snapshot.js:49 | the keys that do not count as configuration |
| `Container.Build` | src/protocol/snapshot.js:119-134 | the checks, the framing and the consumed payload table give the specified archive or the first error |
| `Container.ConcatenatePayloads` | src/protocol/snapshot.js:127 | each record takes its payload out of the table; one whose payload is gone is an error |
| `Container.Read` | src/protocol/snapshot.js:440-460 | the reader gives the specified snapshot or the first error; the first five bytes decide the form as ASCII, without their high bits |
| `Container.ReadResources` | src/protocol/snapshot.js:449-458 | the walk with offset and total over the buffer |
| `Container.PathIsSafe` | src/protocol/snapshot.js:387 | an archive path passes the reader exactly when neither type nor id has two dots in a row |
| `Container.PathIsUnique` | src/protocol/snapshot.js:387 | two resources share a path only when type and id are the same |
| `Container.DuplicatesAreRefused` | src/protocol/snapshot.js:127 | the payloads suffice exactly when no resource was fetched twice |
| `Container.BuildThenRead` | src/protocol/snapshot.js:119-134 | whatever is built is accepted by the reader exactly when no type or id has two dots in a row, and then read back as the same manifest and resources |
| `Container.DottedIdIsRefused` | src/protocol/snapshot.js:119-134 | a concrete resource with two dots in its id that goes into an archive which the reader refuses |
| `Container.AcceptedHashes` | src/protocol/snapshot.js:451-458 | every accepted entry has a safe path, a size within the limit, its stated hash and an end inside the buffer, and the total is within its limit |
| `Container.AcceptedResource` | src/protocol/snapshot.js:455-457 | the result holds for a path the bytes of the last entry with it |
| `Container.EntriesInPlace` | src/protocol/snapshot.js:451-458 | accepted entries lie one after the other inside the buffer, each as long as stated, exactly when no stated size is negative |
| `Container.NegativeSizeIsAccepted` | src/protocol/snapshot.js:451-458 | a concrete archive with a negative size that the reader accepts, and an entry of it that does not lie in place |
| `ArchiveReading.ReadingIsExact` | src/protocol/snapshot.js:440-460 | exactly which payloads are read, in both forms, and with which manifest |
| `ArchiveReading.ReasonsAreExact` | src/protocol/snapshot.js:440-466 | the error for every payload that is not read |
| `ArchiveReading.FirstBadEntry` | src/protocol/snapshot.js:451-458 | the walk stops at the first entry that is not good, for what is wrong with it |
| `ArchiveReading.FirstBadPayload` | src/protocol/snapshot.js:464 | and so does the older form |
| `ArchiveReading.ViewsAreExact` | src/protocol/snapshot.js:455 | what a view of the buffer holds when an end lies outside of it |
| `ArchiveReading.WalkIsExact` | src/protocol/snapshot.js:449-458 | the walk accepts exactly the archives of which every entry is good |
| `ArchiveReading.UnpackingIsExact` | src/protocol/snapshot.js:463-466 | and the older form exactly those of which every payload is good |
| `ArchiveReading.UnpackedPayloads` | src/protocol/snapshot.js:463-466 | the older form comes to the payloads of the listed paths |
| `ArchiveReading.ReadResourcesAreListed` | src/protocol/snapshot.js:440-466 | what is read has exactly the listed paths |
| `ArchiveReading.SafeIsInside` | src/protocol/snapshot.js:452 | a path is accepted exactly when it stays inside |
| `ArchiveBuilding.BuildingIsExact` | src/protocol/snapshot.js:85-134 | exactly which resources can be built into an archive, and its layout octet by octet |
| `ArchiveBuilding.CharactersAreEncoded` | src/protocol/snapshot.js:387 | the percent encoding of every character |
| `ArchiveBuilding.RecordsSay` | src/protocol/snapshot.js:378-400 | every record states type, id, length, hash and path of what was fetched |
| `Mappings.KeysApart` | src/storage/mappings.js:14 | keys without bars in node and kind stand for one triple only |
| `Mappings.BarsCollide` | src/storage/mappings.js:14 | a bar inside a kind makes two triples share a key |
| `Mappings.KindsExactly` | src/storage/mappings.js:20-31 | the nested view of a node holds exactly what the flat table holds for it |
| `Mappings.ViewsAgree` | src/storage/mappings.js:20-40 | the items of one kind agree with the nested view exactly when the kind has no bar or nothing is stored for it |
| `Mappings.BarredKindIsHidden` | src/storage/mappings.js:20-40 | a concrete table whose one item of a kind with a bar is not in the nested view |
| `Mappings.OneTriple` | src/storage/mappings.js:17-36 | setting and removing touch one triple, clearing touches one node, as long as no name has a bar |
| `Mappings.MappingStore.constructor` | src/storage/mappings.js:10-13 | the stored table as read |
| `Mappings.MappingStore.Set` | src/storage/mappings.js:17 | one key of the flat table gets the target |
| `Mappings.MappingStore.Remove` | src/storage/mappings.js:18 | one key of the flat table goes |
| `Mappings.MappingStore.Kinds` | src/storage/mappings.js:20-31 | the loop over all keys builds the nested view |
| `Mappings.MappingStore.ClearNode` | src/storage/mappings.js:33-36 | exactly the keys with the prefix of the node go |
| `Purge.CollectResources` | src/apply/purge.js:67-77 | one resource is kept for every name among the tracked and the listed ones, the last listed one where any is listed |
| `Purge.CandidatesAreExact` | src/apply/purge.js:67-77 | resources to remove are the tracked ones and those that the Primary lists with a type and an id |
| `Purge.SatellitePurger.DeleteAll` | src/apply/purge.js:42-60 | exactly the objects whose deletion did not fail are forgotten, and counted |
| `Purge.SatellitePurger.CountedIsExact` | src/apply/purge.js:42-60 | what is counted is everything that is gone but for Docks that were missing |
| `Purge.SatellitePurger.DeleteEntities` | src/apply/purge.js:61-65 | the entities whose deletion did not fail are counted |
| `Purge.SatellitePurger.DropPages` | src/apply/purge.js:86-92 | the keys of profile pages and groups go |
| `Purge.SatellitePurger.CountLeft` | src/apply/purge.js:93 | the sum over kinds is the number of objects still tracked |
| `Purge.SatellitePurger.Purge` | src/apply/purge.js:37-102 | for every pattern of failures the table afterwards, what was tried, what remains and what was removed |
| `Purge.PurgeIsExact` | src/apply/purge.js:37-102 | an object is still tracked exactly when it was, is no profile page or group, and was not tried or could not be deleted |
| `Purge.OnlyFailuresStay` | src/apply/purge.js:37-102 | when no tracked resource gives its name up to another one, exactly the objects that could not be deleted stay |
| `Purge.NothingStaysExactly` | src/apply/purge.js:37-102 | nothing stays tracked exactly when everything tracked is of a recorded kind, no deletion fails, and no tracked resource shares its name with another tracked one or with a different one listed last under it |
| `Purge.OtherNodesStay` | src/apply/purge.js:37-102 | nothing of another node changes |
| `Purge.SharedNameIsLost` | src/apply/purge.js:67-84 | of two tracked resources with one name, one is not tried and stays tracked, however the Core answers |
| `Purge.ListedNameStays` | src/apply/purge.js:74-84 | a tracked resource whose name the Primary lists last for another one stays tracked, however the Core answers |
| `Purge.SharedNameStays` | src/apply/purge.js:67-84 | a concrete table of two resources that no purge empties, even when every deletion succeeds |
| `Purge.NamesCanBeShared` | src/apply/purge.js:71 | two different resources whose joined names are equal |
| `Purge.SlashFreeNames` | src/apply/purge.js:67-77 | when no type has a slash, no tracked resource gives its name up |
| `Requests.CoreWebSocket.constructor` | src/core/events.js:24-31 | a new client has issued nothing |
| `Requests.CoreWebSocket.OnOpened` | src/core/events.js:52 | an opened socket takes the place of the last |
| `Requests.CoreWebSocket.IssueRequest` | src/core/events.js:90-101 | a new id waits with a timer, or is rejected at once when it cannot be sent |
| `Requests.CoreWebSocket.HandleMessage` | src/core/events.js:68-83 | a response settles the waiting request with its id by its code, any other is ignored |
| `Requests.CoreWebSocket.OnTimeout` | src/core/events.js:96 | a timer that still runs rejects its request |
| `Requests.CoreWebSocket.RejectPending` | src/core/events.js:85-88 | all waiting requests are rejected in order of issue and their timers stopped |
| `Requests.CoreWebSocket.OnClosed` | src/core/events.js:54 | a closed socket is forgotten if it is the present one, and everything waiting is rejected |
| `Requests.CoreWebSocket.OnError` | src/core/events.js:55 | everything waiting is rejected |
| `Requests.CoreWebSocket.StartClose` | src/core/events.js:105-108 | closing forgets the socket and settles nothing yet |
| `Requests.ExactlyOnce` | src/core/events.js:68-101 | over all interleavings an issued request is unsettled exactly while it waits, settles once, and nothing else settles |
| `Requests.ResponseSettlesItsOwn` | src/core/events.js:75-82 | a response settles the request with its id, if it still waits, and no other |
| `Requests.IdsAreNew` | src/core/events.js:92 | no id is given out twice, also across reconnects |
| `Requests.NothingWaitsAfterLoss` | src/core/events.js:54-55 | after a close or error nothing issued earlier waits and each has settled once |
| `Requests.EveryEndHasACause` | src/core/events.js:68-101 | every settlement has the event of the run that accounts for it |
| `Requests.RequestsWait` | src/core/events.js:90-101 | over all interleavings a new request waits exactly when there is a socket and it can be sent, else it is rejected at once |
| `Requests.TimeoutsReject` | src/core/events.js:96 | a timeout rejects its request if that one waits, and nothing else |
| `Requests.LossRejects` | src/core/events.js:85-88 | when the socket is lost everything that waits is rejected in order of issue |
| `Requests.SocketIsExact` | src/core/events.js:50-56 | which socket is the present one |
| `SyncFlags.RemoteSyncService.constructor` | src/service/index.js:51-55 | nothing pending, running or scheduled |
| `SyncFlags.RemoteSyncService.Schedule` | src/service/index.js:241-255 | the timer is armed exactly on a Primary that synchronizes by itself and has pending changes |
| `SyncFlags.RemoteSyncService.ConfigurationEvents` | src/service/index.js:231-239 | a noticed event advances the revision, sets the flag and schedules |
| `SyncFlags.RemoteSyncService.OnReconnected` | src/service/index.js:168 | a reconnect counts as a change in any case |
| `SyncFlags.RemoteSyncService.OnRetryWithoutSnapshot` | src/service/index.js:271 | a retry without a snapshot sets the flag and schedules |
| `SyncFlags.RemoteSyncService.Start` | src/service/index.js:296-306 | refused, suppressed, deferred, marked as trailing, or started from the present revision |
| `SyncFlags.RemoteSyncService.RequestSync` | src/service/index.js:296-306 | a request from outside is refused, suppressed, deferred, marked as trailing, or starts a synchronization |
| `SyncFlags.RemoteSyncService.RejectConfiguration` | src/service/index.js:99-113 | an invalid configuration leaves nothing configured and nothing pending |
| `SyncFlags.RemoteSyncService.OnEventTimer` | src/service/index.js:246-254 | during a synchronization the timer only asks for a trailing one |
| `SyncFlags.RemoteSyncService.Complete` | src/service/index.js:402-430 | the flag, the trailing request and the timer after each way of ending |
| `SyncFlags.RemoteSyncService.StopTimers` | src/service/index.js:179-194 | timer and trailing request are dropped |
| `SyncFlags.RemoteSyncService.UseConfiguration` | src/service/index.js:118-136 | a new configuration starts with nothing pending |
| `SyncFlags.AtMostOneSync` | src/service/index.js:301-306 | over all interleavings at most one synchronization runs and the flag tells whether one does |
| `SyncFlags.NoChangeIsForgotten` | src/service/index.js:231-430 | when nothing is pending, every event since the last configuration came before the start of a synchronization that itself ended by clearing the flag |
| `SyncFlags.StartsAreEvents` | src/service/index.js:305-306 | a running synchronization was started at the step and revision it remembers, while none ran |
| `SyncFlags.ChangesDuringSyncStayPending` | src/service/index.js:402-430 | a synchronization that is no preview and during which a change came ends with the change pending and, with automatic synchronization on a Primary, the timer armed |
| `SyncFlags.OnlyQuietSyncsClear` | src/service/index.js:402-414 | nothing clears the flag but the end of a synchronization without later changes, or a new configuration |
| `SyncFlags.EventsIgnored` | src/service/index.js:232 | without automatic synchronization an event changes nothing |
| `SyncFlags.ChangesArmTheTimer` | src/service/index.js:231-246 | over all runs a noticed change arms the timer exactly on a Primary that synchronizes by itself |
| `SyncFlags.TimersGoOut` | src/service/index.js:241-255 | an armed timer goes out only by firing, by stopping, or when scheduled anew with nothing to do |
| `SyncFlags.TimerIsExact` | src/service/index.js:231-430 | whether the timer runs after each event |
| `SyncFlags.TrailingIsExact` | src/service/index.js:296-430 | whether a trailing synchronization is asked for after each event |
| `SyncFlags.StartsExactly` | src/service/index.js:296-306 | over all runs exactly which events start a synchronization, and how it is remembered |
| `SyncFlags.EndsExactly` | src/service/index.js:310-430 | a synchronization ends but when nothing new or being overtaken is ruled out |
| `SyncFlags.FlagAfterEnd` | src/service/index.js:310-430 | the flag after every way of ending |
| `SyncFlags.RevisionCounts` | src/service/index.js:231-239 | what counts as a change |
| `SyncFlags.ConfigurationIsExact` | src/service/index.js:99-194 | the configuration and the client are as last set |
| `PeerLines.ParseAdvanced` | src/pairing/config.js:70-85 | shifting and reassigning the fields gives the specified URL, MAC address and broadcasts |
| `PeerLines.ParseEntry` | src/pairing/config.js:42-98 | one entry by its shape, or the first error |
| `PeerLines.ParsePeerLines` | src/pairing/config.js:36-98 | all entries in order, or the first error |
| `PeerLines.DisplayTwice` | src/pairing/mdns.js:40-48 | showing an identifier that is already shown changes nothing |
| `PeerLines.ShownInFull` | src/pairing/mdns.js:40-42 | a fresh identifier keeps all its letters exactly when it does not start with RMS |
| `PeerLines.RmsIsLost` | src/pairing/mdns.js:40-42 | a concrete fresh identifier that loses three letters |
| `PeerLines.LegacyBack` | src/pairing/config.js:70-106 | the older form comes back exactly when no single broadcast passes for a missing MAC address |
| `PeerLines.BroadcastBecomesMac` | src/pairing/config.js:70-106 | a concrete peer of the older form whose broadcast is read as its MAC address |
| `PeerLines.PeerBack` | src/pairing/config.js:100-114 | one peer in normal form, of any shape, comes back from its line |
| `PeerLines.PeersComeBack` | src/pairing/config.js:36-114 | parsing what was formatted gives the same peers, for every list in normal form |
| `PeerReading.EntriesAreExact` | src/pairing/config.js:36-41 | the entries of any text: its lines and what semicolons part, trimmed, without the empty ones |
| `PeerReading.EntryIsExact` | src/pairing/config.js:42-98 | what any entry comes to, by its shape, or why it is refused |
| `PeerReading.TextIsExact` | src/pairing/config.js:36-98 | the peers of all entries, or the first error |
| `PeerReading.AdvancedIsExact` | src/pairing/config.js:70-85 | which fields behind the token are the URL, the MAC address and broadcasts |
| `PeerReading.ListsAreExact` | src/pairing/config.js:17-19 | the pieces of a list with commas |
| `PeerReading.TrimIsExact` | src/pairing/config.js:40 | trimming takes all blanks off both ends and nothing else |
| `PeerReading.IdentifiersAreExact` | src/pairing/config.js:7-11 | which texts pass for pairing identifiers |
| `PeerReading.AsciiIsRaised` | src/pairing/config.js:8 | the small letters are raised to capitals and other ASCII characters stay |
| `PeerReading.NormalFormIsExact` | src/pairing/mdns.js:40-42 | what is kept of an identifier |
| `PeerReading.ShownIsExact` | src/pairing/mdns.js:44-48 | how an identifier is shown |
| `PeerReading.MacsAreExact` | src/pairing/config.js:28-30 | which texts pass for MAC addresses |
| `PeerReading.IdIsExact` | src/pairing/config.js:88 | the id of a peer from its identifier, its name or its number |
| `PeerReading.WordsAreDashed` | src/pairing/config.js:88 | words stay and what stands between them becomes one dash |
| `PeerReading.DigitsAreExact` | src/pairing/config.js:88 | the number of an entry in decimal digits |

## Left out

- Sockets, TLS, HTTP upgrades, multicast, files, gzip, hashes and random numbers: input and output or libraries.
- Listeners that call back into a WebSocket peer while it emits, and the timers that destroy a closing socket.
- Text in DNS labels is its UTF-8 bytes; labels that are not valid UTF-8, and the dotted form of an address, are not modelled.
- The caches, queries and address selection of the mDNS browser around the packet codec.
- JavaScript's prototype keys: a key such as `__proto__` or `constructor` is an ordinary key here.
- Strings with lone surrogates: a character is a Unicode scalar value, compared by its UTF-16 code units where the source sorts.
- ActivitySync: the text of a state is its trimmed and upper-cased form; the HTTP push and its table of last pushed states.
- ActivitySync.LastWriterWins: nobody else switches the activity on the Satellite, a failed command has no effect, and `clear` is not called while calls are in flight.
- ActivitySync.Convergence: updates of one epoch; across epochs the source keeps only the latest one.
- Apply: the steps for resources, Docks, activity groups and profiles are any number of requests of one kind with any errors and throws, and the mapping entries their answers add; which pages are deleted and created and what they hold are left open.
- Apply: warnings, counts and times in the report; the clock is read once when a run starts and once when it ends.
- Apply.SnapshotApplier.Apply: an error raised while closing the inhibitor's socket after a successful run.
- OperationCache.CacheRefinesHistory: the clock moves between puts; entries of equal age would be kept in enumeration order.
- Catalog: icon, names, attributes and area of an entity are copied as one value; options that are a list are not spread; ids are already trimmed.
- Catalog: the activation hash and the time stamp of a catalog.
- Canonical: the UTF-8 encoding of the printed text, and numbers that print as null.
- Container: sizes that are no whole numbers; the base64 text of the older envelope is its decoded payload.
- Container.BuildThenRead: that `JSON.parse` gives the built manifest back from its text is assumed of that manifest.
- Purge: which profile becomes active before a deletion, and the text of warnings.
- Requests: opening a socket with retries is one step, and events of the Core are passed on elsewhere.
- SyncFlags: what a synchronization sends; a build that finishes after the cache was invalidated stores its result again, so no freshness is claimed.
- SyncFlags: a timer that fires during a preview is not armed again by the source, so no liveness is claimed.
- PeerLines.PeerOf: an entry of the older form without a name has the empty name, where the source has none.
- PeerLines: case mapping outside ASCII is a parameter, and which text is the URL of a web server.
- The user interface, the setup flow, the integration driver, provisioning, the Dock tunnel and the configuration schema: no invariant of their own.
