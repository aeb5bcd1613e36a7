# pporlock: a verified model

pporlock is an intercepting HTTP proxy with a Python daemon, a web app and a
browser extension. The daemon captures flows into a bounded ring and, on request,
into a session file; it streams events to clients; it redacts secrets before
anything is written. The web app edits exclusions and rules. The extension switches
the browser onto the proxy, watches the daemon's health and reports which tab a
request came from. This project models those parts and proves what their code
promises, for every input and every history.

`dafny verify dfyconfig.toml` checks everything. Code that changes things step by
step (the glob loop, the ring and its records, the writer thread, the hub, the
stream reader, the walkers and loops of the redactor, the extension's monitors, the
log reader and rotation) is a class or a method with the source's own fields and
branches, proved to carry out a step function or to meet a specification outright;
the theorems about whole runs are then lemmas over those step functions. Code made
of expressions is functions and lemmas.

| file | models |
|---|---|
| `Globs.dfy`, `Exclusions.dfy` | the web app's host matcher and exclusion list, the daemon's exclusion list, and their agreement |
| `SessionWriter.dfy`, `SessionTables.dfy` | the recording thread as interleaved steps, and what its commits leave in the two tables |
| `Paging.dfy` | cursor paging over a session file and over the ring |
| `Ring.dfy` | the ring, flow records shared on the heap, and the sink that appends WebSocket frames to records the ring holds |
| `EventHub.dfy`, `SseWire.dfy` | drop-oldest subscriptions with gap announcements across reconnects, and the wire format from printer to client |
| `RuleDraft.dfy` | the rule builder's reading and writing of rules |
| `Redact.dfy`, `RedactUrl.dfy` | masking of headers, JSON trees, queries and URLs |
| `Attributor.dfy`, `AttributionIndex.dfy` | batching of tab observations in the extension, and joining them to flows in the daemon |
| `Health.dfy` | the fail-safe and the user's switch |
| `Logs.dfy` | reading a log's last lines backwards, and rotating logs |
| `Utf8.dfy`, `Text.dfy`, `Seqs.dfy` | UTF-8 (sections 3 and 4 of RFC 3629), base64 (section 4 of RFC 4648), string and sequence operations the others share |

## What the proofs say about the code

Most of what the repository promises holds. Where it does not, the model keeps the
code as it is, shows the input, and proves exactly when the promise is kept:

- The matcher agrees with the glob language for all patterns if and only if the host has no `*`
  (`GlobExactHosts`): the literal comparison comes before the wildcard test.
- A host such as `a. .` is added to the exclusion list again at every click; a second
  click answers "already" if and only if what is left after normalizing and trimming
  is non-empty and does not end in a dot (`SecondAppend`).
- A rule survives the builder if and only if it is `WellFormed` (`RuleRoundTrip`), and what
  the form writes always is, unless a free-form key replaces one of its own
  (`WrittenWellFormed`). The comment at `web/src/lib/rule-draft.ts:258-259` says a redirect's extra keys survive; they do not
  (`RedirectExtraWitness`), nor does an empty list of methods (`EmptyListWitness`).
- A record that shrinks (a socket trimmed to its window, a body patched to a shorter
  one) does not bring back what was evicted to make room for it, so the ring is the
  longest suffix of insertion order that fits now if and only if no earlier moment
  asked for more room (`RingIsLongestSuffix`, `ShrinkWitness`). What holds always is
  that a flow is still there if and only if at every moment since it was inserted it
  lay in the longest suffix that fitted then (`HeldThroughout`).
- A gap frame carries the number of the event that follows it as its own id, and a
  client that has received nothing is owed no gap when it reconnects. An event is
  missed without announcement if and only if a reconnect came right after its gap, or
  came after it was published and before anything was received, and no subscription
  since then overflowed before its first delivery: the gap announced then starts from
  0 and so covers the event by accident (`MissedExactly`; the event announced by the
  last frame received is still to come, `OwedIsNext`). The two kinds of gap also
  differ in meaning: one announced before a delivery excludes its `to_seq`, one
  announced on reconnect includes it.
- The cap on a session is tested without a lock: the flow of an enqueue call that is
  past its test when the cap is reached is queued after it if there is room, though never accepted
  (`CappedIsFinal`, `QueuesExactly`, `QueuedAfterCap`).
- The notes table matches a flow's last record except when one batch writes the flow
  again after a row with notes, or rewrites a flow that had notes in a batch that has none (`NotesCurrent`).
- Rebuilding a URL eats part of its fragment if and only if the first `?` comes after the first
  `#` (`FragmentKept`).
- After the extension's batcher is stopped there is never more than one batch out if
  and only if none was out when it was stopped (`SecondFlightAfterStop`).
- After the user turns the proxy off the fail-safe stays quiet until they turn it on
  again if and only if no more than one health call was still out (`LateTripExactly`).
- The fail-safe is there so that the browser is never left pointed at a dead daemon, and
  it swallows a failure to clear Chrome's setting. Chrome stays pointed there, with the
  switch off and a stored message that browsing works again, if and only if some trip
  failed to clear it and since then no turning on or off by the user has gone through:
  no later check tries again, unless the error was dismissed with answers still out that
  trip once more (`StrandedExactly`, `UnclearedTripWitness`). While clearing works it
  never happens (`ClearedNeverStranded`).
- The web app and the daemon name the same exclusion entry for a host without `*` or `[`
  that normalizing settles if and only if the daemon looks such a host up (`a_b.com` it
  does not) or nothing was found, the entry is no address or network literal, and no
  earlier `[` pattern matches in the daemon (`OrdinaryHostEchoes`, `UnsafeHostWitness`,
  `AddressPatternWitness`; every other host in `WebEchoesDaemon`).

## Model

| member | source | states |
|---|---|---|
| Globs.ScanDecides | web/src/lib/exclusions.ts:33-60 | from every configuration of the four cursors the loop can reach, it terminates and decides exactly whether the pattern's remainder matches now or with a longer run of the last star, for hosts without `*` |
| Globs.ScanSound | web/src/lib/exclusions.ts:41-59 | an answer of true is right for every host, `*` included |
| Globs.LaterStarWins | web/src/lib/exclusions.ts:46-49 | forgetting the earlier star when a later one is met loses no match |
| Globs.MismatchBacktracks | web/src/lib/exclusions.ts:50-53 | after a mismatch only a longer run of the last star can help |
| Globs.GlobExactHosts | web/src/lib/exclusions.ts:43-46 | the loop agrees with the glob language on all patterns if and only if the host has no `*` |
| Globs.StarInHostWitness | web/src/lib/exclusions.ts:43-46 | `*b` matches `*ab` and the loop says no |
| Globs.Match | web/src/lib/exclusions.ts:33-60 | the while loop itself answers as the recursive scan, and as the glob language when the host has no `*` |
| WebExclusions.NormalizeIs | web/src/lib/exclusions.ts:18-20 | white space around a host and root dots behind it do not matter, nor does case |
| WebExclusions.FindExclusion | web/src/lib/exclusions.ts:63-73 | the loop returns the first entry that covers the host, or none |
| WebExclusions.AppendKeepsTheList | web/src/lib/exclusions.ts:97-116 | the old list is a prefix of the new one; one entry at most is added, and only when no entry covers the host |
| WebExclusions.SelfCover | web/src/lib/exclusions.ts:110-115 | the entry made for a host covers that host if and only if the host is recognizable |
| WebExclusions.SecondAppend | web/src/lib/exclusions.ts:97-116 | a second append answers "already" if and only if the first did or the host is recognizable |
| WebExclusions.UnrecognizableWitness | web/src/lib/exclusions.ts:103-116 | `a. .` is added twice |
| DaemonExclusions.GlobTablePicks | daemon/src/pporlock/engine/exclusions.py:87-111 | the first hit in the compiled glob table is the first glob entry of the list that matches |
| DaemonExclusions.NetTablePicks | daemon/src/pporlock/engine/exclusions.py:87-120 | the same for the compiled networks |
| DaemonExclusions.VerdictIs | daemon/src/pporlock/engine/exclusions.py:99-122 | for every name and address: the answer is the first entry whose host pattern matches the looked-up name; where there is none, the first network that holds the address; and nothing if and only if there is neither |
| DaemonExclusions.BareIs | daemon/src/pporlock/engine/exclusions.py:113-115 | an address is taken out of the white space around it and then the brackets |
| DaemonExclusions.ExclusionList.Compile | daemon/src/pporlock/engine/exclusions.py:84-95 | the loop builds exactly the two tables of the entries |
| DaemonExclusions.ExclusionList.Decide | daemon/src/pporlock/engine/exclusions.py:99-122 | the compiled lookup gives the verdict of the uncompiled list, for every name and address (`VerdictIs`) |
| DaemonExclusions.ExclusionList.Add | daemon/src/pporlock/engine/exclusions.py:133-139 | appends and recompiles unless the pattern is present |
| DaemonExclusions.ExclusionList.Remove | daemon/src/pporlock/engine/exclusions.py:141-147 | drops every entry with the pattern, keeps the order of the rest, and says whether there was one |
| DaemonExclusions.WebEchoesDaemon | web/src/lib/exclusions.ts:10-13 | for every list and every host, both sides name the same entry or none if and only if: where the daemon does not look the host up, the web app finds none; elsewhere the web app's entry is no address or network literal and, of the entries the two sides read apart (a `[` in the pattern, a `*` in the host, a host that normalizing again changes), the daemon matches this one if it is such and none before it |
| DaemonExclusions.OrdinaryHostEchoes | web/src/lib/exclusions.ts:10-13 | for hosts that normalizing settles, without `*` or `[`: if and only if the daemon looks the host up or nothing was found, the web app's entry is no address or network literal and no earlier `[` pattern matches in the daemon |
| DaemonExclusions.EntryAgrees | web/src/lib/exclusions.ts:22-31 | entry by entry, a host pattern gets the same answer from both sides unless it has a `[`, the host has a `*` or normalizing again changes the host; for a settled host without `[`, the web side says no to every pattern with one |
| DaemonExclusions.UnsafeHostWitness | daemon/src/pporlock/engine/exclusions.py:61-111 | `*.com` covers `a_b.com` in the web app, and the daemon does not look that host up |
| DaemonExclusions.AddressPatternWitness | daemon/src/pporlock/engine/exclusions.py:87-95 | an address pattern covers the host in the web app and lets it through in the daemon |
| SessionWriter.RunKeeps | daemon/src/pporlock/capture/session.py:331-482 | every interleaving of enqueue, stop, collecting, encoding and committing keeps the accounting, the bounds, the byte meter and first-in-first-out order |
| SessionWriter.NothingLostUncounted | daemon/src/pporlock/capture/session.py:331-348 | at every moment, finished enqueue calls = committed + dropped + in the thread's hands + queued |
| SessionWriter.AtExit | daemon/src/pporlock/capture/session.py:405-433 | when the thread has exited, the only uncounted flows are those queued behind the sentinel |
| SessionWriter.CapHolds | daemon/src/pporlock/capture/session.py:437-448 | all accepted records but the last total under the byte cap, acceptance stops exactly when the cap is reached, and batch and queue keep their bounds |
| SessionWriter.StopDrains | daemon/src/pporlock/capture/session.py:357-433 | once the sentinel is queued, the thread gets through everything before it, whatever arrives when and whatever SQLite takes, and exits; then every enqueue call is committed, counted as dropped, or queued behind the sentinel |
| SessionWriter.CappedIsFinal | daemon/src/pporlock/capture/session.py:338-345 | once capped, no step accepts another record, and nothing more is queued but the flow of a call already past its test |
| SessionWriter.QueuesExactly | daemon/src/pporlock/capture/session.py:338-348 | in any state, capped or not, a step queues a flow if and only if it is the put of a call past its test of the cap and there is room; once capped no call gets past that test |
| SessionWriter.SentinelExactly | daemon/src/pporlock/capture/session.py:357-361 | asking to stop queues the sentinel, once, if and only if there is room, and changes nothing else |
| SessionWriter.QueuedAfterCap | daemon/src/pporlock/capture/session.py:338-345 | that call really can queue its flow after the cap |
| SessionWriter.LogRises | daemon/src/pporlock/capture/session.py:453-485 | committed rows are in the order offered, with rising sequence numbers and no repeats, whatever batches failed |
| SessionWriter.CollectedKeeps | daemon/src/pporlock/capture/session.py:417-433 | gathering a batch keeps the invariant |
| SessionWriter.EncodedKeeps | daemon/src/pporlock/capture/session.py:435-448 | encoding a batch keeps the invariant |
| SessionWriter.CollectedIs | daemon/src/pporlock/capture/session.py:417-433 | the same of every gathering, as steps: a maximal run of queued flows is taken, in order, and the sentinel after it if there is time and room |
| SessionWriter.FlushIs | daemon/src/pporlock/capture/session.py:435-485 | the same of every flush, as steps: which rows are accepted, what the meter, the numbering, the cap and the count of drops come to, and what is handed to SQLite |
| SessionWriter.Writer.BeginEnqueue | daemon/src/pporlock/capture/session.py:338-340 | the test of the cap: dropped and counted, or on to the put |
| SessionWriter.Writer.FinishEnqueue | daemon/src/pporlock/capture/session.py:341-344 | the put: queued, or dropped and counted when full; never waits |
| SessionWriter.Writer.Stop | daemon/src/pporlock/capture/session.py:357-361 | puts the sentinel once, or changes nothing and says so while the queue is full |
| SessionWriter.Writer.Collect | daemon/src/pporlock/capture/session.py:417-433 | takes, in order, everything queued before the sentinel that fits in the batch and arrives in time; sees the sentinel if it comes next; and changes nothing else |
| SessionWriter.Writer.EncodeOne | daemon/src/pporlock/capture/session.py:437-448 | numbers and meters one record, or drops it at the cap |
| SessionWriter.Writer.Finish | daemon/src/pporlock/capture/session.py:450-485 | commits the encoded rows, or counts them as dropped |
| SessionWriter.Writer.Flush | daemon/src/pporlock/capture/session.py:435-485 | one flush, whatever encoding makes of the flows: the rows accepted are those of the shortest prefix of the batch that reaches the cap (the whole batch if none does, none once capped), numbered on, with the content, notes and size encoding gave; the meter grows by exactly their sizes; the rest is counted as dropped, and so are the rows when SQLite fails |
| SessionTables.FlowsHoldLastWrite | daemon/src/pporlock/capture/session.py:453-475 | after any committed batches the flows table holds, per flow id, exactly the last committed row |
| SessionTables.SeqOrderIsWriteOrder | daemon/src/pporlock/capture/session.py:494-510 | in every recording, sequence numbers in the table are distinct and their order is the order of last writes |
| SessionTables.StoreNotes | daemon/src/pporlock/capture/session.py:463-474 | what one commit does to one flow's notes, exactly |
| SessionTables.BatchNotesEndInLast | daemon/src/pporlock/capture/session.py:463-474 | a batch's notes for a flow are its last row's if and only if the earlier rows carry none |
| SessionTables.NotesCurrent | daemon/src/pporlock/capture/session.py:463-474 | a commit leaves a flow with its last row's notes if and only if the earlier rows in the batch carry none, or, in a batch without notes, the flow had none |
| SessionTables.NotesHoldLastWrite | daemon/src/pporlock/capture/session.py:463-474 | over a recording whose batches have distinct flows and some note, every flow has exactly its last row's notes |
| SessionTables.DuplicateNotesWitness | daemon/src/pporlock/capture/session.py:465-474 | a flow written twice in a batch keeps both notes |
| SessionTables.StaleNotesWitness | daemon/src/pporlock/capture/session.py:463-464 | a flow rewritten in a batch without notes keeps its old ones |
| SessionReader.Query | daemon/src/pporlock/capture/session.py:643-700 | the batched read returns the first `limit` matches after the cursor, and a cursor on the last row read exactly when rows remain |
| SessionReader.PageIs | daemon/src/pporlock/capture/session.py:643-700 | the page holds the first matches past the cursor, as many as there are or were asked for; its cursor is the last of them, and there is one if and only if the page is full and the table goes on |
| SessionReader.PageProgress | daemon/src/pporlock/capture/session.py:676-697 | a page with a cursor is full, its cursor lies ahead and fewer rows remain |
| SessionReader.FollowVisitsAll | daemon/src/pporlock/capture/session.py:643-700 | following the cursors visits every matching flow past the first exactly once, in order, for any limits and filter and any gaps in the numbering |
| SessionReader.FollowFromStart | daemon/src/pporlock/capture/session.py:643-700 | from no cursor, that is every matching flow |
| RingReader.Query | daemon/src/pporlock/capture/ring.py:138-183 | the loops over the reversed ring return that page |
| RingReader.PageIs | daemon/src/pporlock/capture/ring.py:151-183 | the page holds the first matches of what follows the cursor, as many as there are or were asked for; its cursor is the last of them, and there is one if and only if the page is full and the ring goes on |
| RingReader.StartIs | daemon/src/pporlock/capture/ring.py:155-166 | a page starts right after the record its cursor names, and at the top if there is none such |
| RingReader.PageProgress | daemon/src/pporlock/capture/ring.py:168-177 | a page with a cursor is full and its cursor lies ahead |
| RingReader.FollowVisitsAll | daemon/src/pporlock/capture/ring.py:138-183 | following the cursors over unchanged data visits every matching flow exactly once, newest first |
| RingLaws.CutIsLongest | daemon/src/pporlock/capture/ring.py:115-121 | evicting oldest-first keeps the longest suffix that fits both bounds |
| RingLaws.SuffixCut | daemon/src/pporlock/capture/ring.py:115-121 | evicting from what an earlier eviction left goes to the further of the two cuts |
| RingLaws.RingIsYoungest | daemon/src/pporlock/capture/ring.py:67-125 | after any history of adding (replacing an id or not), resizing to any size and clearing, the ring holds exactly the insertions no older than the highest threshold there has been |
| RingLaws.FloorIsHighest | daemon/src/pporlock/capture/ring.py:115-121 | that floor is the largest threshold of any moment |
| RingLaws.HeldThroughout | daemon/src/pporlock/capture/ring.py:67-125 | an insertion is still held if and only if at every moment since it lay in the longest suffix of everything that fitted |
| RingLaws.RingIsLongestSuffix | daemon/src/pporlock/capture/ring.py:67-125 | the ring is the longest suffix of insertion order that fits now if and only if no earlier threshold was higher |
| RingLaws.GrowingRing | daemon/src/pporlock/capture/ring.py:67-121 | with new ids only, no clear and records that only grow, it always is |
| RingLaws.ShrinkWitness | daemon/src/pporlock/capture/ring.py:95-113 | two flows that would fit, of which only the second is held |
| RingBuffer.RingBuffer.HeldExactly | daemon/src/pporlock/capture/ring.py:67-125 | about the buffer itself, after any calls: a flow inserted is among its records if and only if at every moment since it lay in the longest suffix of everything that fitted |
| RingBuffer.RingBuffer.Evict | daemon/src/pporlock/capture/ring.py:115-121 | the loop drops the oldest until the counter is within bounds, and leaves the counter's error unchanged |
| RingBuffer.RingBuffer.Add | daemon/src/pporlock/capture/ring.py:67-75 | replaces a record of the same id, keeps the byte account exact, evicts exactly what must go, and adds one `Add` to the ring's history, of which the ring is the outcome |
| RingBuffer.RingBuffer.Update | daemon/src/pporlock/capture/ring.py:77-93 | patches any fields of the held object but its id, touches no other object, keeps the account exact, and adds one `Resize` to the history, to any size |
| RingBuffer.RingBuffer.Adjust | daemon/src/pporlock/capture/ring.py:95-113 | moves the counter by the delta and evicts by it; a no-op for an unknown flow or no delta |
| RingBuffer.RingBuffer.AdjustHeld | daemon/src/pporlock/capture/ring.py:95-113 | a held record that grew by delta behind the ring's back is accounted for exactly |
| RingBuffer.RingBuffer.Clear | daemon/src/pporlock/capture/ring.py:123-125 | empties the ring and its account, one `Clear` more in the history |
| RingBuffer.KeptIsLongest | daemon/src/pporlock/capture/sink.py:24-38 | trimming keeps the longest suffix of frames within the bound |
| RingBuffer.KeptIncrementally | daemon/src/pporlock/capture/sink.py:232-236 | trimming at each frame keeps what trimming all frames at the end would |
| RingBuffer.TrimFrames | daemon/src/pporlock/capture/sink.py:24-38 | the loop keeps that suffix, counts every dropped frame, and returns the bytes released |
| RingBuffer.AppendFrame | daemon/src/pporlock/capture/sink.py:211-237 | after the append the record is a true window on all frames it received, its other fields are as they were, and delta is what it grew by |
| RingBuffer.RingSink.RecordHttp | daemon/src/pporlock/capture/sink.py:88-134 | what is stored of each body is a prefix of it, all of it or just the cap's worth of bytes, flagged if and only if something is missing (or already was); the ring's invariant holds, and the history gets one `Add` of the size that comes to |
| RingBuffer.RingSink.RecordWebsocketMessage | daemon/src/pporlock/capture/sink.py:201-242 | the frame stored is a prefix of the payload, all of it or just the cap's worth, and flagged if and only if the payload was longer; mutating a record the ring may hold: every live socket stays the longest window on its frames, dropped + kept = received, the byte account is exact again, other records and every other field but the frames are untouched, and the history gets one `Resize` (one `Add` for a new socket) |
| RingBuffer.RingSink.AccountFrame | daemon/src/pporlock/capture/sink.py:213-237 | append, trim and adjust together keep the account exact |
| RingBuffer.RingSink.EvictedTwice | daemon/src/pporlock/capture/sink.py:210-237 | evicting for the new empty record and again for its first frame is evicting once |
| RingBuffer.RingSink.RecordWebsocketClose | daemon/src/pporlock/capture/sink.py:244-257 | marks the held record closed with the code, changes no other field of it and no other record, and hands it on |
| EventHub.RunKeeps | daemon/src/pporlock/control/events.py:109-155 | every interleaving of publishing, reading, receiving and reconnecting keeps: the queue holds what is to come, and every event behind the client is explained |
| EventHub.DeliveredInOrder | daemon/src/pporlock/control/events.py:120-155 | in every run the numbers a client receives strictly rise, its queue stays in bound, nothing delivered was discarded, and every gap before a delivery has a lost event strictly inside it |
| EventHub.MissedExactly | daemon/src/pporlock/control/events.py:141-155 | in every run, each allowed event since the client first connected and up to its last id was delivered or lies inside an announced gap, unless (and only if) a reconnect hid it for good or it is announced by the very last frame received |
| EventHub.RunSeparates | daemon/src/pporlock/control/events.py:208-242 | everything sent after a reconnect is newer than the hub then was, a gap before a delivery starts from 0 or from something newer, and a gap on reconnect from the client's id |
| EventHub.OwedIsNext | daemon/src/pporlock/control/events.py:238-242 | the event announced by the last frame received is the next to arrive, unless the client has reconnected since |
| EventHub.RunMonotone | daemon/src/pporlock/control/events.py:211-242 | the ids on the stream never go back, gaps and reconnects included |
| EventHub.HubCounts | daemon/src/pporlock/control/events.py:175-184 | in every run, the hub has numbered every event published, whether or not a filter let it through |
| EventHub.DroppedTells | daemon/src/pporlock/control/events.py:120-152 | in every run, a subscriber's `dropped` is how often its queue has overflowed since something was last taken from it |
| EventHub.GapsBeginRight | daemon/src/pporlock/control/events.py:141-242 | in every run, for every frame sent: a gap before a delivery begins at the number of the last event sent on the same connection, or at 0 if there was none; a gap on reconnect begins at the id of the last frame received and ends where the hub stood |
| EventHub.DeliveredNotAnnounced | daemon/src/pporlock/control/events.py:141-155 | in every run, no event sent on a connection lies inside a gap announced later on that connection |
| EventHub.Subscriber.Accept | daemon/src/pporlock/control/events.py:120-139 | never waits; on overflow drops the oldest and counts it |
| EventHub.Subscriber.TakeGap | daemon/src/pporlock/control/events.py:141-152 | announces from the last delivered to the upcoming, if and only if something was dropped |
| EventHub.Subscriber.Deliver | daemon/src/pporlock/control/events.py:231-242 | one turn of the delivery loop: a gap if something was dropped, then the event, which is noted as delivered, so that the next gap begins there (`GapsBeginRight`) |
| EventHub.Hub.Publish | daemon/src/pporlock/control/events.py:175-184 | numbers the event and offers it to exactly the subscribers whose filter allows it, leaving the others' queues alone |
| EventHub.Hub.Subscribe | daemon/src/pporlock/control/events.py:195-225 | a fresh subscription, and a gap exactly for a client that is behind |
| SseWire.FramesConcat | web/src/api/events.ts:126-138 | more text only ever adds frames: where a chunk ends does not matter |
| SseWire.ParseFrame | web/src/api/events.ts:26-45 | the line loop computes the fields of the frame |
| SseWire.FieldIs | web/src/api/events.ts:33-36 | a line is the name before its first colon and the value after it, less one leading space; without a colon it is a name |
| SseWire.ParsedIs | web/src/api/events.ts:31-46 | any frame, however malformed, parses to its last `id`, its last `event` and all its data lines in order, and to nothing if and only if it has no field |
| SseWire.DispatchedIs | web/src/api/events.ts:141-153 | any frame hands over its data joined by line feeds, if that is any text, with an id to remember if it names a non-empty one |
| SseWire.PrintedParses | daemon/src/pporlock/control/events.py:55-62 | a printed event parses to its id, kind and payload, and a comment to nothing (sections 9.2.5 and 9.2.6 of the WHATWG HTML Living Standard) |
| SseWire.FramesOfPrinted | web/src/api/events.ts:131-137 | whole printed items and part of the next come apart into exactly those items and that part |
| SseWire.EventStream.Dispatch | web/src/api/events.ts:141-153 | handles a frame with data, remembers its id, ignores comments and bad JSON |
| SseWire.EventStream.Receive | web/src/api/events.ts:127-138 | every frame a chunk completes is dispatched once, in order; the buffer keeps no blank line |
| SseWire.EventStream.ReceiveAll | web/src/api/events.ts:126-139 | over a connection the outcome depends only on the text, not on the chunks |
| SseWire.StreamRecovered | web/src/api/events.ts:108-139 | however the printed stream is cut and wherever it ends, the client handles exactly the events that arrived whole, once each and in order, and remembers the last id |
| RuleDraft.TextRoundTrip | web/src/lib/rule-draft.ts:186-188 | a text field comes back if and only if it is absent or a non-blank string |
| RuleDraft.MultiRoundTrip | web/src/lib/rule-draft.ts:148-287 | a method or destination comes back, scalar or list, if and only if it is absent or made of clean strings |
| RuleDraft.StatusRoundTrip | web/src/lib/rule-draft.ts:288-294 | a status comes back if and only if its pieces are non-negative integers or clean strings that are not all digits |
| RuleDraft.PairsRoundTrip | web/src/lib/rule-draft.ts:154-305 | key/value rows come back if and only if there is one, no key is blank, and values are strings (or null where presence may be asked for) |
| RuleDraft.RemoveRoundTrip | web/src/lib/rule-draft.ts:168-313 | a removal list comes back if and only if it is absent or non-empty with non-blank names |
| RuleDraft.EditsRoundTrip | web/src/lib/rule-draft.ts:163-317 | header edits come back if and only if they are absent or hold nothing but well-formed add, remove and set |
| RuleDraft.MatchRoundTrip | web/src/lib/rule-draft.ts:200-338 | a match block comes back, unknown keys included, if and only if each owned key is well formed |
| RuleDraft.PortRoundTrip | web/src/lib/rule-draft.ts:365-365 | when a port comes back |
| RuleDraft.PlainStatusRoundTrip | web/src/lib/rule-draft.ts:355-358 | when a local response's status comes back |
| RuleDraft.RedirectRoundTrip | web/src/lib/rule-draft.ts:231-369 | a redirect target comes back if and only if it is absent or has only the five handled keys, at least one, each well formed |
| RuleDraft.RuleRoundTrip | web/src/lib/rule-draft.ts:190-384 | a rule read and written back is the same rule if and only if it is well formed; in every rule, the keys the form does not own survive |
| RuleDraft.KeyRoundTrip | web/src/lib/rule-draft.ts:190-384 | key by key, in well-formed rules and others: a key comes back if and only if the form does not own it or it is well formed itself |
| RuleDraft.SplitListIs | web/src/lib/rule-draft.ts:274-279 | what a comma-separated text stands for: the trimmed text before each comma, if anything is left of it |
| RuleDraft.TextTyped | web/src/lib/rule-draft.ts:319-347 | a typed text is there when the rule is opened again, and a blank one writes nothing |
| RuleDraft.MultiTyped | web/src/lib/rule-draft.ts:281-286 | every piece typed is there again, in order, as a list if there are several or it was one |
| RuleDraft.StatusTyped | web/src/lib/rule-draft.ts:288-294 | likewise for statuses, each as the number or range it stands for |
| RuleDraft.PairsWritten | web/src/lib/rule-draft.ts:296-305 | a non-blank key of the written record has the value of the last row naming it, or null where presence alone is asked for and allowed |
| RuleDraft.KeysWritten | web/src/lib/rule-draft.ts:296-305 | the record's keys are exactly the non-blank ones that some row names |
| RuleDraft.RemoveTyped | web/src/lib/rule-draft.ts:307-317 | every name to remove that is not blank is there again, in order |
| RuleDraft.PortTyped | web/src/lib/rule-draft.ts:353-366 | a typed port or status reads again as the number it stands for, else as typed (a status trimmed) |
| RuleDraft.MatchWritten | web/src/lib/rule-draft.ts:325-338 | a written match block is well formed if and only if the free-form keys are where they stand in for the form's own |
| RuleDraft.WrittenWellFormed | web/src/lib/rule-draft.ts:340-384 | whatever is entered in the form, the rule it writes is well formed, and is written again the same when it is opened, if and only if the free-form keys are well formed where they stand in for the form's own |
| RuleDraft.RedirectExtraWitness | web/src/lib/rule-draft.ts:258-261 | a redirect's extra key is lost |
| RuleDraft.EmptyListWitness | web/src/lib/rule-draft.ts:281-287 | an empty list of methods is lost |
| Masks.MaskIsMasked | daemon/src/pporlock/capture/redact.py:34-62 | every mask is recognized as one |
| Masks.MaskTells | daemon/src/pporlock/capture/redact.py:48-57 | a mask holds the four hexadecimal digits kept of the digest, in order, and the length of the value in bytes |
| Masks.MaskedLacks | daemon/src/pporlock/capture/redact.py:84-95 | a masked value written verbatim cannot cut a query up |
| Redact.WalkNode | daemon/src/pporlock/capture/redact.py:168-192 | the recursion with its loops computes the specified tree and flag |
| Redact.WalkPlaceByPlace | daemon/src/pporlock/capture/redact.py:168-192 | at every place of the tree: the shape is kept, and exactly the non-null unmasked scalars whose nearest enclosing key matches, looking through lists, are masked |
| Redact.WalkReportsChange | daemon/src/pporlock/capture/redact.py:168-192 | the flag is true if and only if the tree differs |
| Redact.WalkIdempotent | daemon/src/pporlock/capture/redact.py:186-192 | walking a redacted tree changes nothing |
| Redact.WalkLoadable | daemon/src/pporlock/capture/redact.py:175-184 | what the parser can return, it can still return once redacted: keys stay distinct |
| Redact.RedactLoop | daemon/src/pporlock/capture/redact.py:129-144 | the loop masks exactly the matching pairs and reports whether any differ (the query loop at 208-222 is the same with other patterns) |
| Redact.RedactBodyChanges | daemon/src/pporlock/capture/redact.py:148-166 | a body differs afterwards if and only if it is JSON with something to mask |
| Redact.RedactBodyIdempotent | daemon/src/pporlock/capture/redact.py:148-166 | redacting a redacted body changes nothing |
| Redact.RedactBodyCovers | daemon/src/pporlock/capture/redact.py:148-166 | JSON comes out as JSON in which every place is what redaction by its nearest enclosing key makes of it, in the same bytes if nothing changed and as the library prints it otherwise; any other body comes out as it was |
| Redact.RecordRedacted | daemon/src/pporlock/capture/redact.py:226-272 | the whole record: request and response headers, parameters and URL, both bodies and every frame are redacted, everything else is as it was, and a redactor that is off changes nothing |
| Redact.OffLeaves | daemon/src/pporlock/capture/redact.py:134-157 | switched off, redaction leaves requests, responses and frames alone |
| Redact.RequestCovered | daemon/src/pporlock/capture/redact.py:226-238 | no header or parameter a pattern names carries a readable value, the others are as they were, and the rebuilt URL reads back as exactly the redacted parameters |
| Redact.RedactRecordIdempotent | daemon/src/pporlock/capture/redact.py:254-272 | redacting a redacted record changes nothing: headers, bodies, parameters, frames or URL |
| RedactUrl.QuoteRoundTrip | daemon/src/pporlock/capture/redact.py:93-96 | escaped text reads back, and holds no separator and no mask |
| RedactUrl.QuoteKeeps | daemon/src/pporlock/capture/redact.py:93-96 | letters, digits and `-._~` are written as they are, and a space as `+` |
| RedactUrl.MasksVerbatim | daemon/src/pporlock/capture/redact.py:89-97 | a masked value stands in the rebuilt query as it is, in its own place |
| RedactUrl.QueryReads | daemon/src/pporlock/capture/redact.py:89-97 | the rebuilt query, split on `&` and the first `=`, gives back exactly the pairs |
| RedactUrl.RebuiltReads | daemon/src/pporlock/capture/redact.py:78-97 | for a URL with `?` before any `#` (section 3.4 of RFC 3986), base and fragment are unchanged and the query reads back as the pairs |
| RedactUrl.RebuiltCarries | daemon/src/pporlock/capture/redact.py:78-97 | every URL: without a `?` it stays as it was, otherwise the text between the first `?` and the first `#` after it becomes one that reads back as exactly the pairs, and the rest stays |
| RedactUrl.FragmentKept | daemon/src/pporlock/capture/redact.py:85-88 | every rebuild keeps the fragment if and only if there is no `?` or it comes before any `#` |
| Attributor.EveryRun | extension/src/background/attribution.ts:109-192 | in every run: buffer and batches bounded, whatever waits has a flush out or a timer armed, observations = submitted + dropped + buffered + in flight + discarded by stop, submission keeps observation order; before a stop at most one batch is out |
| Attributor.RunKeeps | extension/src/background/attribution.ts:109-192 | the same from any good state |
| Attributor.RecordedExactly | extension/src/background/attribution.ts:117-129 | an observation is recorded if and only if a tab made it, over HTTP, and not to the ignored origin |
| Attributor.OwnTrafficIgnored | extension/src/background/attribution.ts:47-53 | in every run, while the ignored origin stands no request to it is ever recorded |
| Attributor.SendsOrWaits | extension/src/background/attribution.ts:119-149 | on an observation an idle worker sends at once, up to fifty of the oldest waiting and in order; a busy one keeps it, arms the timer and sends nothing; of 2001 waiting the oldest goes |
| Attributor.TurnsLeave | extension/src/background/attribution.ts:151-191 | a flush disarms the timer and sends if it can, an answer arms it again if anything waits, a stop forgets what waits |
| Attributor.CountersTell | extension/src/background/attribution.ts:131-184 | over every run, submitted grows by what the sink took, failures by how often it refused, and dropped by what it refused and what a full buffer pushed out |
| Attributor.DrainEmpties | extension/src/background/attribution.ts:179-184 | left alone with a sink that accepts, the worker submits everything it holds and drops nothing more |
| Attributor.SecondFlightAfterStop | extension/src/background/attribution.ts:186-191 | after a stop there is never more than one batch out if and only if none was out |
| Attributor.Batcher.ObserveRequest | extension/src/background/attribution.ts:109-149 | one observation: ignored, or buffered with the oldest dropped and counted, then flushed or scheduled |
| Attributor.Batcher.FlushBuffer | extension/src/background/attribution.ts:160-168 | a flush up to its await |
| Attributor.Batcher.Settle | extension/src/background/attribution.ts:169-184 | the rest of a flush, on success and on failure |
| Attributor.Batcher.TimerCallback | extension/src/background/attribution.ts:151-157 | the timer's turn |
| Attributor.Batcher.StopWorker | extension/src/background/attribution.ts:186-191 | what stop clears |
| AttributionIndex.EveryHistory | daemon/src/pporlock/capture/attribution.py:187-247 | in every history each answer is the tab of the then-latest submission for the key, within the window; no submission answers twice; submitted = resolved + dropped + pending + overwritten + cleared |
| AttributionIndex.SubmitBounds | daemon/src/pporlock/capture/attribution.py:187-207 | after every submit the dictionary is within its bound |
| AttributionIndex.EvictedBecause | daemon/src/pporlock/capture/attribution.py:198-207 | an entry is kept if and only if it is fresh and not older than a full dictionary of fresh ones |
| AttributionIndex.KeyExactly | daemon/src/pporlock/capture/attribution.py:215-216 | two requests share a key if and only if they have the same URL and the same method, in any case of letters |
| AttributionIndex.ResolvesCounted | daemon/src/pporlock/capture/attribution.py:187-230 | over every history, the log grows by just the entries submitted, and every resolve counts once, as resolved or as unresolved |
| AttributionIndex.ResolveFindsLatest | daemon/src/pporlock/capture/attribution.py:209-230 | a resolve finds a tab if and only if the latest submission for the key is still held and near in time, and then it is that one's |
| AttributionIndex.ResolveUnknown | daemon/src/pporlock/capture/attribution.py:215-219 | a key never submitted is never found |
| AttributionIndex.Index.Submit | daemon/src/pporlock/capture/attribution.py:187-196 | the loop puts the entries in order, then evicts |
| AttributionIndex.Index.EvictAt | daemon/src/pporlock/capture/attribution.py:198-207 | the stale-entry pass and the oldest-first loop |
| AttributionIndex.Index.ResolveTab | daemon/src/pporlock/capture/attribution.py:209-230 | consumes the association it answers with, and only that |
| Health.EveryHistory | extension/src/background/health.ts:120-332 | in every history: the daemon is polled whenever the switch is on, `refusals` and `timeouts` are the lengths of the runs the history ends in and never both positive, the fail-safe was reached exactly at the alarms with the fitting reason, and the stored switch is off whenever it has tripped or the history is an alarm |
| Health.FinishTripsExactly | extension/src/background/health.ts:242-302 | one completed check trips if and only if the failures since the last success, rejection or reset end in two refusals or number five; `daemon_unreachable` if and only if the last two were refusals; skipped only when already tripped and off; rejections never trip; Chrome's setting goes if and only if the trip was not skipped and clearing succeeded, and no other check touches it |
| Health.StrandedExactly | extension/src/background/health.ts:300-328 | over any run, from any good state: Chrome is left pointed at the daemon with the switch off if and only if a trip failed to clear its setting, or it was so already, and since then no turning on or off by the user went through and no late answer tripped again, and cleared it, after the error was dismissed |
| Health.ClearedNeverStranded | extension/src/background/health.ts:4-6 | from a browser not left so, if clearing always works no run ends with Chrome pointed at the daemon and the switch off |
| Health.UnclearedTripWitness | extension/src/background/health.ts:304-309 | two refusals and a clear that fails: tripped, alarmed, switched off, and Chrome still pointed at the dead daemon |
| Health.SwitchExactly | extension/src/background/actions.ts:85-146 | over any run, the switch is on if and only if the user turned it on, or it was on, and neither the user nor an alarm has turned it off since |
| Health.ActionsLeave | extension/src/background/actions.ts:112-146 | turning on leaves the switch on, Chrome's setting ours, the counters fresh, polling on and nothing to report; turning off leaves all of it off; an action that fails changes none of it, but a refusal by the daemon is noted |
| Health.PassiveActionsLeave | extension/src/background/index.ts:262-285 | dismissing an error forgets the trip and nothing else; a restarted worker keeps what is stored, counts afresh and polls if and only if the switch is on |
| Health.AnswersCount | extension/src/background/health.ts:102-291 | a failure is counted for every answer but a good one and a status of 401 or 403; an aborted call is a timeout and no refusal, any other failure a refusal; 401 and 403 are told apart, and on a change take the pairing claim away |
| Health.ChecksAsk | extension/src/background/health.ts:198-208 | a check calls the daemon if and only if the switch is on |
| Health.StaysOff | extension/src/background/health.ts:29-30 | once off, only the user turns the proxy on again |
| Health.BudgetEscalates | extension/src/background/health.ts:145-147 | each timeout in a row doubles the budget up to the ceiling, anything else puts it back |
| Health.UnreachableExactly | extension/src/background/health.ts:165-167 | what the history says when the daemon is shown as unreachable |
| Health.LateTripExactly | extension/src/background/health.ts:198-271 | after the user turns the proxy off, no later step but turning it on again can trip the fail-safe if and only if at most one health call was still out |
| Health.Monitor.StartCheck | extension/src/background/health.ts:198-208 | the idle branch zeroes the counters |
| Health.Monitor.EndCheck | extension/src/background/health.ts:230-271 | the rest of a check, in every branch |
| Health.Monitor.TripFailSafe | extension/src/background/health.ts:300-332 | records the reason and turns the switch off, unless already tripped |
| Health.Monitor.RecordRejection | extension/src/background/health.ts:281-291 | writes only on a change of code |
| Health.DismissError | extension/src/background/index.ts:262-263 | dismissing an error forgets the trip and touches nothing else |
| Health.EnableProxy | extension/src/background/actions.ts:85-133 | every way enabling ends, and what each changes |
| Health.DisableProxy | extension/src/background/actions.ts:135-146 | both ways disabling ends |
| LogTail.SplitAtLf | daemon/src/pporlock/cli/logs.py:127-128 | lines can be split separately on either side of a line feed |
| LogTail.SuffixHasLastLines | daemon/src/pporlock/cli/logs.py:121-128 | a suffix with more than n line feeds ends in the file's last n lines, even where it starts inside a character |
| LogTail.Tail | daemon/src/pporlock/cli/logs.py:105-128 | the block-wise backward read returns the end of the whole file's lines, as many as there are or were asked for, for every file, count and block size; nothing for a missing or unreadable file; and no block is read once there are line feeds enough |
| LogRotation.LogFile.Rotate | daemon/src/pporlock/cli/logs.py:53-88 | past the threshold the live contents become generation 1, every generation moves one on and the oldest goes; a rotation that fails part-way leaves the live log alone and loses nothing but the oldest |
| LogRotation.LogFile.MakeRoom | daemon/src/pporlock/cli/logs.py:70-79 | the descending shift, for any pattern of missing generations and a failure at any operation |
| LogRotation.ContentsTravel | daemon/src/pporlock/cli/logs.py:70-88 | through any sequence of attempts, failed ones included, contents move on by one for each success and at most one for each failure, and are not lost before the last generation |
| LogRotation.RotatedIsKept | daemon/src/pporlock/cli/logs.py:70-88 | what one rotation saved is still there after up to `retain - 1` more attempts |
| LogRotation.GenerationsHoldLatest | daemon/src/pporlock/cli/logs.py:70-88 | after any number of successful rotations the generations are the contents rotated away, newest first, and behind them what was there before |
| Utf8.DecodeEncode | daemon/src/pporlock/capture/session.py:847-848 | text survives encoding and strict decoding |
| Utf8.EncodeDecode | daemon/src/pporlock/capture/ring.py:205-206 | bytes that decode are exactly the encoding of what they decode to |
| Utf8.CutValid | daemon/src/pporlock/capture/session.py:585-588 | text cut to a number of bytes still decodes if and only if the cut falls between two characters |
| Utf8.LossyAtLf | daemon/src/pporlock/cli/logs.py:127-127 | decoding with replacement can be done separately on either side of a line feed |
| Base64.DecodeEncode | daemon/src/pporlock/capture/ring.py:207-208 | base64 text reads back as the bytes |
| BodyCodec.BodyRoundTrip | daemon/src/pporlock/capture/session.py:835-848 | every body reads back as it was, whichever encoding it took |
| BodyCodec.CappedTextRoundTrip | daemon/src/pporlock/capture/session.py:500-505 | what is stored of a text body is its first bytes exactly, and it stays text if and only if the cap falls between two characters |

## Left out

- The rules engine, evaluator, module registry, provenance builder and the mitmproxy addon are not part of this model; provenance is opaque and a flow filter is an arbitrary predicate.
- SQLite is a keyed table and an unkeyed one, with a commit that succeeds or fails as a whole; the `ws_messages` table, `schema.sql` and exceptions raised while encoding a record are not modelled. `flow_id` is taken as the key of the flows table.
- Threads, the event loop and timers are atomic steps in any order; clocks, timeouts and the answers of the network are inputs.
- SessionWriter.Writer.Stop: waiting for room in the queue is trying again; the joining of the thread, its 30-second limit and the final checkpoint are left out.
- SessionWriter.NothingLostUncounted: one thread enqueues, so at most one call is in progress, and it is counted when it finishes.
- Globs.ScanDecides: case folding and white space are the ASCII parts of the languages' definitions, here and wherever text is trimmed or folded; Python also counts U+001C to U+001F as white space.
- DaemonExclusions.WebEchoesDaemon: which texts are networks, what a network holds and how a pattern with `[` matches are parameters, so every theorem holds for any of them.
- RingBuffer.RingBuffer.Update: `flow_id` is never patched, and fields the ring and sink do not look at are not modelled; patching the frames keeps the ring's account but not the window on all frames received, which the sink's methods keep.
- RingBuffer.RingSink.RecordHttp: errors and passthroughs enter the ring the same way with other fields and are not repeated; the blocked and modified flags, tab joining, and the session and hub callbacks are left out, and a record handed to the session is the method's result.
- SessionReader.FollowVisitsAll: the data does not change between pages. For the ring an evicted cursor starts again from the top, which the page specification includes.
- EventHub.RunKeeps: one hub and one client; a daemon restart, which starts numbering again, is not modelled. Getting an event and announcing its gap are one step.
- SseWire.StreamRecovered: the chunks are text, so the browser's own decoding of bytes is left out; payloads contain no line feed, which JSON printing guarantees; the JSON library is an arbitrary partial function, and reconnection delays are left out.
- RuleDraft.RuleRoundTrip: numbers are integers of any size, where JavaScript's lose precision past 2^53; records are finite maps, so the order of keys and the key `__proto__` are not modelled.
- RuleDraft.PairsRoundTrip: reading pairs lists a map in some order, which no result depends on, and is therefore a ghost function.
- Redact.WalkPlaceByPlace: which names and keys match, the hash and the printing of scalars are arbitrary functions; values are immutable, so that the original is never mutated holds by construction and is not stated.
- RuleDraft.WrittenWellFormed: a free-form `action` key, which would replace the action chosen in the form, is left out; what becomes of each key of such a rule is in `KeyRoundTrip`.
- Redact.RecordRedacted: makes the assumption of the next line.
- Redact.RedactRecordIdempotent: assumes that the JSON library parses what it printed, for the values it can return: numbers as it prints them, and objects with one field per key. Lone surrogates and digits outside ASCII in a mask's length are left out.
- Attributor.EveryRun: stopping and the answers of the sink are steps; the request listener's registration and the options page are left out.
- AttributionIndex.EveryHistory: times are real numbers and keys fold ASCII case only; parsing of wire entries and the coverage figure are left out.
- Health.EveryHistory: dealing with one answer, the trip it causes and each user action are one step each, so a store write that another action overtakes is not modelled; notifications, the badge and message texts are left out.
- LogTail.Tail: the file does not change while it is read, and reading fails as a whole or not at all.
- LogRotation.LogFile.Rotate: nothing is written to the live log between its being copied and truncated; a failing call changes nothing, except that a failed copy may leave any contents in generation 1.
- Base64.DecodeEncode: the lenient parts of Python's decoder (characters outside the alphabet, excess padding) are left out.
- Token files, pairing, configuration, unmasking by field path, previews, serialization detail and the user interfaces are not part of this model.
