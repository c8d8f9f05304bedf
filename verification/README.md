# MyQtt in Dafny

MyQtt is an MQTT 3.1.1 broker and client library written in C. This project models its hard logic and proves
what the library promises about it:

- **Topic filters** (`TopicFilter.dfy`): the filter check and the two-index matcher, against sections 4.7.1 and 4.7.2 of
  MQTT 3.1.1.
- **Wire formats** (`RemainingLength`, `Message`, `Payload`, `Publish`, `Connect`, `Subscribe`): the two-pass packet
  builder, and for each packet the sender's encoding against the receiver's parse.
- **Reading and writing sockets** (`FrameReader`, `SocketWrite`): the reader that keeps a partly read packet on the
  connection, and the write with a bounded number of retries.
- **The send sequencer** (`Sequencer`, `SequencerRuns`, `SequencerOrder`): one queue for all connections, sent in
  slices of at most 4096 bytes.
- **QoS 1 and 2** (`Qos`, `Exchange`, `ExchangeIds`, `ExchangeWaits`, `ExchangeOutcomes`): both peers publish at the same time,
  replies find their waiter through two tables; which packet ids are held, when a waiter gives up, and which publish calls can
  return true at all.
- **Subscriptions** (`Routing`, `RoutingRuns`, `PublishGate`): every connection's own maps and the context's index, changed by
  handlers in two locked sections each; the counter that lets publishers read the index without holding the mutex.
- **Sessions** (`PkgIdLocks`, `PacketIds`, `FileNames`, `SubStore`, `Session`, `OfflineQueue`): packet ids, subscriptions and
  messages on disk, leaving and coming back.

Code that changes state in place is a class with methods, and a loop of the code is a loop here; each such method is tied to a
function of its inputs or of the state before, and the properties are lemmas about these functions. Protocols
between threads or peers are state machines with one action per atomic step of the code, and their theorems
hold in every state of every run. `dafny verify dfyconfig.toml` checks everything.

## What the code does not keep

Some properties hold only under a condition. Each is proved with its exact condition:

- The matcher follows section 4.7 except on two families of inputs, named `Missed` and `Extra` in `TopicFilter`: it takes `$`
  at the start of any level for special, not only at the start of the name, and after a `+` it steps over a separator of the name
  and one of the filter independently of each other (`TopicFilter.AgreesWithStandardExactly`).
- A packet is received as what it is exactly if its header is accepted and comes whole, no more than 25 polls have found
  nothing since the header before it, the first read of its body finds data, and no more than 25 polls within the body find none
  (`FrameReader.ArrivesExactly`; for a whole sequence of packets `FrameReader.SequenceArrivesExactly`). A header byte that comes
  alone is taken for an empty packet, a size byte that is not there yet for a 0, and "no data" on the first read of a body is
  counted as minus two bytes (`FrameReader.LoneHeaderByte`, `FrameReader.MissingSizeByte`, `FrameReader.NoDataOnFirstBodyRead`).
- A SUBACK with more than 125 codes leaves without its last bytes, and they are written behind the memory reserved for it
  (`Subscribe.SentIsSuback`).
- Messages of one connection stay in one piece exactly when all but the last fit one slice
  (`SequencerOrder.ContiguousExactly`).
- The packet id allocator tries the ids one after the other along its list. When one is waited on or locked by somebody else,
  it goes on to the next id and the next element, whatever that element is. So it hands out an id in use exactly if the
  element with that id was used up in passing a smaller, blocked one or lies behind the place where the walk ends
  (`PacketIds.RepeatsExactly`, on every list). In runs in which others lock and unlock ids, the list stays in order exactly up
  to the first take that finds the smallest free id blocked and a greater one in use, and its ids stay distinct exactly up to
  the first take that meets its id (`PacketIds.OrderHoldsExactly`, `PacketIds.DistinctHoldsExactly`;
  `PacketIds.OutsideLocksRepeat` is such a run). Without others the smallest free id is handed out always
  (`PacketIds.RunsHandOutSmallest`).
- The broker forwards QoS 1 messages with `MYQTT_QOS_SKIP_STORAGE`, documented as a flag but defined as 127, which also has
  the bit of QoS 2 set. A publish call that waits for replies can return true exactly if its QoS value does not have both bits
  set, so no forwarded QoS 1 message ever counts as published (`ExchangeOutcomes.SucceedsExactly`,
  `ExchangeOutcomes.ForwardedExactly`).
- Handlers of one connection run in pool threads at the same time, and each changes the connection's own maps and the index in
  two sections with different locks. The two stay in agreement exactly as long as nobody subscribes on a closed connection, no
  connection is closed between the two sections of a subscription, and no handler overtakes an older one that works on the
  same filter with another outcome (`RoutingRuns.StepAgreesExactly`). If handlers took turns, they would agree always
  (`RoutingRuns.SerialRunsAgree`).
- A subscription on disk keeps its first QoS, a denied one is stored, and a vetoed unsubscribe has already removed the
  file: the disk and the connection agree exactly when none of these happens (`Session.StepAgreesExactly`).
- The search for a packet id of a queued message ends at 65356, the test for failure is made against 65536. A new message
  repeats the id of a queued one exactly if no id below 65356 is free and a message is stored under 65356 already
  (`OfflineQueue.Queue.OfflinePub`, `OfflineQueue.DistinctExactly`).
- The will's retain option is kept with the connection options but has no bit in the CONNECT packet, so that no reading of
  the packet is right both for clients with and without the wish (`Connect.RetainWishIsLost`).

## Model

| member | source | states |
|---|---|---|
| `TopicFilter.IsWrongTopic` | lib/myqtt-reader.c:709-738 | one scan with neighbour checks rejects exactly the strings that section 4.7.1 does not allow: empty, or with a wildcard that does not fill a level, or `#` before the last level |
| `TopicFilter.WellPlacedIsValid` | lib/myqtt-reader.c:709-738 | from any level on, index-by-index neighbour checks and the level-by-level rule accept the same strings |
| `TopicFilter.FilterMatch` | lib/myqtt-reader.c:740-831 | the loop over two indices decides `Matches` for every pair of strings |
| `TopicFilter.MatcherVerdict` | lib/myqtt-reader.c:740-831 | for every name and valid filter the matcher accepts exactly when the standard's level-by-level rule does and the name is not missed, or the name is one of the extras |
| `TopicFilter.AgreesWithStandardExactly` | lib/myqtt-reader.c:740-831 | matcher and standard agree on a name and a valid filter if and only if it is neither an extra nor a miss |
| `TopicFilter.OrdinaryNames` | lib/myqtt-reader.c:740-831 | for names with a non-empty last level and no `$` at a later level the only deviation is a `+` on the last level of the name followed by exactly `/`, `/+` or `//#` |
| `TopicFilter.LiteralFilter` | lib/myqtt-reader.c:740-831 | a filter without wildcards is valid and matches the equal topic only |
| `TopicFilter.ExtraExamples` | lib/myqtt-reader.c:782-788 | "a" matches "+/+" and "a/" matches "+", which the standard denies |
| `TopicFilter.MissedExamples` | lib/myqtt-reader.c:773-798 | "a/$b" does not match "a/+" and "a/" does not match "a/+/#", which the standard requires |
| `RemainingLength.Encode` | lib/myqtt-msg.c:167-206 | succeeds exactly up to 268435455 and writes the field of section 2.2.3 in place, nothing else |
| `RemainingLength.Decode` | lib/myqtt-msg.c:213-236 | returns the value and length of the size field, or -1 if four bytes do not end it |
| `RemainingLength.RoundTrip` | lib/myqtt-msg.c:167-236 | whatever bytes follow, decoding an encoded length returns the length and its byte count |
| `RemainingLength.EncodingIsShortest` | lib/myqtt-msg.c:167-206 | no field with the same value is shorter than the encoding |
| `RemainingLength.EncodingSize` | lib/myqtt-msg.c:402-423 | the builder's separate thresholds are exactly the sizes of the encoding |
| `Message.MeasureParams` | lib/myqtt-msg.c:294-400 | the first pass over the arguments accepts exactly lists of at most 20 acceptable ones and returns the size of what the second pass stores |
| `Message.StoreParams` | lib/myqtt-msg.c:463-530 | the second pass switches on each argument's type, puts the arguments one behind the other after the header and ends exactly at the measured size |
| `Message.ParamAt` | lib/myqtt-msg.c:463-530 | every argument lies at its own offset and the last offset is the body's size |
| `Message.StoreHeaderByte` | lib/myqtt-msg.c:432-453 | setting dup, retain and QoS bit by bit gives the header byte of section 2.2 and touches no other byte |
| `Message.StoreHeader` | lib/myqtt-msg.c:432-463 | the header takes exactly the room that the thresholds reserved |
| `Message.Build` | lib/myqtt-msg.c:264-539 | returns a packet for exactly the buildable argument lists, with one spare byte, and the packet is header byte, size field and body |
| `Message.HeaderRoundTrip` | lib/myqtt-msg.c:755-823 | every built packet announces its own type, flags and size, whatever follows on the wire |
| `Payload.TextRead` | lib/myqtt-reader.c:99-128 | a stored NUL-free string with its length in front is read back whole |
| `Qos.BitsExactly` | lib/myqtt-conn.c:2374-2403 | the QoS argument is read by its two lowest bits, whatever the others are: the lowest asks for QoS 1, else the next for QoS 2 |
| `Publish.BuildPublish` | lib/myqtt-conn.c:2339-2408 | which publish calls get a packet, and that packet, with the QoS chosen from the caller's bits |
| `Publish.BodyRoundTrip` | lib/myqtt-reader.c:1686-1723 | parsing a built body returns topic, packet id and message unchanged, or closes the connection, exactly by whether the topic has wildcards or fails the encoding check |
| `Publish.RoundTrip` | lib/myqtt-msg.c:294-539 | end to end over header and body, for every dup, QoS, retain, topic, id and message within the limits and whatever follows |
| `Publish.BuiltAgain` | lib/myqtt-reader.c:1686-1723 | the way back: a parsed payload is the one its fields would be built into if and only if its announced topic length is the topic's, that is, no NUL cuts the topic short |
| `Connect.ComputeFlags` | lib/myqtt-conn.c:1062-1094 | every bit of the flags byte means what section 3.1.2 says, and the will retain bit is never set |
| `Connect.BuildConnect` | lib/myqtt-conn.c:1062-1133 | the packet is built exactly when its body fits, with flags and arguments that belong together |
| `Connect.AdmittedExactly` | lib/myqtt-reader.c:238-309 | which CONNECT packets get their client admitted and under which name: no name only with a clean session, no name in use, no badly encoded one, no kept session without storage; all others are refused with the code of the failing check |
| `Connect.ParsedExactly` | lib/myqtt-reader.c:391-501 | for the packet of any client, whatever its protocol name, level, keep-alive and flags: the connection is closed exactly if the name is neither MQTT nor MQIsdp or the level neither 3 nor 4; else every field is recovered, the keep-alive and the QoS bits of the will among them, or the client id is refused with the code of the failing check |
| `Connect.RetainWishIsLost` | lib/myqtt-conn.c:1062-1115 | clients that differ only in their wish for a retained will send the same packet, without the bit for it, and no way of reading it learns the wish of both |
| `Connect.RoundTrip` | lib/myqtt-reader.c:391-501 | for every combination of clean session, will, username and password the server recovers what the library's own client encoded, or refuses with the code of the first failing check |
| `Connect.WillParsed` | lib/myqtt-reader.c:438-470 | topic and message of the will come back, and the QoS that the flag bits say, the bit for 2 first |
| `Subscribe.ParseRequests` | lib/myqtt-reader.c:857-950 | the parse loop visits the requests of the payload in order up to the first malformed one; each gets its return code, is handed to the storage if there is a session, and is registered unless it is denied |
| `Subscribe.RegisteredExactly` | lib/myqtt-reader.c:914-950 | exactly the requests that the application granted and, in a session, the storage took are registered, in their order, with the QoS that the application granted |
| `Subscribe.CodeExactly` | lib/myqtt-reader.c:918-940 | without a session the reply is the application's answer; in a session too if the storage took it, else 128 |
| `Subscribe.StoredExactly` | lib/myqtt-reader.c:928-937 | in a session every request goes to the storage as the application granted it, in order; without one none does |
| `Subscribe.BuildSuback` | lib/myqtt-reader.c:952-983 | filling the reply in place writes a well-formed SUBACK and nothing behind it, whatever size is sent |
| `Subscribe.SentIsSuback` | lib/myqtt-reader.c:952-995 | up to 125 codes exactly, the writes stay inside the reserved memory and the bytes sent are that SUBACK; beyond, they are no SUBACK at all |
| `Subscribe.Handle` | lib/myqtt-reader.c:836-1000 | a SUBSCRIBE is acknowledged exactly if it has a payload and all its requests are well formed, with its own packet id and one code for each request in order |
| `Subscribe.VisitedAreValid` | lib/myqtt-reader.c:873-892 | whatever the payload, only filters valid by section 4.7.1 and well encoded are ever visited |
| `Subscribe.ScanOfWire` | lib/myqtt-reader.c:857-950 | every list of well-formed requests is visited exactly |
| `Subscribe.ListRoundTrip` | lib/myqtt-reader.c:857-995 | for every list of well-formed requests: exactly that list, the same packet id, and a whole SUBACK if and only if there are at most 125 |
| `FrameReader.Socket.ReceiveRaw` | lib/myqtt-msg.c:99-161 | puts the next bytes at the given place of the buffer, ends them with a NUL and keeps what lies before; a place in front of the buffer is written to exactly if there is something to read or the peer has closed |
| `FrameReader.Connection.GetNext` | lib/myqtt-msg.c:566-914 | one call moves the connection's saved buffer, counters and state, and the socket, exactly as the step function says |
| `FrameReader.Connection.ReceiveRest` | lib/myqtt-msg.c:583-646 | continuing a packet: completed, still partial, counted as no data, or dropped with the connection |
| `FrameReader.Connection.ReceiveSizeField` | lib/myqtt-msg.c:734-753 | reads size bytes one by one up to three more, as long as the last one says so; for one that is not there it goes on with the NUL behind the previous read |
| `FrameReader.Connection.AcceptHeader` | lib/myqtt-msg.c:755-914 | refuses bad headers and those that the application vetoes, and takes the first part of the body |
| `FrameReader.StepKeepsConsistent` | lib/myqtt-msg.c:583-646 | between calls bytes read and bytes missing add up to the packet's size, and a packet comes out with the size its header announced |
| `FrameReader.ReassemblyFrom` | lib/myqtt-msg.c:583-683 | however the missing bytes are cut into chunks and polls, the calls together return one packet with all bytes in order and leave the rest, if and only if at most 25 polls found no data; else the connection closes |
| `FrameReader.DeliverySplitsStream` | lib/myqtt-msg.c:566-914 | the bytes taken and the bytes left make up the stream, and enough bytes are all it takes |
| `FrameReader.HeaderIsFront` | lib/myqtt-msg.c:648-823 | reading the header stops right behind it and reads the header the stream starts with |
| `FrameReader.PacketArrives` | lib/myqtt-msg.c:566-914 | once a packet's header came whole and its body's first read finds data, the calls return that packet with its body and leave exactly the events behind it, or close the connection, by the number of polls |
| `FrameReader.ArrivesExactly` | lib/myqtt-msg.c:566-914 | for every way in which the bytes of a packet can come in, the calls return that packet and leave what is behind it if and only if the application accepts the header and the events are smooth |
| `FrameReader.SequenceArrivesExactly` | lib/myqtt-msg.c:566-914 | for every stream of packets, run after run returns all of them whole and in order if and only if each is accepted and comes in smoothly where the one before it ended |
| `FrameReader.RefusedHeader` | lib/myqtt-msg.c:755-834 | a size field of more than four bytes, QoS 3, a reply packet without exactly a packet id, or the application's veto closes the connection before any of the body is read |
| `FrameReader.LoneHeaderByte` | lib/myqtt-msg.c:648-755 | a header byte that arrives alone comes out as a packet without body, whatever follows it |
| `FrameReader.MissingSizeByte` | lib/myqtt-msg.c:737-758 | when the second size byte of a packet is not there yet, the header is read as announcing the size modulo 128 |
| `FrameReader.NoDataOnFirstBodyRead` | lib/myqtt-msg.c:583-898 | for every packet whose header came whole and whose body's first read finds no data, a later call writes in front of the buffer if and only if at most 25 further polls find nothing; otherwise the connection closes |
| `FrameReader.ClosingIsNoticed` | lib/myqtt-msg.c:566-914 | from every state and whatever comes before: when the peer closes, the calls end with a packet, a write outside the buffer, or the connection closed; it never stays open |
| `FrameReader.CutInsideCloses` | lib/myqtt-msg.c:583-683 | inside a packet: if the peer closes before its last byte, no packet comes out, the connection is closed and what came is dropped, unless it were more than 25 polls that closed it |
| `FrameReader.CutBetweenCloses` | lib/myqtt-msg.c:687-727 | between packets: a peer that sends nothing more and closes has its connection closed, without a packet and with nothing left under way |
| `FrameReader.CutPacketExactly` | lib/myqtt-msg.c:566-914 | a packet that is cut short anywhere, with its header not misread: no packet and the connection closed, or a write in front of the buffer, the latter exactly if the first read of the body found no data and at most 25 further polls follow |
| `SocketWrite.Socket.SendRaw` | lib/myqtt-msg.c:1006-1123 | all bytes are written exactly if short writes and timed-out waits together stay below three; otherwise a proper prefix is, and the socket is shut down unless the last try went on a short write |
| `SocketWrite.SucceedsExactly` | lib/myqtt-msg.c:1006-1123 | all bytes go out if and only if the system's answers start with a course of interruptions, blocked writes and short writes, each of the latter two with the wait behind it, that takes fewer than three tries and ends with a write of all that is left |
| `SocketWrite.WornOutExactly` | lib/myqtt-msg.c:1089-1109 | the socket is left open on failure if and only if such a course of two tries ends with one more short write |
| `Sequencer.Queue.Send` | lib/myqtt-sequencer.c:47-149 | a message is appended unless it is empty, the context is finishing or the connection unusable, and the connection's counter stays the number of its queued messages |
| `Sequencer.Queue.RunPass` | lib/myqtt-sequencer.c:203-311 | one pass of the cursor visits every entry once, in order, whatever the sends meet, and counters stay exact |
| `Sequencer.Queue.Release` | lib/myqtt-sequencer.c:283-307 | a finished or failed message leaves the queue and its connection's counter |
| `Sequencer.BrokenOff` | lib/myqtt-sequencer.c:203-311 | a send that breaks off has put out the next bytes of its message, as many as it says and no more than a slice |
| `SequencerRuns.PassMakesProgress` | lib/myqtt-sequencer.c:203-311 | whatever the sends meet, every pass strictly lowers the number of unsent bytes |
| `SequencerRuns.PassCommutes` | lib/myqtt-sequencer.c:203-311 | what a pass does to the messages of one connection, or to one message, does not depend on the others |
| `SequencerRuns.RunsTrackMessages` | lib/myqtt-sequencer.c:77-311 | in every run of queueing and passes, what has gone out of a queued message is exactly its part before `step`, and of a failed one a prefix |
| `SequencerRuns.SentMessagesAreWhole` | lib/myqtt-sequencer.c:203-311 | in every run in which no send of a message fails, its slices cover it exactly once it has left the queue |
| `SequencerOrder.ShortMessagesKeepOrder` | lib/myqtt-sequencer.c:203-311 | in every run in which a connection's messages fit one slice and its sends succeed, whatever other connections do, sent and waiting bytes are its messages in queue order, and all are sent when the queue is empty |
| `SequencerOrder.DrainCommutes` | lib/myqtt-sequencer.c:203-311 | a connection receives from the shared queue what it would receive from a queue of its own |
| `SequencerOrder.ContiguousExactly` | lib/myqtt-sequencer.c:203-311 | draining a queue keeps a connection's messages in one piece and in order if and only if all but its last fit one slice, and then it receives their concatenation |
| `PublishGate.StepKeepsInv` | lib/myqtt-reader.c:649-695 | every step of every thread keeps the counter exact, the mutex exclusive and writers alone |
| `PublishGate.CounterIsExact` | lib/myqtt-reader.c:1467-1570 | in every run `publish_ops` is the number of publishers between increment and decrement, and while there is one nobody modifies |
| `PublishGate.PublishersSeeConstantMaps` | lib/myqtt-reader.c:1448-1570 | in every run a publisher sees the same maps from its increment to its decrement |
| `PublishGate.WritersGetInExactly` | lib/myqtt-reader.c:649-658 | in every run a writer that has the mutex and looks at the counter gets to modify if and only if no publisher is at the maps; else it sleeps with the mutex free |
| `PublishGate.MapsAreLastWritten` | lib/myqtt-reader.c:649-695 | in every run the maps are those that a writer wrote last |
| `PublishGate.WriterGetsThrough` | lib/myqtt-reader.c:649-695 | with the mutex free and no publisher at the maps, a thread can go through a whole modification, after which exactly the maps have changed |
| `PublishGate.PublisherGetsThrough` | lib/myqtt-reader.c:1467-1570 | with the mutex free, a thread can go through a whole publish: it is counted while it iterates, and everything is as before afterwards |
| `PublishGate.NoDeadlock` | lib/myqtt-reader.c:649-1570 | in every run, as long as a thread is not idle, some thread that is not can go on |
| `Exchange.StepKeepsInv` | lib/myqtt-conn.c:2107-2284 | every step of caller, handler and reply thread keeps each exchange in lockstep, each wait entry owned by its exchange, and live packet ids distinct |
| `Exchange.RepliesReachTheirExchange` | lib/myqtt-reader.c:1072-1199 | in every run a waiter only ever takes the packet that its own exchange owes it, also when both peers use the same packet ids |
| `Exchange.DeliveredOnce` | lib/myqtt-reader.c:1767-1906 | in every run with arbitrary timeouts a publish call causes at most one onward delivery, exactly one if it returned true |
| `Exchange.RepliesAreAwaited` | lib/myqtt-reader.c:2245-2449 | in every run a reply in flight whose waiter has not given up finds that waiter's entry in the table |
| `Exchange.OnlyLateRepliesAreDropped` | lib/myqtt-reader.c:1125-1199 | in every run a reply without an entry belongs to a call or handler that has stopped waiting for it |
| `Exchange.LiveIdsDiffer` | lib/myqtt-conn.c:2107-2284 | in every run two unfinished calls of one peer never share a packet id |
| `ExchangeIds.OutstandingExactly` | lib/myqtt-conn.c:2107-2284 | in every run a peer holds a packet id if and only if some call of its with that id has not returned true |
| `ExchangeIds.TakenAgainExactly` | lib/myqtt-conn.c:2266-2275 | in every run a call can be made with an id if and only if all calls of that peer with it have returned true |
| `ExchangeWaits.CallGivesUpExactly` | lib/myqtt-reader.c:2332-2449 | in every run a waiting call can give up if and only if the reply to it is not in its queue; once it is, the call can take it |
| `ExchangeWaits.HandlerGivesUpExactly` | lib/myqtt-reader.c:1804-1881 | in every run a waiting handler can give up if and only if its PUBREL is not in its queue; once it is, the handler can take it |
| `ExchangeWaits.CallTimesOut` | lib/myqtt-conn.c:2170-2284 | a call whose wait times out leaves no wait entry behind, has failed, and does not give its id back |
| `ExchangeWaits.HandlerTimesOut` | lib/myqtt-reader.c:1804-1881 | a handler whose wait times out leaves no wait entry behind and is over; what it has delivered stays delivered |
| `Exchange.TakesOwnReply` | lib/myqtt-reader.c:2332-2449 | a blocked call takes only the reply to its own last packet |
| `Exchange.TakesOwnRel` | lib/myqtt-reader.c:1804-1881 | a blocked handler takes only the PUBREL of its own exchange |
| `Exchange.BothBitsNeverSucceed` | lib/myqtt-conn.c:2107-2284 | in every run a call whose QoS value has both bits set never returns true and never frees its id |
| `ExchangeOutcomes.SucceedsExactly` | lib/myqtt-conn.c:2107-2284 | of the calls that wait for replies, there is a run in which one with a given QoS value returns true if and only if that value does not have both bits set |
| `ExchangeOutcomes.ForwardedExactly` | lib/myqtt-reader.c:1417-1438 | a message that the broker hands on with QoS 1 or 2 goes out with that QoS, but the call can return true if and only if it is 2 |
| `PacketIds.Connection.GetNextPkgId` | lib/myqtt-conn.c:1988-2066 | the walk over the list, with its skips, hands out the id and changes list and locks as `Allocate` says |
| `PacketIds.Connection.ReleasePkgId` | lib/myqtt-conn.c:2089-2101 | the id leaves list and locks |
| `PacketIds.WalkExactly` | lib/myqtt-conn.c:2018-2060 | on every list, in order or not, the walk hands out an id exactly if there is a trail that ends with it: places at which it passes the smaller ids, each the first element that is not smaller, with that id or with the id blocked |
| `PacketIds.SearchExactly` | lib/myqtt-conn.c:2007-2015 | with nothing in use or waited on: the smallest id that is not locked, or 65535 if all below it are |
| `PacketIds.RepeatsExactly` | lib/myqtt-conn.c:1988-2066 | on every list the id handed out is in use already if and only if the walk meets it: its element was used up in passing a smaller, blocked id, or lies behind the end; or the storage cannot be set up and 1 is in use |
| `PacketIds.RepeatsWhenAllBlocked` | lib/myqtt-conn.c:2018-2060 | when every id in use is blocked, an id repeats if and only if one in use is taken untried at the end; on a list in order, if all ids up to the number in use are blocked and the next one is in use |
| `PacketIds.TakesBlockedExactly` | lib/myqtt-conn.c:1999-2060 | on every list the id handed out is waited on or locked by somebody else if and only if the walk comes to the list's end with it |
| `PacketIds.LocksExactly` | lib/myqtt-conn.c:2007-2060 | the id goes into the list where the walk ends and is locked, except at the end of the list or of the search, where it is taken without a lock; no other id is touched |
| `PacketIds.FreedExactly` | lib/myqtt-conn.c:2089-2101 | freeing an id takes it out of the list and unlocks it, and touches no other id |
| `PacketIds.SmallestExactly` | lib/myqtt-conn.c:1999-2066 | on every list the smallest id that is not in use is handed out if and only if all smaller ones are passed and it is not blocked or no greater id is behind it; with nothing in use, if it is not locked |
| `PacketIds.OrderedWalkExactly` | lib/myqtt-conn.c:2018-2060 | from a list in order: the first id, from the smallest free one on, that nothing blocks, or the number of ids in use plus one if all up to there are blocked |
| `PacketIds.OrderedRepeatsExactly` | lib/myqtt-conn.c:2018-2060 | from a list in order an id in use is handed out if and only if one is reached over blocked ids only |
| `PacketIds.OrderKeptExactly` | lib/myqtt-conn.c:1999-2066 | a take keeps a list in order if and only if the smallest free id is not blocked or no greater one is in use, that is, if it hands that id out or nothing was in use or waited on |
| `PacketIds.OrderHoldsExactly` | lib/myqtt-conn.c:1988-2101 | in every run, whatever ids others lock and unlock, the list is in order up to a state if and only if every take before it was orderly in that sense |
| `PacketIds.DistinctHoldsExactly` | lib/myqtt-conn.c:1988-2101 | in every run, whatever ids others lock and unlock, the ids in use are distinct up to a state if and only if no take before it met its id |
| `PacketIds.OutsideLocksRepeat` | lib/myqtt-conn.c:2007-2060 | a run from nothing in use: with 1 and 2 locked by others the takes hand out 3, 2, which breaks the order, and 3 again |
| `PacketIds.StepKeepsInv` | lib/myqtt-conn.c:1988-2101 | as long as nobody else locks ids, taking, freeing, waiting and others' unlocking keep the list strictly increasing and every blocked id in use |
| `PacketIds.RunsHandOutSmallest` | lib/myqtt-conn.c:1988-2101 | in every run in which nobody else locks ids the id handed out is the smallest positive one not in use, and at most 65535 while fewer than 65535 are |
| `PacketIds.FreedIsTakenAgain` | lib/myqtt-conn.c:1988-2101 | in every such run an id that is given back below all free ones is the next to be handed out |
| `Routing.Context.Subscribe` | lib/myqtt-reader.c:622-692 | the connection's map and the index gain the same filter with the same QoS, filed by kind |
| `Routing.Context.Unsubscribe` | lib/myqtt-reader.c:1271-1307 | the filter leaves the connection's map, and the connection both index entries, which go when empty |
| `Routing.Context.RemoveConnRefs` | lib/myqtt-reader.c:2564-2714 | the connection leaves the index entry of every filter of its own, in whatever order they are visited |
| `Routing.SendToHolders` | lib/myqtt-reader.c:1408-1440 | as a multiset, one message for each reachable holder, handed on with the lower QoS, and with 127 in place of 1 |
| `Routing.PublishWild` | lib/myqtt-reader.c:1502-1533 | as a multiset, one message for each reachable holder of each wildcard filter that accepts the topic |
| `Routing.Context.DoPublish` | lib/myqtt-reader.c:1448-1570 | what goes to connections and what is queued for clients that are away, from the two indexes |
| `Routing.SentToConnections` | lib/myqtt-reader.c:1408-1440 | exactly the working holders of a filter are sent a message, and on the wire it has a QoS that is at most the message's, at most the subscription's, and one of the two |
| `Routing.SentToQueues` | lib/myqtt-reader.c:1344-1380 | every holder that is away, and no one else, gets the message into its queue, with the lower of the two QoS |
| `Routing.SentForFilters` | lib/myqtt-reader.c:1502-1533 | what goes to the holders of wildcard filters is what goes to the holders of each filter that accepts the topic |
| `RoutingRuns.RunsKeepFiling` | lib/myqtt-reader.c:622-2714 | in every run, with handlers and closing interleaved in any way, filters are filed by kind and the index has no empty entry |
| `RoutingRuns.OwnIsLastBegun` | lib/myqtt-reader.c:641-648 | in every run exactly the accepted connections have own maps, and these say what the newest handler for each filter wanted |
| `RoutingRuns.StepAgreesExactly` | lib/myqtt-reader.c:641-2714 | a locked section keeps own maps and index in agreement, once the work under way is done, if and only if it is no subscribing on a closed connection, no closing amid a subscription and no overtaking of work with another outcome |
| `RoutingRuns.SerialIsHarmless` | lib/myqtt-reader.c:622-2714 | if handlers of a connection take turns and closing waits for them, no step does harm |
| `RoutingRuns.RunsAgree` | lib/myqtt-reader.c:622-2714 | in every run of steps that do no harm, for every connection and filter that no handler is at work on, the index has exactly the entry that the connection's own maps have, and none once the connection has been taken out |
| `RoutingRuns.PublishIsScan` | lib/myqtt-reader.c:1408-1536 | in every run of steps that do no harm publishing delivers, as a multiset, what a linear scan of all working connections and all their filters with the matcher would, for all pairs that no handler is at work on |
| `RoutingRuns.SerialRunsAgree` | lib/myqtt-reader.c:622-2714 | in every run in which the handlers of each connection take turns and closing waits for them, each connection has at most one handler at work, the index is what the own maps ask for wherever none is, and publishing is the scan |
| `FileNames.GetSizeFromFileName` | lib/myqtt-storage.c:547-571 | the digit loop with its ten-byte buffer returns the leading number of a name and its length, or -1 |
| `FileNames.ReadBack` | lib/myqtt-storage.c:547-571 | a printed number in front of a dash is read back if and only if it is below 10^9 |
| `FileNames.OnlyDigitsUnread` | lib/myqtt-storage.c:547-571 | digits that nothing follows are not read as a number |
| `SubStore.SameContent` | lib/myqtt-storage.c:684-701 | comparing 4096 bytes at a time terminates and decides equality |
| `SubStore.SubExists` | lib/myqtt-storage.c:626-771 | the filter on length, then content, finds a filter's file exactly if it is stored, and removes only that one |
| `SubStore.Store.Sub` | lib/myqtt-storage.c:812-904 | storing refines a map from filter to QoS in which the first subscription wins |
| `SubStore.Store.Unsub` | lib/myqtt-storage.c:922-957 | unsubscribing removes the filter from that map and reports whether it was there |
| `SubStore.RegisterDir` | lib/myqtt-storage.c:1020-1064 | every file of a bucket is registered once with the filter and QoS it stands for, and the count is the bucket's |
| `SubStore.Store.Recover` | lib/myqtt-storage.c:978-1143 | going over all buckets registers exactly that map, and the total is its size |
| `SubStore.NameOfNames` | lib/myqtt-storage.c:869-871 | length and QoS are read back from the name of the file that storing creates |
| `Session.MoveToOffline` | lib/myqtt-reader.c:1003-1038 | exactly the given filters are filed for the client in the offline index; other clients keep theirs |
| `Session.MoveToOnline` | lib/myqtt-reader.c:312-363 | the client leaves the offline entries of exactly its connection's filters; other clients keep theirs |
| `Session.RecoverSession` | lib/myqtt-storage.c:978-1143 | the connection's maps become exactly what is on disk, filed by kind, and the index gains the same |
| `Session.HandleSubscription` | lib/myqtt-reader.c:914-950 | storage and connection move as the session's step says, and in the index the filter gains its QoS for this connection unless the request is denied; every other connection's share of the index, and the offline index, stay |
| `Session.HandleUnsubscription` | lib/myqtt-reader.c:1243-1310 | the file goes even when the application then refuses; only if it accepts, the filter leaves the connection's maps and its share of the index, and no other share |
| `Session.HandleDisconnect` | lib/myqtt-reader.c:1042-1069 | everything the connection subscribed to is filed for the client while it is away, nothing for others, and the online index stays |
| `Session.HandleReconnect` | lib/myqtt-conn.c:1867-1880 | the connection and its share of the index get what is on disk, others keep theirs, and the client is taken out of the offline index |
| `Session.StepAgreesExactly` | lib/myqtt-reader.c:914-1307 | a step keeps disk and connection in agreement if and only if it does not deny a new filter, change a known one's QoS or veto the unsubscribe of a known one |
| `Session.ReconnectRestores` | lib/myqtt-conn.c:1867-1880 | in every such run a reconnect gives back exactly the subscriptions of the last connection, and afterwards the offline index does not list the client |
| `Session.ComesBack` | lib/myqtt-reader.c:1042-1069 | from every state of such a run, however the connection ends, the client can come back and then has exactly the state from before |
| `OfflineQueue.NameRoundTrip` | lib/myqtt-storage.c:522-571 | packet id, size and QoS are read back from the name they were printed into |
| `OfflineQueue.GivenIdExactly` | lib/myqtt-conn.c:2518-2537 | QoS 1 and 2 messages always get an id, QoS 0 messages exactly while one from 100000 to 199999 is free; it is the smallest free one of the range, or 65356 when none below is free |
| `OfflineQueue.FitsExactly` | lib/myqtt-conn.c:2540-2577 | a message is refused for its size exactly if the builder does not produce its packet |
| `PkgIdLocks.FreshIdExactly` | lib/myqtt-conn.c:2518-2537 | the search returns a newly locked id if and only if the range has a free one, and then the smallest |
| `OfflineQueue.Queue.OfflinePub` | lib/myqtt-conn.c:2481-2605 | which messages are queued and under which id; without a free id the message is stored under 65356 without a lock; where ids were distinct they stay so if and only if an id was free or no queued message has 65356 |
| `OfflineQueue.DistinctExactly` | lib/myqtt-conn.c:2518-2594 | what the queue's invariant says about ids, also after they have run out: they are distinct if and only if at most one message has 65356 |
| `OfflineQueue.Queue.Flush` | lib/myqtt-storage.c:1786-1860 | every queued message is read back once with its id, QoS and bytes |
| `OfflineQueue.Queue.Finish` | lib/myqtt-conn.c:2194-2284 | at the end of an exchange only that message goes, and its id is free again if and only if the exchange succeeded |
| `OfflineQueue.RedeliveryIsOriginal` | lib/myqtt-storage.c:1828-1846 | a stored packet of any QoS parses to the published topic and message, from QoS 1 on under the id of its file name |

## Left out

- Sockets, TLS, port sharing, name resolution, select/poll back ends, Windows code: a socket is the list of what reads and writes will meet.
- Thread pool, queues, mutexes, condition variables and memory allocation: assumed to work; where interleaving matters, every locked section is one atomic step.
- The hash tables' own code and iteration order: maps, visited in any order.
- NULL arguments and allocation failures.
- Retained messages, keep-alive, idle handling, reconnection by the client, logging; application callbacks are reduced to their answers.
- Clock and directories: a file's time stamp is a name part that the caller keeps unique, the hash of a filter is any function.
- Directory entries that are no subscription or message files, and files that others change; a filter of 10^9 bytes or more, whose length is not read back from its file's name.
- UNSUBSCRIBE parsing, PINGREQ, CONNACK and the other fixed replies: easier members of the kinds modelled here.
- A CONNECT after the field parse: the application's decision and deferred answers.
- A second CONNECT on one connection, and a clean session, which clears the disk but not the offline index.
- Loading the offline index from disk when the server starts.
- Exchange.DeliveredOnce: a publish call with no waiting time is not part of the machine; timeouts, and handlers that stop half-way, are.
- Subscribe.Handle: a SUBSCRIBE without payload, which the code reads through NULL, ends in `Overruns`; the test that the connection is a listener's is not modelled.
- Subscribe.ParseRequests: what storing and registering do is the subject of `Session.HandleSubscription`; here the storage's answers are parameters.
- PacketIds.Connection.GetNextPkgId: a client without a name, for which no lock succeeds, is not modelled.
- PacketIds.OrderHoldsExactly: which ids others lock is left open; that the list of an unready storage hands out 1 without recording it is in `PacketIds.RepeatsExactly`.
- OfflineQueue.Queue.OfflinePub: that ids stay distinct assumes that nobody else stores or frees messages of the session meanwhile; a live connection of the same session uses the same directories and stores an id taken at the end of its list without a lock.
- FrameReader.Connection.GetNext: a write in front of the buffer ends in the outcome `Undefined`; what it overwrites is not modelled.
- Payload.TextRead: a read behind the payload's memory ends in `Overrun`; what C would find there is not modelled.
- Subscribe.BuildSuback: the array also has the bytes behind the allocation that a longer size field reaches; what those bytes belong to is not modelled.
- Sequencer.Queue.RunPass: the sequencer holds its mutex while the queue is not empty, so messages arrive between passes only; the runs allow that after every pass.
- RoutingRuns.StepAgreesExactly: connections that one server process hands over to another context are not modelled.
- Sizes are unbounded integers: a body above 2^31 bytes and the overflow of the builder's total are not modelled.
