# Eclipse Paho MQTT C client: a verified model

This project models the part of the Eclipse Paho MQTT C client library that makes message delivery
reliable, and proves what that part is for.

- **Delivery.** `Session.dfy` says what each protocol handler makes of the in-flight lists and of the
  persistent store, which packets it sends and what it hands to the application. `ProtocolClient.dfy`
  is the code itself, on the heap lists of `LinkedList.dfy` with their cached lookups, each handler
  proved to do what its function in `Session` says. `Retries.dfy` is what a retry sends again and what
  its counters lead to. `PeerRuns.dfy` is about runs of one client with any peer, restarts included: the
  error of a PUBREC, and messages of QoS 0 and 1 that arrive.
- **The protocol.** `Protocol.dfy` joins two such clients by connections that keep order, can be cut at
  any moment, and whose ends can crash and restart from their stores. `Exchange.dfy` is the invariant
  of one message id in one direction, `ProtocolRuns.dfy` proves that every step of every run keeps it,
  and `ExactlyOnce.dfy` draws the conclusions: QoS 2 messages are handed over exactly once and in
  order (sections 4.3.3 and 4.4 of MQTT 3.1.1 and of MQTT 5.0), a crash at any moment is harmless, and
  no exchange can get stuck. `AtLeastOnce.dfy` says exactly which QoS 1 messages are sure to be handed
  over before they leave their sender's list (section 4.3.2), and `RetryRule.dfy` that all of them are
  when the sender retries on reconnects only.
- **The store.** `Keys.dfy` gives the keys and shows that they never collide, `SessionSync.dfy` that
  every handler keeps the store in step with the session, with one exception whose extent is exact.
  `StoredPackets.dfy` says that what is stored of a message is the packet last sent of it, or the one
  that arrived. `Restore.dfy` is the restore after a restart, `RestoreOutcome.dfy` when it fails and which
  records it removes, on any store whatever, `CrashRestore.dfy` the proof that it brings the session
  back, `MessageOrder.dfy` and `RestoreOrder.dfy` when it brings back the order (section 4.6 of
  MQTT 3.1.1). `SendOrderRuns.dfy` says for every step of every run of a client, restarts included,
  whether what is in flight stays in the order of sending, and `IdRounds.dfy` what decides it.
  The runs of all these files are of clients that keep their version; `Upgrade.dfy`, `UpgradeRuns.dfy` and
  `UpgradeReceived.dfy` are about a client of version 5 on the store of an earlier one.
- **Encodings.** `Wire.dfy`, `Properties.dfy`, `Packets.dfy` (what is stored and sent), and
  `CommandStore.dfy` (queued commands): reading undoes writing. `PropertyTypes.dfy` and `Layouts.dfy` say
  byte by byte what is on the wire and in the store (sections 2.1, 2.2.2.2, 3.3 and 3.6 of MQTT 5.0).
- **Reading.** `SocketBuffer.dfy`: a packet reader that can be interrupted at any byte, on many sockets
  at once, loses nothing, reads nothing twice and completes as soon as the bytes are there.
- **Requests.** `MessageIds.dfy`, `Commands.dfy`, `CommandRuns.dfy`, `Tokens.dfy`: message ids, the
  command queue of the asynchronous client, and that tokens stay unique.
- **Memory of topics and payloads.** `Publications.dfy`.
- **WebSocket handshake.** `Fips180.dfy` defines SHA-1 as FIPS 180-4 does, `Sha1.dfy` is the streaming
  code; `Base64.dfy` is Base64 as in section 4 of RFC 4648.

The model is imperative where the source is: the linked list, the handlers, the restore loop, the
command queue, the reader, the property list, SHA-1 and Base64 are classes or methods with loops, each
proved against functions about which the lemmas are stated. Strings are byte sequences, C integers are
unbounded unless their width matters (the byte counter of SHA-1, `Base64_encodeLength`, the remaining
length of a property list), in which case it is written out. The network, the clock and the file
system are parameters: which writes complete, how many bytes a socket has, which messages are old
enough for a retry, in which order a store lists its keys.

## What does not hold

Some promises of the code or of its comments are not kept everywhere; each such place has its exact
condition, and an input for which it fails.

- At-least-once delivery of QoS 1 (section 4.3.2 of MQTT 3.1.1): a message sent now is sure to be handed
  over before it leaves its sender's list if and only if no PUBACK of its id is under way and the first
  QoS 1 PUBLISH of its id under way, if there is one, has its content (`AtLeastOnce.AtLeastOnceExactly`);
  whatever its content, if and only if neither is under way (`AtLeastOnce.AtLeastOnceForAll`). A message
  sent again within one connection leaves both behind; `AtLeastOnce.SecondMessageLost` is a run that
  loses the next message of its id. A client that sends a QoS 1 message again only when nothing of it is
  under way on the connection never gets there: every QoS 1 message it sends is handed over before it
  leaves the list (`RetryRule.AtLeastOnceUnderRule`), in particular when it retries on reconnects only
  (`RetryRule.AtLeastOnceOnReconnect`).
- A PUBREC for an id that is not in flight leaves a PUBREL record behind; the store stays in step with
  the session if and only if the id is in flight (`SessionSync.PubrecKeepsSync`). A later message of that
  id is then taken for one already acknowledged (`SessionSync.StrayPubrecMisleads`), and after a restart
  its PUBREL is sent instead of its PUBLISH (`CrashRestore.StrayPubrecLosesPublish`). Between two clients
  of this code it never happens (`ExactlyOnce.NoStrayPubrec`).
- The list of what is in flight is in the order of sending, as it is only ever appended to, until a
  restart rebuilds it. A restored list is in the order it had before if and only if its ids go once round
  the circle from the first message to the last and the gap from the last id round to the first is the
  largest, or one of the largest and in front of the smallest id (`CrashRestore.RestoreKeepsSendOrder`, and for every step of every run
  `SendOrderRuns.OrderIsKept`); ids 1 and 40000 come back the wrong way round
  (`RestoreOrder.FarApartMisordered`).
- Whether the ids in flight still go once round is decided earlier, when messages are sent. With the next
  free id they do if and only if the oldest message does not have the very next id, or no id between the
  oldest and the newest is free (`IdRounds.SendKeepsOrder`; what a later restart makes of it,
  `SendOrderRuns.SendThenRestart`): with ids 1 and 65535 in flight and 65535 the last assigned, the next
  is 2, and a later restart misorders the three (`SendOrderRuns.NoRoomMisordered`). After a restart the
  search starts from 0 again; when the ids have gone round to 1, the next message keeps them in round only
  under the condition of `IdRounds.RestartAfterTurn` (a later restart: `SendOrderRuns.TurnedThenRestart`),
  which ids 65535 and 5 do not meet (`SendOrderRuns.TurnedMisordered`).
- A client of version 5 restarted on the store of one below it gets the same messages in the same order,
  but all of them as waiting for their PUBREC, received ones without topic and payload, and it drops every
  PUBREL record (`Upgrade.UpgradeRestores`); an outbound message is as it was if and only if it was
  waiting for its PUBREC (`Upgrade.UpgradeForgetsStage`). A message sent again is then stored under its new
  name beside the record of the old version. Of each id a restart gives as many messages as it has PUBLISH
  records, so ids are distinct if and only if no id has a record of either version
  (`Upgrade.RestoredCopies`, `Upgrade.RestoredDistinct`). That ends with the retry of a PUBLISH that is
  still stored under the old version, or a message sent with the id of one, and with no other step
  (`Upgrade.RetryTwins`, `Upgrade.StartPublishTwins`, `Upgrade.HandleTwins`, `Upgrade.RestartTwins`); after
  the reconnect that follows an upgrade every message in flight comes back twice, and ids are distinct if
  and only if nothing was in flight (`Upgrade.ReconnectDoubles`). One QoS 2 message waiting for its PUBREC
  is enough: it comes back as two of the same id (`UpgradeRuns.OneMessageTwice`), and published once it is
  handed over twice (`UpgradeRuns.HandedOverTwice`).
- A received message that is held when its client is upgraded to version 5 is not handed over any more:
  version 5 takes a message that is held for one that has been. A PUBLISH is handed over after the upgrade
  if and only if nothing of its id was held (`UpgradeReceived.HeldIsNeverHandedOver`). If the PUBLISH of a
  held message arrives once more and the client restarts before the PUBREL, two entries of its id come
  back, and the next message of that id is not handed over either; it is if and only if nothing of the id
  was held at the upgrade (`UpgradeReceived.NextIsNotHandedOver`).
- A restore reports an error if and only if the client is one below version 5 and a session record of
  version 5 is in the store (`RestoreOutcome.RestoreFails`). Which records a restore removes depends on the
  order of the keys in one case only, a PUBREL whose PUBLISH is stored but cannot be parsed
  (`RestoreOutcome.WhatLeaves`).
- A retry interval of 0 or less is described as turning retries off except on a reconnect. It does if and
  only if `connect_sent` equals `connect_count` or nothing is in flight (`Retries.ZeroIntervalIsOff`):
  after a first reconnect if and only if that got through its whole list
  (`Retries.FirstReconnectEqual`), after a second complete one if and only if the first had nothing to
  send or nothing is in flight now, since `connect_sent` is never set back
  (`Retries.SecondReconnectTurnsOn`).
- A connect retry that does not complete is described as being continued, but each call starts from the
  front of the list again. However the writes of each call go, a message is reached if and only if one
  single call completes all writes in front of it before `connect_sent` has come up to `connect_count`
  (`Retries.ConnectRetryReaches`); with every write interrupted, all messages are reached if and only if
  there is at most one (`Retries.ConnectRetryNotContinued`).
- SHA-1 counts bits in 32 bits; its padding is that of the standard if and only if the message is
  shorter than 2^29 bytes (`Sha1.PaddingAgrees`).
- `Base64_encodeLength` is the encoded size if and only if the input is shorter than 2^30 bytes
  (`Base64.EncodeLengthExact`); an encoding that does not fit is cut off and reported as complete when
  the buffer holds whole quartets (`Base64.Encode`).
- An UNSUBSCRIBE command of MQTT 3.1.1 is not restored unless it has no topics; every other command is
  (`CommandStore.CommandRoundTrip`).
- The search for a duplicate connect is described as covering all connects at the head of the queue,
  but looks at the first command only (`Commands.DuplicateMissed`): behind another client's connect the
  client's own is not seen (`Commands.SecondConnectQueued`). The model follows the code.
- `assignMsgId` never tries the id it starts from, and starting from 0 it stops only if some id is free
  (`MessageIds.FirstFreeId`, `MessageIds.ZeroIsNeverMetAgain`).

## Model

| member | source | states |
|---|---|---|
| ExactlyOnce.HandedOverExactlyOnce | src/MQTTProtocolClient.c:323-693 | over every run of two joined clients with cuts, crashes of either side, retries and reused ids: the QoS 2 messages handed over under an id are those published under it, in order, each once, except that the one still in flight may be missing |
| ExactlyOnce.HandedOverBack | src/MQTTProtocolClient.c:323-693 | the same for the other direction of the same connection |
| ExactlyOnce.NeverTwice | src/MQTTProtocolClient.c:323-693 | over all ids: no QoS 2 message is handed over more often than it was published; with nothing of its id in flight, exactly as often |
| ExactlyOnce.MomentOfHandover | src/MQTTProtocolClient.c:390-405 | version 5 has handed a message over before its sender has the PUBREC, earlier versions only after it |
| ExactlyOnce.CrashIsHarmless | src/MQTTPersistence.c:185-368 | at every moment of every run the store gives the session back, whatever the order of the keys: stages of QoS 2, contents, inbound ids |
| ExactlyOnce.NoStrayPubrec | src/MQTTProtocolClient.c:485-556 | between two clients of this code a PUBREC always finds its message in flight |
| ExactlyOnce.ReconnectIsARun | src/MQTTProtocolClient.c:791-863 | the retry after a reconnect, as one call, is a run of single retries, so it is covered by the runs |
| ExactlyOnce.CanComplete | src/MQTTProtocolClient.c:485-693 | from every reachable state a cut, one retry and at most two round trips complete any chosen exchange, with everything published under its id handed over |
| AtLeastOnce.AtLeastOnceExactly | src/MQTTProtocolClient.c:436-476 | over every run of two joined clients and every QoS 1 message sent in it: each continuation in which its id leaves the list has handed it over, if and only if neither a PUBACK of its id nor, first of its id, a QoS 1 PUBLISH of another content is under way when it is sent |
| AtLeastOnce.AtLeastOnceForAll | src/MQTTProtocolClient.c:323-345 | the same for every content: if and only if no QoS 1 PUBLISH of its id is under way to the receiver and no PUBACK back |
| AtLeastOnce.SecondMessageLost | src/MQTTProtocolClient.c:791-863 | a run of either version: sent, sent again, both copies acknowledged, the second PUBACK taken for the next message of that id, which is lost with the connection |
| RetryRule.AtLeastOnceUnderRule | src/MQTTProtocolClient.c:791-863 | in every run in which the sender retries a QoS 1 message only when no PUBLISH of its id and no PUBACK is under way: nothing is ever left over of a free id, and every QoS 1 message sent, whatever its content and whatever happens afterwards, is handed over before its id leaves the list |
| RetryRule.AtLeastOnceOnReconnect | src/MQTTProtocolClient.c:791-816 | the same for every run in which the sender's retries are those of reconnects, each a cut and one retry of everything in flight; cuts and crashes may come at any time |
| RetryRule.RunKeepsOne | src/MQTTProtocolClient.c:323-476 | what such runs keep: of each id at most one QoS 1 PUBLISH or PUBACK is under way, and none unless a QoS 1 message of the id is in flight |
| PeerRuns.RefusedIsOver | src/MQTTProtocolClient.c:518-538 | in every run of a client with any peer, whose PUBRECs are for messages in flight: the error of a version 5 PUBREC ends the exchange; until the id is used again it is free, nothing of it is stored, and neither a PUBLISH nor a PUBREL of it goes out, whatever reconnects and restarts there are |
| PeerRuns.PubrecOutcome | src/MQTTProtocolClient.c:485-556 | for every session, id and reason: nothing is sent if and only if the version is 5, the reason at least 128 and a QoS 2 message of the id waits for its PUBREC, and then the message and its records of either version are gone; otherwise exactly its PUBREL is sent and stored, no message leaves, and one that waited waits for its PUBCOMP |
| PeerRuns.PubrecElsewhere | src/MQTTProtocolClient.c:485-556 | other ids, the inbound list and all other records stay as they are |
| PeerRuns.PubrelOutcome | src/MQTTProtocolClient.c:565-633 | for every session and id: a PUBCOMP in every case; a held message is let go with its records of either version, and handed on if and only if the version is below 5; nothing else changes |
| PeerRuns.PublishOutcome | src/MQTTProtocolClient.c:353-428 | for every session and QoS 2 PUBLISH: a PUBREC in every case; the message is kept and stored as it arrived, in the place of one of its id or at the end, and handed on if and only if the version is 5 and none of its id is held; nothing else changes |
| PeerRuns.AnswerOutcome | src/MQTTProtocolClient.c:436-693 | for every session and id: a PUBACK completes its message if and only if it is one of QoS 1, a PUBCOMP if and only if it is one of QoS 2 that waits for it; then list and both records of either version are rid of it, otherwise nothing changes at all; neither is answered |
| PeerRuns.ArrivedIsHandedOver | src/MQTTProtocolClient.c:323-350 | in every run of a client with any peer: the messages of QoS 0 and 1 handed over are exactly those that have arrived, in order |
| PeerRuns.StepHandsOver | src/MQTTProtocolClient.c:323-350 | each in the step in which it arrives, with no answer for QoS 0 and a PUBACK for QoS 1, and nothing else changed; no other step hands over such a message |
| AtLeastOnce.RunKeepsAccounted | src/MQTTProtocolClient.c:323-476 | over every run: a message that nothing misleads is either still waiting, with nothing to be taken for its acknowledgement, or handed over |
| ProtocolRuns.StepKeepsInv | src/MQTTProtocolClient.c:171-693 | every step of either side keeps both directions in step, the stores in step with the sessions and every packet under way readable |
| ProtocolRuns.PubrecsAreExpected | src/MQTTProtocolClient.c:503-548 | in every state of the invariant the PUBREC at the front of a connection is for a message in flight |
| ProtocolRuns.AnswerViews | src/MQTTProtocolClient.c:436-693 | an acknowledgement changes the exchange of its own id in its own direction and nothing else |
| ProtocolRuns.RequestViews | src/MQTTProtocolClient.c:323-633 | a PUBLISH or PUBREL changes the exchange of its own id in its own direction and nothing else |
| Exchange.TakenInStep | src/MQTTProtocolClient.c:323-633 | the receiver of one exchange, in every situation it can be in, keeps sender, receiver, packets under way and logs in step |
| Exchange.AnsweredInStep | src/MQTTProtocolClient.c:436-693 | the same for the sender |
| Exchange.CutInStep | src/MQTTPersistence.c:185-368 | losing everything under way, and either end coming back from its store, keeps an exchange in step |
| Exchange.InStepMeans | src/MQTTProtocolClient.c:323-693 | in step means: handed over is a prefix of published, at most the message in flight is missing |
| SessionSync.PubrecKeepsSync | src/MQTTProtocolClient.c:485-556 | for all sessions and ids: after a PUBREC the store is in step with the session if and only if the id is in flight |
| SessionSync.StrayPubrecMisleads | src/MQTTProtocolClient.c:544-549 | a stray PUBREC followed by a new message of its id: the store shows as acknowledged what the session still waits for |
| SessionSync.StartPublishKeepsSync | src/MQTTProtocolClient.c:171-194 | sending a message keeps the store in step |
| SessionSync.PubackKeepsSync | src/MQTTProtocolClient.c:436-476 | a PUBACK keeps the store in step |
| SessionSync.PubcompKeepsSync | src/MQTTProtocolClient.c:642-693 | a PUBCOMP keeps the store in step |
| SessionSync.PublishKeepsSync | src/MQTTProtocolClient.c:323-428 | receiving a message keeps the store in step |
| SessionSync.PubrelKeepsSync | src/MQTTProtocolClient.c:565-633 | a PUBREL keeps the store in step |
| SessionSync.RetryFromKeepsSync | src/MQTTProtocolClient.c:791-863 | a retry keeps the store in step |
| SessionSync.RetryFromSendsEach | src/MQTTProtocolClient.c:813-860 | after a reconnect exactly one packet goes out per outbound message, in list order; ids, order and stages stay |
| StoredPackets.StoreHoldsWhatWasSent | src/MQTTPersistence.c:447-534 | in every run, restarts included: stored under the id of a message in flight is, to the bit, the PUBLISH that was last sent of it |
| StoredPackets.DupFlags | src/MQTTProtocolClient.c:791-863 | a PUBLISH has its DUP flag if and only if it is sent by a reconnect |
| StoredPackets.StoreHoldsWhatArrived | src/MQTTProtocolClient.c:353-428 | in every run: stored of a received message that is held is the QoS 2 PUBLISH of its id that arrived last, with the DUP flag it had |
| ProtocolClient.ProtocolClient.AssignMsgId | src/MQTTProtocolClient.c:86-106 | gives the first id after msgID going round that no outbound message has, 0 when all others are in use, and remembers it; it terminates, and the lists stay as they are |
| ProtocolClient.LookupIsIndexOf | src/LinkedList.c:154-189 | whatever the cached cursor, looking an id up finds the one message that has it |
| ProtocolClient.ProtocolClient.StartPublish | src/MQTTProtocolClient.c:171-253 | the code on the heap list does what the session function says: list, store, packet |
| ProtocolClient.ProtocolClient.HandlePuback | src/MQTTProtocolClient.c:436-476 | likewise: a QoS 1 message of that id leaves list and store, nothing else changes |
| ProtocolClient.ProtocolClient.HandlePubrec | src/MQTTProtocolClient.c:485-556 | likewise, with the cursor reset, the error of version 5, the stage change in place and the unconditional PUBREL; what that comes to is PeerRuns.PubrecOutcome |
| ProtocolClient.ProtocolClient.HandlePubcomp | src/MQTTProtocolClient.c:642-693 | likewise: only a QoS 2 message waiting for PUBCOMP leaves |
| ProtocolClient.ProtocolClient.HandlePublish | src/MQTTProtocolClient.c:323-428 | likewise for QoS 0, 1 and 2, including the replacement of a message already held by insertion before it and removal; QoS 0 and 1 in runs, PeerRuns.ArrivedIsHandedOver |
| ProtocolClient.ProtocolClient.HandlePubrel | src/MQTTProtocolClient.c:565-633 | likewise: below version 5 the message is handed on; a PUBCOMP answers in every case |
| ProtocolClient.ProtocolClient.Retries | src/MQTTProtocolClient.c:791-863 | the code sends the messages that are old enough, or all on a reconnect or while connect_sent is below connect_count, again in list order, up to the first write that does not complete, and nothing when retries are off or nothing can be written; what is stored; the exact connect_count and connect_sent afterwards; the client is closed if and only if a write failed |
| ProtocolClient.ProtocolClient.Reconnect | src/MQTTProtocolClient.c:791-863 | with no errors a reconnect sends exactly what the session function says, one packet per message; connect_count becomes their number and connect_sent grows by it |
| Retries.AllDueIsReconnect | src/MQTTProtocolClient.c:805-816 | the loop with every message due is the retry of a reconnect |
| Retries.CallResends | src/MQTTProtocolClient.c:791-863 | for every list, all counters, ages and outcomes: nothing is sent unless the socket can be written and the call is a reconnect, has a positive interval or finds the counters different; then the messages that are old enough, or all when connect_sent is below connect_count, are sent again in list order, each as PUBLISH with DUP or as PUBREL, up to the first write that does not complete |
| Retries.IntervalResends | src/MQTTProtocolClient.c:797-816 | with a positive interval and complete writes: exactly the filter of the list by age, or the whole list when connect_sent is below connect_count; nothing if and only if no message is due |
| Retries.DueStored | src/MQTTProtocolClient.c:818-860 | what is stored of each message sent again is the packet sent |
| Retries.ZeroIntervalIsOff | src/MQTTProtocolClient.c:797-799 | with a retry interval of 0 or less nothing is sent between reconnects, whatever the ages and however the writes go, if and only if the counters are equal or the list is empty |
| Retries.FirstReconnectEqual | src/MQTTProtocolClient.c:801-816 | a first reconnect leaves the counters equal if and only if it got through the whole list |
| Retries.SecondReconnectTurnsOn | src/MQTTProtocolClient.c:797-816 | after two complete reconnects an interval of 0 keeps retries off if and only if the first had nothing to send or the list is empty now |
| Retries.ConnectRetryReaches | src/MQTTProtocolClient.c:797-816 | for every sequence of write outcomes of the calls that continue a connect retry, any counters before it and any ages: message k is reached if and only if some call, the reconnect itself or one made while connect_sent is below connect_count, completes the k writes in front of it |
| Retries.ConnectRetryNotContinued | src/MQTTProtocolClient.c:803-816 | so with every write interrupted every message is reached if and only if there is at most one |
| Keys.KeyInjective | src/MQTTPersistence.h:30-57 | two session records have the same key only if kind, version and id agree |
| Keys.NamesDiffer | src/MQTTPersistence.h:30-57 | no two records of any kind share a name, so the store can be a map from what a key means |
| Keys.KeyClass | src/MQTTPersistence.c:200-240 | the prefix tests of the restore recognise every key for what it is |
| Keys.KeyFits | src/MQTTPersistence.c:483-500 | every session key fits the key buffer |
| Keys.DecimalGives | src/MQTTPersistence.c:483-500 | the digits in a key are those of the id, without leading zeros |
| Restore.RestorePackets | src/MQTTPersistence.c:185-368 | the loop over the keys with insertion in order into the heap list and the final rotation computes the restored session, or reports the error; when it does, RestoreOutcome.RestoreFails |
| RestoreOutcome.RestoreFails | src/MQTTPersistence.c:233-240 | for every store, version and order of the keys: an error if and only if the version is below 5 and a session record of version 5 is in the store |
| RestoreOutcome.WhatLeaves | src/MQTTPersistence.c:221-352 | when it succeeds, exactly the session records that cannot be parsed leave, and the PUBRELs whose PUBLISH of the client's own version is not there or has been found unreadable before; all others stay as they are |
| CrashRestore.RestoreBringsBack | src/MQTTPersistence.c:185-368 | a session in step with its store is restored id by id, whatever order the keys come in, and the store stays as it was |
| CrashRestore.RestoredIsSynced | src/MQTTPersistence.c:185-368 | the restored session is in step with the store again |
| CrashRestore.RestoreKeepsSendOrder | src/MQTTPersistence.c:414-428 | for every session in step with its store: the restored list is in the order the list had if and only if its ids go once round the circle and the gap from the last round to the first is the one the rotation picks |
| CrashRestore.ResendInOrderAfterRestart | src/MQTTProtocolClient.c:791-863 | when they do, restore, rotation and reconnect together resend one packet per message in flight in the order the list had |
| CrashRestore.StrayPubrecLosesPublish | src/MQTTPersistence.c:278-301 | a message sent after a stray PUBREC of its id waits for its PUBREC, but comes back from the store as waiting for its PUBCOMP, so that the retry sends a PUBREL and never the PUBLISH |
| Upgrade.UpgradeRestores | src/MQTTPersistence.c:221-352 | every session below version 5 restored by a client of version 5, whatever order the keys come in: the lists are those a client of the old version restores, in the same order, with all stages forgotten and topics and payloads of received messages gone; the store loses all PUBREL records and nothing else |
| Upgrade.UpgradeForgetsStage | src/MQTTPersistence.c:278-337 | id by id: every message is back, an outbound one as it was if and only if it was waiting for its PUBREC; exactly the PUBREL records leave the store |
| Upgrade.RestoredCopies | src/MQTTPersistence.c:265-301 | for every store whose sent PUBLISHes can be read: of each id as many outbound messages are restored as PUBLISH records of it are stored, under either version |
| Upgrade.RestoredDistinct | src/MQTTPersistence.c:265-301 | so the restored ids are distinct if and only if no id has a PUBLISH record of both versions |
| Upgrade.RetryTwins | src/MQTTPersistence.c:486-497 | after one retry no id has records of both versions if and only if none had and what was sent again is not a PUBLISH still stored under the old version |
| Upgrade.StartPublishTwins | src/MQTTPersistence.c:486-497 | after a message is sent, if and only if none had and its id has no PUBLISH record of the old version |
| Upgrade.HandleTwins | src/MQTTProtocolClient.c:323-693 | no packet that arrives gives an id records of both versions |
| Upgrade.RestartTwins | src/MQTTPersistence.c:185-368 | a restart by a client of version 5 leaves records of both versions for the ids that had them, and for no other |
| Upgrade.ReconnectDoubles | src/MQTTClient.c:497 | for every session below version 5 whose messages can be sent with version 5 as well: after an upgrade, a reconnect and a restart, every message that was in flight is there twice, with the same id and content, and ids are distinct if and only if nothing was in flight |
| UpgradeRuns.OneMessageTwice | src/MQTTPersistence.c:265-301 | one message in flight is restored as itself, sent again, and restored as two messages of the same id |
| UpgradeRuns.HandedOverTwice | src/MQTTProtocolClient.c:485-693 | a run for every id, content and order of the keys: one QoS 2 message published once below version 5 is handed over twice after the upgrade |
| UpgradeReceived.HeldIsNeverHandedOver | src/MQTTProtocolClient.c:390-405 | for every session below version 5 upgraded, every id and order of the keys: a QoS 2 PUBLISH is handed over if and only if no message of its id was held; a held message, which its PUBREL would have handed over before, is not by its PUBREL, with or without its PUBLISH sent again |
| UpgradeReceived.RestoredReceived | src/MQTTPersistence.c:246-263 | for every store whose received PUBLISHes are QoS 2 ones that can be read: of each id as many inbound messages are restored as records of it are stored, under either version, all of them waiting for a PUBREL |
| UpgradeReceived.NextIsNotHandedOver | src/MQTTProtocolClient.c:385-424 | after an upgrade, a PUBLISH, a restart and its PUBREL the next message of that id is handed over if and only if nothing of the id was held at the upgrade, for every session, id, content and order of the keys |
| CrashRestore.RecordRoundTrip | src/MQTTPersistence.c:376-405 | a stored PUBLISH, with or without DUP, is read back with its id, quality of service and content |
| RestoreOrder.RestoredOrder | src/MQTTPersistence.c:618-655 | for any messages with distinct ids: inserting them in any order by id and rotating at the largest gap gives the list they stood in if and only if its ids go once round the circle and its closing gap wins |
| RestoreOrder.ShortRunRestored | src/MQTTPersistence.c:618-655 | in particular when they go once round and span less than half the circle of 65535 ids |
| RestoreOrder.FarApartMisordered | src/MQTTPersistence.c:618-655 | two messages with ids 1 and 40000, sent in that order, come back the other way round |
| SendOrderRuns.OrderIsKept | src/MQTTProtocolClient.c:86-106 | in every run of a client whose PUBRECs are for messages in flight, with sends, answers, reconnects and restarts: each step leaves the ids where they stood but for the one sent, which is appended, or one taken out, and a restart does if and only if the list is empty, or its ids go once round and the closing gap wins |
| SendOrderRuns.OrderOfSending | src/MQTTProtocolClient.c:171-194 | so after every such run whose restarts all meet that condition the list stands in the order of sending |
| SendOrderRuns.CrashedRunResendsInOrder | src/MQTTProtocolClient.c:791-863 | after a crash at any point of any such run the restored session resends exactly the packets the session itself would have resent, in that order, if and only if the list meets that condition |
| SendOrderRuns.RoundIsKept | src/MQTTProtocolClient.c:86-106 | in runs whose sends have room or no free id in between, and whose restarts come back without a turn, the ids in flight go once round, so that only the closing gap decides |
| SendOrderRuns.SendThenRestart | src/MQTTProtocolClient.c:86-106 | a message sent with the next free id while ids go once round: a restart after it restores the order if and only if there was room, or no id was free in between, and the closing gap wins |
| SendOrderRuns.TurnedThenRestart | src/MQTTProtocolClient.c:86-106 | the first message after a restart whose ids have gone round to 1: another restart restores the order if and only if every id from 1 to the newest was in flight, one was left before the oldest, and the closing gap wins |
| SendOrderRuns.NoRoomMisordered | src/MQTTPersistence.c:618-655 | ids 1 and 65535 in flight, 65535 the last assigned: the next id is 2, and the three come back as 65535, 1, 2 |
| SendOrderRuns.TurnedMisordered | src/MQTTPersistence.c:618-655 | ids 65535 and 5 in flight after a restart: the next id is 1, and the three come back as 65535, 1, 5 |
| IdRounds.SendKeepsOrder | src/MQTTProtocolClient.c:86-106 | with the next free id the ids in flight still go once round if and only if the oldest message does not have the very next id or no id between oldest and newest is free |
| IdRounds.RestartAfterTurn | src/MQTTProtocolClient.c:86-106 | with the search starting from 0 and ids that have gone round to 1: they still go once round if and only if every id from 1 to the newest is in flight and one is left before the oldest |
| RestoreOrder.InsertAllSorts | src/MQTTPersistence.c:414-428 | insertion in order sorts by id and keeps the messages |
| MessageOrder.InsertInOrderImpl | src/MQTTPersistence.c:414-428 | the code on the heap list inserts before the first larger id |
| MessageOrder.WrapMsgID | src/MQTTPersistence.c:618-655 | the pointer surgery turns the list at its largest gap and leaves it well formed, cursor included |
| MessageOrder.FindLargestGap | src/MQTTPersistence.c:622-643 | the scan finds the earliest largest gap, counting the one from 65535 to 1 |
| MessageIds.FirstFreeId | src/MQTTAsyncUtils.c:2745-2762 | the first free id after the start going round, or 0 when every id other than the start is in use; it terminates |
| MessageIds.ZeroIsNeverMetAgain | src/MQTTProtocolClient.c:92-97 | stepping round from 0 never gives 0 again, so that start needs a free id to stop |
| LinkedList.List.AppendNoMalloc | src/LinkedList.c:69-81 | appends; chain, ends, count and cursor stay right |
| LinkedList.List.Insert | src/LinkedList.c:107-131 | inserts before an element, or appends |
| LinkedList.List.FindItem | src/LinkedList.c:154-189 | finds an element if and only if a plain scan would; the cursor's own element comes first |
| LinkedList.CacheIsTransparent | src/LinkedList.c:154-189 | with at most one match the cached lookup returns the very element a plain scan returns |
| LinkedList.List.Unlink | src/LinkedList.c:201-236 | removes exactly the element the lookup settles on, keeps the order of the rest, and leaves the cursor on a live element or NULL |
| LinkedList.WithoutOnlyMatch | src/LinkedList.c:201-236 | removing the only match leaves exactly the elements that do not match |
| LinkedList.List.DetachHead | src/LinkedList.c:268-286 | takes out the first element and says which |
| LinkedList.List.PopTail | src/LinkedList.c:306-324 | takes out the last element and says which |
| LinkedList.List.Empty | src/LinkedList.c:359-375 | leaves an empty list |
| LinkedList.List.NextElement | src/LinkedList.c:411-414 | iteration visits the elements in order |
| LinkedList.List.PrevElement | src/LinkedList.c:424-427 | iteration backwards |
| LinkedList.List.RemoveWhileIterating | src/MQTTAsyncUtils.c:995-1015 | removing while iterating by way of the cursor leaves exactly the elements that are not done |
| LinkedList.SweepIsRemaining | src/MQTTAsyncUtils.c:1000-1012 | walking and removing in place is filtering |
| Publications.PublicationState.Receive | src/MQTTProtocolClient.c:353-424 | storing a received publication, discarding the one it replaces or dropping it once handed on keeps every stored publication referred to exactly once |
| Publications.PublicationState.Release | src/MQTTProtocolClient.c:612-620 | a PUBREL gives up the publication of its message if it still has one |
| Publications.PublicationState.Complete | src/MQTTProtocolClient.c:295-313 | a completed outbound message gives up its publication |
| Publications.PublicationState.StartPublish | src/MQTTProtocolClient.c:206-289 | a new message stores its publication once |
| Publications.PublicationState.RestoreOutbound | src/MQTTPersistence.c:293-300 | a restored outbound message stores its publication once, wherever it is inserted |
| Publications.PublicationState.RestoreInbound | src/MQTTPersistence.c:246-263 | so does a restored inbound one, in version 5 as well, where it keeps the publication it no longer needs |
| Publications.PublicationState.TurnOutbound | src/MQTTPersistence.c:618-655 | turning the outbound list keeps every stored publication referred to exactly once |
| Publications.PublicationState.EmptyOutbound | src/MQTTProtocolClient.c:997-1011 | emptying the outbound list gives up exactly its publications |
| Publications.PublicationState.EmptyInbound | src/MQTTProtocolClient.c:997-1011 | emptying the inbound list gives up exactly its publications |
| Publications.PublicationState.StoreQoS0 | src/MQTTProtocolClient.c:109-138 | an unfinished QoS 0 write stores its publication once |
| Publications.PublicationState.CheckPendingWrites | src/MQTTAsyncUtils.c:995-1015 | removing finished writes while walking the list removes exactly their publications |
| Wire.VbiRoundTrip | src/MQTTPacket.c:1032-1057 | the limited decoder reads back every variable byte integer of up to four bytes |
| Wire.LengthRoundTrip | src/MQTTPersistence.c:383-391 | the decoder of the restore reads back every encoded length |
| Wire.DecodeBuf | src/MQTTPacket.c:1032-1076 | the multiplier loop computes the recursive decoding, for every content of memory |
| Wire.Encode | src/MQTTPacket.c:300-319 | the loop writes the variable byte encoding and returns its size |
| Wire.VbiLenIsLength | src/MQTTPacket.c:1010-1023 | VBIlen is the encoded length if and only if the value is below 2^28 |
| Wire.WriteInt4 | src/MQTTPacket.c:945-957 | writes four bytes, most significant first, and moves on by four |
| Wire.WriteInt | src/MQTTPacket.c:453-459 | writes two bytes, most significant first, and moves on by two |
| Wire.WriteMQTTLenString | src/MQTTPacket.c:974-979 | writes the length and the data and moves on past them |
| Wire.Int4RoundTrip | src/MQTTPacket.c:945-971 | reading undoes writing |
| Wire.LenRoundTrip | src/MQTTPacket.c:974-998 | reading undoes writing, checked against the end |
| Properties.ListRoundTrip | src/MQTTProperties.c:208-344 | reading a property list undoes writing it, wherever in memory and whatever follows |
| Properties.WriteThenRead | src/MQTTProperties.c:208-344 | the code that writes a list into a buffer and the code that reads it, one after the other: reading succeeds, gives the same properties with the right length, and ends exactly where writing ended |
| Properties.PropertyRoundTrip | src/MQTTProperties.c:165-297 | the same for one property of any type |
| Properties.PropertyList.Add | src/MQTTProperties.c:102-162 | appends a property and keeps the incremental length equal to the encoded size |
| Properties.PropertyList.Copy | src/MQTTProperties.c:428-444 | the copy has the same properties and the same length |
| Properties.PropertyList.Len | src/MQTTProperties.c:89-93 | is the size of the encoded list |
| Properties.PropertyList.Write | src/MQTTProperties.c:208-235 | writes the encoded list, of the bytes in PropertyTypes.WhatIsWritten, and advances by exactly its size; the return value counts the length prefix as one byte |
| Properties.PropertyList.Read | src/MQTTProperties.c:300-344 | the loop reads, for every content of memory, the list whose properties are those of PropertyTypes.NumberRead, VariableRead and DataRead |
| PropertyTypes.TypeTable | src/MQTTProperties.c:28-86 | the type of every identifier, assigned or not, as in Table 2-4 of MQTT 5.0 |
| PropertyTypes.NumberRead | src/MQTTProperties.c:238-260 | for every memory and position: the identifiers read as one byte, as two and as four, most significant first, with the value and the end position |
| PropertyTypes.VariableRead | src/MQTTProperties.c:261-264 | the subscription identifier is read from one to four bytes of seven bits, least significant first |
| PropertyTypes.DataRead | src/MQTTProperties.c:265-296 | the identifiers read as length and data, and the pair read as two of them; every other identifier is refused |
| PropertyTypes.WhatIsWellTyped | src/MQTTProperties.c:102-162 | which values go with which identifier |
| PropertyTypes.WhatIsWritten | src/MQTTProperties.c:165-205 | the bytes of a property of each type |
| Packets.PublishRoundTrip | src/MQTTPacket.c:556-605 | a stored PUBLISH is parsed back with the same header bits, topic, id, properties and payload, in every version |
| Packets.FramedRoundTrip | src/MQTTPersistence.c:376-405 | fixed header and length in front of any body: the restore finds exactly that body |
| Packets.PubrelRoundTrip | src/MQTTPacket.c:647-668 | a stored PUBREL is parsed back with its id |
| Packets.HeaderRoundTrip | src/MQTTPacket.c:855-918 | the bits of the fixed header come back one by one |
| Packets.SendPublish | src/MQTTPacket.c:855-918 | fixed header and buffers together are exactly the record, in every version and quality of service |
| Layouts.PublishLayout | src/MQTTPacket.c:855-918 | the bytes of a PUBLISH: first byte from type, DUP, quality of service and RETAIN, length, topic, id, in version 5 the properties, payload |
| Layouts.PubrelLayout | src/MQTTPacket.c:647-668 | the four bytes of a PUBREL |
| Layouts.WhatIsRead | src/MQTTPersistence.c:376-405 | whatever buffer a packet is restored from: its length is announced in it and exact, and its first byte says PUBLISH or acknowledgement |
| Layouts.AckRead | src/MQTTPacket.c:794-838 | for every body: an acknowledgement is read if and only if it has two bytes and, in version 5 with more than three, a readable property list; with which id, reason and properties |
| Layouts.ReadsExactly | src/MQTTProperties.c:300-344 | for memory below 2^32 bytes: a property list that is read takes up exactly the length announced |
| CommandStore.CommandRoundTrip | src/MQTTAsyncUtils.c:249-606 | restoring undoes persisting for every command of every version, except that an UNSUBSCRIBE below version 5 with topics is never restored |
| CommandStore.TwoPassesAreOne | src/MQTTAsyncUtils.c:425-606 | for every record whose counts and lengths are below 2^31: the first pass and, into the queued command it has left, the second give what reading everything at once gives |
| CommandStore.FirstPass | src/MQTTAsyncUtils.c:433-469 | the first pass keeps type and token, of a PUBLISH also payload length, quality of service and retain flag, and nothing else |
| CommandStore.FirstPassSucceeds | src/MQTTAsyncUtils.c:433-469 | it succeeds if and only if there are eight bytes and the type is that of a SUBSCRIBE or UNSUBSCRIBE, or of a PUBLISH that can be read to its end |
| CommandStore.RecordBegins | src/MQTTAsyncUtils.c:249-422 | a record begins with the type and the token of its command |
| CommandStore.SecondPass | src/MQTTAsyncUtils.c:443-606 | whatever a queued command holds, a pass into it leaves exactly what the record says, except that below version 5 the properties are not read |
| CommandStore.StringRoundTrip | src/MQTTAsyncUtils.c:475-484 | a string comes back if and only if its zero byte does not end the record |
| CommandStore.RestoreCommand | src/MQTTAsyncUtils.c:425-606 | the code with its loops makes one pass, into a new queued command or one left by an earlier pass, for every record whose counts and lengths are below 2^31 |
| CommandStore.PersistCommand | src/MQTTAsyncUtils.c:249-422 | the buffers handed to the store are together exactly the record |
| SocketBuffer.SocketBuffers.ReadPacket | src/MQTTPacket.c:103-145 | an attempt that completes has read exactly the next packet of that socket's stream and leaves nothing queued for it; one that is interrupted has lost nothing; if all bytes are there it completes; no other socket is touched |
| SocketBuffer.SocketBuffers.ReadAll | src/MQTTPacket.c:103-145 | any number of attempts on any sockets, interrupted anywhere: on each socket exactly its next packets have been read, in order, and nothing else; a socket is closed if and only if a malformed length comes next, and the others go on |
| SocketBuffer.SocketBuffers.ReadLength | src/MQTTPacket.c:328-354 | the remaining length read byte by byte, replayed or fresh, is the decoded one; a fifth byte is never read |
| SocketBuffer.SocketBuffers.Getch | src/SSLSocket.c:840-870 | the next byte of the header comes from the queue or the socket; an interruption loses nothing |
| SocketBuffer.SocketBuffers.Getdata | src/SSLSocket.c:881-932 | the rest of the packet comes together from the buffer and the socket; an interruption loses nothing |
| SocketBuffer.SocketBuffers.GetQueuedChar | src/SocketBuffer.c:225-250 | replays the header byte by byte |
| SocketBuffer.SocketBuffers.QueueChar | src/SocketBuffer.c:309-340 | keeps a header byte with its socket |
| SocketBuffer.SocketBuffers.GetQueuedData | src/SocketBuffer.c:176-216 | gives a buffer large enough that still has the data read before |
| SocketBuffer.SocketBuffers.ReadInterrupted | src/SocketBuffer.c:258-279 | keeps what was read and provides a new default queue |
| SocketBuffer.SocketBuffers.ReadComplete | src/SocketBuffer.c:287-301 | the queue of the socket becomes the empty default queue |
| SocketBuffer.SocketBuffers.Cleanup | src/SocketBuffer.c:151-166 | removes what is kept for a socket and nothing else |
| Commands.CommandQueue.AddCommand | src/MQTTAsyncUtils.c:787-916 | where a command goes, when it is ignored, when it pushes out the client's oldest message; the counters keep counting the queued messages |
| Commands.CommandQueue.ProcessCommand | src/MQTTAsyncUtils.c:1191-1270 | the command that is started leaves the queue, and which it is, Commands.StartsWhatIsNotHeldBack; the counters keep counting the queued messages |
| Commands.CommandQueue.Select | src/MQTTAsyncUtils.c:1206-1240 | the loop with its list of ignored clients finds the earliest command that is first of its client and may be started; which may, Commands.StartsWhatIsNotHeldBack |
| Commands.SelectsSomething | src/MQTTAsyncUtils.c:1206-1240 | something is selected if and only if some client's first queued command passes the gate |
| Commands.StartsWhatIsNotHeldBack | src/MQTTAsyncUtils.c:1206-1240 | over the fields of the client and the kind of the command: what is started is first of its client and not held back; each client whose first command stands before it, or every client when nothing is started, has that command held back, by a missing connection, a request or write under way, 65534 messages in flight or maxInflightMessages |
| Commands.WhereItGoes | src/MQTTAsyncUtils.c:787-916 | a connect or internal disconnect goes in front of all that are queued, any other command behind; one is pushed out if and only if the client's buffer is full |
| Commands.SecondConnectQueued | src/MQTTAsyncUtils.c:806-819 | behind another client's connect a client's second connect is queued in front of its first |
| Commands.DuplicateMissed | src/MQTTAsyncUtils.c:806-819 | the search finds the described duplicate if and only if the head of the queue is not another client's command |
| CommandRuns.StartedInOrder | src/MQTTAsyncUtils.c:787-1270 | in every run each client's commands are started in the order queued and at most once; only messages are ever skipped, and only by eviction |
| CommandRuns.BufferBounded | src/MQTTAsyncUtils.c:870-903 | with create options the number of buffered messages never rises above the larger of its start value and maxBufferedMessages |
| CommandRuns.InFlightBounded | src/MQTTAsyncUtils.c:1216-1233 | flow control in every run, with acknowledgements at any time: the messages in flight never rise above the larger of their start value and maxInflightMessages, nor above that and 65534 |
| Tokens.TokensStayUnique | src/MQTTAsyncUtils.c:2728-2769 | in every run from any state with unique tokens, with cleaned sessions and restarts, a token other than 0 belongs to one live request of its client, queued, waiting or in flight |
| Tokens.AssignMsgId | src/MQTTAsyncUtils.c:2728-2769 | the first token after the last one going round that no queued command of any client, no outbound message and no response has, or 0 when there is none |
| Sha1.ShaContext.Update | src/SHA1.c:173-196 | after any number of calls the context depends on the concatenated data only |
| Sha1.ShaContext.ProcessBlock | src/SHA1.c:95-137 | one block of the hash computation of section 6.1.2 of FIPS 180-4 |
| Sha1.ShaContext.Final | src/SHA1.c:139-171 | below 2^29 bytes the digest is that of FIPS 180-4; above, that of the padding the code makes |
| Sha1.PaddingAgrees | src/SHA1.c:146-157 | the padding is that of section 5.1.1 of FIPS 180-4 if and only if the message has fewer than 2^29 bytes |
| Sha1.NextWord | src/SHA1.c:114-115 | the word made from the circular window of 16 is the word of the schedule of 80 |
| Sha1.WindowMoves | src/SHA1.c:114-115 | overwriting the oldest word keeps the window |
| Sha1.LogicalForms | src/SHA1.c:117-124 | choice and majority written with OR are those written with exclusive OR |
| Base64.Encode | src/Base64.c:179-235 | for every input and buffer: what is written, what is returned, and that nothing else changes |
| Base64.Decode | src/Base64.c:100-177 | for every text and buffer: the decoded bytes, as far as there is room, and nothing else changes |
| Base64.RoundTrip | src/Base64.c:100-235 | decoding the encoding of any input gives it back, as far as there is room |
| Base64.GroupCodes | src/Base64.c:195-222 | the six-bit codes made of quotients and remainders of the bytes are the six-bit groups of the 24 bits of section 4 of RFC 4648 |
| Base64.EncodeLengthExact | src/Base64.c:250-253 | encodeLength is the encoded size if and only if the input is below 2^30 bytes |
| Base64.DecodeLengthExact | src/Base64.c:239-248 | decodeLength of any encoding is the size of what was encoded |
| Base64.EncodeThenDecode | src/Base64.h:25-77 | with buffers of the sizes asked for, encoding and decoding give every input below 2^30 bytes back |

## Left out

- Sockets, TLS, WebSocket framing, proxies and file-system persistence: connections are sequences that can be cut, a stream delivers some bytes or none, the store is a map whose writes succeed.
- Threads, mutexes and time: each handler or call is one step; keep-alive, timeouts and retry ages are parameters or left out.
- Acknowledgements queued because a write is pending (queueAck, writeAvailable): acknowledgements are sent directly.
- QoS 0 messages between the two joined clients, as nothing is promised for them; that one which arrives is handed over is PeerRuns.ArrivedIsHandedOver.
- Malloc failures, freeing of memory and heap tracking.
- Return codes of the store: a failing write, and the partial effects it would have, are not modelled.
- Restoring packets of types that are never stored under session keys (restorePacket can parse all of them).
- Overflow of the multiplier in restorePacket's length decoder on records that were not written by this code.
- A read past the end of malformed memory is a failed read in the decoders (VBIdecode, readInt, strnlen without a zero byte).
- The stage of a QoS 1 message after createMessage is not initialized by the source and means nothing; the model gives it a value that nothing depends on.
- Reference counts above 1 in a publication: the branch of createMessage that shares one is marked as never used.
- CONNECT fallback over URIs and versions, callbacks, option validation, tracing and name tables.
- The message queue of a client (persistQueueEntry and its counterpart) and the order of restored commands by sequence number.
- Host byte order: integers of stored commands have a fixed order of four bytes; SHA-1 words are read and written most significant byte first, as be32toh and htobe32 do on either kind of host.
- Sha1.ShaContext.ProcessBlock: does not model that the schedule overlays the buffer; its contract says nothing about the buffer afterwards, and nothing uses it before it is refilled.
- Sha1.ShaContext.Final: does not model a NULL digest pointer, nor the byte-swapped words it leaves in the context.
- SocketBuffer.SocketBuffers.Getch: does not model receive errors and a peer that closes the socket, only bytes that are there or not yet.
- SocketBuffer.SocketBuffers.Getdata: does not model receive errors and a peer that closes the socket, only bytes that are there or not yet.
- SocketBuffer.SocketBuffers.ReadLength: does not model receive errors and a peer that closes the socket, as they come from Getch.
- SocketBuffer.SocketBuffers.ReadPacket: does not model a socket that is closed by its peer in the middle of an attempt, after which the socket is cleaned up.
- Restore.RestorePackets: the inbound messages, whose order does not matter, are a sequence; the outbound ones are on the heap list. The store lists, gets and removes without failing, and there is no callback after a read.
- CommandStore.TwoPassesAreOne: does not model counts and lengths of 2^31 and more, which the source reads as negative; persistCommand never writes them.
- CommandStore.RestoreCommand: does not model counts and lengths of 2^31 and more, which the source reads as negative; persistCommand never writes them.
- Base64.Decode: every character outside the alphabet is invalid here; where char is signed the source reads outside its table for characters of 128 and more. The variants that call OpenSSL or Windows are left out.
- Base64.GroupCodes: the masks and shifts of the source are quotients and remainders here, which they are for numbers that are not negative.
- Publications.PublicationState.CheckPendingWrites: the list is a sequence here; the same loop on the heap list is LinkedList.List.RemoveWhileIterating.
- Commands.CommandQueue.AddCommand: the command list is a sequence; persisting the command is CommandStore.PersistCommand.
- Tokens.TokensStayUnique: a token is assigned and its request queued as one step, although the source releases its lock in between.
