# Reticulum and LXMF protocol verification

A Dafny model of the protocols behind the LXMF chat client: the Resource transfer of Reticulum, its links, packets
and announces, and LXMF's messages, tickets, outbound queue and store-and-forward nodes. Every handler is modelled
branch by branch as a function on values; where the original updates fields in place or loops over a collection there
is also a class or a method with the same loops, proved equal to that function. The protocols are state machines
whose events cover loss, repetition, reordering, delay and timeouts, and the theorems hold after every finite
sequence of events.

| module | models |
|---|---|
| `ResourceReceiver`, `ReceiverObject` | the receiving side of a Resource: requests, hash pages, parts, window |
| `ResourceSender`, `SenderObject` | the sending side: search scope, parts sent, hash pages |
| `ResourceTransfer` | both sides over two lossy, duplicating channels: the safety theorems |
| `ResourceLink` | the resources of one link, each of which hears the parts of all |
| `ResourceProgress`, `ResourceRecovery` | what every lossy run is after, and that it can always be completed |
| `ResourceIgnored` | a run in which a requested part is ignored |
| `ResourceLiveness` | the same with nothing lost: termination and completion |
| `ResourceContent` | cutting and hashing the stream under the collision guard, assembly, proof; end to end |
| `ResourceSegments` | splitting large data and metadata into segments and joining them again |
| `LinkHandshake` | link establishment with any number of initiators and responders |
| `PacketWire` | packet layout, packet hash and link id, signalling bytes, size limits |
| `LxmfMessage`, `Tickets`, `TicketObject` | messages and stamps; tickets issued, remembered and cleaned by many routers |
| `PropagationStore`, `PropagationNode`, `PropagationSync`, `SyncClients` | a node's store, its culling, and synchronisation with both kinds of client |
| `Outbound`, `OutboundObject` | delivery attempts of an outbound message, and the queue of pending messages |
| `Announces`, `AnnounceObject` | announces and the table of known destinations |
| `Prelude` | shared types and small helpers |

Bytes are integers from 0 to 255 and clocks are numbers supplied with each event. Hashes, ciphers, signatures, msgpack
and bz2 are parameters, assumed only to undo their inverse or to verify what was signed. Nothing assumes a hash to be
injective: where a conclusion rests on that, it names the two byte strings that would have to collide. In
`LinkHandshake` cryptography is symbolic, with link ids taken for what they are a hash of. A handler is one atomic step.

## What the code does where more might be expected

- A requested part that arrives can be ignored: the range accepted ends one before the range requested
  (`RequestedPartIgnored`, on a run). `StoredIff` says exactly when a part is stored, and `FirstMissingAdvances` that the first
  missing one always is, so that transfers still make progress.
- A resource whose map had to be computed again is advertised with the hash of a chunk instead of the payload
  (`RepeatedPassRejected`). `AcceptedIffFirstPassMaps` shows that the receiver accepts a payload longer than one part
  exactly when the first random hash was good.
- Segmentation delivers file and metadata exactly when the metadata leaves room in the first segment and there is data
  to send, or bytes without metadata; otherwise nothing is delivered (`DeliveredExactly`).
- A link proof with a bad signature is logged as ignored, but no later proof can bring that link up
  (`FirstProofDecides`).
- Absent and empty application data of an announce are told apart by the length of an announce without ratchet;
  `ParseBuild` says exactly when the data comes back as it was.
- A link proof packed with the second header type is not parsed back (`PackParses`).
- An outbound message that has failed can still turn out delivered, and a failed one sent over a link can be put back
  to waiting: the outcome of a transmission sets the state of a message whether or not the queue still holds it
  (`LateProof`). `FinalExactly` says when the state is final, and `LeavesForGoodInEveryRun` that nothing else changes.
- The message after one that leaves the outbound queue gets no turn in that pass (`TurnIffEven`, `ProcessOutbound`).
- A message filed without a stamp value has no third part in its file name, and the next cleaning removes it
  (`UnvaluedIsCleaned`); `CleanedIs` says exactly what a cleaning leaves.

## Model

| member | source | states |
|---|---|---|
| `ResourceTransfer.PagesInEveryRun` | reference/RNS/Resource.py:492-503 | in every run over lossy, duplicating channels the known hashes are a prefix of the sender's of whole pages of 74 or all parts, no handler raises, and the sequencing error never occurs |
| `ResourceTransfer.RequestsResolveInEveryRun` | reference/RNS/Resource.py:982-1068 | every request reaching a live sender is answered by exactly the parts the receiver meant, each the only match in the search scope, and an exhausted one also by exactly the next page |
| `ResourceTransfer.SlotsInEveryRun` | reference/RNS/Resource.py:828-926 | a filled slot always holds the sender's part of that index, and what is assembled is the sender's sequence of parts |
| `ResourceTransfer.CountersInEveryRun` | reference/RNS/Resource.py:863-896 | the completed height is the end of the longest filled prefix, the received count the number of filled slots, assembly is locked only with none empty, and 2 <= window_min <= window <= 75 |
| `ResourceLink.WindowsInEveryLinkRun` | reference/RNS/Link.py:1284-1290 | the windows of all resources of a link, one after another or side by side and hearing each other's parts, and the window it hands on, stay within 2 and 75; the counters of each are exact |
| `ResourceLink.SlotsInEveryLinkRun` | reference/RNS/Link.py:1163-1166 | every part on a link is handed to every resource; a filled slot holds the sender's part, or one with the same map hash if a part of another resource has fitted an open slot; the same of what is assembled |
| `ResourceLink.UnfitInv` | reference/RNS/Resource.py:828-935 | a part of another resource that fits no open slot keeps everything proved of a transfer alone |
| `ResourceProgress.FirstMissingPursuedInEveryRun` | reference/RNS/Resource.py:941-963 | in every run, while a part is missing, the last request sent asks for the first missing part; or its hash is unknown, the request asks for its page and the receiver waits |
| `ResourceProgress.AssemblyOnceInEveryRun` | reference/RNS/Resource.py:893-896 | in every run assembly is started at most once, and has been exactly when no slot is empty |
| `ResourceProgress.StepProgress` | reference/RNS/Resource.py:863-965 | every event keeps the outstanding count between one and the still missing parts of the last request, or the receiver waiting for its page |
| `ResourceRecovery.RecoverableInEveryRun` | reference/RNS/Resource.py:612-628 | from every state a lossy run can reach with both sides at it and a retry left, some continuation assembles the sender's parts |
| `ResourceRecovery.ArrivalAdvances` | reference/RNS/Resource.py:828-884 | the first packet of a reply to a fresh request leaves less missing and restores all retries |
| `ResourceTransfer.StepInv` | reference/RNS/Resource.py:828-1068 | every delivery, loss, repetition, timeout and cancellation keeps the invariant relating receiver, sender and packets in flight |
| `ResourceTransfer.ScopeResolves` | reference/RNS/Resource.py:999-1009 | with equal hashes more than 224 apart, wanted hashes resolve inside the search scope to the indices meant |
| `ResourceTransfer.SlotIsMeant` | reference/RNS/Resource.py:863-880 | an arriving part can only fill the slot it was sent for, however late it is |
| `ResourceLiveness.LosslessTerminates` | reference/RNS/Resource.py:931-965 | with nothing lost and no timeouts, n parts take at most 4n + 1 deliveries, however the window moves |
| `ResourceLiveness.LosslessCompletes` | reference/RNS/Resource.py:885-926 | when no delivery is left, every slot holds its part, all pages are fetched, the sender has sent every part and awaits proof, and assembly has started |
| `ResourceLiveness.LosslessRunExists` | reference/RNS/Resource.py:931-965 | for every resource there is such a run to the end: whenever a packet is left it can be delivered |
| `ResourceLiveness.PartStep` | reference/RNS/Resource.py:828-926 | a part delivered in order decreases the measure of missing parts, hashes and messages in flight |
| `ResourceLiveness.PageStep` | reference/RNS/Resource.py:492-503 | so does a page |
| `ResourceLiveness.ServeStep` | reference/RNS/Resource.py:982-1068 | so does a request served |
| `ResourceReceiver.RequestNextAsks` | reference/RNS/Resource.py:931-965 | when it is sent, a request names the first missing part or asks for its page |
| `ResourceReceiver.HashmapUpdateKeeps` | reference/RNS/Resource.py:492-503 | a hash page keeps the known height equal to the number of known hashes |
| `ResourceReceiver.ReceivePartKeeps` | reference/RNS/Resource.py:828-926 | a part keeps every counter exact; assembly starts at most once and only when all slots are filled |
| `ResourceReceiver.TimeoutKeeps` | reference/RNS/Resource.py:596-640 | a timeout keeps the counters, the window bounds and the lock, and never moves the completed height |
| `ResourceReceiver.StoredIff` | reference/RNS/Resource.py:863-880 | a missing part with known hash is stored exactly when it lies in the accepted range, and of the requested ones all but index completed + window are |
| `ResourceReceiver.FirstMissingAdvances` | reference/RNS/Resource.py:863-884 | the first missing part is always accepted and advances the completed prefix |
| `ResourceIgnored.RequestedPartIgnored` | reference/RNS/Resource.py:863-865 | in a run from the start of a transfer, a part of the last request, which was served, is delivered and its slot stays empty |
| `ResourceReceiver.GrowWindow` | reference/RNS/Resource.py:898-905 | growth after a full round keeps the window bounds |
| `ResourceReceiver.ShrinkWindow` | reference/RNS/Resource.py:612-624 | shrinking after a timeout keeps the window bounds |
| `ResourceSender.MatchesSound` | reference/RNS/Resource.py:1005-1009 | the parts selected are exactly those of the scope whose hash is wanted, in order and once each |
| `ResourceSender.Locate` | reference/RNS/Resource.py:1027-1036 | the first index of the scope with the last known hash, or the end of the scope |
| `ResourceSender.ServeKeeps` | reference/RNS/Resource.py:982-1068 | a request keeps the count of parts sent exact; the sender awaits proof exactly when all are sent |
| `ReceiverObject.Receiver.constructor` | reference/RNS/Resource.py:167-235 | a receiver opened from an advertisement, its window inherited from the link |
| `ReceiverObject.Receiver.RequestNext` | reference/RNS/Resource.py:931-980 | the scan for missing parts and the request sent are those of the specification |
| `ReceiverObject.Receiver.Scan` | reference/RNS/Resource.py:945-958 | the loop collects the missing indices up to the window or the first unknown hash |
| `ReceiverObject.Receiver.HashmapUpdate` | reference/RNS/Resource.py:492-503 | the loop writes the page and counts what is new |
| `ReceiverObject.Receiver.ReceivePart` | reference/RNS/Resource.py:828-926 | slot search, prefix advance, window growth and next request are those of the specification |
| `ReceiverObject.Receiver.FillWindow` | reference/RNS/Resource.py:866-884 | the loop over the window fills the matching slot and advances the prefix |
| `ReceiverObject.Receiver.Timeout` | reference/RNS/Resource.py:596-640 | shrinking, retry count and renewed request, or cancellation, are those of the specification |
| `SenderObject.OutgoingResource.Serve` | reference/RNS/Resource.py:982-1068 | scope filter, transmissions, last-hash search and page are those of the specification |
| `SenderObject.OutgoingResource.FindLast` | reference/RNS/Resource.py:1027-1036 | the loop finds what `Locate` specifies |
| `SenderObject.OutgoingResource.BuildPage` | reference/RNS/Resource.py:1040-1055 | the loop builds the page of 74 hashes, or what is left |
| `ResourceContent.ChunksJoin` | reference/RNS/Resource.py:453-454 | the parts put together are the stream |
| `ResourceContent.ChunkAt` | reference/RNS/Resource.py:453-454 | part i is the slice of at most one SDU from i times the SDU on |
| `ResourceContent.ChunkCount` | reference/RNS/Resource.py:431-432 | there are as many parts as the size divided by the SDU, rounded up, none empty or too long |
| `ResourceContent.BuildMap` | reference/RNS/Resource.py:449-472 | the guarded loop gives all parts and hashes, or the first part that collides |
| `ResourceContent.MapPassGuards` | reference/RNS/Resource.py:457-465 | a pass succeeds exactly when equal hashes are more than the guard size apart |
| `ResourceContent.PrepareResource` | reference/RNS/Resource.py:435-474 | the retry loop over random hashes, with `data` rebound to the colliding chunk |
| `ResourceContent.Prepared` | reference/RNS/Resource.py:441-454 | advertised hash and expected proof are over the payload if the first pass succeeded and over a chunk otherwise |
| `ResourceContent.RecoversPayload` | reference/RNS/Resource.py:672-715 | decrypting, stripping and decompressing recovers the payload; it is accepted exactly when its hash is the one advertised |
| `ResourceContent.DeliveredInEveryRun` | reference/RNS/Resource.py:384-478 | end to end in every run: what is assembled is the payload, its hash checks, and its proof is the one expected |
| `ResourceContent.DeliverableInEveryRun` | reference/RNS/Resource.py:612-715 | from every state a lossy run can reach with both sides at it and a retry left, some continuation ends with the payload accepted |
| `ResourceContent.AcceptedIffFirstPassMaps` | reference/RNS/Resource.py:435-465 | the receiver accepts exactly when hash and proof were taken over the payload, which for a payload longer than one part is exactly when the first map was guarded; or a collision is exhibited |
| `ResourceContent.RepeatedPassRejected` | reference/RNS/Resource.py:441-454 | a concrete resource mapped twice, reassembled correctly and rejected |
| `ResourceContent.ProofBindsPayload` | reference/RNS/Resource.py:782-786 | the sender completes only for a receiver that held the payload, or a collision is exhibited |
| `ResourceSegments.DeliveredExactly` | reference/RNS/Resource.py:260-333 | the receiver ends with exactly the file and metadata if and only if `Works` holds, and with nothing otherwise |
| `ResourceSegments.SegmentIs` | reference/RNS/Resource.py:296-312 | segments partition the file: each is nonempty, within the efficient size and starts where the one before ended |
| `ResourceSegments.HeaderCutOff` | reference/RNS/Resource.py:696-706 | the receiver separates metadata from data for every metadata size |
| `ResourceSegments.DeliveredSoFar` | reference/RNS/Resource.py:696-716 | after k segments the receiver holds the metadata and the corresponding prefix of the file |
| `LinkHandshake.InitiatorAgreesInEveryRun` | reference/RNS/Link.py:396-444 | an initiator that is up shares link id, key, mode and MTU with a session its destination created |
| `LinkHandshake.ResponderFollowsInEveryRun` | reference/RNS/Link.py:534-540 | a responder comes up only after the initiator it answers was up, agreeing with it on all of these |
| `LinkHandshake.OneResponderInEveryRun` | reference/RNS/Link.py:186-222 | however often a request is delivered, one responder at most ever comes up for it |
| `LinkHandshake.MovesInEveryRun` | reference/RNS/Link.py:699-732 | CLOSED is never left on either side, and an initiator in a failed handshake never comes up |
| `LinkHandshake.FirstProofDecides` | reference/RNS/Link.py:396-451 | the first proof of the right mode and length brings the link up exactly when validly signed, and otherwise none ever will |
| `LinkHandshake.ExchangeCompletes` | reference/RNS/Link.py:186-222 | from any reachable state, request, proof and RTT packet delivered in order bring both sides up with the signalled MTU |
| `LinkHandshake.SessionLasts` | reference/RNS/Link.py:724-732 | a responder keeps link id and MTU, and its key exactly until it closes |
| `LinkHandshake.StepInv` | reference/RNS/Link.py:353-456 | every delivery, idle period and closure keeps the invariant of links, signatures and RTT packets |
| `PacketWire.ParseRaw` | reference/RNS/Packet.py:242-264 | header bytes are parsed back to the same fields, with either header type, a link proof as one for a link |
| `PacketWire.PackParses` | reference/RNS/Packet.py:177-239 | what pack makes is parsed back to the same fields, except a link proof flagged for transport |
| `PacketWire.FlagBits` | reference/RNS/Packet.py:169-175 | each flag is read back from its bits, for link proofs and all other packets |
| `PacketWire.HashableExact` | reference/RNS/Packet.py:355-362 | two packets have the same hashable part exactly when types, destination, context and data agree |
| `PacketWire.LinkIdExact` | reference/RNS/Link.py:341-347 | two requests have the same link id part exactly when these agree on the keys alone |
| `PacketWire.LinkIdSurvivesTransport` | reference/RNS/Link.py:341-347 | rewriting for transport and replacing the signalling bytes keeps the link id |
| `PacketWire.SignalRoundTrip` | reference/RNS/Link.py:148-183 | signalling gives back the mode, and the MTU exactly when below 2^21; other modes raise |
| `PacketWire.MduExact` | reference/RNS/Link.py:530-532 | for every MTU the MDU is exactly the largest plaintext whose padded token fits, and from 84 on something does |
| `PacketWire.DirectRule` | reference/LXMF/LXMessage.py:407-415 | the single-packet rule for direct delivery is the Rust client's 431-byte test, and exactly what fits |
| `PacketWire.OpportunisticFits` | reference/LXMF/LXMessage.py:388-405 | every admitted opportunistic message fits a packet with the short header |
| `LxmfMessage.UnpackPack` | reference/LXMF/LXMessage.py:355-386 | unpacking recovers every field, stamp and id, and the signature holds, stamped or not |
| `LxmfMessage.IdIgnoresStamp` | reference/LXMF/LXMessage.py:747-768 | the id is the same with any stamp or none, for packer and unpacker |
| `LxmfMessage.ValidateStamp` | reference/LXMF/LXMessage.py:273-296 | a stamp is accepted exactly when some ticket gives it or the work was done |
| `LxmfMessage.TicketAccepted` | reference/LXMF/LXMessage.py:298-305 | a stamp made from a ticket the receiver counts as valid is accepted after packing and unpacking |
| `Tickets.HonouredInEveryRun` | reference/LXMF/LXMRouter.py:1058-1085 | in every run of many routers, a ticket one would stamp with at any point is among those its issuer accepts at every later point until it expires |
| `Tickets.StepHonours` | reference/LXMF/LXMRouter.py:1247-1269 | no event makes an issuer stop honouring a ticket before it expires |
| `Tickets.StampedMailAccepted` | reference/LXMF/LXMRouter.py:1746-1764 | so a message stamped at one point and validated at any later one before expiry has all fields, its id, a valid signature and an accepted stamp |
| `Tickets.IssuedLasts` | reference/LXMF/LXMRouter.py:1024-1051 | in every run, a ticket handed out has more than 14 and at most 21 days left |
| `Tickets.StepInv` | reference/LXMF/LXMRouter.py:1024-1056 | issuing, delivering, cleaning and time keep every remembered ticket honoured until it expires |
| `TicketObject.TicketTables.GenerateTicket` | reference/LXMF/LXMRouter.py:1024-1051 | refusal within a day of the last delivery, reuse of the first long-lived ticket, or a new one |
| `TicketObject.TicketTables.FindReusable` | reference/LXMF/LXMRouter.py:1034-1041 | the loop finds the first ticket with more than 14 days left |
| `TicketObject.TicketTables.GetInboundTickets` | reference/LXMF/LXMRouter.py:1074-1085 | the loop collects the unexpired tickets |
| `TicketObject.TicketTables.CleanAvailableTickets` | reference/LXMF/LXMRouter.py:1247-1269 | expired outbound tickets go, inbound ones only after the grace period |
| `PropagationSync.PurgeSafeInEveryRun` | reference/LXMF/LXMRouter.py:1452-1463 | whatever a request purges belongs to that client, which was sent its bytes, or a colliding item is exhibited, or, the reference client only, it knew the message otherwise; in every run of any clients, replies stale or repeated |
| `PropagationSync.AnswersOnlyOwn` | reference/LXMF/LXMRouter.py:1434-1500 | a listing names exactly the client's messages, a download returns only wanted ones of its own |
| `PropagationSync.ConfirmsIds` | reference/LXMF/LXMRouter.py:1569-1573 | the hash confirmed is the entry's id exactly when the stored stamp has the fixed size, or a collision is exhibited |
| `PropagationSync.ConfirmRemovesSent` | reference/LXMF/LXMRouter.py:1452-1500 | a confirmation removes exactly the client's entries whose ids were sent, from whatever the store has become, and their very bytes were sent or a collision is exhibited |
| `PropagationSync.RustSession` | host-client/src/main.rs:735-778 | a whole session of the Rust client, its three requests served at any three points of a run, removes exactly what it was sent |
| `PropagationSync.FileOk` | reference/LXMF/LXMRouter.py:2321-2352 | a message neither stored nor processed before is found under its hash afterwards, with its destination and data; every other entry is found as before, and no id is stored twice |
| `PropagationSync.StepInv` | reference/LXMF/LXMRouter.py:1426-1588 | every event of node, clients and network keeps the invariant |
| `PropagationStore.PurgeIs` | reference/LXMF/LXMRouter.py:1452-1463 | a purge removes exactly the client's entries it names |
| `PropagationStore.ChosenAre` | reference/LXMF/LXMRouter.py:1466-1500 | chosen messages are wanted ones of the client, sized with their overheads, and within the limit |
| `PropagationStore.DownloadIsMost` | reference/LXMF/LXMRouter.py:1437-1448 | what a client lacks of a listing is sent in the largest number that fits its limit, even after the store has changed |
| `PropagationStore.GreedyIsMost` | reference/LXMF/LXMRouter.py:1477-1496 | on entries in ascending size no choice within the limit has more messages than the loop's |
| `PropagationStore.BlobIsMessage` | reference/LXMF/LXMRouter.py:1492 | the bytes sent are the message exactly when the stamp has the fixed size |
| `PropagationStore.SortedIs` | reference/LXMF/LXMRouter.py:1444 | sorting permutes and orders |
| `PropagationStore.CullReachesLimit` | reference/LXMF/LXMRouter.py:1130-1169 | after a cull the store is within its limit, or all that is left could not be deleted; one removal fewer would not do |
| `PropagationStore.CullTakesHeaviest` | reference/LXMF/LXMRouter.py:1137-1148 | what is removed weighs at least as much as anything deletable that is kept, each by the clock as it was weighed |
| `PropagationStore.CleanedIs` | reference/LXMF/LXMRouter.py:1095-1169 | after a cleaning an entry is there exactly when it has neither expired nor been culled, and the rest is within the limit or undeletable |
| `PropagationStore.ExpireIs` | reference/LXMF/LXMRouter.py:1100-1128 | the first pass removes exactly what has expired or is misnamed |
| `PropagationStore.UnvaluedIsCleaned` | reference/LXMF/LXMRouter.py:1107-1116 | a message without a stamp value does not survive a cleaning |
| `PropagationStore.CullConserves` | reference/LXMF/LXMRouter.py:1150-1160 | bytes cleaned are exactly the drop in store size, deletion errors or not |
| `PropagationStore.OlderWeighsMore` | reference/LXMF/LXMRouter.py:1007-1018 | of entries alike but for age the older never weighs less |
| `PropagationStore.PrioritisedWeighsLess` | reference/LXMF/LXMRouter.py:1015-1018 | a prioritised destination has a tenth of the weight |
| `PropagationNode.Node.MessageGetRequest` | reference/LXMF/LXMRouter.py:1434-1500 | purge, then download, or listing: reply and store are those of the specification |
| `PropagationNode.Node.List` | reference/LXMF/LXMRouter.py:1436-1448 | the loops over entries and ids give the sorted listing |
| `PropagationNode.Node.Purge` | reference/LXMF/LXMRouter.py:1452-1463 | the loop over ids purges as specified |
| `PropagationNode.Node.Download` | reference/LXMF/LXMRouter.py:1476-1496 | the loop with its running size chooses as specified |
| `PropagationNode.Node.StorageSize` | reference/LXMF/LXMRouter.py:718-722 | the sum of the stored sizes |
| `PropagationNode.Node.CleanMessageStore` | reference/LXMF/LXMRouter.py:1095-1169 | both passes over the store leave and count what is specified |
| `PropagationNode.Node.FindExpired` | reference/LXMF/LXMRouter.py:1100-1114 | the loop collects the expired and misnamed entries |
| `PropagationNode.Node.Cull` | reference/LXMF/LXMRouter.py:1130-1169 | the loop over the heaviest entries leaves and counts what is specified |
| `SyncClients.RustClient.SyncResponse` | host-client/src/main.rs:735-778 | errors end the session; arrays are read by the phase alone; a listing is sent back whole, and the request and next phase are given for each phase and for any items |
| `SyncClients.RustClient.Confirm` | host-client/src/main.rs:761-775 | the loop hashes every binary item |
| `SyncClients.ReferenceClient.MessageListResponse` | reference/LXMF/LXMRouter.py:1518-1541 | the loop sorts a listing into wanted and had |
| `SyncClients.ReferenceClient.MessageGetResponse` | reference/LXMF/LXMRouter.py:1566-1588 | the loop delivers and hashes every message |
| `Outbound.BoundedInEveryRun` | reference/LXMF/LXMRouter.py:2567-2594 | in every schedule at most five opportunistic transmissions, none at counter 2, at most four links opened, counter at most six |
| `Outbound.BoundsAreMet` | reference/LXMF/LXMRouter.py:2576-2591 | five transmissions and four links do occur |
| `Outbound.TurnCounts` | reference/LXMF/LXMRouter.py:2515-2732 | a turn leaves the counter or adds one; it takes the message off the queue exactly when it is delivered, propagated, cancelled or rejected, the counter is six, or no node is set, and fails it in the last two cases |
| `Outbound.LeavesForGoodInEveryRun` | reference/LXMF/LXMRouter.py:2397-2404 | in every run a message off the queue stays off and changes in nothing but its state; the state is kept in every continuation exactly when it is final |
| `Outbound.FinalExactly` | reference/LXMF/LXMessage.py:561-621 | the state of a message off the queue can no longer change if and only if no outcome of a transmission is left to come, or it is opportunistic and delivered |
| `Outbound.LateProof` | reference/LXMF/LXMessage.py:561-563 | a run in which a message fails and is then delivered |
| `Outbound.EndsInEveryRun` | reference/LXMF/LXMRouter.py:2679-2732 | in every run a message has left the queue after seven turns with nothing to wait for |
| `OutboundObject.LXMessage.Process` | reference/LXMF/LXMRouter.py:2515-2732 | one turn of process_outbound for a message, branch by branch, removal included |
| `Outbound.TurnIffEven` | reference/LXMF/LXMRouter.py:2518-2563 | in a pass over the queue a message gets a turn if and only if an even number of messages right before it leave |
| `OutboundObject.Queue.ProcessOutbound` | reference/LXMF/LXMRouter.py:2515-2563 | the walk over the list from which messages are removed: those with a turn are moved on or gone, the others are as they were |
| `Announces.ParseBuild` | reference/RNS/Destination.py:281-314 | every field of a fresh announce comes back and its signature holds; the exact condition for the application data |
| `Announces.FreshAccepted` | reference/RNS/Identity.py:532-621 | a fresh announce is accepted after any history, unless another identity is known with the same address hash |
| `Announces.BoundInEveryRun` | reference/RNS/Identity.py:580-597 | after any announces each known address is the hash of its name hash and identity |
| `Announces.KeyNeverChanges` | reference/RNS/Identity.py:584-597 | the key of a known destination never changes while its entry exists |
| `AnnounceObject.KnownDestinations.ValidateAnnounce` | reference/RNS/Identity.py:532-621 | what is accepted, and both tables after it, are those of the specification |

## Left out

- Cipher, HMAC, key derivation, signature and bz2 internals, and the search for stamps: parameters with their laws.
- Rate estimation and timing: whether a round was fast or slow, and when a timeout falls, is decided by the event.
- Threads, locks, callbacks, logging, files and sockets; the check that link traffic comes from the expected interface.
- The resource proof packet is assumed to be read as sent; its loss and the query for a cached copy are not modelled.
- `Resource.accept` for malformed advertisements, progress reporting, and advertisement retries.
- A link's teardown packets and timeouts are one closing event that may happen at any time; the token object that caches the derived key is not kept apart from it.
- ReceiverObject.Receiver.RequestNext: a request that cannot be handed to the link cancels the transfer in the source; here that is a lost request and the cancelling event.
- SenderObject.OutgoingResource.Serve: likewise for a part or page that cannot be handed to the link.
- Link objects are modelled as values: handlers return the changed link, so aliasing and update in place are not captured.
- PropagationSync.FileOk: forgetting processed ids after a time is an event that may happen at any moment.
- SyncClients.ReferenceClient.MessageGetResponse: whether a message is new and decrypts is a parameter, since delivery itself is not modelled.
- OutboundObject.Queue.ProcessOutbound: the queue holds messages as values, and none is added while it is walked.
- Announces.ParseBuild: the reuse of a cached path response, which leaves the ratchet flag unset, is not modelled.
- Ratchet rotation and storage, peers and peer synchronisation, transport, channels, paper messages.
- The Rust crates under the client, and everything around them: user interface, boot, flashing and backup tools.
