# A verified model of VolantMQ's state machines and indexes

VolantMQ is an MQTT 3.1.1/5.0 broker.  This project models the parts of it whose
correctness cannot be seen from one function, and proves what they are for.  The
network, the packet codec and persistence are not part of it.

- **Transmit engine.**  `WriterProtocol` is the single-flight wake-up protocol: any
  number of senders, releasers and routines, interleaved at the level of single
  atomic operations.  `FlowControl` is the identifier allocator, `Outbound` the
  QoS 1/2 window as a state machine in which the transmit routine and the reader
  interleave, `Handshake` the handshakes told on its events, `Collisions` the race between
  the two, `QuotaReturns` the identifiers that
  never come back, `Handover` what a closing connection leaves to persistence,
  `AckTable` and `Writer` the objects whose methods are the machine's steps.
  `TopicAlias` is the outgoing alias table against the receiving rule.
- **Receive side.**  `Inbound` is the packet handler and its exactly-once theorems,
  `Answers` what becomes of every publish, told on the packets alone, `Receiver` the
  object that refines the handler, `Framing` the cutting of the byte stream.
- **Topic tries.**  `TopicPaths` holds the flat matching relations, `Collect` the
  collectors, `RetainSweep` the flat meaning of the retained searches, `TrieNodes` the
  linked nodes, `MemTrie` the trie of `topics/mem`, `MemTopics` its provider,
  `LockFreeTrie` the counter-based trie of `topics/memlockfree`, driven sequentially.
- **Supporting structures.**  `RingQueue` (the queues), `Subscriber` (the copy a
  subscriber keeps of its entries), `Expiry` (the will and expiry timer).

Objects the source updates in place are classes with `modifies` clauses; each of their
methods is proved against a specification function, and the theorems are about that
function.  `dafny verify dfyconfig.toml` checks everything.

## Where the obvious statement is false

In each case the code is modelled as it is, and the exact condition is proved.

- `ackQueue.release` runs the callback that frees the packet identifier before it deletes
  the table entry (connection/ack.go:33-36).  If the routine takes the identifier and
  stores a publish under it in between, the deletion removes the new publish, which is
  never acknowledged and holds its identifier for ever (`CollisionLoses`, `LostForever`).
  A run conserves every publish if and only if no such store happens in it
  (`ConservedExactly`); taking the identifier in between and storing after the deletion is
  harmless.  It cannot happen among the first 65535 publishes of a connection or with
  Receive Maximum 1 (`FewPublishes`, `ReceiveMaximumOne`), and does happen with a correct
  peer at publish 65536 with Receive Maximum 2 (`CollisionReachable`).
- An expired QoS 1/2 publish is stored and charged to the quota but not written
  (connection/writer.go:367-368), and a PUBREL that is larger than the peer accepts is
  dropped.  The quota either has taken can never come back, and that of any other publish
  can (`ComesBackExactly`).
- The first packet of a connection and the others are read through two buffered readers
  (connection/reader.go:69, 101).  What the first has read beyond its packet is lost; with
  reads that fit its buffer that is the rest of the read in which the packet ends, so
  nothing exactly when the packet ends where a read ends (`ReceiveFromConnect`,
  `PipelinedIsLost`).
- A failing PUBREC raises the quota whatever its identifier (connection/connection.go:956-958),
  so quota and identifiers add up afterwards if and only if it was in use (`UnknownAcks`).
- Duplicates of a QoS 2 publish consume receive quota (`QuotaConserved` counts them).
- A full outgoing alias table reuses aliases at random, zero included: the two ends stay in
  step if and only if the topics fit the table (`AliasesInStepExactly`).
- `#` does not match an empty level in the subscription search, but does in the retained
  search below the first level, and a first-level `+` finds retained `$` topics
  (`SearchesAgree`, `RetainedAgrees`).
- An expired retained message is dropped without pruning its node; `DeadExactly` says which
  nodes stay behind.
- With overlap merging, the publisher's own No-Local filters count exactly from the first
  filter it hears on, in the order of the search: all its filters join the entry if and
  only if the first one the search comes to is heard.  For nobody else does the order
  matter (`OverlapExact`, `OverlapMerges`, `JoinedExactly`, `PublisherOrderMatters`).
- The comments on `Peek` and `Remove` of the queue speak of a panic on an empty queue; the
  code returns nil, and the model follows the code.

## Model

| member | source | states |
|---|---|---|
| `WriterProtocol.NoLostWakeup` | connection/writer.go:228-294 | in every state of every interleaving, while the writer is alive and no write failed, a packet that may be sent has `running` set or some actor bound to call `run` |
| `WriterProtocol.SingleFlight` | connection/writer.go:325-359 | at most one routine is between `wgRunSync.Add` and `Done`, at most one more waits, and `acquire` has never returned the error that is thrown away |
| `WriterProtocol.RunKeepsInv` | connection/writer.go:325-433 | the protocol's invariant holds after every run from a state that has it |
| `WriterProtocol.ActStep` | connection/writer.go:269-433 | one atomic step of any actor keeps the invariant |
| `WriterProtocol.ActLowersRank` | connection/writer.go:325-433 | every step of every actor lowers a rank that is never negative |
| `WriterProtocol.ActorsTerminate` | connection/writer.go:325-406 | the actors present can take only a bounded number of steps, whatever the schedule |
| `WriterProtocol.NoDeadlock` | connection/writer.go:325-336 | while an actor is unfinished some actor can step; waiting on the previous routine never blocks for good |
| `WriterProtocol.RestMeansDrained` | connection/writer.go:321-359 | a live writer at rest has empty queues, except QoS 1/2 packets that wait for quota |
| `WriterProtocol.PacketsConserved` | connection/writer.go:408-433 | in every state of every interleaving each queue holds exactly what senders added and no routine popped, what was popped was written (unless a write failed) or is in a routine's hands, and the quota is what it was with what was given back and without what was taken |
| `WriterProtocol.StopEndsTransmission` | connection/writer.go:192-199 | once the writer is stopped, whatever happens, at most one more packet of each kind leaves its queue |
| `WriterProtocol.LateActorEnds` | connection/writer.go:269-334 | once the writer is stopped, a sender, releaser or routine that has yet to look at the quit channel starts no routine and enters none |
| `WriterProtocol.FailedWriteEnds` | connection/writer.go:340-359 | a routine whose write fails takes no packet any more and does not look for any |
| `WriterProtocol.EveryScheduleDrains` | connection/writer.go:228-433 | from any reachable state every schedule stops within the bound, and if then still alive and error-free every packet ever added has been written, except QoS 1/2 packets while the quota is zero |
| `FlowControl.BumpIsCyclic` | connection/flowControl.go:38-46 | truncation, the skipped zero and the 32-bit wrap-around together step through the cycle 1 to 65535 |
| `FlowControl.Flow.Find` | connection/flowControl.go:36-50 | the loop of acquire: the identifier is free if and only if any is, and then it is the first free one of the cycle; otherwise the one at which the loop gives up |
| `FlowControl.Flow.Acquire` | connection/flowControl.go:31-53 | fails exactly without quota; otherwise the identifier is free if and only if any is, and then it is the first free one of the cycle |
| `FlowControl.Flow.ReAcquire` | connection/flowControl.go:21-29 | marks the identifier and takes one unit of quota, or fails exactly when there is none and changes nothing |
| `FlowControl.Flow.Release` | connection/flowControl.go:55-59 | frees the identifier, raises the quota in any case, and reports whether it was zero |
| `FlowControl.Flow.DecNZ` | connection/flowControl.go:65-80 | the compare-and-swap loop, with other goroutines giving quota back before each turn: lowers the value it commits on unless that is zero, and returns it |
| `FlowControl.FreeIdExists` | connection/flowControl.go:31-53 | with quota left and quota plus outstanding identifiers within 65535, some identifier is free (pigeonhole) |
| `AckTable.AckQueue.Store` | connection/ack.go:16-26 | stores unless the identifier is taken and replacing is not asked for |
| `Writer.Writer.SendQoS12` | connection/writer.go:253-256 | is the step Accept of the window |
| `Writer.Writer.SeekQoS12` | connection/writer.go:299-304 | is the step Seek, exactly when there is a publish and quota |
| `Writer.Writer.TakeQoS12` | connection/writer.go:304-309 | is the step Acquire with the first free identifier, for the oldest publish |
| `Writer.Writer.StoreQoS12` | connection/writer.go:310-311 | is the step Store |
| `Writer.Writer.PopQoS12` | connection/writer.go:296-319 | does nothing exactly when the queue is empty or there is no quota; otherwise is the run of its three steps without interruption |
| `Writer.Writer.PopPubrel` | connection/writer.go:410-416 | takes the oldest PUBREL, and is the step TransmitRel |
| `Writer.Writer.OnAckCallback` | connection/writer.go:480-497 | is the step Release, and says when the writer must be woken |
| `Writer.Writer.OnAckDelete` | connection/connection.go:941-943 | is the step Delete that follows it |
| `Writer.Writer.OnPubrec` | connection/connection.go:944-971 | is the step Pubrec, with the unconditional release on a failing reason code, and says when the writer must be woken |
| `Writer.Writer.GetQueuedPackets` | connection/writer.go:534-606 | empties both queues and the table; what it returns is the queued publishes in order, then the queued PUBRELs in order and every entry of the table once, with gaps for what packetEncode refuses |
| `Writer.Writer.SendPubrel` | connection/writer.go:258-261 | is the step Answer: queued, or dropped when it does not fit |
| `Outbound.StepExact` | connection/writer.go:296-319 | of the steps against a peer that acknowledges only what it was sent, in phase, exactly the stores under an identifier whose release is half done break the invariant |
| `Outbound.Conservation` | connection/writer.go:296-319 | after every run without a collision each accepted publish is in exactly one place, the routine's hands among them, quota and identifiers add up to the Receive Maximum, and the metric is the size of `pubOut` |
| `Outbound.ConservedExactly` | connection/ack.go:28-41 | a run is conserved in all its states if and only if it has no collision |
| `Outbound.OverwritesExactly` | connection/writer.go:309-312 | `pubOut.store` replaces an entry exactly when it collides, and never for a PUBREL |
| `Outbound.UnknownAcks` | connection/connection.go:936-962 | acknowledgements for what is not outstanding: which do nothing, and that a failing PUBREC raises the quota beyond the Receive Maximum if and only if its identifier is not in use |
| `Outbound.NextIdExists` | connection/flowControl.go:31-53 | in the range of the Receive Maximum, a unit of quota taken means that `acquire` has a free identifier to settle on |
| `Handshake.FirstInFirstOut` | connection/writer.go:253-256 | the publishes on record are those accepted, in order and with their QoS, and none leaves the queue before an earlier one |
| `Handshake.HandshakeTold` | connection/connection.go:944-971 | over every such run, a QoS 2 publish is completed only by a successful PUBREC, then the answer that queues its PUBREL, then the transmission of that PUBREL, then the acknowledgement, in this order and with its identifier in use all the while; a publish is refused only by a failing PUBREC |
| `Handshake.OutcomeIsFinal` | connection/ack.go:28-41 | what is completed or refused stays so |
| `Handshake.OutcomeExactly` | connection/connection.go:936-962 | at every event of every run without a collision, a publish under way becomes refused if and only if the event is a failing PUBREC for it and completed if and only if it is the acknowledgement of it, and then gives its quota back; otherwise it stays under way with its identifier in use |
| `Handover.HandoverComplete` | connection/writer.go:534-606 | after every run without a collision a closing connection hands over exactly the publishes neither completed nor refused, each once, except those expired in the queue, those whose PUBREL was dropped, and what cannot be encoded |
| `Handover.HandoverUnacked` | connection/writer.go:589-603 | each handshake is handed over by the packet that comes next in it: the publish before PUBREC, the PUBREL after |
| `Collisions.CollisionReachable` | connection/ack.go:28-41 | a run of a fresh connection with Receive Maximum 2, 65536 publishes and a correct peer that ends in a collision |
| `Collisions.CollisionLoses` | connection/ack.go:28-41 | after a collision, every continuation in which the reader goes on has lost the publish that was stored |
| `Collisions.LostForever` | connection/ack.go:28-41 | a lost publish stays lost and keeps its identifier in every continuation |
| `Collisions.FewPublishes` | connection/flowControl.go:36-50 | no run with at most 65535 publishes given an identifier has a collision, whatever the Receive Maximum |
| `Collisions.ReceiveMaximumOne` | connection/flowControl.go:31-59 | no run with Receive Maximum 1 has a collision |
| `QuotaReturns.ExpiredHoldsQuota` | connection/writer.go:365-368 | an expired publish stays in `pubOut` unwritten, with its identifier, in every continuation |
| `QuotaReturns.DroppedHoldsQuota` | connection/writer.go:205-208 | an identifier whose PUBREL was dropped for its size stays in use in every continuation |
| `QuotaReturns.ComesBackExactly` | connection/writer.go:480-497 | after every run without a collision, some continuation against a correct peer takes an identifier out of use if and only if its publish was not left unwritten and its PUBREL was not dropped |
| `TopicAlias.Sender.SetTopicAlias` | connection/writer.go:435-454 | the table and the wire form are those of `Assign` |
| `TopicAlias.AliasesInjective` | connection/writer.go:435-454 | while the topics fit, different topics have different aliases in 1 to max |
| `TopicAlias.SentInFullOnce` | connection/writer.go:435-454 | a topic goes in full the first time and as its alias alone afterwards; new topics are numbered from 1 while there is room and then take the number drawn |
| `TopicAlias.ReceiverIsBroker` | connection/connection.go:802-858 | the receiver of the alias theorems is the broker's own packet handler |
| `TopicAlias.AliasesInStepExactly` | connection/writer.go:435-454 | for every sequence of random draws the receiving rule recovers every topic, if and only if aliases are off or the distinct topics do not exceed the maximum |
| `Inbound.QuotaConserved` | connection/connection.go:860-894 | after every packet of every run, receive quota, stored publishes and duplicates seen add up to the Receive Maximum |
| `Inbound.PubrelForwards` | connection/connection.go:973-985 | a PUBREL forwards something if and only if an accepted publish with its identifier is open, and then exactly that publish with the topic it resolved to and its expiry time; the PUBCOMP code says which |
| `Inbound.PublishStores` | connection/connection.go:860-894 | a QoS 2 publish forwards nothing; it is a duplicate exactly when one with its identifier is open, and then leaves the stored one alone |
| `Inbound.OpenUnique` | connection/connection.go:883-888 | at most one accepted publish per identifier is open |
| `Inbound.AlwaysTracks` | connection/ack.go:16-41 | at every point `pubIn` holds exactly the open publishes |
| `Inbound.ForwardedExactlyOnce` | connection/connection.go:973-985 | over every run, an accepted publish followed by a PUBREL for its identifier is forwarded at exactly one position, different publishes at different ones, and a PUBREL forwards nothing else |
| `Answers.AliasesTold` | connection/connection.go:855-858 | over every run an alias stands for the topic of the last authorised publish that defined it, and for nothing otherwise |
| `Answers.MessageTold` | connection/connection.go:832-840 | a message is the publish with the topic it names and its lifetime after its arrival |
| `Answers.ServedIsForwarded` | connection/connection.go:895-931 | over every run, a QoS 0 or QoS 1 publish that is well-formed, authorised and within the quota is forwarded at its own position with the topic it names and the time it expires; the PUBACK; the error exactly when SignalPublish failed |
| `Answers.ServedIsStored` | connection/connection.go:860-894 | a QoS 2 publish is accepted if and only if it is well-formed, authorised, identified, within the quota, and none with its identifier is open |
| `Answers.TurnedAway` | connection/connection.go:849-853 | a publish that the access-control list turns away is answered so for its QoS, and forwards, stores and costs nothing |
| `Answers.ErrorsTold` | connection/connection.go:786-875 | which publish of a run ends the connection with which error, each as an equivalence over the packets |
| `Receiver.Receiver.OnPublish` | connection/connection.go:777-858 | the fields, the response, what is forwarded and the error are those of `Inbound.Handle` |
| `Receiver.Receiver.OnQoS` | connection/connection.go:860-931 | the switch on the QoS is `Inbound.Dispatch` |
| `Receiver.Receiver.OnPubrel` | connection/connection.go:973-985 | PUBREL with its callback is `Inbound.Handle` |
| `Framing.ParseFrame` | connection/reader.go:120-149 | a frame within the limit is recognised whatever follows it |
| `Framing.ParseFrames` | connection/reader.go:114-174 | any concatenation of frames within the limit is cut into exactly those frames |
| `Framing.PacketExactly` | connection/reader.go:114-174 | a packet is found if and only if it is a frame within the limit and the stream begins with it |
| `Framing.TooLargeExactly` | connection/reader.go:149-152 | refused as too large if and only if the length field says a size above the limit |
| `Framing.MalformedExactly` | connection/reader.go:124-128 | an error if and only if all four length bytes have their continuation bit set |
| `Framing.ParseAllMeans` | connection/reader.go:61-89 | the packets of any stream are frames within the limit that it begins with one after the other, and the rest of it is the reason why there are no more |
| `Framing.EncodedIsFrame` | connection/reader.go:145-149 | every packet of up to 268,435,455 bytes, its length encoded by section 1.5.5 of MQTT 5.0, is a frame |
| `Framing.Uvarint` | connection/reader.go:146 | the loop computes the value of the length field and its size |
| `Framing.BufReader.Peek` | connection/reader.go:130 | the front of the stream if it is long enough, with nothing consumed, and nothing buffered beyond it but the rest of the read in which it ends |
| `Framing.BufReader.Read` | connection/reader.go:162 | hands out a non-empty front of the stream, or nothing at its end |
| `Framing.Reader.PeekHeader` | connection/reader.go:118-143 | finds the end of the length field, or the error, that the stream determines |
| `Framing.Reader.Fill` | connection/reader.go:157-169 | succeeds exactly when the stream is long enough, with the front of the stream in the array and nothing beyond it consumed |
| `Framing.Reader.ReadPacket` | connection/reader.go:114-174 | the outcome and the rest of the stream depend on the stream alone, not on how it was cut into reads |
| `Framing.Reader.Routine` | connection/reader.go:61-89 | the loop returns all packets of the stream in order and the reason it ended |
| `Framing.Reader.ConnectionRoutine` | connection/reader.go:91-112 | the first packet, what the connection has yet to deliver, and what is lost with the buffer: a front of the rest of the read in which the packet ends, and all of it when reads fit the buffer |
| `Framing.ReceiveFrames` | connection/reader.go:61-89 | however frames are split into non-empty reads, one buffered reader yields exactly those frames |
| `Framing.ReceiveFromConnect` | connection/reader.go:61-112 | over both readers the packets are those of the stream without the lost bytes; which bytes are lost; none if the first packet ends where a read ends, and with reads that fit the buffer only then |
| `Framing.PipelinedIsLost` | connection/reader.go:101 | for every first packet and whatever is sent in one piece with it (up to the buffer): all of that is lost and nothing more is received |
| `RingQueue.MaskIsModulus` | types/queue.go:7-9 | `x & (n - 1)` is `x % n` for every power of two |
| `RingQueue.SlotIsMask` | types/queue.go:66 | the masked index is the cyclic slot |
| `RingQueue.Queue.Resize` | types/queue.go:37-54 | keeps the elements in order, contiguous or wrapped, growing or shrinking |
| `RingQueue.Queue.Add` | types/queue.go:56-68 | appends to the sequence of contents |
| `RingQueue.Queue.Peek` | types/queue.go:72-81 | the oldest element, or nil |
| `RingQueue.Queue.Get` | types/queue.go:87-102 | element `i`, counted from the end when negative; None for the panic out of range |
| `RingQueue.Queue.Remove` | types/queue.go:106-127 | takes the oldest element, or returns nil |
| `RingQueue.PotentialPays` | types/queue.go:37-54 | what was copied plus a potential that is zero at half full is at most 2n + 8 |
| `RingQueue.CopyBound` | types/queue.go:60-62 | over any n calls of Add and Remove on a new queue, resize copies at most 2n + 8 elements |
| `RingQueue.Queue.CopiesArePaid` | types/queue.go:120-123 | every queue object satisfies the bound at every time |
| `TopicPaths.JoinSplit` | topics/mem/node.go:107 | splitting a string into levels can be undone |
| `TopicPaths.SplitUnique` | topics/mem/node.go:107 | the levels of a string are the one list of levels without slashes that joins to it |
| `TopicPaths.FileKeyInjective` | topics/mem/node.go:68-84 | different strings are filed under different nodes |
| `TopicPaths.VisitsMatching` | topics/mem/node.go:171-192 | the recursive search visits a node if and only if its path from the start matches the topic |
| `TopicPaths.VisitsOnce` | topics/mem/node.go:171-192 | with a topic without wildcards no node is visited twice |
| `TopicPaths.SearchExact` | topics/mem/node.go:194-204 | the search from the root visits exactly the nodes whose filter delivers the topic, with the `$` rule, each once |
| `TopicPaths.SearchOrdered` | topics/mem/node.go:180-190 | it comes to them in an order of their filters that does not depend on the trie |
| `TopicPaths.SearchOrder` | topics/mem/node.go:171-192 | that order on the five filters a topic of one level can have |
| `TopicPaths.LevelsAgree` | topics/mem/node.go:180 | the level-wise relations of the two searches differ exactly where `#` stands at an empty level |
| `TopicPaths.SearchesAgree` | topics/mem/node.go:268-284 | for every well-formed filter and topic without wildcards, exactly when the two searches agree |
| `TopicPaths.DeliversMeans` | topics/mem/node.go:171-204 | which filters deliver a topic, level by level |
| `TopicPaths.RetrievesMeans` | topics/mem/node.go:242-284 | which topics a filter retrieves, level by level |
| `TopicPaths.ShutdownFilters` | topics/mem/topics.go:215-219 | `#` and `/#` together retrieve every topic outside `$`, each by exactly one of them |
| `Collect.NodeSubscribers` | topics/mem/node.go:317-345 | both collectors, in whatever order the map yields the subscribers |
| `Collect.OneEntryEach` | topics/mem/node.go:334-345 | without merging: one entry per visited subscription, except the publisher's No-Local ones, none twice |
| `Collect.OverlapExact` | topics/memlockfree/node.go:353-378 | with merging, for every order of visits: one entry if any filter is heard, with the highest QoS and the multiset of identifiers of the filters from the first one heard on |
| `Collect.OverlapMerges` | topics/mem/node.go:317-332 | for anybody but a publisher with No-Local filters that means all matching filters, in any order |
| `Collect.JoinedExactly` | topics/memlockfree/node.go:353-378 | all visited filters of a subscriber join its entry if and only if the first one visited is heard |
| `Collect.MergedOptions` | topics/memlockfree/node.go:353-378 | a merged entry has the options of the first filter heard |
| `Collect.PublisherOrderMatters` | topics/mem/node.go:180-190 | for any two subscriptions of the publisher to `a` and `+`: a publish to `a` yields an entry for both when `+` is the No-Local one, and for `+` alone when `a` is |
| `RetainSweep.RetainSetMeans` | topics/mem/node.go:242-266 | the recursive retained search examines exactly the nodes whose topic the filter matches |
| `RetainSweep.RetainTopMeans` | topics/mem/node.go:268-284 | the same from the root, with the rules for a leading `#` |
| `RetainSweep.FindsConcat` | topics/mem/node.go:286-315 | two searches of disjoint nodes, one after the other, find what one search of both finds, each message once |
| `RetainSweep.DeadExactly` | topics/mem/node.go:300-305 | the nodes that a search leaves without use are exactly those that held nothing but a message it found expired |
| `TrieNodes.LinkShape` | topics/mem/node.go:75-77 | linking a new node keeps labels and parent pointers consistent |
| `TrieNodes.UnlinkLeaf` | topics/mem/node.go:158-163 | unlinking an empty node keeps the trie a trie with the same contents, and can leave only its parent without use |
| `TrieNodes.CanonicalNodes` | topics/mem/node.go:152-166 | a trie without unused nodes has exactly the nodes its contents call for |
| `MemTrie.Trie.constructor` | topics/mem/node.go:52-66 | a new trie is empty |
| `MemTrie.Trie.LeafInsertNode` | topics/mem/node.go:68-84 | returns the node for the levels, creating what is missing; only that node can be new and unused |
| `MemTrie.Trie.LeafSearchNode` | topics/mem/node.go:86-100 | the node for the levels, or nil exactly when there is none |
| `MemTrie.Trie.Prune` | topics/mem/node.go:152-166 | the walk to the root keeps all contents, adds no unused node, and removes the start if it is one |
| `MemTrie.Trie.SubscriptionInsert` | topics/mem/node.go:102-125 | changes exactly the entry named, reports whether it existed, and leaves no new unused node |
| `MemTrie.Trie.SubscriptionRemove` | topics/mem/node.go:127-169 | removes exactly the entry named (or all under the filter), reports ErrNotFound correctly, and leaves no new unused node |
| `MemTrie.Trie.SubscriptionRecurseSearch` | topics/mem/node.go:171-192 | collects from the nodes of `Visits`, in that order |
| `MemTrie.Trie.SubscriptionSearch` | topics/mem/node.go:194-204 | collects from the nodes of `VisitsTop` |
| `MemTrie.Trie.RetainInsert` | topics/mem/node.go:206-212 | changes exactly the message named |
| `MemTrie.Trie.RetainRemove` | topics/mem/node.go:214-240 | removes exactly the message named; ErrNotFound exactly without a node; leaves no new unused node |
| `MemTrie.Trie.GetRetained` | topics/mem/node.go:286-307 | yields the node's message if valid, and drops it if expired |
| `MemTrie.Trie.AllRetained` | topics/mem/node.go:309-315 | the same for the whole subtree, each message once |
| `MemTrie.Trie.RetainRecurseSearch` | topics/mem/node.go:242-266 | the same for the nodes of `RetainSet` |
| `MemTrie.Trie.RetainSearch` | topics/mem/node.go:268-284 | the same for the nodes of `RetainTop`, with tree and subscriptions unchanged |
| `MemTopics.SearchMeets` | topics/mem/node.go:171-204 | the visits of a search meet exactly the matching subscriptions, each once |
| `MemTopics.EachMeans` | topics/mem/node.go:334-345 | in terms of the flat subscriptions: one entry per matching filter and subscriber |
| `MemTopics.JoinedIsHeard` | topics/mem/node.go:317-332 | the filters that join an entry are the matching ones from the first one heard on, told without the trie |
| `MemTopics.MergedMeans` | topics/mem/node.go:317-332 | in terms of the flat subscriptions: one merged entry per subscriber, the publisher included |
| `MemTopics.RetrievedExactly` | topics/mem/node.go:242-284 | in terms of the flat map: the search reaches exactly the retained topics that the filter retrieves |
| `MemTopics.RetainedAgrees` | topics/mem/topics.go:191-202 | a valid retained message is found if and only if a publish to its topic would reach the filter, outside the two exceptions |
| `MemTopics.FoundUntilExpiry` | topics/mem/node.go:300-306 | a retained message is found until its expiry time and not from then on, one without always |
| `MemTopics.ShutdownYields` | topics/mem/topics.go:215-219 | what the two searches find together is every valid message outside `$`, once |
| `MemTopics.Provider.Publish` | topics/mem/topics.go:337-356 | for every subscriber exactly the entries that the flat subscriptions call for |
| `MemTopics.Provider.Retained` | topics/mem/topics.go:191-202 | exactly the valid messages the filter retrieves, each once; what is forgotten, and which nodes stay behind |
| `MemTopics.Provider.Retain` | topics/mem/topics.go:251-275 | an empty payload clears the topic, anything else becomes its message, QoS 0 included |
| `MemTopics.Provider.ShutdownSearch` | topics/mem/topics.go:215-219 | every valid retained message outside `$`, once |
| `MemTopics.Provider.Subscribe` | topics/mem/topics.go:277-313 | the error cases, the granted QoS, the one entry changed, when and which retained messages are returned; no unused node unless a message has expired |
| `MemTopics.Provider.UnSubscribe` | topics/mem/topics.go:315-326 | removes exactly the entry named, or all under the filter, and reports ErrNotFound correctly in both cases |
| `LockFreeTrie.Trie.LeafInsertNode` | topics/memlockfree/node.go:70-94 | as in the other trie, with both counters of every node right |
| `LockFreeTrie.Trie.LeafSearchNode` | topics/memlockfree/node.go:96-110 | the node for the levels, or nil exactly when there is none |
| `LockFreeTrie.Trie.NodesCleanup` | topics/memlockfree/node.go:171-198 | stopping at the first node in use leaves no unused node anywhere, and keeps the counters right |
| `LockFreeTrie.Trie.SubscriptionInsert` | topics/memlockfree/node.go:112-135 | changes exactly the entry named and keeps the counters right |
| `LockFreeTrie.Trie.SubscriptionRemove` | topics/memlockfree/node.go:137-169 | removes exactly the entry named (or all under the filter), keeps the counters right and leaves no unused node |
| `LockFreeTrie.SameTreeAsMem` | topics/memlockfree/node.go:171-198 | with the same subscriptions, the trie cleaned by counters and the one pruned by the full walk have the same nodes |
| `Subscriber.Subscriber.Subscribe` | subscriber/subscriber.go:81-105 | the copy and the trie gain exactly the filter, with the same parameters and the granted QoS; nothing on an invalid QoS |
| `Subscriber.Subscriber.UnSubscribe` | subscriber/subscriber.go:108-120 | the copy and the trie lose exactly the filter |
| `Subscriber.Subscriber.Shutdown` | subscriber/subscriber.go:182-206 | the first time, the copy is emptied and the trie loses exactly the entries of this subscriber; later ones do nothing |
| `Subscriber.GoneFromSearches` | subscriber/subscriber.go:182-206 | then no search returns it |
| `Subscriber.RunMirrors` | subscriber/subscriber.go:81-120 | after any sequence of requests to any number of subscribers every copy is exactly what the trie holds |
| `Subscriber.Perform` | subscriber/subscriber.go:81-206 | the same on the objects: any requests to any subscribers with different hashes on one provider leave every one of them valid, with copies, trie and shutdown flags being what the requests amount to |
| `Expiry.Expiry.Start` | clients/expiry.go:40-68 | arms the timer so that what it still has to report is the timeline of will and expiry |
| `Expiry.Expiry.TimerCallback` | clients/expiry.go:97-124 | what was and what will be reported stay the same together |
| `Expiry.Expiry.RunOut` | clients/expiry.go:40-124 | the timer fires at most twice and reports exactly the timeline, with no 32-bit underflow |
| `Expiry.TimelineMeans` | clients/expiry.go:40-124 | a will with a delay is published once, at the earlier of delay and expiry, one without not by the timer; one end of session, expired exactly when there is an expiry interval and then exactly at it |

## Left out

- Writer.Writer.TakeQoS12: requires less than 65535 identifiers in use, which the Receive Maximum implies; without a free one `Flow.Find` says what happens.
- Writer.Writer.PopQoS12: requires quota plus outstanding identifiers within 65535, which `Outbound.Conservation` keeps for every Receive Maximum the protocol allows; beyond it `Flow.Acquire` says what happens.
- Writer.Writer.GetQueuedPackets: QoS 0 packets, and the DUP flag, whose branch is never taken because it tests the type of the wrapper (connection/writer.go:556).
- Outbound.StepExact: storing a packet and writing it are one step, because the peer cannot answer before; so are popping and storing a PUBREL, whose identifier no step of the reader touches meanwhile, and the two operations of `flow.release`, because raising the quota earlier only allows more runs.
- Outbound.Conservation: the wrap-around of the 32-bit quota is not modelled; a peer that acknowledges what is not outstanding is outside the statement, because `flow.release` raises the quota regardless.
- MemTopics.Provider.Publish: topics contain no wildcards, as the topic format of topics/types/types.go:28 demands.
- MemTrie.Trie.SubscriptionSearch: the result map is passed and returned by value instead of through a pointer; loops over a map are split into a method per turn.
- TopicAlias.AliasesInStepExactly: topics are not empty; that setting the alias property and the empty topic succeed is assumed.
- Framing.Reader.ReadPacket: decoding, read deadlines, and the resumption of a half-read packet after a read error, where `remaining` and the offset disagree (connection/reader.go:154-167); every reader here ends at its first error.
- Framing.ReceiveFromConnect: the AUTH exchange, which repeats the first routine; of reads that do not fit the buffer it says only that what is lost begins the rest of the read.
- WriterProtocol.NoLostWakeup: queues are lengths; a failing `PropertySet` or `Encode` is not distinguished from a packet that is not written.
- Receiver.Receiver.OnPublish: metrics are left out; the clock and the answers of the access-control list and of `SignalPublish` are parameters.
- Subscriber.Subscriber.Subscribe: clearing the retain flag of the messages it returns, which the trie shares with it, is not modelled.
- LockFreeTrie.Trie.SubscriptionInsert: one goroutine and subscriptions only; interleavings of insert and cleanup and `retainInsert`, which lowers `subsCount` without a matching increment (topics/memlockfree/node.go:241), break the counters. Its search is the same recursion as in the other trie and is not repeated.
- Locks of the provider: requests are handled one at a time, although `subscriber()` inserts without taking `smu`; the overlap switch, which the mem provider never sets, is a parameter.
- The callback `onCleanUnsubscribe`, metrics, logging, persistence of queues and retained messages, and the reload of unacknowledged packets at start.
- Packet encoding and decoding, properties and reason codes beyond those named: they belong to another library.
- Session take-over, `expiry.cancel`, and the persisted form of subscriptions.
- The QoS of a delivery, lowered only from 2 to 1 when granted 1: one branch.
- Transports, authentication, plugins, configuration and monitoring.
