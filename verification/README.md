# OZ, the ZeroMQ bridge for OpenMAMA: a verified model

OZ connects processes that find each other through a naming proxy, carries
published messages and request/reply traffic between them, and hands what arrives
to application threads through event queues. This project models that logic in
Dafny 4.11 and proves what it is for. `dafny verify dfyconfig.toml` checks it.

Each protocol is a transition system: a state, the steps that are enabled in it, and
runs as sequences of states. Main results are about every state of every run. Code
that changes things in place is a class or a method with loops, proved against the
function that the transition systems use.

| module | what it covers |
|---|---|
| Naming, Discovery, DiscoveryStartup, DiscoveryHistory, DiscoveryBounds | peer discovery through the proxy |
| QueueLists, UQueue, UQueueRuns, QueueRounds, QueueBridge, Watermarks, WatermarkRaces | the event queue, alone and between threads |
| Ere, Topics, TopicMeaning, TopicLimits, WildcardFilter | hierarchical topics, their regular expressions and prefixes |
| Delivery, DeliveryInvariants, DeliveryProofs, DeliveryResults, TopicDelivery, Interest | subscriptions, delivery and the socket's interest |
| Serial, Wire, Inbox | serials, the wire format, request and reply |
| Timer, TimerEffects, Beacons | timers between two threads, the timing of beacons |
| Common, Text | shared definitions, searching in strings |

## What the proofs say about the code

Where a promise holds only under a condition, the condition is exact. Topics here are
those whose characters, wildcards and '.' aside, mean themselves in a regular
expression.

- Two nodes that have subscribed, stay, suffer no failed call and have drained the log
  are connected both ways if and only if both got their own announcement back. Other
  nodes may leave, fail and beacon meanwhile. Whatever fails, a node reaches another if
  and only if it handled some announcement of it to the end, and read no 'D' since.
- A departed node is forgotten if and only if its last message is the 'D'. Its startup
  thread can still announce it after that.
- The startup thread goes on until its announcement comes back or its tries are used up,
  and a beacon makes up for whatever failed before.
- A peer that is answered and then finds no memory is answered again when it is next
  heard of. Discovery is bounded by the number of nodes and of such failures.
- `ws2posix` preserves meaning on all subjects if and only if the topic does not begin
  with `*`, which lets a leading `/` in, and has no `.` before the tail, which stands for
  any character.
- `subscriber::start` passes the topic itself as the in-out argument of `ws2posix`. A
  topic without `*` is then translated as if written twice, and the result is wrong for
  every such topic.
- A topic of one character without a wildcard makes `ws2posix` throw: an absent "/."
  and `length() - 2` are the same `size_t`.
- The prefix filter is lossless if and only if the topic does not start with a wildcard,
  has a `*` or ends in "//." (or is at least 257 characters long), and has no `.` in the
  key. In the other cases text of the regular expression stays in the key and messages are
  lost, or the expression accepts other characters for the `.`.
- Filter and expression together are right if and only if the topic keeps its prefix so
  and has no `.` after the key: a `.` in the key is compared as it is.
- Messages whose subject starts with "_INBOX" never reach a subscription. A topic for
  which the filter is right gets all that it denotes if and only if it denotes no such
  subject.
- The name of an inbox is read at byte 44 of a message, whatever the length of its
  subject. A message invokes only the inbox that its subject names if and only if the
  subject has no prefix or at least 42 bytes; after a shorter one the payload can name an
  inbox.
- The queue's size check adds in 32 bits. The nodes stay within mMaxSize and the number of
  dispatchers if and only if mMaxSize + dispatchers + chunk < 2^32, or mMaxSize + chunk <
  2^32 for a chunk larger than mMaxSize.
- A timer that is not being destroyed stays armed, and each of its firings runs the
  action unless the queue is inactive.
- Where destroy takes a timer's element, all that can follow is safe if and only if no
  reset on another thread is past its flag test.
- Watermark notifications alternate if and only if at most one thread checks; two of the
  three ways to dispatch check without the lock.
- The low watermark is never skipped if and only if it is zero, or below the high one and
  a single thread dispatches.
- The first beacon is on time in every run if and only if the loop starts at time zero.
  Otherwise its poll's timeout is the whole time since the epoch and the interval, while
  the documentation (doc/Naming-Service.md) promises a regular interval.

## Assumptions

- The proxy is one append-only log. A node reads it from where its subscription took
  effect, after one welcome message. A PUB socket drops what it sends until its link is
  up. Messages under way from a node keep their order.
- UUIDs are unique, and each announces its own endpoint. They are numbers in the
  discovery model and strings of 36 characters in reply handles (section 3 of RFC 4122).
- ZeroMQ counts subscriptions per topic; control messages arrive in order, and sending
  one does not fail.
- A semaphore counts without a limit of its own.
- The timer heap calls back with its lock held, and the lock is recursive. At most one
  thread besides the queue's resets a timer at a time.
- Foreign calls are parameters: their outcomes, the bytes received, the times read.
- Bytes are characters with the same code; C strings have no NUL inside.
- Fewer than 2^64 subscriptions, wildcards or inboxes are ever created on a transport.

## Model

| member | source | states |
|---|---|---|
| Naming.NamingTransport.SendEndpointsMsg | src/transport.c:1494-1525 | the new state for every outcome of the send: one message of the given type with own UUID and endpoint under way, unless the publisher is not up and drops it; success exactly when the send succeeds |
| Naming.NamingTransport.DispatchNamingMsg | src/transport.c:626-731 | the whole effect of a naming message on peers, connections, announcements and startup thread for every outcome of its calls; when each type succeeds, that an unknown one changes nothing, and that a new peer is answered by one 'C' |
| Discovery.FullMesh | src/transport.c:634-664 | in every run, two drained nodes that have subscribed, stay and have no failed call are in each other's tables and connected both ways if and only if both got their own announcement back |
| Discovery.PeerTable | src/transport.c:634-706 | in every state of every run a peer is one whose latest message read is not a disconnect, and its endpoint is connected; without a failed call every such node is a peer and every connection belongs to a peer |
| DiscoveryHistory.ReachesExactly | src/transport.c:634-706 | for every node in every state of every run, whatever calls failed: b is a peer and connected if and only if some announcement of b that was read, with no 'D' of b after it, was handled without an early return |
| DiscoveryHistory.ForgottenExactly | src/transport.c:665-677 | a node without a failed call that has read the whole log does not have b as a peer if and only if the last message of b where it reads is a 'D' or there is none |
| DiscoveryHistory.DepartedStaysKnown | src/transport.c:1534-1543 | a run in which a node sends 'D' and its startup thread then 'C', and a fault-free node keeps it as a peer when it has exited and nothing is under way |
| DiscoveryHistory.BeaconHeals | src/transport.c:511-526 | from every state of every run, whatever failed before, the next beacon of a node that is up makes it reached by every dispatching node that has read all and handles it |
| Discovery.ConnectedMeansEchoed | src/transport.c:659-663 | after the startup thread begins, mNamingConnected is set exactly when an own announcement has come back since (only if, after a failed call) |
| DiscoveryStartup.AnnouncesUntilEchoed | src/transport.c:1527-1546 | in every run, at a dispatching node whose startup thread has ended an own announcement was read back since it began, or exactly max(retries - 1, 0) sends were tried; never more |
| DiscoveryStartup.LostSendsMadeUp | src/transport.c:1527-1546 | for any number of lost sends below retries - 1, a run in which the next one comes back, sets mNamingConnected and ends the thread |
| DiscoveryStartup.StoppedIsSilent | src/transport.c:1534-1536 | a node that has stopped dispatching announces nothing more in the rest of any run, by its startup thread or otherwise |
| Discovery.NewPeerAnswered | src/transport.c:644-654 | when a node adds a peer, its answer is where the peer reads, or nothing of it is in the log yet |
| Discovery.ConnectionHandle | src/transport.c:665-690 | for any announcement or disconnect with an endpoint no other node has, every peer keeps a connection, and a successful call leaves no connection without a peer |
| DiscoveryBounds.DispatchCounts | src/transport.c:637-654 | on every path the announcements made are the peers added and those there was no memory for, and no more messages are under way than were made |
| DiscoveryBounds.PublishCounts | src/transport.c:1529-1546 | each announcement of the startup thread uses up one of the retries - 1 it may make, and its visible actions run out |
| DiscoveryBounds.MessageBound | src/transport.c:637-654 | with n nodes, no beacon and no departure at most n*n + n*max(retries-1, 0) announcements are ever sent, and one for each failed allocation of a peer; the log is no longer |
| DiscoveryBounds.Quiesces | src/transport.c:1529-1546 | every run without beacons and departures has at most a cubic number of steps, and n + 1 more for each failed allocation of a peer |
| DiscoveryBounds.SettlesInFullMesh | doc/Naming-Service.md:35-40 | where such a run can go no further, all nodes without a failed call that got their own announcement back form a full mesh |
| UQueue.UQueueImpl.constructor | src/uqueue.c:58-84 | a well-formed empty queue with no nodes and the default sizes |
| UQueue.UQueueImpl.Create | src/uqueue.c:86-115 | each size or its default where it is zero; one block of the initial size on the chain, or NoMem when it is refused or memory is out |
| UQueue.UQueueImpl.AllocChunk | src/uqueue.c:311-345 | refused when the 32-bit sum exceeds mMaxSize; otherwise one new block heads the chain of blocks, is the free list and belongs to the nodes; a refusal changes nothing |
| QueueLists.NewBlock | src/uqueue.c:325-342 | fresh distinct nodes chained to a null-terminated free list, with the older blocks behind the first |
| UQueue.UQueueImpl.Enqueue | src/uqueue.c:172-225 | the event is appended, or Full exactly when no node is free and none can be had; list and free list partition the nodes, every node belongs to one block on the chain, and the blocks there were stay on it, with one more in front exactly when the capacity grows |
| QueueLists.InsertBefore | src/uqueue.c:213-217 | the list is linked both ways with the item last |
| UQueue.UQueueImpl.SemWait | src/uqueue.c:248-260 | takes one from the semaphore or times out at zero |
| UQueue.UQueueImpl.Take | src/uqueue.c:262-287 | hands over exactly the oldest event and its payload, its node becomes free, and the blocks stay as they are |
| QueueLists.Unlink | src/uqueue.c:14-16 | the list is linked both ways without its first item |
| UQueue.UQueueImpl.Destroy | src/uqueue.c:117-132 | the walk over the chain ends and frees no block twice; every node ever allocated, and nothing else, is in the chunk of a freed block, and of one only |
| QueueLists.OwnedOnce | src/uqueue.c:325-342 | a node is allocated if and only if it is in a chunk of the chain, and then in one chunk only |
| UQueueRuns.Fifo | src/uqueue.c:213-217 | in every interleaving what was handed over and what is queued, in order, is what was accepted |
| UQueueRuns.AcceptedExactly | src/uqueue.c:172-225 | in every run an enqueue is accepted if and only if a node is free, or memory is there and the 32-bit sum is within mMaxSize; then it is last, counted, and a block is added exactly if no node was free; else nothing changes |
| UQueueRuns.RemovesOldest | src/uqueue.c:262-287 | in every run a dispatcher past its wait finds an event and hands over the one queued longest |
| UQueueRuns.SemaphoreCounts | src/uqueue.c:248-272 | semaphore plus dispatchers past the wait is the queue length, so none of them finds the list empty |
| UQueueRuns.CapacityBound | src/uqueue.c:318-323 | nodes never exceed mMaxSize by more than the number of dispatchers when the 32-bit sum cannot wrap |
| UQueueRuns.CapacityBoundExactly | src/uqueue.c:182-222 | that bound holds in every run from every initial capacity if and only if mMaxSize + dispatchers + chunk < 2^32 for a chunk up to mMaxSize, mMaxSize + chunk < 2^32 for a larger one |
| UQueueRuns.ExceedsBound | src/uqueue.c:182-222 | a run that exceeds the bound for all other sizes: grow to the bound behind waiting dispatchers, drain, refill, wrap |
| UQueueRuns.NoGrowth | src/uqueue.c:318-323 | a chunk larger than mMaxSize is never let in while mMaxSize + chunk < 2^32 |
| UQueueRuns.RefusedExactly | src/uqueue.c:318-323 | the 32-bit test agrees with the unbounded one if and only if the sum does not wrap or wraps above the limit |
| UQueueRuns.WrapAdmitsOversize | src/uqueue.c:318-323 | a run of two enqueues that takes a queue of at most 10 and one dispatcher to 2^32 nodes |
| UQueueRuns.NeverFullAfterRemove | src/uqueue.c:187-195 | right after a removal no enqueue is refused |
| QueueBridge.Bridge.EnqueueMsg | src/queue.c:315-326 | an active queue enqueues, an inactive one drops silently and succeeds |
| QueueBridge.Bridge.CheckWatermarks | src/queue.c:444-461 | an unfired queue fires if and only if it is at or above the high mark, a fired one clears if and only if it is at the low mark, and exactly the change is notified |
| QueueBridge.Bridge.TimedDispatch | src/uqueue.c:237-295 | the oldest event is handed over, or the queue is empty and nothing is |
| QueueBridge.Bridge.Dispatch | src/queue.c:176-217 | the loop hands over the oldest events in order, exactly one a round while there are any, leaves the rest, notifies exactly what the falling size calls for, and High first on an unfired queue at or above the high mark |
| QueueRounds.AfterIs | src/queue.c:176-217 | any number of rounds of check and dispatch come to the oldest events, the rest and the notifications of a queue that shrinks by one each round |
| QueueRounds.NotifiedUnfired | src/queue.c:176-217 | what the rounds notify on an unfired queue in closed form: nothing below the high mark, else High, and Low once the low mark is reached |
| QueueRounds.HighFirst | src/queue.c:444-461 | High is the first notification for any low mark |
| Watermarks.NotificationsAlternate | src/queue.c:444-461 | over every run notifications alternate, starting with high, even when marks are changed |
| Watermarks.AboveLow | src/queue.c:194-205 | with low < high a fired queue is above the low mark when dispatched and not below it when checked |
| Watermarks.Hysteresis | src/queue.c:444-461 | in every run with low < high a check fires an unfired queue if and only if it has at least the high mark, clears a fired one if and only if it is down to the low mark, and notifies exactly the change |
| Watermarks.CheckSettles | src/queue.c:444-461 | after a check that found at least the high mark the queue is fired, after one that found at most the low mark it is not |
| Watermarks.SkipsIfCrossed | src/queue.c:452-455 | with 0 < low and high <= low there is a run in which a check finds a fired queue below the low mark |
| Watermarks.NeverSkipsExactly | src/queue.c:452-455 | the low mark is never skipped if and only if low < high or low = 0 |
| WatermarkRaces.AlternatesExactly | src/queue.c:219-262 | with checks interleaved between threads, notifications alternate in every run if and only if at most one thread checks |
| WatermarkRaces.DecidesExactly | src/queue.c:444-461 | each of several threads decides High if and only if it finds the queue unfired at or above the high mark, and Low if and only if it finds it fired at the low mark |
| WatermarkRaces.AloneHysteresis | src/queue.c:444-461 | a single thread has the hysteresis of the loop |
| WatermarkRaces.TwoNotifyHigh | src/queue.c:444-461 | for any two marks and at least two threads, a run that notifies high twice in a row |
| WatermarkRaces.NeverSkippedExactly | src/queue.c:219-262 | with several dispatching threads the low mark is never skipped if and only if it is zero, or one thread dispatches and it is below the high mark, or none does |
| WatermarkRaces.TwoSkip | src/queue.c:219-262 | for 0 < low < high and two threads, a run in which both check just above the low mark and both take an event |
| Topics.Ws2Posix | examples/ozimpl.cpp:415-464 | the status and text for every topic and every entry value of the in-out argument |
| Topics.ReplaceStars | examples/ozimpl.cpp:437-441 | the loop replaces every '*' from q on and nothing else |
| Topics.AnchorEnd | examples/ozimpl.cpp:443-459 | what becomes of the end of the text, the case that throws included |
| TopicMeaning.WritesText | examples/ozimpl.cpp:415-464 | the exact regular expression written for a wildcard topic that does not begin with a caret |
| TopicMeaning.ParsesText | examples/ozimpl.cpp:415-464 | that text compiles, to the expected pieces and anchors |
| TopicMeaning.MeaningExactly | examples/ozimpl.cpp:415-464 | the expression accepts a subject if and only if the topic denotes it or a leading '/' slips into a leading '*' |
| TopicMeaning.MeaningPreserved | examples/ozimpl.cpp:415-464 | without a leading '/' or without a leading '*' it accepts exactly what the topic denotes |
| TopicMeaning.SlashSlipsIn | examples/ozimpl.cpp:423-427 | "*" accepts "/", which it does not denote |
| TopicLimits.FaithfulIffNoDot | examples/ozimpl.cpp:428-431 | apart from the leading '/' the translation is faithful if and only if the topic has no '.' before its tail |
| TopicLimits.FullyFaithfulExactly | examples/ozimpl.cpp:415-464 | the translation is faithful on all subjects if and only if the topic does not begin with '*' and has no '.' before its tail |
| TopicLimits.EntryValueRunsOn | examples/ozimpl.cpp:433-435 | with no '*' in either, the entry value and the topic are translated as one topic |
| TopicLimits.CallerFaithfulIffStar | examples/ozimpl.cpp:111-115 | with the topic itself as entry value the translation is faithful, apart from the leading '/', if and only if the topic has a '*' and no '.' before its tail |
| TopicLimits.StatusExactly | examples/ozimpl.cpp:443-458 | success on the wildcard topics only; a single other character throws |
| WildcardFilter.CreateWildCardKey | src/subscription.c:109-125 | the key is the derived prefix, truncated to 255 characters, exactly when the comparison at the end stays in its buffer |
| WildcardFilter.LosslessExactly | src/subscription.c:109-140 | for every wildcard topic of plain characters and '.', the prefix test loses nothing if and only if the topic does not start with a wildcard, has a '*', ends in "//." or is at least 257 long, and has no '.' in the key |
| WildcardFilter.FilterAgrees | src/transport.c:847-859 | prefix test and expression together accept exactly what a supported topic denotes, a '.' in the key included |
| WildcardFilter.AgreesExactly | src/transport.c:847-859 | the two tests equal the topic on all subjects if and only if the topic keeps its prefix and has no '.' after the key |
| WildcardFilter.KeyIs | src/subscription.c:109-125 | the key of a topic that keeps its prefix is the topic up to its first '*', or what fits of it |
| WildcardFilter.DotLoses | src/subscription.c:109-125 | with a '.' in the key the expression accepts a subject that the key rejects |
| WildcardFilter.DotAccepts | src/transport.c:847-859 | with a '.' after the key both tests accept a subject that the topic does not denote |
| TopicDelivery.DeliversWhatTopicDenotes | src/transport.c:735-871 | a subscription to a supported topic is given only messages the topic denotes, in order and once each; open and with nothing queued it has had, since it was made, precisely those whose subject does not start with the inbox prefix |
| TopicDelivery.FullyServedExactly | src/transport.c:735-749 | a supported topic gets all that it denotes in every run if and only if it does not meet the inbox prefix, which is decided from the topic alone |
| TopicDelivery.MeetsFinds | src/transport.c:742-743 | a topic that meets a prefix without '/' denotes a subject that starts with it |
| TopicDelivery.MeetsComplete | src/transport.c:742-743 | a topic that denotes a subject with that start meets it |
| TopicDelivery.InboxTopicUnserved | src/transport.c:742-743 | every supported topic that starts with "_INBOX", such as "_INBOX/*", is not fully served |
| Delivery.SubTransport.DispatchSubMsg | src/transport.c:784-842 | one event for each wildcard that wants the message, then for each registered subscription |
| Delivery.SubTransport.DispatchNormalMsg | src/transport.c:735-749 | a message whose subject starts with the inbox prefix leaves the subscriptions' queues alone, any other goes through both loops |
| Delivery.SubTransport.FanOut | src/transport.c:817-838 | the loop adds one event, in order, for each subscription that wants the subject, muted regular ones passed over |
| Delivery.SubTransport.FindForCallback | src/transport.c:997-1019 | the subscription with the event's serial, unless it is gone or muted |
| DeliveryProofs.LookupEvent | src/transport.c:934-954 | the lookup at dispatch finds the subscription the event was enqueued for while that is open, and otherwise none that is not muted |
| DeliveryProofs.ExactDelivery | src/transport.c:735-871 | in every state of every run what a subscription has been given is an in-order first part, without repetition, of the messages not for an inbox that it wanted while registered and not muted, and the rest is queued while it is open |
| DeliveryResults.RegularExactly | src/transport.c:802-838 | in every run a regular subscription is given only messages with exactly its topic as subject and not for an inbox; open and with nothing queued it has had all of those served since it was registered |
| DeliveryResults.WildcardExactly | src/transport.c:847-871 | the same for a wildcard, with key and regular expression |
| DeliveryResults.QueuedExactly | src/transport.c:784-871 | in every run one message queues one event for each registered subscription that asks for it and for no other, in the order in which they were made, behind all that was queued; a muted regular one is passed over, a muted wildcard is not |
| DeliveryResults.EventuallyGiven | src/transport.c:934-988 | every message served for an open regular subscription can be given to it by dispatching alone |
| DeliveryProofs.NothingAfterClose | src/subscription.c:148-215 | nothing is delivered after mute or destroy in the rest of any run |
| Interest.BalancedDispatch | src/transport.c:594-622 | applying a command keeps the balance, and an unsubscribe always finds a subscription other than the transport's own |
| Interest.ReferenceCounts | src/subscription.c:405-421 | for each topic the socket's count plus pending 'S' minus pending 'U' is the number of live subscriptions, and one more for the inbox subject subscribed at the start, which no first part of the commands gives up |
| Interest.NeverUnsubscribed | src/subscription.c:196-200 | while a subscription is live and its 'S' is applied the socket is subscribed, whoever else is destroyed |
| Interest.ExitStops | src/transport.c:594-622 | in every run the thread is dispatching if and only if none of the commands it took was an 'X' |
| Interest.StoppedKeepsCounts | src/transport.c:594-622 | once it has stopped the socket's subscriptions stay as they are |
| Serial.Counter.GenerateSerial | src/util.c:50-56 | the counter advances modulo 2^64, and its new value is what is rendered |
| Serial.ValueOfHex | src/util.c:50-56 | reading the digits back gives the number |
| Serial.RenderedInjective | src/util.c:50-56 | different 64-bit counts render differently |
| Wire.BridgeMsgImpl.constructor | src/msg.c:388-396 | an initialised message is pub/sub with empty handle and subject |
| Wire.BridgeMsgImpl.SetSendSubject | src/msg.c:141-151 | what fits is copied, and success means all of it was |
| Wire.BridgeMsgImpl.Serialize | src/msg.c:293-343 | a buffer filled exactly with the encoding, laid out place by place as documented: subject, NUL, type, handle of a request only, NUL, payload |
| Wire.EncodeLaysOut | doc/Wire-Formats.md:8-41 | the encoding has the documented layout |
| Wire.SubjectFirst | doc/Wire-Formats.md:8-41 | the first NUL of such a message ends its subject |
| Wire.BridgeMsgImpl.Deserialize | src/msg.c:346-385 | fields and payload as decoded, a negative payload size reported |
| Wire.RoundTrip | src/msg.c:293-385 | for every type, every subject and handle within their fields and every non-empty payload, decoding the encoding recovers type, payload and the handle that the type calls for, over any earlier content |
| Wire.PubSubKeepsHandle | src/msg.c:365-374 | pub/sub leaves no handle in a fresh message and the old one in a reused message |
| Wire.TruncatedExactly | src/msg.c:346-385 | for every buffer, the negative payload size is reported if and only if the message ends with its type and no handle is looked for or overflows |
| Inbox.TransportImpl.CreateInbox | src/inbox.c:140-157 | the handle is made of prefix, UUID and serial, and the inbox is registered under the serial |
| Inbox.TransportImpl.DestroyInbox | src/transport.c:1109-1121 | the inbox's entry is removed; success exactly when it was this inbox |
| Inbox.TransportImpl.DispatchNormalMsg | src/transport.c:735-779 | where a message goes for every content: the name is the C string at byte 44, whatever the subject's length, and a read past the message is reported as such |
| Inbox.SendFromInbox | src/publisher.c:216-245 | the bytes of a request: the publisher's subject, as far as it fits, comes first, then type, handle and payload; no result exactly when the handle overflows its field |
| Inbox.SendReplyToInboxHandle | src/publisher.c:196-213 | the bytes of a reply, with the handle as subject and none embedded; no result exactly when the handle overflows its field |
| Inbox.HandleParts | src/zmqdefs.h:282-291 | a reply handle is 60 characters: prefix, '.', UUID, '.', serial, each at its place |
| Inbox.CreatedKeeps | src/inbox.c:140-157 | a new inbox takes a name that no registered inbox has |
| Inbox.DestroyedKeeps | src/inbox.c:167-189 | destroying an inbox removes it and no other |
| Inbox.NoStaleMisdelivery | src/transport.c:883-895 | in every run a callback goes only to the inbox the message was received for |
| Inbox.DeliveryExactly | src/inbox.c:212-237 | exactly when a message of any type and any subject length invokes an inbox, stale handles included |
| Inbox.NamesItsInboxExactly | src/transport.c:756-758 | a message invokes only the inbox that its subject names, for all types, payloads and tables, if and only if the subject has no prefix or at least 42 bytes |
| Inbox.ShortSubjectInvokes | src/transport.c:756-758 | for every shorter subject with the prefix, a pub/sub message that invokes an inbox named in its payload |
| Inbox.ShortSubjectRun | src/transport.c:756-758 | for every such subject a run of a transport that ends so: create, a reply received and dispatched, the short subject received and dispatched |
| Inbox.RequestReply | src/publisher.c:171-245 | the request reaches the subscriptions of every transport under the publisher's subject unless that has the inbox prefix; its receiver gets payload and handle; the reply invokes that inbox with the payload unchanged exactly if it is registered both on receipt and at dispatch, and no other inbox on any transport |
| Timer.SafeIfJoined | src/timer.c:158-324 | in every interleaving of ticks, resets on two threads and one destroy, if no foreign reset is past its flag test when destroy takes the element: no tick behind the destroy event, no action after destroy, one element at most, one free and no use after it |
| Timer.TimerSafe | src/timer.c:158-324 | safety in every interleaving without a reset on another thread |
| Timer.LateResetBreaks | src/timer.c:287-324 | every run at that point with such a reset has a continuation that uses the timer after it is freed |
| Timer.DestroySafeExactly | src/timer.c:158-191 | where destroy is about to take the element, every continuation is safe if and only if no reset on another thread is past its flag test |
| Timer.SafeIffNoForeignReset | src/timer.c:287-324 | safety in every run if and only if resets on another thread are ruled out |
| TimerEffects.TicksConserved | src/timer.c:265-284 | in every run the firings that found the timer not being destroyed, less one under way and those an inactive queue dropped, are the ticks queued and dispatched |
| TimerEffects.ActionsFollowTicks | src/timer.c:252-262 | every tick dispatched before destroy silences the timer runs the action, and until destroy is called there is one |
| TimerEffects.Silenced | src/timer.c:158-191 | after that no action runs in the rest of any run |
| TimerEffects.StaysArmed | src/timer.c:265-284 | in every run, until destroy is called the timer's element can fire whenever the heap's thread is idle and the lock is free |
| TimerEffects.RunsAgain | src/timer.c:265-284 | every run at rest with an active queue goes on to run the action once for each tick queued and once more |
| TimerEffects.ResetReplaces | src/timer.c:287-324 | each reset that gets to its critical section leaves a new armed element in place of the old one |
| TimerEffects.ResetTakesEffect | src/timer.c:287-324 | a reset gets there unless the timer is being destroyed |
| Beacons.DispatchLoop | src/transport.c:498-526 | the loop sends beacons at the times of the clock recurrence |
| Beacons.BeaconSpacing | src/transport.c:500-526 | successive beacons are at least an interval I and less than 2I + d apart, d bounding the time between two polls |
| Beacons.FirstBeaconBound | src/transport.c:478-505 | in every run the first beacon comes at start + I or later, and before 2 * (start + I) + d |
| Beacons.LateRunIsLate | src/transport.c:478-505 | for every start, I and d a run whose first beacon comes at the last moment of that bound |
| Beacons.FirstOnTimeExactly | src/transport.c:478-505 | the first beacon comes before start + 2I + d in every run if and only if the start is zero |

## Left out

- ZeroMQ sockets, heartbeats, reconnects, the monitor and bind/connect logic: they appear only as a log, a set of endpoints and counts per topic.
- Several proxies, several welcomes for one node and reconnects to the proxy: the discovery model has one of each.
- endpointPool, wtable, wList, the timer heap, regcomp and regexec internals: maps, sequences, a lock and a matching relation stand for them.
- Regular expressions outside the fragment that ws2posix writes: delivery takes any answer of regexec, meaning is proved for hierarchical topics.
- generateSubjectKey with a root or a source, and publisher subjects made from them: only the form used for wildcards is modelled.
- Timer.TimerSafe: assumes that creating and destroying timer elements succeeds and that the queue is not full; intervals and times are not modelled.
- Beacons.BeaconSpacing: is for an interval that stays constant and positive; a poll lasts at most its timeout.
- The timer's and the dispatch thread's state as objects: their steps interleave, so they are values of a transition system.
- DeliveryProofs.ExactDelivery: assumes that queues are active and not full, that deserialize succeeds (src/transport.c:972-975 skips a message otherwise), and that no mute or destruction falls between a callback's test and the call, which the comments at src/transport.c:930-933 take as given for destruction.
- Watermarks.NotificationsAlternate: is for one checking thread whose marks may change, as are AboveLow and NeverSkipsExactly for fixed marks; WatermarkRaces has the exact conditions for several threads.
- UQueueRuns.CapacityBound: is one half of CapacityBoundExactly, which has the sizes it leaves out.
- The default sizes of a queue: they come from an OpenMAMA header that is not part of this model, and are parameters.
- Reads and writes outside a buffer (an inbox name or a wildcard's tail past the message or expression, a handle longer than its field): reported as such, with nothing said about what then happens.
- Deserialize on buffers without the NULs it looks for, with a handle longer than its field, or with an empty payload: outcome Undefined, with nothing said about memory.
- Configuration and logging: they choose the parameters of the model and report on it.
- Allocation failure other than of queue blocks and of peers: the model has no such outcome, so nothing is said about a transport that is short of memory.
- The host, program and process fields of a naming message: no branch of the code depends on them.
- The bridge's glue, benchmarks and example programs other than ws2posix and its caller: they pass calls on to the code that is modelled.
