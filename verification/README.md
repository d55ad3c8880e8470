# A verified model of a small message broker

This project models the core of a message broker written in C (queues with
acknowledgements, exchanges and bindings, consumers, and a length-prefixed wire
format) and proves what its parts promise.

- `Memory.dfy`: messages and the C heap. An address is a position in allocation
  order; every release is counted, so a second release of a message is visible.
- `QueueModel.dfy`, `Queue.dfy`: the queue, first as functions on values, then as
  a class with a circular array and a growable delivery table updated in place.
  Every method of the class is proved to compute the function on values.
- `QueueRuns.dfy`, `QueueOrder.dfy`, `QueueBounds.dfy`: whole runs of a queue:
  conservation, the order of tags, times and messages, inverses, bounds.
- `Blocking.dfy`: producers and consumers on the two condition variables. Every
  section under the mutex is one step; which threads a signal wakes is open, and
  wake-ups without a signal are allowed.
- `Topics.dfy`: the topic matcher against the word-wise meaning of `*` and `#` in
  section 3.1.3.3 of AMQP 0-9-1.
- `Routing.dfy`, `Broker.dfy`: the broker, as functions on values and as a class.
- `Bindings.dfy`: routing and the registries in the words of the exchange types.
- `BrokerRuns.dfy`, `Clients.dfy`, `Provenance.dfy`, `BrokerQueues.dfy`,
  `Ownership.dfy`, `Redelivery.dfy`: whole runs of the broker: what is sent for a
  registration and to a client, where messages come from, what each queue does in
  them, who owns the messages, and when deliveries are taken back.
- `Wire.dfy`, `Frames.dfy`, `Connection.dfy`: the wire format as functions on
  bytes, what its bytes are and that nothing else is read, and the sender and
  receiver on a stream.
- `EndToEnd.dfy`: from what is published to the bytes a consumer reads.

The capacities, the sizes of the registries and the lengths of runs are
arbitrary. The constants of the source (100 table entries, 63 characters of a
queue name, 30 and 5 seconds, the magic number) are kept.

## Where the code and its intent differ

The model follows the code. Where a property fails, the exact condition is proved.

- A sweep compacts the table only if it put a message back
  (`src/core/queue.c:401`). A sweep of a full queue with an expired delivery
  releases the message but keeps its entry, and a later ack or reject of that tag
  settles it again: it releases the message a second time (`ReleasedTwice`), or,
  by a reject with requeue while the ring has room, puts the released message back
  into the ring (`ReleasedMessageComesBack`, and for a whole broker
  `RevivalIsReached`). `CleanIff`, `ConservationIff`,
  `CopiesAccountedIff` and `OneOwnerIff` say exactly when this happens;
  `Accounting` and `CopyLaw` hold in any case.
- A requeue does not signal `not_empty` (`src/core/queue.c:353-357`,
  `src/core/queue.c:385-390`), and a woken consumer that cannot grow the table
  leaves without passing its wake-up on (`src/core/queue.c:187-195`).
  `NoLostConsumer` gives the exact condition over runs, `StrandingIsReached` and
  `GivingUpIsReached` a run for each failure, and `RepairedRun` what a signal
  per requeue would leave.
- A client that registers twice for a queue is sent every message twice
  (`src/core/broker.c:97-122` accepts it): `RegisteredTwice`, `StreamIsLogIff`.
- The routing clone of a publish is released twice, never, or once as no copy, one
  copy, or more were placed (`src/core/broker.c:526-529`,
  `src/core/broker.c:620-629`): `PublishOwnership`, `CloneReleasedOnceIff`,
  `CloneReleasedTwice`, `CloneNeverReleased`. The
  published message itself is not released, although the handler's comment says so
  (`src/core/broker.c:202`).
- `match_topic` treats a wildcard only when it is the whole pattern
  (`src/core/broker.c:681-693`), although its comment and `src/broker/main.c:114`
  suggest otherwise: `AgreeIff`.

## Model

| member | source | states |
|---|---|---|
| `Memory.Heap.Create` | src/core/message.c:5-40 | A created message is a block that was not live before; its strings and body are the arguments and its properties are the defaults; no other block changes. |
| `Memory.Heap.Clone` | src/core/message.c:53-70 | A clone is a new block equal to the original in every field; the original and all other blocks stay as they are. |
| `Memory.Heap.Free` | src/core/message.c:42-51 | Releasing a message records one more release of that address and changes no content. |
| `Queues.SlotIsModulo` | src/core/queue.c:131-190 | The index a few steps on in the circular array is the modulo expression of the source. |
| `Queues.Stretch` | src/core/queue.c:88-92 | The ring read from head on: element i of the deque is the cell (head + i) mod capacity. |
| `Queues.Queue.Init` | src/core/queue.c:11-79 | A new queue is empty, its delivery table is empty with 100 places, and tags start at 1. |
| `Queues.Queue.PushBack` | src/core/queue.c:129-132 | Writing at the tail appends to the deque and leaves table and tags alone. |
| `Queues.Queue.PushFront` | src/core/queue.c:353-356 | Stepping the head back and writing there prepends to the deque. |
| `Queues.Queue.PopFront` | src/core/queue.c:183-185 | Stepping the head forwards takes the first message off the deque. |
| `Queues.Queue.UnpopFront` | src/core/queue.c:189-191 | Stepping the head back uncovers the cell it left, so the deque has its first message again. |
| `Queues.Queue.TryEnqueue` | src/core/queue.c:204-227 | A message is appended and 1 answered exactly when the ring is not full; a full queue is unchanged. |
| `Queues.Queue.AddToUnacked` | src/core/queue.c:142-168 | A delivery is entered last with the next tag; a full table doubles and keeps every entry; without memory nothing changes. |
| `Queues.Queue.TryDequeue` | src/core/queue.c:229-262 | The oldest message moves from the ring to the table and is answered with its tag; if it cannot be tracked, ring, head and tail are exactly what they were. |
| `Queues.Queue.Search` | src/core/queue.c:273-284 | The search stops at the first entry with the tag, or at the end. |
| `Queues.Queue.Compact` | src/core/queue.c:288-297 | The two-index loop keeps exactly the unmarked entries, in their order, in place. |
| `Queues.Queue.Ack` | src/core/queue.c:264-302 | The first entry of that tag goes out of the table with all marked ones and its message is released; an unknown tag answers 0 and changes nothing. |
| `Queues.Queue.Reject` | src/core/queue.c:304-364 | As an ack, but with requeue the message goes to the head of the ring, or is released when the ring is full. |
| `Queues.Queue.Expire` | src/core/queue.c:379-396 | One expired entry is marked, and its message is prepended to the ring or, when that is full, released. |
| `Queues.Queue.ExpireAll` | src/core/queue.c:376-398 | The in-place sweep loop leaves ring, marks, count and releases as the sweep on values does. |
| `Queues.Queue.ProcessTimeouts` | src/core/queue.c:366-416 | With E the expired deliveries in table order and k = min(size of E, free slots): the ring becomes the reverse of the first k before the old contents, the rest of E is released, and the table is compacted only if k > 0. |
| `Queues.Queue.Destroy` | src/core/queue.c:81-115 | Destruction releases every message of the ring and of the unmarked entries, once each. |
| `QueueModel.PendingMarkExpired` | src/core/queue.c:376-411 | Marking the expired entries and then compacting leaves the entries that are neither expired nor marked, in order. |
| `QueueModel.SweepLoopIsPutBack` | src/core/queue.c:376-398 | After any number of entries the sweep loop has computed the closed form of the prefix: the same ring, marks, count and releases. |
| `QueueModel.SweepLoopThenCompact` | src/core/queue.c:366-416 | The loop followed by the conditional compaction is the closed form of the whole sweep. |
| `QueueModel.FindFirst` | src/core/queue.c:273-284 | What the search finds carries the tag and no entry before it does. |
| `QueueRuns.AfterValid` | src/core/queue.c:117-416 | Every run keeps the ring within its capacity, which never changes, and the table within its own. |
| `QueueRuns.StepBalance` | src/core/queue.c:117-416 | One call, for every message: held before + accepted + settled a second time = held after + released. |
| `QueueRuns.Accounting` | src/core/queue.c:117-416 | Over every run, as the code is: held at the start + accepted + settled a second time = held at the end + acked + rejected + dropped. |
| `QueueRuns.ConservationIff` | src/core/queue.c:264-416 | A run conserves its messages if and only if no ack or reject of it hits an entry that is already marked. |
| `QueueRuns.OnePlace` | src/core/queue.c:117-416 | In such a run a message accepted once is in one cell of the ring, or outstanding once, or released once, and never two of these. |
| `QueueRuns.LifetimeBalance` | src/core/queue.c:81-115 | With the destruction of the queue included, a message is released as often as it was accepted or settled again. |
| `QueueRuns.CleanIff` | src/core/queue.c:366-416 | From a clean table a call leaves a clean table if and only if it is not a sweep of a full queue with an expired delivery. |
| `QueueRuns.CleanRuns` | src/core/queue.c:366-416 | Without such a sweep the table is clean after every run, and no marked entry is ever settled. |
| `QueueRuns.Conservation` | src/core/queue.c:117-416 | Without such a sweep every run conserves its messages. |
| `QueueOrder.TagsCount` | src/core/queue.c:142-168 | In every run whatever, the n-th delivery carries the tag n modulo 2^64. |
| `QueueOrder.SameTagIff` | src/core/queue.c:142-168 | Two deliveries of a run carry the same tag if and only if their distance is a multiple of 2^64. |
| `QueueOrder.TagOrder` | src/core/queue.c:142-168 | In every run of fewer than 2^64 - 1 deliveries, the next tag is the number of deliveries plus 1 and the table is strictly sorted by tags below it. |
| `QueueOrder.DequeueIff` | src/core/queue.c:229-262 | A dequeue succeeds if and only if there is a message and the table has a place or can grow; it moves the first message to the end of the table, and when it fails nothing changes. |
| `QueueOrder.SettleAt` | src/core/queue.c:264-364 | On a table sorted by tags, ack and reject of a tag in it take out that entry and those marked before, keep the others in order, and do with its message what was asked; without marked entries that entry alone goes. |
| `QueueOrder.FoundIff` | src/core/queue.c:264-364 | Ack and reject answer 1 if and only if the tag is in the table; otherwise nothing changes. |
| `QueueOrder.SettleRemoves` | src/core/queue.c:286-298 | Compaction after one mark takes out that entry and those marked before, and nothing else. |
| `QueueOrder.TimeOrder` | src/core/queue.c:155-168 | If the clock of the deliveries does not go back, the table of every run is sorted by delivery time. |
| `QueueOrder.OverduePrefix` | src/core/queue.c:376-398 | In a clean table sorted by time the expired deliveries are exactly a prefix. |
| `QueueOrder.SweepTakesPrefix` | src/core/queue.c:366-416 | Hence a sweep after any clean run on such a clock takes a prefix of the table and leaves the rest. |
| `QueueOrder.FirstInFirstOutIff` | src/core/queue.c:117-416 | Over every run: the messages delivered followed by the ring are the first ring followed by the messages accepted, if and only if no reject or sweep of the run puts a message back. |
| `QueueBounds.RequeueUndoesDequeue` | src/core/queue.c:229-364 | From every state with tags in order, marked entries or not: delivering k messages and rejecting them with requeue, last one first, restores the ring exactly and the table without its marked entries. |
| `QueueBounds.RequeueInOrderReverses` | src/core/queue.c:229-364 | From every such state, rejecting them in the order of delivery does the same to the table and returns the k messages reversed. |
| `QueueBounds.RunsAreOrderly` | src/core/queue.c:117-416 | The states these two are about are those of every run of fewer than 2^64 - 1 deliveries. |
| `QueueBounds.SweepThenDequeues` | src/core/queue.c:366-416 | The dequeues after a sweep deliver the expired messages that found room, the last of the table first, and then the old ring. |
| `QueueBounds.NothingDropped` | src/core/queue.c:347-395 | If ring and table together fit into the ring, no run of deliveries, acks, rejects and sweeps ever drops a message for lack of room. |
| `QueueBounds.TableCapacityDoubles` | src/core/queue.c:142-153 | The capacity of the delivery table is always 100 times a power of two. |
| `QueueBounds.TableGrowthBound` | src/core/queue.c:142-160 | It is 100 or at most twice the peak number of entries less 2, and all resizes together copied capacity - 100 entries. |
| `QueueBounds.ReleasedTwice` | src/core/queue.c:264-416 | For any two messages, a run on a queue of capacity 1 in which the sweep of the full queue and a late ack both release the first one. |
| `QueueBounds.ReleasedMessageComesBack` | src/core/queue.c:304-416 | For any two messages, a run of six calls on a queue of capacity 1 in which a late reject with requeue puts the released first one back into the ring. |
| `Blocking.NoLostProducer` | src/core/queue.c:125-136 | In every state of every concurrent run: while a producer waits unsignalled, the free slots are at most the woken producers. |
| `Blocking.MoveServesConsumers` | src/core/queue.c:178-195 | One section, exactly: waiting consumers stay served if and only if the section does not strand one, which can be told before it: a found tag or expired deliveries and free slots say how many messages an unsignalled requeue brings back, and with it, or with a woken consumer that cannot track its message, there are fewer woken consumers than messages. |
| `Blocking.NoLostConsumer` | src/core/queue.c:178-199 | Over every run, whatever it does: in all states up to any point every message has a woken consumer while one waits unsignalled, if and only if no section before that point strands one. |
| `Blocking.RingChange` | src/core/queue.c:117-416 | What each call does to the number of messages, told before it: a reject with requeue adds one if the tag is in the table and the ring has room, a sweep min(expired deliveries, free slots). |
| `Blocking.AttentiveRun` | src/core/queue.c:178-199 | In a run without any requeue that is not signalled and without a failed tracking after a wake-up, consumers are served throughout. |
| `Blocking.RepairedRun` | src/core/queue.c:353-390 | If requeues signalled, consumers would be served throughout every run in which no woken consumer meets a full table and a failed allocation. |
| `Blocking.NoDeadlock` | src/core/queue.c:117-202 | Once all woken threads have run: a waiting producer means a full queue in every run; a waiting consumer means an empty one, and not both wait, in every run in which no earlier section stranded a consumer. |
| `Blocking.Linearized` | src/core/queue.c:117-416 | The queue after any concurrent run is the queue after the sequential run of the operations of its sections. |
| `Blocking.CallersLaw` | src/core/queue.c:117-140 | Over every concurrent run, for every message: blocked callers that held it at the start, plus calls made with it, are blocked callers that hold it at the end plus acceptances by the queue. |
| `Blocking.ConcurrentAccounting` | src/core/queue.c:117-416 | Over every concurrent run, as the code is: what callers and queue held and what was handed over or settled again is what callers and queue hold at the end plus what was released. |
| `Blocking.ConcurrentOnePlace` | src/core/queue.c:117-416 | A message handed over once to a new queue is with one blocked caller, or in one place of the queue, or released once, unless a marked entry is settled. |
| `Blocking.DequeueCallsLaw` | src/core/queue.c:170-202 | Over every concurrent run, for every consumer: blocked at the start plus its calls are blocked at the end, plus the calls that found a message and a place for it in the table, plus those that found a message and no place. A call that finds the ring empty does not return. |
| `Blocking.DequeueLedger` | src/core/queue.c:170-262 | In all: calls blocked at the start or made, plus deliveries by `queue_try_dequeue`, are calls blocked at the end, plus the deliveries on the books of the queue, plus calls that left without. |
| `Blocking.RequeueStrandsConsumers` | src/core/queue.c:352-358 | As written, a reject with requeue into an empty queue leaves every waiting consumer waiting beside the message. |
| `Blocking.StrandingIsReached` | src/core/queue.c:170-202 | A run of four sections on a new queue whose last one, a reject with requeue, leaves a consumer waiting beside the message. |
| `Blocking.GivingUpIsReached` | src/core/queue.c:178-195 | A run on a new queue, under either policy, with 101 different messages, whose last section is a woken consumer that cannot track the message and leaves another one waiting beside it. |
| `Topics.MatcherSound` | src/core/broker.c:676-694 | Whatever the matcher accepts, the word-wise meaning of `*` and `#` accepts. |
| `Topics.SupportedAgree` | src/core/broker.c:676-694 | On `#`, on `*` and on patterns without a wildcard word the matcher is that meaning. |
| `Topics.UnsupportedMisses` | src/core/broker.c:692-693 | Every other pattern misses a topic it should match. |
| `Topics.AgreeIff` | src/core/broker.c:676-694 | Matcher and meaning agree on all topics if and only if the pattern is of those three kinds. |
| `Topics.MatcherIff` | src/core/broker.c:676-694 | For every pattern and topic: a supported pattern accepts what its words mean, any other one accepts itself and nothing else. |
| `Topics.OneTopic` | src/core/broker.c:692-693 | A pattern other than `#` and `*` accepts exactly one topic, itself. |
| `Topics.TestHashMisses` | src/broker/main.c:114 | The pattern `test.#` of the example broker is not of them. |
| `Routing.RouteToQueue` | src/core/broker.c:543-617 | After any number of bindings each queue has got min(free slots, matching bindings to it) copies at its tail and is otherwise unchanged. |
| `Routing.RouteToMemory` | src/core/broker.c:548-559 | Each matching binding made one new block equal to the message, placed once or released once; no other block is touched. |
| `Routing.RouteToTotal` | src/core/broker.c:551-632 | The number of copies placed is the sum over all queues of the copies in each. |
| `Routing.ExactRouting` | src/core/broker.c:536-633 | For all exchange types and any bindings, duplicates included: each queue gets exactly min(free slots, matching bindings to it) copies equal to the message, and the answer is the sum over all queues. |
| `Bindings.RoutedByMeaning` | src/core/broker.c:536-633 | Routing by meaning: each queue gets min(free slots, bindings that lead there) copies of the message, and the answer is the sum. Any binding of a fanout exchange leads, those of a direct exchange with the routing key as key, those of a topic exchange whose key matches word by word, or equals the routing key if it is a pattern the matcher does not support. |
| `Bindings.PublishAnswersIff` | src/core/broker.c:509-533 | A publish is answered with 1 if and only if some queue with a free slot has a binding that leads there. |
| `Bindings.BindLeads` | src/core/broker.c:473-507 | A bind succeeds if and only if the table is below its limit and otherwise changes nothing; it leads one more binding from its exchange to its queue for the routing keys its kind and key mean, and changes no other count. |
| `Bindings.BindThenRoute` | src/core/broker.c:473-633 | A message routed after a bind puts one more copy into that queue while there is room, if kind and key mean it, and as many as before into every other queue. |
| `Bindings.DeclareQueueIff` | src/core/broker.c:338-377 | A declaration answers the place of the queue of that name: the old one unchanged, or a new empty one with that capacity, which there is if and only if the table is below its limit and the capacity is not 0. |
| `Bindings.DeclareExchangeIff` | src/core/broker.c:404-446 | The same for exchanges; an old one keeps its type, a new one has the type asked for. |
| `Bindings.RegisterServesIff` | src/core/broker.c:97-122 | A registration succeeds if and only if the slot exists and the table is below its limit; it serves a queue if and only if the client is live and the queue is named by the first 63 characters. |
| `Bindings.LongNamesServe` | src/core/broker.c:109-111 | A name of 63 characters is served, and a longer one serves the queue named by its first 63. |
| `Bindings.LimitsKept` | src/core/broker.c:338-507 | No run exceeds the sizes of the registries. |
| `Routing.PublishOwnership` | src/core/broker.c:509-533 | After a publish a placed block is live and in one slot, a clone that met a full queue was released once, older blocks are untouched, and the routing clone was released twice, never or once as 0, 1 or more copies were placed. |
| `Routing.CloneReleasedOnceIff` | src/core/broker.c:620-629 | The routing clone is released exactly once if and only if at least two copies can be delivered. |
| `Brokers.Broker.constructor` | src/core/broker.c:214-239 | A new broker has no queues, exchanges, bindings or consumers and no live clients. |
| `Brokers.Broker.CreateQueue` | src/core/broker.c:338-377 | The queue of that name is answered, an existing one unchanged, a new empty one if there is room and the capacity is not 0; otherwise nothing changes. |
| `Brokers.Broker.CreateExchange` | src/core/broker.c:404-446 | The same for exchanges; an existing one keeps its type. |
| `Brokers.Broker.BindQueue` | src/core/broker.c:473-507 | A binding is entered last, unless the table is full. |
| `Brokers.Broker.RegisterConsumer` | src/core/broker.c:97-122 | A registration is entered last under the first 63 characters of the name, unless the slot does not exist or the table is full. |
| `Brokers.Broker.Forward` | src/core/broker.c:60-94 | One attempt to send is made for every live registration of exactly that queue name, in order of registration. |
| `Brokers.Broker.EnqueueInto` | src/core/broker.c:550 | An enqueue into one queue is not noticed by any other. |
| `Brokers.Broker.PlaceCopy` | src/core/broker.c:548-562 | A matching binding clones, enqueues and forwards, or releases the clone when the queue is full. |
| `Brokers.Broker.RouteMessage` | src/core/broker.c:536-633 | The routing loop in place computes the routing the exact results are about, and answers the number of copies. |
| `Brokers.Broker.Publish` | src/core/broker.c:509-533 | The publish in place computes that routing on a clone and answers 1 exactly if a copy was placed. |
| `Brokers.Broker.DequeueFrom` | src/core/queue.c:229-262 | A dequeue from one queue answers its oldest message and the tag, is not noticed by any other queue, and makes a grown table part of the broker. |
| `Brokers.Broker.AckIn` | src/core/queue.c:264-302 | An ack in one queue is the ack on values, and is not noticed by any other. |
| `Brokers.Broker.RejectIn` | src/core/queue.c:304-364 | A reject in one queue is the reject on values, and is not noticed by any other. |
| `Brokers.Broker.SetLive` | src/core/broker.c:750-766 | A client slot is taken or given up; nothing else changes. |
| `Brokers.Broker.SweepOne` | src/core/broker.c:659-661 | The sweep of one queue is not noticed by any other. |
| `Brokers.Broker.EventLoopIteration` | src/core/broker.c:654-665 | All queues are swept with 30 seconds exactly if 5 seconds have passed since the last check, which is then now. |
| `BrokerRuns.NamesStayUnique` | src/core/broker.c:346-372 | No run makes two queues of one name. |
| `BrokerRuns.OneAttempt` | src/core/broker.c:68-87 | Forwarding one copy makes exactly one attempt for a live registration of that name and none for any other. |
| `BrokerRuns.EnqueuedIsGained` | src/core/broker.c:548-562 | What a publish is said to enqueue into a queue is exactly what its ring gains at the tail, as contents. |
| `BrokerRuns.ConsumerLog` | src/core/broker.c:60-122 | Over every run, what is sent for a connected registration from then on is what routing enqueues into its queue from then on, in the same order, one for one. |
| `BrokerRuns.RegisteredConsumerLog` | src/core/broker.c:97-122 | A client that registers for a queue with a name of at most 63 characters is sent, as long as it stays connected, what routing enqueues into that queue from then on. |
| `BrokerRuns.LongNameIsNotServed` | src/core/broker.c:109-111 | A registration for a queue with a name of 64 characters is accepted and never serves it. |
| `Clients.ForwardedTo` | src/core/broker.c:60-94 | Forwarding one copy sends it to a live client once for each registration the client has for that queue name, and to no other client. |
| `Clients.ClientLog` | src/core/broker.c:60-122 | Over every run, for every client: each publish sends it, for every queue, min(free slots, matching bindings) copies once for each of its registrations for that queue while it is live, and nothing else is sent. |
| `Clients.DisconnectedGetsNothing` | src/core/broker.c:68-87 | After its disconnect, and until its slot is taken again, a client is sent nothing. |
| `Clients.StreamIsLogIff` | src/core/broker.c:97-122 | What a live client is sent is what is sent for one of its registrations, for all names and messages, if and only if that registration is its only one. |
| `Clients.SoleConsumerLog` | src/core/broker.c:60-122 | A client with one registration that stays connected and does not register again is sent exactly what routing enqueues into its queue. |
| `Clients.RegisteredTwice` | src/core/broker.c:97-122 | In a run in which a client registers twice for one queue, a single copy is sent to it twice, while it is sent once for each registration. |
| `Provenance.StepHolds` | src/core/queue.c:117-416 | No call on a queue brings in a message except an enqueue. |
| `Provenance.NoSpuriousMessage` | src/core/broker.c:473-633 | In every reachable state of runs in which messages enter queues by publishing only, every message in a ring or table equals in all fields a published message whose exchange had, at the publish, a binding to that queue matching its routing key. |
| `BrokerQueues.QueueRun` | src/core/broker.c:509-666 | In every broker run, each queue is at the end what a run of its own gives: the copies routed to it are enqueued, and the calls on it made. |
| `BrokerQueues.QueueLaws` | src/core/broker.c:338-377 | So for every queue that a broker ever declared: tags count deliveries and sort the table, the table grows with the peak only, and conservation and first in, first out hold under exactly the conditions of queue runs. |
| `BrokerQueues.PulledInOrderIff` | src/core/broker.c:543-617 | As contents, in every broker run: what dequeues deliver from a queue, followed by its ring, is the first ring followed by what routing enqueued, if and only if no call on the queue puts a message back. |
| `BrokerQueues.PushedIsKept` | src/core/broker.c:548-562 | What is sent for a connected registration is, from an empty queue on and without put-backs, also what dequeues deliver and the ring still holds: a pushed message is delivered a second time by a dequeue. |
| `Ownership.CopyLaw` | src/core/broker.c:509-633 | In every run in which messages enter queues by publishing only, for every clone made for a matching binding: how often all queues hold it plus how often it was released is 1 plus how often it was settled again; nothing else is ever in a queue. |
| `Ownership.CopiesAccountedIff` | src/core/queue.c:264-364 | After such a run every clone is held once or was released once, and not both, if and only if no ack or reject of the run hit an entry that was already marked. |
| `Ownership.ApplySound` | src/core/queue.c:352-362 | One event, exactly: every held message stays live and in one place of one queue if and only if the event is not a reject with requeue of a marked entry while the ring has room. |
| `Ownership.OneOwnerIff` | src/core/broker.c:509-633 | At every point of a run every message in a ring or outstanding is live and held in exactly one place of one queue, if and only if no call of the run is such a reject. |
| `Ownership.OneOwner` | src/core/queue.c:366-416 | Without a sweep of a full queue with an expired delivery no table ever has marked entries, and both laws of ownership hold. |
| `Ownership.RevivalIsReached` | src/core/queue.c:304-416 | A broker run from the start, with two publishes, after which a released message is in a ring again, so that both laws of ownership fail. |
| `Ownership.CloneReleasedTwice` | src/core/broker.c:526-529 | A publish to an exchange without bindings releases the routing clone twice. |
| `Ownership.CloneNeverReleased` | src/core/broker.c:620-629 | A publish that places one copy never releases the routing clone. |
| `Redelivery.SweepTakesOverdue` | src/core/queue.c:377-396 | A sweep leaves a delivery out if and only if it is no older than the timeout. |
| `Redelivery.SweepIdleIff` | src/core/queue.c:366-416 | A sweep changes nothing if and only if its timeout is not positive or no delivery is older. |
| `Redelivery.CheckTakesOverdue` | src/core/broker.c:656-662 | An iteration takes back a delivery if and only if it checks and the delivery is older than 30 seconds. |
| `Redelivery.NoDeliveryOlder` | src/core/broker.c:641-669 | With iterations at most g seconds apart on a clock that does not go back, no delivery is ever out for more than 34 + g seconds, the last check is at most 4 seconds behind the last iteration, and it left no delivery older than 30 seconds. |
| `Redelivery.NoDeliveryOlderFromStart` | src/core/broker.c:635-669 | That holds for every timed run from the start of a broker. |
| `Redelivery.FirstCheck` | src/core/broker.c:635-669 | In every timed run from the start of a broker: the first check at or after D + 31 comes by D + 34 + g and leaves no delivery made by D, and takes no delivery of 30 seconds or less. |
| `Redelivery.CheckHasCome` | src/core/broker.c:635-669 | There is one: a timed run that is past D + 34 + g has checked at or after D + 31. |
| `Redelivery.BoundIsMet` | src/core/broker.c:655-664 | For every g of at least 1, a delivery made right after a check is still out after 34 + g seconds in some timed run. |
| `Redelivery.BoundIsReached` | src/core/broker.c:635-669 | Hence the bound cannot be improved: from the start of a broker, for every g of at least 1, some timed run that declares, binds, publishes and delivers comes to exactly 34 + g seconds. |
| `Wire.DecodeEncode` | src/core/connection.c:419-519 | For every message, whatever follows in the stream: the receiver gets the message with each string and the body cut to its length modulo 2^32, or fails exactly for a string length of 2^32 - 1 modulo 2^32. |
| `Wire.RoundTripIff` | src/core/connection.c:362-519 | A message survives the wire if and only if its strings are shorter than 2^32 - 1 and its body is shorter than 2^32. |
| `Wire.EncodedLength` | src/core/connection.c:373-415 | An encoding has 29 bytes and the bytes of exchange, routing key and body. |
| `Wire.DecodeExtends` | src/core/connection.c:419-519 | A read that succeeds does not depend on the bytes behind it and leaves them. |
| `Wire.PrefixFails` | src/core/connection.c:424-518 | No strict prefix of an encoding decodes, whatever the message. |
| `Wire.FramingUnique` | src/core/connection.c:373-415 | Two streams that begin with encodings are equal if and only if the messages and the rests are. |
| `Frames.DecodeIff` | src/core/connection.c:419-519 | The receiver gets a message off a stream if and only if the stream begins with its frame: the bytes 51 4D 41 52 (reversed for the other byte order), exchange and routing key each behind their length, of which what is before the first NUL is kept, the body behind its size, priority in 4, expiration in 8 and persistence in 1 bytes. |
| `Frames.DecodeThenEncode` | src/core/connection.c:362-519 | The converse of the round trip: what was read is the encoding of the message and the rest if and only if the strings in the stream had no NUL. |
| `Frames.BadMagicFails` | src/core/connection.c:424-432 | A stream that does not begin with these four bytes gives no message, and the four bytes are consumed. |
| `Frames.EncodeIsFrame` | src/core/connection.c:362-416 | The sender sends exactly that frame. |
| `Frames.LittleDigits` | src/core/connection.c:369-378 | A number of 1 or 4 bytes is read with the least significant byte first on a little-endian host. |
| `Frames.LittleHalves` | src/core/connection.c:404-411 | And one of 8 bytes as two of 4. |
| `Frames.NumberBack` | src/core/connection.c:369-415 | Numbers are written in the bytes they are read from. |
| `Wire.StreamRoundTrip` | src/core/connection.c:362-519 | Any sequence of messages comes out of the stream as it went in, and exactly its bytes are consumed before the tail. |
| `Wire.StreamEnds` | src/core/connection.c:362-519 | A stream that ends after some messages, or inside the next one, delivers exactly the whole ones. |
| `Wire.CutStream` | src/core/connection.c:362-519 | A stream of encodings that is cut after any number of bytes delivers exactly the messages whose encodings are whole in it. |
| `Connection.Socket.SendMessageData` | src/core/connection.c:362-416 | The answer is 1 exactly if the connection took the whole encoding; in any case a prefix of it went out. |
| `Connection.SendsAreStream` | src/core/connection.c:362-416 | Any sends on one connection, also after failed ones, give the concatenated encodings as far as the connection goes. |
| `Connection.Socket.ReceiveMessageData` | src/core/connection.c:419-519 | The message the decoder reads is new on the heap and exactly its bytes are consumed; after a failed read no new block is live. |
| `EndToEnd.ArrivesIff` | src/core/connection.c:419-519 | The messages a receiver can get off a stream are exactly those the wire carries unchanged. |
| `EndToEnd.ClientReads` | src/core/broker.c:60-122 | Every client, whatever it registered for, reads from its socket what the publishes sent it, in order: all of it, or, when the connection breaks, exactly the messages that went out whole. |
| `EndToEnd.ConsumerReadsQueue` | src/core/broker.c:60-122 | A client with one registration that stays connected and does not register again reads exactly the messages routing enqueued into its queue since, in order; when the connection breaks, exactly those that went out whole. |
| `Connection.FailedSendDeliversNothing` | src/core/connection.c:373-415 | What a failed send leaves on the wire never gives the receiver a message and leaves those before it intact. |

## Left out

- Sockets, accepting connections, descriptors and name resolution: a connection is a stream of bytes with full-length transfers until it ends or fails.
- The connect and disconnect lifecycle, the receiver thread, logging, argument parsing, the example programs and the C++ wrapper.
- Pointer checks for NULL, and failure of `malloc`, except the growth of the delivery table in a dequeue.
- Priority clamping, expiration, durability and persistence as behaviour: the fields are stored and transmitted, and nothing acts on them.
- Blocking forms as methods: `queue_enqueue` and `queue_dequeue` are steps of the protocol in `Blocking.dfy`; their sections under the mutex are the operations of the queue.
- Address reuse: a released address is never handed out again in the model, and a released block keeps its content for the proofs.
- Unsigned overflow of `size_t` in index and capacity arithmetic: capacities that fit into memory stay below it.
- The broker mutex: one publish, one declaration and one pass of the event loop are each one step. Registration of consumers, which the code does not lock, is one step too.
- The liveness of a client slot is an input of the run; the network thread that sets it is not modelled.
- Brokers.Broker.BindQueue: binds only objects of the broker's own registries, which are named by their place there; the source stores any two pointers it is given.
- The handler's dispatch on the message (`src/core/broker.c:159-207`) and the consumer flag of a client: a publish by a client is one event that allocates the received message and publishes it.
- Interleaving inside a pass of the event loop: other calls on the queues come before or after it.
- Wire.DecodeEncode: a string length of 2^32 - 1, whose buffer size wraps around to 0, ends the read in the model; what the code does then is undefined.
