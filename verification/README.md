# jfastnet reliable-retransmission bookkeeping, in Dafny

This project models two pieces of jfastnet's reliable-delivery core and proves properties of the model.

- **`MessageLog`** is the per-session log. It holds a bounded FIFO queue of received messages and a bounded FIFO queue of sent messages. It also holds `sentMap`, a bounded LRU index from `MessageKey` to the sent message. Filters decide what each direction records.
- **`RequestSeqIdsMessage.process`** is the gap-recovery step. A peer that noticed missing sequence ids asks for them. Processing the request does these things:
  - it picks the peer id used in lookup keys;
  - it signals loss to the requester's network-quality estimator once;
  - it resends every requested message the log still indexes;
  - it reports every requested message the log no longer indexes.

The model is functional. Each operation returns a new value, and the collaborators the source calls become inputs or entries of an output trace. The inputs are the id policy, the client-state table and the clock. The trace records calls to the quality estimator, calls to the sender and not-found events. The resent-messages counter is threaded through as a number.

Java messages are objects. The `sent` queue and `sentMap` hold the same object. Before handing a message to the sender, `process` mutates the logged object itself, not a copy (RequestSeqIdsMessage.java:70-71). The model keeps this aliasing. Message objects live in a `Heap` (`map<Ref, Message>`), the log stores `Ref`s, and `process` returns the updated heap. `ResendVisibleThroughSentQueue` shows the consequence: after a resend, the entry in the sent queue also shows the new receiver and the resend flag.

Every lemma carries `{:induction false}`. Dafny 4.11's automatic induction over a sequence parameter can derive `false` from satisfiable requires in this model, so no proof here relies on it; each inductive proof is written out as recursive calls.

Files:
- `wrappers.dfy`: `Option` and `Result`.
- `messages.dfy`: the message entity, reliability modes, `MessageKey`, the request constructor and the resend rebinding.
- `fifo.dfy`: the bounded FIFO queue that drops its head when full. This stands in for Apache `CircularFifoQueue`.
- `lru_map.dfy`: the bounded map that evicts its eldest entry when full. This stands in for jfastnet's `LRUMap`.
- `message_log.dfy`: `MessageLog`, its filters and the lemmas about it.
- `request_seq_ids.dfy`: `RequestSeqIdsMessage.process`, written as a function and as a loop, with the lemmas about it.

## Model

| member | source | states |
|---|---|---|
| `Messages.NewRequest` | src/main/java/com/jfastnet/messages/RequestSeqIdsMessage.java:38-48 | A new request carries the given ids and receiver, is not a resend, and always reports the `Unreliable` mode. |
| `Messages.KeyOf` | src/main/java/com/jfastnet/MessageLog.java:73 | A sent message is keyed by its reported mode, its receiver and its id. |
| `Messages.Rebind` | src/main/java/com/jfastnet/messages/RequestSeqIdsMessage.java:70-71 | Preparing a resend sets the receiver to the requester and raises the resend flag. The id, sender, payload and mode stay the same. |
| `Fifo.Add` | src/main/java/com/jfastnet/MessageLog.java:67 | After an add the queue is within its limit, the new element is the newest, and the elements before it are the old queue minus its oldest element when it was full. `Fifo.WindowStep` shows that the queue is always the newest `limit` elements ever added. |
| `Fifo.WindowStep` | src/main/java/com/jfastnet/MessageLog.java:67 | Adding to a full-or-not queue keeps it equal to the newest `limit` elements of everything ever added. |
| `LruMap.Put` | src/main/java/com/jfastnet/MessageLog.java:80 | The capacity holds after an insert. With capacity at least 1, the new key maps to the new value. No other key changes its value. At most one old key is evicted, and none while the map is below capacity. |
| `LruMap.FreshInsertsEvict` | src/main/java/com/jfastnet/MessageLog.java:62 | Inserting `limit` or more new, distinct keys with no reads in between evicts every key present before, so a lookup of it finds nothing. |
| `MessageLog.NewLog` | src/main/java/com/jfastnet/MessageLog.java:57-63 | Building a log fails exactly when a queue capacity is below one. Otherwise the log is empty and within its bounds. |
| `MessageLog.Accepts` | src/main/java/com/jfastnet/MessageLog.java:85-106 | The accept-all filter accepts every message. The accept-none filter rejects every message. The reliable-only filter accepts exactly the messages whose mode is not `UNRELIABLE`. |
| `MessageLog.AddReceived` | src/main/java/com/jfastnet/MessageLog.java:65-69 | A message the receive filter rejects leaves the log unchanged. An accepted one is queued as newest, and the oldest is dropped when the queue is full. `sent` and `sentMap` never change. Bounds are kept. |
| `MessageLog.AddSent` | src/main/java/com/jfastnet/MessageLog.java:71-82 | A rejected message or an already indexed key leaves the log unchanged. Otherwise the message is queued as newest in `sent` and, with map capacity at least 1, is found under its key. No key other than the new one gains or changes an entry. Entries leave the index only by eviction: below capacity every earlier key is kept, and at most one earlier key is lost. `received` never changes. Bounds are kept. |
| `MessageLog.GetSent` | src/main/java/com/jfastnet/messages/RequestSeqIdsMessage.java:64 | The lookup finds a message exactly when its key is indexed, and returns the indexed message. |
| `MessageLog.Replay` | src/main/java/com/jfastnet/MessageLog.java:60-62 | After any sequence of `addReceived`/`addSent` calls, all three capacity bounds still hold. |
| `MessageLog.ReceivedIsWindow` | src/main/java/com/jfastnet/MessageLog.java:65-68 | After any sequence of calls, `received` equals the newest `receivedLimit` accepted incoming messages, oldest first. Sends never affect it. |
| `MessageLog.ReplayKeepsIndexed` | src/main/java/com/jfastnet/MessageLog.java:73-80 | If a key stays indexed after every prefix of a run of calls, it still maps to the message it was indexed with. An indexed entry is never overwritten. |
| `MessageLog.AddSentIdempotent` | src/main/java/com/jfastnet/MessageLog.java:71-82 | With map capacity at least 1, logging a sent message twice gives the same log as logging it once. |
| `MessageLog.AddSentDeduplicates` | src/main/java/com/jfastnet/MessageLog.java:73-77 | A second message with an already indexed key is skipped. It neither overwrites the first nor adds a second copy. |
| `MessageLog.FilterFidelity` | src/main/java/com/jfastnet/MessageLog.java:85-106 | Under the reliable-only filter, an unreliable message changes neither direction. Under accept-all, every received message becomes the newest and the queue grows until full. |
| `MessageLog.RequestIsNeverLogged` | src/main/java/com/jfastnet/messages/RequestSeqIdsMessage.java:44-48 | Under the reliable-only filters a missing-ids request is never logged, sent or received. |
| `RequestSeqIds.KeyIdFor` | src/main/java/com/jfastnet/messages/RequestSeqIdsMessage.java:55-59 | The lookup key uses the requester's id under per-client numbering and `0` otherwise. Its contract only names the two cases; what the choice means for the lookups is stated by `RequestSeqIds.ProcessEffects` and `RequestSeqIds.GlobalNumberingSharesLookups`. |
| `RequestSeqIds.DegradeNetworkQuality` | src/main/java/com/jfastnet/messages/RequestSeqIdsMessage.java:78-85 | One estimator call with the number of requested ids if the requester has client state, none otherwise. Its contract only names the two cases; that the call happens once, first, and independently of the lookups is stated by `RequestSeqIds.ProcessCounts`. |
| `RequestSeqIds.Process` | src/main/java/com/jfastnet/messages/RequestSeqIdsMessage.java:51-76 | The functional model of `process`. It creates and drops no message objects, and it makes one call per requested id plus the optional quality call. The per-call and counting statements are `RequestSeqIds.ProcessEffects` and `RequestSeqIds.ProcessCounts`. |
| `RequestSeqIds.LookupEffect` | src/main/java/com/jfastnet/messages/RequestSeqIdsMessage.java:63-69 | One requested id yields a resend exactly when its key is indexed. The resend carries the indexed message rebound to the requester. Otherwise it yields a not-found event carrying the lookup key and the requester. |
| `RequestSeqIds.ProcessLoop` | src/main/java/com/jfastnet/messages/RequestSeqIdsMessage.java:51-76 | The source's loop, with its early `continue`, computes the same heap, trace and counter as the functional `Process`. |
| `RequestSeqIds.ResolveAllCounts` | src/main/java/com/jfastnet/messages/RequestSeqIdsMessage.java:62-75 | The loop makes one send per found id and one not-found event per missing id. It increments the counter once per send and never calls the quality estimator. |
| `RequestSeqIds.ResolveAllHeap` | src/main/java/com/jfastnet/messages/RequestSeqIdsMessage.java:70-71 | After the loop, exactly the logged messages some requested id finds are rebound and flagged in place. Every other object is unchanged. |
| `RequestSeqIds.ResolveAllEffects` | src/main/java/com/jfastnet/messages/RequestSeqIdsMessage.java:62-75 | The loop's `i`-th call answers the `i`-th requested id, in request order. Earlier resends do not alter what later ids send. |
| `RequestSeqIds.ProcessCounts` | src/main/java/com/jfastnet/messages/RequestSeqIdsMessage.java:60-85 | The quality hook fires once, first, with count equal to the number of ids, exactly when the requester has client state, whatever the lookups find. Sends equal found ids. Sends plus events equal the number of ids. The counter grows by the number of sends. |
| `RequestSeqIds.ProcessEffects` | src/main/java/com/jfastnet/messages/RequestSeqIdsMessage.java:55-75 | Each id is looked up under `(SEQUENCE_NUMBER, key id, id)`, where the key id is the requester's id or `0` by the id policy. The calls follow request order. Only the found messages are mutated. |
| `RequestSeqIds.ResendVisibleThroughSentQueue` | src/main/java/com/jfastnet/messages/RequestSeqIdsMessage.java:70-71 | Because the resend mutates the logged object, the aliased entry of the sent queue shows the requester as receiver and the resend flag raised. |
| `RequestSeqIds.LoggedMessageIsResent` | src/main/java/com/jfastnet/messages/RequestSeqIdsMessage.java:55-74 | Round trip. Take a sequenced message that `addSent` logged under a fresh key, followed by any log calls after which its key stays indexed. Under per-client numbering, a request for its id from its receiver resends that very message with the resend flag raised. |
| `RequestSeqIds.GlobalNumberingSharesLookups` | src/main/java/com/jfastnet/messages/RequestSeqIdsMessage.java:55-64 | Under global numbering, two requesters asking for the same ids are answered from the same logged messages, id by id. |

## Left out

- Locking: the `synchronized` methods only serialise calls, so the log is modelled sequentially.
- Logging: the slf4j calls and their message strings are not modelled.
- `AbstractMessageProcessor`: it only asserts non-null configuration and state. Dafny values are never null, so configuration and state are plain parameters.
- Context plumbing: the `IDontFrame` marker, framing, serialisation, and how `process` reaches its collaborators through `getState()` and `getProcessorOf` are not modelled.
- Collaborators: `internalSender.send`, `eventLog.add` and `requestedMissingMessages` become entries of the output trace. `getClientStates().getById` becomes a set of peers with client state. `idProvider.resolveEveryClientMessage()` and `timeProvider.get()` become fields of `Env`, and the timestamp is opaque. The estimator's internals are not part of this model.
- `MessageKey`, Apache `CircularFifoQueue` and jfastnet's `LRUMap` are not part of this model. The key is a structural triple. The queue is a sequence that drops its head when full. `NewLog` fails for a queue capacity below one, because that queue class rejects such sizes.
- `MessageLogProcessor.ProcessorConfig` is not part of this model, so limits and filters are a plain `LogConfig`. The class comment of `MessageLog` says that by default only reliable messages are logged. `MessageLog.RequestIsNeverLogged` takes that reliable-only default as a hypothesis.
- MessageLog.NewLog: the `sentMap` limit is a `nat`, so a negative map limit cannot be given. What jfastnet's `LRUMap` does with a negative size is not part of this model. The two queue limits are `int`, and `NewLog` fails for any value below one.
- LRU recency: the model's map evicts the eldest entry by insertion order. Lookups (`getSent`, `containsKey`) do not refresh recency, so no property depends on read recency. `LruMap.FreshInsertsEvict` assumes no reads between the inserts.
- `LruMap.Put`: for a key already present, only the value is stated to change. `addSent` never puts an existing key, so this case is not used.
- Integer widths: ids, peer ids and the resent-messages counter are unbounded integers. Ids are only compared. Overflow of the 64-bit counter is not modelled.
- A `null` element in the request's id list would throw when unboxed. This is not modelled.
- Message payloads and message kinds other than the missing-ids request are opaque. Reliability modes other than `UNRELIABLE` and `SEQUENCE_NUMBER` are opaque too.
- Keys after processing: `process` adds and removes no index entries. This holds by construction, because `Process` returns no log.
