/** The per-session log of sent and received messages: two bounded FIFO
    queues and a bounded index of sent messages by key, each fed through a
    pluggable filter. The log holds references into the session's heap. */
module MessageLog {
  import opened Wrappers
  import opened Messages
  import Fifo
  import LruMap

  /** Which messages a direction of the log records. */
  datatype Filter =
    | AllMessages
    | NoMessages
    | ReliableMessages
    | Custom(test: Message -> bool)

  /** Whether filter `f` lets `m` into the log. */
  function Accepts(f: Filter, m: Message): (r: bool)
    ensures f.AllMessages? ==> r
    ensures f.NoMessages? ==> !r
    ensures f.ReliableMessages? ==> (r <==> m.Mode() != Unreliable)
  {
    match f
    case AllMessages => true
    case NoMessages => false
    case ReliableMessages => m.Mode() != Unreliable
    case Custom(test) => test(m)
  }

  /** The limits and filters a log is built from. The queue limits are Java
      `int`s and may be given as zero or negative. */
  datatype LogConfig = LogConfig(
    receivedLimit: int,
    sentLimit: int,
    sentMapLimit: nat,
    receiveFilter: Filter,
    sendFilter: Filter)

  /** A bounded queue cannot be created with a capacity below one. */
  datatype ConfigError = QueueCapacityNotPositive

  datatype Log = Log(
    received: seq<Ref>,
    sent: seq<Ref>,
    sentMap: LruMap.LruMap<MessageKey, Ref>)

  /** Every capacity bound of `cfg` holds. */
  ghost predicate Valid(cfg: LogConfig, log: Log) {
    && 1 <= cfg.receivedLimit
    && 1 <= cfg.sentLimit
    && |log.received| <= cfg.receivedLimit
    && |log.sent| <= cfg.sentLimit
    && LruMap.Valid(log.sentMap, cfg.sentMapLimit)
  }

  /** Every reference the log holds denotes a live message object. */
  ghost predicate RefsIn(log: Log, heap: Heap) {
    && (forall i :: 0 <= i < |log.received| ==> log.received[i] in heap)
    && (forall i :: 0 <= i < |log.sent| ==> log.sent[i] in heap)
    && (forall k :: k in log.sentMap.entries ==> log.sentMap.entries[k] in heap)
  }

  /** A fresh, empty log; fails when either queue capacity is below one. */
  function NewLog(cfg: LogConfig): (r: Result<Log, ConfigError>)
    ensures r.Success? <==> 1 <= cfg.receivedLimit && 1 <= cfg.sentLimit
    ensures r.Success? ==>
      && Valid(cfg, r.value)
      && r.value.received == [] && r.value.sent == []
      && r.value.sentMap.entries == map[]
  {
    if cfg.receivedLimit < 1 || cfg.sentLimit < 1 then
      Failure(QueueCapacityNotPositive)
    else
      LruMap.EmptyValid<MessageKey, Ref>(cfg.sentMapLimit);
      Success(Log([], [], LruMap.Empty()))
  }

  /** Records an incoming message if the receive filter accepts it. */
  function AddReceived(cfg: LogConfig, log: Log, heap: Heap, ref: Ref): (r: Log)
    requires Valid(cfg, log) && ref in heap
    ensures Valid(cfg, r)
    ensures r.sent == log.sent && r.sentMap == log.sentMap
    ensures !Accepts(cfg.receiveFilter, heap[ref]) ==> r == log
    ensures Accepts(cfg.receiveFilter, heap[ref]) ==>
      && |r.received| > 0 && r.received[|r.received| - 1] == ref
      && r.received[..|r.received| - 1] == Fifo.Survivors(log.received, cfg.receivedLimit)
    ensures RefsIn(log, heap) ==> RefsIn(r, heap)
  {
    if Accepts(cfg.receiveFilter, heap[ref]) then
      log.(received := Fifo.Add(log.received, cfg.receivedLimit, ref))
    else
      log
  }

  /** The log `AddSent` produces for an accepted message with a new key. */
  function AppendSent(cfg: LogConfig, log: Log, heap: Heap, ref: Ref): Log
    requires Valid(cfg, log) && ref in heap
  {
    log.(sent := Fifo.Add(log.sent, cfg.sentLimit, ref),
         sentMap := LruMap.Put(log.sentMap, cfg.sentMapLimit, KeyOf(heap[ref]), ref))
  }

  /** The fresh-key branch of `AddSent`: the message is the newest sent entry
      and is indexed under its key, and no other key gains or changes a value. */
  lemma {:induction false} AppendSentFacts(cfg: LogConfig, log: Log, heap: Heap, ref: Ref)
    requires Valid(cfg, log) && ref in heap && KeyOf(heap[ref]) !in log.sentMap.entries
    ensures var r := AppendSent(cfg, log, heap, ref);
      && Valid(cfg, r)
      && |r.sent| > 0 && r.sent[|r.sent| - 1] == ref
      && r.sent[..|r.sent| - 1] == Fifo.Survivors(log.sent, cfg.sentLimit)
      && (1 <= cfg.sentMapLimit ==> GetSent(r, KeyOf(heap[ref])) == Some(ref))
      && r.sentMap.entries.Keys <= log.sentMap.entries.Keys + {KeyOf(heap[ref])}
      && (forall k :: k in r.sentMap.entries && k != KeyOf(heap[ref]) ==>
            k in log.sentMap.entries && r.sentMap.entries[k] == log.sentMap.entries[k])
      && (|log.sentMap.entries| < cfg.sentMapLimit ==> log.sentMap.entries.Keys <= r.sentMap.entries.Keys)
      && (forall k1, k2 :: k1 in log.sentMap.entries && k1 !in r.sentMap.entries && k2 in log.sentMap.entries && k2 !in r.sentMap.entries ==> k1 == k2)
  {
  }

  /** Appending keeps every reference of the log live. */
  lemma {:induction false} AppendSentRefsIn(cfg: LogConfig, log: Log, heap: Heap, ref: Ref)
    requires Valid(cfg, log) && ref in heap
    ensures RefsIn(log, heap) ==> RefsIn(AppendSent(cfg, log, heap, ref), heap)
  {
    if RefsIn(log, heap) {
      var r := AppendSent(cfg, log, heap, ref);
      forall i | 0 <= i < |r.sent|
        ensures r.sent[i] in heap
      {
        if r.sent[i] != ref {
          var j :| 0 <= j < |log.sent| && log.sent[j] == r.sent[i];
        }
      }
    }
  }

  /** Records an outgoing message if the send filter accepts it and no message
      with the same key is already indexed. */
  function AddSent(cfg: LogConfig, log: Log, heap: Heap, ref: Ref): (r: Log)
    requires Valid(cfg, log) && ref in heap
    ensures Valid(cfg, r)
    ensures r.received == log.received
    ensures !Accepts(cfg.sendFilter, heap[ref]) ==> r == log
    ensures KeyOf(heap[ref]) in log.sentMap.entries ==> r == log
    ensures Accepts(cfg.sendFilter, heap[ref]) && KeyOf(heap[ref]) !in log.sentMap.entries ==>
      && |r.sent| > 0 && r.sent[|r.sent| - 1] == ref
      && r.sent[..|r.sent| - 1] == Fifo.Survivors(log.sent, cfg.sentLimit)
      && (1 <= cfg.sentMapLimit ==> GetSent(r, KeyOf(heap[ref])) == Some(ref))
      && r.sentMap.entries.Keys <= log.sentMap.entries.Keys + {KeyOf(heap[ref])}
    ensures forall k :: k in r.sentMap.entries && k != KeyOf(heap[ref]) ==>
      k in log.sentMap.entries && r.sentMap.entries[k] == log.sentMap.entries[k]
    ensures |log.sentMap.entries| < cfg.sentMapLimit ==> log.sentMap.entries.Keys <= r.sentMap.entries.Keys
    ensures forall k1, k2 :: k1 in log.sentMap.entries && k1 !in r.sentMap.entries && k2 in log.sentMap.entries && k2 !in r.sentMap.entries ==> k1 == k2
    ensures RefsIn(log, heap) ==> RefsIn(r, heap)
  {
    if !Accepts(cfg.sendFilter, heap[ref]) || KeyOf(heap[ref]) in log.sentMap.entries then
      log
    else
      AppendSentFacts(cfg, log, heap, ref);
      AppendSentRefsIn(cfg, log, heap, ref);
      AppendSent(cfg, log, heap, ref)
  }

  /** The sent message indexed under `key`, if it is still in the index. */
  function GetSent(log: Log, key: MessageKey): (r: Option<Ref>)
    ensures r.Some? <==> key in log.sentMap.entries
    ensures r.Some? ==> r.value == log.sentMap.entries[key]
  {
    LruMap.Get(log.sentMap, key)
  }

  /** One call on the log. */
  datatype LogOp = ReceivedOp(ref: Ref) | SentOp(ref: Ref)

  /** Performs one call. */
  function Apply(cfg: LogConfig, log: Log, heap: Heap, op: LogOp): (r: Log)
    requires Valid(cfg, log) && op.ref in heap
    ensures Valid(cfg, r)
    ensures RefsIn(log, heap) ==> RefsIn(r, heap)
  {
    match op
    case ReceivedOp(ref) => AddReceived(cfg, log, heap, ref)
    case SentOp(ref) => AddSent(cfg, log, heap, ref)
  }

  /** The calls `ops`, performed in order. */
  function Replay(cfg: LogConfig, log: Log, heap: Heap, ops: seq<LogOp>): (r: Log)
    requires Valid(cfg, log)
    requires forall i :: 0 <= i < |ops| ==> ops[i].ref in heap
    ensures Valid(cfg, r)
    ensures RefsIn(log, heap) ==> RefsIn(r, heap)
    decreases |ops|
  {
    if ops == [] then log
    else Apply(cfg, Replay(cfg, log, heap, ops[..|ops| - 1]), heap, ops[|ops| - 1])
  }

  /** What one call contributes to the accepted incoming messages. */
  function AcceptedBy(cfg: LogConfig, heap: Heap, op: LogOp): seq<Ref>
    requires op.ref in heap
  {
    match op
    case ReceivedOp(ref) => if Accepts(cfg.receiveFilter, heap[ref]) then [ref] else []
    case SentOp(_) => []
  }

  /** The references the receive filter lets through, in call order. */
  function AcceptedReceived(cfg: LogConfig, heap: Heap, ops: seq<LogOp>): seq<Ref>
    requires forall i :: 0 <= i < |ops| ==> ops[i].ref in heap
    decreases |ops|
  {
    if ops == [] then []
    else AcceptedReceived(cfg, heap, ops[..|ops| - 1]) + AcceptedBy(cfg, heap, ops[|ops| - 1])
  }

  /** One call keeps `received` equal to the window of the accepted history. */
  lemma {:induction false} ReceivedWindowStep(cfg: LogConfig, log: Log, heap: Heap, op: LogOp, h: seq<Ref>)
    requires Valid(cfg, log) && op.ref in heap
    requires log.received == Fifo.LastN(h, cfg.receivedLimit)
    ensures Apply(cfg, log, heap, op).received == Fifo.LastN(h + AcceptedBy(cfg, heap, op), cfg.receivedLimit)
  {
    if AcceptedBy(cfg, heap, op) == [] {
      assert h + [] == h;
    } else {
      Fifo.WindowStep(h, cfg.receivedLimit, op.ref);
    }
  }

  /** Regrouping a concatenation. Kept apart so that the extensional sequence
      equality is proved in a small context rather than in the window step. */
  lemma {:induction false} AppendAssoc(a: seq<Ref>, b: seq<Ref>, c: seq<Ref>)
    ensures a + b + c == a + (b + c)
  {
  }

  /** The inductive step of `ReceivedIsWindow`: the last call extends both
      sides alike. */
  lemma {:induction false} ReceivedIsWindowStep(cfg: LogConfig, log: Log, heap: Heap, ops: seq<LogOp>)
    requires Valid(cfg, log) && ops != []
    requires forall i :: 0 <= i < |ops| ==> ops[i].ref in heap
    requires Replay(cfg, log, heap, ops[..|ops| - 1]).received ==
      Fifo.LastN(log.received + AcceptedReceived(cfg, heap, ops[..|ops| - 1]), cfg.receivedLimit)
    ensures Replay(cfg, log, heap, ops).received ==
      Fifo.LastN(log.received + AcceptedReceived(cfg, heap, ops), cfg.receivedLimit)
  {
    var pre := ops[..|ops| - 1];
    var op := ops[|ops| - 1];
    var acc := AcceptedReceived(cfg, heap, pre);
    ReceivedWindowStep(cfg, Replay(cfg, log, heap, pre), heap, op, log.received + acc);
    AppendAssoc(log.received, acc, AcceptedBy(cfg, heap, op));
  }

  /** Whatever calls are made, the received queue is exactly the newest
      `receivedLimit` accepted incoming messages, oldest first; sends never
      disturb it. */
  lemma {:induction false} ReceivedIsWindow(cfg: LogConfig, log: Log, heap: Heap, ops: seq<LogOp>)
    requires Valid(cfg, log)
    requires forall i :: 0 <= i < |ops| ==> ops[i].ref in heap
    ensures Replay(cfg, log, heap, ops).received ==
      Fifo.LastN(log.received + AcceptedReceived(cfg, heap, ops), cfg.receivedLimit)
    decreases |ops|
  {
    if ops == [] {
      assert log.received + [] == log.received;
    } else {
      ReceivedIsWindow(cfg, log, heap, ops[..|ops| - 1]);
      ReceivedIsWindowStep(cfg, log, heap, ops);
    }
  }

  /** A call leaves the value of a key that stays indexed unchanged. */
  lemma {:induction false} ApplyKeepsIndexed(cfg: LogConfig, log: Log, heap: Heap, op: LogOp, key: MessageKey)
    requires Valid(cfg, log) && op.ref in heap && key in log.sentMap.entries
    requires key in Apply(cfg, log, heap, op).sentMap.entries
    ensures Apply(cfg, log, heap, op).sentMap.entries[key] == log.sentMap.entries[key]
  {
  }

  /** `key` is indexed before the calls `ops` and after every prefix of them. */
  ghost predicate StaysIndexed(cfg: LogConfig, log: Log, heap: Heap, ops: seq<LogOp>, key: MessageKey)
    requires Valid(cfg, log)
    requires forall i :: 0 <= i < |ops| ==> ops[i].ref in heap
    decreases |ops|
  {
    if ops == [] then key in log.sentMap.entries
    else
      && StaysIndexed(cfg, log, heap, ops[..|ops| - 1], key)
      && key in Replay(cfg, log, heap, ops).sentMap.entries
  }

  /** A key that stays indexed through every prefix of a run of calls keeps
      the message it was indexed with: the log never overwrites an entry. */
  lemma {:induction false} ReplayKeepsIndexed(cfg: LogConfig, log: Log, heap: Heap, ops: seq<LogOp>, key: MessageKey)
    requires Valid(cfg, log)
    requires forall i :: 0 <= i < |ops| ==> ops[i].ref in heap
    requires StaysIndexed(cfg, log, heap, ops, key)
    ensures key in log.sentMap.entries && key in Replay(cfg, log, heap, ops).sentMap.entries
    ensures Replay(cfg, log, heap, ops).sentMap.entries[key] == log.sentMap.entries[key]
    decreases |ops|
  {
    if ops != [] {
      var pre := ops[..|ops| - 1];
      var op := ops[|ops| - 1];
      ReplayKeepsIndexed(cfg, log, heap, pre, key);
      ApplyKeepsIndexed(cfg, Replay(cfg, log, heap, pre), heap, op, key);
    }
  }

  /** Logging the same outgoing message twice leaves the log as logging it once. */
  lemma {:induction false} AddSentIdempotent(cfg: LogConfig, log: Log, heap: Heap, ref: Ref)
    requires Valid(cfg, log) && ref in heap && 1 <= cfg.sentMapLimit
    ensures AddSent(cfg, AddSent(cfg, log, heap, ref), heap, ref) == AddSent(cfg, log, heap, ref)
  {
  }

  /** A second message whose key is already indexed is skipped, not stored
      again and not overwriting the first. */
  lemma {:induction false} AddSentDeduplicates(cfg: LogConfig, log: Log, heap: Heap, a: Ref, b: Ref)
    requires Valid(cfg, log) && a in heap && b in heap && 1 <= cfg.sentMapLimit
    requires KeyOf(heap[a]) == KeyOf(heap[b]) && Accepts(cfg.sendFilter, heap[a])
    ensures AddSent(cfg, AddSent(cfg, log, heap, a), heap, b) == AddSent(cfg, log, heap, a)
  {
  }

  /** Under the reliable-only filter an unreliable message never changes the
      log; under the accept-all filter every incoming message becomes the
      newest entry and the queue grows until it is full. */
  lemma {:induction false} FilterFidelity(cfg: LogConfig, log: Log, heap: Heap, ref: Ref)
    requires Valid(cfg, log) && ref in heap
    ensures cfg.receiveFilter.ReliableMessages? && heap[ref].Mode() == Unreliable ==>
      AddReceived(cfg, log, heap, ref) == log
    ensures cfg.sendFilter.ReliableMessages? && heap[ref].Mode() == Unreliable ==>
      AddSent(cfg, log, heap, ref) == log
    ensures cfg.receiveFilter.AllMessages? ==>
      var r := AddReceived(cfg, log, heap, ref).received;
      && r[|r| - 1] == ref
      && |r| == if |log.received| < cfg.receivedLimit then |log.received| + 1 else cfg.receivedLimit
  {
  }

  /** A missing-ids request reports itself unreliable, so the reliable-only
      filters, which are the default for both directions, never log it. */
  lemma {:induction false} RequestIsNeverLogged(cfg: LogConfig, log: Log, heap: Heap, ref: Ref)
    requires Valid(cfg, log) && ref in heap && heap[ref].body.RequestSeqIds?
    requires cfg.receiveFilter.ReliableMessages? && cfg.sendFilter.ReliableMessages?
    ensures AddReceived(cfg, log, heap, ref) == log
    ensures AddSent(cfg, log, heap, ref) == log
  {
  }
}
