/** Gap recovery: a peer that noticed missing sequence ids sends a request
    naming them; processing the request resends every requested message the
    log still indexes and reports every one it does not. The collaborators
    the processing talks to (sender, event log, resend counter, network
    quality estimator, id policy, clock) are inputs and an output trace. */
module RequestSeqIds {
  import opened Wrappers
  import opened Messages
  import opened MessageLog

  /** A clock reading; only passed through. */
  type Timestamp = int

  /** What processing reads from the session: whether every client gets its
      own sequence numbering, which peers have client state, and the time. */
  datatype Env = Env(resolveEveryClientMessage: bool, clientStates: set<PeerId>, now: Timestamp)

  /** One observable call made while processing a request. */
  datatype Effect =
    | RequestedMissingMessages(peer: PeerId, count: nat, time: Timestamp)
    | Resent(ref: Ref, msg: Message)
    | NotInLogEvent(key: MessageKey, requester: PeerId)
  {
    function Kind(): EffectKind {
      match this
      case RequestedMissingMessages(_, _, _) => QualityKind
      case Resent(_, _) => SendKind
      case NotInLogEvent(_, _) => EventKind
    }
  }

  datatype EffectKind = QualityKind | SendKind | EventKind

  /** How many effects of `t` are of kind `k`. */
  function Count(t: seq<Effect>, k: EffectKind): nat
    decreases |t|
  {
    if t == [] then 0
    else Count(t[..|t| - 1], k) + (if t[|t| - 1].Kind() == k then 1 else 0)
  }

  lemma {:induction false} CountAppend(t: seq<Effect>, e: Effect, k: EffectKind)
    ensures Count(t + [e], k) == Count(t, k) + (if e.Kind() == k then 1 else 0)
  {
    assert (t + [e])[..|t|] == t;
  }

  /** The state processing threads through: the heap of message objects
      (mutated in place on resend), the calls made so far, and the
      resent-messages counter. */
  datatype Progress = Progress(heap: Heap, trace: seq<Effect>, resentMessages: nat)

  /** The peer id used in lookup keys: the requester's own id under per-client
      numbering, and `0` when every client sees the same id for a message. */
  function KeyIdFor(env: Env, senderId: PeerId): (r: PeerId)
    ensures env.resolveEveryClientMessage ==> r == senderId
    ensures !env.resolveEveryClientMessage ==> r == 0
  {
    if env.resolveEveryClientMessage then senderId else 0
  }

  /** The loss signal: one call to the requester's quality estimator with the
      number of ids requested, if the requester has client state. */
  function DegradeNetworkQuality(env: Env, senderId: PeerId, count: nat): (r: seq<Effect>)
    ensures senderId in env.clientStates ==> r == [RequestedMissingMessages(senderId, count, env.now)]
    ensures senderId !in env.clientStates ==> r == []
  {
    if senderId in env.clientStates then [RequestedMissingMessages(senderId, count, env.now)] else []
  }

  /** The call processing makes for one requested id, given the heap as it is:
      the rebound message if the log indexes the id, a not-found event if not. */
  function LookupEffect(log: Log, heap: Heap, keyId: PeerId, requester: PeerId, id: MsgId): (e: Effect)
    requires RefsIn(log, heap)
    ensures e.Resent? <==> SequenceKey(keyId, id) in log.sentMap.entries
    ensures e.Resent? ==>
      && e.ref == log.sentMap.entries[SequenceKey(keyId, id)] && e.ref in heap
      && e.msg == Rebind(heap[e.ref], requester)
    ensures !e.Resent? ==> e == NotInLogEvent(SequenceKey(keyId, id), requester)
  {
    var key := SequenceKey(keyId, id);
    match GetSent(log, key)
    case None => NotInLogEvent(key, requester)
    case Some(ref) => Resent(ref, Rebind(heap[ref], requester))
  }

  /** One iteration of the lookup loop. A found message is mutated in place,
      handed to the sender and counted; a missing one is only reported. */
  function ResendStep(log: Log, keyId: PeerId, requester: PeerId, st: Progress, id: MsgId): (r: Progress)
    requires RefsIn(log, st.heap)
    ensures r.heap.Keys == st.heap.Keys
    ensures RefsIn(log, r.heap)
  {
    var e := LookupEffect(log, st.heap, keyId, requester, id);
    if e.Resent? then
      Progress(st.heap[e.ref := e.msg], st.trace + [e], st.resentMessages + 1)
    else
      st.(trace := st.trace + [e])
  }

  /** The lookup loop over `ids`, in request order. */
  function ResolveAll(log: Log, keyId: PeerId, requester: PeerId, init: Progress, ids: seq<MsgId>): (r: Progress)
    requires RefsIn(log, init.heap)
    ensures r.heap.Keys == init.heap.Keys
    ensures RefsIn(log, r.heap)
    ensures |r.trace| == |init.trace| + |ids|
    decreases |ids|
  {
    if ids == [] then init
    else ResendStep(log, keyId, requester, ResolveAll(log, keyId, requester, init, ids[..|ids| - 1]), ids[|ids| - 1])
  }

  /** Processing of a missing-ids request `req` from its sender. */
  function Process(req: Message, env: Env, log: Log, heap: Heap, resentMessages: nat): (r: Progress)
    requires req.body.RequestSeqIds? && RefsIn(log, heap)
    ensures r.heap.Keys == heap.Keys
    ensures |r.trace| == (if req.senderId in env.clientStates then 1 else 0) + |req.body.missingIds|
  {
    var ids := req.body.missingIds;
    var keyId := KeyIdFor(env, req.senderId);
    var hook := DegradeNetworkQuality(env, req.senderId, |ids|);
    ResolveAll(log, keyId, req.senderId, Progress(heap, hook, resentMessages), ids)
  }

  /** The same processing written as the source's loop, with an early
      `continue` for ids that are not in the log. */
  method ProcessLoop(req: Message, env: Env, log: Log, heap0: Heap, resent0: nat)
    returns (heap: Heap, trace: seq<Effect>, resentMessages: nat)
    requires req.body.RequestSeqIds? && RefsIn(log, heap0)
    ensures Progress(heap, trace, resentMessages) == Process(req, env, log, heap0, resent0)
  {
    var senderId := req.senderId;
    var ids := req.body.missingIds;
    var keySenderId := senderId;
    if !env.resolveEveryClientMessage {
      keySenderId := 0;
    }
    trace := DegradeNetworkQuality(env, senderId, |ids|);
    heap := heap0;
    resentMessages := resent0;
    ghost var init := Progress(heap0, trace, resent0);
    for i := 0 to |ids|
      invariant Progress(heap, trace, resentMessages) == ResolveAll(log, keySenderId, senderId, init, ids[..i])
    {
      ResolveAllPrefix(log, keySenderId, senderId, init, ids, i);
      var key := SequenceKey(keySenderId, ids[i]);
      var found := GetSent(log, key);
      if found.None? {
        trace := trace + [NotInLogEvent(key, senderId)];
        continue;
      }
      var message := Rebind(heap[found.value], senderId);
      heap := heap[found.value := message];
      trace := trace + [Resent(found.value, message)];
      resentMessages := resentMessages + 1;
    }
    assert ids[..|ids|] == ids;
  }

  /** The lookup loop over one more id is one more step. */
  lemma {:induction false} ResolveAllPrefix(log: Log, keyId: PeerId, requester: PeerId, init: Progress, ids: seq<MsgId>, i: nat)
    requires RefsIn(log, init.heap) && i < |ids|
    ensures ResolveAll(log, keyId, requester, init, ids[..i + 1])
         == ResendStep(log, keyId, requester, ResolveAll(log, keyId, requester, init, ids[..i]), ids[i])
  {
    assert ids[..i + 1][..i] == ids[..i];
  }

  /** How many of `ids` the log indexes under the lookup key for `keyId`. */
  function FoundCount(log: Log, keyId: PeerId, ids: seq<MsgId>): nat
    decreases |ids|
  {
    if ids == [] then 0
    else
      FoundCount(log, keyId, ids[..|ids| - 1])
      + (if SequenceKey(keyId, ids[|ids| - 1]) in log.sentMap.entries then 1 else 0)
  }

  /** The log indexes `x` under the lookup key of one of `ids`. */
  ghost predicate Requested(log: Log, keyId: PeerId, ids: seq<MsgId>, x: Ref) {
    exists i :: 0 <= i < |ids| && GetSent(log, SequenceKey(keyId, ids[i])) == Some(x)
  }

  /** The loop sends once per found id, reports once per missing id, counts
      exactly its sends, and never calls the quality estimator. */
  lemma {:induction false} ResolveAllCounts(log: Log, keyId: PeerId, requester: PeerId, init: Progress, ids: seq<MsgId>)
    requires RefsIn(log, init.heap)
    ensures var r := ResolveAll(log, keyId, requester, init, ids);
      && Count(r.trace, SendKind) == Count(init.trace, SendKind) + FoundCount(log, keyId, ids)
      && Count(r.trace, EventKind) + FoundCount(log, keyId, ids) == Count(init.trace, EventKind) + |ids|
      && Count(r.trace, QualityKind) == Count(init.trace, QualityKind)
      && r.resentMessages == init.resentMessages + FoundCount(log, keyId, ids)
    decreases |ids|
  {
    if ids != [] {
      var pre := ids[..|ids| - 1];
      var id := ids[|ids| - 1];
      ResolveAllCounts(log, keyId, requester, init, pre);
      var st := ResolveAll(log, keyId, requester, init, pre);
      var e := LookupEffect(log, st.heap, keyId, requester, id);
      assert ResolveAll(log, keyId, requester, init, ids).trace == st.trace + [e];
      CountAppend(st.trace, e, SendKind);
      CountAppend(st.trace, e, EventKind);
      CountAppend(st.trace, e, QualityKind);
    }
  }

  /** After the loop, exactly the requested messages the log indexes have been
      rebound to the requester and flagged as resent, in place; every other
      object is untouched. */
  lemma {:induction false} ResolveAllHeap(log: Log, keyId: PeerId, requester: PeerId, init: Progress, ids: seq<MsgId>)
    requires RefsIn(log, init.heap)
    ensures var r := ResolveAll(log, keyId, requester, init, ids);
      forall x :: x in init.heap ==>
        r.heap[x] == if Requested(log, keyId, ids, x) then Rebind(init.heap[x], requester) else init.heap[x]
    decreases |ids|
  {
    var r := ResolveAll(log, keyId, requester, init, ids);
    if ids == [] {
      forall x | x in init.heap
        ensures !Requested(log, keyId, ids, x)
      {
      }
    } else {
      var pre := ids[..|ids| - 1];
      var id := ids[|ids| - 1];
      ResolveAllHeap(log, keyId, requester, init, pre);
      var st := ResolveAll(log, keyId, requester, init, pre);
      var e := LookupEffect(log, st.heap, keyId, requester, id);
      forall x | x in init.heap
        ensures r.heap[x] == if Requested(log, keyId, ids, x) then Rebind(init.heap[x], requester) else init.heap[x]
      {
        if Requested(log, keyId, pre, x) {
          var i :| 0 <= i < |pre| && GetSent(log, SequenceKey(keyId, pre[i])) == Some(x);
          assert ids[i] == pre[i];
          assert Requested(log, keyId, ids, x);
        }
        if e.Resent? && e.ref == x {
          assert GetSent(log, SequenceKey(keyId, ids[|ids| - 1])) == Some(x);
          assert Requested(log, keyId, ids, x);
          RebindIdempotent(init.heap[x], requester);
        } else if Requested(log, keyId, ids, x) {
          var i :| 0 <= i < |ids| && GetSent(log, SequenceKey(keyId, ids[i])) == Some(x);
          assert i < |pre| && pre[i] == ids[i];
          assert Requested(log, keyId, pre, x);
        }
      }
    }
  }

  /** Earlier resends of a request do not change what a later id calls for:
      rebinding a message that was already rebound gives the same message. */
  lemma {:induction false} LookupAfterResends(log: Log, keyId: PeerId, requester: PeerId, init: Progress, pre: seq<MsgId>, id: MsgId)
    requires RefsIn(log, init.heap)
    ensures LookupEffect(log, ResolveAll(log, keyId, requester, init, pre).heap, keyId, requester, id)
         == LookupEffect(log, init.heap, keyId, requester, id)
  {
    ResolveAllHeap(log, keyId, requester, init, pre);
    var e := LookupEffect(log, ResolveAll(log, keyId, requester, init, pre).heap, keyId, requester, id);
    if e.Resent? {
      RebindIdempotent(init.heap[e.ref], requester);
    }
  }

  /** The `i`-th call the loop makes is the one `ids[i]` calls for, judged
      against the heap as it was before processing: each found id resends its
      logged message rebound to the requester, each missing id produces one
      not-found event, in request order. */
  lemma {:induction false} ResolveAllEffects(log: Log, keyId: PeerId, requester: PeerId, init: Progress, ids: seq<MsgId>)
    requires RefsIn(log, init.heap)
    ensures var r := ResolveAll(log, keyId, requester, init, ids);
      && r.trace[..|init.trace|] == init.trace
      && forall i :: 0 <= i < |ids| ==>
        r.trace[|init.trace| + i] == LookupEffect(log, init.heap, keyId, requester, ids[i])
    decreases |ids|
  {
    if ids != [] {
      var pre := ids[..|ids| - 1];
      var id := ids[|ids| - 1];
      ResolveAllEffects(log, keyId, requester, init, pre);
      LookupAfterResends(log, keyId, requester, init, pre, id);
      var st := ResolveAll(log, keyId, requester, init, pre);
      var r := ResolveAll(log, keyId, requester, init, ids);
      assert r.trace == st.trace + [LookupEffect(log, init.heap, keyId, requester, id)];
      forall i | 0 <= i < |ids|
        ensures r.trace[|init.trace| + i] == LookupEffect(log, init.heap, keyId, requester, ids[i])
      {
        if i < |pre| {
          assert ids[i] == pre[i];
        }
      }
    }
  }

  /** One request: the quality estimator is called once, first, with the
      number of ids requested, exactly when the requester has client state and
      whatever the lookups find; sends and not-found events together account
      for every requested id; the counter grows by the number of sends. */
  lemma {:induction false} ProcessCounts(req: Message, env: Env, log: Log, heap: Heap, resentMessages: nat)
    requires req.body.RequestSeqIds? && RefsIn(log, heap)
    ensures var ids := req.body.missingIds;
      var r := Process(req, env, log, heap, resentMessages);
      && Count(r.trace, QualityKind) == (if req.senderId in env.clientStates then 1 else 0)
      && (req.senderId in env.clientStates ==>
            r.trace[0] == RequestedMissingMessages(req.senderId, |ids|, env.now))
      && Count(r.trace, SendKind) == FoundCount(log, KeyIdFor(env, req.senderId), ids)
      && Count(r.trace, SendKind) + Count(r.trace, EventKind) == |ids|
      && r.resentMessages == resentMessages + Count(r.trace, SendKind)
  {
    var ids := req.body.missingIds;
    var keyId := KeyIdFor(env, req.senderId);
    var hook := DegradeNetworkQuality(env, req.senderId, |ids|);
    var init := Progress(heap, hook, resentMessages);
    ResolveAllCounts(log, keyId, req.senderId, init, ids);
    ResolveAllEffects(log, keyId, req.senderId, init, ids);
    if req.senderId in env.clientStates {
      assert hook == [] + [hook[0]];
      CountAppend([], hook[0], QualityKind);
      CountAppend([], hook[0], SendKind);
      CountAppend([], hook[0], EventKind);
      assert Process(req, env, log, heap, resentMessages).trace[..1] == hook;
    }
  }

  /** One request, call by call: after the optional quality call, the `i`-th
      call answers the `i`-th requested id, looked up under the key built from
      the sequence-number mode, the effective peer id and that id; the found
      messages, and only those, are mutated in the heap. */
  lemma {:induction false} ProcessEffects(req: Message, env: Env, log: Log, heap: Heap, resentMessages: nat)
    requires req.body.RequestSeqIds? && RefsIn(log, heap)
    ensures var ids := req.body.missingIds;
      var r := Process(req, env, log, heap, resentMessages);
      var keyId := KeyIdFor(env, req.senderId);
      var n := if req.senderId in env.clientStates then 1 else 0;
      && |r.trace| == n + |ids|
      && (forall i :: 0 <= i < |ids| ==>
            r.trace[n + i] == LookupEffect(log, heap, keyId, req.senderId, ids[i]))
      && r.heap.Keys == heap.Keys
      && (forall x :: x in heap ==>
            r.heap[x] == if Requested(log, keyId, ids, x) then Rebind(heap[x], req.senderId) else heap[x])
  {
    var ids := req.body.missingIds;
    var keyId := KeyIdFor(env, req.senderId);
    var init := Progress(heap, DegradeNetworkQuality(env, req.senderId, |ids|), resentMessages);
    ResolveAllEffects(log, keyId, req.senderId, init, ids);
    ResolveAllHeap(log, keyId, req.senderId, init, ids);
  }

  /** The resend mutates the logged object itself, so every position of the
      sent queue holding it now shows the requester as receiver and the
      resend flag raised. */
  lemma {:induction false} ResendVisibleThroughSentQueue(req: Message, env: Env, log: Log, heap: Heap, resentMessages: nat, i: nat, j: nat)
    requires req.body.RequestSeqIds? && RefsIn(log, heap)
    requires i < |req.body.missingIds| && j < |log.sent|
    requires GetSent(log, SequenceKey(KeyIdFor(env, req.senderId), req.body.missingIds[i])) == Some(log.sent[j])
    ensures var h := Process(req, env, log, heap, resentMessages).heap;
      h[log.sent[j]].receiverId == req.senderId && h[log.sent[j]].resendMessage
  {
    ProcessEffects(req, env, log, heap, resentMessages);
    assert Requested(log, KeyIdFor(env, req.senderId), req.body.missingIds, log.sent[j]);
  }

  /** Round trip: a sequenced message logged by `AddSent` under a fresh key,
      followed by any further log calls that leave its key indexed, is resent
      when its receiver, under per-client numbering, asks for its id. */
  lemma {:induction false} LoggedMessageIsResent(cfg: LogConfig, log: Log, heap: Heap, ref: Ref, ops: seq<LogOp>,
                              env: Env, req: Message, resentMessages: nat, i: nat)
    requires Valid(cfg, log) && RefsIn(log, heap) && ref in heap && 1 <= cfg.sentMapLimit
    requires heap[ref].Mode() == SequenceNumber && Accepts(cfg.sendFilter, heap[ref])
    requires KeyOf(heap[ref]) !in log.sentMap.entries
    requires forall j :: 0 <= j < |ops| ==> ops[j].ref in heap
    requires StaysIndexed(cfg, AddSent(cfg, log, heap, ref), heap, ops, KeyOf(heap[ref]))
    requires env.resolveEveryClientMessage
    requires req.body.RequestSeqIds? && req.senderId == heap[ref].receiverId
    requires i < |req.body.missingIds| && req.body.missingIds[i] == heap[ref].msgId
    ensures var later := Replay(cfg, AddSent(cfg, log, heap, ref), heap, ops);
      var n := if req.senderId in env.clientStates then 1 else 0;
      var r := Process(req, env, later, heap, resentMessages);
      r.trace[n + i] == Resent(ref, heap[ref].(resendMessage := true))
  {
    var key := KeyOf(heap[ref]);
    var logged := AddSent(cfg, log, heap, ref);
    var later := Replay(cfg, logged, heap, ops);
    ReplayKeepsIndexed(cfg, logged, heap, ops, key);
    assert later.sentMap.entries[key] == ref;
    assert SequenceKey(req.senderId, heap[ref].msgId) == key;
    ProcessEffects(req, env, later, heap, resentMessages);
  }

  /** Under global numbering, two requesters asking for the same ids are
      answered from the same logged messages, id by id. */
  lemma {:induction false} GlobalNumberingSharesLookups(req1: Message, req2: Message, env: Env, log: Log, heap: Heap, c1: nat, c2: nat)
    requires req1.body.RequestSeqIds? && req2.body.RequestSeqIds? && RefsIn(log, heap)
    requires req1.body.missingIds == req2.body.missingIds
    requires !env.resolveEveryClientMessage
    ensures var ids := req1.body.missingIds;
      var r1 := Process(req1, env, log, heap, c1);
      var r2 := Process(req2, env, log, heap, c2);
      var n1 := if req1.senderId in env.clientStates then 1 else 0;
      var n2 := if req2.senderId in env.clientStates then 1 else 0;
      var t1 := r1.trace[n1..];
      var t2 := r2.trace[n2..];
      && |t1| == |t2| == |ids|
      && forall i :: 0 <= i < |t1| ==>
        && (t1[i].Resent? <==> t2[i].Resent?)
        && (t1[i].Resent? ==> t1[i].ref == t2[i].ref)
  {
    var ids := req1.body.missingIds;
    ProcessEffects(req1, env, log, heap, c1);
    ProcessEffects(req2, env, log, heap, c2);
    var r1 := Process(req1, env, log, heap, c1);
    var r2 := Process(req2, env, log, heap, c2);
    var n1 := if req1.senderId in env.clientStates then 1 else 0;
    var n2 := if req2.senderId in env.clientStates then 1 else 0;
    forall i | 0 <= i < |ids|
      ensures r1.trace[n1..][i].Resent? <==> r2.trace[n2..][i].Resent?
      ensures r1.trace[n1..][i].Resent? ==> r1.trace[n1..][i].ref == r2.trace[n2..][i].ref
    {
      assert r1.trace[n1..][i] == LookupEffect(log, heap, 0, req1.senderId, ids[i]);
      assert r2.trace[n2..][i] == LookupEffect(log, heap, 0, req2.senderId, ids[i]);
    }
  }
}
