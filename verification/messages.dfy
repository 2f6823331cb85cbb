/** The message entity, its derived lookup key, and the object store that
    holds message instances so that several containers can alias one object. */
module Messages {

  /** A peer identifier (a Java `int`); only compared, never computed with. */
  type PeerId = int

  /** A message sequence identifier (a Java `long`); only compared. */
  type MsgId = int

  /** The identity of a message object. The log keeps references, not copies,
      so a mutation through one reference is seen through every alias. */
  type Ref = nat

  /** The message objects alive in a session, by identity. */
  type Heap = map<Ref, Message>

  /** Delivery guarantee of a message. Modes other than the two this core
      distinguishes are kept opaque. */
  datatype ReliableMode = Unreliable | SequenceNumber | OtherMode(tag: nat)

  /** What a message carries: an application payload sent with a chosen mode,
      or a request for missing sequence ids. */
  datatype Body =
    | Payload(mode: ReliableMode, data: nat)
    | RequestSeqIds(missingIds: seq<MsgId>)

  datatype Message = Message(
    msgId: MsgId,
    senderId: PeerId,
    receiverId: PeerId,
    resendMessage: bool,
    body: Body)
  {
    /** The reliability mode the message reports. A request for missing ids
        always reports `Unreliable`: losing it only delays recovery, since the
        requester asks again. */
    function Mode(): ReliableMode {
      match body
      case Payload(mode, _) => mode
      case RequestSeqIds(_) => Unreliable
    }
  }

  /** The composite identity used to deduplicate and look up sent messages. */
  datatype MessageKey = MessageKey(mode: ReliableMode, peerId: PeerId, msgId: MsgId)

  /** The key under which a sent message is logged: its mode, its receiver and its id. */
  function KeyOf(m: Message): (k: MessageKey)
    ensures k.mode == m.Mode() && k.peerId == m.receiverId && k.msgId == m.msgId
  {
    MessageKey(m.Mode(), m.receiverId, m.msgId)
  }

  /** The key a missing-ids request looks up for one requested id. */
  function SequenceKey(peerId: PeerId, id: MsgId): MessageKey {
    MessageKey(SequenceNumber, peerId, id)
  }

  /** A new request for the given missing ids, addressed to `receiverId`. Fields
      the constructor does not set keep their Java defaults (zero, false). */
  function NewRequest(missingIds: seq<MsgId>, receiverId: PeerId): (m: Message)
    ensures m.receiverId == receiverId
    ensures m.body.RequestSeqIds? && m.body.missingIds == missingIds
    ensures m.Mode() == Unreliable
    ensures !m.resendMessage
  {
    Message(0, 0, receiverId, false, RequestSeqIds(missingIds))
  }

  /** A message prepared for retransmission to `requester`: the receiver is
      rebound and the resend flag is raised; identity and payload are kept. */
  function Rebind(m: Message, requester: PeerId): (r: Message)
    ensures r.receiverId == requester && r.resendMessage
    ensures r.msgId == m.msgId && r.senderId == m.senderId && r.body == m.body
    ensures r.Mode() == m.Mode()
  {
    m.(receiverId := requester, resendMessage := true)
  }

  /** Rebinding an already rebound message to the same requester changes nothing,
      so a message resent twice in one request is sent in the same shape. */
  lemma {:induction false} RebindIdempotent(m: Message, requester: PeerId)
    ensures Rebind(Rebind(m, requester), requester) == Rebind(m, requester)
  {
  }
}
