/**
 The event carried by the outbox, the Redis streams and the writer (im-common/src/event.rs),
 and the effect the background writer gives to each event.

 Text fields that the writer only ever parses as an integer are held as the outcome of that parse:
 `None` stands both for an absent field and for one that does not parse, except in `groupId`, where
 the presence of the field is itself looked at when a stream is chosen.
 */
module Events {
  import opened Options

  datatype Status = Sent | Delivered | Read | Recalled | Deleted {
    /** The code stored in `messages.status`. */
    function Code(): (code: int)
      ensures 1 <= code <= 5
    {
      match this
      case Sent => 1
      case Delivered => 2
      case Read => 3
      case Recalled => 4
      case Deleted => 5
    }
  }

  /** A message as a create event carries it; `body` stands for every column written only by the first insert. */
  datatype Message = Message(
    id: Option<int>,
    status: Status,
    conversationSeq: Option<int>,
    isGroupChat: bool,
    updatedAt: int,
    body: string)

  datatype Receipt = Receipt(
    readerId: Option<int>,
    toUserId: Option<int>,
    readAt: int,
    lastReadSeq: Option<int>,
    lastReadMessageId: Option<int>)

  /** A uuid in its text form. */
  datatype EventId = EventId(text: string)

  datatype EventType =
    | MessageCreated
    | MessageRead
    | MessageRecalled
    | MessageDeleted
    | FriendRequestCreated
    | FriendRequestAccepted
    | MomentNew
    | MomentLike
    | MomentComment

  datatype ImEvent = ImEvent(
    eventId: EventId,
    eventType: EventType,
    messageId: Option<int>,
    group: bool,
    groupId: Option<Option<int>>,
    targetUserId: Option<int>,
    newStatus: Option<Status>,
    payload: Option<Message>,
    readReceipt: Option<Receipt>,
    timestamp: int)

  /** The text stored under an event key or in a stream entry: JSON of an event, or text that is not. */
  datatype Payload = Json(event: ImEvent) | NotJson

  datatype PrivateCursor = PrivateCursor(user: int, peer: int, readAt: int)

  datatype GroupCursor = GroupCursor(group: int, user: int, readAt: int, readSeq: int, messageId: Option<int>)

  /**
   What the writer does with a stream entry. `Nothing` is acknowledged without touching a table;
   `Malformed` is neither applied nor acknowledged.
   */
  datatype Effect =
    | Insert(message: Message)
    | SetStatus(id: int, code: int, at: int)
    | ReadPrivate(private: PrivateCursor)
    | ReadGroup(group: GroupCursor)
    | Nothing
    | Malformed

  function GroupIdOf(event: ImEvent): Option<int> {
    event.groupId.GetOr(None)
  }

  function StatusCodeOf(event: ImEvent): int {
    match event.newStatus
    case Some(status) => status.Code()
    case None => if event.eventType.MessageDeleted? then Deleted.Code() else Recalled.Code()
  }

  function ReadEffectOf(event: ImEvent): Effect {
    match event.readReceipt
    case None => Malformed
    case Some(receipt) =>
      match receipt.readerId
      case None => Malformed
      case Some(reader) =>
        match GroupIdOf(event)
        case Some(group) =>
          ReadGroup(GroupCursor(group, reader, receipt.readAt, receipt.lastReadSeq.GetOr(0), receipt.lastReadMessageId))
        case None =>
          match event.targetUserId.OrElse(receipt.toUserId)
          case None => Malformed
          case Some(peer) => ReadPrivate(PrivateCursor(reader, peer, receipt.readAt))
  }

  function EffectOf(payload: Payload): Effect {
    match payload
    case NotJson => Malformed
    case Json(event) =>
      match event.eventType
      case MessageCreated => if event.payload.Some? then Insert(event.payload.value) else Nothing
      case MessageRead => ReadEffectOf(event)
      case MessageRecalled | MessageDeleted =>
        if event.messageId.Some? then SetStatus(event.messageId.value, StatusCodeOf(event), event.timestamp) else Nothing
      case _ => Nothing
  }

  /** An entry whose handling changes a table. */
  predicate Effectful(effect: Effect) {
    !effect.Nothing? && !effect.Malformed?
  }
}
