/**
 What each event asks of the writer, told by the event's own fields: the codes of im-common/src/event.rs and the
 branches of background_writer/mod.rs, with no reference to how an effect is computed.
 */
module EventLaws {
  import opened Options
  import opened Events

  predicate CodeIs(status: Status, code: int) {
    || (status.Sent? && code == 1)
    || (status.Delivered? && code == 2)
    || (status.Read? && code == 3)
    || (status.Recalled? && code == 4)
    || (status.Deleted? && code == 5)
  }

  /** A created message with a positive id, and the code of its own status. */
  predicate CreatesMessage(payload: Payload, m: int, code: int) {
    && payload.Json? && payload.event.eventType.MessageCreated?
    && payload.event.payload.Some? && payload.event.payload.value.id == Some(m) && m > 0
    && CodeIs(payload.event.payload.value.status, code)
  }

  /** A recall or delete of `m`: the status it names, and otherwise 4 for a recall and 5 for a delete. */
  predicate SetsStatus(payload: Payload, m: int, code: int) {
    && payload.Json? && payload.event.messageId == Some(m)
    && (payload.event.eventType.MessageRecalled? || payload.event.eventType.MessageDeleted?)
    && (match payload.event.newStatus
        case Some(status) => CodeIs(status, code)
        case None => code == if payload.event.eventType.MessageDeleted? then 5 else 4)
  }

  predicate IsReceipt(payload: Payload, reader: int, at: int) {
    && payload.Json? && payload.event.eventType.MessageRead? && payload.event.readReceipt.Some?
    && payload.event.readReceipt.value.readerId == Some(reader) && payload.event.readReceipt.value.readAt == at
  }

  /** The id of the group, when it is there and parses. */
  predicate NamesGroup(event: ImEvent, group: int) {
    event.groupId == Some(Some(group))
  }

  predicate NamesNoGroup(event: ImEvent) {
    event.groupId == None || event.groupId == Some(None)
  }

  /** The target of the event, or the addressee of the receipt if the event has none. */
  predicate NamesPeer(event: ImEvent, peer: int) {
    || event.targetUserId == Some(peer)
    || (event.targetUserId == None && event.readReceipt.Some? && event.readReceipt.value.toUserId == Some(peer))
  }

  predicate PrivateReceipt(payload: Payload, user: int, peer: int, at: int) {
    IsReceipt(payload, user, at) && NamesNoGroup(payload.event) && NamesPeer(payload.event, peer)
  }

  predicate GroupReceipt(payload: Payload, group: int, reader: int, at: int, readSeq: int, messageId: Option<int>) {
    && IsReceipt(payload, reader, at) && NamesGroup(payload.event, group)
    && payload.event.readReceipt.value.lastReadMessageId == messageId
    && (payload.event.readReceipt.value.lastReadSeq == Some(readSeq)
        || (payload.event.readReceipt.value.lastReadSeq == None && readSeq == 0))
  }

  /** Text that is no event, or a receipt without a reader, or one that names neither a group nor a peer. */
  predicate NeverAcknowledged(payload: Payload) {
    || payload.NotJson?
    || (payload.event.eventType.MessageRead?
        && (|| payload.event.readReceipt == None
            || payload.event.readReceipt.value.readerId == None
            || (NamesNoGroup(payload.event) && payload.event.targetUserId == None
                && payload.event.readReceipt.value.toUserId == None)))
  }

  // ---------- the effect of an event is what its fields ask for ----------

  lemma CodesAre(status: Status)
    ensures CodeIs(status, status.Code())
    ensures forall code :: CodeIs(status, code) ==> code == status.Code()
  {
  }

  lemma CreateEffect(payload: Payload, m: int, code: int)
    ensures CreatesMessage(payload, m, code) <==>
      && EffectOf(payload).Insert? && EffectOf(payload).message.id == Some(m) && m > 0
      && EffectOf(payload).message.status.Code() == code
    ensures EffectOf(payload).Insert? ==>
      payload.Json? && payload.event.payload == Some(EffectOf(payload).message)
  {
  }

  lemma StatusEffect(payload: Payload, m: int, code: int)
    ensures SetsStatus(payload, m, code) <==>
      EffectOf(payload).SetStatus? && EffectOf(payload).id == m && EffectOf(payload).code == code
    ensures EffectOf(payload).SetStatus? ==> payload.Json? && EffectOf(payload).at == payload.event.timestamp
  {
  }

  lemma PrivateEffect(payload: Payload, user: int, peer: int, at: int)
    ensures PrivateReceipt(payload, user, peer, at) <==> EffectOf(payload) == ReadPrivate(PrivateCursor(user, peer, at))
  {
  }

  lemma GroupEffect(payload: Payload, group: int, reader: int, at: int, readSeq: int, messageId: Option<int>)
    ensures GroupReceipt(payload, group, reader, at, readSeq, messageId)
      <==> EffectOf(payload) == ReadGroup(GroupCursor(group, reader, at, readSeq, messageId))
  {
  }

  /** What is never acknowledged, and what is acknowledged without an effect. */
  lemma NoEffect(payload: Payload)
    ensures EffectOf(payload).Malformed? <==> NeverAcknowledged(payload)
    ensures EffectOf(payload).Nothing? <==>
      && payload.Json?
      && match payload.event.eventType
         case MessageCreated => payload.event.payload == None
         case MessageRead => false
         case MessageRecalled | MessageDeleted => payload.event.messageId == None
         case _ => true
  {
  }
}
