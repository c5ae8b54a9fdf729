/** `MessageService` (message_service.cpp), proved to be the node of ServiceModel. */
module MessageServices {
  import opened Messages
  import opened StoreModel
  import opened MessageStores
  import opened ServiceModel

  class MessageService {
    const identity: Identity
    const store: MessageStore
    var nextSequence: Sequence
    var events: seq<ChatMessage>
    var broadcasts: seq<ChatMessage>

    ghost predicate Valid()
      reads this, store
    {
      store.Valid()
    }

    ghost function State(): Node
      reads this, store
    {
      Node(identity, store.State(), nextSequence, events)
    }

    /** Restart: the counter continues after the highest sequence on disk. */
    constructor (identity: Identity, store: MessageStore)
      requires store.Valid() && !store.UsedUp(identity.nodeId)
      ensures Valid() && this.store == store && broadcasts == []
      ensures State() == Start(identity, store.State())
      ensures nextSequence == Mark(store.State().marks, identity.nodeId) + 1 && events == []
    {
      var next := store.NextSequence(identity.nodeId);
      this.identity, this.store, nextSequence := identity, store, next.sequence;
      events, broadcasts := [], [];
    }

    method Publish(m: ChatMessage)
      modifies this`events
      ensures events == old(events) + [m]
    {
      events := events + [m];
    }

    method Replicate(m: ChatMessage)
      modifies this`broadcasts
      ensures broadcasts == old(broadcasts) + [m]
    {
      broadcasts := broadcasts + [m];
    }

    method CreateLocal(body: string, now: int) returns (message: ChatMessage, reply: Reply)
      requires Valid()
      modifies this, store
      ensures Valid() && (old(store.MarksReadable()) ==> store.MarksReadable())
      ensures (State(), reply) == ServiceModel.CreateLocal(store.limits, old(State()), body, now)
      ensures message == Draft(old(State()), body, now)
      ensures message.sequence == old(nextSequence)
      ensures message.id == identity.nodeId + ":" + Decimal(old(nextSequence))
      ensures message.origin == identity.nodeId && message.callsign == identity.callsign
      ensures message.channel == "les-manet" && message.createdAtMs == now && message.body == body
      ensures nextSequence == old(nextSequence) + 1
      ensures events == old(events) + (if reply == Accepted then [message] else [])
      ensures broadcasts == old(broadcasts) + (if reply == Accepted then [message] else [])
    {
      message := ChatMessage(nextSequence, MessageId(identity.nodeId, nextSequence), identity.nodeId,
                             identity.callsign, DEFAULT_CHANNEL, now, body);
      nextSequence := nextSequence + 1;
      var outcome := store.Add(message);
      if Throws(outcome) {
        return message, Failed;
      }
      Publish(message);
      Replicate(message);
      reply := Accepted;
    }

    method IngestReplica(message: ChatMessage) returns (reply: Reply)
      requires Valid()
      modifies this, store
      ensures Valid() && broadcasts == old(broadcasts)
      ensures old(store.MarksReadable()) ==> store.MarksReadable()
      ensures (State(), reply) == ServiceModel.IngestReplica(store.limits, old(State()), message)
    {
      var known := store.Contains(message.id);
      if known {
        return Duplicate;
      }
      var outcome := store.Add(message);
      if Throws(outcome) {
        return Failed;
      }
      Publish(message);
      return Accepted;
    }

    method IngestSync(message: ChatMessage) returns (reply: Reply)
      requires Valid()
      modifies this, store
      ensures Valid() && broadcasts == old(broadcasts)
      ensures old(store.MarksReadable()) ==> store.MarksReadable()
      ensures (State(), reply) == ServiceModel.IngestSync(store.limits, old(State()), message)
    {
      var outcome := store.Add(message);
      if Throws(outcome) {
        return Failed;
      }
      if outcome != Inserted {
        return Duplicate;
      }
      Publish(message);
      return Accepted;
    }
  }

  /** Starting a daemon over an opened store; it exits when no next sequence can be given. */
  method Launch(identity: Identity, store: MessageStore) returns (service: MessageService?)
    requires store.Valid()
    ensures service == null <==> store.UsedUp(identity.nodeId)
    ensures service != null ==> fresh(service) && service.Valid() && service.store == store
    ensures service != null ==> service.State() == Start(identity, store.State())
    ensures service != null ==>
              && service.identity == identity && service.events == [] && service.broadcasts == []
              && service.nextSequence == Mark(store.State().marks, identity.nodeId) + 1
  {
    var next := store.NextSequence(identity.nodeId);
    if next.InvalidSequence? {
      return null;
    }
    service := new MessageService(identity, store);
  }
}
