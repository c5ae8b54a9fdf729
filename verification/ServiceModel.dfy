/** What `MessageService` means: one node's volatile state over its store. */
module ServiceModel {
  import opened Messages
  import opened StoreModel

  datatype Identity = Identity(nodeId: string, callsign: string)

  /** `events` is everything published to subscribers in this process lifetime. */
  datatype Node = Node(identity: Identity, store: Store, next: Sequence, events: seq<ChatMessage>)

  datatype Reply = Accepted | Duplicate | Failed

  /** `add` throws when the second try still meets a full database, or on a sequence SQLite cannot hold. */
  predicate Throws(outcome: Outcome) {
    outcome == Full || outcome == OutOfRange
  }

  function Draft(node: Node, body: string, now: int): ChatMessage {
    ChatMessage(node.next, MessageId(node.identity.nodeId, node.next), node.identity.nodeId,
                node.identity.callsign, DEFAULT_CHANNEL, now, body)
  }

  /** The result of `add` is ignored here, an exception is not. */
  function CreateLocal(limits: Limits, node: Node, body: string, now: int): (Node, Reply) {
    var m := Draft(node, body, now);
    var (store, outcome) := Add(limits, node.store, m);
    var counted := node.(store := store, next := node.next + 1);
    if Throws(outcome) then (counted, Failed) else (counted.(events := node.events + [m]), Accepted)
  }

  /**
   * What `create_local` makes and does: a message of the node's own name, next
   * sequence and callsign, stamped with the time of the call, on the default
   * channel; the counter moves on in every case; the message is published unless
   * the add throws.
   */
  lemma CreateExactly(limits: Limits, node: Node, body: string, now: int)
    ensures var m := Draft(node, body, now);
            && m.sequence == node.next && m.id == node.identity.nodeId + ":" + Decimal(node.next)
            && m.origin == node.identity.nodeId && m.callsign == node.identity.callsign
            && m.channel == "les-manet" && m.createdAtMs == now && m.body == body
    ensures var (after, reply) := CreateLocal(limits, node, body, now);
            var (store, outcome) := Add(limits, node.store, Draft(node, body, now));
            && after.identity == node.identity && after.next == node.next + 1 && after.store == store
            && (reply == Failed <==> outcome == Full || outcome == OutOfRange)
            && (reply == Accepted <==> outcome == Inserted || outcome == Ignored)
            && after.events == node.events + if reply == Accepted then [Draft(node, body, now)] else []
  {
  }

  predicate HasId(table: seq<ChatMessage>, id: string) {
    exists i :: 0 <= i < |table| && table[i].id == id
  }

  function IngestReplica(limits: Limits, node: Node, m: ChatMessage): (Node, Reply) {
    if HasId(node.store.table, m.id) then (node, Duplicate)
    else
      var (store, outcome) := Add(limits, node.store, m);
      if Throws(outcome) then (node.(store := store), Failed)
      else (node.(store := store, events := node.events + [m]), Accepted)
  }

  function IngestSync(limits: Limits, node: Node, m: ChatMessage): (Node, Reply) {
    var (store, outcome) := Add(limits, node.store, m);
    if Throws(outcome) then (node.(store := store), Failed)
    else if outcome == Ignored then (node.(store := store), Duplicate)
    else (node.(store := store, events := node.events + [m]), Accepted)
  }

  /**
   * The replication endpoint: a known id is a duplicate and changes nothing; else
   * the store is asked, and whatever it says short of throwing is an acceptance.
   */
  lemma ReplicaExactly(limits: Limits, node: Node, m: ChatMessage)
    ensures var (after, reply) := IngestReplica(limits, node, m);
            var (store, outcome) := Add(limits, node.store, m);
            var known := exists row :: row in node.store.table && row.id == m.id;
            && (reply == Duplicate <==> known)
            && (reply == Failed <==> !known && (outcome == Full || outcome == OutOfRange))
            && (reply == Accepted <==> !known && (outcome == Inserted || outcome == Ignored))
            && after.store == (if known then node.store else store)
            && after.events == node.events + (if reply == Accepted then [m] else [])
            && after.identity == node.identity && after.next == node.next
  {
    var table := node.store.table;
    if HasId(table, m.id) {
      var i :| 0 <= i < |table| && table[i].id == m.id;
      assert table[i] in table;
    }
  }

  /** The sync endpoint: accepted, counted and published if stored, a duplicate if ignored, else an error. */
  lemma SyncExactly(limits: Limits, node: Node, m: ChatMessage)
    ensures var (after, reply) := IngestSync(limits, node, m);
            var (store, outcome) := Add(limits, node.store, m);
            && (reply == Accepted <==> outcome == Inserted)
            && (reply == Duplicate <==> outcome == Ignored)
            && (reply == Failed <==> outcome == Full || outcome == OutOfRange)
            && after.store == store
            && after.events == node.events + (if reply == Accepted then [m] else [])
            && after.identity == node.identity && after.next == node.next
  {
  }

  datatype BatchResult = BatchResult(node: Node, accepted: nat, failed: bool)

  /** The next message of a batch; an exception leaves the rest unread. */
  function IngestOne(limits: Limits, before: BatchResult, m: ChatMessage): BatchResult {
    if before.failed then before
    else
      var (after, reply) := IngestSync(limits, before.node, m);
      BatchResult(after, before.accepted + (if reply == Accepted then 1 else 0), reply == Failed)
  }

  /** The messages of one batch in turn. */
  function IngestBatch(limits: Limits, node: Node, batch: seq<ChatMessage>): (r: BatchResult)
    ensures r.accepted <= |batch|
  {
    if batch == [] then BatchResult(node, 0, false)
    else IngestOne(limits, IngestBatch(limits, node, batch[..|batch| - 1]), batch[|batch| - 1])
  }

  /** A batch is its messages one after the other, up to the first that fails. */
  lemma BatchInTurn(limits: Limits, node: Node, batch: seq<ChatMessage>, m: ChatMessage)
    ensures IngestBatch(limits, node, []) == BatchResult(node, 0, false)
    ensures var before, r := IngestBatch(limits, node, batch), IngestBatch(limits, node, batch + [m]);
            if before.failed then r == before
            else
              var (after, reply) := IngestSync(limits, before.node, m);
              && r.node == after && (r.failed <==> reply == Failed)
              && r.accepted == before.accepted + (if reply == Accepted then 1 else 0)
  {
    assert (batch + [m])[..|batch|] == batch;
  }

  /** A batch of messages that the store has is read to its end, changes nothing and counts none, on any disk. */
  lemma {:induction false} KnownBatch(limits: Limits, node: Node, batch: seq<ChatMessage>)
    requires AllWellformed(node.store.table) && AllWellformed(batch)
    requires forall i :: 0 <= i < |batch| ==> HasKey(node.store.table, batch[i].origin, batch[i].sequence)
    ensures IngestBatch(limits, node, batch) == BatchResult(node, 0, false)
  {
    if batch != [] {
      var prefix, m := batch[..|batch| - 1], batch[|batch| - 1];
      KnownBatch(limits, node, prefix);
      assert HasKey(node.store.table, m.origin, m.sequence) && Wellformed(m);
      assert Clashes(node.store.table, m);
      assert node.(store := node.store) == node;
    }
  }

  /** A process that opens `store`: volatile state starts afresh. */
  function Start(identity: Identity, store: Store): (node: Node)
    requires Mark(store.marks, identity.nodeId) != MAX_SEQUENCE
  {
    Node(identity, store, NextSequence(store.marks, identity.nodeId), [])
  }

  /**
   * The replication endpoint answers "accepted" and publishes exactly what it
   * stores, except when the key is taken under another id: then it publishes a
   * message that it did not store.
   */
  lemma ReplicaPublishesWhatItStores(limits: Limits, node: Node, m: ChatMessage)
    requires Invariant(node.store)
    ensures var (after, reply) := IngestReplica(limits, node, m);
            var stored := !HasId(node.store.table, m.id) && Add(limits, node.store, m).1 == Inserted;
            var keyTakenUnderOtherId := Clashes(node.store.table, m) && !HasId(node.store.table, m.id);
            && (after.events == node.events + [m] <==> reply == Accepted)
            && ((reply == Accepted <==> stored) <==> !(keyTakenUnderOtherId && m.sequence <= MAX_SEQUENCE))
  {
    AddOutcome(limits, node.store, m);
    if HasId(node.store.table, m.id) {
      var i :| 0 <= i < |node.store.table| && node.store.table[i].id == m.id;
    }
  }

  predicate AllWellformed(messages: seq<ChatMessage>) {
    forall i :: 0 <= i < |messages| ==> Wellformed(messages[i])
  }

  /** For messages that nodes themselves make, the endpoint's id test is the store's own test. */
  lemma IdTestIsKeyTest(table: seq<ChatMessage>, m: ChatMessage)
    requires AllWellformed(table) && Wellformed(m)
    ensures HasId(table, m.id) <==> Clashes(table, m)
  {
    forall i | 0 <= i < |table|
      ensures table[i].id == m.id <==> SameKey(table[i], m)
    {
      KeysAgree(table[i], m);
    }
  }
}
