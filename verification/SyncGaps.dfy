/** What a summary of highest sequences cannot say: messages missing below a mark. */
module SyncGaps {
  import opened Messages
  import opened StoreModel
  import opened ServiceModel
  import opened SyncModel
  import opened CatchUp

  /** Rounds with one peer after another, each over its own summary. */
  function Visits(limits: Limits, wire: Wire, senders: seq<Store>, node: Node): Node {
    if senders == [] then node
    else
      var before := Visits(limits, wire, senders[..|senders| - 1], node);
      Round(limits, wire, senders[|senders| - 1], before).node
  }

  /** Visits are rounds one after the other, each with what the one before left. */
  lemma VisitsInTurn(limits: Limits, wire: Wire, senders: seq<Store>, sender: Store, node: Node)
    ensures Visits(limits, wire, [], node) == node
    ensures Visits(limits, wire, senders + [sender], node) ==
            Round(limits, wire, sender, Visits(limits, wire, senders, node)).node
  {
    assert (senders + [sender])[..|senders|] == senders;
  }

  /** A message missing below the mark stays missing, whichever peers the node syncs with. */
  lemma {:induction false} GapStays(limits: Limits, wire: Wire, senders: seq<Store>, node: Node,
                                    origin: string, sequence: int)
    requires Sound(node.store) && forall i :: 0 <= i < |senders| ==> Sound(senders[i])
    requires sequence <= Mark(node.store.marks, origin) && !HasKey(node.store.table, origin, sequence)
    ensures var after := Visits(limits, wire, senders, node).store;
            Sound(after) && sequence <= Mark(after.marks, origin) && !HasKey(after.table, origin, sequence)
  {
    if senders != [] {
      var before := Visits(limits, wire, senders[..|senders| - 1], node);
      GapStays(limits, wire, senders[..|senders| - 1], node, origin, sequence);
      RoundKeepsGap(limits, wire, senders[|senders| - 1], before, origin, sequence);
    }
  }

  lemma RoundKeepsGap(limits: Limits, wire: Wire, sender: Store, node: Node, origin: string, sequence: int)
    requires Sound(sender) && Sound(node.store)
    requires sequence <= Mark(node.store.marks, origin) && !HasKey(node.store.table, origin, sequence)
    ensures var after := Round(limits, wire, sender, node).node.store;
            Sound(after) && sequence <= Mark(after.marks, origin) && !HasKey(after.table, origin, sequence)
  {
    var batch := NextBatch(sender.table, node.store.marks);
    var after := IngestBatch(limits, node, batch).node.store;
    NextBatchIsFresh(sender.table, node.store);
    BatchKeepsSound(limits, node, batch);
    assert AtMost(node.store.marks, after.marks);
    forall i | 0 <= i < |after.table|
      ensures !(after.table[i].origin == origin && after.table[i].sequence == sequence)
    {
      BatchRows(limits, node, batch, after.table[i]);
      if after.table[i] in batch {
        var k :| 0 <= k < |batch| && batch[k] == after.table[i];
      } else {
        var k :| 0 <= k < |node.store.table| && node.store.table[k] == after.table[i];
      }
    }
  }

  /**
   * Rounds do not fill a gap, but a packet does: a missing message that arrives
   * late, by push or in a stale batch, is stored if and only if the disk has room
   * for it, now or after the prune.
   */
  lemma ArrivalFillsGap(limits: Limits, node: Node, m: ChatMessage)
    requires Sound(node.store) && Wellformed(m) && !HasKey(node.store.table, m.origin, m.sequence)
    ensures var fits := Room(limits, node.store, m) || Room(limits, Prune(node.store), m);
            && (m in IngestReplica(limits, node, m).0.store.table <==> fits)
            && (m in IngestSync(limits, node, m).0.store.table <==> fits)
  {
    KeyTaken(node.store.table, m);
    IdTestIsKeyTest(node.store.table, m);
    AddOutcome(limits, node.store, m);
    var after := Add(limits, node.store, m).0.table;
    if Add(limits, node.store, m).1 == Inserted {
      assert after[|after| - 1] == m;
    } else {
      forall i | 0 <= i < |after| ensures after[i] != m {
        AddRows(limits, node.store, m, after[i]);
      }
    }
  }

  /** For messages that nodes make, a row clashes exactly if it has the key. */
  lemma KeyTaken(table: seq<ChatMessage>, m: ChatMessage)
    requires AllWellformed(table) && Wellformed(m)
    ensures Clashes(table, m) <==> HasKey(table, m.origin, m.sequence)
  {
    forall i | 0 <= i < |table| ensures table[i].id == m.id <==> SameKey(table[i], m) {
      KeysAgree(table[i], m);
    }
  }

  /** Since `start` the node has gained every message of the table above its starting marks. */
  ghost predicate GainedAll(table: seq<ChatMessage>, start: Node, after: Node)
    requires start.events <= after.events
  {
    forall m :: m in table && m.sequence > Mark(start.store.marks, m.origin) ==> m in after.events[|start.events|..]
  }

  /**
   * Which messages catch-up recovers: never one at or below the receiver's
   * starting mark, and all above it if and only if the planned payloads fit and
   * the cuts between batches ascend per origin.
   */
  lemma RecoveredExactly(limits: Limits, wire: Wire, sender: Store, node: Node, n: nat)
    requires Sound(sender) && Sound(node.store)
    requires var needed := RoundsNeeded(|Missing(sender.table, node.store.marks)|);
             n >= needed && RoomThroughout(limits, wire, sender, node, needed)
    ensures var after, miss := Rounds(limits, wire, sender, node, n).node, Missing(sender.table, node.store.marks);
            && node.events <= after.events
            && (forall m :: m in after.events[|node.events|..] ==>
                  m in sender.table && m.sequence > Mark(node.store.marks, m.origin))
            && (GainedAll(sender.table, node, after) <==>
                PayloadsFit(wire, sender, node.store.marks, RoundsNeeded(|miss|)) && CutsAscend(miss))
  {
    OnlyMissingGained(limits, wire, sender, node, n);
    AllGainedMeans(limits, wire, sender, node, n);
    RecoversAllExactly(limits, wire, sender, node, n);
  }

  lemma OnlyMissingGained(limits: Limits, wire: Wire, sender: Store, node: Node, n: nat)
    requires Sound(sender) && Sound(node.store)
    ensures var after := Rounds(limits, wire, sender, node, n).node;
            && node.events <= after.events
            && forall m :: m in after.events[|node.events|..] ==>
                 m in sender.table && m.sequence > Mark(node.store.marks, m.origin)
  {
    var p, miss := Rounds(limits, wire, sender, node, n), Missing(sender.table, node.store.marks);
    CatchUpLaw(limits, wire, sender, node, n);
    GainedFromMissing(p.node.events[|node.events|..], Missing(sender.table, p.node.store.marks), miss);
    forall m | m in p.node.events[|node.events|..]
      ensures m in sender.table && m.sequence > Mark(node.store.marks, m.origin)
    {
      MissingMember(sender.table, node.store.marks, m);
    }
  }

  lemma AllGainedMeans(limits: Limits, wire: Wire, sender: Store, node: Node, n: nat)
    requires Sound(sender) && Sound(node.store)
    requires node.events <= Rounds(limits, wire, sender, node, n).node.events
    ensures var after := Rounds(limits, wire, sender, node, n).node;
            GainedAll(sender.table, node, after) <==>
            after.events == node.events + Missing(sender.table, node.store.marks)
  {
    var p, miss := Rounds(limits, wire, sender, node, n), Missing(sender.table, node.store.marks);
    var gained := p.node.events[|node.events|..];
    assert p.node.events == node.events + gained;
    GainedAllIsMissing(sender.table, node, p.node);
    if GainedAll(sender.table, node, p.node) {
      CatchUpLaw(limits, wire, sender, node, n);
      MissingKeepsUniqueness(sender.table, node.store.marks);
      AllGained(gained, Missing(sender.table, p.node.store.marks), miss);
    }
  }

  lemma GainedAllIsMissing(table: seq<ChatMessage>, start: Node, after: Node)
    requires start.events <= after.events
    ensures GainedAll(table, start, after) <==>
            forall m :: m in Missing(table, start.store.marks) ==> m in after.events[|start.events|..]
  {
    forall m
      ensures m in Missing(table, start.store.marks) <==> m in table && m.sequence > Mark(start.store.marks, m.origin)
    {
      MissingMember(table, start.store.marks, m);
    }
  }

  lemma GainedFromMissing(gained: seq<ChatMessage>, rest: seq<ChatMessage>, miss: seq<ChatMessage>)
    requires Subsequence(gained + rest, miss)
    ensures forall m :: m in gained ==> m in miss
  {
    forall m | m in gained ensures m in miss {
      assert m in gained + rest;
      SubsequenceMember(gained + rest, miss, m);
    }
  }

  lemma AllGained(gained: seq<ChatMessage>, rest: seq<ChatMessage>, miss: seq<ChatMessage>)
    requires Subsequence(gained + rest, miss) && UniqueKeys(miss) && forall m :: m in miss ==> m in gained
    ensures gained == miss
  {
    UniqueFits(miss, gained);
    WholeIsSplit(gained, rest, miss);
  }

  lemma RoomyCreate(node: Node, body: string, now: int)
    requires node.next <= MAX_SEQUENCE && !Clashes(node.store.table, Draft(node, body, now))
    ensures var m := Draft(node, body, now);
            var store := Store(node.store.table + [m], Raise(node.store.marks, m));
            CreateLocal(UNLIMITED, node, body, now) ==
            (Node(node.identity, store, node.next + 1, node.events + [m]), Accepted)
  {
  }

  /**
   * The README promises that reconnection recovers missed sequence ranges. It
   * does not when a later push overtakes an earlier one: A makes two messages,
   * only the second push reaches B, and no number of rounds brings B the first.
   */
  lemma OvertakenPushIsLost(wire: Wire, a: Identity, b: Identity, n: nat)
    ensures var a0, b0 := Start(a, EMPTY), Start(b, EMPTY);
            var (a1, _) := CreateLocal(UNLIMITED, a0, "one", 1);
            var (a2, _) := CreateLocal(UNLIMITED, a1, "two", 2);
            var first, second := Draft(a0, "one", 1), Draft(a1, "two", 2);
            var b1 := IngestReplica(UNLIMITED, b0, second).0;
            && a2.store.table == [first, second] && b1.store.table == [second]
            && Rounds(UNLIMITED, wire, a2.store, b1, n).node == b1
  {
    var a0, b0 := Start(a, EMPTY), Start(b, EMPTY);
    var first := Draft(a0, "one", 1);
    RoomyCreate(a0, "one", 1);
    var a1 := CreateLocal(UNLIMITED, a0, "one", 1).0;
    var second := Draft(a1, "two", 2);
    IdsDiffer(a.nodeId);
    RoomyCreate(a1, "two", 2);
    var a2 := CreateLocal(UNLIMITED, a1, "two", 2).0;
    var b1 := IngestReplica(UNLIMITED, b0, second).0;
    assert [first] + [second] == [first, second] && [] + [second] == [second];
    assert b1.store.table == [second] && Mark(b1.store.marks, a.nodeId) == 2;
    NothingAbove(a2.store.table, b1.store.marks);
    NothingMissingNothingMoves(UNLIMITED, wire, a2.store, b1, n);
  }

  lemma IdsDiffer(nodeId: string)
    ensures MessageId(nodeId, 1) != MessageId(nodeId, 2)
  {
    if MessageId(nodeId, 1) == MessageId(nodeId, 2) {
      MessageIdInjective(nodeId, 1, nodeId, 2);
    }
  }
}
