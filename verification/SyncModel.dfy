/**
 * Catch-up synchronisation as values: which messages a sender picks for a peer's
 * summary, what one round brings the peer, and what any number of rounds brings.
 */
module SyncModel {
  import opened Messages
  import opened StoreModel
  import opened ServiceModel

  /** The messages above the given marks, in storage order. */
  function Missing(table: seq<ChatMessage>, marks: Marks): seq<ChatMessage> {
    if table == [] then []
    else
      var rest := Missing(table[..|table| - 1], marks);
      var m := table[|table| - 1];
      if m.sequence > Mark(marks, m.origin) then rest + [m] else rest
  }

  function FirstBatch(messages: seq<ChatMessage>): seq<ChatMessage> {
    messages[..Min(MAX_SYNC_BATCH_MESSAGES, |messages|)]
  }

  function NextBatch(table: seq<ChatMessage>, marks: Marks): seq<ChatMessage> {
    FirstBatch(Missing(table, marks))
  }

  function RaiseAll(marks: Marks, messages: seq<ChatMessage>): Marks {
    if messages == [] then marks
    else Raise(RaiseAll(marks, messages[..|messages| - 1]), messages[|messages| - 1])
  }

  predicate AscendingPerOrigin(table: seq<ChatMessage>) {
    forall i, j :: 0 <= i < j < |table| && table[i].origin == table[j].origin ==>
      table[i].sequence < table[j].sequence
  }

  // ---- Laws of Missing ----

  lemma {:induction false} MissingMember(table: seq<ChatMessage>, marks: Marks, m: ChatMessage)
    ensures m in Missing(table, marks) <==> m in table && m.sequence > Mark(marks, m.origin)
  {
    if table != [] {
      var last := table[|table| - 1];
      MissingMember(table[..|table| - 1], marks, m);
      assert m in table <==> m in table[..|table| - 1] || m == last;
    }
  }

  lemma {:induction false} MissingKeepsUniqueness(table: seq<ChatMessage>, marks: Marks)
    requires UniqueKeys(table)
    ensures UniqueKeys(Missing(table, marks))
  {
    if table != [] {
      var prefix, m := table[..|table| - 1], table[|table| - 1];
      MissingKeepsUniqueness(prefix, marks);
      forall i | 0 <= i < |Missing(prefix, marks)|
        ensures Missing(prefix, marks)[i].id != m.id && !SameKey(Missing(prefix, marks)[i], m)
      {
        MissingMember(prefix, marks, Missing(prefix, marks)[i]);
        var k :| 0 <= k < |prefix| && prefix[k] == Missing(prefix, marks)[i];
        assert table[k] == prefix[k];
      }
    }
  }

  lemma {:induction false} RaiseAllCovers(marks: Marks, messages: seq<ChatMessage>)
    ensures AtMost(marks, RaiseAll(marks, messages))
    ensures Marked(messages, RaiseAll(marks, messages))
  {
    if messages != [] {
      RaiseAllCovers(marks, messages[..|messages| - 1]);
    }
  }

  /** A raised mark is an old mark or the sequence of one of the messages. */
  lemma {:induction false} RaiseAllBound(marks: Marks, messages: seq<ChatMessage>, origin: string, bound: int)
    requires Mark(marks, origin) < bound
    requires forall i :: 0 <= i < |messages| && messages[i].origin == origin ==> messages[i].sequence < bound
    ensures Mark(RaiseAll(marks, messages), origin) < bound
  {
    if messages != [] {
      RaiseAllBound(marks, messages[..|messages| - 1], origin, bound);
    }
  }

  lemma {:induction false} MissingSplits(a: seq<ChatMessage>, b: seq<ChatMessage>, marks: Marks)
    ensures Missing(a + b, marks) == Missing(a, marks) + Missing(b, marks)
  {
    if b == [] {
      assert a + b == a;
    } else {
      MissingSplits(a, b[..|b| - 1], marks);
      assert (a + b)[..|a + b| - 1] == a + b[..|b| - 1];
    }
  }

  /** Once the marks have risen, what is missing can be picked from what was missing before. */
  lemma {:induction false} MissingTwice(table: seq<ChatMessage>, low: Marks, high: Marks)
    requires AtMost(low, high)
    ensures Missing(table, high) == Missing(Missing(table, low), high)
  {
    if table != [] {
      var m := table[|table| - 1];
      MissingTwice(table[..|table| - 1], low, high);
      assert Mark(low, m.origin) <= Mark(high, m.origin);
      if m.sequence > Mark(low, m.origin) {
        MissingOneMore(Missing(table[..|table| - 1], low), m, high);
      }
    }
  }

  lemma MissingOneMore(messages: seq<ChatMessage>, m: ChatMessage, marks: Marks)
    ensures Missing(messages + [m], marks) ==
            Missing(messages, marks) + if m.sequence > Mark(marks, m.origin) then [m] else []
  {
    assert (messages + [m])[..|messages|] == messages;
  }

  /** All of the messages are missing exactly if each of them lies above the marks. */
  lemma {:induction false} AllMissingExactly(messages: seq<ChatMessage>, marks: Marks)
    ensures |Missing(messages, marks)| <= |messages|
    ensures Missing(messages, marks) == messages <==> AllAbove(messages, marks)
  {
    if messages != [] {
      var front, m := messages[..|messages| - 1], messages[|messages| - 1];
      AllMissingExactly(front, marks);
      assert messages == front + [m];
      if Missing(messages, marks) == messages {
        assert |Missing(front, marks)| + 1 >= |messages|;
        assert Missing(front, marks) == Missing(messages, marks)[..|front|];
      }
    }
  }

  lemma {:induction false} NothingAbove(table: seq<ChatMessage>, marks: Marks)
    requires Marked(table, marks)
    ensures Missing(table, marks) == []
  {
    if table != [] {
      NothingAbove(table[..|table| - 1], marks);
    }
  }

  /** After a front part of what is missing has been delivered, only later messages can be missing. */
  lemma AfterFront(table: seq<ChatMessage>, marks: Marks, k: nat)
    requires k <= |Missing(table, marks)|
    ensures var miss := Missing(table, marks);
            var raised := RaiseAll(marks, miss[..k]);
            Missing(table, raised) == Missing(miss[k..], raised)
  {
    var miss := Missing(table, marks);
    var raised := RaiseAll(marks, miss[..k]);
    RaiseAllCovers(marks, miss[..k]);
    MissingTwice(table, marks, raised);
    assert miss == miss[..k] + miss[k..];
    MissingSplits(miss[..k], miss[k..], raised);
    NothingAbove(miss[..k], raised);
  }

  /** No message behind the cut lies below one of the same origin before it. */
  predicate CutAscends(messages: seq<ChatMessage>, cut: nat) {
    forall p, q :: 0 <= p < cut <= q < |messages| && messages[p].origin == messages[q].origin ==>
      messages[p].sequence < messages[q].sequence
  }

  /**
   * Cutting a batch skips nothing, that is, after the delivery of a front part
   * exactly the rest is missing, if and only if the cut ascends per origin.
   */
  lemma CutLaw(table: seq<ChatMessage>, marks: Marks, cut: nat)
    requires cut <= |Missing(table, marks)|
    ensures var miss := Missing(table, marks);
            Missing(table, RaiseAll(marks, miss[..cut])) == miss[cut..] <==> CutAscends(miss, cut)
  {
    var miss := Missing(table, marks);
    AfterFront(table, marks, cut);
    AllMissingExactly(miss[cut..], RaiseAll(marks, miss[..cut]));
    if CutAscends(miss, cut) {
      BehindAscendingCut(table, marks, cut);
    } else {
      BehindOtherCut(miss, marks, cut);
    }
  }

  predicate AllAbove(messages: seq<ChatMessage>, marks: Marks) {
    forall i :: 0 <= i < |messages| ==> messages[i].sequence > Mark(marks, messages[i].origin)
  }

  lemma BehindAscendingCut(table: seq<ChatMessage>, marks: Marks, cut: nat)
    requires cut <= |Missing(table, marks)| && CutAscends(Missing(table, marks), cut)
    ensures var miss := Missing(table, marks); AllAbove(miss[cut..], RaiseAll(marks, miss[..cut]))
  {
    var miss := Missing(table, marks);
    forall q | cut <= q < |miss| ensures Mark(RaiseAll(marks, miss[..cut]), miss[q].origin) < miss[q].sequence {
      MissingMember(table, marks, miss[q]);
      RaiseAllBound(marks, miss[..cut], miss[q].origin, miss[q].sequence);
    }
  }

  lemma BehindOtherCut(miss: seq<ChatMessage>, marks: Marks, cut: nat)
    requires cut <= |miss| && !CutAscends(miss, cut)
    ensures !AllAbove(miss[cut..], RaiseAll(marks, miss[..cut]))
  {
    var raised := RaiseAll(marks, miss[..cut]);
    RaiseAllCovers(marks, miss[..cut]);
    var p, q :| 0 <= p < cut <= q < |miss| && miss[p].origin == miss[q].origin && miss[p].sequence >= miss[q].sequence;
    assert miss[..cut][p] == miss[p] && miss[cut..][q - cut] == miss[q];
    assert miss[p].sequence <= Mark(raised, miss[p].origin);
  }

  /** In a table that ascends per origin every cut ascends. */
  lemma AscendingCut(table: seq<ChatMessage>, marks: Marks, cut: nat)
    requires AscendingPerOrigin(table)
    ensures CutAscends(Missing(table, marks), cut)
  {
    MissingAscends(table, marks);
  }

  lemma {:induction false} MissingAscends(table: seq<ChatMessage>, marks: Marks)
    requires AscendingPerOrigin(table)
    ensures AscendingPerOrigin(Missing(table, marks))
  {
    if table != [] {
      var front, m := table[..|table| - 1], table[|table| - 1];
      var rest := Missing(front, marks);
      MissingAscends(front, marks);
      forall i | 0 <= i < |rest| && rest[i].origin == m.origin ensures rest[i].sequence < m.sequence {
        MissingMember(front, marks, rest[i]);
        var j :| 0 <= j < |front| && front[j] == rest[i];
        assert table[j] == front[j];
      }
    }
  }

  /** When all that is missing has been delivered, nothing is missing, whatever the order. */
  lemma NothingLeft(table: seq<ChatMessage>, marks: Marks, raised: Marks)
    requires raised == RaiseAll(marks, Missing(table, marks))
    ensures Missing(table, raised) == []
  {
    RaiseAllCovers(marks, Missing(table, marks));
    forall m ensures m !in Missing(table, raised) {
      MissingMember(table, raised, m);
      MissingMember(table, marks, m);
      assert Mark(marks, m.origin) <= Mark(raised, m.origin);
    }
    EmptyOrInhabited(Missing(table, raised));
  }

  lemma EmptyOrInhabited(messages: seq<ChatMessage>)
    ensures messages == [] || exists m :: m in messages
  {
    if messages != [] {
      assert messages[0] in messages;
    }
  }

  /** Raising marks only shortens what is missing; raising one of its messages shortens it strictly. */
  lemma {:induction false} MissingShrinks(table: seq<ChatMessage>, marks: Marks, raised: Marks)
    requires AtMost(marks, raised)
    ensures |Missing(table, raised)| <= |Missing(table, marks)|
    ensures (exists m :: m in Missing(table, marks) && m.sequence <= Mark(raised, m.origin)) ==>
              |Missing(table, raised)| < |Missing(table, marks)|
  {
    if table != [] {
      var prefix, last := table[..|table| - 1], table[|table| - 1];
      MissingShrinks(prefix, marks, raised);
      assert Mark(marks, last.origin) <= Mark(raised, last.origin);
    }
  }

  // ---- Counting messages that occur once ----

  lemma {:induction false} Multiplicity(table: seq<ChatMessage>, m: ChatMessage)
    requires UniqueKeys(table)
    ensures multiset(table)[m] <= 1
  {
    if table != [] {
      var prefix, last := table[..|table| - 1], table[|table| - 1];
      Multiplicity(prefix, m);
      assert table == prefix + [last];
      LastIsNew(table);
    }
  }

  lemma LastIsNew(table: seq<ChatMessage>)
    requires UniqueKeys(table) && table != []
    ensures table[|table| - 1] !in table[..|table| - 1]
  {
    var prefix, last := table[..|table| - 1], table[|table| - 1];
    forall i | 0 <= i < |prefix| ensures prefix[i] != last {
      assert prefix[i] == table[i];
    }
  }

  lemma CountedOnce(table: seq<ChatMessage>, all: seq<ChatMessage>)
    requires UniqueKeys(table) && forall i :: 0 <= i < |table| ==> table[i] in all
    ensures forall m :: multiset(table)[m] <= multiset(all)[m]
  {
    forall m ensures multiset(table)[m] <= multiset(all)[m] {
      Multiplicity(table, m);
      if m in multiset(table) {
        assert m in table;
        assert m in multiset(all);
      }
    }
  }

  lemma UniqueFits(table: seq<ChatMessage>, all: seq<ChatMessage>)
    requires UniqueKeys(table) && forall m :: m in table ==> m in all
    ensures |table| <= |all|
  {
    CountedOnce(table, all);
    assert multiset(all) == multiset(table) + (multiset(all) - multiset(table));
    assert |multiset(table)| == |table| && |multiset(all)| == |all|;
  }

  // ---- One batch at the receiver ----

  /** Messages that a store at these marks cannot have yet, each once. */
  predicate Fresh(s: Store, batch: seq<ChatMessage>) {
    && UniqueKeys(batch) && AllWellformed(batch)
    && forall i :: 0 <= i < |batch| ==> batch[i].sequence > Mark(s.marks, batch[i].origin)
  }

  /** A node whose store is consistent and holds only messages that nodes made. */
  predicate Sound(s: Store) {
    Invariant(s) && AllWellformed(s.table)
  }

  /** An add brings no rows but the message. */
  lemma AddRows(limits: Limits, s: Store, m: ChatMessage, row: ChatMessage)
    requires row in Add(limits, s, m).0.table
    ensures row in s.table || (row == m && Add(limits, s, m).1 == Inserted)
  {
    assert forall x :: x in Prune(s).table ==> x in s.table;
  }

  lemma AddKeepsSound(limits: Limits, s: Store, m: ChatMessage)
    requires Sound(s) && Wellformed(m)
    ensures Sound(Add(limits, s, m).0)
  {
    AddOutcome(limits, s, m);
    var after := Add(limits, s, m).0;
    forall i | 0 <= i < |after.table| ensures Wellformed(after.table[i]) {
      AddRows(limits, s, m, after.table[i]);
    }
  }

  lemma {:induction false} BatchKeepsSound(limits: Limits, node: Node, batch: seq<ChatMessage>)
    requires Sound(node.store) && AllWellformed(batch)
    ensures var after := IngestBatch(limits, node, batch).node;
            && Sound(after.store)
            && AtMost(node.store.marks, after.store.marks)
            && after.identity == node.identity && after.next == node.next
  {
    if batch != [] {
      var prefix, m := batch[..|batch| - 1], batch[|batch| - 1];
      BatchKeepsSound(limits, node, prefix);
      var before := IngestBatch(limits, node, prefix);
      if !before.failed {
        AddOutcome(limits, before.node.store, m);
        AddKeepsSound(limits, before.node.store, m);
      }
    }
  }

  /** Where a row of the table after a batch can have come from. */
  lemma {:induction false} BatchRows(limits: Limits, node: Node, batch: seq<ChatMessage>, row: ChatMessage)
    requires Sound(node.store) && AllWellformed(batch)
    requires row in IngestBatch(limits, node, batch).node.store.table
    ensures row in node.store.table || row in batch
  {
    if batch != [] {
      var prefix, m := batch[..|batch| - 1], batch[|batch| - 1];
      var before := IngestBatch(limits, node, prefix);
      BatchKeepsSound(limits, node, prefix);
      if !before.failed {
        AddOutcome(limits, before.node.store, m);
      }
      if row != m || before.failed {
        assert row in before.node.store.table;
        BatchRows(limits, node, prefix, row);
      }
    }
  }

  /** What is published and marked is the batch up to the first message the disk had no room for. */
  predicate FrontTaken(node: Node, batch: seq<ChatMessage>, r: BatchResult) {
    && r.accepted <= |batch|
    && (r.failed <==> r.accepted < |batch|)
    && r.node.events == node.events + batch[..r.accepted]
    && r.node.store.marks == RaiseAll(node.store.marks, batch[..r.accepted])
  }

  /**
   * No message of a fresh batch is wasted: up to the first one the disk has no
   * room for, every message is new, is counted, and is published, in batch
   * order, whatever pruning happens on the way.
   */
  lemma {:induction false} FreshBatchNeverWasted(limits: Limits, node: Node, batch: seq<ChatMessage>)
    requires Sound(node.store) && Fresh(node.store, batch)
    ensures FrontTaken(node, batch, IngestBatch(limits, node, batch))
  {
    if batch != [] {
      var prefix := batch[..|batch| - 1];
      var before := IngestBatch(limits, node, prefix);
      FreshPrefix(node.store, batch);
      FreshBatchNeverWasted(limits, node, prefix);
      BatchKeepsSound(limits, node, prefix);
      if !before.failed {
        NotYetThere(limits, node, batch);
      }
      OneMoreTaken(limits, node, batch, before);
    }
  }

  lemma OneMoreTaken(limits: Limits, node: Node, batch: seq<ChatMessage>, before: BatchResult)
    requires batch != [] && FrontTaken(node, batch[..|batch| - 1], before)
    requires Invariant(before.node.store) && Wellformed(batch[|batch| - 1])
    requires before.failed || !Clashes(before.node.store.table, batch[|batch| - 1])
    ensures FrontTaken(node, batch, IngestOne(limits, before, batch[|batch| - 1]))
  {
    var prefix, m, k := batch[..|batch| - 1], batch[|batch| - 1], before.accepted;
    assert batch[..k] == prefix[..k];
    if !before.failed {
      assert prefix[..k] == prefix && prefix + [m] == batch == batch[..|batch|];
      NewMessageOutcome(limits, before.node, m);
      RaiseAllAppend(node.store.marks, prefix, m);
    }
  }

  lemma FreshPrefix(s: Store, batch: seq<ChatMessage>)
    requires Fresh(s, batch) && batch != []
    ensures Fresh(s, batch[..|batch| - 1]) && Wellformed(batch[|batch| - 1])
  {
  }

  lemma NewMessageOutcome(limits: Limits, node: Node, m: ChatMessage)
    requires Invariant(node.store) && Wellformed(m) && !Clashes(node.store.table, m)
    ensures var (after, reply) := IngestSync(limits, node, m);
            || (reply == Accepted && after.events == node.events + [m]
                && after.store.marks == Raise(node.store.marks, m))
            || (reply == Failed && after.events == node.events && after.store.marks == node.store.marks)
  {
    AddOutcome(limits, node.store, m);
  }

  lemma RaiseAllAppend(marks: Marks, messages: seq<ChatMessage>, m: ChatMessage)
    ensures RaiseAll(marks, messages + [m]) == Raise(RaiseAll(marks, messages), m)
  {
    assert (messages + [m])[..|messages|] == messages;
  }

  lemma NotYetThere(limits: Limits, node: Node, batch: seq<ChatMessage>)
    requires Sound(node.store) && Fresh(node.store, batch) && batch != []
    ensures var before := IngestBatch(limits, node, batch[..|batch| - 1]).node;
            !Clashes(before.store.table, batch[|batch| - 1])
  {
    var prefix, m := batch[..|batch| - 1], batch[|batch| - 1];
    var table := IngestBatch(limits, node, prefix).node.store.table;
    BatchKeepsSound(limits, node, prefix);
    forall i | 0 <= i < |table|
      ensures table[i].id != m.id && !SameKey(table[i], m)
    {
      KeysAgree(table[i], m);
      BatchRows(limits, node, prefix, table[i]);
      if table[i] in node.store.table {
        var k :| 0 <= k < |node.store.table| && node.store.table[k] == table[i];
      } else {
        var k :| 0 <= k < |prefix| && prefix[k] == table[i];
        assert batch[k] == table[i];
      }
    }
  }

  lemma NextBatchIsFresh(table: seq<ChatMessage>, s: Store)
    requires UniqueKeys(table) && AllWellformed(table)
    ensures Fresh(s, NextBatch(table, s.marks))
  {
    MissingKeepsUniqueness(table, s.marks);
    var miss := Missing(table, s.marks);
    forall i | 0 <= i < |miss|
      ensures Wellformed(miss[i]) && miss[i].sequence > Mark(s.marks, miss[i].origin)
    {
      MissingMember(table, s.marks, miss[i]);
    }
  }

  // ---- Rounds ----

  /** Sizes of the serialised payloads, for any serialiser; Payloads has the daemon's own. */
  datatype Wire = Wire(summaryBytes: Marks -> nat, batchBytes: seq<ChatMessage> -> nat, pushBytes: ChatMessage -> nat)

  /** The request and response size limits let a round through. */
  predicate Passes(wire: Wire, sender: Store, marks: Marks) {
    var batch := NextBatch(sender.table, marks);
    && wire.summaryBytes(sender.marks) <= MAX_REQUEST_BYTES
    && wire.summaryBytes(marks) <= MAX_SYNC_REQUEST_BYTES
    && (batch != [] ==> wire.batchBytes(batch) <= MAX_SYNC_REQUEST_BYTES)
  }

  lemma LongBatchIsStopped(wire: Wire, sender: Store, marks: Marks)
    requires NextBatch(sender.table, marks) != []
    requires wire.batchBytes(NextBatch(sender.table, marks)) > MAX_SYNC_REQUEST_BYTES
    ensures !Passes(wire, sender, marks)
  {
  }

  /** The sender asks for a summary, then posts the first batch of what it shows to be missing. */
  function Round(limits: Limits, wire: Wire, sender: Store, node: Node): BatchResult {
    if Passes(wire, sender, node.store.marks)
    then IngestBatch(limits, node, NextBatch(sender.table, node.store.marks))
    else BatchResult(node, 0, false)
  }

  lemma {:induction false} RaiseAllSplits(marks: Marks, a: seq<ChatMessage>, b: seq<ChatMessage>)
    ensures RaiseAll(marks, a + b) == RaiseAll(RaiseAll(marks, a), b)
  {
    if b == [] {
      assert a + b == a;
    } else {
      var front, last := b[..|b| - 1], b[|b| - 1];
      RaiseAllSplits(marks, a, front);
      assert a + b == (a + front) + [last];
      RaiseAllAppend(marks, a + front, last);
    }
  }

  lemma RoundLaw(limits: Limits, wire: Wire, sender: Store, node: Node)
    requires Sound(sender) && Sound(node.store)
    ensures var r := Round(limits, wire, sender, node);
            var miss := Missing(sender.table, node.store.marks);
            && Sound(r.node.store)
            && r.accepted <= |FirstBatch(miss)|
            && (r.accepted == |FirstBatch(miss)| <== Passes(wire, sender, node.store.marks) && !r.failed)
            && r.node.events == node.events + miss[..r.accepted]
            && r.node.store.marks == RaiseAll(node.store.marks, miss[..r.accepted])
  {
    var batch := NextBatch(sender.table, node.store.marks);
    var miss := Missing(sender.table, node.store.marks);
    NextBatchIsFresh(sender.table, node.store);
    if Passes(wire, sender, node.store.marks) {
      FreshBatchNeverWasted(limits, node, batch);
      BatchKeepsSound(limits, node, batch);
      var k := IngestBatch(limits, node, batch).accepted;
      assert batch[..k] == miss[..k];
    } else {
      assert miss[..0] == [];
    }
  }

  /** Every round that delivers anything shortens what is missing, in whatever order the sender stores it. */
  lemma RoundShortens(limits: Limits, wire: Wire, sender: Store, node: Node)
    requires Sound(sender) && Sound(node.store)
    requires Round(limits, wire, sender, node).accepted > 0
    ensures |Missing(sender.table, Round(limits, wire, sender, node).node.store.marks)| <
            |Missing(sender.table, node.store.marks)|
  {
    var r := Round(limits, wire, sender, node);
    var miss := Missing(sender.table, node.store.marks);
    RoundLaw(limits, wire, sender, node);
    RaiseAllCovers(node.store.marks, miss[..r.accepted]);
    assert miss[..r.accepted][0] == miss[0];
    MissingShrinks(sender.table, node.store.marks, r.node.store.marks);
  }
}
