/**
 * Any number of nodes over a network that loses, duplicates and reorders: whatever
 * was ever sent may arrive any number of times, in any order, or not at all. Nodes
 * crash after any commit and restart, and their databases fill up and are pruned.
 */
module Replication {
  import opened Messages
  import opened StoreModel
  import opened ServiceModel
  import opened SyncModel

  datatype Packet =
    | Push(message: ChatMessage)
    | Summary(about: string, marks: Marks)
    | Batch(to: string, messages: seq<ChatMessage>)

  /** `stored` lists what the store newly accepted in this process lifetime. */
  datatype Member = Member(node: Node, up: bool, stored: seq<ChatMessage>)

  /** `history` lists every message whose origin committed it, in order; it outlives pruning. */
  datatype System = System(members: map<string, Member>, network: set<Packet>, history: seq<ChatMessage>)

  /**
   * With `crash` the process dies after the commit and before it publishes or
   * sends. In the middle of an add there is one more commit to die after: the
   * one that prunes a database too full for `message`.
   */
  datatype Step =
    | Create(at: string, body: string, now: int, crash: bool)
    | DeliverPush(at: string, message: ChatMessage, crash: bool)
    | AnswerSummary(at: string)
    | SendBatch(from: string, to: string, marks: Marks)
    | DeliverBatch(at: string, messages: seq<ChatMessage>, taken: nat, crash: bool)
    | DieAfterPrune(at: string, message: ChatMessage)
    | Restart(at: string)

  /** A process start over a store; it stays down when no sequence is left. */
  function Boot(identity: Identity, store: Store): Member {
    Member(Node(identity, store, NextSequence(store.marks, identity.nodeId), []),
           Mark(store.marks, identity.nodeId) != MAX_SEQUENCE, [])
  }

  predicate IsUp(sys: System, at: string) {
    at in sys.members && sys.members[at].up
  }

  /** The member after an operation, or after the crash that cut it short. */
  function Settled(member: Member, node: Node, stored: seq<ChatMessage>, crash: bool): Member {
    if crash then Boot(node.identity, node.store) else Member(node, member.up, member.stored + stored)
  }

  function NewlyStored(limits: Limits, store: Store, m: ChatMessage): seq<ChatMessage> {
    if Add(limits, store, m).1 == Inserted then [m] else []
  }

  function StoredInBatch(limits: Limits, node: Node, batch: seq<ChatMessage>): seq<ChatMessage> {
    if batch == [] then []
    else
      var prefix := batch[..|batch| - 1];
      var before := IngestBatch(limits, node, prefix);
      StoredInBatch(limits, node, prefix) +
      if before.failed then [] else NewlyStored(limits, before.node.store, batch[|batch| - 1])
  }

  /** One step; a step that cannot happen changes nothing. */
  function Apply(limits: Limits, sys: System, step: Step): System {
    match step
    case Create(at, body, now, crash) =>
      if !IsUp(sys, at) then sys
      else
        var member := sys.members[at];
        var m := Draft(member.node, body, now);
        var (node, reply) := CreateLocal(limits, member.node, body, now);
        var stored := NewlyStored(limits, member.node.store, m);
        System(sys.members[at := Settled(member, node, stored, crash)],
               if reply == Accepted && !crash then sys.network + {Push(m)} else sys.network,
               sys.history + stored)
    case DeliverPush(at, m, crash) =>
      if !IsUp(sys, at) || Push(m) !in sys.network then sys
      else
        var member := sys.members[at];
        var (node, reply) := IngestReplica(limits, member.node, m);
        var stored := if HasId(member.node.store.table, m.id) then [] else NewlyStored(limits, member.node.store, m);
        sys.(members := sys.members[at := Settled(member, node, stored, crash)])
    case AnswerSummary(at) =>
      if !IsUp(sys, at) then sys
      else sys.(network := sys.network + {Summary(at, sys.members[at].node.store.marks)})
    case SendBatch(from, to, marks) =>
      if !IsUp(sys, from) || Summary(to, marks) !in sys.network then sys
      else
        var batch := NextBatch(sys.members[from].node.store.table, marks);
        if batch == [] then sys else sys.(network := sys.network + {Batch(to, batch)})
    case DeliverBatch(at, messages, taken, crash) =>
      if !IsUp(sys, at) || Batch(at, messages) !in sys.network || taken > |messages| then sys
      else if taken < |messages| && !crash then sys
      else
        var member := sys.members[at];
        var node := IngestBatch(limits, member.node, messages[..taken]).node;
        var stored := StoredInBatch(limits, member.node, messages[..taken]);
        sys.(members := sys.members[at := Settled(member, node, stored, crash)])
    case DieAfterPrune(at, m) =>
      if !IsUp(sys, at) || Insert(limits, sys.members[at].node.store, m).1 != Full then sys
      else
        var node := sys.members[at].node;
        sys.(members := sys.members[at := Boot(node.identity, Prune(node.store))])
    case Restart(at) =>
      if at !in sys.members then sys
      else sys.(members := sys.members[at := Boot(sys.members[at].node.identity, sys.members[at].node.store)])
  }

  function Run(limits: Limits, sys: System, steps: seq<Step>): System {
    if steps == [] then sys
    else Apply(limits, Run(limits, sys, steps[..|steps| - 1]), steps[|steps| - 1])
  }

  /** The step does what it would do on a disk without limits: no add finds its database full. */
  ghost predicate NothingPruned(limits: Limits, sys: System, step: Step) {
    Apply(limits, sys, step) == Apply(UNLIMITED, sys, step)
  }

  /** Fresh databases, distinct node ids, nothing sent yet. */
  ghost predicate Initial(sys: System) {
    && sys.network == {} && sys.history == []
    && forall n :: n in sys.members ==>
         exists callsign :: sys.members[n] == Boot(Identity(n, callsign), EMPTY)
  }

  // ---- The invariant ----

  predicate AllIn(messages: seq<ChatMessage>, history: seq<ChatMessage>) {
    forall i :: 0 <= i < |messages| ==> messages[i] in history
  }

  ghost predicate MemberOk(history: seq<ChatMessage>, name: string, member: Member) {
    && member.node.identity.nodeId == name
    && Sound(member.node.store)
    && AllIn(member.node.store.table, history)
    && Mark(member.node.store.marks, name) < member.node.next
    && member.node.events == member.stored
  }

  function OwnMark(sys: System, name: string): nat
    requires name in sys.members
  {
    Mark(sys.members[name].node.store.marks, name)
  }

  /** Membership of the history, under a name that quantifiers can be instantiated by. */
  predicate Committed(history: seq<ChatMessage>, m: ChatMessage) { m in history }

  ghost predicate HistoryOk(sys: System) {
    && AllWellformed(sys.history) && AscendingPerOrigin(sys.history)
    && forall m {:trigger Committed(sys.history, m)} :: Committed(sys.history, m) ==>
         m.origin in sys.members && m.sequence <= OwnMark(sys, m.origin)
  }

  ghost predicate PacketOk(history: seq<ChatMessage>, packet: Packet) {
    match packet
    case Push(m) => m in history
    case Summary(_, _) => true
    case Batch(_, messages) => AllIn(messages, history)
  }

  ghost predicate SystemInvariant(sys: System) {
    && (forall n :: n in sys.members ==> MemberOk(sys.history, n, sys.members[n]))
    && HistoryOk(sys)
    && (forall p :: p in sys.network ==> PacketOk(sys.history, p))
  }

  lemma InitialKeepsInvariant(sys: System)
    requires Initial(sys)
    ensures SystemInvariant(sys)
  {
  }

  /** Replacing one member by a sound successor. */
  lemma MemberReplaced(sys: System, at: string, member: Member)
    requires SystemInvariant(sys) && at in sys.members
    requires MemberOk(sys.history, at, member)
    requires OwnMark(sys, at) <= Mark(member.node.store.marks, at)
    ensures SystemInvariant(sys.(members := sys.members[at := member]))
  {
    var after := sys.(members := sys.members[at := member]);
    forall m | Committed(sys.history, m)
      ensures m.origin in after.members && m.sequence <= OwnMark(after, m.origin)
    {
    }
  }

  lemma PacketSent(sys: System, packet: Packet)
    requires SystemInvariant(sys) && PacketOk(sys.history, packet)
    ensures SystemInvariant(sys.(network := sys.network + {packet}))
  {
  }

  lemma SettledOk(history: seq<ChatMessage>, at: string, member: Member, node: Node, stored: seq<ChatMessage>,
                  crash: bool)
    requires MemberOk(history, at, Member(node, member.up, member.stored + stored))
    ensures MemberOk(history, at, Settled(member, node, stored, crash))
  {
  }

  /** A message of the history never lies above its origin's own mark. */
  lemma OwnMarkBounds(sys: System, m: ChatMessage)
    requires SystemInvariant(sys) && m in sys.history
    ensures Wellformed(m) && m.origin in sys.members && m.sequence <= OwnMark(sys, m.origin)
  {
    assert Committed(sys.history, m);
    var i :| 0 <= i < |sys.history| && sys.history[i] == m;
  }

  /** What one add does to a member: rows come from the table or are the message, and the own mark stays. */
  lemma AddEffect(limits: Limits, sys: System, at: string, s: Store, m: ChatMessage)
    requires SystemInvariant(sys) && at in sys.members && m in sys.history
    requires Sound(s) && AllIn(s.table, sys.history) && Mark(s.marks, at) == OwnMark(sys, at)
    ensures var after := Add(limits, s, m).0;
            && Sound(after) && AllIn(after.table, sys.history)
            && Mark(after.marks, at) == OwnMark(sys, at) && AtMost(s.marks, after.marks)
  {
    OwnMarkBounds(sys, m);
    AddOutcome(limits, s, m);
    AddKeepsSound(limits, s, m);
    AddKeepsRowsIn(limits, s, m, sys.history);
  }

  lemma AddKeepsRowsIn(limits: Limits, s: Store, m: ChatMessage, history: seq<ChatMessage>)
    requires AllIn(s.table, history) && (m in history || Add(limits, s, m).1 != Inserted)
    ensures AllIn(Add(limits, s, m).0.table, history)
  {
    var after := Add(limits, s, m).0;
    forall i | 0 <= i < |after.table| ensures after.table[i] in history {
      AddRows(limits, s, m, after.table[i]);
    }
  }

  lemma PushKeepsMember(limits: Limits, sys: System, at: string, m: ChatMessage)
    requires SystemInvariant(sys) && at in sys.members && m in sys.history
    ensures var member := sys.members[at];
            var node := IngestReplica(limits, member.node, m).0;
            var stored := if HasId(member.node.store.table, m.id) then []
                          else NewlyStored(limits, member.node.store, m);
            && MemberOk(sys.history, at, Member(node, member.up, member.stored + stored))
            && Mark(node.store.marks, at) == OwnMark(sys, at)
            && AtMost(member.node.store.marks, node.store.marks)
  {
    var node := sys.members[at].node;
    assert MemberOk(sys.history, at, sys.members[at]);
    OwnMarkBounds(sys, m);
    AddEffect(limits, sys, at, node.store, m);
    AddOutcome(limits, node.store, m);
    IdTestIsKeyTest(node.store.table, m);
  }

  lemma {:induction false} BatchEvents(limits: Limits, node: Node, batch: seq<ChatMessage>)
    ensures var after := IngestBatch(limits, node, batch).node;
            && after.events == node.events + StoredInBatch(limits, node, batch)
            && after.identity == node.identity && after.next == node.next
  {
    if batch != [] {
      BatchEvents(limits, node, batch[..|batch| - 1]);
    }
  }

  lemma {:induction false} BatchEffect(limits: Limits, sys: System, at: string, node: Node, batch: seq<ChatMessage>)
    requires SystemInvariant(sys) && at in sys.members && AllIn(batch, sys.history)
    requires Sound(node.store) && AllIn(node.store.table, sys.history) && Mark(node.store.marks, at) == OwnMark(sys, at)
    ensures var after := IngestBatch(limits, node, batch).node.store;
            && Sound(after) && AllIn(after.table, sys.history)
            && Mark(after.marks, at) == OwnMark(sys, at) && AtMost(node.store.marks, after.marks)
  {
    if batch != [] {
      var prefix, m := batch[..|batch| - 1], batch[|batch| - 1];
      BatchEffect(limits, sys, at, node, prefix);
      var before := IngestBatch(limits, node, prefix);
      if !before.failed {
        AddEffect(limits, sys, at, before.node.store, m);
        SyncStores(limits, before.node, m);
        AtMostTrans(node.store.marks, before.node.store.marks, IngestBatch(limits, node, batch).node.store.marks);
      }
    }
  }

  lemma SyncStores(limits: Limits, node: Node, m: ChatMessage)
    ensures IngestSync(limits, node, m).0.store == Add(limits, node.store, m).0
  {
  }

  lemma AtMostTrans(a: Marks, b: Marks, c: Marks)
    requires AtMost(a, b) && AtMost(b, c)
    ensures AtMost(a, c)
  {
  }

  lemma BatchKeepsMember(limits: Limits, sys: System, at: string, batch: seq<ChatMessage>)
    requires SystemInvariant(sys) && at in sys.members && AllIn(batch, sys.history)
    ensures var member := sys.members[at];
            var node := IngestBatch(limits, member.node, batch).node;
            var stored := StoredInBatch(limits, member.node, batch);
            && MemberOk(sys.history, at, Member(node, member.up, member.stored + stored))
            && Mark(node.store.marks, at) == OwnMark(sys, at)
            && AtMost(member.node.store.marks, node.store.marks)
  {
    assert MemberOk(sys.history, at, sys.members[at]);
    BatchEvents(limits, sys.members[at].node, batch);
    BatchEffect(limits, sys, at, sys.members[at].node, batch);
  }

  /** A node's next message is new: no message of its origin anywhere has its sequence yet. */
  lemma CreateStores(limits: Limits, sys: System, at: string, body: string, now: int)
    requires SystemInvariant(sys) && at in sys.members
    ensures var node := sys.members[at].node;
            var m := Draft(node, body, now);
            && !Clashes(node.store.table, m)
            && (forall i :: 0 <= i < |sys.history| && sys.history[i].origin == at ==>
                  sys.history[i].sequence < m.sequence)
            && (CreateLocal(limits, node, body, now).1 == Accepted <==> Add(limits, node.store, m).1 == Inserted)
  {
    var node := sys.members[at].node;
    assert MemberOk(sys.history, at, sys.members[at]);
    var m := Draft(node, body, now);
    forall i | 0 <= i < |node.store.table|
      ensures node.store.table[i].id != m.id && !SameKey(node.store.table[i], m)
    {
      var row := node.store.table[i];
      if row.id == m.id {
        MessageIdInjective(row.origin, row.sequence, m.origin, m.sequence);
      }
    }
    forall i | 0 <= i < |sys.history| && sys.history[i].origin == at
      ensures sys.history[i].sequence < m.sequence
    {
      assert Committed(sys.history, sys.history[i]);
    }
    AddOutcome(limits, node.store, m);
  }

  lemma CreateKeepsInvariant(limits: Limits, sys: System, at: string, body: string, now: int, crash: bool)
    requires SystemInvariant(sys) && IsUp(sys, at)
    ensures SystemInvariant(Apply(limits, sys, Create(at, body, now, crash)))
  {
    var member := sys.members[at];
    var m := Draft(member.node, body, now);
    var node := CreateLocal(limits, member.node, body, now).0;
    var stored := NewlyStored(limits, member.node.store, m);
    assert MemberOk(sys.history, at, member);
    CreateStores(limits, sys, at, body, now);
    AddOutcome(limits, member.node.store, m);
    if stored == [] {
      RefusalKeepsSound(limits, member.node.store, m);
      AddKeepsRowsIn(limits, member.node.store, m, sys.history);
      MemberReplaced(sys, at, Settled(member, node, stored, crash));
      assert sys.history + [] == sys.history;
    } else {
      var settled := Settled(member, node, stored, crash);
      var grown := sys.(members := sys.members[at := settled], history := sys.history + [m]);
      CreatedMemberOk(limits, sys, at, m, node);
      SettledOk(grown.history, at, member, node, stored, crash);
      HistoryGrows(sys, at, grown.members[at], m);
      if !crash {
        PacketSent(grown, Push(m));
      }
    }
  }

  lemma RefusalKeepsSound(limits: Limits, s: Store, m: ChatMessage)
    requires Sound(s) && Add(limits, s, m).1 != Inserted
    ensures Sound(Add(limits, s, m).0) && Add(limits, s, m).0.marks == s.marks
  {
    AddOutcome(limits, s, m);
    var after := Add(limits, s, m).0;
    forall i | 0 <= i < |after.table| ensures Wellformed(after.table[i]) {
      AddRows(limits, s, m, after.table[i]);
    }
  }

  lemma CreatedMemberOk(limits: Limits, sys: System, at: string, m: ChatMessage, node: Node)
    requires SystemInvariant(sys) && at in sys.members
    requires m.origin == at && m.id == MessageId(at, m.sequence) && m.sequence == sys.members[at].node.next
    requires Add(limits, sys.members[at].node.store, m).1 == Inserted
    requires node == sys.members[at].node.(store := Add(limits, sys.members[at].node.store, m).0,
                                           next := m.sequence + 1, events := sys.members[at].node.events + [m])
    ensures MemberOk(sys.history + [m], at, Member(node, sys.members[at].up, sys.members[at].stored + [m]))
    ensures Mark(node.store.marks, at) == m.sequence
  {
    var s := sys.members[at].node.store;
    assert MemberOk(sys.history, at, sys.members[at]);
    AddOutcome(limits, s, m);
    AddKeepsSound(limits, s, m);
    assert AllIn(s.table, sys.history + [m]);
    AddKeepsRowsIn(limits, s, m, sys.history + [m]);
  }

  lemma HistoryGrows(sys: System, at: string, member: Member, m: ChatMessage)
    requires SystemInvariant(sys) && at in sys.members
    requires Wellformed(m) && m.origin == at && m.sequence == Mark(member.node.store.marks, at)
    requires forall i :: 0 <= i < |sys.history| && sys.history[i].origin == at ==> sys.history[i].sequence < m.sequence
    requires MemberOk(sys.history + [m], at, member)
    ensures SystemInvariant(sys.(members := sys.members[at := member], history := sys.history + [m]))
  {
    var after := sys.(members := sys.members[at := member], history := sys.history + [m]);
    forall n | n in after.members ensures MemberOk(after.history, n, after.members[n]) {
      if n != at {
        assert MemberOk(sys.history, n, sys.members[n]);
      }
    }
    forall p | p in after.network ensures PacketOk(after.history, p) {
      assert PacketOk(sys.history, p);
    }
    forall x | Committed(after.history, x)
      ensures x.origin in after.members && x.sequence <= OwnMark(after, x.origin)
    {
      if x != m {
        assert Committed(sys.history, x);
      }
    }
  }

  /** Every step keeps the invariant. */
  lemma StepKeepsInvariant(limits: Limits, sys: System, step: Step)
    requires SystemInvariant(sys)
    ensures SystemInvariant(Apply(limits, sys, step))
  {
    match step
    case Create(at, body, now, crash) =>
      if IsUp(sys, at) {
        CreateKeepsInvariant(limits, sys, at, body, now, crash);
      }
    case DeliverPush(at, m, crash) =>
      if IsUp(sys, at) && Push(m) in sys.network {
        assert PacketOk(sys.history, Push(m));
        var member := sys.members[at];
        var node := IngestReplica(limits, member.node, m).0;
        var stored := if HasId(member.node.store.table, m.id) then [] else NewlyStored(limits, member.node.store, m);
        PushKeepsMember(limits, sys, at, m);
        SettledOk(sys.history, at, member, node, stored, crash);
        MemberReplaced(sys, at, Settled(member, node, stored, crash));
      }
    case AnswerSummary(at) =>
      if IsUp(sys, at) {
        PacketSent(sys, Summary(at, sys.members[at].node.store.marks));
      }
    case SendBatch(from, to, marks) =>
      if IsUp(sys, from) {
        assert MemberOk(sys.history, from, sys.members[from]);
        var batch := NextBatch(sys.members[from].node.store.table, marks);
        BatchFromTable(sys.members[from].node.store.table, marks, sys.history);
        PacketSent(sys, Batch(to, batch));
      }
    case DeliverBatch(at, messages, taken, crash) =>
      if IsUp(sys, at) && Batch(at, messages) in sys.network && taken <= |messages| {
        assert PacketOk(sys.history, Batch(at, messages));
        var member := sys.members[at];
        var batch := messages[..taken];
        var node := IngestBatch(limits, member.node, batch).node;
        var stored := StoredInBatch(limits, member.node, batch);
        BatchKeepsMember(limits, sys, at, batch);
        SettledOk(sys.history, at, member, node, stored, crash);
        MemberReplaced(sys, at, Settled(member, node, stored, crash));
      }
    case DieAfterPrune(at, m) =>
      if IsUp(sys, at) {
        assert MemberOk(sys.history, at, sys.members[at]);
        PruneKeepsMember(sys.history, at, sys.members[at]);
        MemberReplaced(sys, at, Boot(sys.members[at].node.identity, Prune(sys.members[at].node.store)));
      }
    case Restart(at) =>
      if at in sys.members {
        assert MemberOk(sys.history, at, sys.members[at]);
        MemberReplaced(sys, at, Boot(sys.members[at].node.identity, sys.members[at].node.store));
      }
  }

  lemma PruneKeepsMember(history: seq<ChatMessage>, at: string, member: Member)
    requires MemberOk(history, at, member)
    ensures MemberOk(history, at, Boot(member.node.identity, Prune(member.node.store)))
  {
    var s := member.node.store;
    var k := Min(PRUNE_COUNT, |s.table|);
    assert forall i :: 0 <= i < |Prune(s).table| ==> Prune(s).table[i] == s.table[k + i];
  }

  lemma BatchFromTable(table: seq<ChatMessage>, marks: Marks, history: seq<ChatMessage>)
    requires AllIn(table, history)
    ensures AllIn(NextBatch(table, marks), history)
  {
    var miss := Missing(table, marks);
    forall i | 0 <= i < |miss| ensures miss[i] in history {
      MissingMember(table, marks, miss[i]);
    }
  }

  /** The invariant holds in every state of every run, crashes, pruning and stale packets included. */
  lemma {:induction false} RunKeepsInvariant(limits: Limits, sys: System, steps: seq<Step>)
    requires Initial(sys)
    ensures SystemInvariant(Run(limits, sys, steps))
  {
    if steps == [] {
      InitialKeepsInvariant(sys);
    } else {
      RunKeepsInvariant(limits, sys, steps[..|steps| - 1]);
      StepKeepsInvariant(limits, Run(limits, sys, steps[..|steps| - 1]), steps[|steps| - 1]);
    }
  }

  // ---- What the invariant gives ----

  /** The message is in some table, in flight, or was ever committed by its origin. */
  ghost predicate Present(sys: System, m: ChatMessage) {
    || m in sys.history
    || (exists n :: n in sys.members && m in sys.members[n].node.store.table)
    || (exists p :: p in sys.network && ((p.Push? && p.message == m) || (p.Batch? && m in p.messages)))
  }

  /** Any two copies of one (origin, sequence), wherever they are, are the same message. */
  lemma CopiesAreIdentical(limits: Limits, sys: System, steps: seq<Step>, a: ChatMessage, b: ChatMessage)
    requires Initial(sys)
    requires Present(Run(limits, sys, steps), a) && Present(Run(limits, sys, steps), b) && SameKey(a, b)
    ensures a == b
  {
    var now := Run(limits, sys, steps);
    RunKeepsInvariant(limits, sys, steps);
    PresentIsHistory(now, a);
    PresentIsHistory(now, b);
    var i :| 0 <= i < |now.history| && now.history[i] == a;
    var j :| 0 <= j < |now.history| && now.history[j] == b;
    assert i == j;
  }

  lemma PresentIsHistory(sys: System, m: ChatMessage)
    requires SystemInvariant(sys) && Present(sys, m)
    ensures m in sys.history
  {
    if n :| n in sys.members && m in sys.members[n].node.store.table {
      assert MemberOk(sys.history, n, sys.members[n]);
    } else if p :| p in sys.network && ((p.Push? && p.message == m) || (p.Batch? && m in p.messages)) {
      assert PacketOk(sys.history, p);
    }
  }

  /**
   * No sequence is ever used twice: in every reachable state the next message a
   * node drafts has a sequence above every message of its origin anywhere.
   */
  lemma NextIsUnused(limits: Limits, sys: System, steps: seq<Step>, at: string, m: ChatMessage)
    requires Initial(sys) && at in Run(limits, sys, steps).members
    requires Present(Run(limits, sys, steps), m) && m.origin == at
    ensures var now := Run(limits, sys, steps);
            m.sequence <= OwnMark(now, at) < now.members[at].node.next
  {
    var now := Run(limits, sys, steps);
    RunKeepsInvariant(limits, sys, steps);
    PresentIsHistory(now, m);
    OwnMarkBounds(now, m);
    assert MemberOk(now.history, at, now.members[at]);
  }

  /** Within a process lifetime the published events are exactly the messages newly stored, in order. */
  lemma EventsExactlyOnce(limits: Limits, sys: System, steps: seq<Step>, at: string)
    requires Initial(sys) && at in Run(limits, sys, steps).members
    ensures Run(limits, sys, steps).members[at].node.events == Run(limits, sys, steps).members[at].stored
  {
    RunKeepsInvariant(limits, sys, steps);
    assert MemberOk(Run(limits, sys, steps).history, at, Run(limits, sys, steps).members[at]);
  }

  /** Durable marks never fall, whatever happens. */
  lemma StepKeepsMarks(limits: Limits, sys: System, step: Step, n: string)
    requires SystemInvariant(sys) && n in sys.members
    ensures n in Apply(limits, sys, step).members
    ensures AtMost(sys.members[n].node.store.marks, Apply(limits, sys, step).members[n].node.store.marks)
  {
    assert MemberOk(sys.history, n, sys.members[n]);
    match step
    case Create(at, body, now, _) =>
      if at == n { AddOutcome(limits, sys.members[n].node.store, Draft(sys.members[n].node, body, now)); }
    case DeliverPush(at, m, _) =>
      if at == n { AddOutcome(limits, sys.members[n].node.store, m); }
    case DeliverBatch(at, messages, taken, _) =>
      if at == n && IsUp(sys, n) && Batch(n, messages) in sys.network && taken <= |messages| {
        assert PacketOk(sys.history, Batch(n, messages));
        BatchKeepsMember(limits, sys, n, messages[..taken]);
      }
    case _ =>
  }

  /** So along every run a mark, once reached, is reached for good: pruning and restarts included. */
  lemma {:induction false} MarksNeverFall(limits: Limits, sys: System, steps: seq<Step>, k: nat, n: string)
    requires Initial(sys) && k <= |steps| && n in Run(limits, sys, steps[..k]).members
    ensures n in Run(limits, sys, steps).members
    ensures AtMost(Run(limits, sys, steps[..k]).members[n].node.store.marks,
                   Run(limits, sys, steps).members[n].node.store.marks)
    decreases |steps|
  {
    if k == |steps| {
      assert steps[..k] == steps;
    } else {
      var before := steps[..|steps| - 1];
      assert before[..k] == steps[..k];
      MarksNeverFall(limits, sys, before, k, n);
      RunKeepsInvariant(limits, sys, before);
      StepKeepsMarks(limits, Run(limits, sys, before), steps[|steps| - 1], n);
    }
  }
}
