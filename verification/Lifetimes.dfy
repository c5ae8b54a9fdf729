/** What one process lifetime publishes: each message once, as long as nothing is pruned. */
module Lifetimes {
  import opened Messages
  import opened StoreModel
  import opened ServiceModel
  import opened SyncModel
  import opened SyncGaps
  import opened Replication
  import opened Convergence

  ghost predicate RunWithoutPruning(limits: Limits, sys: System, steps: seq<Step>) {
    steps == [] || (
      && RunWithoutPruning(limits, sys, steps[..|steps| - 1])
      && NothingPruned(limits, Run(limits, sys, steps[..|steps| - 1]), steps[|steps| - 1]))
  }

  /** On disks without limits every run is one. */
  lemma {:induction false} UnlimitedRunsDoNotPrune(sys: System, steps: seq<Step>)
    ensures RunWithoutPruning(UNLIMITED, sys, steps)
  {
    if steps != [] {
      UnlimitedRunsDoNotPrune(sys, steps[..|steps| - 1]);
    }
  }

  /** What was stored in this lifetime is there still, each key once. */
  predicate KeptOnce(stored: seq<ChatMessage>, table: seq<ChatMessage>) {
    UniqueKeys(stored) && AllIn(stored, table)
  }

  lemma OneMoreKept(s: Store, stored: seq<ChatMessage>, m: ChatMessage)
    requires KeptOnce(stored, s.table)
    ensures KeptOnce(stored + NewlyStored(UNLIMITED, s, m), Add(UNLIMITED, s, m).0.table)
  {
    if Add(UNLIMITED, s, m).1 == Inserted {
      forall i | 0 <= i < |stored| ensures stored[i].id != m.id && !SameKey(stored[i], m) {
        assert stored[i] in s.table;
        var k :| 0 <= k < |s.table| && s.table[k] == stored[i];
      }
      assert NewlyStored(UNLIMITED, s, m) == [m] && Add(UNLIMITED, s, m).0.table == s.table + [m];
    } else {
      assert stored + [] == stored;
    }
  }

  lemma {:induction false} BatchKept(node: Node, stored: seq<ChatMessage>, batch: seq<ChatMessage>)
    requires KeptOnce(stored, node.store.table)
    ensures var after := IngestBatch(UNLIMITED, node, batch).node.store;
            KeptOnce(stored + StoredInBatch(UNLIMITED, node, batch), after.table)
  {
    if batch == [] {
      assert stored + [] == stored;
    } else {
      var prefix, m := batch[..|batch| - 1], batch[|batch| - 1];
      var before := IngestBatch(UNLIMITED, node, prefix);
      var sofar := StoredInBatch(UNLIMITED, node, prefix);
      BatchKept(node, stored, prefix);
      if before.failed {
        assert sofar + [] == sofar;
      } else {
        OneMoreKept(before.node.store, stored + sofar, m);
        SyncStores(UNLIMITED, before.node, m);
        assert stored + sofar + NewlyStored(UNLIMITED, before.node.store, m)
            == stored + (sofar + NewlyStored(UNLIMITED, before.node.store, m));
      }
    }
  }

  lemma SettledKept(member: Member, node: Node, stored: seq<ChatMessage>, crash: bool)
    requires KeptOnce(member.stored + stored, node.store.table)
    ensures var settled := Settled(member, node, stored, crash); KeptOnce(settled.stored, settled.node.store.table)
  {
  }

  lemma StepKeepsKept(sys: System, step: Step, n: string)
    requires n in sys.members && KeptOnce(sys.members[n].stored, sys.members[n].node.store.table)
    ensures var after := Apply(UNLIMITED, sys, step);
            n in after.members && KeptOnce(after.members[n].stored, after.members[n].node.store.table)
  {
    var member := sys.members[n];
    match step
    case Create(at, body, now, crash) =>
      if at == n && IsUp(sys, n) {
        var m := Draft(member.node, body, now);
        OneMoreKept(member.node.store, member.stored, m);
        var stored := NewlyStored(UNLIMITED, member.node.store, m);
        SettledKept(member, CreateLocal(UNLIMITED, member.node, body, now).0, stored, crash);
      }
    case DeliverPush(at, m, crash) =>
      if at == n && IsUp(sys, n) {
        PushKept(member.node, member.stored, m);
        var stored := if HasId(member.node.store.table, m.id) then [] else NewlyStored(UNLIMITED, member.node.store, m);
        SettledKept(member, IngestReplica(UNLIMITED, member.node, m).0, stored, crash);
      }
    case DeliverBatch(at, messages, taken, crash) =>
      if at == n && IsUp(sys, n) && taken <= |messages| {
        var batch := messages[..taken];
        BatchKept(member.node, member.stored, batch);
        var stored := StoredInBatch(UNLIMITED, member.node, batch);
        SettledKept(member, IngestBatch(UNLIMITED, member.node, batch).node, stored, crash);
      }
    case DieAfterPrune(at, m) => NeverFull(sys, at, m);
    case _ =>
  }

  lemma PushKept(node: Node, stored: seq<ChatMessage>, m: ChatMessage)
    requires KeptOnce(stored, node.store.table)
    ensures var arrival := if HasId(node.store.table, m.id) then [] else NewlyStored(UNLIMITED, node.store, m);
            KeptOnce(stored + arrival, IngestReplica(UNLIMITED, node, m).0.store.table)
  {
    if HasId(node.store.table, m.id) {
      assert stored + [] == stored;
    } else {
      OneMoreKept(node.store, stored, m);
    }
  }

  /**
   * In a run without pruning no process publishes a message twice, however often
   * it arrives, and all that it published it still holds.
   */
  lemma {:induction false} PublishedOnce(limits: Limits, sys: System, steps: seq<Step>, n: string)
    requires Initial(sys) && RunWithoutPruning(limits, sys, steps) && n in Run(limits, sys, steps).members
    ensures var member := Run(limits, sys, steps).members[n];
            UniqueKeys(member.node.events) && AllIn(member.node.events, member.node.store.table)
  {
    KeptThroughout(limits, sys, steps, n);
    EventsExactlyOnce(limits, sys, steps, n);
  }

  lemma {:induction false} KeptThroughout(limits: Limits, sys: System, steps: seq<Step>, n: string)
    requires Initial(sys) && RunWithoutPruning(limits, sys, steps) && n in Run(limits, sys, steps).members
    ensures var member := Run(limits, sys, steps).members[n]; KeptOnce(member.stored, member.node.store.table)
  {
    if steps != [] {
      var before, step := Run(limits, sys, steps[..|steps| - 1]), steps[|steps| - 1];
      assert n in before.members;
      KeptThroughout(limits, sys, steps[..|steps| - 1], n);
      StepKeepsKept(before, step, n);
    }
  }

  /**
   * What a single arrival does, in any state: the message is published if and
   * only if its key is not in the table and it fits, now or after the prune. So a
   * message is published again exactly if it was pruned since.
   */
  lemma PublishedExactly(limits: Limits, node: Node, m: ChatMessage)
    requires Sound(node.store) && Wellformed(m)
    ensures var fits := Room(limits, node.store, m) || Room(limits, Prune(node.store), m);
            var published := if !HasKey(node.store.table, m.origin, m.sequence) && fits then [m] else [];
            && IngestReplica(limits, node, m).0.events == node.events + published
            && IngestSync(limits, node, m).0.events == node.events + published
  {
    KeyTaken(node.store.table, m);
    IdTestIsKeyTest(node.store.table, m);
    AddOutcome(limits, node.store, m);
    assert node.events + [] == node.events;
  }

  /** A database with room for one message. */
  const TINY: Limits := Limits(1, (table, marks) => |table|)

  /**
   * With pruning the guarantee ends: a push repeated after the prune of its
   * message is stored and published a second time.
   */
  lemma PrunedIsPublishedAgain(identity: Identity, first: ChatMessage, second: ChatMessage)
    requires Wellformed(first) && Wellformed(second) && !SameKey(first, second)
    ensures var once := IngestReplica(TINY, Start(identity, EMPTY), first).0;
            var pruned := IngestReplica(TINY, once, second).0;
            IngestReplica(TINY, pruned, first).0.events == [first, second, first]
  {
    KeysAgree(first, second);
    TinyPush(Start(identity, EMPTY), first);
    TinyPush(IngestReplica(TINY, Start(identity, EMPTY), first).0, second);
    TinyPush(IngestReplica(TINY, IngestReplica(TINY, Start(identity, EMPTY), first).0, second).0, first);
  }

  lemma TinyPush(node: Node, m: ChatMessage)
    requires |node.store.table| <= 1 && !Clashes(node.store.table, m) && Wellformed(m)
    ensures var after := IngestReplica(TINY, node, m).0;
            after.store.table == [m] && after.events == node.events + [m]
  {
  }
}
