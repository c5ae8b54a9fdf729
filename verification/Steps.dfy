/** What each step of a run does, under any limits: what changes, by how much, and what does not. */
module Steps {
  import opened Messages
  import opened StoreModel
  import opened ServiceModel
  import opened SyncModel
  import opened SyncGaps
  import opened Replication

  /** A daemon's own start is the start of a run's member. */
  lemma StartIsBoot(identity: Identity, store: Store)
    requires Mark(store.marks, identity.nodeId) != MAX_SEQUENCE
    ensures Start(identity, store) == Boot(identity, store).node && Boot(identity, store).up
    ensures Start(identity, store).next == Mark(store.marks, identity.nodeId) + 1 && Start(identity, store).events == []
  {
  }

  /** Only the member `at` may differ, and nothing is sent or committed. */
  ghost predicate OnlyMember(sys: System, after: System, at: string) {
    && after.network == sys.network && after.history == sys.history && OthersStay(sys, after, at)
  }

  ghost predicate OthersStay(sys: System, after: System, at: string) {
    && at in after.members && after.members.Keys == sys.members.Keys
    && forall n :: n in sys.members && n != at ==> after.members[n] == sys.members[n]
  }

  /** The member begins a new lifetime: volatile state is new, and it is up unless no sequence is left. */
  ghost predicate BornAgain(member: Member, identity: Identity, store: Store) {
    && member.node.identity == identity && member.node.store == store
    && member.node.next == Mark(store.marks, identity.nodeId) + 1
    && member.node.events == [] && member.stored == []
    && (member.up <==> Mark(store.marks, identity.nodeId) != 0x7FFF_FFFF_FFFF_FFFF)
  }

  /** There is room for the message, at once or once the 100 oldest rows are gone. */
  ghost predicate FitsIn(limits: Limits, s: Store, m: ChatMessage) {
    Takes(limits, s.table, s.marks, m) || Takes(limits, Younger(s.table), s.marks, m)
  }

  /** The arrival of a message that nodes made, at a store that holds only such messages. */
  lemma ArrivalExactly(limits: Limits, s: Store, m: ChatMessage)
    requires AllWellformed(s.table) && Wellformed(m)
    ensures var (after, outcome) := Add(limits, s, m);
            var known := HasKey(s.table, m.origin, m.sequence);
            && (outcome == Ignored <==> known)
            && (outcome == Inserted <==> !known && FitsIn(limits, s, m))
            && (outcome == Full <==> !known && !FitsIn(limits, s, m))
            && (HasKey(after.table, m.origin, m.sequence) <==> known || FitsIn(limits, s, m))
            && (outcome == Inserted ==> after.table != [] && after.table[|after.table| - 1] == m)
  {
    AddExactly(limits, s, m);
    RepeatsClashes(s, m);
    KeyTaken(s.table, m);
    var after := Add(limits, s, m).0;
    if Add(limits, s, m).1 == Inserted {
      assert after.table[|after.table| - 1] == m;
    }
  }

  /**
   * A delivered push: afterwards the store has the message if it had it or has
   * room for it; without a crash it is published exactly if it was stored; and
   * nothing else in the network changes.
   */
  lemma PushStep(limits: Limits, sys: System, at: string, m: ChatMessage, crash: bool)
    requires SystemInvariant(sys) && IsUp(sys, at) && Push(m) in sys.network
    ensures var after := Apply(limits, sys, DeliverPush(at, m, crash));
            && OnlyMember(sys, after, at)
            && var before, s, now := sys.members[at], sys.members[at].node.store, after.members[at];
               var known := HasKey(s.table, m.origin, m.sequence);
               && now.node.store == Add(limits, s, m).0
               && (HasKey(now.node.store.table, m.origin, m.sequence) <==> known || FitsIn(limits, s, m))
               && (crash ==> BornAgain(now, before.node.identity, now.node.store))
               && (!crash ==>
                     && now.up && now.node.identity == before.node.identity && now.node.next == before.node.next
                     && now.node.events == before.node.events + (if !known && FitsIn(limits, s, m) then [m] else [])
                     && now.stored == before.stored + (if !known && FitsIn(limits, s, m) then [m] else []))
  {
    var node := sys.members[at].node;
    assert MemberOk(sys.history, at, sys.members[at]) && PacketOk(sys.history, Push(m));
    OwnMarkBounds(sys, m);
    ArrivalExactly(limits, node.store, m);
    ReplicaExactly(limits, node, m);
    IdTestIsKeyTest(node.store.table, m);
    KeyTaken(node.store.table, m);
    AddExactly(limits, node.store, m);
  }

  /**
   * A create: if the sequence is in range and the disk has room, the message is in
   * the author's table and in the history, and without a crash it is published
   * and its push is sent; else nothing is.
   */
  lemma CreateStep(limits: Limits, sys: System, at: string, body: string, now: int, crash: bool)
    requires SystemInvariant(sys) && IsUp(sys, at)
    ensures var before, s, m := sys.members[at], sys.members[at].node.store, Draft(sys.members[at].node, body, now);
            var after := Apply(limits, sys, Create(at, body, now, crash));
            var done := before.node.next <= 0x7FFF_FFFF_FFFF_FFFF && FitsIn(limits, s, m);
            && OthersStay(sys, after, at)
            && after.history == sys.history + (if done then [m] else [])
            && after.network == sys.network + (if done && !crash then {Push(m)} else {})
            && (m in after.members[at].node.store.table <==> done)
            && after.members[at].node.store == Add(limits, s, m).0
            && (crash ==> BornAgain(after.members[at], before.node.identity, after.members[at].node.store))
            && (!crash ==>
                  && after.members[at].up && after.members[at].node.identity == before.node.identity
                  && after.members[at].node.next == before.node.next + 1
                  && after.members[at].node.events == before.node.events + (if done then [m] else [])
                  && after.members[at].stored == before.stored + (if done then [m] else []))
  {
    var node, m := sys.members[at].node, Draft(sys.members[at].node, body, now);
    assert MemberOk(sys.history, at, sys.members[at]);
    CreateStores(limits, sys, at, body, now);
    CreateExactly(limits, node, body, now);
    AddExactly(limits, node.store, m);
    RepeatsClashes(node.store, m);
    NewRow(limits, node.store, m);
  }

  lemma NewRow(limits: Limits, s: Store, m: ChatMessage)
    requires !Clashes(s.table, m)
    ensures m in Add(limits, s, m).0.table <==> Add(limits, s, m).1 == Inserted
  {
    var after := Add(limits, s, m).0.table;
    if Add(limits, s, m).1 == Inserted {
      assert after[|after| - 1] == m;
    } else {
      forall i | 0 <= i < |after| ensures after[i] != m {
        AddRows(limits, s, m, after[i]);
      }
    }
  }

  /** A summary carries the node's marks as they are. */
  lemma AnswerStep(limits: Limits, sys: System, at: string)
    requires IsUp(sys, at)
    ensures var after := Apply(limits, sys, AnswerSummary(at));
            && after.members == sys.members && after.history == sys.history
            && after.network == sys.network + {Summary(at, sys.members[at].node.store.marks)}
  {
  }

  /** For a summary, stale or not, the sender posts the first 50 rows above its marks, if there are any. */
  lemma SendStep(limits: Limits, sys: System, from: string, to: string, marks: Marks)
    requires IsUp(sys, from) && Summary(to, marks) in sys.network
    ensures var after := Apply(limits, sys, SendBatch(from, to, marks));
            var missing := Missing(sys.members[from].node.store.table, marks);
            var batch := if |missing| <= 50 then missing else missing[..50];
            && after.members == sys.members && after.history == sys.history
            && after.network == sys.network + (if missing == [] then {} else {Batch(to, batch)})
  {
    var missing := Missing(sys.members[from].node.store.table, marks);
    assert missing[..|missing|] == missing;
  }

  /** A delivered batch is ingested message by message, all of it, or a front part that a crash cuts off. */
  lemma BatchStep(limits: Limits, sys: System, at: string, messages: seq<ChatMessage>, taken: nat, crash: bool)
    requires IsUp(sys, at) && Batch(at, messages) in sys.network
    requires taken == |messages| || (taken < |messages| && crash)
    ensures var before := sys.members[at];
            var after := Apply(limits, sys, DeliverBatch(at, messages, taken, crash));
            var r := IngestBatch(limits, before.node, messages[..taken]);
            && OnlyMember(sys, after, at)
            && after.members[at].node.store == r.node.store
            && (crash ==> BornAgain(after.members[at], before.node.identity, r.node.store))
            && (!crash ==>
                  && after.members[at].up && after.members[at].node == r.node
                  && before.node.events <= r.node.events
                  && after.members[at].stored == before.stored + r.node.events[|before.node.events|..])
  {
    BatchEvents(limits, sys.members[at].node, messages[..taken]);
  }

  /** Every message of a batch, by its turn, is in the store, or the batch has failed by then. */
  lemma BatchArrives(limits: Limits, node: Node, batch: seq<ChatMessage>, m: ChatMessage)
    requires Sound(node.store) && AllWellformed(batch) && Wellformed(m)
    ensures var r := IngestBatch(limits, node, batch + [m]);
            r.failed || HasKey(r.node.store.table, m.origin, m.sequence)
  {
    BatchInTurn(limits, node, batch, m);
    BatchKeepsSound(limits, node, batch);
    var before := IngestBatch(limits, node, batch);
    if !before.failed {
      ArrivalExactly(limits, before.node.store, m);
      SyncExactly(limits, before.node, m);
    }
  }

  /** A process that dies after the prune of a full add leaves the younger rows and all marks. */
  lemma DieStep(limits: Limits, sys: System, at: string, m: ChatMessage)
    requires IsUp(sys, at)
    ensures var before, s := sys.members[at], sys.members[at].node.store;
            var after := Apply(limits, sys, DieAfterPrune(at, m));
            if m.sequence <= 0x7FFF_FFFF_FFFF_FFFF && !Repeats(s, m) && !Takes(limits, s.table, s.marks, m)
            then && OnlyMember(sys, after, at)
                 && BornAgain(after.members[at], before.node.identity, Store(Younger(s.table), s.marks))
            else after == sys
  {
    RepeatsClashes(sys.members[at].node.store, m);
  }

  lemma RestartStep(limits: Limits, sys: System, at: string)
    requires at in sys.members
    ensures var before, after := sys.members[at], Apply(limits, sys, Restart(at));
            OnlyMember(sys, after, at) && BornAgain(after.members[at], before.node.identity, before.node.store)
  {
  }

  /** A step whose process is down, or whose packet was never sent, changes nothing. */
  lemma IdleStep(limits: Limits, sys: System, step: Step)
    requires match step
             case Create(at, _, _, _) => !IsUp(sys, at)
             case DeliverPush(at, m, _) => !IsUp(sys, at) || Push(m) !in sys.network
             case AnswerSummary(at) => !IsUp(sys, at)
             case SendBatch(from, to, marks) => !IsUp(sys, from) || Summary(to, marks) !in sys.network
             case DeliverBatch(at, messages, taken, crash) =>
               || !IsUp(sys, at) || Batch(at, messages) !in sys.network || taken > |messages|
               || (taken < |messages| && !crash)
             case DieAfterPrune(at, _) => !IsUp(sys, at)
             case Restart(at) => at !in sys.members
    ensures Apply(limits, sys, step) == sys
  {
  }

  /** A run is its steps one after the other. */
  lemma RunInTurn(limits: Limits, sys: System, steps: seq<Step>, step: Step)
    ensures Run(limits, sys, []) == sys
    ensures Run(limits, sys, steps + [step]) == Apply(limits, Run(limits, sys, steps), step)
  {
    assert (steps + [step])[..|steps|] == steps;
  }
}
