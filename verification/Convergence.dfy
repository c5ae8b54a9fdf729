/**
 * Runs without pruning in which pushes arrive in order per origin: there every store
 * holds, of each origin, exactly what lies below its mark, and once no node has
 * anything to send to another, all nodes hold the same messages.
 */
module Convergence {
  import opened Messages
  import opened StoreModel
  import opened ServiceModel
  import opened SyncModel
  import opened Replication

  /** A push at most one above the receiver's mark; and no step ever meets a full database. */
  ghost predicate Orderly(limits: Limits, sys: System, step: Step) {
    && NothingPruned(limits, sys, step)
    && (step.DeliverPush? && step.at in sys.members ==>
          step.message.sequence <= Mark(sys.members[step.at].node.store.marks, step.message.origin) + 1)
  }

  ghost predicate OrderlyRun(limits: Limits, sys: System, steps: seq<Step>) {
    steps == [] || (
      && OrderlyRun(limits, sys, steps[..|steps| - 1])
      && Orderly(limits, Run(limits, sys, steps[..|steps| - 1]), steps[|steps| - 1]))
  }

  /** Each message in turn lies at most one above the marks reached so far. */
  predicate InOrder(marks: Marks, messages: seq<ChatMessage>) {
    messages == [] || (
      var prefix, m := messages[..|messages| - 1], messages[|messages| - 1];
      InOrder(marks, prefix) && m.sequence <= Mark(RaiseAll(marks, prefix), m.origin) + 1)
  }

  ghost predicate SameMarks(a: Marks, b: Marks) {
    forall origin :: Mark(a, origin) == Mark(b, origin)
  }

  /** The store holds exactly the committed messages up to its marks, ascending per origin. */
  ghost predicate Closed(history: seq<ChatMessage>, s: Store) {
    && Sound(s) && AllIn(s.table, history)
    && HoldsBelowMarks(history, s)
    && AscendingPerOrigin(s.table)
    && InOrder(map[], s.table) && SameMarks(s.marks, RaiseAll(map[], s.table))
  }

  ghost predicate HoldsBelowMarks(history: seq<ChatMessage>, s: Store) {
    forall m {:trigger Committed(history, m)} ::
      Committed(history, m) && m.sequence <= Mark(s.marks, m.origin) ==> m in s.table
  }

  ghost predicate PacketInOrder(sys: System, packet: Packet) {
    match packet
    case Push(_) => true
    case Summary(about, marks) => about in sys.members && AtMost(marks, sys.members[about].node.store.marks)
    case Batch(to, messages) => to in sys.members && InOrder(sys.members[to].node.store.marks, messages)
  }

  /** Sequences are handed out one by one, until none is left. */
  ghost predicate NextInLine(sys: System, n: string)
    requires n in sys.members
  {
    var next := sys.members[n].node.next;
    next == OwnMark(sys, n) + 1 || next > MAX_SEQUENCE
  }

  ghost predicate ClosureInvariant(sys: System) {
    && SystemInvariant(sys)
    && (forall n :: n in sys.members ==> Closed(sys.history, sys.members[n].node.store) && NextInLine(sys, n))
    && (forall p :: p in sys.network ==> PacketInOrder(sys, p))
  }

  // ---- InOrder ----

  lemma {:induction false} RaiseAllMonotone(a: Marks, b: Marks, messages: seq<ChatMessage>)
    requires AtMost(a, b)
    ensures AtMost(RaiseAll(a, messages), RaiseAll(b, messages))
  {
    if messages != [] {
      RaiseAllMonotone(a, b, messages[..|messages| - 1]);
      var prefix, m := messages[..|messages| - 1], messages[|messages| - 1];
      RaiseMonotone(RaiseAll(a, prefix), RaiseAll(b, prefix), m);
    }
  }

  lemma RaiseMonotone(a: Marks, b: Marks, m: ChatMessage)
    requires AtMost(a, b)
    ensures AtMost(Raise(a, m), Raise(b, m))
  {
    forall origin ensures Mark(Raise(a, m), origin) <= Mark(Raise(b, m), origin) {
      assert Mark(a, origin) <= Mark(b, origin);
    }
  }

  /** What is in order for some marks stays so while the marks rise. */
  lemma {:induction false} InOrderMonotone(a: Marks, b: Marks, messages: seq<ChatMessage>)
    requires AtMost(a, b) && InOrder(a, messages)
    ensures InOrder(b, messages)
  {
    if messages != [] {
      var prefix := messages[..|messages| - 1];
      InOrderMonotone(a, b, prefix);
      RaiseAllMonotone(a, b, prefix);
    }
  }

  lemma {:induction false} InOrderFront(marks: Marks, messages: seq<ChatMessage>, k: nat)
    requires InOrder(marks, messages) && k <= |messages|
    ensures InOrder(marks, messages[..k])
    decreases |messages|
  {
    if k < |messages| {
      InOrderFront(marks, messages[..|messages| - 1], k);
      assert messages[..|messages| - 1][..k] == messages[..k];
    } else {
      assert messages[..k] == messages;
    }
  }

  /** What a table shows to be missing above some marks is in order for those marks. */
  lemma {:induction false} MissingInOrder(table: seq<ChatMessage>, marks: Marks)
    requires InOrder(map[], table)
    ensures InOrder(marks, Missing(table, marks))
    ensures AtMost(RaiseAll(map[], table), RaiseAll(marks, Missing(table, marks)))
  {
    if table != [] {
      var prefix, m := table[..|table| - 1], table[|table| - 1];
      var rest := Missing(prefix, marks);
      var reached, raised := RaiseAll(map[], prefix), RaiseAll(marks, rest);
      MissingInOrder(prefix, marks);
      RaiseAllCovers(marks, rest);
      assert Mark(reached, m.origin) <= Mark(raised, m.origin);
      if m.sequence > Mark(marks, m.origin) {
        RaiseAllAppend(marks, rest, m);
        RaiseMonotone(reached, raised, m);
        assert (rest + [m])[..|rest|] == rest;
      } else {
        assert Mark(marks, m.origin) <= Mark(raised, m.origin);
        RaiseWithin(reached, raised, m);
      }
    }
  }

  lemma RaiseWithin(a: Marks, b: Marks, m: ChatMessage)
    requires AtMost(a, b) && m.sequence <= Mark(b, m.origin)
    ensures AtMost(Raise(a, m), b)
  {
    forall origin ensures Mark(Raise(a, m), origin) <= Mark(b, origin) {
      assert Mark(a, origin) <= Mark(b, origin);
    }
  }

  // ---- One insertion ----

  lemma UnlimitedAdd(s: Store, m: ChatMessage)
    requires Wellformed(m)
    ensures Add(UNLIMITED, s, m) ==
              if Clashes(s.table, m) then (s, Ignored) else (Store(s.table + [m], Raise(s.marks, m)), Inserted)
  {
  }

  /** A message at most one above the mark leaves a closed store closed. */
  lemma InsertionKeepsClosed(history: seq<ChatMessage>, s: Store, m: ChatMessage)
    requires AllWellformed(history) && UniqueInHistory(history)
    requires Closed(history, s) && m in history && Wellformed(m)
    requires m.sequence <= Mark(s.marks, m.origin) + 1
    ensures var after := Add(UNLIMITED, s, m).0;
            Closed(history, after) && SameMarks(after.marks, Raise(s.marks, m))
  {
    UnlimitedAdd(s, m);
    if m.sequence <= Mark(s.marks, m.origin) {
      assert Committed(history, m);
      var i :| 0 <= i < |s.table| && s.table[i] == m;
    } else {
      AboveMarkIsNew(s, m);
      AddKeepsSound(UNLIMITED, s, m);
      AppendHoldsBelow(history, s, m);
      AppendAscends(s, m);
      AppendInOrder(s, m);
    }
  }

  lemma AppendHoldsBelow(history: seq<ChatMessage>, s: Store, m: ChatMessage)
    requires UniqueInHistory(history) && HoldsBelowMarks(history, s) && m in history
    requires m.sequence == Mark(s.marks, m.origin) + 1
    ensures HoldsBelowMarks(history, Store(s.table + [m], Raise(s.marks, m)))
  {
    var marks := Raise(s.marks, m);
    forall x | Committed(history, x) && x.sequence <= Mark(marks, x.origin) ensures x in s.table + [m] {
      if x.sequence > Mark(s.marks, x.origin) {
        assert Committed(history, m) && SameKey(x, m);
      }
    }
  }

  lemma AppendInOrder(s: Store, m: ChatMessage)
    requires InOrder(map[], s.table) && SameMarks(s.marks, RaiseAll(map[], s.table))
    requires m.sequence <= Mark(s.marks, m.origin) + 1
    ensures InOrder(map[], s.table + [m])
    ensures SameMarks(Raise(s.marks, m), RaiseAll(map[], s.table + [m]))
  {
    assert (s.table + [m])[..|s.table|] == s.table;
    SameMarksRaised(s.marks, RaiseAll(map[], s.table), m);
  }

  lemma SameMarksRaised(a: Marks, b: Marks, m: ChatMessage)
    requires SameMarks(a, b)
    ensures SameMarks(Raise(a, m), Raise(b, m))
  {
    forall origin ensures Mark(Raise(a, m), origin) == Mark(Raise(b, m), origin) {
      assert Mark(a, origin) == Mark(b, origin);
    }
  }

  ghost predicate UniqueInHistory(history: seq<ChatMessage>) {
    forall a, b {:trigger Committed(history, a), Committed(history, b)} ::
      Committed(history, a) && Committed(history, b) && SameKey(a, b) ==> a == b
  }

  lemma AscendingIsUnique(history: seq<ChatMessage>)
    requires AscendingPerOrigin(history)
    ensures UniqueInHistory(history)
  {
  }

  lemma AboveMarkIsNew(s: Store, m: ChatMessage)
    requires Sound(s) && Wellformed(m) && m.sequence > Mark(s.marks, m.origin)
    ensures !Clashes(s.table, m)
  {
    forall i | 0 <= i < |s.table| ensures s.table[i].id != m.id && !SameKey(s.table[i], m) {
      KeysAgree(s.table[i], m);
    }
  }

  lemma AppendAscends(s: Store, m: ChatMessage)
    requires Sound(s) && AscendingPerOrigin(s.table) && m.sequence > Mark(s.marks, m.origin)
    ensures AscendingPerOrigin(s.table + [m])
  {
    assert forall i :: 0 <= i < |s.table| ==> (s.table + [m])[i] == s.table[i];
  }

  lemma SyncKeepsClosed(history: seq<ChatMessage>, node: Node, reached: Marks, m: ChatMessage)
    requires AllWellformed(history) && UniqueInHistory(history)
    requires Closed(history, node.store) && m in history && Wellformed(m)
    requires SameMarks(node.store.marks, reached) && m.sequence <= Mark(node.store.marks, m.origin) + 1
    ensures var (after, reply) := IngestSync(UNLIMITED, node, m);
            reply != Failed && Closed(history, after.store) && SameMarks(after.store.marks, Raise(reached, m))
  {
    InsertionKeepsClosed(history, node.store, m);
    UnlimitedSync(node, m);
    SameMarksRaised(node.store.marks, reached, m);
    SameMarksTrans(Add(UNLIMITED, node.store, m).0.marks, Raise(node.store.marks, m), Raise(reached, m));
  }

  lemma UnlimitedSync(node: Node, m: ChatMessage)
    requires Wellformed(m)
    ensures var (after, reply) := IngestSync(UNLIMITED, node, m);
            reply != Failed && after.store == Add(UNLIMITED, node.store, m).0
  {
    UnlimitedAdd(node.store, m);
  }

  lemma SameMarksTrans(a: Marks, b: Marks, c: Marks)
    requires SameMarks(a, b) && SameMarks(b, c)
    ensures SameMarks(a, c)
  {
    forall origin ensures Mark(a, origin) == Mark(c, origin) {
      assert Mark(a, origin) == Mark(b, origin);
    }
  }

  lemma NextOfBatch(history: seq<ChatMessage>, start: Marks, s: Store, batch: seq<ChatMessage>)
    requires AllWellformed(history) && AllIn(batch, history) && InOrder(start, batch) && batch != []
    requires SameMarks(s.marks, RaiseAll(start, batch[..|batch| - 1]))
    ensures var m := batch[|batch| - 1];
            m in history && Wellformed(m) && m.sequence <= Mark(s.marks, m.origin) + 1
  {
    var m := batch[|batch| - 1];
    assert m in history;
    var i :| 0 <= i < |history| && history[i] == m;
  }

  /** A batch in order leaves a closed store closed, after every single message of it. */
  lemma {:induction false} BatchKeepsClosed(history: seq<ChatMessage>, node: Node, batch: seq<ChatMessage>)
    requires AllWellformed(history) && UniqueInHistory(history)
    requires Closed(history, node.store) && AllIn(batch, history) && InOrder(node.store.marks, batch)
    ensures var r := IngestBatch(UNLIMITED, node, batch);
            && !r.failed
            && Closed(history, r.node.store)
            && SameMarks(r.node.store.marks, RaiseAll(node.store.marks, batch))
  {
    if batch != [] {
      var prefix, m := batch[..|batch| - 1], batch[|batch| - 1];
      assert AllIn(prefix, history) && InOrder(node.store.marks, prefix);
      BatchKeepsClosed(history, node, prefix);
      var before := IngestBatch(UNLIMITED, node, prefix).node;
      NextOfBatch(history, node.store.marks, before.store, batch);
      SyncKeepsClosed(history, before, RaiseAll(node.store.marks, prefix), m);
    }
  }

  // ---- Steps ----

  lemma ClosedMemberReplaced(sys: System, at: string, member: Member)
    requires ClosureInvariant(sys) && at in sys.members
    requires SystemInvariant(sys.(members := sys.members[at := member]))
    requires Closed(sys.history, member.node.store)
    requires member.node.next == Mark(member.node.store.marks, at) + 1 || member.node.next > MAX_SEQUENCE
    requires AtMost(sys.members[at].node.store.marks, member.node.store.marks)
    ensures ClosureInvariant(sys.(members := sys.members[at := member]))
  {
    var after := sys.(members := sys.members[at := member]);
    forall n | n in after.members ensures Closed(after.history, after.members[n].node.store) && NextInLine(after, n) {
      if n != at {
        assert Closed(sys.history, sys.members[n].node.store) && NextInLine(sys, n);
      }
    }
    PacketsStayInOrder(sys, after);
  }

  lemma PacketsStayInOrder(sys: System, after: System)
    requires forall p :: p in sys.network ==> PacketInOrder(sys, p)
    requires after.network == sys.network && sys.members.Keys <= after.members.Keys
    requires forall n :: n in sys.members ==> AtMost(sys.members[n].node.store.marks, after.members[n].node.store.marks)
    ensures forall p :: p in after.network ==> PacketInOrder(after, p)
  {
    forall p | p in after.network ensures PacketInOrder(after, p) {
      assert PacketInOrder(sys, p);
      match p
      case Push(_) =>
      case Summary(about, marks) =>
        AtMostTrans(marks, sys.members[about].node.store.marks, after.members[about].node.store.marks);
      case Batch(to, messages) =>
        InOrderMonotone(sys.members[to].node.store.marks, after.members[to].node.store.marks, messages);
    }
  }

  lemma ClosedPacketSent(sys: System, packet: Packet)
    requires ClosureInvariant(sys) && PacketOk(sys.history, packet) && PacketInOrder(sys, packet)
    ensures ClosureInvariant(sys.(network := sys.network + {packet}))
  {
    var after := sys.(network := sys.network + {packet});
    PacketSent(sys, packet);
    forall p | p in after.network ensures PacketInOrder(after, p) {
      assert PacketInOrder(sys, p);
    }
    forall n | n in after.members ensures Closed(after.history, after.members[n].node.store) && NextInLine(after, n) {
      assert Closed(sys.history, sys.members[n].node.store) && NextInLine(sys, n);
    }
  }

  /** No mark runs ahead of the origin's own. */
  lemma MarksBehindOrigin(sys: System, n: string, origin: string)
    requires ClosureInvariant(sys) && n in sys.members && origin in sys.members
    ensures Mark(sys.members[n].node.store.marks, origin) <= OwnMark(sys, origin)
  {
    var s := sys.members[n].node.store;
    assert Closed(sys.history, s);
    forall i | 0 <= i < |s.table| && s.table[i].origin == origin
      ensures s.table[i].sequence < OwnMark(sys, origin) + 1
    {
      OwnMarkBounds(sys, s.table[i]);
    }
    RaiseAllBound(map[], s.table, origin, OwnMark(sys, origin) + 1);
    assert Mark(s.marks, origin) == Mark(RaiseAll(map[], s.table), origin);
  }

  /** The other stores stay closed when an origin commits its next message. */
  lemma OthersStayClosed(sys: System, n: string, m: ChatMessage)
    requires ClosureInvariant(sys) && n in sys.members && m.origin in sys.members
    requires m.sequence > OwnMark(sys, m.origin)
    ensures Closed(sys.history + [m], sys.members[n].node.store)
  {
    var s := sys.members[n].node.store;
    MarksBehindOrigin(sys, n, m.origin);
    assert Closed(sys.history, s);
    forall x | Committed(sys.history + [m], x) && x.sequence <= Mark(s.marks, x.origin) ensures x in s.table {
      assert x != m && Committed(sys.history, x);
    }
  }

  /** The author's own store stays closed. */
  lemma AuthorStaysClosed(sys: System, after: System, m: ChatMessage)
    requires ClosureInvariant(sys) && SystemInvariant(after) && m.origin in sys.members && Wellformed(m)
    requires m.sequence == OwnMark(sys, m.origin) + 1 && after.history == sys.history + [m]
    ensures var s := sys.members[m.origin].node.store;
            Closed(after.history, Store(s.table + [m], Raise(s.marks, m)))
  {
    var s := sys.members[m.origin].node.store;
    OthersStayClosed(sys, m.origin, m);
    AscendingIsUnique(after.history);
    InsertionKeepsClosed(after.history, s, m);
    AboveMarkIsNew(s, m);
    UnlimitedAdd(s, m);
  }

  lemma SettledFacts(member: Member, node: Node, stored: seq<ChatMessage>, crash: bool)
    ensures var settled := Settled(member, node, stored, crash).node;
            && settled.store == node.store
            && (settled.next == node.next || settled.next == Mark(node.store.marks, node.identity.nodeId) + 1)
  {
  }

  lemma CreateKeepsClosure(sys: System, at: string, body: string, now: int, crash: bool)
    requires ClosureInvariant(sys) && IsUp(sys, at)
    ensures ClosureInvariant(Apply(UNLIMITED, sys, Create(at, body, now, crash)))
  {
    var member := sys.members[at];
    assert NextInLine(sys, at) && MemberOk(sys.history, at, member);
    StepKeepsInvariant(UNLIMITED, sys, Create(at, body, now, crash));
    if member.node.next > MAX_SEQUENCE {
      CreateExhausted(sys, at, body, now, crash);
    } else {
      CreateNext(sys, at, body, now, crash);
    }
  }

  lemma CreateExhausted(sys: System, at: string, body: string, now: int, crash: bool)
    requires ClosureInvariant(sys) && IsUp(sys, at) && sys.members[at].node.next > MAX_SEQUENCE
    requires SystemInvariant(Apply(UNLIMITED, sys, Create(at, body, now, crash)))
    ensures ClosureInvariant(Apply(UNLIMITED, sys, Create(at, body, now, crash)))
  {
    var member := sys.members[at];
    var m := Draft(member.node, body, now);
    var node := CreateLocal(UNLIMITED, member.node, body, now).0;
    assert Add(UNLIMITED, member.node.store, m) == (member.node.store, OutOfRange);
    assert sys.history + [] == sys.history;
    SettledFacts(member, node, [], crash);
    assert MemberOk(sys.history, at, member) && Closed(sys.history, member.node.store);
    ClosedMemberReplaced(sys, at, Settled(member, node, [], crash));
  }

  lemma CreateNext(sys: System, at: string, body: string, now: int, crash: bool)
    requires ClosureInvariant(sys) && IsUp(sys, at) && sys.members[at].node.next <= MAX_SEQUENCE
    requires SystemInvariant(Apply(UNLIMITED, sys, Create(at, body, now, crash)))
    ensures ClosureInvariant(Apply(UNLIMITED, sys, Create(at, body, now, crash)))
  {
    var m := Draft(sys.members[at].node, body, now);
    assert NextInLine(sys, at) && MemberOk(sys.history, at, sys.members[at]);
    CreateStores(UNLIMITED, sys, at, body, now);
    CreateEffect(sys, at, body, now, crash);
    CreatedSystemClosed(sys, Apply(UNLIMITED, sys, Create(at, body, now, crash)), at, m);
  }

  lemma CreateEffect(sys: System, at: string, body: string, now: int, crash: bool)
    requires IsUp(sys, at) && sys.members[at].node.identity.nodeId == at
    requires sys.members[at].node.next == OwnMark(sys, at) + 1 <= MAX_SEQUENCE
    requires !Clashes(sys.members[at].node.store.table, Draft(sys.members[at].node, body, now))
    ensures var after := Apply(UNLIMITED, sys, Create(at, body, now, crash));
            CreatedFrom(sys, after, at, Draft(sys.members[at].node, body, now))
  {
    var member := sys.members[at];
    var m := Draft(member.node, body, now);
    UnlimitedAdd(member.node.store, m);
    SettledFacts(member, CreateLocal(UNLIMITED, member.node, body, now).0, [m], crash);
  }

  /** What a successful create leaves behind. */
  ghost predicate CreatedFrom(sys: System, after: System, at: string, m: ChatMessage)
    requires at in sys.members
  {
    && after.history == sys.history + [m]
    && after.network <= sys.network + {Push(m)}
    && after.members.Keys == sys.members.Keys
    && (forall n :: n in sys.members && n != at ==> after.members[n] == sys.members[n])
    && (var s := sys.members[at].node.store;
        after.members[at].node.store == Store(s.table + [m], Raise(s.marks, m)))
    && NextInLine(after, at)
  }

  lemma CreatedSystemClosed(sys: System, after: System, at: string, m: ChatMessage)
    requires ClosureInvariant(sys) && SystemInvariant(after) && at in sys.members
    requires m.origin == at && Wellformed(m) && m.sequence == OwnMark(sys, at) + 1
    requires CreatedFrom(sys, after, at, m)
    ensures ClosureInvariant(after)
  {
    forall n | n in after.members
      ensures Closed(after.history, after.members[n].node.store) && NextInLine(after, n)
      ensures AtMost(sys.members[n].node.store.marks, after.members[n].node.store.marks)
    {
      if n != at {
        OtherMember(sys, after, n, m);
      } else {
        RaiseKeeps(sys.members[at].node.store.marks, m);
        AuthorStaysClosed(sys, after, m);
      }
    }
    CreatePackets(sys, after, m);
  }

  lemma RaiseKeeps(marks: Marks, m: ChatMessage)
    ensures AtMost(marks, Raise(marks, m))
  {
  }

  lemma OtherMember(sys: System, after: System, n: string, m: ChatMessage)
    requires ClosureInvariant(sys) && n in sys.members && n in after.members && after.members[n] == sys.members[n]
    requires m.origin in sys.members && m.sequence > OwnMark(sys, m.origin) && after.history == sys.history + [m]
    ensures Closed(after.history, after.members[n].node.store) && NextInLine(after, n)
  {
    OthersStayClosed(sys, n, m);
    assert NextInLine(sys, n);
  }

  lemma CreatePackets(sys: System, after: System, m: ChatMessage)
    requires forall p :: p in sys.network ==> PacketInOrder(sys, p)
    requires after.network <= sys.network + {Push(m)} && sys.members.Keys <= after.members.Keys
    requires forall n :: n in sys.members ==> AtMost(sys.members[n].node.store.marks, after.members[n].node.store.marks)
    ensures forall p :: p in after.network ==> PacketInOrder(after, p)
  {
    var trimmed := after.(network := sys.network);
    PacketsStayInOrder(sys, trimmed);
    forall p | p in after.network ensures PacketInOrder(after, p) {
      if p in sys.network {
        assert PacketInOrder(trimmed, p);
      }
    }
  }

  lemma PushKeepsClosure(sys: System, at: string, m: ChatMessage, crash: bool)
    requires ClosureInvariant(sys) && IsUp(sys, at) && Push(m) in sys.network
    requires m.sequence <= Mark(sys.members[at].node.store.marks, m.origin) + 1
    ensures ClosureInvariant(Apply(UNLIMITED, sys, DeliverPush(at, m, crash)))
  {
    var after := Apply(UNLIMITED, sys, DeliverPush(at, m, crash));
    var s := sys.members[at].node.store;
    StepKeepsInvariant(UNLIMITED, sys, DeliverPush(at, m, crash));
    assert PacketOk(sys.history, Push(m));
    OwnMarkBounds(sys, m);
    AscendingIsUnique(sys.history);
    PushKeepsMember(UNLIMITED, sys, at, m);
    assert Closed(sys.history, s) && NextInLine(sys, at) && MemberOk(sys.history, at, sys.members[at]);
    PushKeepsStoreClosed(sys.history, sys.members[at].node, m);
    ClosedMemberReplaced(sys, at, after.members[at]);
  }

  lemma PushKeepsStoreClosed(history: seq<ChatMessage>, node: Node, m: ChatMessage)
    requires AllWellformed(history) && UniqueInHistory(history)
    requires Closed(history, node.store) && m in history && Wellformed(m)
    requires m.sequence <= Mark(node.store.marks, m.origin) + 1
    ensures var after := IngestReplica(UNLIMITED, node, m).0;
            Closed(history, after.store) && after.next == node.next && after.identity == node.identity
  {
    InsertionKeepsClosed(history, node.store, m);
  }

  lemma BatchPartKeepsClosed(history: seq<ChatMessage>, node: Node, messages: seq<ChatMessage>, taken: nat)
    requires AllWellformed(history) && UniqueInHistory(history) && taken <= |messages|
    requires Closed(history, node.store) && AllIn(messages, history) && InOrder(node.store.marks, messages)
    ensures Closed(history, IngestBatch(UNLIMITED, node, messages[..taken]).node.store)
  {
    InOrderFront(node.store.marks, messages, taken);
    BatchKeepsClosed(history, node, messages[..taken]);
  }

  lemma DeliveryKeepsClosure(sys: System, at: string, messages: seq<ChatMessage>, taken: nat, crash: bool)
    requires ClosureInvariant(sys) && IsUp(sys, at) && Batch(at, messages) in sys.network
    requires taken <= |messages| && (taken == |messages| || crash)
    ensures ClosureInvariant(Apply(UNLIMITED, sys, DeliverBatch(at, messages, taken, crash)))
  {
    StepKeepsInvariant(UNLIMITED, sys, DeliverBatch(at, messages, taken, crash));
    DeliveryEffect(sys, at, messages, taken, crash);
    DeliveredSystemClosed(sys, Apply(UNLIMITED, sys, DeliverBatch(at, messages, taken, crash)), at, messages, taken);
  }

  lemma DeliveryEffect(sys: System, at: string, messages: seq<ChatMessage>, taken: nat, crash: bool)
    requires IsUp(sys, at) && Batch(at, messages) in sys.network
    requires taken <= |messages| && (taken == |messages| || crash)
    ensures DeliveredFrom(sys, Apply(UNLIMITED, sys, DeliverBatch(at, messages, taken, crash)), at, messages, taken)
  {
    var node := IngestBatch(UNLIMITED, sys.members[at].node, messages[..taken]).node;
    BatchEvents(UNLIMITED, sys.members[at].node, messages[..taken]);
    SettledFacts(sys.members[at], node, StoredInBatch(UNLIMITED, sys.members[at].node, messages[..taken]), crash);
  }

  /** What the delivery of a batch, or of the part before a crash, leaves behind. */
  ghost predicate DeliveredFrom(sys: System, after: System, at: string, messages: seq<ChatMessage>, taken: nat)
    requires at in sys.members && taken <= |messages|
  {
    && at in after.members
    && after == sys.(members := sys.members[at := after.members[at]])
    && var before, node := sys.members[at].node, after.members[at].node;
       && node.store == IngestBatch(UNLIMITED, before, messages[..taken]).node.store
       && (node.next == before.next || node.next == Mark(node.store.marks, before.identity.nodeId) + 1)
  }

  lemma DeliveredSystemClosed(sys: System, after: System, at: string, messages: seq<ChatMessage>, taken: nat)
    requires ClosureInvariant(sys) && SystemInvariant(after) && at in sys.members && Batch(at, messages) in sys.network
    requires taken <= |messages| && DeliveredFrom(sys, after, at, messages, taken)
    ensures ClosureInvariant(after)
  {
    assert PacketOk(sys.history, Batch(at, messages)) && PacketInOrder(sys, Batch(at, messages));
    AscendingIsUnique(sys.history);
    assert Closed(sys.history, sys.members[at].node.store) && NextInLine(sys, at);
    assert MemberOk(sys.history, at, sys.members[at]);
    BatchPartKeepsClosed(sys.history, sys.members[at].node, messages, taken);
    BatchKeepsMember(UNLIMITED, sys, at, messages[..taken]);
    ClosedMemberReplaced(sys, at, after.members[at]);
  }

  lemma SendKeepsClosure(sys: System, from: string, to: string, marks: Marks)
    requires ClosureInvariant(sys) && IsUp(sys, from) && Summary(to, marks) in sys.network
    ensures ClosureInvariant(Apply(UNLIMITED, sys, SendBatch(from, to, marks)))
  {
    var batch := NextBatch(sys.members[from].node.store.table, marks);
    SentBatchOk(sys, from, to, marks);
    ClosedPacketSent(sys, Batch(to, batch));
  }

  lemma SentBatchOk(sys: System, from: string, to: string, marks: Marks)
    requires ClosureInvariant(sys) && from in sys.members && Summary(to, marks) in sys.network
    ensures var packet := Batch(to, NextBatch(sys.members[from].node.store.table, marks));
            PacketOk(sys.history, packet) && PacketInOrder(sys, packet)
  {
    var table := sys.members[from].node.store.table;
    assert PacketInOrder(sys, Summary(to, marks));
    assert Closed(sys.history, sys.members[from].node.store);
    NextBatchInOrder(table, marks, sys.members[to].node.store.marks);
    BatchFromTable(table, marks, sys.history);
  }

  lemma NextBatchInOrder(table: seq<ChatMessage>, marks: Marks, later: Marks)
    requires InOrder(map[], table) && AtMost(marks, later)
    ensures InOrder(later, NextBatch(table, marks))
  {
    var miss := Missing(table, marks);
    MissingInOrder(table, marks);
    InOrderFront(marks, miss, Min(MAX_SYNC_BATCH_MESSAGES, |miss|));
    InOrderMonotone(marks, later, NextBatch(table, marks));
  }

  /** Every orderly step keeps the closure. */
  lemma {:induction false} StepKeepsClosure(limits: Limits, sys: System, step: Step)
    requires ClosureInvariant(sys) && Orderly(limits, sys, step)
    ensures ClosureInvariant(Apply(limits, sys, step))
  {
    match step
    case Create(at, body, now, crash) =>
      if IsUp(sys, at) { CreateKeepsClosure(sys, at, body, now, crash); }
    case DeliverPush(at, m, crash) =>
      if IsUp(sys, at) && Push(m) in sys.network { PushKeepsClosure(sys, at, m, crash); }
    case AnswerSummary(at) =>
      if IsUp(sys, at) { ClosedPacketSent(sys, Summary(at, sys.members[at].node.store.marks)); }
    case SendBatch(from, to, marks) =>
      if IsUp(sys, from) && Summary(to, marks) in sys.network { SendKeepsClosure(sys, from, to, marks); }
    case DeliverBatch(at, messages, taken, crash) =>
      if IsUp(sys, at) && Batch(at, messages) in sys.network && taken <= |messages| && (taken == |messages| || crash) {
        DeliveryKeepsClosure(sys, at, messages, taken, crash);
      }
    case DieAfterPrune(at, m) => NeverFull(sys, at, m);
    case Restart(at) => RestartKeepsClosure(sys, at);
  }

  lemma NeverFull(sys: System, at: string, m: ChatMessage)
    ensures Apply(UNLIMITED, sys, DieAfterPrune(at, m)) == sys
  {
  }

  lemma RestartKeepsClosure(sys: System, at: string)
    requires ClosureInvariant(sys)
    ensures ClosureInvariant(Apply(UNLIMITED, sys, Restart(at)))
  {
    if at in sys.members {
      StepKeepsInvariant(UNLIMITED, sys, Restart(at));
      assert Closed(sys.history, sys.members[at].node.store) && MemberOk(sys.history, at, sys.members[at]);
      ClosedMemberReplaced(sys, at, Apply(UNLIMITED, sys, Restart(at)).members[at]);
    }
  }

  lemma InitiallyClosed(sys: System)
    requires Initial(sys)
    ensures ClosureInvariant(sys)
  {
    InitialKeepsInvariant(sys);
  }

  /**
   * In every orderly run each store holds, per origin, exactly the messages that
   * the origin committed with a sequence at or below the store's mark, in
   * ascending storage order: under loss, duplication, reordering, stale
   * summaries, crashes in the middle of a batch, and restarts.
   */
  lemma {:induction false} OrderlyRunsStayClosed(limits: Limits, sys: System, steps: seq<Step>)
    requires Initial(sys) && OrderlyRun(limits, sys, steps)
    ensures ClosureInvariant(Run(limits, sys, steps))
  {
    if steps == [] {
      InitiallyClosed(sys);
    } else {
      OrderlyRunsStayClosed(limits, sys, steps[..|steps| - 1]);
      StepKeepsClosure(limits, Run(limits, sys, steps[..|steps| - 1]), steps[|steps| - 1]);
    }
  }

  /** Runs in which no push arrives are orderly, whatever else happens on roomy disks. */
  lemma {:induction false} SyncOnlyRunsAreOrderly(sys: System, steps: seq<Step>)
    requires forall i :: 0 <= i < |steps| ==> !steps[i].DeliverPush?
    ensures OrderlyRun(UNLIMITED, sys, steps)
  {
    if steps != [] {
      SyncOnlyRunsAreOrderly(sys, steps[..|steps| - 1]);
    }
  }

  /** And a push may join such a run if it comes next, or is no news, for its receiver. */
  lemma PushMayJoin(sys: System, steps: seq<Step>, at: string, m: ChatMessage, crash: bool)
    requires OrderlyRun(UNLIMITED, sys, steps) && at in Run(UNLIMITED, sys, steps).members
    ensures OrderlyRun(UNLIMITED, sys, steps + [DeliverPush(at, m, crash)]) <==>
            m.sequence <= Mark(Run(UNLIMITED, sys, steps).members[at].node.store.marks, m.origin) + 1
  {
    assert (steps + [DeliverPush(at, m, crash)])[..|steps|] == steps;
  }

  /** The closure, read off for one node, origin and message. */
  lemma HoldsExactlyBelowMark(limits: Limits, sys: System, steps: seq<Step>, n: string, m: ChatMessage)
    requires Initial(sys) && OrderlyRun(limits, sys, steps) && n in Run(limits, sys, steps).members
    ensures var now := Run(limits, sys, steps);
            var s := now.members[n].node.store;
            && (m in s.table <==> m in now.history && m.sequence <= Mark(s.marks, m.origin))
            && (forall origin, k :: HasKey(s.table, origin, k) <==> 1 <= k <= Mark(s.marks, origin))
            && AscendingPerOrigin(s.table)
  {
    OrderlyRunsStayClosed(limits, sys, steps);
    ClosedMeans(Run(limits, sys, steps), n, m);
    NoGaps(Run(limits, sys, steps), n);
  }

  lemma NoGaps(sys: System, n: string)
    requires ClosureInvariant(sys) && n in sys.members
    ensures var s := sys.members[n].node.store;
            forall origin, k :: HasKey(s.table, origin, k) <==> 1 <= k <= Mark(s.marks, origin)
  {
    var s := sys.members[n].node.store;
    assert Closed(sys.history, s);
    forall origin, k ensures HasKey(s.table, origin, k) <==> 1 <= k <= Mark(s.marks, origin) {
      if 1 <= k <= Mark(s.marks, origin) {
        InOrderCovers(s.table, origin, k);
      }
    }
  }

  /** A table in order holds every sequence up to the highest. */
  lemma {:induction false} InOrderCovers(table: seq<ChatMessage>, origin: string, k: int)
    requires InOrder(map[], table) && 1 <= k <= Mark(RaiseAll(map[], table), origin)
    ensures HasKey(table, origin, k)
  {
    if table != [] {
      var prefix, m := table[..|table| - 1], table[|table| - 1];
      if k <= Mark(RaiseAll(map[], prefix), origin) {
        InOrderCovers(prefix, origin, k);
        var i :| 0 <= i < |prefix| && prefix[i].origin == origin && prefix[i].sequence == k;
        assert table[i] == prefix[i];
      } else {
        assert table[|table| - 1].origin == origin && table[|table| - 1].sequence == k;
      }
    }
  }

  /**
   * The guard of the run class is exact: a committed message that reaches a
   * closed store leaves it closed if and only if it lies at most one above the mark.
   */
  lemma PushOrderExactly(sys: System, at: string, m: ChatMessage)
    requires ClosureInvariant(sys) && at in sys.members && m in sys.history
    ensures var s := sys.members[at].node.store;
            Closed(sys.history, Add(UNLIMITED, s, m).0) <==> m.sequence <= Mark(s.marks, m.origin) + 1
  {
    var s := sys.members[at].node.store;
    assert Closed(sys.history, s);
    OwnMarkBounds(sys, m);
    AscendingIsUnique(sys.history);
    if m.sequence <= Mark(s.marks, m.origin) + 1 {
      InsertionKeepsClosed(sys.history, s, m);
    } else {
      LeapBreaksClosure(sys, at, m);
    }
  }

  lemma LeapBreaksClosure(sys: System, at: string, m: ChatMessage)
    requires ClosureInvariant(sys) && at in sys.members && m in sys.history
    requires m.sequence > Mark(sys.members[at].node.store.marks, m.origin) + 1
    ensures !HoldsBelowMarks(sys.history, Add(UNLIMITED, sys.members[at].node.store, m).0)
  {
    var s := sys.members[at].node.store;
    var next := Mark(s.marks, m.origin) + 1;
    OwnMarkBounds(sys, m);
    NoGaps(sys, m.origin);
    NoGaps(sys, at);
    var own := sys.members[m.origin].node.store.table;
    assert HasKey(own, m.origin, next);
    var i :| 0 <= i < |own| && own[i].origin == m.origin && own[i].sequence == next;
    ClosedMeans(sys, m.origin, own[i]);
    assert Closed(sys.history, s);
    AboveMarkIsNew(s, m);
    UnlimitedAdd(s, m);
    assert Committed(sys.history, own[i]);
    assert own[i] in s.table ==> HasKey(s.table, m.origin, next);
  }

  lemma ClosedMeans(sys: System, n: string, m: ChatMessage)
    requires ClosureInvariant(sys) && n in sys.members
    ensures var s := sys.members[n].node.store;
            && (m in s.table <==> m in sys.history && m.sequence <= Mark(s.marks, m.origin))
            && AscendingPerOrigin(s.table)
  {
    var s := sys.members[n].node.store;
    assert Closed(sys.history, s);
    assert m in sys.history ==> Committed(sys.history, m);
    if m in s.table {
      var i :| 0 <= i < |s.table| && s.table[i] == m;
    }
  }
}