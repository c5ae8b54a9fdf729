/**
 * How catch-up loses a message that lies above the receiver's marks: a sender that
 * took two messages of one origin in the wrong order cuts a batch between them.
 */
module BatchCuts {
  import opened Messages
  import opened Utf8
  import opened StoreModel
  import opened ServiceModel
  import opened SyncModel
  import opened CatchUp
  import opened SyncGaps
  import opened Replication
  import opened Convergence
  import opened Agreement
  import opened MessageCodec
  import opened Payloads
  import opened PayloadLimits

  /** A node that took the second message of `o`, made `k` of its own, and took the first of `o` late. */
  function LateTaker(o: Identity, x: Identity, now: int, k: nat): Node {
    var first, second := FirstDraft(o, "one", now), SecondDraft(o, "one", "two", now);
    var early := IngestReplica(UNLIMITED, Start(x, EMPTY), second).0;
    IngestReplica(UNLIMITED, Written(early, "hello", now, k), first).0
  }

  /** Its table: the two messages of `o` in the wrong order, with its own between them. */
  function LateTable(o: Identity, x: Identity, now: int, k: nat): seq<ChatMessage> {
    [SecondDraft(o, "one", "two", now)] + Drafts(Start(x, EMPTY), "hello", now, k) + [FirstDraft(o, "one", now)]
  }

  ghost predicate ValidIdentity(identity: Identity) {
    ValidNodeId(identity.nodeId) && ValidCallsign(identity.callsign)
  }

  lemma LateTakerLaw(o: Identity, x: Identity, now: int, k: nat)
    requires ValidIdentity(o) && IsInt64(now) && o.nodeId != x.nodeId && k < MAX_SEQUENCE
    ensures var s := LateTaker(o, x, now, k).store;
            Sound(s) && s.table == LateTable(o, x, now, k) && s.marks == RaiseAll(map[], LateTable(o, x, now, k))
  {
    var first, second := FirstDraft(o, "one", now), SecondDraft(o, "one", "two", now);
    ShortBodies();
    DraftsAreOwn(o, "one", "two", now);
    EarlyTaken(Start(x, EMPTY), second);
    var early := IngestReplica(UNLIMITED, Start(x, EMPTY), second).0;
    WrittenLaw(early, "hello", now, k);
    SameDrafts(early, Start(x, EMPTY), "hello", now, k);
    LatePush(Written(early, "hello", now, k), second, Drafts(Start(x, EMPTY), "hello", now, k), first, x.nodeId) by {
      DraftsAt(Start(x, EMPTY), "hello", now, k);
    }
  }

  lemma EarlyTaken(x0: Node, second: ChatMessage)
    requires x0.store == EMPTY && Wellformed(second)
    ensures var early := IngestReplica(UNLIMITED, x0, second).0;
            && early == x0.(store := Store([second], RaiseAll(map[], [second])), events := x0.events + [second])
            && Sound(early.store)
  {
    NewPush(x0, second);
    RaiseAllAppend(map[], [], second);
    assert [] + [second] == [second];
  }

  lemma {:induction false} SameDrafts(a: Node, b: Node, body: string, now: int, n: nat)
    requires a.identity == b.identity && a.next == b.next
    ensures Drafts(a, body, now, n) == Drafts(b, body, now, n)
  {
    if n > 0 {
      SameDrafts(a, b, body, now, n - 1);
    }
  }

  lemma ShortBodies()
    ensures ValidBody("one") && ValidBody("two") && ValidBody("hello")
  {
    AsciiIsUtf8("one");
    AsciiIsUtf8("two");
    AsciiIsUtf8("hello");
  }

  /** The late push is stored: only its id is looked for. */
  lemma LatePush(before: Node, second: ChatMessage, own: seq<ChatMessage>, first: ChatMessage, nodeId: string)
    requires Sound(before.store) && before.store.table == [second] + own
    requires before.store.marks == RaiseAll(RaiseAll(map[], [second]), own)
    requires Wellformed(first) && !SameKey(first, second) && first.origin != nodeId
    requires forall i :: 0 <= i < |own| ==> own[i].origin == nodeId
    ensures var after := IngestReplica(UNLIMITED, before, first).0.store;
            && Sound(after) && after.table == [second] + own + [first]
            && after.marks == RaiseAll(map[], [second] + own + [first])
  {
    NotTakenYet(before.store.table, second, own, first, nodeId);
    UnlimitedAdd(before.store, first);
    AddKeepsSound(UNLIMITED, before.store, first);
    RaiseAllSplits(map[], [second], own);
    RaiseAllAppend(map[], [second] + own, first);
  }

  lemma NotTakenYet(table: seq<ChatMessage>, second: ChatMessage, own: seq<ChatMessage>, first: ChatMessage,
                    nodeId: string)
    requires table == [second] + own && AllWellformed(table) && Wellformed(first)
    requires !SameKey(first, second) && first.origin != nodeId && forall i :: 0 <= i < |own| ==> own[i].origin == nodeId
    ensures !Clashes(table, first)
  {
    forall i | 0 <= i < |table| ensures table[i].id != first.id && !SameKey(table[i], first) {
      KeysAgree(table[i], first);
    }
  }

  /** The cuts of that table ascend if and only if the two messages of `o` fall into one batch. */
  lemma CutBetween(first: ChatMessage, second: ChatMessage, own: seq<ChatMessage>, nodeId: string)
    requires first.origin == second.origin != nodeId && first.sequence < second.sequence
    requires forall i :: 0 <= i < |own| ==> own[i].origin == nodeId && own[i].sequence == i + 1
    ensures CutsAscend([second] + own + [first]) <==> |own| + 2 <= MAX_SYNC_BATCH_MESSAGES
  {
    var table := [second] + own + [first];
    var last := |table| - 1;
    assert table[0] == second && table[last] == first;
    assert forall i :: 0 < i < last ==> table[i] == own[i - 1];
    if |table| <= MAX_SYNC_BATCH_MESSAGES {
      assert RoundsNeeded(|table|) <= 1;
    } else {
      assert !CutAscends(table, MAX_SYNC_BATCH_MESSAGES);
      assert MAX_SYNC_BATCH_MESSAGES * 1 == MAX_SYNC_BATCH_MESSAGES && 1 < RoundsNeeded(|table|);
    }
  }

  // ---- All payloads are within their limits ----

  lemma LateTableIsModest(o: Identity, x: Identity, now: int, k: nat)
    requires ValidIdentity(o) && ValidIdentity(x) && IsInt64(now) && k < MAX_SEQUENCE
    ensures var table := LateTable(o, x, now, k);
            AllModest(table) && forall i :: 0 <= i < |table| ==> table[i].origin in {o.nodeId, x.nodeId}
  {
    var table := LateTable(o, x, now, k);
    ShortBodies();
    DraftsAreOwn(o, "one", "two", now);
    DraftsAt(Start(x, EMPTY), "hello", now, k);
    forall i | 0 <= i < |table| ensures Modest(table[i]) && table[i].origin in {o.nodeId, x.nodeId} {
      if 1 <= i < |table| - 1 {
        assert table[i] == Drafts(Start(x, EMPTY), "hello", now, k)[i - 1];
      }
      ShortIsModest(table[i]);
    }
  }

  lemma ShortIsModest(m: ChatMessage)
    requires OwnMessage(m) && |m.body| <= 5
    ensures Modest(m)
  {
    EscapedBounds(m.body);
    EscapedBounds(m.callsign);
  }

  lemma {:induction false} NamesOf(messages: seq<ChatMessage>, names: set<string>)
    requires forall i :: 0 <= i < |messages| ==> OwnMessage(messages[i]) && messages[i].origin in names
    ensures NamedMarks(RaiseAll(map[], messages)) && RaiseAll(map[], messages).Keys <= names
  {
    if messages != [] {
      NamesOf(messages[..|messages| - 1], names);
    }
  }

  /** The node, and a peer that knows nothing, are a modest mesh. */
  lemma LateTakerIsModest(o: Identity, x: Identity, now: int, k: nat)
    requires ValidIdentity(o) && ValidIdentity(x) && IsInt64(now) && o.nodeId != x.nodeId && k < MAX_SEQUENCE
    ensures ModestMesh(LateTaker(o, x, now, k).store, map[])
  {
    LateTakerLaw(o, x, now, k);
    LateTableIsModest(o, x, now, k);
    NamesOf(LateTable(o, x, now, k), {o.nodeId, x.nodeId});
    TwoNames(LateTaker(o, x, now, k).store.marks, o.nodeId, x.nodeId);
  }

  lemma TwoNames(marks: Marks, a: string, b: string)
    requires marks.Keys <= {a, b}
    ensures |marks| <= 2 && |EMPTY.marks.Keys + marks.Keys| <= 2
  {
    SubsetIsSmaller(marks.Keys, {a, b});
    assert EMPTY.marks.Keys + marks.Keys == marks.Keys;
  }

  // ---- What the first round does ----

  /** One round brings a fresh peer the first batch. */
  lemma FirstRound(sender: Store, peer: Node)
    requires Sound(sender) && ModestMesh(sender, map[]) && peer.store == EMPTY
    ensures var after := Round(UNLIMITED, DAEMON, sender, peer).node.store;
            && Sound(after) && after.table == FirstBatch(sender.table)
            && after.marks == RaiseAll(map[], FirstBatch(sender.table))
  {
    AllMissing(sender.table);
    ModestRoundPasses(sender, map[]);
    FreshPeerTakes(DAEMON, sender, peer);
  }

  lemma FreshPeerTakes(wire: Wire, sender: Store, peer: Node)
    requires Sound(sender) && Passes(wire, sender, map[]) && peer.store == EMPTY
    requires Missing(sender.table, map[]) == sender.table
    ensures var after := Round(UNLIMITED, wire, sender, peer).node.store;
            && Sound(after) && after.table == FirstBatch(sender.table)
            && after.marks == RaiseAll(map[], FirstBatch(sender.table))
  {
    NextBatchIsFresh(sender.table, peer.store);
    FreshBatchTaken(peer, FirstBatch(sender.table));
  }

  lemma FreshBatchTaken(peer: Node, batch: seq<ChatMessage>)
    requires peer.store == EMPTY && Fresh(EMPTY, batch)
    ensures var after := IngestBatch(UNLIMITED, peer, batch).node.store;
            Sound(after) && after.table == batch && after.marks == RaiseAll(map[], batch)
  {
    UnlimitedFreshBatch(peer, batch);
    FreshBatchNeverWasted(UNLIMITED, peer, batch);
    BatchKeepsSound(UNLIMITED, peer, batch);
    assert batch[..|batch|] == batch && [] + batch == batch;
  }

  /**
   * A message above the receiver's mark that no push ever brought it, held by the
   * sender, with room on every disk and every payload within its limit: if the
   * sender made 49 messages or more between the two of `o`, one round lifts the
   * mark over the first, and no round with any peer ever brings it.
   */
  lemma CutOffForEver(o: Identity, x: Identity, y: Identity, now: int, k: nat, limits: Limits, senders: seq<Store>)
    requires ValidIdentity(o) && ValidIdentity(x) && IsInt64(now) && o.nodeId != x.nodeId
    requires MAX_SYNC_BATCH_MESSAGES - 1 <= k < MAX_SEQUENCE && forall j :: 0 <= j < |senders| ==> Sound(senders[j])
    ensures var sender, peer := LateTaker(o, x, now, k).store, Start(y, EMPTY);
            var after := Round(UNLIMITED, DAEMON, sender, peer).node;
            && ModestMesh(sender, peer.store.marks)
            && HasKey(sender.table, o.nodeId, 1) && Mark(peer.store.marks, o.nodeId) == 0
            && Mark(after.store.marks, o.nodeId) == 2
            && !HasKey(Visits(limits, DAEMON, senders, after).store.table, o.nodeId, 1)
  {
    var sender, peer := LateTaker(o, x, now, k).store, Start(y, EMPTY);
    LateTakerLaw(o, x, now, k);
    LateTakerIsModest(o, x, now, k);
    FirstRound(sender, peer);
    FrontHolds(o, x, now, k);
    GapStays(limits, DAEMON, senders, Round(UNLIMITED, DAEMON, sender, peer).node, o.nodeId, 1);
  }

  lemma FrontHolds(o: Identity, x: Identity, now: int, k: nat)
    requires ValidIdentity(o) && IsInt64(now) && o.nodeId != x.nodeId && k >= MAX_SYNC_BATCH_MESSAGES - 1
    ensures var table := LateTable(o, x, now, k);
            && HasKey(table, o.nodeId, 1) && !HasKey(FirstBatch(table), o.nodeId, 1)
            && Mark(RaiseAll(map[], FirstBatch(table)), o.nodeId) == 2
  {
    var table := LateTable(o, x, now, k);
    var front := FirstBatch(table);
    ShortBodies();
    DraftsAreOwn(o, "one", "two", now);
    DraftsAt(Start(x, EMPTY), "hello", now, k);
    assert table[|table| - 1] == FirstDraft(o, "one", now) && front[0] == SecondDraft(o, "one", "two", now);
    assert forall i :: 0 < i < |front| ==> front[i] == Drafts(Start(x, EMPTY), "hello", now, k)[i - 1];
    RaiseAllBound(map[], front, o.nodeId, 3);
    RaiseAllCovers(map[], front);
  }

  /** The same run with fewer messages between the two loses nothing. */
  lemma LateTakerCutsExactly(o: Identity, x: Identity, now: int, k: nat)
    requires ValidIdentity(o) && IsInt64(now) && o.nodeId != x.nodeId && k < MAX_SEQUENCE
    ensures CutsAscend(Missing(LateTaker(o, x, now, k).store.table, map[])) <==> k + 2 <= MAX_SYNC_BATCH_MESSAGES
  {
    LateTakerLaw(o, x, now, k);
    AllMissing(LateTable(o, x, now, k));
    ShortBodies();
    DraftsAreOwn(o, "one", "two", now);
    DraftsAt(Start(x, EMPTY), "hello", now, k);
    var own := Drafts(Start(x, EMPTY), "hello", now, k);
    CutBetween(FirstDraft(o, "one", now), SecondDraft(o, "one", "two", now), own, x.nodeId);
  }
}
