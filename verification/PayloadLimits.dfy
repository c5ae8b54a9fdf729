/**
 * Which payloads the request limits refuse, and what that costs: pushes that are
 * lost without any fault of the network, catch-up that stalls for ever, and the
 * meshes on which neither happens.
 */
module PayloadLimits {
  import opened Messages
  import opened Utf8
  import opened StoreModel
  import opened ServiceModel
  import opened SyncModel
  import opened CatchUp
  import opened SyncGaps
  import opened Replication
  import opened Convergence
  import opened MessageCodec
  import opened MessageServices
  import opened HttpApi
  import opened Payloads

  // ---- Pushes ----

  predicate Small(wire: Wire, m: ChatMessage) {
    wire.pushBytes(m) <= MAX_REQUEST_BYTES
  }

  function Smalls(wire: Wire, pushes: seq<ChatMessage>): seq<ChatMessage> {
    if pushes == [] then []
    else
      var m := pushes[|pushes| - 1];
      Smalls(wire, pushes[..|pushes| - 1]) + if Small(wire, m) then [m] else []
  }

  /** Pushes that all arrive, in turn; the replication endpoint refuses those over the request limit. */
  function Pushed(limits: Limits, wire: Wire, node: Node, pushes: seq<ChatMessage>): Node {
    if pushes == [] then node
    else
      var before, m := Pushed(limits, wire, node, pushes[..|pushes| - 1]), pushes[|pushes| - 1];
      if Small(wire, m) then IngestReplica(limits, before, m).0 else before
  }

  /** The replication endpoint, posted one message after the other. */
  method ReceivePushes(service: MessageService, pushes: seq<ChatMessage>, sizes: seq<nat>, ghost wire: Wire)
    requires service.Valid() && |sizes| == |pushes|
    requires forall i :: 0 <= i < |pushes| ==> Travels(pushes[i]) && sizes[i] == wire.pushBytes(pushes[i])
    modifies service, service.store
    ensures service.Valid()
    ensures service.State() == Pushed(service.store.limits, wire, old(service.State()), pushes)
  {
    var index := 0;
    while index < |pushes|
      invariant index <= |pushes| && service.Valid()
      invariant service.State() == Pushed(service.store.limits, wire, old(service.State()), pushes[..index])
    {
      assert pushes[..index + 1][..index] == pushes[..index];
      PushIsReadIfSmall(pushes[index], sizes[index]);
      var item := MessageToJson(pushes[index]);
      var _ := ReplicateMessage(service, Post(item, sizes[index]));
      index := index + 1;
    }
    assert pushes[..index] == pushes;
  }

  /** Pushes as their authors sent them, none seen before. */
  predicate InSendingOrder(s: Store, pushes: seq<ChatMessage>) {
    && AllWellformed(pushes) && AscendingPerOrigin(pushes)
    && forall i :: 0 <= i < |pushes| ==> pushes[i].sequence > Mark(s.marks, pushes[i].origin)
  }

  lemma {:induction false} SmallsMember(wire: Wire, pushes: seq<ChatMessage>, m: ChatMessage)
    ensures m in Smalls(wire, pushes) <==> m in pushes && Small(wire, m)
  {
    if pushes != [] {
      SmallsMember(wire, pushes[..|pushes| - 1], m);
      assert m in pushes <==> m in pushes[..|pushes| - 1] || m == pushes[|pushes| - 1];
    }
  }

  lemma {:induction false} PushedLaw(wire: Wire, node: Node, pushes: seq<ChatMessage>)
    requires Sound(node.store) && InSendingOrder(node.store, pushes)
    ensures var after, small := Pushed(UNLIMITED, wire, node, pushes).store, Smalls(wire, pushes);
            && Sound(after) && after.table == node.store.table + small
            && after.marks == RaiseAll(node.store.marks, small)
  {
    if pushes != [] {
      var prefix, m := pushes[..|pushes| - 1], pushes[|pushes| - 1];
      PushedLaw(wire, node, prefix);
      if Small(wire, m) {
        LastIsAbove(wire, node.store.marks, pushes);
        NewPush(Pushed(UNLIMITED, wire, node, prefix), m);
        RaiseAllAppend(node.store.marks, Smalls(wire, prefix), m);
        assert Smalls(wire, pushes) == Smalls(wire, prefix) + [m];
      } else {
        assert Smalls(wire, pushes) == Smalls(wire, prefix);
      }
    }
  }

  lemma LastIsAbove(wire: Wire, marks: Marks, pushes: seq<ChatMessage>)
    requires pushes != [] && AscendingPerOrigin(pushes)
    requires var m := pushes[|pushes| - 1]; m.sequence > Mark(marks, m.origin)
    ensures var m := pushes[|pushes| - 1];
            Mark(RaiseAll(marks, Smalls(wire, pushes[..|pushes| - 1])), m.origin) < m.sequence
  {
    var prefix, m := pushes[..|pushes| - 1], pushes[|pushes| - 1];
    var small := Smalls(wire, prefix);
    forall i | 0 <= i < |small| && small[i].origin == m.origin ensures small[i].sequence < m.sequence {
      SmallsMember(wire, prefix, small[i]);
      var j :| 0 <= j < |prefix| && prefix[j] == small[i];
      assert pushes[j] == prefix[j];
    }
    RaiseAllBound(marks, small, m.origin, m.sequence);
  }

  lemma NewPush(node: Node, m: ChatMessage)
    requires Sound(node.store) && Wellformed(m) && m.sequence > Mark(node.store.marks, m.origin)
    ensures var after := IngestReplica(UNLIMITED, node, m).0.store;
            Sound(after) && after == Store(node.store.table + [m], Raise(node.store.marks, m))
  {
    AboveMarkIsNew(node.store, m);
    UnlimitedAdd(node.store, m);
    AddKeepsSound(UNLIMITED, node.store, m);
  }

  /** The push is refused and a later one of its origin is not. */
  ghost predicate Overtaken(wire: Wire, pushes: seq<ChatMessage>, i: nat)
    requires i < |pushes|
  {
    && !Small(wire, pushes[i])
    && exists j :: i < j < |pushes| && pushes[j].origin == pushes[i].origin && Small(wire, pushes[j])
  }

  /**
   * Loss without a fault of the network: of pushes that all arrive and in order,
   * one is left in a gap below the mark if and only if it is over the request
   * limit and a later one of its origin is not.
   */
  lemma OversizePushExactly(wire: Wire, node: Node, pushes: seq<ChatMessage>, i: nat)
    requires Sound(node.store) && InSendingOrder(node.store, pushes) && i < |pushes|
    ensures var s, m := Pushed(UNLIMITED, wire, node, pushes).store, pushes[i];
            !HasKey(s.table, m.origin, m.sequence) && m.sequence <= Mark(s.marks, m.origin) <==>
            Overtaken(wire, pushes, i)
  {
    var small, m := Smalls(wire, pushes), pushes[i];
    PushedLaw(wire, node, pushes);
    SmallsMember(wire, pushes, m);
    if Small(wire, m) {
      HeldAfterPushes(wire, node, pushes, i);
    } else {
      NotHeldAfterPushes(wire, node, pushes, i);
      if Overtaken(wire, pushes, i) {
        var j :| i < j < |pushes| && pushes[j].origin == m.origin && Small(wire, pushes[j]);
        SmallsMember(wire, pushes, pushes[j]);
        RaiseAllCovers(node.store.marks, small);
      } else {
        forall k | 0 <= k < |small| && small[k].origin == m.origin ensures small[k].sequence < m.sequence {
          SmallsMember(wire, pushes, small[k]);
          var j :| 0 <= j < |pushes| && pushes[j] == small[k];
        }
        RaiseAllBound(node.store.marks, small, m.origin, m.sequence);
      }
    }
  }

  lemma HeldAfterPushes(wire: Wire, node: Node, pushes: seq<ChatMessage>, i: nat)
    requires Sound(node.store) && InSendingOrder(node.store, pushes) && i < |pushes| && Small(wire, pushes[i])
    ensures HasKey(Pushed(UNLIMITED, wire, node, pushes).store.table, pushes[i].origin, pushes[i].sequence)
  {
    var small := Smalls(wire, pushes);
    PushedLaw(wire, node, pushes);
    SmallsMember(wire, pushes, pushes[i]);
    var k :| 0 <= k < |small| && small[k] == pushes[i];
    assert (node.store.table + small)[|node.store.table| + k] == pushes[i];
  }

  lemma NotHeldAfterPushes(wire: Wire, node: Node, pushes: seq<ChatMessage>, i: nat)
    requires Sound(node.store) && InSendingOrder(node.store, pushes) && i < |pushes| && !Small(wire, pushes[i])
    ensures !HasKey(Pushed(UNLIMITED, wire, node, pushes).store.table, pushes[i].origin, pushes[i].sequence)
  {
    var table, m := Pushed(UNLIMITED, wire, node, pushes).store.table, pushes[i];
    PushedLaw(wire, node, pushes);
    forall k | 0 <= k < |table| ensures !SameKey(table[k], m) {
      if k >= |node.store.table| {
        assert table[k] in Smalls(wire, pushes);
        SmallsMember(wire, pushes, table[k]);
        var j :| 0 <= j < |pushes| && pushes[j] == table[k];
      }
    }
  }

  /** And no round with any peer ever fills such a gap. */
  lemma OversizePushIsLost(wire: Wire, node: Node, pushes: seq<ChatMessage>, i: nat,
                           limits: Limits, senders: seq<Store>)
    requires Sound(node.store) && InSendingOrder(node.store, pushes) && i < |pushes| && Overtaken(wire, pushes, i)
    requires forall k :: 0 <= k < |senders| ==> Sound(senders[k])
    ensures var after := Visits(limits, wire, senders, Pushed(UNLIMITED, wire, node, pushes)).store;
            !HasKey(after.table, pushes[i].origin, pushes[i].sequence)
  {
    OversizePushExactly(wire, node, pushes, i);
    PushedLaw(wire, node, pushes);
    GapStays(limits, wire, senders, Pushed(UNLIMITED, wire, node, pushes), pushes[i].origin, pushes[i].sequence);
  }

  /** Of the daemon's own pushes, every one whose words take at most 3813 octets on the wire is small. */
  lemma ModestPushIsSmall(m: ChatMessage)
    requires OwnMessage(m) && WordBytes(m) <= MAX_REQUEST_BYTES - MAX_FRAME_BYTES
    ensures Small(DAEMON, m)
  {
    MessageSize(m);
  }

  function Repeated(c: char, n: nat): string {
    seq(n, _ => c)
  }

  /** A body of the full length that `create_message` accepts, each octet of which JSON escapes. */
  function Slashes(): string {
    Repeated('/', MAX_MESSAGE_BYTES)
  }

  lemma {:induction false} AsciiIsUtf8(s: string)
    requires forall i :: 0 <= i < |s| ==> s[i] < 128 as char
    ensures ValidUtf8(s)
  {
    if s == "" {
      assert EncodeAll([]) == s;
    } else {
      var c: Scalar := s[0] as int;
      assert Encode(c) == s[..1];
      AsciiIsUtf8(s[1..]);
      StripFirst(s, c);
    }
  }

  lemma SlashesAreValid()
    ensures ValidBody(Slashes()) && |EscapedAll(Slashes())| == 2 * MAX_MESSAGE_BYTES
  {
    AsciiIsUtf8(Slashes());
    EscapedUniformly(Slashes(), 2);
  }

  /** The first message of a run of two, and the second. */
  function FirstDraft(a: Identity, body: string, now: int): ChatMessage {
    Draft(Start(a, EMPTY), body, now)
  }

  function SecondDraft(a: Identity, first: string, second: string, now: int): ChatMessage {
    Draft(CreateLocal(UNLIMITED, Start(a, EMPTY), first, now).0, second, now)
  }

  /**
   * The README promises that missed sequence ranges are recovered. With nobody
   * and nothing failing they are not: the push of 2048 slashes is refused by
   * every peer, the push of the next message is taken, and no round with any
   * peer ever brings the first.
   */
  lemma LongBodyIsLost(a: Identity, b: Identity, now: int, limits: Limits, senders: seq<Store>)
    requires ValidNodeId(a.nodeId) && ValidCallsign(a.callsign) && IsInt64(now)
    requires forall k :: 0 <= k < |senders| ==> Sound(senders[k])
    ensures ValidBody(Slashes()) && ValidBody("ok")
    ensures var first, second := FirstDraft(a, Slashes(), now), SecondDraft(a, Slashes(), "ok", now);
            var b1 := Pushed(UNLIMITED, DAEMON, Start(b, EMPTY), [first, second]);
            && OwnMessage(first) && OwnMessage(second)
            && !Small(DAEMON, first) && Small(DAEMON, second)
            && b1.store.table == [second]
            && !HasKey(Visits(limits, DAEMON, senders, b1).store.table, a.nodeId, 1)
  {
    var first, second := FirstDraft(a, Slashes(), now), SecondDraft(a, Slashes(), "ok", now);
    SlashesAreValid();
    AsciiIsUtf8("ok");
    DraftsAreOwn(a, Slashes(), "ok", now);
    MessageSize(first);
    EscapedBounds(second.body);
    EscapedBounds(second.callsign);
    ModestPushIsSmall(second);
    SecondOvertakesFirst(DAEMON, Start(b, EMPTY), first, second, limits, senders);
  }

  lemma DraftsAreOwn(a: Identity, first: string, second: string, now: int)
    requires ValidNodeId(a.nodeId) && ValidCallsign(a.callsign) && IsInt64(now) && ValidBody(first) && ValidBody(second)
    ensures var m1, m2 := FirstDraft(a, first, now), SecondDraft(a, first, second, now);
            && OwnMessage(m1) && m1.origin == a.nodeId && m1.sequence == 1 && m1.body == first
            && OwnMessage(m2) && m2.origin == a.nodeId && m2.sequence == 2 && m2.body == second
            && m2.callsign == a.callsign
  {
  }

  lemma SecondOvertakesFirst(wire: Wire, b0: Node, first: ChatMessage, second: ChatMessage,
                             limits: Limits, senders: seq<Store>)
    requires b0.store == EMPTY && Wellformed(first) && Wellformed(second)
    requires first.origin == second.origin && first.sequence == 1 && second.sequence == 2
    requires !Small(wire, first) && Small(wire, second)
    requires forall k :: 0 <= k < |senders| ==> Sound(senders[k])
    ensures var b1 := Pushed(UNLIMITED, wire, b0, [first, second]);
            b1.store.table == [second] && !HasKey(Visits(limits, wire, senders, b1).store.table, first.origin, 1)
  {
    var pushes := [first, second];
    assert pushes[1] == second && Overtaken(wire, pushes, 0);
    PushedLaw(wire, b0, pushes);
    SmallsOfTwo(wire, first, second);
    OversizePushIsLost(wire, b0, pushes, 0, limits, senders);
  }

  lemma SmallsOfTwo(wire: Wire, first: ChatMessage, second: ChatMessage)
    requires !Small(wire, first) && Small(wire, second)
    ensures Smalls(wire, [first, second]) == [second]
  {
    assert [first, second][..1] == [first] && [first][..0] == [];
    assert Smalls(wire, [first]) == [];
  }

  // ---- Batches ----

  /** A node that has created `n` messages of the same body. */
  function Written(node: Node, body: string, now: int, n: nat): Node {
    if n == 0 then node else CreateLocal(UNLIMITED, Written(node, body, now, n - 1), body, now).0
  }

  /** What a node makes of one body, said `n` times. */
  function Drafts(node: Node, body: string, now: int, n: nat): seq<ChatMessage> {
    if n == 0 then []
    else Drafts(node, body, now, n - 1) + [Draft(node.(next := node.next + n - 1), body, now)]
  }

  lemma {:induction false} DraftsAt(node: Node, body: string, now: int, n: nat)
    ensures |Drafts(node, body, now, n)| == n
    ensures forall i :: 0 <= i < n ==>
              Drafts(node, body, now, n)[i] == Draft(node.(next := node.next + i), body, now)
  {
    if n > 0 {
      DraftsAt(node, body, now, n - 1);
    }
  }

  /** What `n` creates leave in a store: the drafts in turn, after what was there. */
  lemma {:induction false} WrittenLaw(start: Node, body: string, now: int, n: nat)
    requires Sound(start.store) && start.next == Mark(start.store.marks, start.identity.nodeId) + 1
    requires start.next + n <= MAX_SEQUENCE + 1
    ensures var node, drafts := Written(start, body, now, n), Drafts(start, body, now, n);
            && node.identity == start.identity && node.next == start.next + n
            && Mark(node.store.marks, start.identity.nodeId) + 1 == node.next
            && Sound(node.store) && node.store.table == start.store.table + drafts
            && node.store.marks == RaiseAll(start.store.marks, drafts)
  {
    if n > 0 {
      WrittenLaw(start, body, now, n - 1);
      OneMoreWritten(start, Written(start, body, now, n - 1), body, now, n);
    }
  }

  lemma OneMoreWritten(start: Node, before: Node, body: string, now: int, n: nat)
    requires n > 0 && Sound(before.store) && before.identity == start.identity
    requires before.next == start.next + n - 1 <= MAX_SEQUENCE
    requires Mark(before.store.marks, start.identity.nodeId) + 1 == before.next
    requires before.store.table == start.store.table + Drafts(start, body, now, n - 1)
    requires before.store.marks == RaiseAll(start.store.marks, Drafts(start, body, now, n - 1))
    ensures var node, drafts := CreateLocal(UNLIMITED, before, body, now).0, Drafts(start, body, now, n);
            && node.identity == start.identity && node.next == start.next + n
            && Mark(node.store.marks, start.identity.nodeId) + 1 == node.next
            && Sound(node.store) && node.store.table == start.store.table + drafts
            && node.store.marks == RaiseAll(start.store.marks, drafts)
  {
    var m := Draft(before, body, now);
    AboveMarkIsNew(before.store, m);
    RoomyCreate(before, body, now);
    UnlimitedAdd(before.store, m);
    AddKeepsSound(UNLIMITED, before.store, m);
    RaiseAllAppend(start.store.marks, Drafts(start, body, now, n - 1), m);
  }

  lemma {:induction false} AllMissing(table: seq<ChatMessage>)
    ensures Missing(table, map[]) == table
  {
    if table != [] {
      AllMissing(table[..|table| - 1]);
      assert table == table[..|table| - 1] + [table[|table| - 1]];
    }
  }

  /**
   * Fifty accepted messages that stop catch-up for good: the batch with 2048
   * slashes in each body is over its limit, so a fresh peer never gets any of them.
   */
  lemma SlashesStall(a: Identity, b: Identity, now: int, limits: Limits, rounds: nat)
    requires ValidNodeId(a.nodeId) && ValidCallsign(a.callsign) && IsInt64(now)
    ensures var sender := Written(Start(a, EMPTY), Slashes(), now, MAX_SYNC_BATCH_MESSAGES).store;
            var peer := Start(b, EMPTY);
            && (forall i :: 0 <= i < |sender.table| ==> OwnMessage(sender.table[i]))
            && |Missing(sender.table, peer.store.marks)| == MAX_SYNC_BATCH_MESSAGES
            && Rounds(limits, DAEMON, sender, peer, rounds).node == peer
  {
    SlashesWritten(Start(a, EMPTY), now, MAX_SYNC_BATCH_MESSAGES);
    SlashesAreValid();
    var sender, peer := Written(Start(a, EMPTY), Slashes(), now, MAX_SYNC_BATCH_MESSAGES).store, Start(b, EMPTY);
    SlashesAreLong(sender.table);
    LongBatchStalls(DAEMON, sender, peer, limits, rounds);
  }

  lemma SlashesWritten(start: Node, now: int, n: nat)
    requires start == Start(start.identity, EMPTY) && n <= MAX_SYNC_BATCH_MESSAGES
    requires ValidNodeId(start.identity.nodeId) && ValidCallsign(start.identity.callsign) && IsInt64(now)
    ensures var table := Written(start, Slashes(), now, n).store.table;
            |table| == n && forall i :: 0 <= i < n ==> OwnMessage(table[i]) && table[i].body == Slashes()
  {
    WrittenLaw(start, Slashes(), now, n);
    DraftsAt(start, Slashes(), now, n);
    SlashesAreValid();
    assert [] + Drafts(start, Slashes(), now, n) == Drafts(start, Slashes(), now, n);
  }

  lemma LongBatchStalls(wire: Wire, sender: Store, peer: Node, limits: Limits, rounds: nat)
    requires |sender.table| == MAX_SYNC_BATCH_MESSAGES && peer.store.marks == map[]
    requires wire.batchBytes(sender.table) > MAX_SYNC_REQUEST_BYTES
    ensures |Missing(sender.table, peer.store.marks)| == MAX_SYNC_BATCH_MESSAGES
    ensures Rounds(limits, wire, sender, peer, rounds).node == peer
  {
    AllMissing(sender.table);
    assert NextBatch(sender.table, peer.store.marks) == sender.table;
    LongBatchIsStopped(wire, sender, peer.store.marks);
    OversizeStalls(limits, wire, sender, peer, rounds);
  }

  lemma SlashesAreLong(batch: seq<ChatMessage>)
    requires |batch| == MAX_SYNC_BATCH_MESSAGES
    requires forall i :: 0 <= i < |batch| ==> OwnMessage(batch[i]) && batch[i].body == Slashes()
    ensures DAEMON.batchBytes(batch) > MAX_SYNC_REQUEST_BYTES
  {
    SlashesAreValid();
    forall i | 0 <= i < |batch| ensures 2 * MAX_MESSAGE_BYTES <= WordBytes(batch[i]) <= 8 * MAX_MESSAGE_BYTES {
      EscapedBounds(batch[i].callsign);
    }
    BatchSize(batch, 2 * MAX_MESSAGE_BYTES, 8 * MAX_MESSAGE_BYTES);
  }

  // ---- Summaries ----

  /** A node that knows 59 origins with node ids of full length asks for no summary that a peer would answer. */
  lemma ManyNamesStall(limits: Limits, sender: Store, node: Node, rounds: nat)
    requires NamedMarks(sender.marks) && |sender.marks| >= 59
    requires NamesAtLeast(sender.marks, 64)
    ensures Rounds(limits, DAEMON, sender, node, rounds).node == node
  {
    ManyNamesAreLong(sender.marks);
    OversizeStalls(limits, DAEMON, sender, node, rounds);
  }

  /** Names of full length, each different: `i` letters n and 64 - i letters m. */
  function LongName(i: nat): string
    requires i <= 64
  {
    Repeated('n', i) + Repeated('m', 64 - i)
  }

  /** The first messages of `n` nodes with such names. */
  function Greetings(now: int, n: nat): seq<ChatMessage>
    requires n <= 64
  {
    if n == 0 then [] else Greetings(now, n - 1) + [FirstDraft(Identity(LongName(n - 1), "x"), "hi", now)]
  }

  lemma LongNamesDiffer(i: nat, j: nat)
    requires i < j <= 64
    ensures LongName(i) != LongName(j)
  {
    assert LongName(i)[i] == 'm' && LongName(j)[i] == 'n';
  }

  lemma {:induction false} GreetingsAre(now: int, n: nat)
    requires n <= 64 && IsInt64(now)
    ensures var greetings := Greetings(now, n);
            && |greetings| == n
            && (forall i :: 0 <= i < n ==> greetings[i].origin == LongName(i) && IsGreeting(greetings[i]))
  {
    if n > 0 {
      GreetingsAre(now, n - 1);
      AsciiIsUtf8("hi");
      assert NulFree("x");
    }
  }

  ghost predicate IsGreeting(m: ChatMessage) {
    OwnMessage(m) && |m.origin| == 64 && m.sequence == 1 && m.body == "hi" && m.callsign == "x"
  }

  lemma GreetingIsSmall(m: ChatMessage)
    requires IsGreeting(m)
    ensures Small(DAEMON, m)
  {
    EscapedBounds(m.body);
    EscapedBounds(m.callsign);
    ModestPushIsSmall(m);
  }

  lemma {:induction false} AllSmall(wire: Wire, pushes: seq<ChatMessage>)
    requires forall i :: 0 <= i < |pushes| ==> Small(wire, pushes[i])
    ensures Smalls(wire, pushes) == pushes
  {
    if pushes != [] {
      AllSmall(wire, pushes[..|pushes| - 1]);
      assert pushes == pushes[..|pushes| - 1] + [pushes[|pushes| - 1]];
    }
  }

  function LongNames(n: nat): set<string>
    requires n <= 64
  {
    if n == 0 then {} else LongNames(n - 1) + {LongName(n - 1)}
  }

  lemma {:induction false} NotYetNamed(n: nat, j: nat)
    requires n <= j <= 64
    ensures LongName(j) !in LongNames(n)
  {
    if n > 0 {
      NotYetNamed(n - 1, j);
      LongNamesDiffer(n - 1, j);
    }
  }

  lemma {:induction false} LongNamesCount(n: nat)
    requires n <= 64
    ensures |LongNames(n)| == n
  {
    if n > 0 {
      LongNamesCount(n - 1);
      NotYetNamed(n - 1, n - 1);
    }
  }

  /** Each greeting brings a new name. */
  lemma {:induction false} NamesGrow(now: int, n: nat)
    requires n <= 64
    ensures RaiseAll(map[], Greetings(now, n)).Keys == LongNames(n)
  {
    if n > 0 {
      NamesGrow(now, n - 1);
      var m := FirstDraft(Identity(LongName(n - 1), "x"), "hi", now);
      RaiseAllAppend(map[], Greetings(now, n - 1), m);
    }
  }

  lemma {:induction false} GreetingMarks(messages: seq<ChatMessage>)
    requires forall i :: 0 <= i < |messages| ==> IsGreeting(messages[i])
    ensures NamedMarks(RaiseAll(map[], messages)) && NamesAtLeast(RaiseAll(map[], messages), 64)
  {
    if messages != [] {
      GreetingMarks(messages[..|messages| - 1]);
    }
  }

  /**
   * A node that got the first message of each of 59 such nodes, or more, can
   * bring nobody anything: no peer answers its summary.
   */
  lemma ManyNamesMesh(hub: Identity, now: int, n: nat, limits: Limits, peer: Node, rounds: nat)
    requires IsInt64(now) && 59 <= n <= 64
    ensures var node := Pushed(UNLIMITED, DAEMON, Start(hub, EMPTY), Greetings(now, n));
            && node.store.table == Greetings(now, n)
            && Rounds(limits, DAEMON, node.store, peer, rounds).node == peer
  {
    GreetingsTaken(hub, now, n);
    GreetingsInOrder(now, n);
    GreetingMarks(Greetings(now, n));
    NamesGrow(now, n);
    LongNamesCount(n);
    var marks := RaiseAll(map[], Greetings(now, n));
    assert |marks.Keys| == |marks|;
    ManyNamesStall(limits, Pushed(UNLIMITED, DAEMON, Start(hub, EMPTY), Greetings(now, n)).store, peer, rounds);
  }

  lemma GreetingsTaken(hub: Identity, now: int, n: nat)
    requires IsInt64(now) && n <= 64
    ensures var s, pushes := Pushed(UNLIMITED, DAEMON, Start(hub, EMPTY), Greetings(now, n)).store, Greetings(now, n);
            s.table == pushes && s.marks == RaiseAll(map[], pushes)
  {
    GreetingsInOrder(now, n);
    GreetingsAreSmall(Greetings(now, n));
    AllTaken(DAEMON, Start(hub, EMPTY), Greetings(now, n));
  }

  lemma GreetingsAreSmall(pushes: seq<ChatMessage>)
    requires forall i :: 0 <= i < |pushes| ==> IsGreeting(pushes[i])
    ensures Smalls(DAEMON, pushes) == pushes
  {
    forall i | 0 <= i < |pushes| ensures Small(DAEMON, pushes[i]) {
      GreetingIsSmall(pushes[i]);
    }
    AllSmall(DAEMON, pushes);
  }

  lemma AllTaken(wire: Wire, node: Node, pushes: seq<ChatMessage>)
    requires node.store == EMPTY && InSendingOrder(EMPTY, pushes) && Smalls(wire, pushes) == pushes
    ensures var s := Pushed(UNLIMITED, wire, node, pushes).store;
            s.table == pushes && s.marks == RaiseAll(map[], pushes)
  {
    PushedLaw(wire, node, pushes);
    assert [] + pushes == pushes;
  }

  lemma GreetingsInOrder(now: int, n: nat)
    requires n <= 64 && IsInt64(now)
    ensures InSendingOrder(EMPTY, Greetings(now, n)) && |Greetings(now, n)| == n
    ensures forall i :: 0 <= i < n ==> IsGreeting(Greetings(now, n)[i])
  {
    GreetingsAre(now, n);
    forall i, j | 0 <= i < j < n ensures Greetings(now, n)[i].origin != Greetings(now, n)[j].origin {
      LongNamesDiffer(i, j);
    }
  }

  // ---- Meshes on which every payload fits ----

  ghost predicate AllModest(messages: seq<ChatMessage>) {
    forall i :: 0 <= i < |messages| ==> Modest(messages[i])
  }

  /** Modest messages of at most 46 origins, for a peer that knows at most 1506 in all. */
  ghost predicate ModestMesh(sender: Store, marks: Marks) {
    && AllModest(sender.table)
    && NamedMarks(sender.marks) && |sender.marks| <= MODEST_ORIGINS
    && NamedMarks(marks) && |marks.Keys + sender.marks.Keys| <= MODEST_PEER_ORIGINS
  }

  /**
   * On a modest mesh with room on disk catch-up always runs to its end, and
   * recovers everything if and only if the cuts ascend.
   */
  lemma ModestMeshCatchesUp(limits: Limits, sender: Store, node: Node, n: nat)
    requires Sound(sender) && Sound(node.store) && RoomAhead(limits, sender, node)
    requires ModestMesh(sender, node.store.marks)
    requires n >= RoundsNeeded(|Missing(sender.table, node.store.marks)|)
    ensures var miss, after := Missing(sender.table, node.store.marks), Rounds(limits, DAEMON, sender, node, n).node;
            && Missing(sender.table, after.store.marks) == []
            && (after.events == node.events + miss <==> CutsAscend(miss))
  {
    ModestPayloadsFit(sender, node.store.marks, RoundsNeeded(|Missing(sender.table, node.store.marks)|));
    CatchUpFromStart(limits, DAEMON, sender, node, n);
  }

  lemma ModestPayloadsFit(sender: Store, marks: Marks, n: nat)
    requires Sound(sender) && ModestMesh(sender, marks)
    ensures PayloadsFit(DAEMON, sender, marks, n)
  {
    forall i | 0 <= i < n ensures PayloadFits(DAEMON, sender, marks, i) {
      PlannedMesh(sender, marks, i);
      ModestRoundPasses(sender, Planned(sender.table, marks, i));
    }
    PayloadsFitEach(DAEMON, sender, marks, n);
  }

  /** As the plan goes on the mesh stays modest. */
  lemma PlannedMesh(sender: Store, marks: Marks, n: nat)
    requires Sound(sender) && ModestMesh(sender, marks)
    ensures ModestMesh(sender, Planned(sender.table, marks, n))
  {
    PlannedNames(sender, marks, n);
    var planned := Planned(sender.table, marks, n);
    SubsetIsSmaller(planned.Keys + sender.marks.Keys, marks.Keys + sender.marks.Keys);
  }

  lemma {:induction false} PlannedNames(sender: Store, marks: Marks, n: nat)
    requires Marked(sender.table, sender.marks) && NamedMarks(sender.marks) && NamedMarks(marks)
    ensures NamedMarks(Planned(sender.table, marks, n))
    ensures Planned(sender.table, marks, n).Keys <= marks.Keys + sender.marks.Keys
  {
    if n > 0 {
      var before := Planned(sender.table, marks, n - 1);
      PlannedNames(sender, marks, n - 1);
      BatchFromTable(sender.table, before, sender.table);
      RaisedNames(sender, before, NextBatch(sender.table, before));
    }
  }

  /** On a modest mesh a round's payloads are within their limits. */
  lemma ModestRoundPasses(sender: Store, marks: Marks)
    requires Sound(sender) && ModestMesh(sender, marks)
    ensures Passes(DAEMON, sender, marks)
  {
    ModestMissing(sender, marks);
    SubsetIsSmaller(marks.Keys, marks.Keys + sender.marks.Keys);
    FewNamesAreShort(sender.marks);
    FewNamesAreShort(marks);
    ModestFront(Missing(sender.table, marks));
    ShortPayloadsPass(DAEMON, sender, marks);
  }

  lemma ModestFront(miss: seq<ChatMessage>)
    requires AllModest(miss)
    ensures DAEMON.batchBytes(FirstBatch(miss)) <= MAX_SYNC_REQUEST_BYTES
  {
    ModestBatchIsShort(FirstBatch(miss));
  }

  lemma ShortPayloadsPass(wire: Wire, sender: Store, marks: Marks)
    requires wire.summaryBytes(sender.marks) <= MAX_REQUEST_BYTES && wire.summaryBytes(marks) <= MAX_SYNC_REQUEST_BYTES
    requires wire.batchBytes(NextBatch(sender.table, marks)) <= MAX_SYNC_REQUEST_BYTES
    ensures Passes(wire, sender, marks)
  {
  }

  lemma ModestMissing(sender: Store, marks: Marks)
    requires AllModest(sender.table)
    ensures AllIn(Missing(sender.table, marks), sender.table) && AllModest(Missing(sender.table, marks))
  {
    var miss := Missing(sender.table, marks);
    forall j | 0 <= j < |miss| ensures miss[j] in sender.table && Modest(miss[j]) {
      MissingMember(sender.table, marks, miss[j]);
    }
  }

  lemma {:induction false} RaisedNames(sender: Store, marks: Marks, messages: seq<ChatMessage>)
    requires Marked(sender.table, sender.marks) && NamedMarks(sender.marks) && NamedMarks(marks)
    requires AllIn(messages, sender.table)
    ensures NamedMarks(RaiseAll(marks, messages))
    ensures RaiseAll(marks, messages).Keys <= marks.Keys + sender.marks.Keys
  {
    if messages != [] {
      var m := messages[|messages| - 1];
      RaisedNames(sender, marks, messages[..|messages| - 1]);
      var i :| 0 <= i < |sender.table| && sender.table[i] == m;
      assert m.sequence <= Mark(sender.marks, m.origin);
    }
  }

  lemma SubsetIsSmaller(a: set<string>, b: set<string>)
    requires a <= b
    ensures |a| <= |b|
  {
    assert b == a + (b - a);
  }
}
