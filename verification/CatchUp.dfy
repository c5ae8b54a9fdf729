/**
 * Catch-up as a whole: any number of rounds with one sender whose store does not
 * change, in whatever order it stores its messages.
 */
module CatchUp {
  import opened Messages
  import opened StoreModel
  import opened ServiceModel
  import opened SyncModel

  datatype Progress = Progress(node: Node, accepted: nat)

  function Rounds(limits: Limits, wire: Wire, sender: Store, node: Node, n: nat): Progress {
    if n == 0 then Progress(node, 0)
    else
      var before := Rounds(limits, wire, sender, node, n - 1);
      var r := Round(limits, wire, sender, before.node);
      Progress(r.node, before.accepted + r.accepted)
  }

  function RoundsNeeded(missing: nat): nat {
    (missing + MAX_SYNC_BATCH_MESSAGES - 1) / MAX_SYNC_BATCH_MESSAGES
  }

  /** Rounds are one after the other, each with what the one before left. */
  lemma RoundsInTurn(limits: Limits, wire: Wire, sender: Store, node: Node, n: nat)
    ensures Rounds(limits, wire, sender, node, 0) == Progress(node, 0)
    ensures var before := Rounds(limits, wire, sender, node, n);
            var r := Round(limits, wire, sender, before.node);
            Rounds(limits, wire, sender, node, n + 1) == Progress(r.node, before.accepted + r.accepted)
  {
  }

  lemma OneMoreRound(limits: Limits, wire: Wire, sender: Store, node: Node, n: nat)
    requires n > 0
    ensures Rounds(limits, wire, sender, node, n).node ==
            Round(limits, wire, sender, Rounds(limits, wire, sender, node, n - 1).node).node
  {
  }

  lemma {:induction false} RoundsSplit(limits: Limits, wire: Wire, sender: Store, node: Node, i: nat, n: nat)
    requires i <= n
    ensures var first := Rounds(limits, wire, sender, node, i);
            Rounds(limits, wire, sender, node, n).node == Rounds(limits, wire, sender, first.node, n - i).node
    decreases n - i
  {
    if i < n {
      RoundsSplit(limits, wire, sender, node, i, n - 1);
      OneMoreRound(limits, wire, sender, node, n);
      OneMoreRound(limits, wire, sender, Rounds(limits, wire, sender, node, i).node, n - i);
    }
  }

  // ---- Subsequences ----

  /** `a` is `b` with some elements left out. */
  predicate Subsequence(a: seq<ChatMessage>, b: seq<ChatMessage>) {
    a == [] || (b != [] && (
      || Subsequence(a, b[..|b| - 1])
      || (a[|a| - 1] == b[|b| - 1] && Subsequence(a[..|a| - 1], b[..|b| - 1]))))
  }

  lemma {:induction false} SubsequenceLength(a: seq<ChatMessage>, b: seq<ChatMessage>)
    requires Subsequence(a, b)
    ensures |a| <= |b| && (|a| == |b| ==> a == b)
  {
    if a != [] {
      if Subsequence(a, b[..|b| - 1]) {
        SubsequenceLength(a, b[..|b| - 1]);
      } else {
        SubsequenceLength(a[..|a| - 1], b[..|b| - 1]);
        assert a == a[..|a| - 1] + [a[|a| - 1]] && b == b[..|b| - 1] + [b[|b| - 1]];
      }
    }
  }

  lemma {:induction false} SubsequenceMember(a: seq<ChatMessage>, b: seq<ChatMessage>, m: ChatMessage)
    requires Subsequence(a, b) && m in a
    ensures m in b
  {
    if Subsequence(a, b[..|b| - 1]) {
      SubsequenceMember(a, b[..|b| - 1], m);
    } else if m != a[|a| - 1] {
      SubsequenceMember(a[..|a| - 1], b[..|b| - 1], m);
    }
  }

  lemma {:induction false} SubsequenceTrans(a: seq<ChatMessage>, b: seq<ChatMessage>, c: seq<ChatMessage>)
    requires Subsequence(a, b) && Subsequence(b, c)
    ensures Subsequence(a, c)
    decreases |c|
  {
    if a != [] {
      if Subsequence(b, c[..|c| - 1]) {
        SubsequenceTrans(a, b, c[..|c| - 1]);
      } else if Subsequence(a, b[..|b| - 1]) {
        SubsequenceTrans(a, b[..|b| - 1], c[..|c| - 1]);
      } else {
        SubsequenceTrans(a[..|a| - 1], b[..|b| - 1], c[..|c| - 1]);
      }
    }
  }

  lemma {:induction false} SubsequenceSelf(a: seq<ChatMessage>)
    ensures Subsequence(a, a)
  {
    if a != [] {
      SubsequenceSelf(a[..|a| - 1]);
    }
  }

  lemma {:induction false} SubsequenceJoin(x: seq<ChatMessage>, a: seq<ChatMessage>, b: seq<ChatMessage>)
    requires Subsequence(a, b)
    ensures Subsequence(x + a, x + b)
    decreases |b|
  {
    if b == [] {
      SubsequenceSelf(x);
      assert x + a == x && x + b == x;
    } else {
      var front := b[..|b| - 1];
      assert (x + b)[..|x + b| - 1] == x + front;
      if a == [] || Subsequence(a, front) {
        SubsequenceJoin(x, a, front);
      } else {
        SubsequenceJoin(x, a[..|a| - 1], front);
        assert (x + a)[..|x + a| - 1] == x + a[..|a| - 1];
      }
    }
  }

  lemma {:induction false} MissingIsSubsequence(table: seq<ChatMessage>, marks: Marks)
    ensures Subsequence(Missing(table, marks), table)
  {
    if table != [] {
      var front, m := table[..|table| - 1], table[|table| - 1];
      MissingIsSubsequence(front, marks);
      if m.sequence > Mark(marks, m.origin) {
        assert (Missing(front, marks) + [m])[..|Missing(front, marks)|] == Missing(front, marks);
      }
    }
  }

  // ---- Conservation ----

  /**
   * The node has accepted and published `k` messages since `start`. What it
   * gained, followed by what it is missing still, is what it was missing at the
   * start, in the sender's order and each once, less messages that fell below
   * the marks.
   */
  predicate Delivered(table: seq<ChatMessage>, start: Node, node: Node, k: nat) {
    && |node.events| == |start.events| + k && start.events <= node.events
    && var gained := node.events[|start.events|..];
       && node.store.marks == RaiseAll(start.store.marks, gained)
       && Subsequence(gained + Missing(table, node.store.marks), Missing(table, start.store.marks))
  }

  /** Conservation over any number of rounds, whatever obstructs them. */
  lemma {:induction false} CatchUpLaw(limits: Limits, wire: Wire, sender: Store, node: Node, n: nat)
    requires Sound(sender) && Sound(node.store)
    ensures var p := Rounds(limits, wire, sender, node, n);
            Sound(p.node.store) && Delivered(sender.table, node, p.node, p.accepted)
  {
    if n == 0 {
      NothingDelivered(sender.table, node);
    } else {
      CatchUpLaw(limits, wire, sender, node, n - 1);
      var before := Rounds(limits, wire, sender, node, n - 1);
      RoundLaw(limits, wire, sender, before.node);
      var r := Round(limits, wire, sender, before.node);
      FrontsJoin(sender.table, node, before.node, r.node, before.accepted, r.accepted);
    }
  }

  lemma NothingDelivered(table: seq<ChatMessage>, node: Node)
    ensures Delivered(table, node, node, 0)
  {
    var miss := Missing(table, node.store.marks);
    SubsequenceSelf(miss);
    assert node.events[|node.events|..] + miss == miss;
  }

  lemma FrontsJoin(table: seq<ChatMessage>, start: Node, before: Node, after: Node, i: nat, k: nat)
    requires Delivered(table, start, before, i)
    requires var rest := Missing(table, before.store.marks);
             && k <= |rest| && after.events == before.events + rest[..k]
             && after.store.marks == RaiseAll(before.store.marks, rest[..k])
    ensures Delivered(table, start, after, i + k)
  {
    var gained, rest := before.events[|start.events|..], Missing(table, before.store.marks);
    assert after.events[|start.events|..] == gained + rest[..k];
    RaiseAllSplits(start.store.marks, gained, rest[..k]);
    RestJoins(table, before.store.marks, k, gained, Missing(table, start.store.marks));
  }

  lemma RestJoins(table: seq<ChatMessage>, marks: Marks, k: nat, gained: seq<ChatMessage>, miss: seq<ChatMessage>)
    requires k <= |Missing(table, marks)| && Subsequence(gained + Missing(table, marks), miss)
    ensures var front := Missing(table, marks)[..k];
            Subsequence(gained + front + Missing(table, RaiseAll(marks, front)), miss)
  {
    var rest := Missing(table, marks);
    var front, later := rest[..k], Missing(table, RaiseAll(marks, rest[..k]));
    AfterFront(table, marks, k);
    MissingIsSubsequence(rest[k..], RaiseAll(marks, front));
    SubsequenceJoin(gained + front, later, rest[k..]);
    assert gained + front + rest[k..] == gained + rest;
    SubsequenceTrans(gained + front + later, gained + rest, miss);
  }

  /** Gained and missing messages together are never more than were missing. */
  lemma DeliveredLength(table: seq<ChatMessage>, start: Node, node: Node, k: nat)
    requires Delivered(table, start, node, k)
    ensures k + |Missing(table, node.store.marks)| <= |Missing(table, start.store.marks)|
  {
    var gained := node.events[|start.events|..];
    SubsequenceLength(gained + Missing(table, node.store.marks), Missing(table, start.store.marks));
  }

  // ---- The plan ----

  /**
   * The receiver's marks before the `n`th round if nothing obstructs it: a matter
   * of the table and the first marks alone.
   */
  function Planned(table: seq<ChatMessage>, marks: Marks, n: nat): Marks {
    if n == 0 then marks
    else
      var before := Planned(table, marks, n - 1);
      RaiseAll(before, NextBatch(table, before))
  }

  /** The payloads of the `i`th planned round are within their limits, if anything is missing by then. */
  predicate PayloadFits(wire: Wire, sender: Store, marks: Marks, i: nat) {
    var planned := Planned(sender.table, marks, i);
    Missing(sender.table, planned) != [] ==> Passes(wire, sender, planned)
  }

  /** All payloads of the first `n` planned rounds. */
  predicate PayloadsFit(wire: Wire, sender: Store, marks: Marks, n: nat) {
    n == 0 || (PayloadsFit(wire, sender, marks, n - 1) && PayloadFits(wire, sender, marks, n - 1))
  }

  lemma {:induction false} PayloadsFitEach(wire: Wire, sender: Store, marks: Marks, n: nat)
    ensures PayloadsFit(wire, sender, marks, n) <==> forall i :: 0 <= i < n ==> PayloadFits(wire, sender, marks, i)
  {
    if n > 0 {
      PayloadsFitEach(wire, sender, marks, n - 1);
    }
  }

  /** No add within the first `n` rounds ran out of disk. */
  predicate RoomThroughout(limits: Limits, wire: Wire, sender: Store, node: Node, n: nat) {
    n == 0 || (
      && RoomThroughout(limits, wire, sender, node, n - 1)
      && !Round(limits, wire, sender, Rounds(limits, wire, sender, node, n - 1).node).failed)
  }

  lemma {:induction false} RoomUpTo(limits: Limits, wire: Wire, sender: Store, node: Node, i: nat, n: nat)
    requires i <= n && RoomThroughout(limits, wire, sender, node, n)
    ensures RoomThroughout(limits, wire, sender, node, i)
  {
    if i < n {
      RoomUpTo(limits, wire, sender, node, i, n - 1);
    }
  }

  lemma {:induction false} FitsUpTo(wire: Wire, sender: Store, marks: Marks, i: nat, n: nat)
    requires i <= n && PayloadsFit(wire, sender, marks, n)
    ensures PayloadsFit(wire, sender, marks, i)
  {
    if i < n {
      FitsUpTo(wire, sender, marks, i, n - 1);
    }
  }

  predicate Unobstructed(limits: Limits, wire: Wire, sender: Store, node: Node) {
    && !Round(limits, wire, sender, node).failed
    && (Missing(sender.table, node.store.marks) != [] ==> Passes(wire, sender, node.store.marks))
  }

  /** A round that is not obstructed delivers the first batch; with nothing missing it changes nothing. */
  lemma ClearRound(limits: Limits, wire: Wire, sender: Store, node: Node)
    requires Sound(sender) && Sound(node.store) && Unobstructed(limits, wire, sender, node)
    ensures var r, batch := Round(limits, wire, sender, node), NextBatch(sender.table, node.store.marks);
            && r.accepted == |batch| && r.node.events == node.events + batch
            && r.node.store.marks == RaiseAll(node.store.marks, batch)
            && Sound(r.node.store) && (batch == [] ==> r.node == node)
  {
    var miss := Missing(sender.table, node.store.marks);
    RoundLaw(limits, wire, sender, node);
    assert miss[..|FirstBatch(miss)|] == FirstBatch(miss);
  }

  /** While payloads fit and the disk has room, a run follows the plan. */
  lemma {:induction false} FollowsPlan(limits: Limits, wire: Wire, sender: Store, node: Node, n: nat)
    requires Sound(sender) && Sound(node.store)
    requires RoomThroughout(limits, wire, sender, node, n) && PayloadsFit(wire, sender, node.store.marks, n)
    ensures var after := Rounds(limits, wire, sender, node, n).node.store;
            Sound(after) && after.marks == Planned(sender.table, node.store.marks, n)
  {
    if n > 0 {
      FollowsPlan(limits, wire, sender, node, n - 1);
      ClearRound(limits, wire, sender, Rounds(limits, wire, sender, node, n - 1).node);
    }
  }

  lemma {:induction false} AtMostFiftyARound(limits: Limits, wire: Wire, sender: Store, node: Node, n: nat)
    ensures Rounds(limits, wire, sender, node, n).accepted <= MAX_SYNC_BATCH_MESSAGES * n
  {
    if n > 0 {
      AtMostFiftyARound(limits, wire, sender, node, n - 1);
    }
  }

  /** While payloads fit and the disk has room, 50 messages arrive a round, until nothing is missing. */
  lemma {:induction false} Pace(limits: Limits, wire: Wire, sender: Store, node: Node, n: nat)
    requires Sound(sender) && Sound(node.store)
    requires RoomThroughout(limits, wire, sender, node, n) && PayloadsFit(wire, sender, node.store.marks, n)
    ensures var p := Rounds(limits, wire, sender, node, n);
            Missing(sender.table, p.node.store.marks) == [] || p.accepted == MAX_SYNC_BATCH_MESSAGES * n
  {
    if n > 0 {
      Pace(limits, wire, sender, node, n - 1);
      NextIsClear(limits, wire, sender, node, n);
      PaceOfRound(limits, wire, sender, Rounds(limits, wire, sender, node, n - 1).node);
    }
  }

  lemma PaceOfRound(limits: Limits, wire: Wire, sender: Store, node: Node)
    requires Sound(sender) && Sound(node.store) && Unobstructed(limits, wire, sender, node)
    ensures var r := Round(limits, wire, sender, node);
            if Missing(sender.table, node.store.marks) == [] then r.node == node && r.accepted == 0
            else Missing(sender.table, r.node.store.marks) == [] || r.accepted == MAX_SYNC_BATCH_MESSAGES
  {
    ClearRound(limits, wire, sender, node);
    ShortBatchIsLast(sender.table, node.store.marks);
  }

  lemma ShortBatchIsLast(table: seq<ChatMessage>, marks: Marks)
    ensures var batch := NextBatch(table, marks);
            |batch| == MAX_SYNC_BATCH_MESSAGES || Missing(table, RaiseAll(marks, batch)) == []
  {
    var miss := Missing(table, marks);
    if |miss| < MAX_SYNC_BATCH_MESSAGES {
      assert FirstBatch(miss) == miss;
      NothingLeft(table, marks, RaiseAll(marks, miss));
    }
  }

  // ---- Completion ----

  /**
   * Within ceil(m / 50) rounds of fitting payloads nothing is missing above the
   * marks, m being how many messages were.
   */
  lemma CatchUpCompletes(limits: Limits, wire: Wire, sender: Store, node: Node)
    requires Sound(sender) && Sound(node.store)
    requires var needed := RoundsNeeded(|Missing(sender.table, node.store.marks)|);
             RoomThroughout(limits, wire, sender, node, needed) && PayloadsFit(wire, sender, node.store.marks, needed)
    ensures var needed := RoundsNeeded(|Missing(sender.table, node.store.marks)|);
            Missing(sender.table, Rounds(limits, wire, sender, node, needed).node.store.marks) == []
  {
    var needed := RoundsNeeded(|Missing(sender.table, node.store.marks)|);
    var p := Rounds(limits, wire, sender, node, needed);
    Pace(limits, wire, sender, node, needed);
    CatchUpLaw(limits, wire, sender, node, needed);
    DeliveredLength(sender.table, node, p.node, p.accepted);
  }

  /** A payload over its limit is refused each time: the round repeats unchanged for ever. */
  lemma {:induction false} OversizeStalls(limits: Limits, wire: Wire, sender: Store, node: Node, n: nat)
    requires !Passes(wire, sender, node.store.marks)
    ensures Rounds(limits, wire, sender, node, n).node == node
    ensures Rounds(limits, wire, sender, node, n).accepted == 0
  {
    if n > 0 {
      OversizeStalls(limits, wire, sender, node, n - 1);
    }
  }

  lemma {:induction false} NothingMissingNothingMoves(limits: Limits, wire: Wire, sender: Store, node: Node, n: nat)
    requires Missing(sender.table, node.store.marks) == []
    ensures Rounds(limits, wire, sender, node, n).node == node
  {
    if n > 0 {
      NothingMissingNothingMoves(limits, wire, sender, node, n - 1);
    }
  }

  /** The first of the planned rounds whose payloads do not fit. */
  lemma {:induction false} FirstMisfit(wire: Wire, sender: Store, marks: Marks, n: nat) returns (i: nat)
    requires !PayloadsFit(wire, sender, marks, n)
    ensures i < n && PayloadsFit(wire, sender, marks, i) && !PayloadFits(wire, sender, marks, i)
  {
    if !PayloadsFit(wire, sender, marks, n - 1) {
      i := FirstMisfit(wire, sender, marks, n - 1);
    } else {
      i := n - 1;
    }
  }

  /**
   * With room on disk, a receiver ever has nothing missing above its marks if and
   * only if every payload of the plan stays within its limit.
   */
  lemma {:induction false} CatchUpExactly(limits: Limits, wire: Wire, sender: Store, node: Node, n: nat)
    requires Sound(sender) && Sound(node.store)
    requires var needed := RoundsNeeded(|Missing(sender.table, node.store.marks)|);
             n >= needed && RoomThroughout(limits, wire, sender, node, needed)
    ensures Missing(sender.table, Rounds(limits, wire, sender, node, n).node.store.marks) == [] <==>
            PayloadsFit(wire, sender, node.store.marks, RoundsNeeded(|Missing(sender.table, node.store.marks)|))
  {
    var needed := RoundsNeeded(|Missing(sender.table, node.store.marks)|);
    if PayloadsFit(wire, sender, node.store.marks, needed) {
      CatchUpCompletes(limits, wire, sender, node);
      StaysComplete(limits, wire, sender, node, needed, n);
    } else {
      var i := FirstMisfit(wire, sender, node.store.marks, needed);
      RoomUpTo(limits, wire, sender, node, i, needed);
      FollowsPlan(limits, wire, sender, node, i);
      NeverMoves(limits, wire, sender, node, i, n);
    }
  }

  lemma StaysComplete(limits: Limits, wire: Wire, sender: Store, node: Node, i: nat, n: nat)
    requires i <= n && Missing(sender.table, Rounds(limits, wire, sender, node, i).node.store.marks) == []
    ensures Rounds(limits, wire, sender, node, n).node == Rounds(limits, wire, sender, node, i).node
  {
    RoundsSplit(limits, wire, sender, node, i, n);
    NothingMissingNothingMoves(limits, wire, sender, Rounds(limits, wire, sender, node, i).node, n - i);
  }

  lemma NeverMoves(limits: Limits, wire: Wire, sender: Store, node: Node, i: nat, n: nat)
    requires i <= n && !Passes(wire, sender, Rounds(limits, wire, sender, node, i).node.store.marks)
    ensures Rounds(limits, wire, sender, node, n).node == Rounds(limits, wire, sender, node, i).node
  {
    RoundsSplit(limits, wire, sender, node, i, n);
    OversizeStalls(limits, wire, sender, Rounds(limits, wire, sender, node, i).node, n - i);
  }

  // ---- What catch-up recovers ----

  /** Every cut between two batches ascends per origin. */
  predicate CutsAscend(messages: seq<ChatMessage>) {
    forall i :: 0 <= i < RoundsNeeded(|messages|) ==> CutAscends(messages, MAX_SYNC_BATCH_MESSAGES * i)
  }

  lemma AscendingTableCuts(table: seq<ChatMessage>, marks: Marks)
    requires AscendingPerOrigin(table)
    ensures CutsAscend(Missing(table, marks))
  {
    forall i | 0 <= i < RoundsNeeded(|Missing(table, marks)|)
      ensures CutAscends(Missing(table, marks), MAX_SYNC_BATCH_MESSAGES * i)
    {
      AscendingCut(table, marks, MAX_SYNC_BATCH_MESSAGES * i);
    }
  }

  /** The marks have risen over the first `k` of the messages missing at `start`, and exactly the others are missing. */
  predicate SkippedNothing(table: seq<ChatMessage>, start: Marks, now: Marks, k: nat) {
    var miss := Missing(table, start);
    k <= |miss| && now == RaiseAll(start, miss[..k]) && Missing(table, now) == miss[k..]
  }

  /** If everything is gained in the end, nothing had been skipped by any moment before. */
  lemma NothingSkipped(limits: Limits, wire: Wire, sender: Store, node: Node, i: nat, n: nat)
    requires Sound(sender) && Sound(node.store) && i <= n
    requires Rounds(limits, wire, sender, node, n).node.events == node.events + Missing(sender.table, node.store.marks)
    ensures var p := Rounds(limits, wire, sender, node, i);
            SkippedNothing(sender.table, node.store.marks, p.node.store.marks, p.accepted)
  {
    var p := Rounds(limits, wire, sender, node, i);
    var last := Rounds(limits, wire, sender, p.node, n - i);
    CatchUpLaw(limits, wire, sender, node, i);
    DeliveredLater(limits, wire, sender, node, i, n);
    DeliveriesSplit(sender.table, node, p.node, last.node, p.accepted, last.accepted);
  }

  lemma DeliveredLater(limits: Limits, wire: Wire, sender: Store, node: Node, i: nat, n: nat)
    requires Sound(sender) && Sound(node.store) && i <= n
    ensures var p := Rounds(limits, wire, sender, node, i);
            var last := Rounds(limits, wire, sender, p.node, n - i);
            && last.node == Rounds(limits, wire, sender, node, n).node
            && Delivered(sender.table, p.node, last.node, last.accepted)
  {
    CatchUpLaw(limits, wire, sender, node, i);
    CatchUpLaw(limits, wire, sender, Rounds(limits, wire, sender, node, i).node, n - i);
    RoundsSplit(limits, wire, sender, node, i, n);
  }

  lemma DeliveriesSplit(table: seq<ChatMessage>, start: Node, between: Node, last: Node, i: nat, k: nat)
    requires Delivered(table, start, between, i) && Delivered(table, between, last, k)
    requires last.events == start.events + Missing(table, start.store.marks)
    ensures SkippedNothing(table, start.store.marks, between.store.marks, i)
  {
    DeliveredLength(table, between, last, k);
    var gained := between.events[|start.events|..];
    WholeIsSplit(gained, Missing(table, between.store.marks), Missing(table, start.store.marks));
  }

  lemma WholeIsSplit(gained: seq<ChatMessage>, rest: seq<ChatMessage>, miss: seq<ChatMessage>)
    requires Subsequence(gained + rest, miss) && |gained| + |rest| >= |miss|
    ensures |gained| <= |miss| && gained == miss[..|gained|] && rest == miss[|gained|..]
  {
    SubsequenceLength(gained + rest, miss);
  }

  /** So then every cut ascended. */
  lemma CompleteMeansCutsAscend(limits: Limits, wire: Wire, sender: Store, node: Node, n: nat)
    requires Sound(sender) && Sound(node.store)
    requires var needed := RoundsNeeded(|Missing(sender.table, node.store.marks)|);
             && n >= needed && RoomThroughout(limits, wire, sender, node, needed)
             && PayloadsFit(wire, sender, node.store.marks, needed)
    requires Rounds(limits, wire, sender, node, n).node.events == node.events + Missing(sender.table, node.store.marks)
    ensures CutsAscend(Missing(sender.table, node.store.marks))
  {
    var miss := Missing(sender.table, node.store.marks);
    var needed := RoundsNeeded(|miss|);
    forall i | 0 <= i < needed ensures CutAscends(miss, MAX_SYNC_BATCH_MESSAGES * i) {
      RoomUpTo(limits, wire, sender, node, i, needed);
      FitsUpTo(wire, sender, node.store.marks, i, needed);
      NothingSkipped(limits, wire, sender, node, i, n);
      Pace(limits, wire, sender, node, i);
      AtMostFiftyARound(limits, wire, sender, node, i);
      CutLaw(sender.table, node.store.marks, Rounds(limits, wire, sender, node, i).accepted);
    }
  }

  /** The first `n` cuts, the one before the first batch included, ascend. */
  predicate CutsUpTo(messages: seq<ChatMessage>, n: nat) {
    n == 0 || (CutsUpTo(messages, n - 1) && CutAscends(messages, MAX_SYNC_BATCH_MESSAGES * (n - 1)))
  }

  lemma {:induction false} CutsInTurn(messages: seq<ChatMessage>, n: nat)
    requires CutsAscend(messages) && n <= RoundsNeeded(|messages|)
    ensures CutsUpTo(messages, n)
  {
    if n > 0 {
      CutsInTurn(messages, n - 1);
    }
  }

  /** Where the cuts ascend, the rounds deliver one front part after the other. */
  lemma {:induction false} FrontsInTurn(limits: Limits, wire: Wire, sender: Store, node: Node, n: nat)
    requires Sound(sender) && Sound(node.store) && CutsUpTo(Missing(sender.table, node.store.marks), n)
    requires n <= RoundsNeeded(|Missing(sender.table, node.store.marks)|)
    requires RoomThroughout(limits, wire, sender, node, n) && PayloadsFit(wire, sender, node.store.marks, n)
    ensures AtCut(sender.table, node, Rounds(limits, wire, sender, node, n).node, n)
  {
    if n == 0 {
      assert Missing(sender.table, node.store.marks)[..0] == [];
    } else {
      FrontsInTurn(limits, wire, sender, node, n - 1);
      NextIsClear(limits, wire, sender, node, n);
      NextCut(limits, wire, sender, node, Rounds(limits, wire, sender, node, n - 1).node, n);
      OneMoreRound(limits, wire, sender, node, n);
    }
  }

  lemma NextIsClear(limits: Limits, wire: Wire, sender: Store, node: Node, n: nat)
    requires Sound(sender) && Sound(node.store) && n > 0
    requires RoomThroughout(limits, wire, sender, node, n) && PayloadsFit(wire, sender, node.store.marks, n)
    ensures var before := Rounds(limits, wire, sender, node, n - 1).node;
            Sound(before.store) && Unobstructed(limits, wire, sender, before)
  {
    FollowsPlan(limits, wire, sender, node, n - 1);
  }

  predicate AtCut(table: seq<ChatMessage>, start: Node, now: Node, n: nat) {
    AtFront(table, start, now, Min(MAX_SYNC_BATCH_MESSAGES * n, |Missing(table, start.store.marks)|))
  }

  lemma NextCut(limits: Limits, wire: Wire, sender: Store, start: Node, before: Node, n: nat)
    requires Sound(sender) && Sound(before.store) && Unobstructed(limits, wire, sender, before)
    requires 0 < n <= RoundsNeeded(|Missing(sender.table, start.store.marks)|)
    requires CutAscends(Missing(sender.table, start.store.marks), MAX_SYNC_BATCH_MESSAGES * (n - 1))
    requires AtCut(sender.table, start, before, n - 1)
    ensures AtCut(sender.table, start, Round(limits, wire, sender, before).node, n)
  {
    OneMoreFront(limits, wire, sender, start, before, MAX_SYNC_BATCH_MESSAGES * (n - 1));
  }

  /** The node has gained exactly the first `cut` of the messages it was missing. */
  predicate AtFront(table: seq<ChatMessage>, start: Node, now: Node, cut: nat) {
    var miss := Missing(table, start.store.marks);
    && cut <= |miss| && now.events == start.events + miss[..cut]
    && now.store.marks == RaiseAll(start.store.marks, miss[..cut])
  }

  lemma OneMoreFront(limits: Limits, wire: Wire, sender: Store, start: Node, before: Node, cut: nat)
    requires Sound(sender) && Sound(before.store) && Unobstructed(limits, wire, sender, before)
    requires AtFront(sender.table, start, before, cut) && CutAscends(Missing(sender.table, start.store.marks), cut)
    ensures var after := Round(limits, wire, sender, before).node;
            var next := Min(cut + MAX_SYNC_BATCH_MESSAGES, |Missing(sender.table, start.store.marks)|);
            AtFront(sender.table, start, after, next)
  {
    ClearRound(limits, wire, sender, before);
    NextFront(sender.table, start.store.marks, cut, start.events);
  }

  lemma NextFront(table: seq<ChatMessage>, marks: Marks, cut: nat, events: seq<ChatMessage>)
    requires cut <= |Missing(table, marks)| && CutAscends(Missing(table, marks), cut)
    ensures var miss, next := Missing(table, marks), Min(cut + MAX_SYNC_BATCH_MESSAGES, |Missing(table, marks)|);
            var raised := RaiseAll(marks, miss[..cut]);
            && NextBatch(table, raised) == FirstBatch(miss[cut..])
            && events + miss[..cut] + NextBatch(table, raised) == events + miss[..next]
            && RaiseAll(raised, NextBatch(table, raised)) == RaiseAll(marks, miss[..next])
  {
    CutLaw(table, marks, cut);
    FrontGrows(marks, Missing(table, marks), cut, events);
  }

  lemma FrontGrows(marks: Marks, miss: seq<ChatMessage>, cut: nat, events: seq<ChatMessage>)
    requires cut <= |miss|
    ensures var batch, next := FirstBatch(miss[cut..]), Min(cut + MAX_SYNC_BATCH_MESSAGES, |miss|);
            && events + miss[..cut] + batch == events + miss[..next]
            && RaiseAll(RaiseAll(marks, miss[..cut]), batch) == RaiseAll(marks, miss[..next])
  {
    var batch, next := FirstBatch(miss[cut..]), Min(cut + MAX_SYNC_BATCH_MESSAGES, |miss|);
    assert miss[..cut] + batch == miss[..next];
    RaiseAllSplits(marks, miss[..cut], batch);
  }

  /**
   * What catch-up recovers. With room on disk it brings the receiver everything
   * the sender holds above the receiver's starting marks, each message once and
   * in the sender's order, if and only if all planned payloads stay within their
   * limits and no cut between two batches falls between two messages of one
   * origin that the sender stored in the wrong order.
   */
  lemma RecoversAllExactly(limits: Limits, wire: Wire, sender: Store, node: Node, n: nat)
    requires Sound(sender) && Sound(node.store)
    requires var needed := RoundsNeeded(|Missing(sender.table, node.store.marks)|);
             n >= needed && RoomThroughout(limits, wire, sender, node, needed)
    ensures var miss := Missing(sender.table, node.store.marks);
            Rounds(limits, wire, sender, node, n).node.events == node.events + miss <==>
            PayloadsFit(wire, sender, node.store.marks, RoundsNeeded(|miss|)) && CutsAscend(miss)
  {
    var miss := Missing(sender.table, node.store.marks);
    var needed := RoundsNeeded(|miss|);
    CatchUpExactly(limits, wire, sender, node, n);
    if Rounds(limits, wire, sender, node, n).node.events == node.events + miss {
      NothingSkipped(limits, wire, sender, node, n, n);
      CatchUpLaw(limits, wire, sender, node, n);
      CompleteMeansCutsAscend(limits, wire, sender, node, n);
    } else if PayloadsFit(wire, sender, node.store.marks, needed) && CutsAscend(miss) {
      CutsInTurn(miss, needed);
      FrontsInTurn(limits, wire, sender, node, needed);
      assert miss[..|miss|] == miss;
      CatchUpCompletes(limits, wire, sender, node);
      StaysComplete(limits, wire, sender, node, needed, n);
    }
  }

  /** Where the cuts ascend, the plan can be written down at once: 50 messages further in every round. */
  lemma PlanInOrder(table: seq<ChatMessage>, marks: Marks, n: nat)
    requires CutsAscend(Missing(table, marks)) && n < RoundsNeeded(|Missing(table, marks)|)
    ensures var miss, cut := Missing(table, marks), MAX_SYNC_BATCH_MESSAGES * n;
            && Planned(table, marks, n) == RaiseAll(marks, miss[..cut])
            && NextBatch(table, Planned(table, marks, n)) == FirstBatch(miss[cut..])
  {
    CutsInTurn(Missing(table, marks), n + 1);
    PlanFronts(table, marks, n);
  }

  lemma {:induction false} PlanFronts(table: seq<ChatMessage>, marks: Marks, n: nat)
    requires CutsUpTo(Missing(table, marks), n + 1) && n < RoundsNeeded(|Missing(table, marks)|)
    ensures var miss, cut := Missing(table, marks), MAX_SYNC_BATCH_MESSAGES * n;
            && Planned(table, marks, n) == RaiseAll(marks, miss[..cut])
            && NextBatch(table, Planned(table, marks, n)) == FirstBatch(miss[cut..])
  {
    if n == 0 {
      assert Missing(table, marks)[..0] == [] && Missing(table, marks)[0..] == Missing(table, marks);
    } else {
      PlanFronts(table, marks, n - 1);
      PlanOneMore(table, marks, n, MAX_SYNC_BATCH_MESSAGES * n);
    }
  }

  lemma PlanOneMore(table: seq<ChatMessage>, marks: Marks, n: nat, cut: nat)
    requires n > 0 && MAX_SYNC_BATCH_MESSAGES <= cut <= |Missing(table, marks)|
    requires CutAscends(Missing(table, marks), cut - MAX_SYNC_BATCH_MESSAGES) && CutAscends(Missing(table, marks), cut)
    requires Planned(table, marks, n - 1) == RaiseAll(marks, Missing(table, marks)[..cut - MAX_SYNC_BATCH_MESSAGES])
    ensures Planned(table, marks, n) == RaiseAll(marks, Missing(table, marks)[..cut])
    ensures NextBatch(table, Planned(table, marks, n)) == FirstBatch(Missing(table, marks)[cut..])
  {
    NextFront(table, marks, cut - MAX_SYNC_BATCH_MESSAGES, []);
    NextFront(table, marks, cut, []);
  }

  // ---- Room on disk ----

  /** Two batches in turn are one batch, unless the first fails. */
  lemma {:induction false} BatchSplits(limits: Limits, node: Node, a: seq<ChatMessage>, b: seq<ChatMessage>)
    requires !IngestBatch(limits, node, a).failed
    ensures var first := IngestBatch(limits, node, a);
            var second := IngestBatch(limits, first.node, b);
            IngestBatch(limits, node, a + b) ==
            BatchResult(second.node, first.accepted + second.accepted, second.failed)
  {
    if b == [] {
      assert a + b == a;
    } else {
      BatchSplits(limits, node, a, b[..|b| - 1]);
      assert (a + b)[..|a + b| - 1] == a + b[..|b| - 1];
    }
  }

  lemma {:induction false} NoFailureUpTo(limits: Limits, node: Node, batch: seq<ChatMessage>, k: nat)
    requires k <= |batch| && !IngestBatch(limits, node, batch).failed
    ensures !IngestBatch(limits, node, batch[..k]).failed
    decreases |batch|
  {
    if k == |batch| {
      assert batch[..k] == batch;
    } else {
      NoFailureUpTo(limits, node, batch[..|batch| - 1], k);
      assert batch[..|batch| - 1][..k] == batch[..k];
    }
  }

  lemma PartFits(limits: Limits, node: Node, front: seq<ChatMessage>, rest: seq<ChatMessage>)
    requires !IngestBatch(limits, node, front + rest).failed
    ensures var part := IngestBatch(limits, node, front);
            !part.failed && !IngestBatch(limits, part.node, rest).failed
  {
    assert (front + rest)[..|front|] == front;
    NoFailureUpTo(limits, node, front + rest, |front|);
    BatchSplits(limits, node, front, rest);
  }

  /** Whatever part of the messages arrives, in their order, the disk has room for it. */
  ghost predicate RoomForParts(limits: Limits, node: Node, messages: seq<ChatMessage>) {
    forall part :: PartOf(part, messages) ==> !IngestBatch(limits, node, part).failed
  }

  /** Subsequence, under a name that quantifiers can be instantiated by. */
  predicate PartOf(part: seq<ChatMessage>, messages: seq<ChatMessage>) {
    Subsequence(part, messages)
  }

  /**
   * Room that can be judged at the start: for all that is missing in turn, where
   * the cuts ascend, and else for any part of it.
   */
  ghost predicate RoomAhead(limits: Limits, sender: Store, node: Node) {
    MissingHasRoom(limits, Missing(sender.table, node.store.marks), node)
  }

  ghost predicate MissingHasRoom(limits: Limits, miss: seq<ChatMessage>, node: Node) {
    || (CutsAscend(miss) && !IngestBatch(limits, node, miss).failed)
    || RoomForParts(limits, node, miss)
  }

  /** With room ahead no round finds the disk full. */
  lemma {:induction false} RoomForMissing(limits: Limits, wire: Wire, sender: Store, node: Node, n: nat)
    requires Sound(sender) && Sound(node.store) && RoomAhead(limits, sender, node)
    ensures RoomThroughout(limits, wire, sender, node, n)
    ensures var after := Rounds(limits, wire, sender, node, n).node;
            Sound(after.store) && RoomAhead(limits, sender, after)
  {
    if n > 0 {
      RoomForMissing(limits, wire, sender, node, n - 1);
      RoundKeepsRoom(limits, wire, sender, Rounds(limits, wire, sender, node, n - 1).node);
    }
  }

  lemma RoundKeepsRoom(limits: Limits, wire: Wire, sender: Store, node: Node)
    requires Sound(sender) && Sound(node.store) && RoomAhead(limits, sender, node)
    ensures var r := Round(limits, wire, sender, node);
            !r.failed && Sound(r.node.store) && RoomAhead(limits, sender, r.node)
  {
    RoundLaw(limits, wire, sender, node);
    if Passes(wire, sender, node.store.marks) {
      var front := NextBatch(sender.table, node.store.marks);
      RestHasRoom(limits, sender.table, node);
      FreshBatchNeverWasted(limits, node, front) by { NextBatchIsFresh(sender.table, node.store); }
    }
  }

  /** The first batch fits, and behind it the disk has room for what is missing then. */
  lemma RestHasRoom(limits: Limits, table: seq<ChatMessage>, node: Node)
    requires MissingHasRoom(limits, Missing(table, node.store.marks), node)
    ensures var front := NextBatch(table, node.store.marks);
            var r := IngestBatch(limits, node, front);
            !r.failed && MissingHasRoom(limits, Missing(table, RaiseAll(node.store.marks, front)), r.node)
  {
    var miss := Missing(table, node.store.marks);
    var front, rest := FirstBatch(miss), miss[|FirstBatch(miss)|..];
    assert front + rest == miss && miss[..|front|] == front;
    if CutsAscend(miss) && !IngestBatch(limits, node, miss).failed {
      PartFits(limits, node, front, rest);
      CutsShift(miss);
      CutLaw(table, node.store.marks, |front|);
    } else {
      AfterFront(table, node.store.marks, |front|);
      MissingIsSubsequence(rest, RaiseAll(node.store.marks, front));
      PartsRemain(limits, node, front, rest, Missing(table, RaiseAll(node.store.marks, front)));
    }
  }

  /** Behind the first batch of messages whose cuts ascend they still do. */
  lemma CutsShift(miss: seq<ChatMessage>)
    requires CutsAscend(miss)
    ensures CutAscends(miss, |FirstBatch(miss)|) && CutsAscend(miss[|FirstBatch(miss)|..])
  {
    var k := |FirstBatch(miss)|;
    if k < |miss| {
      assert CutAscends(miss, MAX_SYNC_BATCH_MESSAGES * 1);
      forall i | 0 <= i < RoundsNeeded(|miss[k..]|) ensures CutAscends(miss[k..], MAX_SYNC_BATCH_MESSAGES * i) {
        assert CutAscends(miss, MAX_SYNC_BATCH_MESSAGES * (i + 1));
      }
    }
  }

  lemma PartsRemain(limits: Limits, node: Node, front: seq<ChatMessage>, rest: seq<ChatMessage>,
                    later: seq<ChatMessage>)
    requires RoomForParts(limits, node, front + rest) && Subsequence(later, rest)
    ensures var r := IngestBatch(limits, node, front); !r.failed && RoomForParts(limits, r.node, later)
  {
    SubsequenceSelf(front + rest);
    assert PartOf(front + rest, front + rest);
    PartFits(limits, node, front, rest);
    var after := IngestBatch(limits, node, front).node;
    forall part | PartOf(part, later) ensures !IngestBatch(limits, after, part).failed {
      SubsequenceTrans(part, later, rest);
      SubsequenceJoin(front, part, rest);
      assert PartOf(front + part, front + rest);
      PartFits(limits, node, front, part);
    }
  }

  /** So every condition can be read off the two stores before the first round. */
  lemma CatchUpFromStart(limits: Limits, wire: Wire, sender: Store, node: Node, n: nat)
    requires Sound(sender) && Sound(node.store) && RoomAhead(limits, sender, node)
    requires n >= RoundsNeeded(|Missing(sender.table, node.store.marks)|)
    ensures var miss, p := Missing(sender.table, node.store.marks), Rounds(limits, wire, sender, node, n);
            && (Missing(sender.table, p.node.store.marks) == [] <==>
                PayloadsFit(wire, sender, node.store.marks, RoundsNeeded(|miss|)))
            && (p.node.events == node.events + miss <==>
                PayloadsFit(wire, sender, node.store.marks, RoundsNeeded(|miss|)) && CutsAscend(miss))
  {
    RoomForMissing(limits, wire, sender, node, RoundsNeeded(|Missing(sender.table, node.store.marks)|));
    CatchUpExactly(limits, wire, sender, node, n);
    RecoversAllExactly(limits, wire, sender, node, n);
  }
}
