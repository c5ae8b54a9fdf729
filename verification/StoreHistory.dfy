/** Whole runs of a store: what any series of adds leaves of the history. */
module StoreHistory {
  import opened Messages
  import opened StoreModel

  /** A run's result: the store, all messages ever accepted, and how many of them were pruned. */
  datatype History = History(store: Store, accepted: seq<ChatMessage>, dropped: nat)

  function Step(limits: Limits, h: History, m: ChatMessage): History
    requires |h.store.table| <= |h.accepted|
  {
    var (after, outcome) := Add(limits, h.store, m);
    var accepted := if outcome == Inserted then h.accepted + [m] else h.accepted;
    History(after, accepted, |accepted| - |after.table|)
  }

  function Run(limits: Limits, adds: seq<ChatMessage>): (h: History)
    ensures |h.store.table| <= |h.accepted|
  {
    if adds == [] then History(EMPTY, [], 0)
    else Step(limits, Run(limits, adds[..|adds| - 1]), adds[|adds| - 1])
  }

  /** A run is its adds one after the other; the history takes exactly what the store takes. */
  lemma RunInTurn(limits: Limits, adds: seq<ChatMessage>, m: ChatMessage)
    ensures Run(limits, []).store == EMPTY && Run(limits, []).accepted == []
    ensures var before, after := Run(limits, adds), Run(limits, adds + [m]);
            && after.store == Add(limits, before.store, m).0
            && after.accepted == before.accepted + (if Add(limits, before.store, m).1 == Inserted then [m] else [])
  {
    assert (adds + [m])[..|adds|] == adds;
  }

  function Highest(messages: seq<ChatMessage>, origin: string): nat {
    if messages == [] then 0
    else
      var rest := Highest(messages[..|messages| - 1], origin);
      var m := messages[|messages| - 1];
      if m.origin == origin then Max(rest, m.sequence) else rest
  }

  /** Deleting rows never makes the database file larger. */
  ghost predicate PruningFrees(limits: Limits) {
    forall s: Store {:trigger Prune(s)} :: Fits(limits, s.table, s.marks) ==> Fits(limits, Prune(s).table, s.marks)
  }

  ghost predicate Faithful(limits: Limits, h: History) {
    && h.dropped <= |h.accepted|
    && h.store.table == h.accepted[h.dropped..]
    && Fits(limits, h.store.table, h.store.marks)
    && Invariant(h.store)
    && HighestMarks(h.store.marks, h.accepted)
  }

  ghost predicate HighestMarks(marks: Marks, accepted: seq<ChatMessage>) {
    forall origin :: Mark(marks, origin) == Highest(accepted, origin)
  }

  /**
   * Bounded FIFO: after any series of adds the table is the history of accepted
   * messages less its oldest part, within capacity and free of duplicates,
   * and each mark is the highest sequence ever accepted, pruned rows included.
   */
  lemma {:induction false} BoundedFifo(limits: Limits, adds: seq<ChatMessage>)
    requires Fits(limits, [], map[]) && PruningFrees(limits)
    ensures Faithful(limits, Run(limits, adds))
  {
    if adds != [] {
      BoundedFifo(limits, adds[..|adds| - 1]);
      StepKeepsFaithful(limits, Run(limits, adds[..|adds| - 1]), adds[|adds| - 1]);
    }
  }

  lemma StepKeepsFaithful(limits: Limits, h: History, m: ChatMessage)
    requires Faithful(limits, h) && PruningFrees(limits)
    ensures Faithful(limits, Step(limits, h, m))
  {
    StepKeepsSuffix(limits, h, m);
    AddOutcome(limits, h.store, m);
    if Add(limits, h.store, m).1 == Inserted {
      RaiseIsHighest(h.store.marks, h.accepted, m);
    }
  }

  lemma StepKeepsSuffix(limits: Limits, h: History, m: ChatMessage)
    requires h.dropped <= |h.accepted| && h.store.table == h.accepted[h.dropped..]
    requires Fits(limits, h.store.table, h.store.marks) && PruningFrees(limits)
    ensures var next := Step(limits, h, m);
            && next.store.table == next.accepted[next.dropped..]
            && Fits(limits, next.store.table, next.store.marks)
  {
    var k := Min(PRUNE_COUNT, |h.store.table|);
    assert Prune(h.store).table == h.store.table[k..];
    assert Fits(limits, Prune(h.store).table, h.store.marks);
    SuffixGrows(h.accepted, h.dropped, 0, m);
    SuffixGrows(h.accepted, h.dropped, k, m);
  }

  lemma SuffixGrows(accepted: seq<ChatMessage>, dropped: nat, k: nat, m: ChatMessage)
    requires dropped + k <= |accepted|
    ensures accepted[dropped..][k..] + [m] == (accepted + [m])[dropped + k..]
  {
  }

  lemma RaiseIsHighest(marks: Marks, accepted: seq<ChatMessage>, m: ChatMessage)
    requires HighestMarks(marks, accepted)
    ensures HighestMarks(Raise(marks, m), accepted + [m])
  {
    assert (accepted + [m])[..|accepted|] == accepted;
  }

  /** So a new sequence always exceeds every sequence ever accepted for that origin. */
  lemma NextSequenceIsFresh(limits: Limits, adds: seq<ChatMessage>, origin: string, m: ChatMessage)
    requires Fits(limits, [], map[]) && PruningFrees(limits)
    requires m in Run(limits, adds).accepted && m.origin == origin
    ensures m.sequence < NextSequence(Run(limits, adds).store.marks, origin)
  {
    BoundedFifo(limits, adds);
    HighestBounds(Run(limits, adds).accepted, m);
  }

  lemma {:induction false} HighestBounds(messages: seq<ChatMessage>, m: ChatMessage)
    requires m in messages
    ensures m.sequence <= Highest(messages, m.origin)
  {
    if messages[|messages| - 1] != m {
      HighestBounds(messages[..|messages| - 1], m);
    }
  }
}
