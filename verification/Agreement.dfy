/** Quiescence means agreement, and rounds between all pairs reach it in bounded time. */
module Agreement {
  import opened Messages
  import opened StoreModel
  import opened ServiceModel
  import opened SyncModel
  import opened CatchUp
  import opened Replication
  import opened Convergence
  import opened MessageOrder

  function TableOf(sys: System, n: string): seq<ChatMessage>
    requires n in sys.members
  {
    sys.members[n].node.store.table
  }

  /** What `from` would send to `to` over a fresh summary. */
  function Pending(sys: System, from: string, to: string): seq<ChatMessage>
    requires from in sys.members && to in sys.members
  {
    NextBatch(TableOf(sys, from), sys.members[to].node.store.marks)
  }

  /** No node would send anything to any other. */
  ghost predicate Quiescent(sys: System) {
    forall from, to :: from in sys.members && to in sys.members ==> Pending(sys, from, to) == []
  }

  ghost predicate HoldsAll(sys: System, n: string)
    requires n in sys.members
  {
    forall m {:trigger Committed(sys.history, m)} :: Committed(sys.history, m) ==> m in TableOf(sys, n)
  }

  ghost predicate AllHoldAll(sys: System) {
    forall n :: n in sys.members ==> HoldsAll(sys, n)
  }

  /** Nothing is pending between two nodes exactly when the receiver holds all that the sender holds. */
  lemma PendingExactly(sys: System, from: string, to: string)
    requires ClosureInvariant(sys) && from in sys.members && to in sys.members
    ensures Pending(sys, from, to) == [] <==> forall m :: m in TableOf(sys, from) ==> m in TableOf(sys, to)
  {
    var table, marks := TableOf(sys, from), sys.members[to].node.store.marks;
    forall m ensures m in Missing(table, marks) <==> m in table && m !in TableOf(sys, to) {
      MissingMember(table, marks, m);
      ClosedMeans(sys, from, m);
      ClosedMeans(sys, to, m);
    }
    EmptyOrInhabited(Missing(table, marks));
    if Pending(sys, from, to) == [] {
      assert Missing(table, marks) == [];
    } else {
      assert Missing(table, marks)[0] in Missing(table, marks);
    }
  }

  /** Two nodes with nothing to send to each other hold the same messages and list them alike. */
  lemma QuietPairAgrees(sys: System, p: string, q: string)
    requires ClosureInvariant(sys) && p in sys.members && q in sys.members
    requires Pending(sys, p, q) == [] && Pending(sys, q, p) == []
    ensures forall m :: m in TableOf(sys, p) <==> m in TableOf(sys, q)
    ensures GetMessages(TableOf(sys, p)) == GetMessages(TableOf(sys, q))
  {
    PendingExactly(sys, p, q);
    PendingExactly(sys, q, p);
    assert Closed(sys.history, sys.members[p].node.store) && Closed(sys.history, sys.members[q].node.store);
    ArrivalOrderDoesNotMatter(TableOf(sys, p), TableOf(sys, q));
  }

  /** An origin holds everything it ever committed. */
  lemma OriginHoldsOwn(sys: System, m: ChatMessage)
    requires ClosureInvariant(sys) && Committed(sys.history, m)
    ensures m.origin in sys.members && m in TableOf(sys, m.origin)
  {
    OwnMarkBounds(sys, m);
    ClosedMeans(sys, m.origin, m);
  }

  /** The network is quiescent if and only if every node holds every message ever committed. */
  lemma {:induction false} QuiescenceIsCompleteness(sys: System)
    requires ClosureInvariant(sys)
    ensures Quiescent(sys) <==> AllHoldAll(sys)
  {
    if Quiescent(sys) {
      forall n, m | n in sys.members && Committed(sys.history, m) ensures m in TableOf(sys, n) {
        OriginHoldsOwn(sys, m);
        PendingExactly(sys, m.origin, n);
      }
    }
    if AllHoldAll(sys) {
      forall from, to | from in sys.members && to in sys.members ensures Pending(sys, from, to) == [] {
        forall m | m in TableOf(sys, from) ensures m in TableOf(sys, to) {
          ClosedMeans(sys, from, m);
          assert HoldsAll(sys, to) && Committed(sys.history, m);
        }
        PendingExactly(sys, from, to);
      }
    }
  }

  /** In every orderly run: a quiescent network shows one and the same list on every node. */
  lemma {:induction false} QuiescenceMeansAgreement(limits: Limits, sys: System, steps: seq<Step>, p: string, q: string)
    requires Initial(sys) && OrderlyRun(limits, sys, steps)
    ensures var now := Run(limits, sys, steps);
            Quiescent(now) && p in now.members && q in now.members ==>
              GetMessages(TableOf(now, p)) == GetMessages(TableOf(now, q)) && AllHoldAll(now)
  {
    var now := Run(limits, sys, steps);
    OrderlyRunsStayClosed(limits, sys, steps);
    if Quiescent(now) && p in now.members && q in now.members {
      QuiescenceIsCompleteness(now);
      QuietPairAgrees(now, p, q);
    }
  }

  // ---- Reaching agreement ----

  /** One round that gets through: summary, batch, delivery. */
  function RoundSteps(sys: System, from: string, to: string): seq<Step>
    requires from in sys.members && to in sys.members
  {
    var batch := Pending(sys, from, to);
    [AnswerSummary(to), SendBatch(from, to, sys.members[to].node.store.marks)]
    + if batch == [] then [] else [DeliverBatch(to, batch, |batch|, false)]
  }

  function FreshRound(sys: System, from: string, to: string): System
    requires from in sys.members && to in sys.members
  {
    var batch := Pending(sys, from, to);
    var asked := Apply(UNLIMITED, sys, AnswerSummary(to));
    var sent := Apply(UNLIMITED, asked, SendBatch(from, to, sys.members[to].node.store.marks));
    if batch == [] then sent else Apply(UNLIMITED, sent, DeliverBatch(to, batch, |batch|, false))
  }

  lemma {:induction false} RunJoins(limits: Limits, sys: System, a: seq<Step>, b: seq<Step>)
    ensures Run(limits, sys, a + b) == Run(limits, Run(limits, sys, a), b)
  {
    if b == [] {
      assert a + b == a;
    } else {
      RunJoins(limits, sys, a, b[..|b| - 1]);
      assert (a + b)[..|a + b| - 1] == a + b[..|b| - 1];
    }
  }

  lemma RunOne(limits: Limits, sys: System, step: Step)
    ensures Run(limits, sys, [step]) == Apply(limits, sys, step)
  {
    assert [step][..0] == [];
  }

  lemma RoundIsRun(sys: System, from: string, to: string)
    requires from in sys.members && to in sys.members
    ensures FreshRound(sys, from, to) == Run(UNLIMITED, sys, RoundSteps(sys, from, to))
  {
    var batch := Pending(sys, from, to);
    var ask, send := AnswerSummary(to), SendBatch(from, to, sys.members[to].node.store.marks);
    RunOne(UNLIMITED, sys, ask);
    RunJoins(UNLIMITED, sys, [ask], [send]);
    RunOne(UNLIMITED, Apply(UNLIMITED, sys, ask), send);
    assert [ask] + [send] == [ask, send];
    if batch != [] {
      var deliver := DeliverBatch(to, batch, |batch|, false);
      RunJoins(UNLIMITED, sys, [ask, send], [deliver]);
      RunOne(UNLIMITED, Run(UNLIMITED, sys, [ask, send]), deliver);
    } else {
      assert RoundSteps(sys, from, to) == [ask, send];
    }
  }

  /** What a round leaves behind: only the receiver changes, and it gains the batch. */
  ghost predicate RoundFrom(sys: System, after: System, from: string, to: string) {
    && from in sys.members && to in sys.members
    && after.history == sys.history && after.members.Keys == sys.members.Keys
    && (forall n :: n in sys.members && n != to ==> after.members[n] == sys.members[n])
    && after.members[to].up == sys.members[to].up
    && TableOf(after, to) == TableOf(sys, to) + Pending(sys, from, to)
  }

  lemma {:induction false} UnlimitedFreshBatch(node: Node, batch: seq<ChatMessage>)
    requires Sound(node.store) && Fresh(node.store, batch)
    ensures var r := IngestBatch(UNLIMITED, node, batch);
            !r.failed && r.node.store.table == node.store.table + batch
  {
    if batch != [] {
      var prefix, m := batch[..|batch| - 1], batch[|batch| - 1];
      FreshPrefix(node.store, batch);
      UnlimitedFreshBatch(node, prefix);
      NotYetThere(UNLIMITED, node, batch);
      UnlimitedAdd(IngestBatch(UNLIMITED, node, prefix).node.store, m);
      assert batch == prefix + [m];
    }
  }

  lemma PendingIsFresh(sys: System, from: string, to: string)
    requires ClosureInvariant(sys) && from in sys.members && to in sys.members
    ensures var node := sys.members[to].node;
            var batch := Pending(sys, from, to);
            IngestBatch(UNLIMITED, node, batch).node.store.table == node.store.table + batch
  {
    assert Closed(sys.history, sys.members[from].node.store) && Closed(sys.history, sys.members[to].node.store);
    NextBatchIsFresh(TableOf(sys, from), sys.members[to].node.store);
    UnlimitedFreshBatch(sys.members[to].node, Pending(sys, from, to));
  }

  lemma AskEffect(sys: System, to: string)
    requires IsUp(sys, to)
    ensures Apply(UNLIMITED, sys, AnswerSummary(to)) ==
            sys.(network := sys.network + {Summary(to, sys.members[to].node.store.marks)})
  {
  }

  lemma SendEffect(asked: System, from: string, to: string, marks: Marks)
    requires IsUp(asked, from) && Summary(to, marks) in asked.network
    ensures var batch := NextBatch(TableOf(asked, from), marks);
            Apply(UNLIMITED, asked, SendBatch(from, to, marks)) ==
            if batch == [] then asked else asked.(network := asked.network + {Batch(to, batch)})
  {
  }

  lemma {:induction false} DeliverEffect(sent: System, to: string, batch: seq<ChatMessage>)
    requires IsUp(sent, to) && Batch(to, batch) in sent.network
    ensures var after := Apply(UNLIMITED, sent, DeliverBatch(to, batch, |batch|, false));
            && to in after.members && after == sent.(members := sent.members[to := after.members[to]])
            && after.members[to].up
            && after.members[to].node == IngestBatch(UNLIMITED, sent.members[to].node, batch).node
  {
    assert batch[..|batch|] == batch;
  }

  /** A round between running nodes keeps the closure and gives the receiver exactly what was pending. */
  lemma {:induction false} FreshRoundEffect(sys: System, from: string, to: string)
    requires ClosureInvariant(sys) && IsUp(sys, from) && IsUp(sys, to)
    ensures ClosureInvariant(FreshRound(sys, from, to))
    ensures RoundFrom(sys, FreshRound(sys, from, to), from, to)
  {
    FreshRoundKeepsClosure(sys, from, to);
    FreshRoundDelivers(sys, from, to);
  }

  /** Over any wire that lets the round's payloads through, a fresh round is the round of the handlers. */
  lemma FreshRoundIsRound(sys: System, from: string, to: string, wire: Wire)
    requires ClosureInvariant(sys) && IsUp(sys, from) && IsUp(sys, to)
    requires Passes(wire, sys.members[from].node.store, sys.members[to].node.store.marks)
    ensures var after := FreshRound(sys, from, to);
            && to in after.members
            && after.members[to].node == Round(UNLIMITED, wire, sys.members[from].node.store, sys.members[to].node).node
  {
    var marks := sys.members[to].node.store.marks;
    var batch := Pending(sys, from, to);
    var asked := Apply(UNLIMITED, sys, AnswerSummary(to));
    AskEffect(sys, to);
    SendEffect(asked, from, to, marks);
    if batch != [] {
      DeliverEffect(Apply(UNLIMITED, asked, SendBatch(from, to, marks)), to, batch);
    }
  }

  lemma FreshRoundKeepsClosure(sys: System, from: string, to: string)
    requires ClosureInvariant(sys) && IsUp(sys, from) && IsUp(sys, to)
    ensures ClosureInvariant(FreshRound(sys, from, to))
  {
    var marks := sys.members[to].node.store.marks;
    var batch := Pending(sys, from, to);
    var asked := Apply(UNLIMITED, sys, AnswerSummary(to));
    var sent := Apply(UNLIMITED, asked, SendBatch(from, to, marks));
    StepKeepsClosure(UNLIMITED, sys, AnswerSummary(to));
    StepKeepsClosure(UNLIMITED, asked, SendBatch(from, to, marks));
    if batch != [] {
      StepKeepsClosure(UNLIMITED, sent, DeliverBatch(to, batch, |batch|, false));
    }
  }

  lemma FreshRoundDelivers(sys: System, from: string, to: string)
    requires ClosureInvariant(sys) && IsUp(sys, from) && IsUp(sys, to)
    ensures RoundFrom(sys, FreshRound(sys, from, to), from, to)
  {
    var marks := sys.members[to].node.store.marks;
    var batch := Pending(sys, from, to);
    var asked := Apply(UNLIMITED, sys, AnswerSummary(to));
    var sent := Apply(UNLIMITED, asked, SendBatch(from, to, marks));
    AskEffect(sys, to);
    SendEffect(asked, from, to, marks);
    PendingIsFresh(sys, from, to);
    if batch != [] {
      DeliverEffect(sent, to, batch);
    } else {
      assert TableOf(sys, to) + [] == TableOf(sys, to);
    }
  }

  /** A table as long as the history holds all of it. */
  lemma FullTableHoldsAll(table: seq<ChatMessage>, history: seq<ChatMessage>)
    requires UniqueKeys(table) && AllIn(table, history) && |table| >= |history|
    ensures forall m :: m in history ==> m in table
  {
    CountedOnce(table, history);
    var rest := multiset(history) - multiset(table);
    assert multiset(history) == multiset(table) + rest;
    assert |multiset(table)| == |table| && |multiset(history)| == |history|;
    forall m | m in history ensures m in table {
      assert m in multiset(history);
    }
  }

  // ---- Sweeps ----

  ghost predicate AllUp(sys: System) {
    forall n :: n in sys.members ==> sys.members[n].up
  }

  ghost predicate Healthy(sys: System) {
    ClosureInvariant(sys) && AllUp(sys)
  }

  /** Rounds between the given pairs of nodes, one after the other. */
  function Sweep(sys: System, pairs: seq<(string, string)>): System {
    if pairs == [] then sys
    else
      var before, pair := Sweep(sys, pairs[..|pairs| - 1]), pairs[|pairs| - 1];
      if pair.0 in before.members && pair.1 in before.members then FreshRound(before, pair.0, pair.1) else before
  }

  function SweepSteps(sys: System, pairs: seq<(string, string)>): seq<Step> {
    if pairs == [] then []
    else
      var before, pair := Sweep(sys, pairs[..|pairs| - 1]), pairs[|pairs| - 1];
      SweepSteps(sys, pairs[..|pairs| - 1])
      + if pair.0 in before.members && pair.1 in before.members then RoundSteps(before, pair.0, pair.1) else []
  }

  lemma {:induction false} SweepIsRun(sys: System, pairs: seq<(string, string)>)
    ensures Sweep(sys, pairs) == Run(UNLIMITED, sys, SweepSteps(sys, pairs))
  {
    if pairs != [] {
      var prefix, pair := pairs[..|pairs| - 1], pairs[|pairs| - 1];
      var before, steps := Sweep(sys, prefix), SweepSteps(sys, prefix);
      SweepIsRun(sys, prefix);
      if pair.0 in before.members && pair.1 in before.members {
        RoundIsRun(before, pair.0, pair.1);
        RunJoins(UNLIMITED, sys, steps, RoundSteps(before, pair.0, pair.1));
      } else {
        assert steps + [] == steps;
      }
    }
  }

  /** Nobody writes, nobody leaves, and tables only grow at the end. */
  ghost predicate Grown(sys: System, after: System) {
    && after.history == sys.history && after.members.Keys == sys.members.Keys
    && forall n :: n in sys.members ==> TableOf(sys, n) <= TableOf(after, n)
  }

  /** `to` has gained a full batch, or all that `from` held. */
  ghost predicate Gained(sys: System, after: System, from: string, to: string)
    requires from in sys.members && to in sys.members && to in after.members
  {
    || |TableOf(after, to)| >= |TableOf(sys, to)| + MAX_SYNC_BATCH_MESSAGES
    || forall m :: m in TableOf(sys, from) ==> m in TableOf(after, to)
  }

  lemma RoundGains(sys: System, from: string, to: string)
    requires Healthy(sys) && from in sys.members && to in sys.members
    ensures var after := FreshRound(sys, from, to);
            Healthy(after) && Grown(sys, after) && Gained(sys, after, from, to)
  {
    FreshRoundEffect(sys, from, to);
    BatchGrows(sys, FreshRound(sys, from, to), from, to);
    BatchGains(sys, FreshRound(sys, from, to), from, to);
  }

  lemma BatchGrows(sys: System, after: System, from: string, to: string)
    requires RoundFrom(sys, after, from, to)
    ensures Grown(sys, after) && (AllUp(sys) ==> AllUp(after))
  {
  }

  lemma BatchGains(sys: System, after: System, from: string, to: string)
    requires ClosureInvariant(sys) && RoundFrom(sys, after, from, to)
    ensures Gained(sys, after, from, to)
  {
    var marks := sys.members[to].node.store.marks;
    if |Pending(sys, from, to)| < MAX_SYNC_BATCH_MESSAGES {
      forall m | m in TableOf(sys, from) ensures m in TableOf(after, to) {
        MissingMember(TableOf(sys, from), marks, m);
        ClosedMeans(sys, from, m);
        ClosedMeans(sys, to, m);
      }
    }
  }

  lemma GainsJoin(sys: System, before: System, after: System, from: string, to: string)
    requires Grown(sys, before) && Grown(before, after) && from in sys.members && to in sys.members
    requires Gained(sys, before, from, to) || Gained(before, after, from, to)
    ensures Gained(sys, after, from, to)
  {
    assert TableOf(sys, from) <= TableOf(before, from) && TableOf(sys, to) <= TableOf(before, to) <= TableOf(after, to);
    PrefixKeeps(TableOf(sys, from), TableOf(before, from));
    PrefixKeeps(TableOf(before, to), TableOf(after, to));
  }

  lemma PrefixKeeps(a: seq<ChatMessage>, b: seq<ChatMessage>)
    requires a <= b
    ensures forall m :: m in a ==> m in b
  {
  }

  lemma GrownTrans(a: System, b: System, c: System)
    requires Grown(a, b) && Grown(b, c)
    ensures Grown(a, c)
  {
    forall n | n in a.members ensures TableOf(a, n) <= TableOf(c, n) {
      assert TableOf(a, n) <= TableOf(b, n) <= TableOf(c, n);
    }
  }

  lemma {:induction false} SweepGrows(sys: System, pairs: seq<(string, string)>)
    requires Healthy(sys)
    ensures Healthy(Sweep(sys, pairs)) && Grown(sys, Sweep(sys, pairs))
  {
    if pairs != [] {
      var prefix, pair := pairs[..|pairs| - 1], pairs[|pairs| - 1];
      SweepGrows(sys, prefix);
      if pair.0 in sys.members && pair.1 in sys.members {
        RoundGains(Sweep(sys, prefix), pair.0, pair.1);
        GrownTrans(sys, Sweep(sys, prefix), Sweep(sys, pairs));
      }
    }
  }

  lemma {:induction false} SweepGains(sys: System, pairs: seq<(string, string)>, from: string, to: string)
    requires Healthy(sys) && from in sys.members && to in sys.members && (from, to) in pairs
    ensures to in Sweep(sys, pairs).members && Gained(sys, Sweep(sys, pairs), from, to)
  {
    var prefix, pair := pairs[..|pairs| - 1], pairs[|pairs| - 1];
    SweepGrows(sys, prefix);
    if pair == (from, to) {
      RoundGains(Sweep(sys, prefix), from, to);
      GainsJoin(sys, Sweep(sys, prefix), Sweep(sys, pairs), from, to);
    } else {
      assert (from, to) in prefix;
      SweepGains(sys, prefix, from, to);
      if pair.0 in sys.members && pair.1 in sys.members {
        RoundGains(Sweep(sys, prefix), pair.0, pair.1);
        GainsJoin(sys, Sweep(sys, prefix), Sweep(sys, pairs), from, to);
      }
    }
  }

  /** Every ordered pair of different nodes is there, in whatever order. */
  ghost predicate Covers(pairs: seq<(string, string)>, sys: System) {
    forall from, to :: from in sys.members && to in sys.members && from != to ==> (from, to) in pairs
  }

  /** A sweep over all pairs brings each node a full batch or everything there is. */
  lemma SweepBrings(sys: System, pairs: seq<(string, string)>, n: string)
    requires Healthy(sys) && Covers(pairs, sys) && n in sys.members
    ensures var after := Sweep(sys, pairs);
            && Healthy(after) && Grown(sys, after)
            && (|TableOf(after, n)| >= |TableOf(sys, n)| + MAX_SYNC_BATCH_MESSAGES || HoldsAll(after, n))
  {
    SweepGrows(sys, pairs);
    if |TableOf(Sweep(sys, pairs), n)| < |TableOf(sys, n)| + MAX_SYNC_BATCH_MESSAGES {
      forall m | Committed(sys.history, m) ensures m in TableOf(Sweep(sys, pairs), n) {
        CommittedArrives(sys, pairs, n, m);
      }
    }
  }

  lemma CommittedArrives(sys: System, pairs: seq<(string, string)>, n: string, m: ChatMessage)
    requires Healthy(sys) && Covers(pairs, sys) && n in sys.members && Committed(sys.history, m)
    ensures n in Sweep(sys, pairs).members
    ensures || |TableOf(Sweep(sys, pairs), n)| >= |TableOf(sys, n)| + MAX_SYNC_BATCH_MESSAGES
            || m in TableOf(Sweep(sys, pairs), n)
  {
    OriginHoldsOwn(sys, m);
    SweepGrows(sys, pairs);
    if m.origin != n {
      SweepGains(sys, pairs, m.origin, n);
    } else {
      PrefixKeeps(TableOf(sys, n), TableOf(Sweep(sys, pairs), n));
    }
  }

  function Sweeps(sys: System, sweeps: seq<seq<(string, string)>>): System
    decreases |sweeps|
  {
    if sweeps == [] then sys else Sweeps(Sweep(sys, sweeps[0]), sweeps[1..])
  }

  function SweepsSteps(sys: System, sweeps: seq<seq<(string, string)>>): seq<Step>
    decreases |sweeps|
  {
    if sweeps == [] then []
    else SweepSteps(sys, sweeps[0]) + SweepsSteps(Sweep(sys, sweeps[0]), sweeps[1..])
  }

  lemma {:induction false} SweepsAreRun(sys: System, sweeps: seq<seq<(string, string)>>)
    ensures Sweeps(sys, sweeps) == Run(UNLIMITED, sys, SweepsSteps(sys, sweeps))
    decreases |sweeps|
  {
    if sweeps != [] {
      SweepsAreRun(Sweep(sys, sweeps[0]), sweeps[1..]);
      SweepIsRun(sys, sweeps[0]);
      RunJoins(UNLIMITED, sys, SweepSteps(sys, sweeps[0]), SweepsSteps(Sweep(sys, sweeps[0]), sweeps[1..]));
    }
  }

  lemma {:induction false} SweepsGrow(sys: System, sweeps: seq<seq<(string, string)>>)
    requires Healthy(sys)
    ensures Healthy(Sweeps(sys, sweeps)) && Grown(sys, Sweeps(sys, sweeps))
    decreases |sweeps|
  {
    if sweeps != [] {
      SweepGrows(sys, sweeps[0]);
      SweepsGrow(Sweep(sys, sweeps[0]), sweeps[1..]);
      GrownTrans(sys, Sweep(sys, sweeps[0]), Sweeps(sys, sweeps));
    }
  }

  /** How many of the committed messages a node lacks. */
  function Lacking(sys: System, n: string): nat
    requires n in sys.members
  {
    if |TableOf(sys, n)| < |sys.history| then |sys.history| - |TableOf(sys, n)| else 0
  }

  /** Sweeps over all pairs bring a node all there is, in one sweep for every 50 messages it lacks. */
  lemma {:induction false} SweepsBring(sys: System, sweeps: seq<seq<(string, string)>>, n: string)
    requires Healthy(sys) && n in sys.members && forall i :: 0 <= i < |sweeps| ==> Covers(sweeps[i], sys)
    requires HoldsAll(sys, n) || RoundsNeeded(Lacking(sys, n)) <= |sweeps|
    ensures n in Sweeps(sys, sweeps).members && HoldsAll(Sweeps(sys, sweeps), n)
    decreases |sweeps|
  {
    if sweeps == [] {
      if !HoldsAll(sys, n) {
        assert Closed(sys.history, sys.members[n].node.store);
        FullTableHoldsAll(TableOf(sys, n), sys.history);
      }
    } else {
      var after := Sweep(sys, sweeps[0]);
      SweepBrings(sys, sweeps[0], n);
      forall i | 0 <= i < |sweeps[1..]| ensures Covers(sweeps[1..][i], after) {
        assert Covers(sweeps[i + 1], sys);
      }
      SweepsBring(after, sweeps[1..], n);
    }
  }

  /**
   * Convergence: after any orderly run, once every node is up, sweeps over all
   * pairs bring every message to every node, in one sweep for every 50 messages
   * that the neediest node lacks, and all nodes show one list. The sweeps only
   * prolong the run, and if no disk gets full on the way they do so under the
   * nodes' own limits.
   */
  lemma SweepsConverge(limits: Limits, sys: System, steps: seq<Step>, sweeps: seq<seq<(string, string)>>)
    requires Initial(sys) && OrderlyRun(limits, sys, steps)
    ensures var now := Run(limits, sys, steps);
            var later := Sweeps(now, sweeps);
            && later == Run(UNLIMITED, sys, steps + SweepsSteps(now, sweeps))
            && (OrderlyRun(limits, sys, steps + SweepsSteps(now, sweeps)) ==>
                  later == Run(limits, sys, steps + SweepsSteps(now, sweeps)))
            && (AllUp(now) && (forall i :: 0 <= i < |sweeps| ==> Covers(sweeps[i], now))
                && (forall n :: n in now.members ==> RoundsNeeded(Lacking(now, n)) <= |sweeps|) ==>
                  && later.history == now.history && later.members.Keys == now.members.Keys && AllHoldAll(later)
                  && forall p, q :: p in later.members && q in later.members ==>
                       GetMessages(TableOf(later, p)) == GetMessages(TableOf(later, q)))
  {
    var now := Run(limits, sys, steps);
    var later := Sweeps(now, sweeps);
    OrderlyRunsStayClosed(limits, sys, steps);
    LimitsDoNotShow(limits, sys, steps);
    SweepsAreRun(now, sweeps);
    RunJoins(UNLIMITED, sys, steps, SweepsSteps(now, sweeps));
    if OrderlyRun(limits, sys, steps + SweepsSteps(now, sweeps)) {
      LimitsDoNotShow(limits, sys, steps + SweepsSteps(now, sweeps));
    }
    if AllUp(now) && (forall i :: 0 <= i < |sweeps| ==> Covers(sweeps[i], now))
       && (forall n :: n in now.members ==> RoundsNeeded(Lacking(now, n)) <= |sweeps|) {
      SweptStateAgrees(now, sweeps);
    }
  }

  lemma SweptStateAgrees(now: System, sweeps: seq<seq<(string, string)>>)
    requires Healthy(now) && (forall i :: 0 <= i < |sweeps| ==> Covers(sweeps[i], now))
    requires forall n :: n in now.members ==> RoundsNeeded(Lacking(now, n)) <= |sweeps|
    ensures var later := Sweeps(now, sweeps);
            && later.history == now.history && later.members.Keys == now.members.Keys && AllHoldAll(later)
            && forall p, q :: p in later.members && q in later.members ==>
                 GetMessages(TableOf(later, p)) == GetMessages(TableOf(later, q))
  {
    var later := Sweeps(now, sweeps);
    SweepsGrow(now, sweeps);
    forall n | n in later.members ensures HoldsAll(later, n) {
      SweepsBring(now, sweeps, n);
    }
    QuiescenceIsCompleteness(later);
    forall p, q | p in later.members && q in later.members
      ensures GetMessages(TableOf(later, p)) == GetMessages(TableOf(later, q))
    {
      QuietPairAgrees(later, p, q);
    }
  }

  lemma {:induction false} LimitsDoNotShow(limits: Limits, sys: System, steps: seq<Step>)
    requires OrderlyRun(limits, sys, steps)
    ensures Run(limits, sys, steps) == Run(UNLIMITED, sys, steps)
  {
    if steps != [] {
      LimitsDoNotShow(limits, sys, steps[..|steps| - 1]);
    }
  }
}
