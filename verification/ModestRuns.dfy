/**
 * The sweeps of Agreement on the daemon's own wire: in a network of at most 46
 * valid nodes with modest messages every round of a sweep gets through.
 */
module ModestRuns {
  import opened Messages
  import opened StoreModel
  import opened ServiceModel
  import opened SyncModel
  import opened Replication
  import opened Convergence
  import opened Agreement
  import opened Payloads
  import opened PayloadLimits
  import opened ValidRuns

  /** At most 46 nodes, all configured validly, and messages whose words take at most 2336 octets. */
  ghost predicate ModestSystem(sys: System) {
    && ValidSystem(sys) && |sys.members.Keys| <= MODEST_ORIGINS
    && AllModest(sys.history)
  }

  lemma MembersAreModest(sys: System, from: string, to: string)
    requires ModestSystem(sys) && from in sys.members && to in sys.members
    ensures ModestMesh(sys.members[from].node.store, sys.members[to].node.store.marks)
  {
    var sender, marks := sys.members[from].node.store, sys.members[to].node.store.marks;
    assert ValidMember(sys.members.Keys, from, sys.members[from].node);
    assert ValidMember(sys.members.Keys, to, sys.members[to].node);
    assert MemberOk(sys.history, from, sys.members[from]);
    ModestTable(sender.table, sys.history);
    SubsetIsSmaller(sender.marks.Keys, sys.members.Keys);
    SubsetIsSmaller(marks.Keys + sender.marks.Keys, sys.members.Keys);
    assert |sender.marks.Keys| == |sender.marks|;
  }

  lemma ModestTable(table: seq<ChatMessage>, history: seq<ChatMessage>)
    requires AllIn(table, history) && AllModest(history)
    ensures AllModest(table)
  {
    forall i | 0 <= i < |table| ensures Modest(table[i]) {
      assert table[i] in history;
      var k :| 0 <= k < |history| && history[k] == table[i];
    }
  }

  /** A fresh round between two nodes of a modest network is the round of the handlers, in the daemon's own sizes. */
  lemma FreshRoundGetsThrough(sys: System, from: string, to: string)
    requires ClosureInvariant(sys) && ModestSystem(sys) && IsUp(sys, from) && IsUp(sys, to)
    ensures var after := FreshRound(sys, from, to);
            && to in after.members
            && after.members[to].node ==
               Round(UNLIMITED, DAEMON, sys.members[from].node.store, sys.members[to].node).node
  {
    MembersAreModest(sys, from, to);
    assert MemberOk(sys.history, from, sys.members[from]);
    ModestRoundPasses(sys.members[from].node.store, sys.members[to].node.store.marks);
    FreshRoundIsRound(sys, from, to, DAEMON);
  }

  lemma RoundKeepsModest(sys: System, from: string, to: string)
    requires ClosureInvariant(sys) && ModestSystem(sys) && IsUp(sys, from) && IsUp(sys, to)
    ensures ModestSystem(FreshRound(sys, from, to))
  {
    var marks := sys.members[to].node.store.marks;
    var batch := Pending(sys, from, to);
    var asked := Apply(UNLIMITED, sys, AnswerSummary(to));
    var sent := Apply(UNLIMITED, asked, SendBatch(from, to, marks));
    StepKeepsValid(UNLIMITED, sys, AnswerSummary(to));
    StepKeepsValid(UNLIMITED, asked, SendBatch(from, to, marks));
    if batch != [] {
      StepKeepsValid(UNLIMITED, sent, DeliverBatch(to, batch, |batch|, false));
    }
    FreshRoundEffect(sys, from, to);
  }

  lemma {:induction false} SweepKeepsModest(sys: System, pairs: seq<(string, string)>)
    requires Healthy(sys) && ModestSystem(sys)
    ensures Healthy(Sweep(sys, pairs)) && ModestSystem(Sweep(sys, pairs))
  {
    SweepGrows(sys, pairs);
    if pairs != [] {
      var prefix, pair := pairs[..|pairs| - 1], pairs[|pairs| - 1];
      var before := Sweep(sys, prefix);
      SweepKeepsModest(sys, prefix);
      if pair.0 in before.members && pair.1 in before.members {
        RoundKeepsModest(before, pair.0, pair.1);
      }
    }
  }

  /** The round between two nodes of `before` led to `after`, over the daemon's wire. */
  ghost predicate GotThrough(before: System, after: System, from: string, to: string) {
    && from in before.members && to in before.members && to in after.members
    && after.members[to].node == Round(UNLIMITED, DAEMON, before.members[from].node.store, before.members[to].node).node
  }

  /** So each round of a sweep is the round of the handlers on the daemon's wire. */
  lemma SweepGetsThrough(sys: System, pairs: seq<(string, string)>, i: nat)
    requires Healthy(sys) && ModestSystem(sys) && i < |pairs|
    requires pairs[i].0 in sys.members && pairs[i].1 in sys.members
    ensures GotThrough(Sweep(sys, pairs[..i]), Sweep(sys, pairs[..i + 1]), pairs[i].0, pairs[i].1)
  {
    SweepGrows(sys, pairs[..i]);
    SweepKeepsModest(sys, pairs[..i]);
    NextRoundGetsThrough(Sweep(sys, pairs[..i]), pairs[i].0, pairs[i].1);
    SweepOneMore(sys, pairs, i);
  }

  lemma SweepOneMore(sys: System, pairs: seq<(string, string)>, i: nat)
    requires i < |pairs|
    requires var before := Sweep(sys, pairs[..i]); pairs[i].0 in before.members && pairs[i].1 in before.members
    ensures Sweep(sys, pairs[..i + 1]) == FreshRound(Sweep(sys, pairs[..i]), pairs[i].0, pairs[i].1)
  {
    assert pairs[..i + 1][..i] == pairs[..i] && pairs[..i + 1][i] == pairs[i];
  }

  lemma NextRoundGetsThrough(sys: System, from: string, to: string)
    requires Healthy(sys) && ModestSystem(sys) && from in sys.members && to in sys.members
    ensures GotThrough(sys, FreshRound(sys, from, to), from, to)
  {
    FreshRoundGetsThrough(sys, from, to);
  }

  /** The states that such networks reach: after any orderly run of valid daemons with modest messages. */
  lemma OrderlyRunsAreModest(limits: Limits, sys: System, steps: seq<Step>)
    requires ValidStart(sys) && ValidSteps(steps) && OrderlyRun(limits, sys, steps)
    ensures var now := Run(limits, sys, steps);
            AllUp(now) && |now.members.Keys| <= MODEST_ORIGINS && AllModest(now.history) ==>
              Healthy(now) && ModestSystem(now)
  {
    ValidRunsStayValid(limits, sys, steps);
    OrderlyRunsStayClosed(limits, sys, steps);
  }
}
