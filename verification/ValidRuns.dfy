/**
 * Runs of correctly configured daemons, with valid node ids and callsigns and with
 * bodies that passed `create_message`: there all that is anywhere survives its
 * trips through JSON, so the rounds of SyncModel are what the handlers do.
 */
module ValidRuns {
  import opened Messages
  import opened StoreModel
  import opened ServiceModel
  import opened SyncModel
  import opened Replication
  import opened MessageCodec
  import opened SyncServices
  import opened HttpApi
  import opened Payloads

  ghost predicate ValidStep(step: Step) {
    step.Create? ==> ValidBody(step.body) && IsInt64(step.now)
  }

  /** The creates of such runs are those that `create_message` makes; every other step may be in them. */
  lemma HandlersMakeValidSteps(request: Request, at: string, now: int, crash: bool, step: Step)
    ensures Complaint(request).None? && IsInt64(now) ==> ValidStep(Create(at, BodyOf(request), now, crash))
    ensures step.Create? || ValidStep(step)
  {
    ComplaintExactly(request);
  }

  ghost predicate ValidSteps(steps: seq<Step>) {
    forall i :: 0 <= i < |steps| ==> ValidStep(steps[i])
  }

  /** Fresh databases under the node ids and callsigns that main.cpp lets through. */
  ghost predicate ValidStart(sys: System) {
    && Initial(sys)
    && forall n :: n in sys.members ==> ValidNodeId(n) && ValidCallsign(sys.members[n].node.identity.callsign)
  }

  /** Any set of daemons, each with a name of its own, over fresh databases. */
  function FreshNetwork(callsigns: map<string, string>): System {
    System(map name | name in callsigns :: Boot(Identity(name, callsigns[name]), EMPTY), {}, [])
  }

  /** Every such network is a start of runs, and a valid one exactly if its configurations are valid. */
  lemma FreshNetworksStart(callsigns: map<string, string>)
    ensures Initial(FreshNetwork(callsigns))
    ensures ValidStart(FreshNetwork(callsigns)) <==>
            forall name :: name in callsigns ==> ValidNodeId(name) && ValidCallsign(callsigns[name])
  {
    var sys := FreshNetwork(callsigns);
    forall n | n in sys.members ensures exists callsign :: sys.members[n] == Boot(Identity(n, callsign), EMPTY) {
      assert sys.members[n] == Boot(Identity(n, callsigns[n]), EMPTY);
    }
    forall name | name in callsigns ensures sys.members[name].node.identity.callsign == callsigns[name] {
    }
  }

  ghost predicate AllOwn(history: seq<ChatMessage>) {
    forall i :: 0 <= i < |history| ==> OwnMessage(history[i])
  }

  ghost predicate ValidMember(names: set<string>, name: string, node: Node) {
    && ValidNodeId(name) && node.identity.nodeId == name && ValidCallsign(node.identity.callsign)
    && NamedMarks(node.store.marks) && node.store.marks.Keys <= names
  }

  ghost predicate ValidSystem(sys: System) {
    && SystemInvariant(sys) && AllOwn(sys.history)
    && forall n :: n in sys.members ==> ValidMember(sys.members.Keys, n, sys.members[n].node)
  }

  // ---- Marks keep to valid names ----

  lemma AddKeepsNames(limits: Limits, s: Store, m: ChatMessage, names: set<string>)
    requires NamedMarks(s.marks) && s.marks.Keys <= names
    requires m.sequence <= MAX_SEQUENCE ==> ValidNodeId(m.origin) && m.origin in names
    ensures NamedMarks(Add(limits, s, m).0.marks) && Add(limits, s, m).0.marks.Keys <= names
  {
  }

  lemma {:induction false} BatchKeepsNames(limits: Limits, node: Node, batch: seq<ChatMessage>, names: set<string>)
    requires NamedMarks(node.store.marks) && node.store.marks.Keys <= names
    requires forall i :: 0 <= i < |batch| ==> ValidNodeId(batch[i].origin) && batch[i].origin in names
    ensures var marks := IngestBatch(limits, node, batch).node.store.marks; NamedMarks(marks) && marks.Keys <= names
  {
    if batch != [] {
      var prefix, m := batch[..|batch| - 1], batch[|batch| - 1];
      BatchKeepsNames(limits, node, prefix, names);
      var before := IngestBatch(limits, node, prefix);
      AddKeepsNames(limits, before.node.store, m, names);
      SyncStores(limits, before.node, m);
    }
  }

  // ---- Steps and runs ----

  lemma OwnInHistory(sys: System, m: ChatMessage)
    requires ValidSystem(sys) && m in sys.history
    ensures OwnMessage(m) && m.origin in sys.members.Keys
  {
    var i :| 0 <= i < |sys.history| && sys.history[i] == m;
    OwnMarkBounds(sys, m);
  }

  lemma SettledValid(names: set<string>, name: string, member: Member, node: Node, stored: seq<ChatMessage>,
                     crash: bool)
    requires ValidMember(names, name, node)
    ensures ValidMember(names, name, Settled(member, node, stored, crash).node)
  {
  }

  /** The member that a step acts on is valid afterwards. */
  lemma StepKeepsMember(limits: Limits, sys: System, step: Step, n: string)
    requires ValidSystem(sys) && n in sys.members
    ensures var after := Apply(limits, sys, step);
            n in after.members && ValidMember(sys.members.Keys, n, after.members[n].node)
  {
    var member := sys.members[n];
    var names := sys.members.Keys;
    assert ValidMember(names, n, member.node) && MemberOk(sys.history, n, member);
    match step
    case Create(at, body, now, crash) =>
      if at == n && IsUp(sys, n) {
        var m := Draft(member.node, body, now);
        AddKeepsNames(limits, member.node.store, m, names);
        var stored := NewlyStored(limits, member.node.store, m);
        SettledValid(names, n, member, CreateLocal(limits, member.node, body, now).0, stored, crash);
      }
    case DeliverPush(at, m, crash) =>
      if at == n && IsUp(sys, n) && Push(m) in sys.network {
        assert PacketOk(sys.history, Push(m));
        OwnInHistory(sys, m);
        AddKeepsNames(limits, member.node.store, m, names);
        var stored := if HasId(member.node.store.table, m.id) then [] else NewlyStored(limits, member.node.store, m);
        SettledValid(names, n, member, IngestReplica(limits, member.node, m).0, stored, crash);
      }
    case DeliverBatch(at, messages, taken, crash) =>
      if at == n && IsUp(sys, n) && Batch(n, messages) in sys.network && taken <= |messages| {
        DeliveredBatchValid(limits, sys, n, messages, taken, crash);
      }
    case _ =>
  }

  lemma DeliveredBatchValid(limits: Limits, sys: System, n: string, messages: seq<ChatMessage>, taken: nat, crash: bool)
    requires ValidSystem(sys) && n in sys.members && Batch(n, messages) in sys.network && taken <= |messages|
    ensures var node := sys.members[n].node;
            var stored := StoredInBatch(limits, node, messages[..taken]);
            var after := IngestBatch(limits, node, messages[..taken]).node;
            ValidMember(sys.members.Keys, n, Settled(sys.members[n], after, stored, crash).node)
  {
    var names, node, batch := sys.members.Keys, sys.members[n].node, messages[..taken];
    assert PacketOk(sys.history, Batch(n, messages)) && ValidMember(names, n, node);
    forall i | 0 <= i < |batch| ensures ValidNodeId(batch[i].origin) && batch[i].origin in names {
      OwnInHistory(sys, batch[i]);
    }
    BatchKeepsNames(limits, node, batch, names);
    BatchEvents(limits, node, batch);
    var after, stored := IngestBatch(limits, node, batch).node, StoredInBatch(limits, node, batch);
    SettledValid(names, n, sys.members[n], after, stored, crash);
  }

  /** What a step adds to the history is the draft of a valid node. */
  lemma StepKeepsHistory(limits: Limits, sys: System, step: Step)
    requires ValidSystem(sys) && ValidStep(step)
    ensures AllOwn(Apply(limits, sys, step).history)
    ensures Apply(limits, sys, step).members.Keys == sys.members.Keys
  {
    if step.Create? && IsUp(sys, step.at) {
      var node := sys.members[step.at].node;
      assert ValidMember(sys.members.Keys, step.at, node);
      var m := Draft(node, step.body, step.now);
      if Add(limits, node.store, m).1 == Inserted {
        assert OwnMessage(m);
      }
    }
  }

  lemma {:induction false} ValidRunsStayValid(limits: Limits, sys: System, steps: seq<Step>)
    requires ValidStart(sys) && ValidSteps(steps)
    ensures ValidSystem(Run(limits, sys, steps))
  {
    if steps == [] {
      RunKeepsInvariant(limits, sys, []);
    } else {
      var before, step := Run(limits, sys, steps[..|steps| - 1]), steps[|steps| - 1];
      ValidRunsStayValid(limits, sys, steps[..|steps| - 1]);
      StepKeepsValid(limits, before, step);
    }
  }

  lemma StepKeepsValid(limits: Limits, sys: System, step: Step)
    requires ValidSystem(sys) && ValidStep(step)
    ensures ValidSystem(Apply(limits, sys, step))
  {
    var after := Apply(limits, sys, step);
    StepKeepsInvariant(limits, sys, step);
    StepKeepsHistory(limits, sys, step);
    forall n | n in after.members ensures ValidMember(after.members.Keys, n, after.members[n].node) {
      StepKeepsMember(limits, sys, step, n);
    }
  }

  /**
   * In every reachable state, every message in a table, in flight or ever
   * committed is read back by any peer unchanged.
   */
  lemma PresentTravels(limits: Limits, sys: System, steps: seq<Step>, m: ChatMessage)
    requires ValidStart(sys) && ValidSteps(steps) && Present(Run(limits, sys, steps), m)
    ensures OwnMessage(m) && Travels(m)
  {
    ValidRunsStayValid(limits, sys, steps);
    PresentIsHistory(Run(limits, sys, steps), m);
    OwnInHistory(Run(limits, sys, steps), m);
    OwnMessagesTravel(m);
  }

  /** So between any two nodes of a reachable state a round may run as SyncRound describes it. */
  lemma RoundsAreReady(limits: Limits, sys: System, steps: seq<Step>, from: string, to: string)
    requires ValidStart(sys) && ValidSteps(steps)
    requires from in Run(limits, sys, steps).members && to in Run(limits, sys, steps).members
    ensures var now := Run(limits, sys, steps);
            AllTravel(now.members[from].node.store.table) && Showable(now.members[to].node.store.marks)
  {
    var now := Run(limits, sys, steps);
    ValidRunsStayValid(limits, sys, steps);
    var table := now.members[from].node.store.table;
    forall i | 0 <= i < |table| ensures Travels(table[i]) {
      PresentTravels(limits, sys, steps, table[i]);
    }
    assert ValidMember(now.members.Keys, to, now.members[to].node);
  }
}
