/** `receive_announcements` (discovery_service.cpp): accept, synchronise the clock, then stamp the peer. */
module Discovery {
  import opened MessageCodec
  import opened MessageOrder
  import opened TimeSync
  import opened PeerRegistries

  const MAX_DATAGRAM_BYTES: nat := 4096
  const PROTOCOL_VERSION: int := 1

  datatype TimeSyncMode = Off | Authority | Client

  datatype Settings = Settings(nodeId: string, mode: TimeSyncMode, authorityId: string)

  /**
   * A datagram and its sender's address, if that can be converted; the
   * milliseconds since the one before it, and whether the clock may be set now.
   */
  datatype Datagram = Datagram(size: nat, text: Text, address: Option<string>, elapsedMs: nat, permitted: bool)

  /** An accepted announcement; `authorityTimeMs` is present if it claims to be a time authority. */
  datatype Announcement = Announcement(
    nodeId: string, callsign: string, appVersion: string, httpPort: int, authorityTimeMs: Option<int>)

  predicate ClaimsAuthority(members: map<string, Json>) {
    "time_authority" in members && members["time_authority"] == JBool(true)
  }

  predicate WellformedAnnouncement(self: string, tree: Json) {
    && tree.JObject?
    && HasInt(tree.members, "protocol") && tree.members["protocol"].number == PROTOCOL_VERSION
    && HasString(tree.members, "type") && tree.members["type"].text == "announce"
    && HasString(tree.members, "node_id") && tree.members["node_id"].text != ""
    && HasString(tree.members, "callsign") && HasString(tree.members, "app_version")
    && HasInt(tree.members, "http_port") && 1 <= GetInt64(tree.members["http_port"].number) <= 65535
    && tree.members["node_id"].text != self
    && (ClaimsAuthority(tree.members) ==> HasInt(tree.members, "time_ms"))
  }

  function Accepted(self: string, datagram: Datagram): Option<Announcement> {
    if datagram.size > MAX_DATAGRAM_BYTES || !datagram.text.Readable? || !datagram.text.complete then None
    else if !WellformedAnnouncement(self, datagram.text.tree) then None
    else
      var members := datagram.text.tree.members;
      Some(Announcement(members["node_id"].text, members["callsign"].text, members["app_version"].text,
                        GetInt64(members["http_port"].number),
                        if ClaimsAuthority(members)
                        then Option.Some(GetInt64(members["time_ms"].number)) else Option.None))
  }

  /** Which announcements are taken: those of other nodes with every member in order. */
  ghost predicate AnnouncementTaken(self: string, datagram: Datagram) {
    && datagram.size <= 4096 && datagram.text.Readable? && datagram.text.complete && datagram.text.tree.JObject?
    && (var members := datagram.text.tree.members;
        && "protocol" in members && members["protocol"] == JInt(1)
        && "type" in members && members["type"] == JString("announce")
        && "node_id" in members && members["node_id"].JString?
        && "callsign" in members && members["callsign"].JString?
        && "app_version" in members && members["app_version"].JString?
        && members["node_id"].text != "" && members["node_id"].text != self
        && "http_port" in members && members["http_port"].JInt? && 1 <= members["http_port"].number <= 65535
        && ("time_authority" in members && members["time_authority"] == JBool(true) ==>
              "time_ms" in members && members["time_ms"].JInt?))
  }

  /** And what is taken from them. */
  lemma AcceptedExactly(self: string, datagram: Datagram)
    ensures Accepted(self, datagram).Some? <==> AnnouncementTaken(self, datagram)
    ensures AnnouncementTaken(self, datagram) ==>
              var members, a := datagram.text.tree.members, Accepted(self, datagram).value;
              && members["node_id"] == JString(a.nodeId) && members["callsign"] == JString(a.callsign)
              && members["app_version"] == JString(a.appVersion) && members["http_port"] == JInt(a.httpPort)
              && (a.authorityTimeMs.Some? <==> "time_authority" in members && members["time_authority"] == JBool(true))
              && (a.authorityTimeMs.Some? ==> a.authorityTimeMs.value == GetInt64(members["time_ms"].number))
  {
  }

  predicate Trusted(settings: Settings, a: Announcement) {
    && settings.mode == Client && a.authorityTimeMs.Some?
    && (settings.authorityId == "" || settings.authorityId == a.nodeId)
  }

  datatype State = State(clock: ClockState, peers: Peers)

  function StampedPeer(a: Announcement, address: string, now: int): Peer {
    Peer(a.nodeId, a.callsign, address, a.httpPort, a.appVersion, now)
  }

  /** One datagram: the clock moves first, so the stamp is in the new time; without an address there is no stamp. */
  function Received(settings: Settings, s: State, datagram: Datagram): State {
    var ticked := s.clock.Tick(datagram.elapsedMs);
    match Accepted(settings.nodeId, datagram)
    case None => State(ticked, s.peers)
    case Some(a) =>
      var clock := if Trusted(settings, a)
                   then Synchronized(ticked, a.authorityTimeMs.value, datagram.permitted) else ticked;
      if datagram.address.None? then State(clock, s.peers)
      else State(clock, s.peers[a.nodeId := StampedPeer(a, datagram.address.value, clock.Local())])
  }

  /**
   * One datagram: time passes; a refused one does nothing more; the authority that
   * a client follows sets its clock; and an address stamps the announcer, with
   * the local time after that.
   */
  lemma ReceivedExactly(settings: Settings, s: State, datagram: Datagram)
    ensures var after, ticked := Received(settings, s, datagram), s.clock.Tick(datagram.elapsedMs);
            if !AnnouncementTaken(settings.nodeId, datagram) then after == State(ticked, s.peers)
            else
              var a := Accepted(settings.nodeId, datagram).value;
              var follows := && settings.mode.Client? && a.authorityTimeMs.Some?
                             && (settings.authorityId == "" || settings.authorityId == a.nodeId);
              && after.clock == (if follows then Synchronized(ticked, a.authorityTimeMs.value, datagram.permitted)
                                 else ticked)
              && (forall n :: n in s.peers && n != a.nodeId ==> n in after.peers && after.peers[n] == s.peers[n])
              && (forall n :: n in after.peers ==> n in s.peers || n == a.nodeId)
              && (datagram.address.None? ==> after.peers == s.peers)
              && (datagram.address.Some? ==>
                    && a.nodeId in after.peers
                    && var p := after.peers[a.nodeId];
                       && p.nodeId == a.nodeId && p.callsign == a.callsign && p.appVersion == a.appVersion
                       && p.httpPort == a.httpPort && p.address == datagram.address.value
                       && p.lastSeenMs == after.clock.systemMs + after.clock.offsetMs)
  {
    AcceptedExactly(settings.nodeId, datagram);
  }

  /** Datagrams are received one after the other. */
  lemma ReceivedInTurn(settings: Settings, s: State, datagrams: seq<Datagram>, datagram: Datagram)
    ensures ReceivedAll(settings, s, []) == s
    ensures ReceivedAll(settings, s, datagrams + [datagram]) ==
            Received(settings, ReceivedAll(settings, s, datagrams), datagram)
  {
    assert (datagrams + [datagram])[..|datagrams|] == datagrams;
  }

  function ReceivedAll(settings: Settings, s: State, datagrams: seq<Datagram>): State {
    if datagrams == [] then s
    else Received(settings, ReceivedAll(settings, s, datagrams[..|datagrams| - 1]), datagrams[|datagrams| - 1])
  }

  class DiscoveryService {
    const settings: Settings
    const clock: Clock
    const registry: PeerRegistry

    ghost predicate Valid()
      reads this, registry
    {
      registry.Valid()
    }

    constructor (settings: Settings, clock: Clock, registry: PeerRegistry)
      requires registry.Valid()
      ensures Valid() && this.settings == settings && this.clock == clock && this.registry == registry
    {
      this.settings, this.clock, this.registry := settings, clock, registry;
    }

    function Now(): State
      reads this, clock, registry
    {
      State(clock.State(), registry.peers)
    }

    method SynchronizeTime(authorityTimeMs: int, permitted: bool)
      modifies clock
      ensures clock.State() == Synchronized(old(clock.State()), authorityTimeMs, permitted)
    {
      clock.SynchronizeTime(authorityTimeMs, permitted);
    }

    method ReceiveAnnouncements(datagrams: seq<Datagram>)
      requires Valid()
      modifies clock, registry
      ensures Valid() && Now() == ReceivedAll(settings, old(Now()), datagrams)
    {
      var index := 0;
      while index < |datagrams|
        invariant 0 <= index <= |datagrams| && Valid()
        invariant Now() == ReceivedAll(settings, old(Now()), datagrams[..index])
      {
        assert datagrams[..index + 1][..index] == datagrams[..index];
        var datagram := datagrams[index];
        index := index + 1;
        clock.systemMs := clock.systemMs + datagram.elapsedMs;
        var accepted := Accepted(settings.nodeId, datagram);
        if accepted.None? {
          continue;
        }
        var a := accepted.value;
        if Trusted(settings, a) {
          SynchronizeTime(a.authorityTimeMs.value, datagram.permitted);
        }
        if datagram.address.None? {
          continue;
        }
        var now := clock.CurrentTimeMs();
        registry.Update(Peer(a.nodeId, a.callsign, datagram.address.value, a.httpPort, a.appVersion, now));
      }
      assert datagrams[..index] == datagrams;
    }
  }

  // ---- The registry as a view of the history ----

  /** The latest accepted announcement of a node, stamped with the local time it was taken at. */
  function Latest(settings: Settings, s: State, datagrams: seq<Datagram>, nodeId: string): Option<Peer> {
    if datagrams == [] then (if nodeId in s.peers then Option.Some(s.peers[nodeId]) else Option.None)
    else
      var prefix, last := datagrams[..|datagrams| - 1], datagrams[|datagrams| - 1];
      match Accepted(settings.nodeId, last)
      case Some(a) =>
        if a.nodeId == nodeId && last.address.Some?
        then Option.Some(StampedPeer(a, last.address.value, ReceivedAll(settings, s, datagrams).clock.Local()))
        else Latest(settings, s, prefix, nodeId)
      case None => Latest(settings, s, prefix, nodeId)
  }

  lemma {:induction false} RegistryIsLatest(settings: Settings, s: State, datagrams: seq<Datagram>, nodeId: string)
    requires Keyed(s.peers)
    ensures var peers := ReceivedAll(settings, s, datagrams).peers;
            && Keyed(peers)
            && Latest(settings, s, datagrams, nodeId) ==
               if nodeId in peers then Option.Some(peers[nodeId]) else Option.None
  {
    if datagrams != [] {
      RegistryIsLatest(settings, s, datagrams[..|datagrams| - 1], nodeId);
    }
  }

  /** `active_peers` after any history: exactly the latest announcement of each node, if its age allows. */
  method ActiveAfter(service: DiscoveryService, datagrams: seq<Datagram>, nowMs: int) returns (result: seq<Peer>)
    requires service.Valid()
    modifies service.clock, service.registry
    ensures SortedById(result)
    ensures forall p :: p in result <==>
              Latest(service.settings, old(service.Now()), datagrams, p.nodeId) == Option.Some(p) && Active(p, nowMs)
  {
    ghost var start := service.Now();
    service.ReceiveAnnouncements(datagrams);
    result := service.registry.ActivePeers(nowMs);
    forall p ensures p in result <==>
              Latest(service.settings, start, datagrams, p.nodeId) == Option.Some(p) && Active(p, nowMs)
    {
      RegistryIsLatest(service.settings, start, datagrams, p.nodeId);
    }
  }

  /** No datagram of the series moves the clock or announces the node anew. */
  predicate Undisturbed(settings: Settings, s: State, datagrams: seq<Datagram>, nodeId: string) {
    datagrams == [] || (
      var prefix, last := datagrams[..|datagrams| - 1], datagrams[|datagrams| - 1];
      && Undisturbed(settings, s, prefix, nodeId)
      && (match Accepted(settings.nodeId, last)
          case None => true
          case Some(a) =>
            && !(a.nodeId == nodeId && last.address.Some?)
            && !(Trusted(settings, a) &&
                 Adjusts(ReceivedAll(settings, s, prefix).clock.Tick(last.elapsedMs), a.authorityTimeMs.value))))
  }

  /** Datagrams that are not taken disturb nothing. */
  lemma {:induction false} RefusedDisturbNothing(settings: Settings, s: State, datagrams: seq<Datagram>, nodeId: string)
    requires forall i :: 0 <= i < |datagrams| ==> !AnnouncementTaken(settings.nodeId, datagrams[i])
    ensures Undisturbed(settings, s, datagrams, nodeId)
  {
    if datagrams != [] {
      RefusedDisturbNothing(settings, s, datagrams[..|datagrams| - 1], nodeId);
      AcceptedExactly(settings.nodeId, datagrams[|datagrams| - 1]);
    }
  }

  function Elapsed(datagrams: seq<Datagram>): nat {
    if datagrams == [] then 0 else Elapsed(datagrams[..|datagrams| - 1]) + datagrams[|datagrams| - 1].elapsedMs
  }

  /**
   * An announcer is active from its own announcement on, even one that made the
   * clock jump, and then for exactly 20 seconds: the stamp is taken after the
   * clock has moved, so the age starts at 0.
   */
  lemma {:induction false} ActiveForTwentySeconds(settings: Settings, s: State, announcement: Datagram,
                                                  later: seq<Datagram>)
    requires Accepted(settings.nodeId, announcement).Some? && announcement.address.Some?
    requires Undisturbed(settings, Received(settings, s, announcement), later,
                         Accepted(settings.nodeId, announcement).value.nodeId)
    ensures var after := ReceivedAll(settings, Received(settings, s, announcement), later);
            var id := Accepted(settings.nodeId, announcement).value.nodeId;
            && id in after.peers
            && after.clock.Local() - after.peers[id].lastSeenMs == Elapsed(later)
            && (Active(after.peers[id], after.clock.Local()) <==> Elapsed(later) <= PEER_TIMEOUT_MS)
  {
    if later != [] {
      ActiveForTwentySeconds(settings, s, announcement, later[..|later| - 1]);
    }
  }
}
