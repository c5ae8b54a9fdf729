/** `PeerRegistry` (peer_registry.cpp): the latest announcement per node, and who is active. */
module PeerRegistries {
  import opened MessageOrder

  datatype Peer = Peer(
    nodeId: string, callsign: string, address: string, httpPort: int, appVersion: string, lastSeenMs: int)

  const PEER_TIMEOUT_MS: int := 20000

  type Peers = map<string, Peer>

  predicate Active(peer: Peer, nowMs: int) {
    0 <= nowMs - peer.lastSeenMs <= PEER_TIMEOUT_MS
  }

  predicate SortedById(peers: seq<Peer>) {
    forall i, j :: 0 <= i < j < |peers| ==> TextLess(peers[i].nodeId, peers[j].nodeId)
  }

  ghost predicate Keyed(peers: Peers) {
    forall n :: n in peers ==> peers[n].nodeId == n
  }

  function InsertById(sorted: seq<Peer>, peer: Peer): seq<Peer> {
    if sorted == [] then [peer]
    else if TextLess(peer.nodeId, sorted[0].nodeId) then [peer] + sorted
    else [sorted[0]] + InsertById(sorted[1..], peer)
  }

  lemma {:induction false} InsertByIdSorts(sorted: seq<Peer>, peer: Peer)
    requires SortedById(sorted) && forall i :: 0 <= i < |sorted| ==> sorted[i].nodeId != peer.nodeId
    ensures SortedById(InsertById(sorted, peer))
    ensures forall p :: p in InsertById(sorted, peer) <==> p in sorted || p == peer
  {
    if sorted != [] {
      TextLessIsStrict(peer.nodeId, sorted[0].nodeId);
      if TextLess(peer.nodeId, sorted[0].nodeId) {
        forall j | 0 <= j < |sorted| ensures TextLess(peer.nodeId, sorted[j].nodeId) {
          if j > 0 {
            TextLessTransitive(peer.nodeId, sorted[0].nodeId, sorted[j].nodeId);
          }
        }
      } else {
        InsertByIdSorts(sorted[1..], peer);
        var rest := InsertById(sorted[1..], peer);
        assert sorted == [sorted[0]] + sorted[1..];
        forall j | 0 <= j < |rest| ensures TextLess(sorted[0].nodeId, rest[j].nodeId) {
          assert rest[j] in rest;
          if rest[j] != peer {
            var k :| 1 <= k < |sorted| && sorted[k] == rest[j];
          }
        }
      }
    }
  }

  /** `std::ranges::sort` by node id. */
  function SortById(peers: seq<Peer>): seq<Peer> {
    if peers == [] then [] else InsertById(SortById(peers[1..]), peers[0])
  }

  predicate DistinctIds(peers: seq<Peer>) {
    forall i, j :: 0 <= i < j < |peers| ==> peers[i].nodeId != peers[j].nodeId
  }

  lemma {:induction false} SortByIdSorts(peers: seq<Peer>)
    requires DistinctIds(peers)
    ensures SortedById(SortById(peers))
    ensures forall p :: p in SortById(peers) <==> p in peers
  {
    if peers != [] {
      var rest := SortById(peers[1..]);
      SortByIdSorts(peers[1..]);
      forall i | 0 <= i < |rest| ensures rest[i].nodeId != peers[0].nodeId {
        assert rest[i] in rest;
        var k :| 1 <= k < |peers| && peers[k] == rest[i];
      }
      InsertByIdSorts(rest, peers[0]);
      assert peers == [peers[0]] + peers[1..];
    }
  }

  class PeerRegistry {
    var peers: Peers

    ghost predicate Valid()
      reads this
    {
      Keyed(peers)
    }

    constructor ()
      ensures Valid() && peers == map[]
    {
      peers := map[];
    }

    method Update(peer: Peer)
      requires Valid()
      modifies this
      ensures Valid() && peers == old(peers)[peer.nodeId := peer]
    {
      peers := peers[peer.nodeId := peer];
    }

    /** The active peers in ascending order of node id, each once. */
    method ActivePeers(nowMs: int) returns (result: seq<Peer>)
      requires Valid()
      ensures SortedById(result)
      ensures forall p :: p in result <==> p.nodeId in peers && peers[p.nodeId] == p && Active(p, nowMs)
      ensures forall p :: p in result <==>
                p.nodeId in peers && peers[p.nodeId] == p && 0 <= nowMs - p.lastSeenMs <= 20000
    {
      result := [];
      var left := peers.Keys;
      while left != {}
        invariant left <= peers.Keys && DistinctIds(result)
        invariant forall p :: p in result <==>
                    p.nodeId in peers && p.nodeId !in left && peers[p.nodeId] == p && Active(p, nowMs)
        decreases left
      {
        var nodeId :| nodeId in left;
        var peer := peers[nodeId];
        var ageMs := nowMs - peer.lastSeenMs;
        if ageMs >= 0 && ageMs <= PEER_TIMEOUT_MS {
          assert forall p :: p in result ==> p.nodeId != nodeId;
          assert forall i :: 0 <= i < |result| ==> result[i] in result;
          result := result + [peer];
        }
        left := left - {nodeId};
      }
      SortByIdSorts(result);
      result := SortById(result);
    }
  }

  /** There is only one such list: the order in which the map is walked does not show. */
  lemma {:induction false} ActiveListUnique(a: seq<Peer>, b: seq<Peer>)
    requires SortedById(a) && SortedById(b) && forall p :: p in a <==> p in b
    ensures a == b
  {
    EmptyTogether(a, b);
    if a != [] {
      assert a[0] in a;
      var i :| 0 <= i < |b| && b[i] == a[0];
      assert b[0] in b;
      var j :| 0 <= j < |a| && a[j] == b[0];
      TextLessIsStrict(a[0].nodeId, b[0].nodeId);
      assert a[0] == b[0];
      forall p ensures p in a[1..] <==> p in b[1..] {
        HeadAppearsOnce(a);
        HeadAppearsOnce(b);
        assert p in a <==> p == a[0] || p in a[1..];
        assert p in b <==> p == b[0] || p in b[1..];
      }
      ActiveListUnique(a[1..], b[1..]);
    }
  }

  lemma HeadAppearsOnce(a: seq<Peer>)
    requires SortedById(a) && a != []
    ensures a[0] !in a[1..]
  {
    TextLessIsStrict(a[0].nodeId, a[0].nodeId);
    forall i | 1 <= i < |a| ensures a[i] != a[0] {
      assert TextLess(a[0].nodeId, a[i].nodeId);
    }
  }
}
