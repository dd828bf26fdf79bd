/** The mesh peer registry of pkg/mesh/state.go. */
module Registry {
  import opened Keys

  datatype PeerState = PeerState(
    publicKey: Key,
    virtualIP: string,
    endpoints: seq<string>,
    lastSeen: int,
    isConnected: bool)

  type Peers = map<Key, PeerState>

  function FreshPeer(pk: Key): PeerState {
    PeerState(pk, "", [], 0, false)
  }

  function Upserted(peers: Peers, pk: Key, update: PeerState -> PeerState, now: int): Peers {
    peers[pk := update(if pk in peers then peers[pk] else FreshPeer(pk)).(lastSeen := now)]
  }

  function ConnectedKeys(peers: Peers): set<Key> {
    set pk | pk in peers && peers[pk].isConnected
  }

  /** `out` are the records of exactly the keys of `wanted`, each once, in the order `keys`. */
  ghost predicate Lists(peers: Peers, keys: seq<Key>, wanted: set<Key>, out: seq<PeerState>) {
    && |keys| == |out|
    && (forall i :: 0 <= i < |out| ==> keys[i] in peers && out[i] == peers[keys[i]])
    && (forall i, j :: 0 <= i < j < |keys| ==> keys[i] != keys[j])
    && (forall pk :: pk in keys <==> pk in wanted)
  }

  class State {
    var peers: Peers

    constructor ()
      ensures peers == map[]
    {
      peers := map[];
    }

    method UpsertPeer(pk: Key, update: PeerState -> PeerState, now: int)
      modifies this
      ensures peers == Upserted(old(peers), pk, update, now)
      ensures peers.Keys == old(peers).Keys + {pk}
      ensures forall k :: k in old(peers) && k != pk ==> peers[k] == old(peers)[k]
      ensures peers[pk].lastSeen == now
      ensures pk in old(peers) ==> peers[pk] == update(old(peers)[pk]).(lastSeen := now)
      ensures pk !in old(peers) ==> peers[pk] == update(PeerState(pk, "", [], 0, false)).(lastSeen := now)
    {
      var p := FreshPeer(pk);
      if pk in peers {
        p := peers[pk];
      }
      p := update(p);
      peers := peers[pk := p.(lastSeen := now)];
    }

    /** Go ranges over the map in no particular order. */
    method ConnectedPeers() returns (out: seq<PeerState>)
      ensures exists keys :: Lists(peers, keys, ConnectedKeys(peers), out)
    {
      out := [];
      ghost var keys: seq<Key> := [];
      var todo := peers.Keys;
      while todo != {}
        invariant todo <= peers.Keys && Lists(peers, keys, ConnectedKeys(peers) - todo, out)
        decreases todo
      {
        var pk :| pk in todo;
        if peers[pk].isConnected {
          assert pk !in keys;
          out, keys := out + [peers[pk]], keys + [pk];
        }
        todo := todo - {pk};
      }
      assert ConnectedKeys(peers) - todo == ConnectedKeys(peers);
      assert Lists(peers, keys, ConnectedKeys(peers), out);
    }

    method PeerCount() returns (total: nat, connected: nat)
      ensures total == |peers|
      ensures connected == |ConnectedKeys(peers)|
    {
      total, connected := 0, 0;
      var todo := peers.Keys;
      assert ConnectedKeys(peers) * todo == ConnectedKeys(peers);
      while todo != {}
        invariant todo <= peers.Keys
        invariant total + |todo| == |peers|
        invariant connected + |ConnectedKeys(peers) * todo| == |ConnectedKeys(peers)|
        decreases todo
      {
        var pk :| pk in todo;
        CountStep(peers, todo, pk);
        total := total + 1;
        if peers[pk].isConnected {
          connected := connected + 1;
        }
        todo := todo - {pk};
      }
    }
  }

  lemma CountStep(peers: Peers, todo: set<Key>, pk: Key)
    requires pk in todo && todo <= peers.Keys
    ensures |ConnectedKeys(peers) * todo| ==
            |ConnectedKeys(peers) * (todo - {pk})| + (if peers[pk].isConnected then 1 else 0)
  {
    var c := ConnectedKeys(peers);
    if peers[pk].isConnected {
      assert c * todo == (c * (todo - {pk})) + {pk};
    } else {
      assert c * todo == c * (todo - {pk});
    }
  }
}
