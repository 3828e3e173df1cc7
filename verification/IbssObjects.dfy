/** struct ibss_rsn of one station: its peer list and the driver's pairwise keys, changed in
    place, in step with the transitions of the network model. */
module IbssObjects {
  import opened Octets
  import opened IbssRsn

  /** Where ibss_rsn_process_rx_eapol passes a frame. */
  datatype Route = Discarded | ToSupplicant(peer: nat) | ToAuthenticator(peer: nat)

  class IbssNode {
    const own: Addr
    var peers: seq<Peer>
    var keys: map<Addr, Ptk>

    constructor (addr: Addr)
      ensures own == addr && State() == Station([], map[])
    {
      own := addr;
      peers := [];
      keys := map[];
    }

    function State(): Station
      reads this
    {
      Station(peers, keys)
    }

    /** supp_set_key with key index 0 */
    method InstallFromSupplicant(peer: Addr, k: Ptk)
      modifies this`keys
      ensures State() == SuppSetKey(own, old(State()), peer, k)
    {
      if MemCmp(own, peer) > 0 {
        return;
      }
      keys := keys[peer := k];
    }

    /** auth_set_key with key index 0 */
    method InstallFromAuthenticator(peer: Addr, k: Option<Ptk>)
      modifies this`keys
      ensures State() == AuthSetKey(own, old(State()), peer, k)
    {
      if MemCmp(own, peer) < 0 {
        return;
      }
      keys := if k.None? then keys - {peer} else keys[peer := k.value];
    }

    /** The search of ibss_rsn_start, ibss_rsn_stop and ibss_rsn_rx_eapol. */
    method Search(addr: Addr) returns (i: nat)
      ensures i == Find(peers, addr)
    {
      i := 0;
      while i < |peers| && peers[i].addr != addr
        invariant i <= |peers|
        invariant Find(peers, addr) == i + Find(peers[i..], addr)
      {
        assert peers[i..][1..] == peers[i + 1..];
        i := i + 1;
      }
    }

    /** ibss_rsn_start */
    method StartPeer(addr: Addr, anonce: nat)
      modifies this
      ensures State() == Begun(own, old(State()), addr, anonce)
    {
      var i := Search(addr);
      if i < |peers| {
        return;
      }
      InstallFromAuthenticator(addr, None);
      peers := [NewPeer(addr, anonce)] + peers;
    }

    /** ibss_rsn_stop */
    method StopPeers(addr: Option<Addr>)
      modifies this`peers
      ensures State() == Stopped(old(State()), addr)
    {
      if addr.None? {
        peers := [];
      } else {
        var i := Search(addr.value);
        if i < |peers| {
          peers := peers[..i] + peers[i + 1..];
        }
      }
    }

    /** ibss_rsn_rx_eapol: the result code and where the frame goes. A frame goes to the peer
        it came from, to its supplicant if and only if the Key Ack bit is set; such a frame
        makes an unknown station a peer. */
    method RxEapolFrame(src: Addr, frame: Bytes, anonce: nat) returns (code: int, route: Route)
      modifies this
      ensures var known := Find(old(peers), src) < |old(peers)|;
        && State() == Routed(own, old(State()), src, DstSupp(frame), anonce)
        && (route.ToSupplicant? <==> DstSupp(frame) == Some(true))
        && (route.ToAuthenticator? <==> known && DstSupp(frame) == Some(false))
        && code == if !route.Discarded? then 1 else if known then -1 else 0
      ensures !route.Discarded? ==> route.peer < |peers| && peers[route.peer].addr == src
    {
      var i := Search(src);
      var dst := DstSupp(frame);
      if i < |peers| {
        if dst.None? {
          return -1, Discarded;
        }
        return 1, if dst.value then ToSupplicant(i) else ToAuthenticator(i);
      }
      if dst == Some(true) {
        StartPeer(src, anonce);
        BegunFirst(own, old(State()), src, anonce);
        return 1, ToSupplicant(0);
      }
      return 0, Discarded;
    }
  }
}
