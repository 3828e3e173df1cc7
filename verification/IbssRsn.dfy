/** IBSS RSN key choice (ibss_rsn.c): every station runs an authenticator and a supplicant for
    each peer, so each pair runs two 4-way handshakes in opposite directions. Messages can be
    lost, repeated and reordered; message 1, which has no MIC, can be forged. */
module IbssRsn {
  import opened Octets

  type Addr = Bytes

  /** os_memcmp */
  function MemCmp(a: Bytes, b: Bytes): int
  {
    if a == [] || b == [] then |a| - |b|
    else if a[0] != b[0] then a[0] - b[0]
    else MemCmp(a[1..], b[1..])
  }

  lemma {:induction false} MemCmpOrder(a: Bytes, b: Bytes)
    ensures MemCmp(a, b) == -MemCmp(b, a)
    ensures MemCmp(a, b) == 0 <==> a == b
  {
    if a != [] && b != [] {
      MemCmpOrder(a[1..], b[1..]);
      assert a == [a[0]] + a[1..] && b == [b[0]] + b[1..];
    }
  }

  /** A pairwise key: its handshake and the nonces it was derived from. Keys of different
      nonces or directions differ, and a MIC proves possession of the key. */
  datatype Ptk = Ptk(auth: Addr, supp: Addr, anonce: nat, snonce: nat)

  /** EAPOL-Key messages of the 4-way handshake. */
  datatype Msg = M1(from: Addr, to: Addr, anonce: nat) | M2(key: Ptk) | M3(key: Ptk) | M4(key: Ptk)

  function Source(m: Msg): Addr
  {
    match m
    case M1(f, _, _) => f
    case M2(k) => k.supp
    case M3(k) => k.auth
    case M4(k) => k.supp
  }

  function Target(m: Msg): Addr
  {
    match m
    case M1(_, t, _) => t
    case M2(k) => k.auth
    case M3(k) => k.supp
    case M4(k) => k.auth
  }

  /** The Key Ack bit: the message is for the supplicant. */
  predicate Ack(m: Msg)
  {
    m.M1? || m.M3?
  }

  /** struct wpa_sm as far as the handshake needs it. */
  datatype Supp = Supp(anonce: Option<nat>, snonce: nat, renew: bool, tptk: Option<Ptk>, ptk: Option<Ptk>)

  /** PTKSTART, PTKINITNEGOTIATING and PTKINITDONE */
  datatype Phase = Starting | Negotiating | Finished

  datatype Auth = Auth(phase: Phase, anonce: nat, ptk: Option<Ptk>)

  datatype Peer = Peer(addr: Addr, supp: Supp, auth: Auth)

  /** struct ibss_rsn, latest peer first, and the pairwise keys in the driver. */
  datatype Station = Station(peers: seq<Peer>, keys: map<Addr, Ptk>)

  /** All stations, all messages ever sent, and all keys that a supplicant or an authenticator
      has handed over at the end of its handshake, in order. */
  datatype Net = Net(stations: map<Addr, Station>, pool: set<Msg>, suppDone: seq<Ptk>, authDone: seq<Ptk>)

  // ---- Key choice ----

  /** supp_set_key with key index 0 */
  function SuppSetKey(own: Addr, st: Station, peer: Addr, k: Ptk): Station
  {
    if MemCmp(own, peer) > 0 then st else st.(keys := st.keys[peer := k])
  }

  /** auth_set_key with key index 0; without a key the driver's key is removed. */
  function AuthSetKey(own: Addr, st: Station, peer: Addr, k: Option<Ptk>): Station
  {
    if MemCmp(own, peer) < 0 then st
    else if k.None? then st.(keys := st.keys - {peer})
    else st.(keys := st.keys[peer := k.value])
  }

  // ---- Peers ----

  function Find(peers: seq<Peer>, addr: Addr): (i: nat)
    ensures i <= |peers|
    ensures i < |peers| ==> peers[i].addr == addr
    ensures forall j | 0 <= j < i :: peers[j].addr != addr
  {
    if peers == [] || peers[0].addr == addr then 0 else 1 + Find(peers[1..], addr)
  }

  /** The new peer of ibss_rsn_start, with its authenticator waiting for message 2. */
  function NewPeer(addr: Addr, anonce: nat): Peer
  {
    Peer(addr, Supp(None, 0, true, None, None), Auth(Starting, anonce, None))
  }

  /** ibss_rsn_start: initializing the authenticator removes the key it set before. */
  function Begun(own: Addr, st: Station, addr: Addr, anonce: nat): Station
  {
    if Find(st.peers, addr) < |st.peers| then st
    else
      var s := AuthSetKey(own, st, addr, None);
      s.(peers := [NewPeer(addr, anonce)] + st.peers)
  }

  /** ibss_rsn_stop */
  function Stopped(st: Station, addr: Option<Addr>): Station
  {
    match addr
    case None => st.(peers := [])
    case Some(a) =>
      var i := Find(st.peers, a);
      if i == |st.peers| then st else st.(peers := st.peers[..i] + st.peers[i + 1..])
  }

  // ---- Handshake ----

  /** Message 1: wpa_supplicant_process_1_of_4 */
  function SuppRx1(own: Addr, p: Peer, anonce: nat, snonce: nat): Peer
  {
    var sn := if p.supp.renew then snonce else p.supp.snonce;
    p.(supp := p.supp.(snonce := sn, renew := false, tptk := Some(Ptk(p.addr, own, anonce, sn)), anonce := Some(anonce)))
  }

  /** Whether the MIC of message 3 is right, by the temporary key or by the one in use. */
  predicate SuppAccepts(p: Peer, k: Ptk)
  {
    (p.supp.tptk == Some(k) || p.supp.ptk == Some(k)) && p.supp.anonce == Some(k.anonce)
  }

  /** Message 3: the temporary key becomes the key in use, even if the nonce is wrong. */
  function SuppRx3(p: Peer, k: Ptk): Peer
  {
    var q := if p.supp.tptk == Some(k) then p.supp.(ptk := Some(k), tptk := None) else p.supp;
    p.(supp := if SuppAccepts(p, k) then q.(renew := true) else q)
  }

  /** Message 2 in PTKSTART: its MIC shows that the supplicant has the same nonces. */
  predicate AuthAccepts2(p: Peer, k: Ptk)
  {
    p.auth.phase == Starting && p.auth.anonce == k.anonce
  }

  predicate AuthAccepts4(p: Peer, k: Ptk)
  {
    p.auth.phase == Negotiating && p.auth.ptk == Some(k)
  }

  /** What the state machines do with a message for the i-th peer. */
  function Process(net: Net, own: Addr, st: Station, i: nat, m: Msg, snonce: nat): Net
    requires i < |st.peers|
  {
    var p := st.peers[i];
    match m
    case M1(_, _, an) =>
      var q := SuppRx1(own, p, an, snonce);
      net.(stations := net.stations[own := st.(peers := st.peers[i := q])],
           pool := net.pool + {M2(q.supp.tptk.value)})
    case M2(k) =>
      if !AuthAccepts2(p, k) then net.(stations := net.stations[own := st])
      else
        var q := p.(auth := Auth(Negotiating, k.anonce, Some(k)));
        net.(stations := net.stations[own := st.(peers := st.peers[i := q])], pool := net.pool + {M3(k)})
    case M3(k) =>
      var s := st.(peers := st.peers[i := SuppRx3(p, k)]);
      if !SuppAccepts(p, k) then net.(stations := net.stations[own := s])
      else net.(stations := net.stations[own := SuppSetKey(own, s, p.addr, k)],
                pool := net.pool + {M4(k)}, suppDone := net.suppDone + [k])
    case M4(k) =>
      if !AuthAccepts4(p, k) then net.(stations := net.stations[own := st])
      else
        var s := st.(peers := st.peers[i := p.(auth := p.auth.(phase := Finished))]);
        net.(stations := net.stations[own := AuthSetKey(own, s, p.addr, Some(k))], authDone := net.authDone + [k])
  }

  /** ibss_rsn_rx_eapol: a message for a supplicant makes an unknown station a peer. */
  function RxEapol(net: Net, m: Msg, snonce: nat, anonce: nat): Net
    requires Target(m) in net.stations
  {
    var own, st := Target(m), net.stations[Target(m)];
    var i := Find(st.peers, Source(m));
    if i < |st.peers| then Process(net, own, st, i, m, snonce)
    else if Ack(m) then
      Process(net.(pool := net.pool + {M1(own, Source(m), anonce)}), own, Begun(own, st, Source(m), anonce), 0, m, snonce)
    else net
  }

  // ---- Runs ----

  datatype Event =
    | Start(self: Addr, peer: Addr, anonce: nat)
    | Stop(self: Addr, which: Option<Addr>)
    | Again(self: Addr, peer: Addr, anonce: nat)
    | Deliver(m: Msg, snonce: nat, anonce: nat)
    | Forge(from: Addr, to: Addr, anonce: nat)

  /** Again is a timeout, a rekeying or a reauthentication: the authenticator sends message 1
      once more, with its old nonce or with a new one. */
  function Restarted(st: Station, i: nat, anonce: nat): Station
    requires i < |st.peers|
  {
    st.(peers := st.peers[i := st.peers[i].(auth := Auth(Starting, anonce, st.peers[i].auth.ptk))])
  }

  function Step(net: Net, e: Event): Net
  {
    match e
    case Start(s, p, an) =>
      if s !in net.stations || Find(net.stations[s].peers, p) < |net.stations[s].peers| then net
      else net.(stations := net.stations[s := Begun(s, net.stations[s], p, an)], pool := net.pool + {M1(s, p, an)})
    case Stop(s, w) =>
      if s !in net.stations then net else net.(stations := net.stations[s := Stopped(net.stations[s], w)])
    case Again(s, p, an) =>
      if s !in net.stations || Find(net.stations[s].peers, p) == |net.stations[s].peers| then net
      else
        var st := net.stations[s];
        net.(stations := net.stations[s := Restarted(st, Find(st.peers, p), an)], pool := net.pool + {M1(s, p, an)})
    case Deliver(m, snonce, an) =>
      if m !in net.pool || Target(m) !in net.stations then net else RxEapol(net, m, snonce, an)
    case Forge(f, t, an) => net.(pool := net.pool + {M1(f, t, an)})
  }

  function Run(net: Net, es: seq<Event>): Net
  {
    if es == [] then net else Step(Run(net, es[..|es| - 1]), es[|es| - 1])
  }

  /** Stations with no peers and no keys, and nothing sent. */
  ghost predicate Fresh(net: Net)
  {
    && net.pool == {} && net.suppDone == [] && net.authDone == []
    && forall s | s in net.stations :: net.stations[s] == Station([], map[])
  }

  // ---- What every step keeps ----

  predicate PeerOk(own: Addr, p: Peer)
  {
    && (p.supp.tptk.Some? ==> p.supp.tptk.value.auth == p.addr && p.supp.tptk.value.supp == own)
    && (p.supp.ptk.Some? ==> p.supp.ptk.value.auth == p.addr && p.supp.ptk.value.supp == own)
    && (p.auth.ptk.Some? ==> p.auth.ptk.value.auth == own && p.auth.ptk.value.supp == p.addr)
  }

  predicate PeersOk(own: Addr, peers: seq<Peer>)
  {
    && (forall i | 0 <= i < |peers| :: PeerOk(own, peers[i]))
    && (forall i, j | 0 <= i < j < |peers| :: peers[i].addr != peers[j].addr)
  }

  /** A key in the driver: the handshake is the one that the higher address started, and this
      end of it has finished. */
  predicate KeyOk(own: Addr, peer: Addr, k: Ptk, suppDone: seq<Ptk>, authDone: seq<Ptk>)
  {
    || (k.auth == own && k.supp == peer && MemCmp(own, peer) >= 0 && k in authDone)
    || (k.auth == peer && k.supp == own && MemCmp(own, peer) <= 0 && k in suppDone)
  }

  predicate KeysOk(own: Addr, keys: map<Addr, Ptk>, suppDone: seq<Ptk>, authDone: seq<Ptk>)
  {
    forall p | p in keys :: KeyOk(own, p, keys[p], suppDone, authDone)
  }

  predicate StationOk(own: Addr, st: Station, suppDone: seq<Ptk>, authDone: seq<Ptk>)
  {
    PeersOk(own, st.peers) && KeysOk(own, st.keys, suppDone, authDone)
  }

  /** Message 4 follows the supplicant's end, and the authenticator's end follows message 4. */
  predicate Ordered(net: Net)
  {
    && (forall m | m in net.pool && m.M4? :: m.key in net.suppDone)
    && (forall k | k in net.authDone :: k in net.suppDone)
  }

  predicate Inv(net: Net)
  {
    && Ordered(net)
    && forall s | s in net.stations :: StationOk(s, net.stations[s], net.suppDone, net.authDone)
  }

  lemma FreshInv(net: Net)
    requires Fresh(net)
    ensures Inv(net)
  {
  }

  lemma KeysGrow(own: Addr, keys: map<Addr, Ptk>, a: seq<Ptk>, b: seq<Ptk>, a': seq<Ptk>, b': seq<Ptk>)
    requires KeysOk(own, keys, a, b) && a <= a' && b <= b'
    ensures KeysOk(own, keys, a', b')
  {
    hide MemCmp;
  }

  /** Replacing one station while messages and finished handshakes are added. */
  lemma Replace(net: Net, s: Addr, st: Station, next: Net)
    requires Inv(net) && Ordered(next) && next.stations == net.stations[s := st]
    requires net.suppDone <= next.suppDone && net.authDone <= next.authDone
    requires StationOk(s, st, next.suppDone, next.authDone)
    ensures Inv(next)
  {
    hide Ordered, PeersOk, KeysOk;
    forall t | t in next.stations ensures StationOk(t, next.stations[t], next.suppDone, next.authDone) {
      if t != s {
        KeysGrow(t, net.stations[t].keys, net.suppDone, net.authDone, next.suppDone, next.authDone);
      }
    }
  }

  lemma PeersSet(own: Addr, peers: seq<Peer>, i: nat, q: Peer)
    requires PeersOk(own, peers) && i < |peers| && PeerOk(own, q) && q.addr == peers[i].addr
    ensures PeersOk(own, peers[i := q])
  {
    hide PeerOk;
  }

  lemma PeersAdd(own: Addr, peers: seq<Peer>, q: Peer)
    requires PeersOk(own, peers) && PeerOk(own, q) && Find(peers, q.addr) == |peers|
    ensures PeersOk(own, [q] + peers)
  {
    hide PeerOk, Find;
  }

  lemma PeersCut(own: Addr, peers: seq<Peer>, i: nat)
    requires PeersOk(own, peers) && i < |peers|
    ensures PeersOk(own, peers[..i] + peers[i + 1..])
  {
    hide PeerOk;
  }

  lemma AuthSetKeyOk(own: Addr, st: Station, peer: Addr, k: Option<Ptk>, sd: seq<Ptk>, ad: seq<Ptk>)
    requires StationOk(own, st, sd, ad)
    requires k.Some? ==> k.value.auth == own && k.value.supp == peer && k.value in ad
    ensures StationOk(own, AuthSetKey(own, st, peer, k), sd, ad)
  {
    hide MemCmp, PeersOk;
  }

  lemma SuppSetKeyOk(own: Addr, st: Station, peer: Addr, k: Ptk, sd: seq<Ptk>, ad: seq<Ptk>)
    requires StationOk(own, st, sd, ad) && k.auth == peer && k.supp == own && k in sd
    ensures StationOk(own, SuppSetKey(own, st, peer, k), sd, ad)
  {
    hide MemCmp, PeersOk;
  }

  lemma BegunOk(own: Addr, st: Station, addr: Addr, anonce: nat, sd: seq<Ptk>, ad: seq<Ptk>)
    requires StationOk(own, st, sd, ad)
    ensures StationOk(own, Begun(own, st, addr, anonce), sd, ad)
    ensures Find(st.peers, addr) == |st.peers| ==> Find(Begun(own, st, addr, anonce).peers, addr) == 0
  {
    hide PeersOk, KeysOk, AuthSetKey;
    if Find(st.peers, addr) == |st.peers| {
      AuthSetKeyOk(own, st, addr, None, sd, ad);
      AuthSetKeyPeers(own, st, addr, None);
      PeersAdd(own, st.peers, NewPeer(addr, anonce));
    }
  }

  lemma AuthSetKeyPeers(own: Addr, st: Station, peer: Addr, k: Option<Ptk>)
    ensures AuthSetKey(own, st, peer, k).peers == st.peers
  {
  }

  lemma StoppedOk(own: Addr, st: Station, which: Option<Addr>, sd: seq<Ptk>, ad: seq<Ptk>)
    requires StationOk(own, st, sd, ad)
    ensures StationOk(own, Stopped(st, which), sd, ad)
  {
    hide KeysOk, Find;
    if which.Some? && Find(st.peers, which.value) < |st.peers| {
      PeersCut(own, st.peers, Find(st.peers, which.value));
    }
  }

  /** A message for a known peer. */
  lemma ProcessInv(net: Net, own: Addr, st: Station, i: nat, m: Msg, snonce: nat)
    requires Inv(net) && StationOk(own, st, net.suppDone, net.authDone)
    requires i < |st.peers| && m in net.pool && Target(m) == own && Source(m) == st.peers[i].addr
    ensures Inv(Process(net, own, st, i, m, snonce))
  {
    hide KeysOk, PeersOk, Inv, Process;
    match m {
      case M1(_, _, _) => Process1(net, own, st, i, m, snonce);
      case M2(_) => Process2(net, own, st, i, m, snonce);
      case M3(_) => Process3(net, own, st, i, m, snonce);
      case M4(_) => Process4(net, own, st, i, m, snonce);
    }
  }

  lemma PeerAt(own: Addr, peers: seq<Peer>, i: nat)
    requires PeersOk(own, peers) && i < |peers|
    ensures PeerOk(own, peers[i])
  {
  }

  lemma Process1(net: Net, own: Addr, st: Station, i: nat, m: Msg, snonce: nat)
    requires Inv(net) && StationOk(own, st, net.suppDone, net.authDone)
    requires i < |st.peers| && m.M1? && m in net.pool
    ensures Inv(Process(net, own, st, i, m, snonce))
  {
    hide KeysOk, PeersOk, Inv;
    PeerAt(own, st.peers, i);
    var q := SuppRx1(own, st.peers[i], m.anonce, snonce);
    PeersSet(own, st.peers, i, q);
    OrderedOf(net);
    Replace(net, own, st.(peers := st.peers[i := q]), Process(net, own, st, i, m, snonce));
  }

  lemma OrderedOf(net: Net)
    requires Inv(net)
    ensures Ordered(net)
  {
  }

  lemma Process2(net: Net, own: Addr, st: Station, i: nat, m: Msg, snonce: nat)
    requires Inv(net) && StationOk(own, st, net.suppDone, net.authDone)
    requires i < |st.peers| && m.M2? && m in net.pool && Target(m) == own && Source(m) == st.peers[i].addr
    ensures Inv(Process(net, own, st, i, m, snonce))
  {
    hide KeysOk, PeersOk, Inv;
    PeerAt(own, st.peers, i);
    OrderedOf(net);
    var next := Process(net, own, st, i, m, snonce);
    if AuthAccepts2(st.peers[i], m.key) {
      var q := st.peers[i].(auth := Auth(Negotiating, m.key.anonce, Some(m.key)));
      PeersSet(own, st.peers, i, q);
      Replace(net, own, st.(peers := st.peers[i := q]), next);
    } else {
      Replace(net, own, st, next);
    }
  }

  lemma Process3(net: Net, own: Addr, st: Station, i: nat, m: Msg, snonce: nat)
    requires Inv(net) && StationOk(own, st, net.suppDone, net.authDone)
    requires i < |st.peers| && m.M3? && m in net.pool && Target(m) == own && Source(m) == st.peers[i].addr
    ensures Inv(Process(net, own, st, i, m, snonce))
  {
    hide KeysOk, PeersOk, Inv, SuppSetKey;
    PeerAt(own, st.peers, i);
    OrderedOf(net);
    var next, p := Process(net, own, st, i, m, snonce), st.peers[i];
    var s := st.(peers := st.peers[i := SuppRx3(p, m.key)]);
    PeersSet(own, st.peers, i, SuppRx3(p, m.key));
    if SuppAccepts(p, m.key) {
      KeysGrow(own, st.keys, net.suppDone, net.authDone, next.suppDone, next.authDone);
      SuppSetKeyOk(own, s, p.addr, m.key, next.suppDone, next.authDone);
      Replace(net, own, SuppSetKey(own, s, p.addr, m.key), next);
    } else {
      Replace(net, own, s, next);
    }
  }

  lemma Process4(net: Net, own: Addr, st: Station, i: nat, m: Msg, snonce: nat)
    requires Inv(net) && StationOk(own, st, net.suppDone, net.authDone)
    requires i < |st.peers| && m.M4? && m in net.pool && Target(m) == own && Source(m) == st.peers[i].addr
    ensures Inv(Process(net, own, st, i, m, snonce))
  {
    hide KeysOk, PeersOk, Inv, AuthSetKey;
    PeerAt(own, st.peers, i);
    OrderedOf(net);
    var next, p := Process(net, own, st, i, m, snonce), st.peers[i];
    if AuthAccepts4(p, m.key) {
      var q := p.(auth := p.auth.(phase := Finished));
      var s := st.(peers := st.peers[i := q]);
      PeersSet(own, st.peers, i, q);
      KeysGrow(own, st.keys, net.suppDone, net.authDone, next.suppDone, next.authDone);
      AuthSetKeyOk(own, s, p.addr, Some(m.key), next.suppDone, next.authDone);
      Replace(net, own, AuthSetKey(own, s, p.addr, Some(m.key)), next);
    } else {
      Replace(net, own, st, next);
    }
  }

  lemma InvAt(net: Net, s: Addr)
    requires Inv(net) && s in net.stations
    ensures StationOk(s, net.stations[s], net.suppDone, net.authDone)
  {
  }

  lemma MoreM1(net: Net, f: Addr, t: Addr, an: nat)
    requires Inv(net)
    ensures Inv(net.(pool := net.pool + {M1(f, t, an)}))
  {
    hide StationOk;
  }

  lemma RxEapolInv(net: Net, m: Msg, snonce: nat, anonce: nat)
    requires Inv(net) && m in net.pool && Target(m) in net.stations
    ensures Inv(RxEapol(net, m, snonce, anonce))
  {
    hide StationOk, Inv, Process, Begun, Find;
    var own := Target(m);
    var st := net.stations[own];
    InvAt(net, own);
    if Find(st.peers, Source(m)) < |st.peers| {
      ProcessInv(net, own, st, Find(st.peers, Source(m)), m, snonce);
    } else if Ack(m) {
      var more := net.(pool := net.pool + {M1(own, Source(m), anonce)});
      MoreM1(net, own, Source(m), anonce);
      BegunOk(own, st, Source(m), anonce, net.suppDone, net.authDone);
      BegunFirst(own, st, Source(m), anonce);
      ProcessInv(more, own, Begun(own, st, Source(m), anonce), 0, m, snonce);
    }
  }

  lemma BegunFirst(own: Addr, st: Station, addr: Addr, anonce: nat)
    requires Find(st.peers, addr) == |st.peers|
    ensures var b := Begun(own, st, addr, anonce); |b.peers| > 0 && b.peers[0].addr == addr
  {
    hide Find;
  }

  lemma StepInv(net: Net, e: Event)
    requires Inv(net)
    ensures Inv(Step(net, e))
  {
    hide StationOk, Inv, RxEapol, Begun, Find, Stopped, Restarted, Ordered;
    match e {
      case Start(s, p, an) =>
        if s in net.stations && Find(net.stations[s].peers, p) == |net.stations[s].peers| {
          InvAt(net, s);
          BegunOk(s, net.stations[s], p, an, net.suppDone, net.authDone);
          ReplaceOne(net, s, Begun(s, net.stations[s], p, an));
          MoreM1(net.(stations := net.stations[s := Begun(s, net.stations[s], p, an)]), s, p, an);
        }
      case Stop(s, w) =>
        if s in net.stations {
          InvAt(net, s);
          StoppedOk(s, net.stations[s], w, net.suppDone, net.authDone);
          ReplaceOne(net, s, Stopped(net.stations[s], w));
        }
      case Again(s, p, an) =>
        if s in net.stations && Find(net.stations[s].peers, p) < |net.stations[s].peers| {
          var st := net.stations[s];
          InvAt(net, s);
          RestartedOk(s, st, Find(st.peers, p), an, net.suppDone, net.authDone);
          ReplaceOne(net, s, Restarted(st, Find(st.peers, p), an));
          MoreM1(net.(stations := net.stations[s := Restarted(st, Find(st.peers, p), an)]), s, p, an);
        }
      case Deliver(m, snonce, an) =>
        if m in net.pool && Target(m) in net.stations {
          RxEapolInv(net, m, snonce, an);
        }
      case Forge(f, t, an) =>
        MoreM1(net, f, t, an);
    }
  }

  lemma RestartedOk(own: Addr, st: Station, i: nat, an: nat, sd: seq<Ptk>, ad: seq<Ptk>)
    requires StationOk(own, st, sd, ad) && i < |st.peers|
    ensures StationOk(own, Restarted(st, i, an), sd, ad)
  {
    hide KeysOk;
    PeersSet(own, st.peers, i, st.peers[i].(auth := Auth(Starting, an, st.peers[i].auth.ptk)));
  }

  lemma ReplaceOne(net: Net, s: Addr, st: Station)
    requires Inv(net) && StationOk(s, st, net.suppDone, net.authDone)
    ensures Inv(net.(stations := net.stations[s := st]))
  {
    hide StationOk;
  }

  lemma {:induction false} RunInv(net: Net, es: seq<Event>)
    requires Fresh(net)
    ensures Inv(Run(net, es))
  {
    hide Inv, Step, Fresh;
    if es == [] {
      FreshInv(net);
    } else {
      RunInv(net, es[..|es| - 1]);
      StepInv(Run(net, es[..|es| - 1]), es[|es| - 1]);
    }
  }

  // ---- Main results ----

  /** In every run, every pairwise key of two different stations comes from the handshake that
      the higher address initiated; and if the higher end has it, the lower end got the same
      key before. */
  lemma KeysFromHigher(net: Net, es: seq<Event>, s: Addr, p: Addr)
    requires Fresh(net) && s != p
    requires var end := Run(net, es); s in end.stations && p in end.stations[s].keys
    ensures var end := Run(net, es);
      var k := end.stations[s].keys[p];
      && (if MemCmp(s, p) > 0 then k.auth == s && k.supp == p && k in end.authDone
          else k.auth == p && k.supp == s)
      && k in end.suppDone
  {
    hide Run;
    var end := Run(net, es);
    RunInv(net, es);
    MemCmpOrder(s, p);
    InvAt(end, s);
    assert KeyOk(s, p, end.stations[s].keys[p], end.suppDone, end.authDone);
  }

  // ---- The lower end ----

  /** A lower end that has finished a handshake with a higher one holds a key for it. */
  predicate LowerHolds(net: Net)
  {
    forall k | k in net.suppDone && k.supp in net.stations && MemCmp(k.supp, k.auth) < 0 ::
      k.auth in net.stations[k.supp].keys
  }

  /** Keys for higher addresses are not lost. */
  predicate Stays(own: Addr, a: Station, b: Station)
  {
    forall p | p in a.keys && MemCmp(own, p) < 0 :: p in b.keys
  }

  lemma LowerReplace(net: Net, own: Addr, st: Station, next: Net)
    requires LowerHolds(net) && own in net.stations && next.stations == net.stations[own := st]
    requires Stays(own, net.stations[own], st)
    requires forall k | k in next.suppDone && k !in net.suppDone :: k.supp == own && (MemCmp(own, k.auth) < 0 ==> k.auth in st.keys)
    ensures LowerHolds(next)
  {
    hide MemCmp;
  }

  lemma BegunStays(own: Addr, st: Station, addr: Addr, anonce: nat)
    ensures Stays(own, st, Begun(own, st, addr, anonce))
  {
    hide MemCmp, Find;
  }

  lemma ProcessLower(net: Net, own: Addr, st: Station, i: nat, m: Msg, snonce: nat)
    requires LowerHolds(net) && own in net.stations && Stays(own, net.stations[own], st)
    requires i < |st.peers| && Target(m) == own && Source(m) == st.peers[i].addr
    ensures LowerHolds(Process(net, own, st, i, m, snonce))
  {
    hide MemCmp, SuppRx1, SuppRx3, SuppAccepts, AuthAccepts2, AuthAccepts4, LowerHolds;
    var next := Process(net, own, st, i, m, snonce);
    LowerReplace(net, own, next.stations[own], next);
  }

  lemma RxEapolLower(net: Net, m: Msg, snonce: nat, anonce: nat)
    requires LowerHolds(net) && Target(m) in net.stations
    ensures LowerHolds(RxEapol(net, m, snonce, anonce))
  {
    hide MemCmp, Process, Begun, Find, LowerHolds;
    var own, st := Target(m), net.stations[Target(m)];
    if Find(st.peers, Source(m)) < |st.peers| {
      ProcessLower(net, own, st, Find(st.peers, Source(m)), m, snonce);
    } else if Ack(m) {
      var more := net.(pool := net.pool + {M1(own, Source(m), anonce)});
      BegunStays(own, st, Source(m), anonce);
      BegunFirst(own, st, Source(m), anonce);
      LowerReplace(net, own, st, more);
      ProcessLower(more, own, Begun(own, st, Source(m), anonce), 0, m, snonce);
    }
  }

  lemma StepLower(net: Net, e: Event)
    requires LowerHolds(net)
    ensures LowerHolds(Step(net, e))
  {
    hide MemCmp, RxEapol, Begun, Find, LowerHolds;
    var next := Step(net, e);
    match e {
      case Start(s, p, an) =>
        if s in net.stations {
          BegunStays(s, net.stations[s], p, an);
          LowerReplace(net, s, next.stations[s], next);
        }
      case Stop(s, w) =>
        if s in net.stations {
          LowerReplace(net, s, next.stations[s], next);
        }
      case Again(s, p, an) =>
        if s in net.stations {
          LowerReplace(net, s, next.stations[s], next);
        }
      case Deliver(m, snonce, an) =>
        if m in net.pool && Target(m) in net.stations {
          RxEapolLower(net, m, snonce, an);
        }
      case Forge(f, t, an) =>
        LowerSame(net, next);
    }
  }

  lemma LowerSame(net: Net, next: Net)
    requires LowerHolds(net) && next.stations == net.stations && next.suppDone == net.suppDone
    ensures LowerHolds(next)
  {
  }

  lemma {:induction false} RunLower(net: Net, es: seq<Event>)
    requires Fresh(net)
    ensures LowerHolds(Run(net, es))
  {
    hide Step, MemCmp;
    if es != [] {
      RunLower(net, es[..|es| - 1]);
      StepLower(Run(net, es[..|es| - 1]), es[|es| - 1]);
    }
  }

  // ---- The latest keys ----

  /** The latest finished handshake of one direction. */
  function LastOf(done: seq<Ptk>, auth: Addr, supp: Addr): (k: Option<Ptk>)
    ensures k.Some? ==> k.value in done && k.value.auth == auth && k.value.supp == supp
  {
    if done == [] then None
    else
      var k := done[|done| - 1];
      if k.auth == auth && k.supp == supp then Some(k) else LastOf(done[..|done| - 1], auth, supp)
  }

  lemma LastOfSnoc(done: seq<Ptk>, k: Ptk, auth: Addr, supp: Addr)
    ensures LastOf(done + [k], auth, supp) ==
      if k.auth == auth && k.supp == supp then Some(k) else LastOf(done, auth, supp)
  {
    assert (done + [k])[..|done|] == done;
  }

  /** Keys for higher addresses are the latest that the supplicant finished, keys for lower
      ones the latest that the authenticator finished. */
  predicate StationLatest(own: Addr, keys: map<Addr, Ptk>, sd: seq<Ptk>, ad: seq<Ptk>)
  {
    forall p | p in keys ::
      && (MemCmp(own, p) < 0 ==> LastOf(sd, p, own) == Some(keys[p]))
      && (MemCmp(own, p) > 0 ==> LastOf(ad, own, p) == Some(keys[p]))
  }

  predicate Latest(net: Net)
  {
    forall s | s in net.stations :: StationLatest(s, net.stations[s].keys, net.suppDone, net.authDone)
  }

  lemma LatestReplace(net: Net, own: Addr, st: Station, next: Net)
    requires Latest(net) && next.stations == net.stations[own := st]
    requires StationLatest(own, st.keys, next.suppDone, next.authDone)
    requires next.suppDone == net.suppDone || exists k: Ptk | k.supp == own :: next.suppDone == net.suppDone + [k]
    requires next.authDone == net.authDone || exists k: Ptk | k.auth == own :: next.authDone == net.authDone + [k]
    ensures Latest(next)
  {
    hide MemCmp, LastOf;
    forall t | t in next.stations && t != own
      ensures StationLatest(t, next.stations[t].keys, next.suppDone, next.authDone)
    {
      var keys := net.stations[t].keys;
      forall p | p in keys
        ensures LastOf(next.suppDone, p, t) == LastOf(net.suppDone, p, t)
        ensures LastOf(next.authDone, t, p) == LastOf(net.authDone, t, p)
      {
        if next.suppDone != net.suppDone {
          var k: Ptk :| k.supp == own && next.suppDone == net.suppDone + [k];
          LastOfSnoc(net.suppDone, k, p, t);
        }
        if next.authDone != net.authDone {
          var k: Ptk :| k.auth == own && next.authDone == net.authDone + [k];
          LastOfSnoc(net.authDone, k, t, p);
        }
      }
    }
  }

  lemma SuppSetLatest(own: Addr, st: Station, k: Ptk, sd: seq<Ptk>, ad: seq<Ptk>)
    requires StationLatest(own, st.keys, sd, ad) && k.supp == own
    ensures StationLatest(own, SuppSetKey(own, st, k.auth, k).keys, sd + [k], ad)
  {
    hide MemCmp, LastOf;
    MemCmpOrder(own, k.auth);
    forall p | p in st.keys || p == k.auth
      ensures LastOf(sd + [k], p, own) == if p == k.auth then Some(k) else LastOf(sd, p, own)
    {
      LastOfSnoc(sd, k, p, own);
    }
  }

  lemma AuthSetLatest(own: Addr, st: Station, k: Ptk, sd: seq<Ptk>, ad: seq<Ptk>)
    requires StationLatest(own, st.keys, sd, ad) && k.auth == own
    ensures StationLatest(own, AuthSetKey(own, st, k.supp, Some(k)).keys, sd, ad + [k])
  {
    hide MemCmp, LastOf;
    MemCmpOrder(own, k.supp);
    forall p | p in st.keys || p == k.supp
      ensures LastOf(ad + [k], own, p) == if p == k.supp then Some(k) else LastOf(ad, own, p)
    {
      LastOfSnoc(ad, k, own, p);
    }
  }

  lemma BegunLatest(own: Addr, st: Station, addr: Addr, anonce: nat, sd: seq<Ptk>, ad: seq<Ptk>)
    requires StationLatest(own, st.keys, sd, ad)
    ensures StationLatest(own, Begun(own, st, addr, anonce).keys, sd, ad)
  {
    hide MemCmp, LastOf, Find;
  }

  lemma ProcessLatest(net: Net, own: Addr, st: Station, i: nat, m: Msg, snonce: nat)
    requires Latest(net) && StationLatest(own, st.keys, net.suppDone, net.authDone)
    requires i < |st.peers| && Target(m) == own && Source(m) == st.peers[i].addr
    ensures Latest(Process(net, own, st, i, m, snonce))
  {
    hide MemCmp, SuppRx1, SuppRx3, SuppAccepts, AuthAccepts2, AuthAccepts4, Latest, StationLatest, LastOf;
    var next := Process(net, own, st, i, m, snonce);
    var p := st.peers[i];
    if m.M3? && SuppAccepts(p, m.key) {
      SuppSetLatest(own, st.(peers := st.peers[i := SuppRx3(p, m.key)]), m.key, net.suppDone, net.authDone);
    } else if m.M4? && AuthAccepts4(p, m.key) {
      AuthSetLatest(own, st.(peers := next.stations[own].peers), m.key, net.suppDone, net.authDone);
    }
    LatestReplace(net, own, next.stations[own], next);
  }

  lemma LatestAt(net: Net, s: Addr)
    requires Latest(net) && s in net.stations
    ensures StationLatest(s, net.stations[s].keys, net.suppDone, net.authDone)
  {
  }

  lemma LatestSame(net: Net, next: Net)
    requires Latest(net) && next.stations == net.stations
    requires next.suppDone == net.suppDone && next.authDone == net.authDone
    ensures Latest(next)
  {
    hide StationLatest;
  }

  lemma RxEapolLatest(net: Net, m: Msg, snonce: nat, anonce: nat)
    requires Latest(net) && Target(m) in net.stations
    ensures Latest(RxEapol(net, m, snonce, anonce))
  {
    hide MemCmp, Process, Begun, Find, Latest, StationLatest;
    var own, st := Target(m), net.stations[Target(m)];
    LatestAt(net, own);
    if Find(st.peers, Source(m)) < |st.peers| {
      ProcessLatest(net, own, st, Find(st.peers, Source(m)), m, snonce);
    } else if Ack(m) {
      var more := net.(pool := net.pool + {M1(own, Source(m), anonce)});
      BegunLatest(own, st, Source(m), anonce, net.suppDone, net.authDone);
      BegunFirst(own, st, Source(m), anonce);
      LatestSame(net, more);
      ProcessLatest(more, own, Begun(own, st, Source(m), anonce), 0, m, snonce);
    }
  }

  lemma StepLatest(net: Net, e: Event)
    requires Latest(net)
    ensures Latest(Step(net, e))
  {
    hide MemCmp, RxEapol, Begun, Find, Latest, StationLatest;
    var next := Step(net, e);
    match e {
      case Start(s, p, an) =>
        if s in net.stations {
          LatestAt(net, s);
          BegunLatest(s, net.stations[s], p, an, net.suppDone, net.authDone);
          LatestReplace(net, s, next.stations[s], next);
        }
      case Stop(s, w) =>
        if s in net.stations {
          LatestAt(net, s);
          LatestReplace(net, s, next.stations[s], next);
        }
      case Again(s, p, an) =>
        if s in net.stations {
          LatestAt(net, s);
          LatestReplace(net, s, next.stations[s], next);
        }
      case Deliver(m, snonce, an) =>
        if m in net.pool && Target(m) in net.stations {
          RxEapolLatest(net, m, snonce, an);
        }
      case Forge(f, t, an) =>
        LatestSame(net, next);
    }
  }

  lemma {:induction false} RunLatest(net: Net, es: seq<Event>)
    requires Fresh(net)
    ensures Latest(Run(net, es))
  {
    hide Step, MemCmp, LastOf;
    if es != [] {
      RunLatest(net, es[..|es| - 1]);
      StepLatest(Run(net, es[..|es| - 1]), es[|es| - 1]);
    }
  }

  /** If the higher end holds a key, so does the lower end, from a handshake in the same
      direction. Each holds the latest that it has finished, so they hold the same key exactly
      when those are the same. */
  lemma EndsAgree(net: Net, es: seq<Event>, hi: Addr, lo: Addr)
    requires Fresh(net) && MemCmp(hi, lo) > 0
    requires var end := Run(net, es); hi in end.stations && lo in end.stations && lo in end.stations[hi].keys
    ensures var end := Run(net, es);
      && hi in end.stations[lo].keys
      && var k, l := end.stations[hi].keys[lo], end.stations[lo].keys[hi];
      && k.auth == l.auth == hi && k.supp == l.supp == lo
      && k in end.suppDone
      && LastOf(end.authDone, hi, lo) == Some(k) && LastOf(end.suppDone, hi, lo) == Some(l)
      && (k == l <==> LastOf(end.authDone, hi, lo) == LastOf(end.suppDone, hi, lo))
  {
    hide Run, MemCmp, LastOf;
    MemCmpOrder(hi, lo);
    KeysFromHigher(net, es, hi, lo);
    RunLower(net, es);
    KeysFromHigher(net, es, lo, hi);
    RunLatest(net, es);
    var end := Run(net, es);
    LatestAt(end, hi);
    LatestAt(end, lo);
  }

  /** No two finished handshakes of one direction between two stations. */
  predicate OnlyOne(done: seq<Ptk>, auth: Addr, supp: Addr)
  {
    forall x, y | x in done && y in done && x.auth == y.auth == auth && x.supp == y.supp == supp :: x == y
  }

  /** In particular if the lower end has finished one handshake with the higher one. */
  lemma FirstKeyAgrees(net: Net, es: seq<Event>, hi: Addr, lo: Addr)
    requires Fresh(net) && MemCmp(hi, lo) > 0
    requires var end := Run(net, es); hi in end.stations && lo in end.stations && lo in end.stations[hi].keys
    requires OnlyOne(Run(net, es).suppDone, hi, lo)
    ensures var end := Run(net, es);
      hi in end.stations[lo].keys && end.stations[lo].keys[hi] == end.stations[hi].keys[lo]
  {
    hide Run, MemCmp, LastOf;
    EndsAgree(net, es, hi, lo);
  }

  /** A key of this message may be used: its handshake was initiated by the higher address. */
  predicate Chosen(m: Msg)
  {
    (m.M3? || m.M4?) && MemCmp(m.key.auth, m.key.supp) >= 0
  }

  lemma ProcessKeys(net: Net, own: Addr, st: Station, i: nat, m: Msg, snonce: nat)
    requires i < |st.peers| && Target(m) == own && Source(m) == st.peers[i].addr
    ensures var next := Process(net, own, st, i, m, snonce);
      && next.stations.Keys == net.stations.Keys + {own}
      && (forall t | t in net.stations && t != own :: next.stations[t] == net.stations[t])
      && (next.stations[own].keys == st.keys
          || (Chosen(m) && next.stations[own].keys == st.keys[Source(m) := m.key]))
  {
    hide MemCmp, SuppRx1, SuppRx3, SuppAccepts, AuthAccepts2, AuthAccepts4;
    if m.M3? || m.M4? {
      MemCmpOrder(m.key.auth, m.key.supp);
    }
  }

  /** The handshake in the opposite direction installs nothing: with messages 3 and 4 of a
      handshake that the lower address initiated no station gets a key it did not have.
      (Message 3 from an unknown station starts an authenticator, which removes an old key.) */
  lemma OppositeInstallsNothing(net: Net, k: Ptk, last: bool, snonce: nat, anonce: nat)
    requires MemCmp(k.auth, k.supp) < 0
    ensures var m := if last then M4(k) else M3(k);
      var next := Step(net, Deliver(m, snonce, anonce));
      && next.stations.Keys == net.stations.Keys
      && forall s | s in net.stations :: next.stations[s].keys.Keys <= net.stations[s].keys.Keys
           && forall p | p in next.stations[s].keys :: next.stations[s].keys[p] == net.stations[s].keys[p]
  {
    hide MemCmp, Process, Find;
    var m := if last then M4(k) else M3(k);
    if m in net.pool && Target(m) in net.stations {
      var own, st := Target(m), net.stations[Target(m)];
      if Find(st.peers, Source(m)) < |st.peers| {
        ProcessKeys(net, own, st, Find(st.peers, Source(m)), m, snonce);
      } else if Ack(m) {
        BegunFirst(own, st, Source(m), anonce);
        ProcessKeys(net.(pool := net.pool + {M1(own, Source(m), anonce)}), own, Begun(own, st, Source(m), anonce), 0, m, snonce);
      }
    }
  }

  /** At a peer that is already known, not even a removal. */
  lemma OppositeChangesNothing(net: Net, k: Ptk, last: bool, snonce: nat, anonce: nat)
    requires MemCmp(k.auth, k.supp) < 0
    requires var m := if last then M4(k) else M3(k);
      Target(m) in net.stations ==> Find(net.stations[Target(m)].peers, Source(m)) < |net.stations[Target(m)].peers|
    ensures var m := if last then M4(k) else M3(k);
      var next := Step(net, Deliver(m, snonce, anonce));
      next.stations.Keys == net.stations.Keys && forall s | s in net.stations :: next.stations[s].keys == net.stations[s].keys
  {
    hide MemCmp, Process, Find;
    var m := if last then M4(k) else M3(k);
    if m in net.pool && Target(m) in net.stations {
      var own, st := Target(m), net.stations[Target(m)];
      ProcessKeys(net, own, st, Find(st.peers, Source(m)), m, snonce);
    }
  }

  /** The last message of a handshake that the higher address initiated puts its key into the
      driver there; the lower end has used it with message 3. */
  lemma LastMessageInstalls(net: Net, k: Ptk, snonce: nat, anonce: nat)
    requires Inv(net) && M4(k) in net.pool && k.auth in net.stations && MemCmp(k.auth, k.supp) > 0
    requires var ps := net.stations[k.auth].peers;
      Find(ps, k.supp) < |ps| && AuthAccepts4(ps[Find(ps, k.supp)], k)
    ensures var next := Step(net, Deliver(M4(k), snonce, anonce));
      k.supp in next.stations[k.auth].keys && next.stations[k.auth].keys[k.supp] == k && k in next.suppDone
  {
    hide MemCmp, Find, StationOk;
  }

  /** Message 3 puts the key into the driver of the lower address. */
  lemma ThirdMessageInstalls(net: Net, k: Ptk, snonce: nat, anonce: nat)
    requires Inv(net) && M3(k) in net.pool && k.supp in net.stations && MemCmp(k.auth, k.supp) > 0
    requires var ps := net.stations[k.supp].peers;
      Find(ps, k.auth) < |ps| && SuppAccepts(ps[Find(ps, k.auth)], k)
    ensures var next := Step(net, Deliver(M3(k), snonce, anonce));
      && k.auth in next.stations[k.supp].keys && next.stations[k.supp].keys[k.auth] == k
      && M4(k) in next.pool
  {
    hide MemCmp, Find, StationOk, SuppRx3;
    MemCmpOrder(k.auth, k.supp);
  }

  // ---- A whole handshake ----

  /** Two stations, each with at most one peer record, for the other. */
  ghost predicate Pair(net: Net, hi: Addr, lo: Addr, p: Option<Peer>, q: Option<Peer>)
  {
    && hi in net.stations && lo in net.stations
    && net.stations[hi].peers == (if p.Some? then [p.value] else [])
    && net.stations[lo].peers == (if q.Some? then [q.value] else [])
    && (p.Some? ==> p.value.addr == lo) && (q.Some? ==> q.value.addr == hi)
  }

  lemma Opening(net: Net, hi: Addr, lo: Addr, an: nat)
    requires Pair(net, hi, lo, None, None) && hi != lo
    ensures var next := Step(net, Start(hi, lo, an));
      Pair(next, hi, lo, Some(NewPeer(lo, an)), None) && M1(hi, lo, an) in next.pool
  {
    hide MemCmp;
  }

  lemma Second(net: Net, hi: Addr, lo: Addr, an: nat, sn: nat, other: nat, p: Peer)
    requires Pair(net, hi, lo, Some(p), None) && hi != lo && M1(hi, lo, an) in net.pool
    ensures var next := Step(net, Deliver(M1(hi, lo, an), sn, other));
      var k := Ptk(hi, lo, an, sn);
      exists q :: Pair(next, hi, lo, Some(p), Some(q)) && M2(k) in next.pool && SuppAccepts(q, k)
  {
    hide MemCmp;
    var next := Step(net, Deliver(M1(hi, lo, an), sn, other));
    var q := SuppRx1(lo, NewPeer(hi, other), an, sn);
    var st := Begun(lo, net.stations[lo], hi, other);
    assert st.peers == [NewPeer(hi, other)];
    assert next.stations[lo].peers == [q];
    assert Pair(next, hi, lo, Some(p), Some(q));
  }

  lemma Third(net: Net, hi: Addr, lo: Addr, k: Ptk, p: Peer, q: Peer)
    requires Pair(net, hi, lo, Some(p), Some(q)) && hi != lo && k.auth == hi && k.supp == lo
    requires M2(k) in net.pool && AuthAccepts2(p, k)
    ensures var next := Step(net, Deliver(M2(k), 0, 0));
      exists p2 :: Pair(next, hi, lo, Some(p2), Some(q)) && M3(k) in next.pool && AuthAccepts4(p2, k)
  {
    hide MemCmp;
    var next := Step(net, Deliver(M2(k), 0, 0));
    var p2 := p.(auth := Auth(Negotiating, k.anonce, Some(k)));
    assert next.stations[hi].peers == [p2];
    assert Pair(next, hi, lo, Some(p2), Some(q));
  }

  lemma Fourth(net: Net, hi: Addr, lo: Addr, k: Ptk, p: Peer, q: Peer)
    requires Pair(net, hi, lo, Some(p), Some(q)) && hi != lo && k.auth == hi && k.supp == lo && MemCmp(lo, hi) <= 0
    requires M3(k) in net.pool && SuppAccepts(q, k)
    ensures var next := Step(net, Deliver(M3(k), 0, 0));
      && (exists q2 :: Pair(next, hi, lo, Some(p), Some(q2)) && q2.supp.renew) && M4(k) in next.pool
      && hi in next.stations[lo].keys && next.stations[lo].keys[hi] == k
      && next.stations[hi] == net.stations[hi]
  {
    hide MemCmp;
    var next := Step(net, Deliver(M3(k), 0, 0));
    assert next.stations[lo].peers == [SuppRx3(q, k)];
    assert Pair(next, hi, lo, Some(p), Some(SuppRx3(q, k)));
  }

  lemma Closing(net: Net, hi: Addr, lo: Addr, k: Ptk, p: Peer, q: Peer)
    requires Pair(net, hi, lo, Some(p), Some(q)) && hi != lo && k.auth == hi && k.supp == lo && MemCmp(hi, lo) >= 0
    requires M4(k) in net.pool && AuthAccepts4(p, k)
    ensures var next := Step(net, Deliver(M4(k), 0, 0));
      && (exists p2 :: Pair(next, hi, lo, Some(p2), Some(q)))
      && next.stations[lo] == net.stations[lo]
      && lo in next.stations[hi].keys && next.stations[hi].keys[lo] == k
  {
    hide MemCmp;
    var next := Step(net, Deliver(M4(k), 0, 0));
    var p2 := p.(auth := p.auth.(phase := Finished));
    assert next.stations[hi].peers == [p2];
    assert Pair(next, hi, lo, Some(p2), Some(q));
  }

  /** The events of one whole handshake. */
  function Handshake(k: Ptk, other: nat): seq<Event>
  {
    [Start(k.auth, k.supp, k.anonce), Deliver(M1(k.auth, k.supp, k.anonce), k.snonce, other),
     Deliver(M2(k), 0, 0), Deliver(M3(k), 0, 0), Deliver(M4(k), 0, 0)]
  }

  /** Both ends are peers, the supplicant is ready for a new handshake, and both hold keys. */
  ghost predicate Holding(net: Net, hi: Addr, lo: Addr, k: Ptk, l: Ptk)
  {
    && (exists p, q :: Pair(net, hi, lo, Some(p), Some(q)) && q.supp.renew)
    && hi in net.stations && lo in net.stations
    && lo in net.stations[hi].keys && net.stations[hi].keys[lo] == k
    && hi in net.stations[lo].keys && net.stations[lo].keys[hi] == l
  }

  /** When no message is lost, both ends hold the key of the handshake of the higher address
      after its four messages, whatever nonces they choose. */
  lemma HandshakeCompletes(net: Net, hi: Addr, lo: Addr, an: nat, sn: nat, other: nat)
    requires Fresh(net) && hi in net.stations && lo in net.stations && MemCmp(hi, lo) > 0
    ensures var k := Ptk(hi, lo, an, sn);
      Holding(Run(net, Handshake(k, other)), hi, lo, k, k)
  {
    hide MemCmp, Step, Pair, SuppAccepts, AuthAccepts2, AuthAccepts4;
    MemCmpOrder(hi, lo);
    var k := Ptk(hi, lo, an, sn);
    var es := Handshake(k, other);
    RunFive(net, es);
    var s1 := Step(net, es[0]);
    FreshPair(net, hi, lo);
    Opening(net, hi, lo, an);
    var s2 := Step(s1, es[1]);
    var p := NewPeer(lo, an);
    Second(s1, hi, lo, an, sn, other, p);
    var q :| Pair(s2, hi, lo, Some(p), Some(q)) && M2(k) in s2.pool && SuppAccepts(q, k);
    var s3 := Step(s2, es[2]);
    NewAccepts(lo, k);
    Third(s2, hi, lo, k, p, q);
    var p2 :| Pair(s3, hi, lo, Some(p2), Some(q)) && M3(k) in s3.pool && AuthAccepts4(p2, k);
    var s4 := Step(s3, es[3]);
    Fourth(s3, hi, lo, k, p2, q);
    var q2 :| Pair(s4, hi, lo, Some(p2), Some(q2)) && q2.supp.renew;
    Closing(s4, hi, lo, k, p2, q2);
    var s5 := Step(s4, es[4]);
    var p3 :| Pair(s5, hi, lo, Some(p3), Some(q2));
    PairIn(s5, hi, lo, Some(p3), Some(q2));
  }

  lemma PairIn(net: Net, hi: Addr, lo: Addr, p: Option<Peer>, q: Option<Peer>)
    requires Pair(net, hi, lo, p, q)
    ensures hi in net.stations && lo in net.stations
  {
  }

  lemma Reopening(net: Net, hi: Addr, lo: Addr, an: nat, p: Peer, q: Peer)
    requires Pair(net, hi, lo, Some(p), Some(q)) && hi != lo
    ensures var next := Step(net, Again(hi, lo, an));
      && (exists p2 :: Pair(next, hi, lo, Some(p2), Some(q)) && p2.auth.phase == Starting && p2.auth.anonce == an)
      && M1(hi, lo, an) in next.pool && next.stations[lo] == net.stations[lo]
      && next.stations[hi].keys == net.stations[hi].keys
  {
    var next := Step(net, Again(hi, lo, an));
    var p2 := p.(auth := Auth(Starting, an, p.auth.ptk));
    assert next.stations[hi].peers == [p2];
    assert Pair(next, hi, lo, Some(p2), Some(q));
  }

  lemma SecondAgain(net: Net, hi: Addr, lo: Addr, an: nat, sn: nat, p: Peer, q: Peer)
    requires Pair(net, hi, lo, Some(p), Some(q)) && hi != lo && M1(hi, lo, an) in net.pool && q.supp.renew
    ensures var next := Step(net, Deliver(M1(hi, lo, an), sn, 0));
      var k := Ptk(hi, lo, an, sn);
      && (exists q2 :: Pair(next, hi, lo, Some(p), Some(q2)) && SuppAccepts(q2, k))
      && M2(k) in next.pool && next.stations[hi] == net.stations[hi]
  {
    hide MemCmp;
    var next := Step(net, Deliver(M1(hi, lo, an), sn, 0));
    var q2 := SuppRx1(lo, q, an, sn);
    assert next.stations[lo].peers == [q2];
    assert Pair(next, hi, lo, Some(p), Some(q2));
  }

  lemma ThirdKeeps(net: Net, hi: Addr, lo: Addr, k: Ptk, p: Peer, q: Peer)
    requires Pair(net, hi, lo, Some(p), Some(q)) && hi != lo && k.auth == hi && k.supp == lo
    ensures Step(net, Deliver(M2(k), 0, 0)).stations[hi].keys == net.stations[hi].keys
  {
    hide MemCmp;
  }

  /** The first three messages of a new handshake. */
  function Rekeying(k: Ptk): seq<Event>
  {
    [Again(k.auth, k.supp, k.anonce), Deliver(M1(k.auth, k.supp, k.anonce), k.snonce, 0),
     Deliver(M2(k), 0, 0), Deliver(M3(k), 0, 0)]
  }

  /** A rekeying whose last message is lost leaves the new key with the lower end and the old
      one with the higher end. */
  lemma LostMessageSplits(net: Net, hi: Addr, lo: Addr, k: Ptk, l: Ptk, n: Ptk)
    requires Holding(net, hi, lo, k, l) && MemCmp(hi, lo) > 0 && n.auth == hi && n.supp == lo
    ensures Holding(Run(net, Rekeying(n)), hi, lo, k, n)
  {
    hide MemCmp, Step, Pair, SuppAccepts, AuthAccepts4;
    MemCmpOrder(hi, lo);
    var es := Rekeying(n);
    RunFour(net, es);
    var p, q :| Pair(net, hi, lo, Some(p), Some(q)) && q.supp.renew;
    PairIn(net, hi, lo, Some(p), Some(q));
    var s1 := Step(net, es[0]);
    Reopening(net, hi, lo, n.anonce, p, q);
    var p1 :| Pair(s1, hi, lo, Some(p1), Some(q)) && p1.auth.phase == Starting && p1.auth.anonce == n.anonce;
    var s2 := Step(s1, es[1]);
    SecondAgain(s1, hi, lo, n.anonce, n.snonce, p1, q);
    var q2 :| Pair(s2, hi, lo, Some(p1), Some(q2)) && SuppAccepts(q2, n);
    var s3 := Step(s2, es[2]);
    Third(s2, hi, lo, n, p1, q2);
    ThirdKeeps(s2, hi, lo, n, p1, q2);
    var p3 :| Pair(s3, hi, lo, Some(p3), Some(q2)) && M3(n) in s3.pool && AuthAccepts4(p3, n);
    Fourth(s3, hi, lo, n, p3, q2);
    var s4 := Step(s3, es[3]);
    var q4 :| Pair(s4, hi, lo, Some(p3), Some(q4)) && q4.supp.renew;
    PairIn(s4, hi, lo, Some(p3), Some(q4));
  }

  /** A run after which the two ends hold different keys. */
  lemma EndsMayDiffer(net: Net, hi: Addr, lo: Addr)
    requires Fresh(net) && hi in net.stations && lo in net.stations && MemCmp(hi, lo) > 0
    ensures var k, n := Ptk(hi, lo, 1, 2), Ptk(hi, lo, 3, 4);
      Holding(Run(net, Handshake(k, 5) + Rekeying(n)), hi, lo, k, n)
  {
    hide MemCmp, Step, Holding;
    var k, n := Ptk(hi, lo, 1, 2), Ptk(hi, lo, 3, 4);
    HandshakeCompletes(net, hi, lo, 1, 2, 5);
    LostMessageSplits(Run(net, Handshake(k, 5)), hi, lo, k, k, n);
    RunJoin(net, Handshake(k, 5), Rekeying(n));
  }

  lemma {:induction false} RunJoin(net: Net, a: seq<Event>, b: seq<Event>)
    ensures Run(net, a + b) == Run(Run(net, a), b)
  {
    hide Step;
    if b == [] {
      assert a + b == a;
    } else {
      RunJoin(net, a, b[..|b| - 1]);
      assert (a + b)[..|a + b| - 1] == a + b[..|b| - 1];
    }
  }

  lemma RunFour(net: Net, es: seq<Event>)
    requires |es| == 4
    ensures Run(net, es) == Step(Step(Step(Step(net, es[0]), es[1]), es[2]), es[3])
  {
    hide Step;
    assert es[..4] == es && es[..4][..3] == es[..3];
    assert es[..3][..2] == es[..2] && es[..2][..1] == es[..1] && es[..1][..0] == [];
    assert Run(net, es[..1]) == Step(net, es[0]);
    assert Run(net, es[..2]) == Step(Run(net, es[..1]), es[1]);
    assert Run(net, es[..3]) == Step(Run(net, es[..2]), es[2]);
  }

  lemma FreshPair(net: Net, hi: Addr, lo: Addr)
    requires Fresh(net) && hi in net.stations && lo in net.stations
    ensures Pair(net, hi, lo, None, None)
  {
  }

  lemma NewAccepts(lo: Addr, k: Ptk)
    ensures AuthAccepts2(NewPeer(lo, k.anonce), k)
  {
  }

  lemma RunFive(net: Net, es: seq<Event>)
    requires |es| == 5
    ensures Run(net, es) == Step(Step(Step(Step(Step(net, es[0]), es[1]), es[2]), es[3]), es[4])
  {
    hide Step;
    assert es[..5] == es && es[..5][..4] == es[..4] && es[..4][..3] == es[..3];
    assert es[..3][..2] == es[..2] && es[..2][..1] == es[..1] && es[..1][..0] == [];
    assert Run(net, es[..1]) == Step(net, es[0]);
    assert Run(net, es[..2]) == Step(Run(net, es[..1]), es[1]);
    assert Run(net, es[..3]) == Step(Run(net, es[..2]), es[2]);
    assert Run(net, es[..4]) == Step(Run(net, es[..3]), es[3]);
  }

  // ---- EAPOL-Key frames ----

  const EAPOL_HEADER: nat := 4
  const EAPOL_KEY: nat := 95
  const TYPE_EAPOL_KEY: byte := 3
  const KEY_TYPE_RSN: byte := 2

  /** ibss_rsn_eapol_dst_supp: None for a frame that is discarded, else whether the Key Ack
      bit is set and the frame is for the supplicant. */
  function DstSupp(b: Bytes): Option<bool>
  {
    if |b| < EAPOL_HEADER + EAPOL_KEY then None
    else
      var plen := 256 * (b[2] as nat) + b[3] as nat;
      if b[1] != TYPE_EAPOL_KEY || plen > |b| - EAPOL_HEADER || plen < EAPOL_KEY || b[4] != KEY_TYPE_RSN then None
      else Some(b[6] / 128 == 1)
  }

  /** A 16-bit big-endian field. */
  function PutBe16(v: nat): (b: Bytes)
    requires v < 0x1_0000
    ensures |b| == 2
  {
    [v / 256, v % 256]
  }

  /** Layout of an EAPOL-Key frame: IEEE 802.1X header, descriptor type, key information, and
      the rest of the descriptor with its key data. */
  function KeyFrame(version: byte, info: nat, body: Bytes): Bytes
    requires info < 0x1_0000 && |body| < 0xfffd
  {
    [version, TYPE_EAPOL_KEY] + PutBe16(3 + |body|) + [KEY_TYPE_RSN] + PutBe16(info) + body
  }

  /** The rest of the descriptor is whole, and the length field can hold it. */
  predicate WholeBody(body: Bytes)
  {
    EAPOL_KEY - 3 <= |body| < 0xfffd
  }

  /** Key information of the four messages: pairwise with HMAC-SHA1 and AES, and the bits Key
      Ack (1 and 3), Key MIC (2, 3 and 4), Install and Encrypted Key Data (3), Secure (3 and
      4). */
  function KeyInfo(m: Msg): (info: nat)
    ensures info < 0x1_0000
  {
    match m
    case M1(_, _, _) => 0x008a
    case M2(_) => 0x010a
    case M3(_) => 0x13ca
    case M4(_) => 0x030a
  }

  /** Frames of the layout, and no others, are passed on: to the supplicant exactly if bit 7 of
      the key information is set. Octets behind the frame are ignored. */
  lemma FramesRouted(version: byte, info: nat, body: Bytes, extra: Bytes)
    requires info < 0x1_0000 && WholeBody(body)
    ensures DstSupp(KeyFrame(version, info, body) + extra) == Some((info / 128) % 2 == 1)
  {
    var b := KeyFrame(version, info, body) + extra;
    assert b[0] == version && b[1] == TYPE_EAPOL_KEY && b[4] == KEY_TYPE_RSN;
    assert b[2] == (3 + |body|) / 256 && b[3] == (3 + |body|) % 256;
    assert b[6] == info % 256;
    Bit7(info);
  }

  lemma Bit7(info: nat)
    ensures (info % 256) / 128 == (info / 128) % 2
  {
  }

  /** Octets that are a frame of the layout, with octets behind it. */
  predicate IsKeyFrame(b: Bytes, version: byte, info: nat, body: Bytes, extra: Bytes)
  {
    info < 0x1_0000 && WholeBody(body) && b == KeyFrame(version, info, body) + extra
  }

  /** Exactly the other octets are discarded: too short, of another type, of a wrong length or
      with another descriptor. */
  lemma RoutedIff(b: Bytes)
    ensures DstSupp(b).Some? <==> exists version, info, body, extra :: IsKeyFrame(b, version, info, body, extra)
    ensures DstSupp(b).None? <==>
      || |b| < 99 || b[1] != 3 || b[4] != 2
      || 256 * (b[2] as nat) + b[3] as nat < 95 || 256 * (b[2] as nat) + b[3] as nat > |b| - 4
  {
    if DstSupp(b).Some? {
      var n, info := 256 * (b[2] as nat) + b[3] as nat, 256 * (b[5] as nat) + b[6] as nat;
      LaidOut(b, n, info);
      assert IsKeyFrame(b, b[0], info, b[7..4 + n], b[4 + n..]);
    }
    forall version, info, body, extra | IsKeyFrame(b, version, info, body, extra) ensures DstSupp(b).Some? {
      FramesRouted(version, info, body, extra);
    }
  }

  lemma LaidOut(b: Bytes, n: nat, info: nat)
    requires |b| >= 99 && b[1] == TYPE_EAPOL_KEY && b[4] == KEY_TYPE_RSN
    requires n == 256 * (b[2] as nat) + b[3] as nat && 95 <= n <= |b| - 4
    requires info == 256 * (b[5] as nat) + b[6] as nat
    ensures b == KeyFrame(b[0], info, b[7..4 + n]) + b[4 + n..]
  {
    assert PutBe16(n) == [b[2], b[3]] && PutBe16(info) == [b[5], b[6]];
    assert b == b[..7] + b[7..4 + n] + b[4 + n..];
    assert b[..7] == [b[0], b[1], b[2], b[3], b[4], b[5], b[6]];
  }

  /** A frame of a message. */
  function FrameOf(m: Msg, version: byte, body: Bytes): Bytes
    requires WholeBody(body)
  {
    KeyFrame(version, KeyInfo(m), body)
  }

  /** Messages 1 and 3 go to the supplicant, messages 2 and 4 to the authenticator. */
  lemma MessagesRouted(m: Msg, version: byte, body: Bytes)
    requires WholeBody(body)
    ensures DstSupp(FrameOf(m, version, body)) == Some(Ack(m))
  {
    FramesRouted(version, KeyInfo(m), body, []);
    assert FrameOf(m, version, body) + [] == FrameOf(m, version, body);
  }

  /** What routing a frame does to a station: an unknown sender with a frame for the supplicant
      becomes a peer. */
  function Routed(own: Addr, st: Station, src: Addr, dst: Option<bool>, anonce: nat): Station
  {
    if dst == Some(true) then Begun(own, st, src, anonce) else st
  }

  function Addresses(peers: seq<Peer>): seq<Addr>
  {
    if peers == [] then [] else [peers[0].addr] + Addresses(peers[1..])
  }

  lemma {:induction false} AddressesSame(peers: seq<Peer>, i: nat, q: Peer)
    requires i < |peers| && q.addr == peers[i].addr
    ensures Addresses(peers[i := q]) == Addresses(peers)
  {
    if i == 0 {
      assert peers[i := q][1..] == peers[1..];
    } else {
      AddressesSame(peers[1..], i - 1, q);
      assert peers[i := q][1..] == peers[1..][i - 1 := q];
    }
  }

  lemma ProcessAddresses(net: Net, own: Addr, st: Station, i: nat, m: Msg, snonce: nat)
    requires i < |st.peers|
    ensures own in Process(net, own, st, i, m, snonce).stations
    ensures Addresses(Process(net, own, st, i, m, snonce).stations[own].peers) == Addresses(st.peers)
  {
    hide MemCmp, Addresses, SuppAccepts, AuthAccepts2, AuthAccepts4;
    var p := st.peers[i];
    match m {
      case M1(_, _, an) => AddressesSame(st.peers, i, SuppRx1(own, p, an, snonce));
      case M2(k) => AddressesSame(st.peers, i, p.(auth := Auth(Negotiating, k.anonce, Some(k))));
      case M3(k) => AddressesSame(st.peers, i, SuppRx3(p, k));
      case M4(k) => AddressesSame(st.peers, i, p.(auth := p.auth.(phase := Finished)));
    }
  }

  /** The network model and the code route alike: receiving a message has the same effect on the
      list of peers as routing its frame. */
  lemma RouteAgrees(net: Net, m: Msg, snonce: nat, anonce: nat, version: byte, body: Bytes)
    requires Target(m) in net.stations && WholeBody(body)
    ensures var own, st := Target(m), net.stations[Target(m)];
      var next := RxEapol(net, m, snonce, anonce);
      && own in next.stations
      && Addresses(next.stations[own].peers)
         == Addresses(Routed(own, st, Source(m), DstSupp(FrameOf(m, version, body)), anonce).peers)
  {
    hide Process, Find, Addresses, DstSupp, FrameOf;
    MessagesRouted(m, version, body);
    var own, st := Target(m), net.stations[Target(m)];
    var i := Find(st.peers, Source(m));
    if i < |st.peers| {
      ProcessAddresses(net, own, st, i, m, snonce);
    } else if Ack(m) {
      BegunFirst(own, st, Source(m), anonce);
      ProcessAddresses(net.(pool := net.pool + {M1(own, Source(m), anonce)}), own,
        Begun(own, st, Source(m), anonce), 0, m, snonce);
    }
  }
}
