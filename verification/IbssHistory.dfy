/** The record of a peer as a function of its history: what the authenticator and the supplicant
    of an IBSS station do with a message depends on the offers and messages since the record was
    made, and on nothing else in the network. */
module IbssHistory {
  import opened Octets
  import opened IbssRsn

  /** The authenticator sends message 1 with a nonce, or a message comes in; snonce is the
      nonce the supplicant would draw for it. */
  datatype Input = Offer(anonce: nat) | Rx(m: Msg, snonce: nat)

  // ---- The history of a record ----

  /** What an event adds to the history of the record that `own` has of `peer`; the history of
      a record that does not exist is empty. */
  function Extend(net: Net, h: seq<Input>, e: Event, own: Addr, peer: Addr): seq<Input>
  {
    match e
    case Start(s, p, an) => if s == own && p == peer && h == [] then [Offer(an)] else h
    case Stop(s, w) => if s == own && (w.None? || w.value == peer) then [] else h
    case Again(s, p, an) => if s == own && p == peer && h != [] then h + [Offer(an)] else h
    case Deliver(m, sn, an) =>
      if m !in net.pool || IbssRsn.Target(m) != own || Source(m) != peer then h
      else if h != [] then h + [Rx(m, sn)]
      else if m.M1? || m.M3? then [Offer(an), Rx(m, sn)]
      else []
    case Forge(_, _, _) => h
  }

  function History(net: Net, es: seq<Event>, own: Addr, peer: Addr): seq<Input>
  {
    if es == [] then []
    else
      var n := |es| - 1;
      Extend(Run(net, es[..n]), History(net, es[..n], own, peer), es[n], own, peer)
  }

  // ---- The authenticator ----

  /** The nonce of the latest offer. */
  function Offered(h: seq<Input>): Option<nat>
  {
    if h == [] then None
    else
      match h[|h| - 1]
      case Offer(an) => Some(an)
      case _ => Offered(h[..|h| - 1])
  }

  /** The key of the first message 2 since the latest offer that answers it. */
  function Answered(h: seq<Input>): Option<Ptk>
  {
    if h == [] || h[|h| - 1].Offer? then None
    else
      var init, m := h[..|h| - 1], h[|h| - 1].m;
      if Answered(init).Some? then Answered(init)
      else if m.M2? && Offered(init) == Some(m.key.anonce) then Some(m.key)
      else None
  }

  /** Message 4 with that key has followed it. */
  predicate Completed(h: seq<Input>)
  {
    h != [] && h[|h| - 1].Rx? &&
    (Completed(h[..|h| - 1]) || (h[|h| - 1].m.M4? && Answered(h[..|h| - 1]) == Some(h[|h| - 1].m.key)))
  }

  // ---- The supplicant ----

  /** The key made from the latest message 1. The supplicant draws a nonce for it only if it
      has none that is unused. */
  function Derived(own: Addr, h: seq<Input>): Option<Ptk>
    decreases |h|, 0
  {
    if h == [] then None
    else
      var init := h[..|h| - 1];
      match h[|h| - 1]
      case Rx(M1(from, _, an), sn) =>
        var unused := Derived(own, init).Some? && !Used(own, init);
        Some(Ptk(from, own, an, if unused then Derived(own, init).value.snonce else sn))
      case _ => Derived(own, init)
  }

  /** The key of the latest message 3 that confirmed the key made last. */
  function Confirmed(own: Addr, h: seq<Input>): Option<Ptk>
    decreases |h|, 0
  {
    if h == [] then None
    else
      var init, x := h[..|h| - 1], h[|h| - 1];
      if x.Rx? && x.m.M3? && Derived(own, init) == Some(x.m.key) then Some(x.m.key) else Confirmed(own, init)
  }

  /** A message 3 is good: its nonce is that of the latest message 1, and its key the one made
      from that, or the one confirmed last. */
  predicate Good(own: Addr, h: seq<Input>, k: Ptk)
    decreases |h|, 1
  {
    var d := Derived(own, h);
    d.Some? && d.value.anonce == k.anonce && (d.value == k || Confirmed(own, h) == Some(k))
  }

  /** A good message 3 has come since the latest message 1. */
  predicate Used(own: Addr, h: seq<Input>)
    decreases |h|, 0
  {
    h != [] &&
    match h[|h| - 1]
    case Offer(_) => Used(own, h[..|h| - 1])
    case Rx(M1(_, _, _), _) => false
    case Rx(M3(k), _) => Used(own, h[..|h| - 1]) || Good(own, h[..|h| - 1], k)
    case Rx(_, _) => Used(own, h[..|h| - 1])
  }

  // ---- The record follows its history ----

  predicate AuthFollows(a: Auth, h: seq<Input>)
  {
    && Offered(h) == Some(a.anonce)
    && a.phase == (if Answered(h).None? then Starting else if Completed(h) then Finished else Negotiating)
    && (Answered(h).Some? ==> a.ptk == Answered(h))
  }

  predicate SuppFollows(own: Addr, s: Supp, h: seq<Input>)
  {
    var d := Derived(own, h);
    && s.ptk == Confirmed(own, h)
    && (d.None? ==> s.renew && s.tptk.None? && s.anonce.None? && s.ptk.None? && !Used(own, h))
    && (d.Some? ==>
      && s.anonce == Some(d.value.anonce) && s.snonce == d.value.snonce && s.renew == Used(own, h)
      && (s.tptk == d || (s.tptk.None? && s.ptk == d)))
  }

  predicate Follows(own: Addr, peer: Addr, r: Option<Peer>, h: seq<Input>)
  {
    && (r.Some? <==> h != [])
    && (r.Some? ==> r.value.addr == peer && AuthFollows(r.value.auth, h) && SuppFollows(own, r.value.supp, h))
  }

  /** What one message makes of a record. */
  function Received(own: Addr, p: Peer, m: Msg, sn: nat): Peer
  {
    match m
    case M1(_, _, an) => SuppRx1(own, p, an, sn)
    case M2(k) => if AuthAccepts2(p, k) then p.(auth := Auth(Negotiating, k.anonce, Some(k))) else p
    case M3(k) => SuppRx3(p, k)
    case M4(k) => if AuthAccepts4(p, k) then p.(auth := p.auth.(phase := Finished)) else p
  }

  lemma NewFollows(own: Addr, peer: Addr, an: nat)
    ensures Follows(own, peer, Some(NewPeer(peer, an)), [Offer(an)])
  {
    var h := [Offer(an)];
    assert h[..0] == [];
    assert Derived(own, []) == None && Confirmed(own, []) == None;
  }

  lemma OfferFollows(own: Addr, peer: Addr, p: Peer, h: seq<Input>, an: nat)
    requires Follows(own, peer, Some(p), h)
    ensures Follows(own, peer, Some(p.(auth := Auth(Starting, an, p.auth.ptk))), h + [Offer(an)])
  {
    assert (h + [Offer(an)])[..|h|] == h;
  }

  lemma AuthReceives(own: Addr, p: Peer, h: seq<Input>, m: Msg, sn: nat)
    requires AuthFollows(p.auth, h)
    ensures AuthFollows(Received(own, p, m, sn).auth, h + [Rx(m, sn)])
  {
    hide SuppRx1, SuppRx3;
    assert (h + [Rx(m, sn)])[..|h|] == h;
    SuppOnly(own, p, m, sn);
    CompletedAnswered(h);
  }

  lemma {:induction false} CompletedAnswered(h: seq<Input>)
    ensures Completed(h) ==> Answered(h).Some?
  {
    if h != [] {
      CompletedAnswered(h[..|h| - 1]);
    }
  }

  lemma SuppOnly(own: Addr, p: Peer, m: Msg, sn: nat)
    ensures Ack(m) ==> Received(own, p, m, sn).auth == p.auth
    ensures !Ack(m) ==> Received(own, p, m, sn).supp == p.supp
  {
  }

  lemma GoodIff(own: Addr, p: Peer, h: seq<Input>, k: Ptk)
    requires SuppFollows(own, p.supp, h)
    ensures SuppAccepts(p, k) <==> Good(own, h, k)
  {
    hide Derived, Confirmed, Used;
  }

  lemma SuppReceives(own: Addr, peer: Addr, p: Peer, h: seq<Input>, m: Msg, sn: nat)
    requires p.addr == peer && SuppFollows(own, p.supp, h) && Source(m) == peer
    ensures SuppFollows(own, Received(own, p, m, sn).supp, h + [Rx(m, sn)])
  {
    var h' := h + [Rx(m, sn)];
    assert h'[..|h|] == h && h'[|h|] == Rx(m, sn);
    SuppOnly(own, p, m, sn);
    match m {
      case M1(f, t, an) =>
      case M3(k) => GoodIff(own, p, h, k);
      case _ =>
    }
  }

  lemma RecordFollows(own: Addr, peer: Addr, p: Peer, h: seq<Input>, m: Msg, sn: nat)
    requires Follows(own, peer, Some(p), h) && Source(m) == peer
    ensures Follows(own, peer, Some(Received(own, p, m, sn)), h + [Rx(m, sn)])
  {
    hide AuthFollows, SuppFollows;
    AuthReceives(own, p, h, m, sn);
    SuppReceives(own, peer, p, h, m, sn);
  }

  // ---- Records in the list of peers ----

  function Record(peers: seq<Peer>, a: Addr): Option<Peer>
  {
    if Find(peers, a) < |peers| then Some(peers[Find(peers, a)]) else None
  }

  lemma RecordIs(peers: seq<Peer>, i: nat)
    requires i < |peers| && forall j | 0 <= j < |peers| && j != i :: peers[j].addr != peers[i].addr
    ensures Find(peers, peers[i].addr) == i
  {
    hide Find;
  }

  lemma RecordNone(peers: seq<Peer>, a: Addr)
    requires forall j | 0 <= j < |peers| :: peers[j].addr != a
    ensures Record(peers, a) == None
  {
    hide Find;
  }

  lemma RecordSet(peers: seq<Peer>, b: Addr, q: Peer, a: Addr)
    requires Find(peers, b) < |peers| && q.addr == b
    ensures Record(peers[Find(peers, b) := q], a) == if a == b then Some(q) else Record(peers, a)
  {
    hide Find;
    var i := Find(peers, b);
    var s := peers[i := q];
    var j, k := Find(peers, a), Find(s, a);
    assert forall x | 0 <= x < |s| :: s[x].addr == peers[x].addr;
    assert j == k;
  }

  lemma RecordNew(peers: seq<Peer>, q: Peer, a: Addr)
    ensures Record([q] + peers, a) == if a == q.addr then Some(q) else Record(peers, a)
  {
    assert ([q] + peers)[1..] == peers;
  }

  lemma CutAt(peers: seq<Peer>, i: nat, x: nat)
    requires i < |peers| && x < |peers| - 1
    ensures (peers[..i] + peers[i + 1..])[x] == peers[if x < i then x else x + 1]
  {
  }

  lemma CutDistinct(own: Addr, peers: seq<Peer>, i: nat, j: nat)
    requires PeersOk(own, peers) && i < |peers| && j < |peers| && j != i
    ensures var s, k := peers[..i] + peers[i + 1..], if j < i then j else j - 1;
      && s[k] == peers[j]
      && forall x | 0 <= x < |s| && x != k :: s[x].addr != s[k].addr
  {
    hide PeerOk;
    var s, k := peers[..i] + peers[i + 1..], if j < i then j else j - 1;
    CutAt(peers, i, k);
    forall x | 0 <= x < |s| && x != k ensures s[x].addr != s[k].addr {
      CutAt(peers, i, x);
    }
  }

  lemma CutNone(own: Addr, peers: seq<Peer>, i: nat, a: Addr)
    requires PeersOk(own, peers) && i < |peers|
    requires a == peers[i].addr || Find(peers, a) == |peers|
    ensures Record(peers[..i] + peers[i + 1..], a) == None
  {
    hide PeerOk, Find;
    var s := peers[..i] + peers[i + 1..];
    forall x | 0 <= x < |s| ensures s[x].addr != a {
      CutAt(peers, i, x);
    }
    RecordNone(s, a);
  }

  lemma RecordCut(own: Addr, peers: seq<Peer>, b: Addr, a: Addr)
    requires PeersOk(own, peers) && Find(peers, b) < |peers|
    ensures var i := Find(peers, b);
      Record(peers[..i] + peers[i + 1..], a) == if a == b then None else Record(peers, a)
  {
    hide Find, PeersOk;
    var i, j := Find(peers, b), Find(peers, a);
    if a == b || j == |peers| {
      CutNone(own, peers, i, a);
    } else {
      CutDistinct(own, peers, i, j);
      RecordIs(peers[..i] + peers[i + 1..], if j < i then j else j - 1);
    }
  }

  // ---- Steps ----

  lemma ProcessRecord(net: Net, own: Addr, st: Station, i: nat, m: Msg, sn: nat)
    requires i < |st.peers|
    ensures var next := Process(net, own, st, i, m, sn);
      && next.stations.Keys == net.stations.Keys + {own}
      && next.stations[own].peers == st.peers[i := Received(own, st.peers[i], m, sn)]
      && forall s | s in net.stations && s != own :: next.stations[s] == net.stations[s]
  {
    hide MemCmp, SuppRx3, SuppAccepts;
    assert st.peers[i := st.peers[i]] == st.peers;
  }

  lemma ReceivedAddr(own: Addr, p: Peer, m: Msg, sn: nat)
    ensures Received(own, p, m, sn).addr == p.addr
  {
  }

  /** The record that own has of peer in the network. */
  function RecordIn(net: Net, own: Addr, peer: Addr): Option<Peer>
    requires own in net.stations
  {
    Record(net.stations[own].peers, peer)
  }

  lemma StartFollows(net: Net, e: Event, own: Addr, peer: Addr, h: seq<Input>)
    requires own in net.stations && Follows(own, peer, RecordIn(net, own, peer), h) && e.Start?
    ensures own in Step(net, e).stations
    ensures Follows(own, peer, RecordIn(Step(net, e), own, peer), Extend(net, h, e, own, peer))
  {
    hide Follows, Find, MemCmp;
    if e.self == own && RecordIn(net, own, e.peer).None? {
      var st := net.stations[own];
      AuthSetKeyPeers(own, st, e.peer, None);
      RecordNew(st.peers, NewPeer(e.peer, e.anonce), peer);
      NewFollows(own, e.peer, e.anonce);
    }
    KnownIff(own, peer, RecordIn(net, own, peer), h);
  }

  lemma KnownIff(own: Addr, peer: Addr, r: Option<Peer>, h: seq<Input>)
    requires Follows(own, peer, r, h)
    ensures r.Some? <==> h != []
    ensures r.Some? ==> r.value.addr == peer
  {
  }

  lemma NoneFollows(own: Addr, peer: Addr)
    ensures Follows(own, peer, None, [])
  {
  }

  lemma StopFollows(net: Net, e: Event, own: Addr, peer: Addr, h: seq<Input>)
    requires Inv(net) && own in net.stations && Follows(own, peer, RecordIn(net, own, peer), h) && e.Stop?
    ensures own in Step(net, e).stations
    ensures Follows(own, peer, RecordIn(Step(net, e), own, peer), Extend(net, h, e, own, peer))
  {
    hide Follows, Find, Ordered, PeersOk, KeysOk;
    NoneFollows(own, peer);
    if e.self == own {
      var peers := net.stations[own].peers;
      assert StationOk(own, net.stations[own], net.suppDone, net.authDone);
      match e.which {
        case None => RecordNone([], peer);
        case Some(a) =>
          if Find(peers, a) < |peers| {
            RecordCut(own, peers, a, peer);
          }
      }
    }
  }

  lemma AgainFollows(net: Net, e: Event, own: Addr, peer: Addr, h: seq<Input>)
    requires own in net.stations && Follows(own, peer, RecordIn(net, own, peer), h) && e.Again?
    ensures own in Step(net, e).stations
    ensures Follows(own, peer, RecordIn(Step(net, e), own, peer), Extend(net, h, e, own, peer))
  {
    hide Follows, Find;
    KnownIff(own, peer, RecordIn(net, own, peer), h);
    if e.self == own && RecordIn(net, own, e.peer).Some? {
      var peers := net.stations[own].peers;
      var p := peers[Find(peers, e.peer)];
      RecordSet(peers, e.peer, p.(auth := Auth(Starting, e.anonce, p.auth.ptk)), peer);
      if e.peer == peer {
        OfferFollows(own, peer, p, h, e.anonce);
      }
    }
  }

  lemma DeliverFollows(net: Net, e: Event, own: Addr, peer: Addr, h: seq<Input>)
    requires own in net.stations && Follows(own, peer, RecordIn(net, own, peer), h) && e.Deliver?
    ensures own in Step(net, e).stations
    ensures Follows(own, peer, RecordIn(Step(net, e), own, peer), Extend(net, h, e, own, peer))
  {
    hide Follows, Find, MemCmp, Process, Received, Begun;
    var m, sn, an := e.m, e.snonce, e.anonce;
    KnownIff(own, peer, RecordIn(net, own, peer), h);
    if m in net.pool && IbssRsn.Target(m) in net.stations {
      var to, st := IbssRsn.Target(m), net.stations[IbssRsn.Target(m)];
      var from := Source(m);
      if Find(st.peers, from) < |st.peers| {
        var p := st.peers[Find(st.peers, from)];
        ProcessRecord(net, to, st, Find(st.peers, from), m, sn);
        ReceivedAddr(to, p, m, sn);
        RecordSet(st.peers, from, Received(to, p, m, sn), peer);
        if to == own && from == peer {
          RecordFollows(own, peer, p, h, m, sn);
        }
      } else if Ack(m) {
        FirstContact(net, m, sn, an, peer);
        if to == own && from == peer {
          NewFollows(own, peer, an);
          RecordFollows(own, peer, NewPeer(peer, an), [Offer(an)], m, sn);
          assert [Offer(an)] + [Rx(m, sn)] == [Offer(an), Rx(m, sn)];
        }
      }
    }
  }

  /** A message that makes its sender a peer. */
  lemma FirstContact(net: Net, m: Msg, sn: nat, an: nat, peer: Addr)
    requires IbssRsn.Target(m) in net.stations && Ack(m)
    requires Record(net.stations[IbssRsn.Target(m)].peers, Source(m)).None?
    ensures var to, next := IbssRsn.Target(m), RxEapol(net, m, sn, an);
      && to in next.stations
      && Record(next.stations[to].peers, peer) ==
        (if peer == Source(m) then Some(Received(to, NewPeer(peer, an), m, sn))
         else Record(net.stations[to].peers, peer))
      && forall s | s in net.stations && s != to :: s in next.stations && next.stations[s] == net.stations[s]
  {
    hide Find, MemCmp, Process, Received;
    var to, from, st := IbssRsn.Target(m), Source(m), net.stations[IbssRsn.Target(m)];
    var p := NewPeer(from, an);
    AuthSetKeyPeers(to, st, from, None);
    assert Begun(to, st, from, an).peers == [p] + st.peers;
    ProcessRecord(net.(pool := net.pool + {M1(to, from, an)}), to, Begun(to, st, from, an), 0, m, sn);
    ReceivedAddr(to, p, m, sn);
    assert ([p] + st.peers)[0 := Received(to, p, m, sn)] == [Received(to, p, m, sn)] + st.peers;
    RecordNew(st.peers, Received(to, p, m, sn), peer);
  }

  lemma StepFollows(net: Net, e: Event, own: Addr, peer: Addr, h: seq<Input>)
    requires Inv(net) && own in net.stations && Follows(own, peer, RecordIn(net, own, peer), h)
    ensures own in Step(net, e).stations
    ensures Follows(own, peer, RecordIn(Step(net, e), own, peer), Extend(net, h, e, own, peer))
  {
    hide Follows, RecordIn, Inv;
    match e {
      case Start(_, _, _) => StartFollows(net, e, own, peer, h);
      case Stop(_, _) => StopFollows(net, e, own, peer, h);
      case Again(_, _, _) => AgainFollows(net, e, own, peer, h);
      case Deliver(_, _, _) => DeliverFollows(net, e, own, peer, h);
      case Forge(_, _, _) => SameStations(net, e, own, peer);
    }
  }

  lemma SameStations(net: Net, e: Event, own: Addr, peer: Addr)
    requires own in net.stations && e.Forge?
    ensures own in Step(net, e).stations && RecordIn(Step(net, e), own, peer) == RecordIn(net, own, peer)
  {
    hide Find;
  }

  /** In every run, every record is what its history makes it: it exists exactly if there is
      one; its authenticator has the nonce of the latest offer, the key of the first message 2
      that answers it, and is finished exactly if message 4 with that key followed; its
      supplicant has the key of the latest message 1 or the confirmed one. */
  lemma {:induction false} RunFollows(net: Net, es: seq<Event>, own: Addr, peer: Addr)
    requires Fresh(net) && own in net.stations
    ensures own in Run(net, es).stations
    ensures Follows(own, peer, RecordIn(Run(net, es), own, peer), History(net, es, own, peer))
  {
    hide Follows, RecordIn, Inv, Step, Extend;
    if es == [] {
      FreshFollows(net, own, peer);
    } else {
      var n := |es| - 1;
      RunFollows(net, es[..n], own, peer);
      RunInv(net, es[..n]);
      StepFollows(Run(net, es[..n]), es[n], own, peer, History(net, es[..n], own, peer));
    }
  }

  lemma FreshFollows(net: Net, own: Addr, peer: Addr)
    requires Fresh(net) && own in net.stations
    ensures Follows(own, peer, RecordIn(net, own, peer), [])
  {
  }

  // ---- What a message leads to, after every run ----

  /** Message 2 is answered by message 3 exactly if it is the first that answers the latest
      offer of the authenticator. */
  lemma SecondMessageIff(net: Net, es: seq<Event>, k: Ptk, sn: nat, an: nat)
    requires Fresh(net) && k.auth in net.stations && M2(k) in Run(net, es).pool
    ensures var s, h := Run(net, es), History(net, es, k.auth, k.supp);
      Step(s, Deliver(M2(k), sn, an)).pool ==
        s.pool + if Offered(h) == Some(k.anonce) && Answered(h).None? then {M3(k)} else {}
  {
    hide Find, Run, History, SuppFollows, Offered, Answered, Completed;
    RunFollows(net, es, k.auth, k.supp);
    NothingOffered();
  }

  lemma NothingOffered()
    ensures Offered([]) == None && Answered([]) == None && !Completed([])
  {
  }

  lemma NothingDerived(own: Addr)
    ensures Derived(own, []) == None
  {
  }

  /** The supplicant finishes with message 3, and sends message 4, exactly if the message is
      good: its key is the one made from the latest message 1, or the one confirmed last and
      made from the same nonce. */
  lemma ThirdMessageIff(net: Net, es: seq<Event>, k: Ptk, sn: nat, an: nat)
    requires Fresh(net) && k.supp in net.stations && M3(k) in Run(net, es).pool
    ensures var s, h := Run(net, es), History(net, es, k.supp, k.auth);
      var next := Step(s, Deliver(M3(k), sn, an));
      if Good(k.supp, h, k) then next.suppDone == s.suppDone + [k] && M4(k) in next.pool
      else next.suppDone == s.suppDone && (M4(k) in next.pool <==> M4(k) in s.pool)
  {
    hide Find, Run, History, AuthFollows, SuppFollows, Good, SuppRx3, SuppAccepts, MemCmp, Begun;
    RunFollows(net, es, k.supp, k.auth);
    var s, h := Run(net, es), History(net, es, k.supp, k.auth);
    var st := s.stations[k.supp];
    if h == [] {
      NotGood(k.supp, k);
      StrangerRefused(k.supp, st, k, an);
    } else {
      GoodIff(k.supp, st.peers[Find(st.peers, k.auth)], h, k);
    }
  }

  lemma NotGood(own: Addr, k: Ptk)
    ensures !Good(own, [], k)
  {
  }

  lemma StrangerRefused(own: Addr, st: Station, k: Ptk, an: nat)
    requires Find(st.peers, k.auth) == |st.peers|
    ensures var b := Begun(own, st, k.auth, an);
      |b.peers| > 0 && !SuppAccepts(b.peers[0], k)
  {
    hide MemCmp, Find;
    AuthSetKeyPeers(own, st, k.auth, None);
  }

  /** The authenticator finishes with message 4 exactly if its key is that of the answer to
      the latest offer, and not a second time. */
  lemma FourthMessageIff(net: Net, es: seq<Event>, k: Ptk, sn: nat, an: nat)
    requires Fresh(net) && k.auth in net.stations && M4(k) in Run(net, es).pool
    ensures var s, h := Run(net, es), History(net, es, k.auth, k.supp);
      Step(s, Deliver(M4(k), sn, an)).authDone ==
        s.authDone + if Answered(h) == Some(k) && !Completed(h) then [k] else []
  {
    hide Find, Run, History, SuppFollows, Offered, Answered, Completed, MemCmp;
    RunFollows(net, es, k.auth, k.supp);
    NothingOffered();
  }
}
