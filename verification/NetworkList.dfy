/** The network list of struct wpa_config with its priority index in the form the source
    gives it: entries chained by `pnext` pointers from an array of chain heads. Entries
    are referred to by their ids, which are unique. Every operation leaves the index equal
    to PriorityIndex.Build of the list. */
module NetworkList {
  import opened Octets
  import opened Networks
  import opened PriorityIndex

  /** Following pnext from a head visits exactly this chain. */
  ghost predicate Chained(pnext: map<int, int>, head: int, chain: seq<int>)
  {
    && chain != [] && chain[0] == head
    && (forall j | 0 <= j < |chain| - 1 :: chain[j] in pnext && pnext[chain[j]] == chain[j + 1])
    && chain[|chain| - 1] !in pnext
  }

  /** Heads and pnext pointers link up to `chains`; `place` tells where an entry is, so that
      no entry is in two places. */
  ghost predicate Represents(pssid: seq<int>, pnext: map<int, int>, chains: seq<seq<int>>, place: map<int, (nat, nat)>)
  {
    && |pssid| == |chains|
    && (forall k | 0 <= k < |chains| :: Chained(pnext, pssid[k], chains[k]))
    && (forall k, j | 0 <= k < |chains| && 0 <= j < |chains[k]| ::
          chains[k][j] in place && place[chains[k][j]] == (k, j))
  }

  /** Linking a new entry behind the last one of chain k. */
  lemma AppendRepresents(pssid: seq<int>, pnext: map<int, int>, chains: seq<seq<int>>, place: map<int, (nat, nat)>, k: nat, id: int)
    requires Represents(pssid, pnext, chains, place) && k < |chains|
    requires id !in place && id !in pnext
    ensures var last := chains[k][|chains[k]| - 1];
            Represents(pssid, pnext[last := id], chains[k := chains[k] + [id]], place[id := (k, |chains[k]|)])
  {
    var last := chains[k][|chains[k]| - 1];
    assert place[last] == (k, |chains[k]| - 1);
    forall i | 0 <= i < |chains| ensures Chained(pnext[last := id], pssid[i], chains[k := chains[k] + [id]][i]) {
      assert Chained(pnext, pssid[i], chains[i]);
      if i != k {
        assert forall j | 0 <= j < |chains[i]| :: chains[i][j] != last;
      }
    }
  }

  /** Where element i of a list with an insertion at p was before. */
  function Was(i: nat, p: nat): nat
    requires i != p
  {
    if i < p then i else i - 1
  }

  function Inserted<T>(s: seq<T>, p: nat, x: T): (r: seq<T>)
    requires p <= |s|
    ensures |r| == |s| + 1 && r[p] == x
    ensures forall i {:trigger r[i]} | 0 <= i < |r| && i != p :: r[i] == s[Was(i, p)]
  {
    s[..p] + [x] + s[p..]
  }

  /** A new chain of one entry in front of chain p. */
  lemma InsertRepresents(pssid: seq<int>, pnext: map<int, int>, chains: seq<seq<int>>, place: map<int, (nat, nat)>, p: nat, id: int)
    requires Represents(pssid, pnext, chains, place) && p <= |chains|
    requires id !in place && id !in pnext
    ensures Represents(Inserted(pssid, p, id), pnext, Inserted(chains, p, [id]), Shifted(place, p)[id := (p, 0)])
  {
    hide Inserted;
    var pssid', chains' := Inserted(pssid, p, id), Inserted(chains, p, [id]);
    forall i | 0 <= i < |chains'| ensures Chained(pnext, pssid'[i], chains'[i]) {
      if i != p {
        var b := Was(i, p);
        assert Chained(pnext, pssid[b], chains[b]) && pssid'[i] == pssid[b] && chains'[i] == chains[b];
      }
    }
    hide Chained;
    var place' := Shifted(place, p)[id := (p, 0)];
    forall i, j | 0 <= i < |chains'| && 0 <= j < |chains'[i]|
      ensures chains'[i][j] in place' && place'[chains'[i][j]] == (i, j)
    {
      if i != p {
        var b := Was(i, p);
        assert chains'[i][j] == chains[b][j] && place[chains[b][j]] == (b, j);
      }
    }
  }

  ghost function Shifted(place: map<int, (nat, nat)>, p: nat): map<int, (nat, nat)>
  {
    map id | id in place :: if place[id].0 < p then place[id] else (place[id].0 + 1, place[id].1)
  }

  /** struct wpa_config: `nets` holds the entries, `ssid` the list linked by `next`. */
  class WpaConfig {
    var nets: map<int, Network>
    var ssid: seq<int>
    var pssid: seq<int>
    var pnext: map<int, int>
    ghost var chains: seq<seq<int>>
    ghost var place: map<int, (nat, nat)>

    /** Pointers are good and the index links up. */
    ghost predicate Linked()
      reads this
    {
      && Represents(pssid, pnext, chains, place)
      && place.Keys <= nets.Keys
      && (forall id | id in nets :: nets[id].id == id)
    }

    ghost function List(): seq<Network>
      reads this
      requires forall i | 0 <= i < |ssid| :: ssid[i] in nets
    {
      Looked(nets, ssid)
    }

    ghost function Groups(): seq<seq<Network>>
      reads this
      requires Linked()
    {
      assert forall k, j | 0 <= k < |chains| && 0 <= j < |chains[k]| :: chains[k][j] in place;
      LookedAll(nets, chains)
    }

    ghost predicate Valid()
      reads this
    {
      && Linked()
      && (forall i | 0 <= i < |ssid| :: ssid[i] in nets)
      && place.Keys == AsSet(ssid)
      && Increasing(ssid)
      && Groups() == Build(List())
    }

    constructor ()
      ensures Valid() && ssid == []
    {
      nets, ssid, pssid, pnext, chains, place := map[], [], [], map[], [], map[];
    }

    /** wpa_config_add_prio_network */
    method AddPrioNetwork(id: int)
      requires Linked() && id in nets && id !in place && id !in pnext
      modifies this`pssid, this`pnext, this`chains, this`place
      ensures Linked() && place.Keys == old(place.Keys) + {id}
      ensures Groups() == AddPrio(old(Groups()), nets[id])
      ensures pnext == old(pnext) || exists last | last !in old(pnext) :: pnext == old(pnext)[last := id]
    {
      hide Represents;
      var prio := ExistingChain(nets[id].priority);
      if prio < |pssid| {
        AppendToChain(prio, id);
      } else {
        prio := PlaceForChain(nets[id].priority);
        InsertChain(prio, id);
      }
    }

    /** The loop that looks for the chain of a priority. */
    method ExistingChain(priority: int) returns (prio: nat)
      requires Linked()
      ensures |pssid| == |Groups()|
      ensures prio == ChainFor(Groups(), priority)
    {
      hide Represents;
      LevelIsHead(nets, pssid, pnext, chains, place);
      prio := 0;
      while prio < |pssid|
        invariant prio <= |pssid|
        invariant forall k | 0 <= k < prio :: Level(Groups()[k]) != priority
      {
        if nets[pssid[prio]].priority == priority {
          return;
        }
        prio := prio + 1;
      }
    }

    /** The loop that looks for the place of a new chain. */
    method PlaceForChain(priority: int) returns (prio: nat)
      requires Linked()
      ensures |pssid| == |Groups()|
      ensures prio == FirstBelow(Groups(), priority)
    {
      hide Represents;
      LevelIsHead(nets, pssid, pnext, chains, place);
      prio := 0;
      while prio < |pssid|
        invariant prio <= |pssid|
        invariant forall k | 0 <= k < prio :: Level(Groups()[k]) >= priority
      {
        if nets[pssid[prio]].priority < priority {
          return;
        }
        prio := prio + 1;
      }
    }

    /** The shift of the head array that makes room for a new chain. */
    method InsertChain(prio: nat, id: int)
      requires Linked() && id in nets && id !in place && id !in pnext && prio <= |pssid|
      modifies this`pssid, this`chains, this`place
      ensures Linked() && place.Keys == old(place.Keys) + {id}
      ensures Groups() == old(Groups())[..prio] + [[nets[id]]] + old(Groups())[prio..]
    {
      hide Represents, Inserted;
      LevelIsHead(nets, pssid, pnext, chains, place);
      InsertRepresents(pssid, pnext, chains, place, prio, id);
      LookedInserted(nets, chains, prio, id);
      pssid, chains := Inserted(pssid, prio, id), Inserted(chains, prio, [id]);
      place := Shifted(place, prio)[id := (prio, 0)];
    }

    /** The walk along a chain to its last entry, and the new link there. */
    method AppendToChain(prio: nat, id: int)
      requires Linked() && id in nets && id !in place && id !in pnext && prio < |pssid|
      modifies this`pnext, this`chains, this`place
      ensures Linked() && place.Keys == old(place.Keys) + {id}
      ensures Groups() == old(Groups())[prio := old(Groups())[prio] + [nets[id]]]
      ensures exists last | last !in old(pnext) :: pnext == old(pnext)[last := id]
    {
      var prev := pssid[prio];
      ghost var chain := chains[prio];
      assert Chained(pnext, pssid[prio], chain);
      ghost var j := 0;
      while prev in pnext
        modifies {}
        invariant j < |chain| && prev == chain[j]
        decreases |chain| - j
      {
        prev := pnext[prev];
        j := j + 1;
      }
      assert prev == chain[|chain| - 1];
      AppendRepresents(pssid, pnext, chains, place, prio, id);
      ghost var was := chains;
      pnext := pnext[prev := id];
      chains, place := chains[prio := chain + [id]], place[id := (prio, |chain|)];
      LookedAppended(nets, was, prio, id);
    }

    /** wpa_config_update_prio_list */
    method UpdatePrioList()
      requires (forall i | 0 <= i < |ssid| :: ssid[i] in nets) && Increasing(ssid)
      requires forall id | id in nets :: nets[id].id == id
      modifies this`pssid, this`pnext, this`chains, this`place
      ensures Valid()
    {
      hide Represents, AddPrio, Build, AsSet, Looked, LookedAll;
      pssid, chains, place := [], [], map[];
      EmptyIndex(nets, pnext);
      assert ssid[..0] == [] && List()[..0] == [];
      var i := 0;
      while i < |ssid|
        modifies this`pssid, this`pnext, this`chains, this`place
        invariant i <= |ssid|
        invariant Linked()
        invariant place.Keys == AsSet(ssid[..i])
        invariant Groups() == Build(List()[..i])
      {
        AsSetSnoc(ssid[..i], ssid[i]);
        BuildSnoc(List()[..i], nets[ssid[i]]);
        assert ssid[..i + 1] == ssid[..i] + [ssid[i]];
        assert List()[..i + 1] == List()[..i] + [nets[ssid[i]]];
        Relink(ssid[i]);
        i := i + 1;
      }
      assert ssid[..i] == ssid && List()[..i] == List();
    }

    /** One entry of wpa_config_update_prio_list: its pnext is cleared first. */
    method Relink(id: int)
      requires Linked() && id in nets && id !in place
      modifies this`pssid, this`pnext, this`chains, this`place
      ensures Linked() && place.Keys == old(place.Keys) + {id}
      ensures Groups() == AddPrio(old(Groups()), nets[id])
    {
      hide Represents;
      UnplacedUnlink(pssid, pnext, chains, place, id);
      pnext := pnext - {id};
      AddPrioNetwork(id);
    }

    /** wpa_config_read, after a network block has been read: the incremental way. */
    method AppendRead(n: Network)
      requires Valid() && n.id !in pnext && n.id >= 0
      requires forall i | 0 <= i < |ssid| :: ssid[i] < n.id
      modifies this
      ensures Valid() && List() == old(List()) + [n]
    {
      hide Represents, AddPrio, Build, AsSet, Looked, LookedAll;
      AsSetSnoc(ssid, n.id);
      ghost var list := List();
      BuildSnoc(list, n);
      UnplacedUnread(nets, pssid, pnext, chains, place, n);
      nets := nets[n.id := n];
      AddPrioNetwork(n.id);
      ghost var groups := Groups();
      ssid := ssid + [n.id];
      assert Groups() == groups;
      assert Increasing(ssid);
      assert List() == list + [n];
    }

    /** wpa_config_add_network */
    method AddNetwork() returns (id: int)
      requires Valid()
      modifies this
      ensures Valid() && List() == old(List()) + [Blank(id)]
      ensures forall n | n in old(List()) :: n.id < id
    {
      hide Represents, Build;
      id := -1;
      var i := 0;
      while i < |ssid|
        modifies {}
        invariant i <= |ssid| && id == if i == 0 then -1 else ssid[i - 1]
      {
        if ssid[i] > id {
          id := ssid[i];
        }
        i := i + 1;
      }
      id := id + 1;
      ghost var list := List();
      nets := nets[id := Blank(id)];
      ssid := ssid + [id];
      assert List() == list + [Blank(id)];
      UpdatePrioList();
    }

    /** wpa_config_remove_network */
    method RemoveNetwork(id: int) returns (r: int)
      requires Valid()
      modifies this
      ensures Valid()
      ensures r == if id in old(ssid) then 0 else -1
      ensures r == -1 ==> List() == old(List())
      ensures r == 0 ==> exists i | 0 <= i < |old(ssid)| :: old(List())[i].id == id && List() == old(List())[..i] + old(List())[i + 1..]
    {
      hide Represents, Build;
      var i := 0;
      while i < |ssid|
        modifies {}
        invariant i <= |ssid| && id !in ssid[..i]
      {
        if id == ssid[i] {
          break;
        }
        i := i + 1;
      }
      if i == |ssid| {
        return -1;
      }
      ghost var list := List();
      ssid := ssid[..i] + ssid[i + 1..];
      assert List() == list[..i] + list[i + 1..];
      UpdatePrioList();
      return 0;
    }

    /** A new priority for a network, set by the control interface. */
    method SetPriority(i: nat, priority: int)
      requires Valid() && i < |ssid|
      modifies this
      ensures Valid() && List() == old(List())[i := old(List())[i].(priority := priority)]
    {
      ghost var list := List();
      nets := nets[ssid[i] := nets[ssid[i]].(priority := priority)];
      assert List() == list[i := list[i].(priority := priority)];
      UpdatePrioList();
    }
  }

  /** A network as wpa_config_add_network allocates it: all fields zero. */
  function Blank(id: int): Network
  {
    Network(id, 0, false, [], None, {}, {}, {}, {}, [0, 0, 0, 0], 0, false, false, false, None)
  }

  /** Ids are not negative and increase along the list. */
  predicate Increasing(ids: seq<int>)
  {
    (forall i | 0 <= i < |ids| :: ids[i] >= 0)
    && (forall i, j | 0 <= i < j < |ids| :: ids[i] < ids[j])
  }

  ghost function AsSet(ids: seq<int>): set<int>
  {
    set id | id in ids
  }

  lemma AsSetSnoc(ids: seq<int>, id: int)
    ensures AsSet(ids + [id]) == AsSet(ids) + {id}
    ensures (forall i | 0 <= i < |ids| :: ids[i] != id) ==> id !in AsSet(ids)
  {
  }

  lemma EmptyIndex(nets: map<int, Network>, pnext: map<int, int>)
    ensures Represents([], pnext, [], map[]) && LookedAll(nets, []) == [] && Build([]) == [] && AsSet([]) == {}
  {
  }

  lemma BuildSnoc(ns: seq<Network>, n: Network)
    ensures Build(ns + [n]) == AddPrio(Build(ns), n)
  {
    assert (ns + [n])[..|ns|] == ns;
  }

  lemma UnplacedUnlink(pssid: seq<int>, pnext: map<int, int>, chains: seq<seq<int>>, place: map<int, (nat, nat)>, id: int)
    requires Represents(pssid, pnext, chains, place) && id !in place
    ensures Represents(pssid, pnext - {id}, chains, place)
  {
    forall k | 0 <= k < |chains| ensures Chained(pnext - {id}, pssid[k], chains[k]) {
      assert Chained(pnext, pssid[k], chains[k]);
      assert forall j | 0 <= j < |chains[k]| :: chains[k][j] != id;
    }
  }

  lemma UnplacedUnread(nets: map<int, Network>, pssid: seq<int>, pnext: map<int, int>, chains: seq<seq<int>>, place: map<int, (nat, nat)>, n: Network)
    requires Represents(pssid, pnext, chains, place) && place.Keys <= nets.Keys && n.id !in place
    ensures forall k, j | 0 <= k < |chains| && 0 <= j < |chains[k]| :: chains[k][j] in nets
    ensures LookedAll(nets[n.id := n], chains) == LookedAll(nets, chains)
  {
    forall k | 0 <= k < |chains| ensures Looked(nets[n.id := n], chains[k]) == Looked(nets, chains[k]) {
      assert forall j | 0 <= j < |chains[k]| :: chains[k][j] != n.id;
    }
  }

  lemma LevelIsHead(nets: map<int, Network>, pssid: seq<int>, pnext: map<int, int>, chains: seq<seq<int>>, place: map<int, (nat, nat)>)
    requires Represents(pssid, pnext, chains, place) && place.Keys <= nets.Keys
    ensures |pssid| == |chains|
    ensures forall k, j | 0 <= k < |chains| && 0 <= j < |chains[k]| :: chains[k][j] in nets
    ensures forall k | 0 <= k < |chains| :: pssid[k] in nets && Level(LookedAll(nets, chains)[k]) == nets[pssid[k]].priority
  {
    forall k | 0 <= k < |chains| ensures chains[k] != [] && chains[k][0] == pssid[k] {
      assert Chained(pnext, pssid[k], chains[k]);
    }
  }

  lemma LookedAppended(nets: map<int, Network>, chains: seq<seq<int>>, k: nat, id: int)
    requires forall k, j | 0 <= k < |chains| && 0 <= j < |chains[k]| :: chains[k][j] in nets
    requires k < |chains| && id in nets
    ensures var chains' := chains[k := chains[k] + [id]];
            && (forall k, j | 0 <= k < |chains'| && 0 <= j < |chains'[k]| :: chains'[k][j] in nets)
            && LookedAll(nets, chains') == LookedAll(nets, chains)[k := LookedAll(nets, chains)[k] + [nets[id]]]
  {
    assert Looked(nets, chains[k] + [id]) == Looked(nets, chains[k]) + [nets[id]];
  }

  lemma LookedInserted(nets: map<int, Network>, chains: seq<seq<int>>, p: nat, id: int)
    requires forall k, j | 0 <= k < |chains| && 0 <= j < |chains[k]| :: chains[k][j] in nets
    requires p <= |chains| && id in nets
    ensures var chains' := Inserted(chains, p, [id]);
            && (forall k, j | 0 <= k < |chains'| && 0 <= j < |chains'[k]| :: chains'[k][j] in nets)
            && LookedAll(nets, chains') == LookedAll(nets, chains)[..p] + [[nets[id]]] + LookedAll(nets, chains)[p..]
  {
    assert Looked(nets, [id]) == [nets[id]];
    assert LookedAll(nets, Inserted(chains, p, [id])) == Inserted(LookedAll(nets, chains), p, [nets[id]]);
  }

  ghost function Looked(nets: map<int, Network>, ids: seq<int>): (ns: seq<Network>)
    requires forall i | 0 <= i < |ids| :: ids[i] in nets
    ensures |ns| == |ids| && forall i | 0 <= i < |ids| :: ns[i] == nets[ids[i]]
  {
    seq(|ids|, i requires 0 <= i < |ids| => nets[ids[i]])
  }

  ghost function LookedAll(nets: map<int, Network>, chains: seq<seq<int>>): (gs: seq<seq<Network>>)
    requires forall k, j | 0 <= k < |chains| && 0 <= j < |chains[k]| :: chains[k][j] in nets
    ensures |gs| == |chains| && forall k | 0 <= k < |chains| :: gs[k] == Looked(nets, chains[k])
  {
    seq(|chains|, k requires 0 <= k < |chains| => Looked(nets, chains[k]))
  }
}
