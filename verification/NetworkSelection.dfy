/** Picking a network: the best pair of a scan result and a configured network that the
    blacklist does not hold back. */
module NetworkSelection {
  import opened Octets
  import opened Networks
  import opened PriorityIndex
  import opened Blacklist
  import opened ScanMatch

  /** The scan, the hardware, the configuration, and for which scan results the BSS table
      lookup that ends a selection succeeds. */
  datatype Scene = Scene(modes: Option<seq<Mode>>, scan: seq<ScanRes>, networks: seq<Network>, inTable: set<nat>)

  /** wpa_supplicant_enabled_networks */
  function Enabled(ns: seq<Network>): nat
  {
    if ns == [] then 0 else Enabled(ns[..|ns| - 1]) + if ns[|ns| - 1].disabled then 0 else 1
  }

  /** With a single enabled network the first failure counts already. */
  function Limit(ns: seq<Network>): nat
  {
    if Enabled(ns) == 1 then 0 else 1
  }

  /** wpa_scan_res_match for one network of a chain, with the blacklist count of the BSSID. */
  predicate Accepts(s: Scene, bl: seq<Entry>, r: ScanRes, n: Network)
  {
    var count := CountOf(bl, r.bssid);
    && count <= Limit(s.networks)
    && (Wps in n.keyMgmt ==> count == 0)
    && Fits(s.modes, r, n)
  }

  /** wpa_scan_res_match: the first network of the chain that fits. */
  function FirstMatch(s: Scene, bl: seq<Entry>, r: ScanRes, chain: seq<Network>): Option<Network>
  {
    if chain == [] then None
    else
      var before := FirstMatch(s, bl, r, chain[..|chain| - 1]);
      if before.Some? then before
      else if Accepts(s, bl, r, chain[|chain| - 1]) then Some(chain[|chain| - 1]) else None
  }

  /** The first of the first k scan results with a match in the chain, or k. */
  function FirstHit(s: Scene, bl: seq<Entry>, chain: seq<Network>, k: nat): (i: nat)
    requires k <= |s.scan|
    ensures i <= k
    ensures i < k ==> FirstMatch(s, bl, s.scan[i], chain).Some?
    ensures forall j | 0 <= j < i :: FirstMatch(s, bl, s.scan[j], chain).None?
  {
    if k == 0 then 0
    else
      var i := FirstHit(s, bl, chain, k - 1);
      if i < k - 1 then i
      else if FirstMatch(s, bl, s.scan[k - 1], chain).Some? then k - 1 else k
  }

  /** wpa_supplicant_select_bss: the first hit, provided the BSS table knows it. */
  function SelectBss(s: Scene, bl: seq<Entry>, chain: seq<Network>): Option<(nat, Network)>
  {
    var i := FirstHit(s, bl, chain, |s.scan|);
    if i < |s.scan| && i in s.inTable
    then Some((i, FirstMatch(s, bl, s.scan[i], chain).value))
    else None
  }

  /** One turn of the outer loop of wpa_supplicant_pick_network, over the first k chains. */
  function Pass(s: Scene, bl: seq<Entry>, groups: seq<seq<Network>>, k: nat): Option<(nat, Network)>
    requires k <= |groups|
  {
    if k == 0 then None
    else
      var before := Pass(s, bl, groups, k - 1);
      if before.Some? then before else SelectBss(s, bl, groups[k - 1])
  }

  /** wpa_supplicant_pick_network: the selection, and the blacklist in force at return. */
  function Pick(s: Scene, bl: seq<Entry>): (Option<(nat, Network)>, seq<Entry>)
  {
    var groups := Build(s.networks);
    var first := Pass(s, bl, groups, |groups|);
    if first.Some? || bl == [] then (first, bl) else (Pass(s, [], groups, |groups|), [])
  }

  // ---- What a best pair is ----

  /** Scan result i may be used for network c. */
  predicate Candidate(s: Scene, bl: seq<Entry>, i: nat, c: nat)
  {
    i < |s.scan| && c < |s.networks| && Accepts(s, bl, s.scan[i], s.networks[c])
  }

  /** Higher priority first, then earlier in the scan, then earlier in the configuration. */
  predicate NoWorse(s: Scene, i: nat, c: nat, j: nat, d: nat)
    requires c < |s.networks| && d < |s.networks|
  {
    var p, q := s.networks[c].priority, s.networks[d].priority;
    p > q || (p == q && (i < j || (i == j && c <= d)))
  }

  ghost predicate Best(s: Scene, bl: seq<Entry>, i: nat, c: nat)
  {
    && Candidate(s, bl, i, c)
    && forall j: nat, d: nat | Candidate(s, bl, j, d) :: NoWorse(s, i, c, j, d)
  }

  /** Best of its priority. */
  ghost predicate Leader(s: Scene, bl: seq<Entry>, i: nat, c: nat)
  {
    && Candidate(s, bl, i, c)
    && forall j: nat, d: nat | Candidate(s, bl, j, d) && s.networks[d].priority == s.networks[c].priority ::
         NoWorse(s, i, c, j, d)
  }

  /** Best of its priority, and the BSS table knows the scan result. */
  ghost predicate KnownLeader(s: Scene, bl: seq<Entry>, i: nat, c: nat)
  {
    Leader(s, bl, i, c) && i in s.inTable
  }

  /** Best among those. */
  ghost predicate BestKnown(s: Scene, bl: seq<Entry>, i: nat, c: nat)
  {
    && KnownLeader(s, bl, i, c)
    && forall j: nat, d: nat | KnownLeader(s, bl, j, d) :: NoWorse(s, i, c, j, d)
  }

  /** The BSS table knows every scan result. */
  predicate AllInTable(s: Scene)
  {
    forall i: nat | i < |s.scan| :: i in s.inTable
  }

  // ---- Chains and configuration order ----

  /** The first network of priority p that fits, by position in the configuration. */
  function FirstFit(s: Scene, bl: seq<Entry>, r: ScanRes, p: int, k: nat): (c: nat)
    requires k <= |s.networks|
    ensures c <= k
    ensures c < k ==> s.networks[c].priority == p && Accepts(s, bl, r, s.networks[c])
    ensures forall d | 0 <= d < c :: s.networks[d].priority != p || !Accepts(s, bl, r, s.networks[d])
  {
    if k == 0 then 0
    else
      var c := FirstFit(s, bl, r, p, k - 1);
      if c < k - 1 then c
      else if s.networks[k - 1].priority == p && Accepts(s, bl, r, s.networks[k - 1]) then k - 1 else k
  }

  lemma {:induction false} MatchIsFirstFit(s: Scene, bl: seq<Entry>, r: ScanRes, p: int, k: nat)
    requires k <= |s.networks|
    ensures FirstMatch(s, bl, r, WithPriority(s.networks[..k], p)) ==
              var c := FirstFit(s, bl, r, p, k);
              if c < k then Some(s.networks[c]) else None
  {
    hide Accepts, WithPriority, FirstMatch;
    WithPriorityTo(s.networks, p, k);
    NoMatchInNothing(s, bl, r);
    if k > 0 {
      MatchIsFirstFit(s, bl, r, p, k - 1);
      FirstMatchSnoc(s, bl, r, WithPriority(s.networks[..k - 1], p), s.networks[k - 1]);
    }
  }

  lemma WithPriorityTo(ns: seq<Network>, p: int, k: nat)
    requires k <= |ns|
    ensures WithPriority(ns[..k], p) ==
              if k == 0 then []
              else WithPriority(ns[..k - 1], p) + if ns[k - 1].priority == p then [ns[k - 1]] else []
  {
    if k > 0 {
      assert ns[..k][..k - 1] == ns[..k - 1];
    }
  }

  lemma NoMatchInNothing(s: Scene, bl: seq<Entry>, r: ScanRes)
    ensures FirstMatch(s, bl, r, []) == None
  {
  }

  lemma FirstMatchSnoc(s: Scene, bl: seq<Entry>, r: ScanRes, chain: seq<Network>, n: Network)
    ensures FirstMatch(s, bl, r, chain + [n]) ==
              var before := FirstMatch(s, bl, r, chain);
              if before.Some? then before else if Accepts(s, bl, r, n) then Some(n) else None
    ensures chain + [] == chain
  {
    hide Accepts;
    assert (chain + [n])[..|chain|] == chain;
  }

  /** A chain has a match for a scan result exactly when there is a candidate of its priority. */
  lemma MatchIsCandidate(s: Scene, bl: seq<Entry>, i: nat, p: int)
    requires i < |s.scan|
    ensures FirstMatch(s, bl, s.scan[i], WithPriority(s.networks, p)) ==
              var c := FirstFit(s, bl, s.scan[i], p, |s.networks|);
              if c < |s.networks| then Some(s.networks[c]) else None
  {
    MatchIsFirstFit(s, bl, s.scan[i], p, |s.networks|);
    assert s.networks[..|s.networks|] == s.networks;
  }

  // ---- The selection returns a best pair ----

  /** Position in the configuration of the network picked for a hit of priority p. */
  function HitNetwork(s: Scene, bl: seq<Entry>, i: nat, p: int): nat
    requires i < |s.scan|
  {
    FirstFit(s, bl, s.scan[i], p, |s.networks|)
  }

  /** The first hit of a chain beats every candidate of its priority. */
  lemma HitBeatsChain(s: Scene, bl: seq<Entry>, p: int, j: nat, d: nat)
    requires Candidate(s, bl, j, d) && s.networks[d].priority == p
    ensures var i := FirstHit(s, bl, WithPriority(s.networks, p), |s.scan|);
            && i <= j
            && HitNetwork(s, bl, i, p) < |s.networks|
            && Candidate(s, bl, i, HitNetwork(s, bl, i, p))
            && s.networks[HitNetwork(s, bl, i, p)].priority == p
            && NoWorse(s, i, HitNetwork(s, bl, i, p), j, d)
  {
    hide Accepts, FirstMatch, WithPriority;
    MatchIsCandidate(s, bl, j, p);
    var i := FirstHit(s, bl, WithPriority(s.networks, p), |s.scan|);
    MatchIsCandidate(s, bl, i, p);
  }

  /** The first hit of a chain leads its priority. */
  lemma HitLeads(s: Scene, bl: seq<Entry>, p: int)
    requires var h := FirstHit(s, bl, WithPriority(s.networks, p), |s.scan|);
      h < |s.scan|
    ensures var h := FirstHit(s, bl, WithPriority(s.networks, p), |s.scan|);
      Leader(s, bl, h, HitNetwork(s, bl, h, p)) && s.networks[HitNetwork(s, bl, h, p)].priority == p
  {
    hide Accepts, FirstMatch, WithPriority, FirstHit, FirstFit;
    var h := FirstHit(s, bl, WithPriority(s.networks, p), |s.scan|);
    HitIsCandidate(s, bl, h, p);
    var c := HitNetwork(s, bl, h, p);
    forall j: nat, d: nat | Candidate(s, bl, j, d) && s.networks[d].priority == p ensures NoWorse(s, h, c, j, d) {
      HitBeatsChain(s, bl, p, j, d);
    }
  }

  /** The scan result of a leader is the first hit of its chain. */
  lemma LeaderIsHit(s: Scene, bl: seq<Entry>, j: nat, d: nat)
    requires Leader(s, bl, j, d)
    ensures FirstHit(s, bl, WithPriority(s.networks, s.networks[d].priority), |s.scan|) == j
  {
    hide Accepts, FirstMatch, WithPriority, FirstHit, FirstFit;
    var p := s.networks[d].priority;
    HitBeatsChain(s, bl, p, j, d);
    var h := FirstHit(s, bl, WithPriority(s.networks, p), |s.scan|);
    assert NoWorse(s, j, d, h, HitNetwork(s, bl, h, p));
  }

  /** While no chain up to k has a selection, no known leader has one of their priorities. */
  lemma {:induction false} PassSkips(s: Scene, bl: seq<Entry>, groups: seq<seq<Network>>, k: nat, j: nat, d: nat)
    requires k <= |groups| && ChainsOf(groups, s.networks)
    requires Pass(s, bl, groups, k).None? && KnownLeader(s, bl, j, d)
    ensures ChainFor(groups, s.networks[d].priority) >= k
  {
    hide Accepts, FirstMatch, WithPriority, FirstHit, FirstFit;
    if k > 0 {
      PassSkips(s, bl, groups, k - 1, j, d);
      if Level(groups[k - 1]) == s.networks[d].priority {
        LeaderIsHit(s, bl, j, d);
      }
    }
  }

  /** The chain a selection comes from. */
  lemma {:induction false} PassSource(s: Scene, bl: seq<Entry>, groups: seq<seq<Network>>, k: nat) returns (m: nat)
    requires k <= |groups| && Pass(s, bl, groups, k).Some?
    ensures m < k && Pass(s, bl, groups, m).None? && SelectBss(s, bl, groups[m]) == Pass(s, bl, groups, k)
  {
    if Pass(s, bl, groups, k - 1).Some? {
      m := PassSource(s, bl, groups, k - 1);
    } else {
      m := k - 1;
    }
  }

  /** Over all scans, configurations, blacklists and BSS tables: one pass selects nothing
      exactly when the table knows no pair that is best of its priority, and otherwise the
      best pair of those. */
  lemma PassIsBest(s: Scene, bl: seq<Entry>)
    ensures var groups := Build(s.networks);
            var r := Pass(s, bl, groups, |groups|);
            && (r.None? <==> forall j: nat, d: nat :: !KnownLeader(s, bl, j, d))
            && (r.Some? ==> exists c: nat | BestKnown(s, bl, r.value.0, c) :: r.value.1 == s.networks[c])
  {
    hide Accepts, FirstMatch, WithPriority, FirstHit, FirstFit, Build;
    var groups := Build(s.networks);
    BuildPartitions(s.networks);
    var r := Pass(s, bl, groups, |groups|);
    if r.None? {
      forall j: nat, d: nat ensures !KnownLeader(s, bl, j, d) {
        if KnownLeader(s, bl, j, d) {
          PassSkips(s, bl, groups, |groups|, j, d);
          assert false;
        }
      }
    } else {
      var m := PassSource(s, bl, groups, |groups|);
      var p, i := Level(groups[m]), r.value.0;
      var c := HitNetwork(s, bl, i, p);
      HitLeads(s, bl, p);
      HitIsCandidate(s, bl, i, p);
      forall j: nat, d: nat | KnownLeader(s, bl, j, d) ensures NoWorse(s, i, c, j, d) {
        PassSkips(s, bl, groups, m, j, d);
        assert s.networks[d] in s.networks;
      }
      assert BestKnown(s, bl, i, c);
    }
  }

  /** The known leader of the priority of a candidate. */
  lemma Led(s: Scene, bl: seq<Entry>, j: nat, d: nat) returns (h: nat, e: nat)
    requires AllInTable(s) && Candidate(s, bl, j, d)
    ensures KnownLeader(s, bl, h, e) && s.networks[e].priority == s.networks[d].priority && NoWorse(s, h, e, j, d)
  {
    hide Accepts, FirstMatch, WithPriority, FirstHit, FirstFit;
    var p := s.networks[d].priority;
    HitBeatsChain(s, bl, p, j, d);
    h := FirstHit(s, bl, WithPriority(s.networks, p), |s.scan|);
    e := HitNetwork(s, bl, h, p);
    HitLeads(s, bl, p);
  }

  lemma BestOfAll(s: Scene, bl: seq<Entry>, i: nat, c: nat)
    requires AllInTable(s) && BestKnown(s, bl, i, c)
    ensures Best(s, bl, i, c)
  {
    hide Accepts, Leader;
    LeaderIsCandidate(s, bl, i, c);
    forall j: nat, d: nat | Candidate(s, bl, j, d) ensures NoWorse(s, i, c, j, d) {
      var h, e := Led(s, bl, j, d);
      LeaderIsCandidate(s, bl, h, e);
      assert NoWorse(s, i, c, h, e);
    }
  }

  lemma LeaderIsCandidate(s: Scene, bl: seq<Entry>, i: nat, c: nat)
    requires Leader(s, bl, i, c)
    ensures Candidate(s, bl, i, c)
  {
  }

  /** A table that knows every scan result makes no difference. */
  lemma KnownIsBest(s: Scene, bl: seq<Entry>)
    requires AllInTable(s)
    ensures forall i: nat, c: nat | BestKnown(s, bl, i, c) :: Best(s, bl, i, c)
    ensures (forall j: nat, d: nat :: !KnownLeader(s, bl, j, d)) ==> forall j: nat, d: nat :: !Candidate(s, bl, j, d)
  {
    hide Candidate, KnownLeader, BestKnown, Best;
    forall i: nat, c: nat | BestKnown(s, bl, i, c) ensures Best(s, bl, i, c) {
      BestOfAll(s, bl, i, c);
    }
    if exists j: nat, d: nat :: Candidate(s, bl, j, d) {
      var j: nat, d: nat :| Candidate(s, bl, j, d);
      var h, e := Led(s, bl, j, d);
    }
  }

  lemma HitIsCandidate(s: Scene, bl: seq<Entry>, i: nat, p: int)
    requires i < |s.scan| && FirstMatch(s, bl, s.scan[i], WithPriority(s.networks, p)).Some?
    ensures var c := HitNetwork(s, bl, i, p);
            Candidate(s, bl, i, c) && s.networks[c].priority == p
            && FirstMatch(s, bl, s.scan[i], WithPriority(s.networks, p)).value == s.networks[c]
  {
    hide Accepts, FirstMatch, WithPriority;
    MatchIsCandidate(s, bl, i, p);
  }

  lemma {:induction false} PassStays(s: Scene, bl: seq<Entry>, groups: seq<seq<Network>>, m: nat, k: nat)
    requires m <= k <= |groups| && Pass(s, bl, groups, m).Some?
    ensures Pass(s, bl, groups, k) == Pass(s, bl, groups, m)
  {
    if m < k {
      PassStays(s, bl, groups, m, k - 1);
    }
  }

  /** Chains of a higher priority than every candidate select nothing. */
  lemma {:induction false} PassAboveBest(s: Scene, bl: seq<Entry>, groups: seq<seq<Network>>, k: nat, i: nat, c: nat)
    requires k <= |groups| && Descending(groups) && ChainsOf(groups, s.networks) && Best(s, bl, i, c)
    requires forall m | 0 <= m < k :: Level(groups[m]) > s.networks[c].priority
    ensures Pass(s, bl, groups, k).None?
  {
    hide Accepts, FirstMatch, WithPriority, FirstFit;
    if k > 0 {
      PassAboveBest(s, bl, groups, k - 1, i, c);
      var p := Level(groups[k - 1]);
      var h := FirstHit(s, bl, groups[k - 1], |s.scan|);
      if h < |s.scan| {
        HitIsCandidate(s, bl, h, p);
        assert false;
      }
    }
  }

  /** Exactly when the BSS table knows the scan result of the best pair does a pass return
      that pair: the lookup that ends a selection is not followed by another try in the
      same chain. */
  lemma BestIffKnown(s: Scene, bl: seq<Entry>, i: nat, c: nat)
    requires Best(s, bl, i, c)
    ensures var groups := Build(s.networks);
            Pass(s, bl, groups, |groups|) == Some((i, s.networks[c])) <==> i in s.inTable
  {
    hide Accepts, FirstMatch, WithPriority, FirstFit, FirstHit, Build;
    var groups := Build(s.networks);
    BuildPartitions(s.networks);
    var p := s.networks[c].priority;
    assert s.networks[c] in s.networks;
    var m := ChainFor(groups, p);
    PassAboveBest(s, bl, groups, m, i, c);
    HitBeatsChain(s, bl, p, i, c);
    var h := FirstHit(s, bl, groups[m], |s.scan|);
    assert NoWorse(s, i, c, h, HitNetwork(s, bl, h, p));
    HitIsCandidate(s, bl, i, p);
    assert SelectBss(s, bl, groups[m]) == if i in s.inTable then Some((i, s.networks[c])) else None;
    if i in s.inTable {
      PassStays(s, bl, groups, m + 1, |groups|);
    } else if Pass(s, bl, groups, |groups|).Some? {
      var k := PassSource(s, bl, groups, |groups|);
      PassLevel(s, bl, groups, k);
    }
  }

  lemma PassLevel(s: Scene, bl: seq<Entry>, groups: seq<seq<Network>>, k: nat)
    requires k < |groups| && ChainsOf(groups, s.networks) && SelectBss(s, bl, groups[k]).Some?
    ensures SelectBss(s, bl, groups[k]).value.1.priority == Level(groups[k])
  {
    hide Accepts, FirstMatch, WithPriority, FirstFit;
    var i := FirstHit(s, bl, groups[k], |s.scan|);
    HitIsCandidate(s, bl, i, Level(groups[k]));
  }

  /** The pair that is picked is the best that the BSS table lets a pass find, under the
      blacklist in force at return; with no pair that blacklist is empty and there is none to
      find. With a table that knows every scan result it is a best pair of all: maximal
      priority, ties broken by scan order and then by configuration order. */
  lemma PickIsBest(s: Scene, bl: seq<Entry>)
    ensures var (r, bl') := Pick(s, bl);
            && (r.Some? ==> exists c: nat | BestKnown(s, bl', r.value.0, c) :: r.value.1 == s.networks[c])
            && (r.None? ==> bl' == [] && forall j: nat, d: nat :: !KnownLeader(s, [], j, d))
    ensures AllInTable(s) ==>
              var (r, bl') := Pick(s, bl);
              && (r.Some? ==> exists c: nat | Best(s, bl', r.value.0, c) :: r.value.1 == s.networks[c])
              && (r.None? ==> forall j: nat, d: nat :: !Candidate(s, [], j, d))
  {
    hide Accepts, Pass, Build, Best, BestKnown, KnownLeader, Candidate;
    PassIsBest(s, bl);
    PassIsBest(s, []);
    if AllInTable(s) {
      KnownIsBest(s, bl);
      KnownIsBest(s, []);
    }
  }

  /** For the whole selection: the best pair under the blacklist at return is returned exactly
      when the BSS table knows its scan result. */
  lemma PickIffKnown(s: Scene, bl: seq<Entry>, i: nat, c: nat)
    requires Best(s, Pick(s, bl).1, i, c)
    ensures Pick(s, bl).0 == Some((i, s.networks[c])) <==> i in s.inTable
  {
    hide Accepts, Pass, Build, Best;
    BestIffKnown(s, Pick(s, bl).1, i, c);
  }

  lemma BlacklistOnlyForbids(s: Scene, bl: seq<Entry>, i: nat, c: nat)
    requires Candidate(s, bl, i, c)
    ensures Candidate(s, [], i, c)
  {
  }

  /** Without the blacklist nothing would be found, although something is with it: what the
      blacklist holds back is unknown to the BSS table and stands in front of what is not. */
  ghost predicate Uncovers(s: Scene, bl: seq<Entry>)
  {
    && (exists i: nat, c: nat :: KnownLeader(s, bl, i, c))
    && (forall j: nat, d: nat :: !KnownLeader(s, [], j, d))
  }

  /** Blacklisting only reorders choices: a network is found with a blacklist exactly when
      one is found without, unless the blacklist uncovers one; a table that knows every scan
      result leaves nothing to uncover. The blacklist afterwards is the old one or empty,
      and it is empty whenever nothing was found. */
  lemma BlacklistOnlyReorders(s: Scene, bl: seq<Entry>)
    ensures (Pick(s, bl).0.Some? <==> Pick(s, []).0.Some?) <==> !Uncovers(s, bl)
    ensures AllInTable(s) ==> !Uncovers(s, bl)
    ensures Pick(s, bl).1 == bl || Pick(s, bl).1 == []
    ensures Pick(s, bl).0.None? ==> Pick(s, bl).1 == []
  {
    hide Accepts, Pass, Build, Best, KnownLeader;
    PassIsBest(s, bl);
    PassIsBest(s, []);
    if AllInTable(s) && Uncovers(s, bl) {
      NothingToUncover(s, bl);
    }
  }

  lemma NothingToUncover(s: Scene, bl: seq<Entry>)
    requires AllInTable(s)
    ensures !Uncovers(s, bl)
  {
    hide Accepts, Best, BestKnown;
    KnownIsBest(s, []);
    if exists i: nat, c: nat :: KnownLeader(s, bl, i, c) {
      var i: nat, c: nat :| KnownLeader(s, bl, i, c);
      BlacklistOnlyForbids(s, bl, i, c);
    }
  }

  // ---- What is picked ----

  /** The pair that is picked is a candidate under the blacklist at return. */
  lemma PickedIsCandidate(s: Scene, bl: seq<Entry>) returns (c: nat)
    requires Pick(s, bl).0.Some?
    ensures var ((i, n), bl') := (Pick(s, bl).0.value, Pick(s, bl).1);
      Candidate(s, bl', i, c) && n == s.networks[c]
  {
    hide Accepts, Pass, Build, Pick;
    PickIsBest(s, bl);
    c :| BestKnown(s, Pick(s, bl).1, Pick(s, bl).0.value.0, c) && Pick(s, bl).0.value.1 == s.networks[c];
  }

  /** A network is picked for a BSS only if it is enabled, names it (or names no other), agrees
      with it about security and privacy, allows its frequency, and the hardware can do its
      basic rates; and only if the BSS has not failed too often under the blacklist at
      return. */
  lemma PickedAgrees(s: Scene, bl: seq<Entry>)
    requires Pick(s, bl).0.Some?
    ensures Pick(s, bl).0.value.0 < |s.scan|
    ensures var ((i, n), bl') := (Pick(s, bl).0.value, Pick(s, bl).1);
      var r := s.scan[i];
      && n in s.networks && i in s.inTable
      && !n.disabled && !r.ibss
      && (n.ssid != [] ==> r.ssid == Some(n.ssid))
      && (n.bssid.Some? ==> r.bssid == n.bssid.value)
      && (n.ssid == [] ==>
            n.bssid == Some(r.bssid) || n.id in r.wpsWildcard || (!AdvertisesWpa(r) && Wps !in n.keyMgmt))
      && (n.freqList.Some? ==> r.freq in n.freqList.value)
      && ((WpaPsk in n.keyMgmt || WpaEap in n.keyMgmt) && n.id !in r.wpsMatch ==>
            || (Rsn in n.proto && Shares(r.rsnIe, n) && (n.mfpRequired ==> OffersMfp(r.rsnIe)))
            || (Wpa in n.proto && Shares(r.wpaIe, n)))
      && (!AdvertisesWpa(r) ==> NoKeyMgmt in n.keyMgmt || Wps in n.keyMgmt || Ieee8021x in n.keyMgmt)
      && (!n.mixedCell && Wps !in n.keyMgmt ==>
            (r.privacy <==>
               HasWepKey(n) || (Ieee8021x in n.keyMgmt && n.eapolKeys) || WpaPsk in n.keyMgmt || WpaEap in n.keyMgmt))
      && (s.modes.Some? && r.freq != 0 ==> exists m | m in s.modes.value :: GoodMode(m, r))
  {
    hide Pass, Build, Pick, Fits, BestKnown;
    var c := PickedIsCandidate(s, bl);
    PickedInTable(s, bl);
    var (i, n) := Pick(s, bl).0.value;
    FittingIdentity(s.modes, s.scan[i], n);
    FittingRates(s.modes, s.scan[i], n);
    FittingSecurity(s.modes, s.scan[i], n);
  }

  lemma PickedInTable(s: Scene, bl: seq<Entry>)
    requires Pick(s, bl).0.Some?
    ensures Pick(s, bl).0.value.0 in s.inTable
  {
    hide Accepts, Pass, Build, Pick;
    PickIsBest(s, bl);
  }

  /** Two or more networks are enabled. */
  predicate Several(ns: seq<Network>)
  {
    exists a, b | 0 <= a < b < |ns| :: !ns[a].disabled && !ns[b].disabled
  }

  lemma {:induction false} EnabledCounts(ns: seq<Network>, k: nat)
    requires k <= |ns|
    ensures Enabled(ns[..k]) == 0 <==> forall a | 0 <= a < k :: ns[a].disabled
    ensures Enabled(ns[..k]) >= 2 <==> Several(ns[..k])
  {
    if k > 0 {
      EnabledCounts(ns, k - 1);
      var t := ns[..k];
      assert t[..k - 1] == ns[..k - 1];
      if !ns[k - 1].disabled && Enabled(ns[..k - 1]) == 1 {
        var a :| 0 <= a < k - 1 && !ns[a].disabled;
        assert !t[a].disabled && !t[k - 1].disabled;
      }
      if Several(ns[..k - 1]) {
        var a, b :| 0 <= a < b < k - 1 && !ns[..k - 1][a].disabled && !ns[..k - 1][b].disabled;
        assert !t[a].disabled && !t[b].disabled;
      }
      if Several(t) {
        var a, b :| 0 <= a < b < k && !t[a].disabled && !t[b].disabled;
        assert !ns[a].disabled && !ns[b].disabled;
        assert b < k - 1 ==> !ns[..k - 1][a].disabled && !ns[..k - 1][b].disabled;
      }
    }
  }

  /** A BSS that is picked is not blacklisted, except once if several networks are enabled and
      the one that is picked does not use WPS. */
  lemma PickedNotBlacklisted(s: Scene, bl: seq<Entry>)
    requires Pick(s, bl).0.Some?
    ensures Pick(s, bl).0.value.0 < |s.scan|
    ensures var ((i, n), bl') := (Pick(s, bl).0.value, Pick(s, bl).1);
      CountOf(bl', s.scan[i].bssid) == 0
      || (CountOf(bl', s.scan[i].bssid) == 1 && Several(s.networks) && Wps !in n.keyMgmt)
  {
    hide Pass, Build, Pick, BestKnown, Fits;
    var c := PickedIsCandidate(s, bl);
    var (i, n) := Pick(s, bl).0.value;
    EnabledCounts(s.networks, |s.networks|);
    assert s.networks[..|s.networks|] == s.networks;
    FittingIdentity(s.modes, s.scan[i], n);
    assert !s.networks[c].disabled;
  }

  /** Open, WEP and WPA2-Personal networks are candidates for the BSSs they should be for. */
  lemma OrdinaryCandidates(s: Scene, bl: seq<Entry>, i: nat, c: nat)
    requires i < |s.scan| && c < |s.networks| && CountOf(bl, s.scan[i].bssid) == 0
    requires Reachable(s.modes, s.scan[i], s.networks[c])
    requires var r, n := s.scan[i], s.networks[c];
      || (n.keyMgmt == {NoKeyMgmt} && (r.privacy <==> HasWepKey(n)))
      || (&& n.keyMgmt == {WpaPsk} && Rsn in n.proto && r.privacy
          && Shares(r.rsnIe, n) && r.rsnIe.value.len > 0 && (n.mfpRequired ==> OffersMfp(r.rsnIe)))
    ensures Candidate(s, bl, i, c)
  {
    hide Fits, Reachable, Shares, OffersMfp;
    var r, n := s.scan[i], s.networks[c];
    if n.keyMgmt == {NoKeyMgmt} {
      if HasWepKey(n) {
        WepFits(s.modes, r, n);
      } else {
        OpenFits(s.modes, r, n);
      }
    } else {
      Wpa2Fits(s.modes, r, n);
    }
  }

  /** The exact condition: a BSS is a candidate for a network exactly if they agree and it is
      not blacklisted, or only once, with several networks enabled and none by WPS. */
  lemma CandidateIff(s: Scene, bl: seq<Entry>, i: nat, c: nat)
    requires i < |s.scan| && c < |s.networks|
    ensures var r, n := s.scan[i], s.networks[c];
      Candidate(s, bl, i, c) <==>
        && Agree(s.modes, r, n)
        && (CountOf(bl, r.bssid) == 0 || (CountOf(bl, r.bssid) == 1 && Several(s.networks) && Wps !in n.keyMgmt))
  {
    hide Fits, Agree, Several, Enabled, CountOf;
    FitsIff(s.modes, s.scan[i], s.networks[c]);
    EnabledCounts(s.networks, |s.networks|);
    assert s.networks[..|s.networks|] == s.networks;
    if Fits(s.modes, s.scan[i], s.networks[c]) {
      FitsEnabled(s.modes, s.scan[i], s.networks[c]);
    }
  }

  lemma FitsEnabled(modes: Option<seq<Mode>>, r: ScanRes, n: Network)
    requires Fits(modes, r, n)
    ensures !n.disabled
  {
  }

  // ---- An input ----

  /** A plain network, and a BSS of it. */
  function PlainNetwork(): Network
  {
    Network(0, 0, false, [7], None, {NoKeyMgmt}, {}, {}, {}, [], 0, false, false, false, None)
  }

  function PlainBss(bssid: Bytes): ScanRes
  {
    ScanRes(bssid, Some([7]), None, None, false, false, 0, [], map[], {})
  }

  lemma PlainFits(bssid: Bytes)
    ensures Fits(None, PlainBss(bssid), PlainNetwork())
  {
    assert NoKeyMgmt in PlainNetwork().keyMgmt * {NoKeyMgmt, Wps, Ieee8021x};
  }

  /** Two BSSs of one network, the first unknown to the table and blacklisted: the second is
      found with the blacklist, and nothing without it. */
  lemma FoundOnlyWithBlacklist()
    ensures var s := Scene(None, [PlainBss([1]), PlainBss([2])], [PlainNetwork()], {1});
            Pick(s, [Entry([1], 1)]).0.Some? && Pick(s, []).0.None?
  {
    hide Fits, Pass, Build, Pick;
    var s := Scene(None, [PlainBss([1]), PlainBss([2])], [PlainNetwork()], {1});
    var bl := [Entry([1], 1)];
    PlainFits([1]);
    PlainFits([2]);
    PlainAccepts(s, bl);
    assert KnownLeader(s, bl, 1, 0);
    assert Candidate(s, [], 0, 0);
    forall j: nat, d: nat ensures !KnownLeader(s, [], j, d) {
      assert j == 1 && d == 0 ==> !NoWorse(s, 1, 0, 0, 0);
    }
    assert Uncovers(s, bl);
    PickNone(s, bl);
  }

  lemma PickNone(s: Scene, bl: seq<Entry>)
    requires Uncovers(s, bl)
    ensures Pick(s, bl).0.Some? && Pick(s, []).0.None?
  {
    hide Accepts, Pass, Build, Best, KnownLeader;
    PassIsBest(s, bl);
    PassIsBest(s, []);
  }

  lemma PlainAccepts(s: Scene, bl: seq<Entry>)
    requires s.networks == [PlainNetwork()] && s.modes == None && bl == [Entry([1], 1)]
    requires s.scan == [PlainBss([1]), PlainBss([2])]
    ensures !Candidate(s, bl, 0, 0) && Candidate(s, bl, 1, 0) && Candidate(s, [], 0, 0)
  {
    hide Fits;
    PlainFits([1]);
    PlainFits([2]);
    assert s.networks[..0] == [];
    assert Enabled(s.networks) == 1;
    assert [1][0] != [2][0];
    assert CountOf(bl, [1]) == 1 && CountOf(bl, [2]) == 0;
  }

  /** The code of wpa_supplicant_pick_network with the state it changes. */
  class Selector {
    const blacklist: BssidBlacklist
    var blacklistCleared: nat

    constructor (blacklist: BssidBlacklist)
      ensures this.blacklist == blacklist && blacklistCleared == 0
    {
      this.blacklist, blacklistCleared := blacklist, 0;
    }

    /** wpa_scan_res_match: the blacklist check, then the walk along the chain. */
    method ScanResMatch(s: Scene, r: ScanRes, chain: seq<Network>) returns (n: Option<Network>)
      requires Wellformed(blacklist.entries)
      ensures n == FirstMatch(s, blacklist.entries, r, chain)
    {
      hide Fits;
      ghost var bl := blacklist.entries;
      var e := blacklist.Get(r.bssid);
      var count := 0;
      if e < |blacklist.entries| {
        CountAt(bl, e);
        count := blacklist.entries[e].count;
        var limit := Limit(s.networks);
        if count > limit {
          RejectsAll(s, bl, r, chain);
          return None;
        }
      } else {
        CountZero(bl, r.bssid);
      }
      var k := 0;
      while k < |chain|
        invariant k <= |chain|
        invariant FirstMatch(s, bl, r, chain[..k]).None?
      {
        assert chain[..k + 1][..k] == chain[..k];
        if (Wps !in chain[k].keyMgmt || count == 0) && Fits(s.modes, r, chain[k]) {
          MatchStays(s, bl, r, chain, k + 1, |chain|);
          assert chain[..|chain|] == chain;
          return Some(chain[k]);
        }
        k := k + 1;
      }
      assert chain[..|chain|] == chain;
      return None;
    }

    /** wpa_supplicant_select_bss */
    method SelectFrom(s: Scene, chain: seq<Network>) returns (r: Option<(nat, Network)>)
      requires Wellformed(blacklist.entries)
      ensures r == SelectBss(s, blacklist.entries, chain)
    {
      hide FirstMatch;
      var i := 0;
      while i < |s.scan|
        invariant i <= |s.scan|
        invariant forall j | 0 <= j < i :: FirstMatch(s, blacklist.entries, s.scan[j], chain).None?
      {
        var n := ScanResMatch(s, s.scan[i], chain);
        if n.Some? {
          return if i in s.inTable then Some((i, n.value)) else None;
        }
        i := i + 1;
      }
      return None;
    }

    /** wpa_supplicant_pick_network. Every turn of the outer loop but the first clears the
        blacklist before it, so there are at most two. */
    method PickNetwork(s: Scene, pssid: seq<seq<Network>>) returns (r: Option<(nat, Network)>)
      requires Wellformed(blacklist.entries) && pssid == Build(s.networks)
      modifies this`blacklistCleared, blacklist
      ensures (r, blacklist.entries) == Pick(s, old(blacklist.entries))
      ensures blacklistCleared == old(blacklistCleared) + if blacklist.entries == old(blacklist.entries) then 0 else 1
    {
      hide SelectBss, Build;
      r := None;
      while r.None?
        invariant r.Some? ==> (r, blacklist.entries) == Pick(s, old(blacklist.entries))
        invariant r.None? ==> blacklist.entries == old(blacklist.entries)
                              || (blacklist.entries == [] && Pass(s, old(blacklist.entries), pssid, |pssid|).None?)
        invariant Wellformed(blacklist.entries)
        invariant blacklistCleared == old(blacklistCleared) + if blacklist.entries == old(blacklist.entries) then 0 else 1
        decreases if r.Some? then 0 else 1 + |blacklist.entries|
      {
        r := OneTurn(s, pssid);
        if r.None? {
          if blacklist.entries != [] {
            blacklist.Clear();
            blacklistCleared := blacklistCleared + 1;
          } else {
            break;
          }
        }
      }
    }

    /** The inner loop: chains in order until one has a selection. */
    method OneTurn(s: Scene, pssid: seq<seq<Network>>) returns (r: Option<(nat, Network)>)
      requires Wellformed(blacklist.entries)
      ensures r == Pass(s, blacklist.entries, pssid, |pssid|)
    {
      hide SelectBss;
      var prio := 0;
      while prio < |pssid|
        invariant prio <= |pssid|
        invariant Pass(s, blacklist.entries, pssid, prio).None?
      {
        r := SelectFrom(s, pssid[prio]);
        if r.Some? {
          PassStays(s, blacklist.entries, pssid, prio + 1, |pssid|);
          return;
        }
        prio := prio + 1;
      }
      return None;
    }
  }

  lemma {:induction false} MatchStays(s: Scene, bl: seq<Entry>, r: ScanRes, chain: seq<Network>, j: nat, k: nat)
    requires j <= k <= |chain| && FirstMatch(s, bl, r, chain[..j]).Some?
    ensures FirstMatch(s, bl, r, chain[..k]) == FirstMatch(s, bl, r, chain[..j])
  {
    hide Accepts;
    if j < k {
      MatchStays(s, bl, r, chain, j, k - 1);
      assert chain[..k][..k - 1] == chain[..k - 1];
    }
  }

  lemma {:induction false} RejectsAll(s: Scene, bl: seq<Entry>, r: ScanRes, chain: seq<Network>)
    requires CountOf(bl, r.bssid) > Limit(s.networks)
    ensures FirstMatch(s, bl, r, chain).None?
  {
    if chain != [] {
      RejectsAll(s, bl, r, chain[..|chain| - 1]);
    }
  }
}
