/** The per-priority index of the network list: one chain per priority, highest first. */
module PriorityIndex {
  import opened Octets
  import opened Networks

  /** The priority of a chain is that of its head; chains are never empty. */
  function Level(g: seq<Network>): int
  {
    if g == [] then 0 else g[0].priority
  }

  /** The chain for this priority, or the number of chains. */
  function ChainFor(groups: seq<seq<Network>>, p: int): (k: nat)
    ensures k <= |groups|
    ensures k < |groups| ==> Level(groups[k]) == p
    ensures forall j | 0 <= j < k :: Level(groups[j]) != p
  {
    if groups == [] then 0 else if Level(groups[0]) == p then 0 else 1 + ChainFor(groups[1..], p)
  }

  /** The first chain of a lower priority, or the number of chains. */
  function FirstBelow(groups: seq<seq<Network>>, p: int): (k: nat)
    ensures k <= |groups|
    ensures k < |groups| ==> Level(groups[k]) < p
    ensures forall j | 0 <= j < k :: Level(groups[j]) >= p
  {
    if groups == [] then 0 else if Level(groups[0]) < p then 0 else 1 + FirstBelow(groups[1..], p)
  }

  /** wpa_config_add_prio_network */
  function AddPrio(groups: seq<seq<Network>>, n: Network): seq<seq<Network>>
  {
    var k := ChainFor(groups, n.priority);
    if k < |groups| then groups[k := groups[k] + [n]]
    else
      var p := FirstBelow(groups, n.priority);
      groups[..p] + [[n]] + groups[p..]
  }

  /** The index built by adding the networks one after the other, which is what both the
      configuration reader and wpa_config_update_prio_list do. */
  function Build(ns: seq<Network>): seq<seq<Network>>
  {
    if ns == [] then [] else AddPrio(Build(ns[..|ns| - 1]), ns[|ns| - 1])
  }

  // ---- What the index is ----

  /** No chain is empty, and chain priorities strictly decrease. */
  predicate Descending(groups: seq<seq<Network>>)
  {
    && (forall k | 0 <= k < |groups| :: groups[k] != [])
    && (forall j, k | 0 <= j < k < |groups| :: Level(groups[j]) > Level(groups[k]))
  }

  /** Each chain is the list of the networks of its priority, in configuration order. */
  ghost predicate ChainsOf(groups: seq<seq<Network>>, ns: seq<Network>)
  {
    forall k | 0 <= k < |groups| :: groups[k] == WithPriority(ns, Level(groups[k]))
  }

  /** Every priority in use has a chain. */
  ghost predicate Covers(groups: seq<seq<Network>>, ns: seq<Network>)
  {
    forall n | n in ns :: ChainFor(groups, n.priority) < |groups|
  }

  lemma {:induction false} WithPrioritySnoc(ns: seq<Network>, n: Network, p: int)
    ensures WithPriority(ns + [n], p) == WithPriority(ns, p) + if n.priority == p then [n] else []
  {
    assert (ns + [n])[..|ns|] == ns;
  }

  lemma HasChain(groups: seq<seq<Network>>, k: nat)
    requires k < |groups|
    ensures ChainFor(groups, Level(groups[k])) < |groups|
  {
  }

  /** Where the network goes: into the chain of its priority or in front of the first
      chain of a lower one. */
  function Home(groups: seq<seq<Network>>, n: Network): nat
  {
    var k := ChainFor(groups, n.priority);
    if k < |groups| then k else FirstBelow(groups, n.priority)
  }

  /** The chain of the old index that is chain j of the new one; h is the new network's. */
  function Before(groups: seq<seq<Network>>, n: Network, j: nat): nat
    requires j != Home(groups, n)
  {
    if ChainFor(groups, n.priority) == |groups| && j > Home(groups, n) then j - 1 else j
  }

  lemma AddPrioElements(groups: seq<seq<Network>>, n: Network)
    ensures var r, h, isNew := AddPrio(groups, n), Home(groups, n), ChainFor(groups, n.priority) == |groups|;
            && |r| == |groups| + (if isNew then 1 else 0)
            && h < |r|
            && r[h] == (if isNew then [] else groups[h]) + [n]
            && forall j {:trigger r[j]} | 0 <= j < |r| && j != h ::
                 Before(groups, n, j) < |groups| && r[j] == groups[Before(groups, n, j)]
  {
    var r, h := AddPrio(groups, n), Home(groups, n);
    if ChainFor(groups, n.priority) == |groups| {
      assert r == groups[..h] + [[n]] + groups[h..];
      forall j | 0 <= j < |r| && j != h
        ensures Before(groups, n, j) < |groups| && r[j] == groups[Before(groups, n, j)]
      {
        assert j < h ==> r[j] == groups[..h][j];
        assert j > h ==> r[j] == groups[h..][j - 1 - h];
      }
    } else {
      forall j | 0 <= j < |r| && j != h
        ensures Before(groups, n, j) < |groups| && r[j] == groups[Before(groups, n, j)]
      {
        assert Before(groups, n, j) == j;
      }
    }
  }

  lemma AddPrioDescends(groups: seq<seq<Network>>, n: Network)
    requires Descending(groups)
    ensures Descending(AddPrio(groups, n))
    ensures Level(AddPrio(groups, n)[Home(groups, n)]) == n.priority
  {
    AddPrioElements(groups, n);
    hide AddPrio, ChainFor, FirstBelow;
    var r, h := AddPrio(groups, n), Home(groups, n);
    var isNew := ChainFor(groups, n.priority) == |groups|;
    assert Level(r[h]) == n.priority;
    forall j, k | 0 <= j < k < |r| ensures Level(r[j]) > Level(r[k]) {
      if isNew && j != h {
        var b := Before(groups, n, j);
        assert j < h ==> Level(groups[b]) > n.priority;
      }
      if isNew && k != h && k > h {
        var b := Before(groups, n, k);
        assert Level(groups[b]) <= Level(groups[h]) < n.priority;
      }
    }
  }

  lemma AddPrioChains(groups: seq<seq<Network>>, ns: seq<Network>, n: Network)
    requires Descending(groups) && ChainsOf(groups, ns) && Covers(groups, ns)
    ensures ChainsOf(AddPrio(groups, n), ns + [n])
  {
    AddPrioDescends(groups, n);
    AddPrioElements(groups, n);
    hide WithPriority, AddPrio, ChainFor, FirstBelow;
    var r, h := AddPrio(groups, n), Home(groups, n);
    forall j | 0 <= j < |r| ensures r[j] == WithPriority(ns + [n], Level(r[j])) {
      WithPrioritySnoc(ns, n, Level(r[j]));
      if j != h {
        assert Level(r[j]) != Level(r[h]);
        assert r[j] == groups[Before(groups, n, j)];
      } else if ChainFor(groups, n.priority) == |groups| {
        NoneWith(groups, ns, n.priority);
      }
    }
  }

  lemma AddPrioCovers(groups: seq<seq<Network>>, ns: seq<Network>, n: Network)
    requires Descending(groups) && Covers(groups, ns)
    ensures Covers(AddPrio(groups, n), ns + [n])
  {
    AddPrioElements(groups, n);
    hide AddPrio, ChainFor, FirstBelow;
    var r, h := AddPrio(groups, n), Home(groups, n);
    var isNew := ChainFor(groups, n.priority) == |groups|;
    forall m | m in ns + [n] ensures ChainFor(r, m.priority) < |r| {
      if m in ns && m.priority != n.priority {
        var c := ChainFor(groups, m.priority);
        var j := if isNew && c >= h then c + 1 else c;
        assert Before(groups, n, j) == c && r[j] == groups[c];
        HasChain(r, j);
      } else {
        AddPrioDescends(groups, n);
        HasChain(r, h);
      }
    }
  }

  lemma NoneWith(groups: seq<seq<Network>>, ns: seq<Network>, p: int)
    requires Covers(groups, ns) && ChainFor(groups, p) == |groups|
    ensures WithPriority(ns, p) == []
  {
    var ms := WithPriority(ns, p);
    if ms != [] {
      WithPriorityHas(ns, p, ms[0]);
      assert false;
    }
  }

  /** Whatever networks are configured: chain heads strictly decrease in priority, each
      chain holds exactly the networks of its priority in configuration order, and every
      priority in use has its chain. */
  lemma {:induction false} BuildPartitions(ns: seq<Network>)
    ensures Descending(Build(ns)) && ChainsOf(Build(ns), ns) && Covers(Build(ns), ns)
  {
    if ns != [] {
      var init, n := ns[..|ns| - 1], ns[|ns| - 1];
      assert ns == init + [n];
      BuildPartitions(init);
      AddPrioDescends(Build(init), n);
      AddPrioChains(Build(init), init, n);
      AddPrioCovers(Build(init), init, n);
    }
  }

  // ---- The chains read one after the other ----

  function Concat(groups: seq<seq<Network>>): seq<Network>
  {
    if groups == [] then [] else Concat(groups[..|groups| - 1]) + groups[|groups| - 1]
  }

  predicate SortedDown(ns: seq<Network>)
  {
    forall i, j | 0 <= i < j < |ns| :: ns[i].priority >= ns[j].priority
  }

  /** A stable sort by descending priority: in order, and the networks of each priority
      are those of the original list in their original order. */
  ghost predicate IsStableSort(sorted: seq<Network>, ns: seq<Network>)
  {
    SortedDown(sorted) && forall p :: WithPriority(sorted, p) == WithPriority(ns, p)
  }

  lemma {:induction false} WithPriorityConcat(a: seq<Network>, b: seq<Network>, p: int)
    ensures WithPriority(a + b, p) == WithPriority(a, p) + WithPriority(b, p)
  {
    if b == [] {
      assert a + b == a;
    } else {
      var n := |b| - 1;
      WithPriorityConcat(a, b[..n], p);
      assert (a + b)[..|a + b| - 1] == a + b[..n];
    }
  }

  lemma {:induction false} WithPriorityUniform(g: seq<Network>, p: int, q: int)
    requires forall n | n in g :: n.priority == p
    ensures WithPriority(g, q) == if p == q then g else []
  {
    if g != [] {
      var init := g[..|g| - 1];
      assert g == init + [g[|g| - 1]];
      WithPriorityUniform(init, p, q);
    }
  }

  lemma ChainUniform(groups: seq<seq<Network>>, ns: seq<Network>, k: nat)
    requires ChainsOf(groups, ns) && k < |groups|
    ensures forall n | n in groups[k] :: n.priority == Level(groups[k])
  {
    forall n | n in groups[k] ensures n.priority == Level(groups[k]) {
      WithPriorityHas(ns, Level(groups[k]), n);
    }
  }

  /** Reading the first k chains gives, for a priority, its chain if it is among them. */
  lemma {:induction false} ConcatFilters(groups: seq<seq<Network>>, ns: seq<Network>, k: nat, p: int)
    requires Descending(groups) && ChainsOf(groups, ns) && k <= |groups|
    ensures WithPriority(Concat(groups[..k]), p) ==
              if ChainFor(groups, p) < k then WithPriority(ns, p) else []
  {
    if k > 0 {
      ConcatFilters(groups, ns, k - 1, p);
      assert groups[..k][..k - 1] == groups[..k - 1];
      var g := groups[k - 1];
      WithPriorityConcat(Concat(groups[..k - 1]), g, p);
      ChainUniform(groups, ns, k - 1);
      WithPriorityUniform(g, Level(g), p);
      assert ChainFor(groups, p) == k - 1 ==> Level(g) == p;
      assert Level(g) == p ==> ChainFor(groups, p) == k - 1 by {
        assert forall j | 0 <= j < k - 1 :: Level(groups[j]) > Level(g);
      }
    }
  }

  lemma {:induction false} ConcatSorted(groups: seq<seq<Network>>, ns: seq<Network>, k: nat)
    requires Descending(groups) && ChainsOf(groups, ns) && k <= |groups|
    ensures SortedDown(Concat(groups[..k]))
    ensures forall n | n in Concat(groups[..k]) :: k > 0 && n.priority >= Level(groups[k - 1])
  {
    if k > 0 {
      ConcatSorted(groups, ns, k - 1);
      assert groups[..k][..k - 1] == groups[..k - 1];
      ChainUniform(groups, ns, k - 1);
      var a, g := Concat(groups[..k - 1]), groups[k - 1];
      assert Concat(groups[..k]) == a + g;
      assert k > 1 ==> Level(groups[k - 2]) > Level(g);
      forall i, j | 0 <= i < j < |a + g| ensures (a + g)[i].priority >= (a + g)[j].priority {
        if i < |a| {
          assert a[i] in a;
        } else {
          assert g[i - |a|] in g;
        }
        if j >= |a| {
          assert g[j - |a|] in g;
        }
      }
    }
  }

  /** Concatenating the chains gives the stable sort of the network list by descending
      priority: the only list with that property, and a permutation of the networks. */
  lemma IndexIsStableSort(ns: seq<Network>, other: seq<Network>)
    ensures IsStableSort(Concat(Build(ns)), ns)
    ensures multiset(Concat(Build(ns))) == multiset(ns)
    ensures IsStableSort(other, ns) ==> other == Concat(Build(ns))
  {
    var groups := Build(ns);
    BuildPartitions(ns);
    assert groups[..|groups|] == groups;
    ConcatSorted(groups, ns, |groups|);
    forall p ensures WithPriority(Concat(groups), p) == WithPriority(ns, p) {
      ConcatFilters(groups, ns, |groups|, p);
      if ChainFor(groups, p) == |groups| {
        NoneWith(groups, ns, p);
      }
    }
    SamePrioritiesSameNetworks(Concat(groups), ns);
    if IsStableSort(other, ns) {
      StableSortUnique(other, Concat(groups));
    }
  }

  lemma {:induction false} CountInPriority(ns: seq<Network>, n: Network)
    ensures multiset(ns)[n] == multiset(WithPriority(ns, n.priority))[n]
  {
    if ns != [] {
      CountInPriority(ns[..|ns| - 1], n);
      assert ns == ns[..|ns| - 1] + [ns[|ns| - 1]];
    }
  }

  lemma SamePrioritiesSameNetworks(a: seq<Network>, b: seq<Network>)
    requires forall p :: WithPriority(a, p) == WithPriority(b, p)
    ensures multiset(a) == multiset(b)
  {
    forall n ensures multiset(a)[n] == multiset(b)[n] {
      CountInPriority(a, n);
      CountInPriority(b, n);
      assert WithPriority(a, n.priority) == WithPriority(b, n.priority);
    }
  }

  lemma {:induction false} StableSortUnique(a: seq<Network>, b: seq<Network>)
    requires SortedDown(a) && SortedDown(b)
    requires forall p :: WithPriority(a, p) == WithPriority(b, p)
    ensures a == b
  {
    SamePrioritiesSameNetworks(a, b);
    if a != [] {
      assert |multiset(a)| == |multiset(b)|;
      var a', x, b', y := a[..|a| - 1], a[|a| - 1], b[..|b| - 1], b[|b| - 1];
      LastIsLowest(a, b);
      LastIsLowest(b, a);
      var p := x.priority;
      assert WithPriority(a', p) + [x] == WithPriority(a, p) == WithPriority(b, p) == WithPriority(b', p) + [y];
      assert (WithPriority(a', p) + [x])[|WithPriority(a', p)|] == x;
      assert x == y;
      forall q ensures WithPriority(a', q) == WithPriority(b', q) {
        assert WithPriority(a, q) == WithPriority(b, q);
        var tail := if x.priority == q then [x] else [];
        SameTail(WithPriority(a', q), WithPriority(b', q), tail);
      }
      StableSortUnique(a', b');
      assert a == a' + [x] && b == b' + [y];
    }
  }

  lemma SameTail(a: seq<Network>, b: seq<Network>, tail: seq<Network>)
    requires a + tail == b + tail
    ensures a == b
  {
    assert |a| == |b|;
    assert a == (a + tail)[..|a|] && b == (b + tail)[..|b|];
  }

  lemma LastIsLowest(a: seq<Network>, b: seq<Network>)
    requires a != [] && SortedDown(a) && multiset(a) == multiset(b) && b != []
    ensures a[|a| - 1].priority <= b[|b| - 1].priority
  {
    var y := b[|b| - 1];
    assert y in multiset(b);
    assert y in a;
  }
}
