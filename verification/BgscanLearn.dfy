/** Background scanning that learns (bgscan_learn.c): frequencies of known BSSs, the rotation
    over the other supported frequencies, and the neighbour table. */
module BgscanLearn {
  import opened Octets

  /** struct bgscan_learn_bss */
  datatype Bss = Bss(bssid: Bytes, freq: int, neigh: seq<Bytes>)

  // ---- Learned frequencies ----

  /** An array of integers that ends at its first zero. */
  function Visible(a: seq<int>): (v: seq<int>)
    ensures v <= a
    ensures 0 !in v
    ensures |v| < |a| ==> a[|v|] == 0
  {
    if a == [] || a[0] == 0 then [] else [a[0]] + Visible(a[1..])
  }

  /** in_array */
  predicate InArray(a: seq<int>, x: int)
  {
    x in Visible(a)
  }

  /** bgscan_learn_get_freqs */
  function Freqs(bss: seq<Bss>): seq<int>
  {
    if bss == [] then []
    else
      var a, f := Freqs(bss[..|bss| - 1]), bss[|bss| - 1].freq;
      if InArray(a, f) then a else a + [f]
  }

  predicate Learned(bss: seq<Bss>, f: int)
  {
    exists i | 0 <= i < |bss| :: bss[i].freq == f
  }

  predicate Once(a: seq<int>)
  {
    forall i, j | 0 <= i < j < |a| :: a[i] != a[j]
  }

  lemma {:induction false} VisibleAll(a: seq<int>)
    ensures 0 !in a ==> Visible(a) == a
  {
    if a != [] {
      VisibleAll(a[1..]);
      assert a == [a[0]] + a[1..];
    }
  }

  lemma LearnedSplit(bss: seq<Bss>, f: int)
    requires bss != []
    ensures Learned(bss, f) <==> Learned(bss[..|bss| - 1], f) || bss[|bss| - 1].freq == f
  {
    if Learned(bss, f) {
      var i :| 0 <= i < |bss| && bss[i].freq == f;
      assert i < |bss| - 1 ==> bss[..|bss| - 1][i].freq == f;
    }
    if Learned(bss[..|bss| - 1], f) {
      var i :| 0 <= i < |bss| - 1 && bss[..|bss| - 1][i].freq == f;
      assert bss[i].freq == f;
    }
  }

  lemma {:induction false} FreqsOnce(bss: seq<Bss>)
    requires !Learned(bss, 0)
    ensures Once(Freqs(bss)) && Visible(Freqs(bss)) == Freqs(bss)
    ensures forall f :: f in Freqs(bss) <==> Learned(bss, f)
  {
    hide Visible, Learned;
    if bss == [] {
      NothingLearned();
    } else {
      var front := bss[..|bss| - 1];
      LearnedSplit(bss, 0);
      FreqsOnce(front);
      forall f ensures f in Freqs(bss) <==> Learned(bss, f) {
        LearnedSplit(bss, f);
      }
      VisibleAll(Freqs(bss));
    }
  }

  lemma NothingLearned()
    ensures Visible([]) == []
    ensures forall f :: !Learned([], f)
  {
  }

  /** The list names every learned frequency exactly once if and only if no BSS is known with
      frequency 0, which would end the list early. */
  lemma EachLearnedOnceIff(bss: seq<Bss>)
    ensures (Once(Visible(Freqs(bss))) && forall f :: Learned(bss, f) <==> f in Visible(Freqs(bss))) <==> !Learned(bss, 0)
  {
    hide Freqs, Learned;
    if !Learned(bss, 0) {
      FreqsOnce(bss);
    }
  }

  // ---- Probing ----

  /** Supported frequencies: at least one, none of them 0. */
  predicate Supported(supp: seq<int>)
  {
    supp != [] && forall i | 0 <= i < |supp| :: supp[i] != 0
  }

  /** The supported frequency is not among the learned ones. */
  predicate New(supp: seq<int>, known: seq<int>, i: nat)
    requires i < |supp|
  {
    supp[i] !in known
  }

  /** The search loop of bgscan_learn_get_probe_freq: looking at an index, found one, or back
      at the index of the last probe. */
  datatype Search = At(idx: nat) | Found(idx: nat) | GaveUp

  /** The test and one turn of the loop. */
  function Turn(supp: seq<int>, known: seq<int>, p: nat, s: Search): (r: Search)
    requires supp != [] && (s.At? ==> s.idx <= |supp|) && (s.Found? ==> s.idx < |supp|)
    ensures (r.At? ==> r.idx <= |supp|) && (r.Found? ==> r.idx < |supp|)
  {
    if !s.At? then s
    else if s.idx == p then GaveUp
    else
      var i := if s.idx == |supp| then 0 else s.idx;
      if New(supp, known, i) then Found(i) else At(i + 1)
  }

  function Turns(supp: seq<int>, known: seq<int>, p: nat, k: nat): (r: Search)
    requires supp != [] && p < |supp|
    ensures (r.At? ==> r.idx <= |supp|) && (r.Found? ==> r.idx < |supp|)
  {
    if k == 0 then At(p + 1) else Turn(supp, known, p, Turns(supp, known, p, k - 1))
  }

  /** With the last probe at index 0 and every supported frequency learned, the loop runs
      forever. */
  lemma {:induction false} NeverEnds(supp: seq<int>, known: seq<int>, k: nat)
    requires supp != [] && forall i: nat | i < |supp| :: !New(supp, known, i)
    ensures Turns(supp, known, 0, k).At? && Turns(supp, known, 0, k).idx >= 1
  {
    hide New;
    if k > 0 {
      NeverEnds(supp, known, k - 1);
    }
  }

  /** The first new index in [i, hi), or hi. */
  function FirstNew(supp: seq<int>, known: seq<int>, i: nat, hi: nat): (j: nat)
    requires i <= hi <= |supp|
    ensures i <= j <= hi
    ensures j < hi ==> New(supp, known, j)
    ensures forall x: nat | i <= x < j :: !New(supp, known, x)
    decreases hi - i
  {
    if i == hi || New(supp, known, i) then i else FirstNew(supp, known, i + 1, hi)
  }

  /** What the search finds: the next new index, around the end of the array; the index of the
      last probe itself is looked at only if it is 0. */
  function NextProbe(supp: seq<int>, known: seq<int>, p: nat): (r: Option<nat>)
    requires p < |supp|
    ensures r.Some? ==> r.value < |supp| && New(supp, known, r.value)
  {
    var n, hi := |supp|, if p == 0 then 1 else p;
    var a := FirstNew(supp, known, p + 1, n);
    if a < n then Some(a)
    else
      var b := FirstNew(supp, known, 0, hi);
      if b < hi then Some(b) else None
  }

  lemma {:induction false} TurnsUp(supp: seq<int>, known: seq<int>, p: nat, k: nat, i: nat, j: nat)
    requires p < |supp| && i <= j <= |supp|
    requires Turns(supp, known, p, k) == At(i)
    requires !(i <= p < j) && forall x: nat | i <= x < j :: !New(supp, known, x)
    ensures Turns(supp, known, p, k + (j - i)) == At(j)
    decreases j - i
  {
    hide New;
    if i < j {
      assert Turns(supp, known, p, k + 1) == At(i + 1);
      TurnsUp(supp, known, p, k + 1, i + 1, j);
    }
  }

  /** From the wrap-around on. */
  lemma EndsBelow(supp: seq<int>, known: seq<int>, p: nat, k: nat)
    requires p < |supp| && Turns(supp, known, p, k) == At(|supp|)
    requires NextProbe(supp, known, p).Some? || p != 0
    requires forall x: nat | p < x < |supp| :: !New(supp, known, x)
    ensures exists t ::
      Turns(supp, known, p, t) == (match NextProbe(supp, known, p) case Some(i) => Found(i) case None => GaveUp)
  {
    hide New, FirstNew;
    var n, hi := |supp|, if p == 0 then 1 else p;
    assert FirstNew(supp, known, p + 1, n) == n;
    var b := FirstNew(supp, known, 0, hi);
    if b == 0 {
      assert Turns(supp, known, p, k + 1) == Found(0);
    } else {
      assert Turns(supp, known, p, k + 1) == At(1);
      TurnsUp(supp, known, p, k + 1, 1, b);
      assert Turns(supp, known, p, k + 1 + (b - 1) + 1) == if b == p then GaveUp else Found(b);
    }
  }

  /** In all other cases the loop ends, with the next new index if there is one. */
  lemma Ends(supp: seq<int>, known: seq<int>, p: nat)
    requires p < |supp|
    requires p != 0 || exists i: nat | i < |supp| :: New(supp, known, i)
    ensures exists t ::
      Turns(supp, known, p, t) == (match NextProbe(supp, known, p) case Some(i) => Found(i) case None => GaveUp)
  {
    hide New, FirstNew;
    var n := |supp|;
    var a := FirstNew(supp, known, p + 1, n);
    assert Turns(supp, known, p, 0) == At(p + 1);
    TurnsUp(supp, known, p, 0, p + 1, a);
    if a < n {
      assert Turns(supp, known, p, a - (p + 1) + 1) == Found(a);
    } else {
      EndsBelow(supp, known, p, a - (p + 1));
    }
  }

  // ---- Rotation ----

  /** The new indices below n, in order. */
  function NewBelow(supp: seq<int>, known: seq<int>, n: nat): (us: seq<nat>)
    requires n <= |supp|
    ensures forall i | 0 <= i < |us| :: us[i] < n && New(supp, known, us[i])
    ensures forall x: nat | x < n && New(supp, known, x) :: x in us
    ensures forall i, j | 0 <= i < j < |us| :: us[i] < us[j]
  {
    if n == 0 then []
    else NewBelow(supp, known, n - 1) + if New(supp, known, n - 1) then [n - 1] else []
  }

  function NewIndices(supp: seq<int>, known: seq<int>): seq<nat>
  {
    NewBelow(supp, known, |supp|)
  }

  /** The index of the k-th probe, all with the same learned frequencies. */
  function ProbeAt(supp: seq<int>, known: seq<int>, p: nat, k: nat): (r: nat)
    requires p < |supp|
    ensures r < |supp|
  {
    if k == 0 then p
    else
      var q := ProbeAt(supp, known, p, k - 1);
      match NextProbe(supp, known, q)
      case None => q
      case Some(i) => i
  }

  /** With two new indices or more there is always a next one, and it is another one. */
  lemma NextOfTwo(supp: seq<int>, known: seq<int>, p: nat)
    requires p < |supp| && |NewIndices(supp, known)| >= 2
    ensures NextProbe(supp, known, p).Some?
  {
    hide New, NewBelow, FirstNew;
    var us := NewIndices(supp, known);
    var u := if us[0] == p then us[1] else us[0];
    assert New(supp, known, u) && u != p && u < |supp|;
  }

  /** From the i-th new index the next one is the following, or the first after the last. */
  lemma NextIsFollowing(supp: seq<int>, known: seq<int>, i: nat)
    requires |NewIndices(supp, known)| >= 2 && i < |NewIndices(supp, known)|
    ensures var us := NewIndices(supp, known);
      NextProbe(supp, known, us[i]) == Some(us[if i + 1 == |us| then 0 else i + 1])
  {
    hide New, NewBelow, FirstNew;
    var us := NewIndices(supp, known);
    var p := us[i];
    var a := FirstNew(supp, known, p + 1, |supp|);
    if i + 1 < |us| {
      InBetween(supp, known, i, a);
    } else {
      NoneAbove(supp, known, a);
      var b := FirstNew(supp, known, 0, p);
      NoneBelow(supp, known, b);
    }
  }

  lemma InBetween(supp: seq<int>, known: seq<int>, i: nat, a: nat)
    requires var us := NewIndices(supp, known);
      && i + 1 < |us| && us[i] < a <= |supp|
      && (a < |supp| ==> New(supp, known, a)) && forall x: nat | us[i] < x < a :: !New(supp, known, x)
    ensures a == NewIndices(supp, known)[i + 1]
  {
    hide New, NewBelow;
    var us := NewIndices(supp, known);
    assert us[i + 1] >= a;
    if a < |supp| {
      var j :| 0 <= j < |us| && us[j] == a;
      assert j > i;
    }
  }

  lemma NoneAbove(supp: seq<int>, known: seq<int>, a: nat)
    requires var us := NewIndices(supp, known);
      us != [] && us[|us| - 1] < a <= |supp| && (a < |supp| ==> New(supp, known, a))
    ensures a == |supp|
  {
    hide New, NewBelow;
    var us := NewIndices(supp, known);
    assert a < |supp| ==> a in us;
  }

  lemma NoneBelow(supp: seq<int>, known: seq<int>, b: nat)
    requires var us := NewIndices(supp, known);
      && |us| >= 2 && b <= us[|us| - 1] && (b < us[|us| - 1] ==> New(supp, known, b))
      && forall x: nat | x < b :: !New(supp, known, x)
    ensures b == NewIndices(supp, known)[0] && b < NewIndices(supp, known)[|NewIndices(supp, known)| - 1]
  {
    hide New, NewBelow;
    var us := NewIndices(supp, known);
    assert us[0] >= b;
    if b < us[|us| - 1] {
      var j :| 0 <= j < |us| && us[j] == b;
      assert j >= 0;
    }
  }

  /** i steps on, around the end. */
  function Wrap(i: nat, m: nat): nat
    requires i < 2 * m
  {
    if i < m then i else i - m
  }

  lemma FirstIsNew(supp: seq<int>, known: seq<int>, p: nat) returns (i: nat)
    requires p < |supp| && |NewIndices(supp, known)| >= 2
    ensures i < |NewIndices(supp, known)| && ProbeAt(supp, known, p, 1) == NewIndices(supp, known)[i]
  {
    hide New, NewBelow, FirstNew, NextProbe;
    NextOfTwo(supp, known, p);
    assert ProbeAt(supp, known, p, 0) == p;
    var q := NextProbe(supp, known, p).value;
    assert q in NewIndices(supp, known);
    i :| i < |NewIndices(supp, known)| && NewIndices(supp, known)[i] == q;
  }

  lemma {:induction false} Rotation(supp: seq<int>, known: seq<int>, p: nat, i: nat, k: nat)
    requires p < |supp| && |NewIndices(supp, known)| >= 2
    requires i < |NewIndices(supp, known)| && ProbeAt(supp, known, p, 1) == NewIndices(supp, known)[i]
    requires k < |NewIndices(supp, known)|
    ensures ProbeAt(supp, known, p, k + 1) == NewIndices(supp, known)[Wrap(i + k, |NewIndices(supp, known)|)]
  {
    hide New, NewBelow, FirstNew, NextProbe;
    if k > 0 {
      Rotation(supp, known, p, i, k - 1);
      NextIsFollowing(supp, known, Wrap(i + k - 1, |NewIndices(supp, known)|));
    }
  }

  /** m scans in a row with the same m >= 2 new indices probe each of them exactly once. */
  lemma EachProbedOnce(supp: seq<int>, known: seq<int>, p: nat, u: nat)
    requires p < |supp| && |NewIndices(supp, known)| >= 2 && u in NewIndices(supp, known)
    ensures var m := |NewIndices(supp, known)|;
      exists k :: 1 <= k <= m && ProbeAt(supp, known, p, k) == u
        && forall l | 1 <= l <= m && ProbeAt(supp, known, p, l) == u :: l == k
  {
    hide NewIndices, ProbeAt;
    var us := NewIndices(supp, known);
    var m := |us|;
    Increasing(supp, known);
    var i := FirstIsNew(supp, known, p);
    var j :| 0 <= j < m && us[j] == u;
    var k := if j >= i then j - i else j + m - i;
    Rotation(supp, known, p, i, k);
    forall l | 1 <= l <= m && ProbeAt(supp, known, p, l) == u ensures l == k + 1 {
      Rotation(supp, known, p, i, l - 1);
      assert Wrap(i + (l - 1), m) == j;
    }
    assert ProbeAt(supp, known, p, k + 1) == u;
  }

  lemma Increasing(supp: seq<int>, known: seq<int>)
    ensures var us := NewIndices(supp, known); forall i, j | 0 <= i < j < |us| :: us[i] < us[j]
  {
  }

  /** No scan probes anything else: each probe is at a new index. */
  lemma ProbesAreNew(supp: seq<int>, known: seq<int>, p: nat, k: nat)
    requires p < |supp| && |NewIndices(supp, known)| >= 2 && k > 0
    ensures New(supp, known, ProbeAt(supp, known, p, k))
  {
    hide NextProbe;
    NextOfTwo(supp, known, ProbeAt(supp, known, p, k - 1));
  }

  // ---- Frequencies of a scan ----

  /** The frequencies of one background scan and the index of its probe. */
  function ScanFreqs(bss: seq<Bss>, supp: Option<seq<int>>, p: nat): (seq<int>, nat)
    requires supp.Some? ==> p < |supp.value|
  {
    var a := Freqs(bss);
    if supp.None? then (a, p)
    else
      match NextProbe(supp.value, Visible(a), p)
      case None => (a, p)
      case Some(i) => (a + [supp.value[i]], i)
  }

  /** With m >= 2 new frequencies a scan lists every learned frequency once, and one more
      that is supported and not learned. */
  lemma ScanLists(bss: seq<Bss>, supp: seq<int>, p: nat)
    requires Supported(supp) && p < |supp| && !Learned(bss, 0)
    requires |NewIndices(supp, Visible(Freqs(bss)))| >= 2
    ensures var (a, q) := ScanFreqs(bss, Some(supp), p);
      && q < |supp| && !Learned(bss, supp[q]) && Once(a) && Visible(a) == a
      && forall f :: f in a <==> Learned(bss, f) || f == supp[q]
  {
    hide Freqs, Learned, NewBelow, FirstNew, NextProbe, Visible;
    FreqsOnce(bss);
    NextOfTwo(supp, Visible(Freqs(bss)), p);
    var q := NextProbe(supp, Visible(Freqs(bss)), p).value;
    VisibleAll(Freqs(bss) + [supp[q]]);
  }

  // ---- Neighbour table ----

  /** A scan result for this network. */
  datatype Result = Result(bssid: Bytes, freq: int)

  const MAX_BSS: nat := 50

  /** BSSIDs of the first results, as many as there is room for. */
  function Near(rs: seq<Result>): (bs: seq<Bytes>)
    ensures |bs| == if |rs| < MAX_BSS then |rs| else MAX_BSS
    ensures forall i | 0 <= i < |bs| :: bs[i] == rs[i].bssid
  {
    if rs == [] then []
    else if |rs| > MAX_BSS then Near(rs[..|rs| - 1])
    else Near(rs[..|rs| - 1]) + [rs[|rs| - 1].bssid]
  }

  /** bgscan_learn_add_neighbor */
  function WithNeighbor(b: Bss, a: Bytes): Bss
  {
    if a == b.bssid || a in b.neigh then b else b.(neigh := b.neigh + [a])
  }

  function WithNeighbors(b: Bss, bs: seq<Bytes>): Bss
  {
    if bs == [] then b else WithNeighbor(WithNeighbors(b, bs[..|bs| - 1]), bs[|bs| - 1])
  }

  /** bgscan_learn_get_bss: index of the entry, or the number of entries */
  function Entry(bss: seq<Bss>, a: Bytes): (i: nat)
    ensures i <= |bss|
    ensures i < |bss| ==> bss[i].bssid == a
    ensures forall j | 0 <= j < i :: bss[j].bssid != a
  {
    if bss == [] || bss[0].bssid == a then 0 else 1 + Entry(bss[1..], a)
  }

  /** One matching scan result: update its entry or put a new one in front. */
  function LearnOne(bss: seq<Bss>, r: Result, near: seq<Bytes>): seq<Bss>
  {
    var i := Entry(bss, r.bssid);
    if i < |bss| then bss[i := WithNeighbors(bss[i].(freq := r.freq), near)]
    else [WithNeighbors(Bss(r.bssid, r.freq, []), near)] + bss
  }

  function LearnAll(bss: seq<Bss>, rs: seq<Result>, near: seq<Bytes>): seq<Bss>
  {
    if rs == [] then bss else LearnOne(LearnAll(bss, rs[..|rs| - 1], near), rs[|rs| - 1], near)
  }

  /** No neighbour twice, and no BSS its own neighbour. */
  predicate NeighOk(b: Bss)
  {
    b.bssid !in b.neigh && forall i, j | 0 <= i < j < |b.neigh| :: b.neigh[i] != b.neigh[j]
  }

  predicate TableOk(bss: seq<Bss>)
  {
    && (forall i | 0 <= i < |bss| :: NeighOk(bss[i]))
    && (forall i, j | 0 <= i < j < |bss| :: bss[i].bssid != bss[j].bssid)
  }

  lemma {:induction false} WithNeighborsOk(b: Bss, bs: seq<Bytes>)
    requires NeighOk(b)
    ensures var c := WithNeighbors(b, bs);
      && NeighOk(c) && c.bssid == b.bssid && c.freq == b.freq
      && (forall a | a in c.neigh :: a in b.neigh || a in bs)
      && (forall a | a in b.neigh :: a in c.neigh)
      && (forall a | a in bs && a != b.bssid :: a in c.neigh)
  {
    if bs != [] {
      WithNeighborsOk(b, bs[..|bs| - 1]);
      assert bs == bs[..|bs| - 1] + [bs[|bs| - 1]];
    }
  }

  /** The table has an entry for the BSS with this frequency and all these neighbours. */
  predicate Knows(bss: seq<Bss>, r: Result, near: seq<Bytes>)
  {
    exists i | 0 <= i < |bss| ::
      bss[i].bssid == r.bssid && bss[i].freq == r.freq && forall a | a in near && a != r.bssid :: a in bss[i].neigh
  }

  lemma LearnOneKeeps(bss: seq<Bss>, r: Result, near: seq<Bytes>)
    requires TableOk(bss)
    ensures TableOk(LearnOne(bss, r, near)) && Knows(LearnOne(bss, r, near), r, near)
  {
    hide Entry, WithNeighbors, NeighOk;
    var i, next := Entry(bss, r.bssid), LearnOne(bss, r, near);
    if i < |bss| {
      FreqOk(bss[i], r.freq);
      WithNeighborsOk(bss[i].(freq := r.freq), near);
      assert next[i].bssid == r.bssid;
    } else {
      NewOk(r);
      WithNeighborsOk(Bss(r.bssid, r.freq, []), near);
      assert next[0].bssid == r.bssid;
    }
  }

  lemma FreqOk(b: Bss, f: int)
    requires NeighOk(b)
    ensures NeighOk(b.(freq := f))
  {
  }

  lemma NewOk(r: Result)
    ensures NeighOk(Bss(r.bssid, r.freq, []))
  {
  }

  /** Entries of other BSSs stay as they are. */
  lemma LearnOneFrame(bss: seq<Bss>, r: Result, near: seq<Bytes>, q: Result)
    requires TableOk(bss) && Knows(bss, q, near) && q.bssid != r.bssid
    ensures Knows(LearnOne(bss, r, near), q, near)
  {
    hide Entry, WithNeighbors, NeighOk;
    var i, next := Entry(bss, r.bssid), LearnOne(bss, r, near);
    var j :| 0 <= j < |bss| && bss[j].bssid == q.bssid && bss[j].freq == q.freq
      && forall a | a in near && a != q.bssid :: a in bss[j].neigh;
    assert i < |bss| ==> next[j] == bss[j];
    assert i == |bss| ==> next[j + 1] == bss[j];
  }

  /** After a scan every BSS in it is known with its last frequency and all neighbours. */
  lemma {:induction false} ScanIsLearned(bss: seq<Bss>, rs: seq<Result>, near: seq<Bytes>)
    requires TableOk(bss)
    ensures TableOk(LearnAll(bss, rs, near))
    ensures forall i | 0 <= i < |rs| && (forall j | i < j < |rs| :: rs[j].bssid != rs[i].bssid) ::
      Knows(LearnAll(bss, rs, near), rs[i], near)
  {
    hide LearnOne, Knows, TableOk;
    if rs != [] {
      var n := |rs| - 1;
      var front := rs[..n];
      ScanIsLearned(bss, front, near);
      LearnOneKeeps(LearnAll(bss, front, near), rs[n], near);
      forall i | 0 <= i < |rs| && (forall j | i < j < |rs| :: rs[j].bssid != rs[i].bssid)
        ensures Knows(LearnAll(bss, rs, near), rs[i], near)
      {
        if i < n {
          assert rs[i] == front[i];
          assert forall j | i < j < n :: front[j] == rs[j];
          LearnOneFrame(LearnAll(bss, front, near), rs[n], near, rs[i]);
        }
      }
    }
  }

  /** Entries of BSSs that are not in the scan stay as they are. */
  lemma {:induction false} OthersStay(bss: seq<Bss>, rs: seq<Result>, near: seq<Bytes>, b: Bss)
    requires forall i | 0 <= i < |rs| :: rs[i].bssid != b.bssid
    ensures b in bss <==> b in LearnAll(bss, rs, near)
  {
    hide WithNeighbors, Entry;
    if rs != [] {
      var n := |rs| - 1;
      OthersStay(bss, rs[..n], near, b);
      var t := LearnAll(bss, rs[..n], near);
      OtherStays(t, rs[n], near, b);
    }
  }

  lemma OtherStays(t: seq<Bss>, r: Result, near: seq<Bytes>, b: Bss)
    requires r.bssid != b.bssid
    ensures b in t <==> b in LearnOne(t, r, near)
  {
    hide WithNeighbors, Entry;
    var i, next := Entry(t, r.bssid), LearnOne(t, r, near);
    NeighborsKeepId(if i < |t| then t[i].(freq := r.freq) else Bss(r.bssid, r.freq, []), near);
    if i < |t| {
      if b in t {
        var j :| 0 <= j < |t| && t[j] == b;
        assert next[j] == b;
      }
      if b in next {
        var j :| 0 <= j < |t| && next[j] == b;
        assert t[j] == b;
      }
    }
  }

  lemma {:induction false} NeighborsKeepId(b: Bss, bs: seq<Bytes>)
    ensures WithNeighbors(b, bs).bssid == b.bssid
  {
    if bs != [] {
      NeighborsKeepId(b, bs[..|bs| - 1]);
    }
  }

  /** Neighbours come from the scan: whatever is new in the list of an entry was near. */
  lemma {:induction false} NeighborsFromScan(bss: seq<Bss>, rs: seq<Result>, near: seq<Bytes>)
    requires TableOk(bss)
    ensures forall b, a | b in LearnAll(bss, rs, near) && a in b.neigh :: a in near || exists c | c in bss :: c.bssid == b.bssid && a in c.neigh
  {
    hide LearnOne, TableOk;
    if rs != [] {
      var n := |rs| - 1;
      NeighborsFromScan(bss, rs[..n], near);
      var t := LearnAll(bss, rs[..n], near);
      ScanIsLearned(bss, rs[..n], near);
      forall b, a | b in LearnAll(bss, rs, near) && a in b.neigh
        ensures a in near || exists c | c in bss :: c.bssid == b.bssid && a in c.neigh
      {
        OneFromScan(t, rs[n], near, b, a);
      }
    }
  }

  lemma OneFromScan(t: seq<Bss>, r: Result, near: seq<Bytes>, b: Bss, a: Bytes)
    requires TableOk(t) && b in LearnOne(t, r, near) && a in b.neigh
    ensures a in near || exists c | c in t :: c.bssid == b.bssid && a in c.neigh
  {
    hide WithNeighbors, Entry, NeighOk;
    var i, next := Entry(t, r.bssid), LearnOne(t, r, near);
    var j :| 0 <= j < |next| && next[j] == b;
    if i < |t| {
      FreqOk(t[i], r.freq);
      WithNeighborsOk(t[i].(freq := r.freq), near);
      assert t[i] in t && t[j] in t;
    } else {
      NewOk(r);
      WithNeighborsOk(Bss(r.bssid, r.freq, []), near);
      assert j > 0 ==> next[j] == t[j - 1] && t[j - 1] in t;
    }
  }
}
