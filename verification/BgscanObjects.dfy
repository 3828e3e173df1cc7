/** struct bgscan_learn_data and its loops. */
module BgscanObjects {
  import opened Octets
  import opened BgscanLearn

  class LearnData {
    var bss: seq<Bss>
    var supp: Option<seq<int>>
    var probeIdx: nat

    constructor (channels: seq<int>)
      requires forall i | 0 <= i < |channels| :: channels[i] != 0
      ensures Valid() && bss == [] && probeIdx == 0
      ensures supp == if channels == [] then None else Some(channels)
    {
      bss := [];
      supp := if channels == [] then None else Some(channels);
      probeIdx := 0;
    }

    predicate Valid()
      reads this
    {
      TableOk(bss) && (supp.Some? ==> Supported(supp.value) && probeIdx < |supp.value|)
    }

    /** bgscan_learn_get_freqs */
    method GetFreqs() returns (freqs: seq<int>)
      ensures freqs == Freqs(bss)
    {
      freqs := [];
      var i: nat := 0;
      while i < |bss|
        invariant i <= |bss| && freqs == Freqs(bss[..i])
      {
        assert bss[..i + 1][..i] == bss[..i];
        if !InArray(freqs, bss[i].freq) {
          freqs := freqs + [bss[i].freq];
        }
        i := i + 1;
      }
      assert bss[..|bss|] == bss;
    }

    /** The first `turns` turns of bgscan_learn_get_probe_freq. It has ended then with the next
        new frequency and its index remembered, or without one; or it is still searching,
        which BgscanLearn.Ends and BgscanLearn.NeverEnds are about. */
    method GetProbeFreq(freqs: seq<int>, turns: nat) returns (r: seq<int>, ended: bool)
      requires Valid()
      modifies this`probeIdx
      ensures Valid()
      ensures supp.None? ==> ended && r == freqs && probeIdx == old(probeIdx)
      ensures supp.Some? ==>
        match Turns(supp.value, Visible(freqs), old(probeIdx), turns)
        case At(_) => !ended && r == freqs && probeIdx == old(probeIdx)
        case Found(i) => ended && r == freqs + [supp.value[i]] && probeIdx == i
        case GaveUp => ended && r == freqs && probeIdx == old(probeIdx)
    {
      hide TableOk, New, Visible;
      if supp.None? {
        return freqs, true;
      }
      var s, known, p := supp.value, Visible(freqs), probeIdx;
      var idx: nat, t: nat := p + 1, 0;
      while t < turns
        invariant t <= turns && idx <= |s| && probeIdx == p
        invariant Turns(s, known, p, t) == At(idx)
      {
        if idx == p {
          Settled(s, known, p, t + 1, turns);
          return freqs, true;
        }
        if idx == |s| {
          idx := 0;
        }
        if New(s, known, idx) {
          Settled(s, known, p, t + 1, turns);
          probeIdx := idx;
          return freqs + [s[idx]], true;
        }
        idx, t := idx + 1, t + 1;
      }
      return freqs, false;
    }

    /** bgscan_learn_notify_scan, for the results of this network */
    method NotifyScan(rs: seq<Result>)
      requires Valid()
      modifies this`bss
      ensures Valid() && bss == LearnAll(old(bss), rs, Near(rs))
    {
      hide TableOk, LearnOne;
      var near := Near(rs);
      var i: nat := 0;
      while i < |rs|
        invariant i <= |rs| && bss == LearnAll(old(bss), rs[..i], near)
        invariant TableOk(bss)
      {
        assert rs[..i + 1][..i] == rs[..i];
        LearnOneKeeps(bss, rs[i], near);
        LearnResult(rs[i], near);
        i := i + 1;
      }
      assert rs[..|rs|] == rs;
    }

    method LearnResult(r: Result, near: seq<Bytes>)
      modifies this`bss
      ensures bss == LearnOne(old(bss), r, near)
    {
      hide WithNeighbor;
      var at := Entry(bss, r.bssid);
      var b := if at < |bss| then bss[at].(freq := r.freq) else Bss(r.bssid, r.freq, []);
      var j: nat := 0;
      ghost var start := b;
      while j < |near|
        invariant j <= |near| && b == WithNeighbors(start, near[..j])
      {
        assert near[..j + 1][..j] == near[..j];
        b := WithNeighbor(b, near[j]);
        j := j + 1;
      }
      assert near[..|near|] == near;
      bss := if at < |bss| then bss[at := b] else [b] + bss;
    }
  }

  /** Once the search has ended, more turns change nothing. */
  lemma {:induction false} Settled(s: seq<int>, known: seq<int>, p: nat, k: nat, t: nat)
    requires s != [] && p < |s| && k <= t && !Turns(s, known, p, k).At?
    ensures Turns(s, known, p, t) == Turns(s, known, p, k)
    decreases t - k
  {
    hide New;
    if k < t {
      Settled(s, known, p, k, t - 1);
    }
  }
}
