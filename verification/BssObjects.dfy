/** bss.c in its own form: lists that are searched, relinked and pruned in place. Every
    method is proved equal to the transition of module BssTable of the same purpose. */
module BssObjects {
  import opened Octets
  import opened HandleLists
  import opened BssTable

  /** The BSS table of struct wpa_supplicant. */
  class BssList {
    var store: map<nat, Entry>
    var main: seq<nat>
    var byId: seq<nat>
    var num: int
    var nextId: nat
    var updateIdx: nat
    var top: nat

    ghost function State(): Table
      reads this
    {
      Table(store, main, byId, num, nextId, updateIdx, top)
    }

    ghost predicate Valid()
      reads this
    {
      Inv(State())
    }

    /** wpa_bss_init */
    constructor ()
      ensures Valid() && State() == EMPTY
    {
      store, main, byId, num, nextId, updateIdx, top := map[], [], [], 0, 0, 0, 0;
    }

    /** Unlinking from a list. */
    method Unlinked(s: seq<nat>, h: nat) returns (r: seq<nat>)
      ensures r == Drop(s, h)
    {
      r := [];
      var i := 0;
      while i < |s|
        invariant i <= |s| && r == Drop(s[..i], h)
      {
        assert s[..i + 1][..i] == s[..i];
        if s[i] != h {
          r := r + [s[i]];
        }
        i := i + 1;
      }
      assert s[..i] == s;
    }

    /** wpa_bss_remove */
    method RemoveEntry(h: nat)
      requires Valid() && h in store
      modifies this
      ensures Valid() && State() == Remove(old(State()), h)
    {
      hide Inv, Drop;
      RemoveInv(State(), h);
      main := Unlinked(main, h);
      byId := Unlinked(byId, h);
      num := num - 1;
      store := store - {h};
    }

    /** wpa_bss_get */
    method Get(c: Conf, bssid: Bytes, ssid: Bytes) returns (found: bool, h: nat)
      requires Valid()
      ensures forall k | k in main :: k in store
      ensures found <==> PassesFilter(c, bssid) && Lookup(State(), main, bssid, ssid).0
      ensures found ==> h == Lookup(State(), main, bssid, ssid).1
    {
      if !PassesFilter(c, bssid) {
        return false, 0;
      }
      var i := 0;
      while i < |main|
        invariant i <= |main|
        invariant forall k | k in main[i..] :: k in store
        invariant Lookup(State(), main[i..], bssid, ssid) == Lookup(State(), main, bssid, ssid)
      {
        assert main[i] in main && main[i..][0] == main[i] && main[i..][1..] == main[i + 1..];
        if store[main[i]].bssid == bssid && store[main[i]].ssid == ssid {
          return true, main[i];
        }
        i := i + 1;
      }
      return false, 0;
    }

    /** wpa_bss_remove_oldest with wpa_bss_remove_oldest_unknown */
    method RemoveOldest(c: Conf)
      requires Valid() && main != []
      modifies this
      ensures Valid()
      ensures forall k | k in old(main) :: k in old(store)
      ensures State() == Remove(old(State()), Victim(old(State()), c, old(main)))
    {
      var h := main[0];
      var i := 0;
      while i < |main|
        modifies {}
        invariant i <= |main| && h == main[0]
        invariant forall k | 0 <= k < i :: Known(c, store[main[k]])
      {
        assert main[i] in main;
        if !Known(c, store[main[i]]) {
          break;
        }
        i := i + 1;
      }
      if i < |main| {
        FirstUnknownAt(State(), c, main, i);
        RemoveEntry(main[i]);
      } else {
        assert forall k | k in main :: Known(c, store[k]);
        RemoveEntry(h);
      }
    }

    /** wpa_bss_add up to the size check */
    method AppendEntry(ssid: Bytes, r: Res)
      requires Valid()
      modifies this
      ensures Valid() && State() == Grown(old(State()), ssid, r)
    {
      hide Inv;
      GrownInv(State(), ssid, r);
      var h := top;
      var e := Entry(nextId, 0, updateIdx, r.bssid, ssid, r.freq, r.updated, r.ies);
      nextId, top := nextId + 1, top + 1;
      store := store[h := e];
      main := main + [h];
      byId := byId + [h];
      num := num + 1;
    }

    /** wpa_bss_add */
    method AddEntry(c: Conf, ssid: Bytes, r: Res)
      requires Valid()
      modifies this
      ensures Valid()
      ensures forall k | k in old(main) :: k in old(store)
      ensures State() == Add(old(State()), c, ssid, r)
    {
      hide IdsRise, Recency, Distinct, Victim, Drop;
      AppendEntry(ssid, r);
      if num > c.maxCount {
        RemoveOldest(c);
      }
    }

    /** wpa_bss_update */
    method UpdateEntry(h: nat, r: Res)
      requires Valid() && h in store
      modifies this
      ensures Valid() && State() == Update(old(State()), h, r)
    {
      hide Inv, Drop, Swap;
      UpdateInv(State(), h, r);
      var e := store[h].(miss := 0, lastIdx := updateIdx, freq := r.freq, updated := r.updated, bssid := r.bssid);
      main := Unlinked(main, h);
      var h' := h;
      if e.ies < r.ies {
        h', top := top, top + 1;
        byId := Swap(byId, h, h');
      } else {
        SwapSame(byId, h);
      }
      store := (store - {h})[h' := e.(ies := r.ies)];
      main := main + [h'];
    }

    /** wpa_bss_update_start */
    method UpdateStart()
      requires Valid()
      modifies this`updateIdx
      ensures Valid() && State() == Start(old(State()))
    {
      updateIdx := updateIdx + 1;
    }

    /** wpa_bss_update_scan_res */
    method UpdateScanRes(c: Conf, r: Res)
      requires Valid()
      modifies this
      ensures Valid()
      ensures forall k | k in old(main) :: k in old(store)
      ensures State() == ScanRes(old(State()), c, r)
    {
      hide IdsRise, Recency, Distinct, Victim, Lookup, Update, Add;
      ScanResInv(State(), c, r);
      if r.ssid.None? || |r.ssid.value| > 32 || (r.p2p && r.ssid.value == P2P_WILDCARD) {
        return;
      }
      var found, h := Get(c, r.bssid, r.ssid.value);
      LookupFinds(State(), main, r.bssid, r.ssid.value);
      if found {
        UpdateEntry(h, r);
      } else {
        AddEntry(c, r.ssid.value, r);
      }
    }

    /** wpa_bss_update_end */
    method UpdateEnd(c: Conf, info: Option<Info>, newScan: bool)
      requires Valid()
      modifies this
      ensures Valid() && State() == End(old(State()), c, info, newScan)
    {
      hide Inv, EndOne;
      if !newScan {
        return;
      }
      ghost var s := State();
      var hs, i := main, 0;
      while i < |hs|
        invariant i <= |hs| && Valid()
        invariant State() == EndEach(s, c, info, hs[..i])
      {
        assert hs[..i + 1][..i] == hs[..i];
        EndEntry(c, info, hs[i]);
        i := i + 1;
      }
      assert hs[..i] == hs;
    }

    /** One entry of the loop of wpa_bss_update_end. */
    method EndEntry(c: Conf, info: Option<Info>, h: nat)
      requires Valid()
      modifies this
      ensures Valid() && State() == EndOne(old(State()), c, info, h)
    {
      hide Inv, Remove;
      EndOneInv(State(), c, info, h);
      if h !in store || InUse(c, h, store[h]) {
        return;
      }
      if !Covered(info, store[h]) {
        return;
      }
      var miss := store[h].miss;
      if store[h].lastIdx < updateIdx {
        miss := miss + 1;
      }
      if miss >= c.expireCount {
        RemoveEntry(h);
      } else {
        store := store[h := store[h].(miss := miss)];
      }
    }

    /** wpa_bss_flush_by_age; `before` is the current time less the age. */
    method FlushByAge(c: Conf, before: int)
      requires Valid()
      modifies this
      ensures Valid() && State() == FlushOld(old(State()), c, before, old(main))
    {
      hide Inv, Remove;
      ghost var s := State();
      var hs, i := main, 0;
      while i < |hs|
        invariant i <= |hs| && Valid()
        invariant FlushOld(State(), c, before, hs[i..]) == FlushOld(s, c, before, hs)
      {
        assert hs[i..][0] == hs[i] && hs[i..][1..] == hs[i + 1..];
        var h := hs[i];
        if h !in store {
          return;
        }
        if !InUse(c, h, store[h]) {
          if store[h].updated < before {
            RemoveEntry(h);
          } else {
            return;
          }
        }
        i := i + 1;
      }
    }

    /** wpa_bss_flush */
    method Flush(c: Conf)
      requires Valid()
      modifies this
      ensures Valid() && State() == FlushAll(old(State()), c, old(main))
    {
      hide Inv, Remove;
      ghost var s := State();
      var hs, i := main, 0;
      while i < |hs|
        invariant i <= |hs| && Valid()
        invariant FlushAll(State(), c, hs[i..]) == FlushAll(s, c, hs)
      {
        assert hs[i..][0] == hs[i] && hs[i..][1..] == hs[i + 1..];
        if hs[i] in store && !InUse(c, hs[i], store[hs[i]]) {
          RemoveEntry(hs[i]);
        }
        i := i + 1;
      }
    }
  }

  lemma SwapSame(s: seq<nat>, h: nat)
    ensures Swap(s, h, h) == s
  {
  }

  lemma {:induction false} FirstUnknownAt(t: Table, c: Conf, s: seq<nat>, i: nat)
    requires forall h | h in s :: h in t.store
    requires i < |s| && !Known(c, t.store[s[i]]) && forall k | 0 <= k < i :: Known(c, t.store[s[k]])
    ensures s[i] in s && FirstUnknown(t, c, s) == s[i]
  {
    if i > 0 {
      assert s[1..][i - 1] == s[i];
      FirstUnknownAt(t, c, s[1..], i - 1);
    }
  }
}
