/** The BSS table: one list in order of recency and one in order of id over the same
    entries, with a size limit and expiry of entries that scans keep missing. Entries are
    referred to by handles, which stand for their addresses; growing an entry moves it to
    a new address. */
module BssTable {
  import opened Octets
  import opened HandleLists

  /** The fields of struct wpa_bss the table itself works with; `ies` counts the octets of
      information elements there is room for, `updated` is the time of the last update. */
  datatype Entry = Entry(
    id: nat, miss: nat, lastIdx: nat, bssid: Bytes, ssid: Bytes, freq: int, updated: int, ies: nat)

  /** num_bss, bss_next_id and bss_update_idx are numNext and so on; `top` bounds the
      handles in use. */
  datatype Table = Table(
    store: map<nat, Entry>, main: seq<nat>, byId: seq<nat>,
    num: int, nextId: nat, updateIdx: nat, top: nat)

  /** What the table depends on besides itself: the limits, the configured SSIDs, the BSSID
      filter, and which BSS is in use. */
  datatype Conf = Conf(
    maxCount: nat, expireCount: nat, configured: set<Bytes>, filter: Option<set<Bytes>>,
    current: Option<nat>, bssid: Bytes, pendingBssid: Bytes)

  /** A scan result; `ssid` is None without an SSID element. */
  datatype Res = Res(bssid: Bytes, ssid: Option<Bytes>, p2p: bool, freq: int, updated: int, ies: nat)

  /** What a scan covered: empty lists mean everything. */
  datatype Info = Info(freqs: seq<int>, ssids: seq<Bytes>)

  const EMPTY := Table(map[], [], [], 0, 0, 0, 0)

  /** "DIRECT-", the SSID of P2P discovery results. */
  const P2P_WILDCARD: Bytes := [68, 73, 82, 69, 67, 84, 45]

  // ---- Lookups ----

  predicate PassesFilter(c: Conf, bssid: Bytes)
  {
    c.filter.None? || bssid in c.filter.value
  }

  /** The first entry of the list with this key; the first component tells whether there is one. */
  function Lookup(t: Table, s: seq<nat>, bssid: Bytes, ssid: Bytes): (bool, nat)
    requires forall h | h in s :: h in t.store
  {
    if s == [] then (false, 0)
    else if t.store[s[0]].bssid == bssid && t.store[s[0]].ssid == ssid then (true, s[0])
    else Lookup(t, s[1..], bssid, ssid)
  }

  /** wpa_bss_known */
  predicate Known(c: Conf, e: Entry)
  {
    e.ssid != [] && e.ssid in c.configured
  }

  /** wpa_bss_in_use */
  predicate InUse(c: Conf, h: nat, e: Entry)
  {
    c.current == Some(h) || e.bssid == c.bssid || e.bssid == c.pendingBssid
  }

  /** wpa_bss_included_in_scan */
  predicate Covered(info: Option<Info>, e: Entry)
  {
    info.None? ||
    (&& (info.value.freqs == [] || e.freq in info.value.freqs)
     && (info.value.ssids == [] || [] in info.value.ssids || e.ssid in info.value.ssids))
  }

  // ---- Transitions ----

  /** wpa_bss_remove */
  function Remove(t: Table, h: nat): Table
  {
    t.(store := t.store - {h}, main := Drop(t.main, h), byId := Drop(t.byId, h), num := t.num - 1)
  }

  /** The entry wpa_bss_remove_oldest takes from the list: the first one whose SSID is not
      configured, else the first one. */
  function Victim(t: Table, c: Conf, s: seq<nat>): (v: nat)
    requires s != [] && forall h | h in s :: h in t.store
    ensures v in s
  {
    if exists h | h in s :: !Known(c, t.store[h]) then FirstUnknown(t, c, s) else s[0]
  }

  function FirstUnknown(t: Table, c: Conf, s: seq<nat>): (v: nat)
    requires forall h | h in s :: h in t.store
    requires exists h | h in s :: !Known(c, t.store[h])
    ensures v in s && !Known(c, t.store[v])
  {
    if !Known(c, t.store[s[0]]) then s[0]
    else
      assert forall h | h in s :: h == s[0] || h in s[1..];
      FirstUnknown(t, c, s[1..])
  }

  /** wpa_bss_add without the eviction */
  function Grown(t: Table, ssid: Bytes, r: Res): Table
  {
    var e := Entry(t.nextId, 0, t.updateIdx, r.bssid, ssid, r.freq, r.updated, r.ies);
    t.(store := t.store[t.top := e], main := t.main + [t.top], byId := t.byId + [t.top],
       num := t.num + 1, nextId := t.nextId + 1, top := t.top + 1)
  }

  /** wpa_bss_add */
  function Add(t: Table, c: Conf, ssid: Bytes, r: Res): Table
    requires forall h | h in t.main :: h in t.store
  {
    var t1 := Grown(t, ssid, r);
    if t1.num > c.maxCount then Remove(t1, Victim(t1, c, t1.main)) else t1
  }

  /** wpa_bss_update: the entry moves to the end of the main list; when its elements do not
      fit it also moves in memory, keeping its place in the id list. */
  function Update(t: Table, h: nat, r: Res): Table
    requires h in t.store
  {
    var e := t.store[h];
    var grows := e.ies < r.ies;
    var h' := if grows then t.top else h;
    var e' := e.(miss := 0, lastIdx := t.updateIdx, freq := r.freq, updated := r.updated, bssid := r.bssid, ies := r.ies);
    t.(store := (t.store - {h})[h' := e'], main := Drop(t.main, h) + [h'], byId := Swap(t.byId, h, h'),
       top := if grows then t.top + 1 else t.top)
  }

  /** The scan result has an SSID of legal length and is no P2P discovery result. */
  predicate Usable(r: Res)
  {
    r.ssid.Some? && |r.ssid.value| <= 32 && !(r.p2p && r.ssid.value == P2P_WILDCARD)
  }

  /** wpa_bss_update_scan_res */
  function ScanRes(t: Table, c: Conf, r: Res): Table
    requires forall h | h in t.main :: h in t.store
  {
    if !Usable(r) then t
    else
      var (found, h) := Lookup(t, t.main, r.bssid, r.ssid.value);
      LookupFinds(t, t.main, r.bssid, r.ssid.value);
      if PassesFilter(c, r.bssid) && found then Update(t, h, r) else Add(t, c, r.ssid.value, r)
  }

  /** wpa_bss_update_start */
  function Start(t: Table): Table
  {
    t.(updateIdx := t.updateIdx + 1)
  }

  /** The body of the loop of wpa_bss_update_end for one entry. */
  function EndOne(t: Table, c: Conf, info: Option<Info>, h: nat): Table
  {
    if h !in t.store || InUse(c, h, t.store[h]) || !Covered(info, t.store[h]) then t
    else
      var miss := Missed(t, t.store[h]);
      if miss >= c.expireCount then Remove(t, h) else t.(store := t.store[h := t.store[h].(miss := miss)])
  }

  /** The scan-miss count of an entry at the end of the current update. */
  function Missed(t: Table, e: Entry): nat
  {
    if e.lastIdx < t.updateIdx then e.miss + 1 else e.miss
  }

  /** The loop over entries `hs`; removing an entry does not disturb the walk. */
  function EndEach(t: Table, c: Conf, info: Option<Info>, hs: seq<nat>): Table
  {
    if hs == [] then t else EndOne(EndEach(t, c, info, hs[..|hs| - 1]), c, info, hs[|hs| - 1])
  }

  /** wpa_bss_update_end */
  function End(t: Table, c: Conf, info: Option<Info>, newScan: bool): Table
  {
    if newScan then EndEach(t, c, info, t.main) else t
  }

  /** The loop of wpa_bss_flush_by_age: stops at the first unused entry that is recent. */
  function FlushOld(t: Table, c: Conf, before: int, hs: seq<nat>): Table
    decreases hs
  {
    if hs == [] || hs[0] !in t.store then t
    else if InUse(c, hs[0], t.store[hs[0]]) then FlushOld(t, c, before, hs[1..])
    else if t.store[hs[0]].updated < before then FlushOld(Remove(t, hs[0]), c, before, hs[1..])
    else t
  }

  /** The loop of wpa_bss_flush. */
  function FlushAll(t: Table, c: Conf, hs: seq<nat>): Table
    decreases hs
  {
    if hs == [] then t
    else if hs[0] in t.store && !InUse(c, hs[0], t.store[hs[0]]) then FlushAll(Remove(t, hs[0]), c, hs[1..])
    else FlushAll(t, c, hs[1..])
  }

  lemma {:induction false} LookupFinds(t: Table, s: seq<nat>, bssid: Bytes, ssid: Bytes)
    requires forall h | h in s :: h in t.store
    ensures var (found, h) := Lookup(t, s, bssid, ssid);
            && (found ==> h in s && t.store[h].bssid == bssid && t.store[h].ssid == ssid)
            && (!found ==> forall k | k in s :: t.store[k].bssid != bssid || t.store[k].ssid != ssid)
  {
    if s != [] {
      LookupFinds(t, s[1..], bssid, ssid);
      assert forall k | k in s :: k == s[0] || k in s[1..];
    }
  }

  // ---- Invariant ----

  ghost predicate SameHandles(t: Table)
  {
    && Distinct(t.main) && Distinct(t.byId)
    && (forall h :: h in t.main <==> h in t.store)
    && (forall h :: h in t.byId <==> h in t.store)
    && t.num == |t.main|
    && (forall h | h in t.store :: h < t.top)
  }

  ghost predicate IdsRise(t: Table)
  {
    && (forall i | 0 <= i < |t.byId| :: t.byId[i] in t.store && t.store[t.byId[i]].id < t.nextId)
    && (forall i, j | 0 <= i < j < |t.byId| :: t.store[t.byId[i]].id < t.store[t.byId[j]].id)
  }

  ghost predicate Recency(t: Table)
  {
    && (forall i | 0 <= i < |t.main| :: t.main[i] in t.store && t.store[t.main[i]].lastIdx <= t.updateIdx)
    && (forall i, j | 0 <= i < j < |t.main| :: t.store[t.main[i]].lastIdx <= t.store[t.main[j]].lastIdx)
  }

  /** Both lists hold the same entries, num_bss is their number, the id list strictly
      increases in id and the main list is in order of the last update. */
  ghost predicate Inv(t: Table)
  {
    SameHandles(t) && IdsRise(t) && Recency(t)
  }

  /** No two entries have the same BSSID and SSID. */
  ghost predicate UniqueKeys(t: Table)
  {
    forall h, k | h in t.store && k in t.store && h != k ::
      t.store[h].bssid != t.store[k].bssid || t.store[h].ssid != t.store[k].ssid
  }

  lemma RemoveHandles(t: Table, h: nat)
    requires SameHandles(t) && h in t.store
    ensures SameHandles(Remove(t, h))
  {
    DropHas(t.main, h);
    DropHas(t.byId, h);
    DropDistinct(t.main, h);
    DropDistinct(t.byId, h);
    DropLength(t.main, h);
  }

  lemma RemoveOrder(t: Table, h: nat)
    requires IdsRise(t) && Recency(t)
    ensures IdsRise(Remove(t, h)) && Recency(Remove(t, h))
  {
    hide Drop;
    DropHas(t.main, h);
    DropHas(t.byId, h);
    var t' := Remove(t, h);
    forall i | 0 <= i < |t'.byId| ensures t'.byId[i] in t'.store && t'.store[t'.byId[i]].id < t.nextId {
      assert t'.byId[i] in t'.byId;
    }
    forall i | 0 <= i < |t'.main| ensures t'.main[i] in t'.store && t'.store[t'.main[i]].lastIdx <= t.updateIdx {
      assert t'.main[i] in t'.main;
    }
    forall i, j | 0 <= i < j < |t'.byId| ensures t'.store[t'.byId[i]].id < t'.store[t'.byId[j]].id {
      var i', j' := DropOrder(t.byId, h, i, j);
    }
    forall i, j | 0 <= i < j < |t'.main| ensures t'.store[t'.main[i]].lastIdx <= t'.store[t'.main[j]].lastIdx {
      var i', j' := DropOrder(t.main, h, i, j);
    }
  }

  lemma RemoveInv(t: Table, h: nat)
    requires Inv(t) && h in t.store
    ensures Inv(Remove(t, h))
    ensures UniqueKeys(t) ==> UniqueKeys(Remove(t, h))
  {
    hide SameHandles, IdsRise, Recency;
    RemoveHandles(t, h);
    RemoveOrder(t, h);
  }

  lemma GrownHandles(t: Table, ssid: Bytes, r: Res)
    requires SameHandles(t)
    ensures SameHandles(Grown(t, ssid, r)) && t.top !in t.store
  {
    assert t.top !in t.main && t.top !in t.byId;
  }

  lemma GrownOrder(t: Table, ssid: Bytes, r: Res)
    requires IdsRise(t) && Recency(t) && t.top !in t.store
    ensures IdsRise(Grown(t, ssid, r)) && Recency(Grown(t, ssid, r))
  {
    var t' := Grown(t, ssid, r);
    assert forall i | 0 <= i < |t.byId| :: t'.byId[i] == t.byId[i];
    assert forall i | 0 <= i < |t.main| :: t'.main[i] == t.main[i];
  }

  lemma GrownInv(t: Table, ssid: Bytes, r: Res)
    requires Inv(t)
    ensures Inv(Grown(t, ssid, r))
  {
    hide SameHandles, IdsRise, Recency;
    GrownHandles(t, ssid, r);
    GrownOrder(t, ssid, r);
  }

  /** Where the entry is after an update. */
  function Moved(t: Table, h: nat, r: Res): nat
    requires h in t.store
  {
    if t.store[h].ies < r.ies then t.top else h
  }

  lemma UpdateHandles(t: Table, h: nat, r: Res)
    requires SameHandles(t) && h in t.store
    ensures SameHandles(Update(t, h, r))
  {
    var h' := Moved(t, h, r);
    DropHas(t.main, h);
    DropDistinct(t.main, h);
    DropLength(t.main, h);
    SwapHas(t.byId, h, h');
    SwapDistinct(t.byId, h, h');
    assert h' == h || h' !in t.store;
  }

  lemma UpdateIds(t: Table, h: nat, r: Res)
    requires IdsRise(t) && h in t.store
    requires Moved(t, h, r) == h || Moved(t, h, r) !in t.store
    ensures IdsRise(Update(t, h, r))
  {
    var t' := Update(t, h, r);
    assert forall i | 0 <= i < |t.byId| :: t'.byId[i] in t'.store && t'.store[t'.byId[i]].id == t.store[t.byId[i]].id;
  }

  lemma UpdateRecency(t: Table, h: nat, r: Res)
    requires Recency(t) && h in t.store
    requires Moved(t, h, r) == h || Moved(t, h, r) !in t.store
    ensures Recency(Update(t, h, r))
  {
    hide Drop;
    DropHas(t.main, h);
    var t', d := Update(t, h, r), Drop(t.main, h);
    forall i | 0 <= i < |d|
      ensures d[i] in t.store && d[i] in t'.store && t'.store[d[i]] == t.store[d[i]] && t.store[d[i]].lastIdx <= t.updateIdx
    {
      assert d[i] in d;
      var k :| 0 <= k < |t.main| && t.main[k] == d[i];
    }
    forall i, j | 0 <= i < j < |t'.main| ensures t'.store[t'.main[i]].lastIdx <= t'.store[t'.main[j]].lastIdx {
      assert t'.main[i] == d[i];
      if j < |d| {
        assert t'.main[j] == d[j];
        var i', j' := DropOrder(t.main, h, i, j);
      }
    }
  }

  lemma UpdateInv(t: Table, h: nat, r: Res)
    requires Inv(t) && h in t.store
    ensures Inv(Update(t, h, r))
  {
    hide IdsRise, Recency;
    UpdateHandles(t, h, r);
    UpdateIds(t, h, r);
    UpdateRecency(t, h, r);
  }

  /** Counting a miss changes nothing the invariant speaks about. */
  lemma CountInv(t: Table, h: nat, miss: nat)
    requires Inv(t) && h in t.store
    ensures Inv(t.(store := t.store[h := t.store[h].(miss := miss)]))
    ensures UniqueKeys(t) ==> UniqueKeys(t.(store := t.store[h := t.store[h].(miss := miss)]))
  {
    var t' := t.(store := t.store[h := t.store[h].(miss := miss)]);
    assert SameHandles(t');
    assert IdsRise(t') by { CountIds(t, h, miss); }
    assert Recency(t') by { CountRecency(t, h, miss); }
  }

  lemma CountIds(t: Table, h: nat, miss: nat)
    requires IdsRise(t) && h in t.store
    ensures IdsRise(t.(store := t.store[h := t.store[h].(miss := miss)]))
  {
  }

  lemma CountRecency(t: Table, h: nat, miss: nat)
    requires Recency(t) && h in t.store
    ensures Recency(t.(store := t.store[h := t.store[h].(miss := miss)]))
  {
  }

  lemma EndOneInv(t: Table, c: Conf, info: Option<Info>, h: nat)
    requires Inv(t)
    ensures Inv(EndOne(t, c, info, h))
    ensures UniqueKeys(t) ==> UniqueKeys(EndOne(t, c, info, h))
  {
    hide Inv, UniqueKeys;
    if h in t.store {
      RemoveInv(t, h);
      CountInv(t, h, Missed(t, t.store[h]));
    }
  }

  lemma {:induction false} EndInv(t: Table, c: Conf, info: Option<Info>, hs: seq<nat>)
    requires Inv(t)
    ensures Inv(EndEach(t, c, info, hs))
    ensures UniqueKeys(t) ==> UniqueKeys(EndEach(t, c, info, hs))
  {
    hide EndOne, Inv, UniqueKeys;
    if hs != [] {
      EndInv(t, c, info, hs[..|hs| - 1]);
      EndOneInv(EndEach(t, c, info, hs[..|hs| - 1]), c, info, hs[|hs| - 1]);
    }
  }

  lemma {:induction false} FlushOldInv(t: Table, c: Conf, before: int, hs: seq<nat>)
    requires Inv(t)
    ensures Inv(FlushOld(t, c, before, hs))
    ensures UniqueKeys(t) ==> UniqueKeys(FlushOld(t, c, before, hs))
    ensures forall h | h in t.store && (InUse(c, h, t.store[h]) || t.store[h].updated >= before) ::
              h in FlushOld(t, c, before, hs).store && FlushOld(t, c, before, hs).store[h] == t.store[h]
    decreases hs
  {
    hide Inv, UniqueKeys;
    if hs != [] && hs[0] in t.store {
      if InUse(c, hs[0], t.store[hs[0]]) {
        FlushOldInv(t, c, before, hs[1..]);
      } else if t.store[hs[0]].updated < before {
        RemoveInv(t, hs[0]);
        FlushOldInv(Remove(t, hs[0]), c, before, hs[1..]);
      }
    }
  }

  lemma {:induction false} FlushAllInv(t: Table, c: Conf, hs: seq<nat>)
    requires Inv(t)
    ensures Inv(FlushAll(t, c, hs))
    ensures UniqueKeys(t) ==> UniqueKeys(FlushAll(t, c, hs))
    ensures forall h | h in t.store :: h in FlushAll(t, c, hs).store <==> h !in hs || InUse(c, h, t.store[h])
    ensures forall h | h in FlushAll(t, c, hs).store :: h in t.store && FlushAll(t, c, hs).store[h] == t.store[h]
    decreases hs
  {
    hide Inv, UniqueKeys;
    if hs != [] {
      assert forall h | h in hs :: h == hs[0] || h in hs[1..];
      if hs[0] in t.store && !InUse(c, hs[0], t.store[hs[0]]) {
        RemoveInv(t, hs[0]);
        FlushAllInv(Remove(t, hs[0]), c, hs[1..]);
      } else {
        FlushAllInv(t, c, hs[1..]);
      }
    }
  }

  /** The entry is the current one, or has the BSSID that is in use or about to be. */
  predicate Used(t: Table, c: Conf, h: nat)
    requires h in t.store
  {
    c.current == Some(h) || t.store[h].bssid in {c.bssid, c.pendingBssid}
  }

  lemma {:induction false} FlushOnlyRemoves(t: Table, c: Conf, before: int, hs: seq<nat>)
    ensures forall k | k in FlushOld(t, c, before, hs).store :: k in t.store && FlushOld(t, c, before, hs).store[k] == t.store[k]
    decreases hs
  {
    if hs != [] && hs[0] in t.store {
      FlushOnlyRemoves(t, c, before, hs[1..]);
      FlushOnlyRemoves(Remove(t, hs[0]), c, before, hs[1..]);
    }
  }

  /** Flushing by age removes exactly the unused entries that are older and have only used or
      older entries in front of them. */
  lemma {:induction false} FlushOldExact(t: Table, c: Conf, before: int, hs: seq<nat>, i: nat)
    requires Distinct(hs) && (forall h | h in hs :: h in t.store) && i < |hs|
    ensures hs[i] !in FlushOld(t, c, before, hs).store <==>
      !Used(t, c, hs[i]) && forall j | 0 <= j <= i :: Used(t, c, hs[j]) || t.store[hs[j]].updated < before
    decreases hs
  {
    hide Drop;
    var h, rest := hs[0], hs[1..];
    FlushOnlyRemoves(t, c, before, hs);
    assert InUse(c, h, t.store[h]) <==> Used(t, c, h);
    assert forall j | 0 < j < |hs| :: hs[j] == rest[j - 1] && hs[j] != h;
    if Used(t, c, h) {
      if i > 0 {
        FlushOldExact(t, c, before, rest, i - 1);
        assert forall j | 0 <= j <= i - 1 :: rest[j] == hs[j + 1];
      } else {
        FlushKeepsUsed(t, c, before, rest, h);
      }
    } else if t.store[h].updated < before {
      var t1 := Remove(t, h);
      FlushOnlyRemoves(t1, c, before, rest);
      if i > 0 {
        assert forall j | 0 <= j < |rest| :: rest[j] in t1.store && t1.store[rest[j]] == t.store[rest[j]] && (Used(t1, c, rest[j]) <==> Used(t, c, rest[j]));
        FlushOldExact(t1, c, before, rest, i - 1);
        assert forall j | 0 <= j <= i - 1 :: rest[j] == hs[j + 1];
      }
    }
  }

  lemma {:induction false} FlushKeepsUsed(t: Table, c: Conf, before: int, hs: seq<nat>, h: nat)
    requires h in t.store && Used(t, c, h)
    ensures h in FlushOld(t, c, before, hs).store
    decreases hs
  {
    hide Drop;
    if hs != [] && hs[0] in t.store {
      FlushKeepsUsed(t, c, before, hs[1..], h);
      if hs[0] != h {
        FlushKeepsUsed(Remove(t, hs[0]), c, before, hs[1..], h);
      }
    }
  }

  /** Some channel of the scan was the entry's, and some SSID of it, if it named any; no names
      and the empty name stand for all. */
  predicate Scanned(info: Option<Info>, e: Entry)
  {
    match info
    case None => true
    case Some(i) =>
      && (|i.freqs| > 0 ==> exists k | 0 <= k < |i.freqs| :: i.freqs[k] == e.freq)
      && (|i.ssids| > 0 ==> exists k | 0 <= k < |i.ssids| :: |i.ssids[k]| == 0 || i.ssids[k] == e.ssid)
  }

  lemma ScannedIff(info: Option<Info>, e: Entry)
    ensures Covered(info, e) <==> Scanned(info, e)
  {
    if info.Some? && [] in info.value.ssids {
      var k :| 0 <= k < |info.value.ssids| && info.value.ssids[k] == [];
      assert |info.value.ssids[k]| == 0;
    }
    if info.Some? && e.ssid in info.value.ssids {
      var k :| 0 <= k < |info.value.ssids| && info.value.ssids[k] == e.ssid;
    }
    if info.Some? && e.freq in info.value.freqs {
      var k :| 0 <= k < |info.value.freqs| && info.value.freqs[k] == e.freq;
    }
  }

  /** The end of an update, entry by entry: without a new scan, for a used entry and for one that
      was not scanned nothing changes; another that the update did not sight counts a miss; and
      it goes exactly when its count has reached the limit. */
  lemma EndExact(t: Table, c: Conf, info: Option<Info>, newScan: bool, h: nat)
    requires Inv(t) && h in t.store
    ensures var t', e := End(t, c, info, newScan), t.store[h];
      var miss := e.miss + if e.lastIdx < t.updateIdx then 1 else 0;
      if !newScan || Used(t, c, h) || !Scanned(info, e) then h in t'.store && t'.store[h] == e
      else if miss >= c.expireCount then h !in t'.store
      else h in t'.store && t'.store[h] == e.(miss := miss)
  {
    hide IdsRise, Recency, EndEach, Drop, Covered, Scanned;
    ScannedIff(info, t.store[h]);
    if newScan {
      EndEffect(t, c, info, t.main, h);
      assert InUse(c, h, t.store[h]) <==> Used(t, c, h);
    }
  }

  lemma AddInv(t: Table, c: Conf, ssid: Bytes, r: Res)
    requires Inv(t)
    ensures forall h | h in t.main :: h in t.store
    ensures Inv(Add(t, c, ssid, r))
  {
    hide IdsRise, Recency, Distinct, Victim, Drop;
    GrownInv(t, ssid, r);
    var t1 := Grown(t, ssid, r);
    if t1.num > c.maxCount {
      RemoveInv(t1, Victim(t1, c, t1.main));
    }
  }

  lemma ScanResInv(t: Table, c: Conf, r: Res)
    requires Inv(t)
    ensures forall h | h in t.main :: h in t.store
    ensures Inv(ScanRes(t, c, r))
  {
    hide IdsRise, Recency, Distinct, Lookup;
    if Usable(r) {
      LookupFinds(t, t.main, r.bssid, r.ssid.value);
      var (found, h) := Lookup(t, t.main, r.bssid, r.ssid.value);
      if PassesFilter(c, r.bssid) && found {
        UpdateInv(t, h, r);
      } else {
        AddInv(t, c, r.ssid.value, r);
      }
    }
  }

  // ---- Eviction ----

  /** The SSID of the entry is one of a configured network. */
  predicate Configured(c: Conf, e: Entry)
  {
    |e.ssid| > 0 && exists x | x in c.configured :: x == e.ssid
  }

  /** Entry v has the least recent update among those whose SSID is not configured, or
      among all when every SSID is. */
  ghost predicate FirstToGo(t: Table, c: Conf, v: nat)
  {
    && v in t.store
    && (forall h | h in t.store && !Configured(c, t.store[h]) ::
          !Configured(c, t.store[v]) && t.store[v].lastIdx <= t.store[h].lastIdx)
    && (Configured(c, t.store[v]) ==> forall h | h in t.store :: t.store[v].lastIdx <= t.store[h].lastIdx)
  }

  /** An add leaves the table within its limit if it was. Only when the limit forces an
      entry out does one go, and it is the first to go. */
  lemma Eviction(t: Table, c: Conf, ssid: Bytes, r: Res)
    requires Inv(t) && t.num <= c.maxCount
    ensures forall h | h in t.main :: h in t.store
    ensures Add(t, c, ssid, r).num <= c.maxCount
    ensures var t1 := Grown(t, ssid, r);
            if t.num < c.maxCount then Add(t, c, ssid, r) == t1
            else exists v | FirstToGo(t1, c, v) :: Add(t, c, ssid, r) == Remove(t1, v)
  {
    hide IdsRise, Recency, Distinct, FirstToGo;
    GrownInv(t, ssid, r);
    var t1 := Grown(t, ssid, r);
    if t.num >= c.maxCount {
      var v := Victim(t1, c, t1.main);
      VictimIsOldest(t1, c);
      assert Add(t, c, ssid, r) == Remove(t1, v);
    }
  }

  lemma {:induction false} FirstUnknownIsFirst(t: Table, c: Conf, s: seq<nat>) returns (i: nat)
    requires forall h | h in s :: h in t.store
    requires exists h | h in s :: !Known(c, t.store[h])
    ensures i < |s| && s[i] == FirstUnknown(t, c, s)
    ensures forall j | 0 <= j < i :: Known(c, t.store[s[j]])
  {
    if Known(c, t.store[s[0]]) {
      assert forall h | h in s :: h == s[0] || h in s[1..];
      i := FirstUnknownIsFirst(t, c, s[1..]);
      i := i + 1;
    } else {
      i := 0;
    }
  }

  lemma VictimIsOldest(t: Table, c: Conf)
    requires Inv(t) && t.main != []
    ensures forall h | h in t.main :: h in t.store
    ensures FirstToGo(t, c, Victim(t, c, t.main))
  {
    hide IdsRise, Distinct, FirstUnknown, Recency;
    if exists h | h in t.main :: !Known(c, t.store[h]) {
      var i := FirstUnknownIsFirst(t, c, t.main);
      forall h | h in t.store && !Known(c, t.store[h]) ensures t.store[t.main[i]].lastIdx <= t.store[h].lastIdx {
        var j :| 0 <= j < |t.main| && t.main[j] == h;
        EarlierIsOlder(t, i, j);
      }
    } else {
      forall h | h in t.store ensures t.store[t.main[0]].lastIdx <= t.store[h].lastIdx {
        var j :| 0 <= j < |t.main| && t.main[j] == h;
        EarlierIsOlder(t, 0, j);
      }
    }
  }

  lemma EarlierIsOlder(t: Table, i: nat, j: nat)
    requires Recency(t) && i <= j < |t.main|
    ensures t.main[i] in t.store && t.main[j] in t.store
    ensures t.store[t.main[i]].lastIdx <= t.store[t.main[j]].lastIdx
  {
  }

  // ---- Unique keys ----

  lemma GrownUnique(t: Table, ssid: Bytes, r: Res)
    requires Inv(t) && UniqueKeys(t)
    ensures UniqueKeys(Grown(t, ssid, r)) <==>
              forall h | h in t.store :: t.store[h].bssid != r.bssid || t.store[h].ssid != ssid
  {
    var t' := Grown(t, ssid, r);
    assert t.top !in t.store;
    if UniqueKeys(t') {
      forall h | h in t.store ensures t.store[h].bssid != r.bssid || t.store[h].ssid != ssid {
        assert h in t'.store && t'.store[h] == t.store[h] && t.top in t'.store;
      }
    }
  }

  lemma UpdateUnique(t: Table, h: nat, r: Res)
    requires Inv(t) && UniqueKeys(t) && h in t.store && t.store[h].bssid == r.bssid
    ensures UniqueKeys(Update(t, h, r))
  {
    var t', h' := Update(t, h, r), Moved(t, h, r);
    assert h' == h || h' !in t.store;
  }

  lemma AddUnique(t: Table, c: Conf, ssid: Bytes, r: Res)
    requires Inv(t) && UniqueKeys(t)
    requires forall h | h in t.store :: t.store[h].bssid != r.bssid || t.store[h].ssid != ssid
    ensures forall h | h in t.main :: h in t.store
    ensures UniqueKeys(Add(t, c, ssid, r))
  {
    hide UniqueKeys, IdsRise, Recency, Distinct, Victim, Drop;
    GrownUnique(t, ssid, r);
    GrownInv(t, ssid, r);
    var t1 := Grown(t, ssid, r);
    if t1.num > c.maxCount {
      RemoveInv(t1, Victim(t1, c, t1.main));
    }
  }

  /** A usable scan result that the BSSID filter admits keeps keys unique. */
  lemma ScanResUnique(t: Table, c: Conf, r: Res)
    requires Inv(t) && UniqueKeys(t) && PassesFilter(c, r.bssid)
    ensures forall h | h in t.main :: h in t.store
    ensures UniqueKeys(ScanRes(t, c, r))
  {
    hide UniqueKeys, IdsRise, Recency, Distinct, Lookup;
    if Usable(r) {
      LookupFinds(t, t.main, r.bssid, r.ssid.value);
      var (found, h) := Lookup(t, t.main, r.bssid, r.ssid.value);
      if found {
        UpdateUnique(t, h, r);
      } else {
        AddUnique(t, c, r.ssid.value, r);
      }
    }
  }

  /** Entry h has the key of the scan result. */
  predicate Twin(t: Table, h: nat, r: Res)
    requires h in t.store && r.ssid.Some?
  {
    t.store[h].bssid == r.bssid && t.store[h].ssid == r.ssid.value
  }

  /** Adding the scan result to a full table pushes out entry h or the new one. */
  predicate PushesOut(t: Table, c: Conf, r: Res, h: nat)
    requires (forall k | k in t.main :: k in t.store) && r.ssid.Some?
  {
    var t1 := Grown(t, r.ssid.value, r);
    t1.num > c.maxCount && (Victim(t1, c, t1.main) == h || Victim(t1, c, t1.main) == t.top)
  }

  /** What is left when an entry is removed: the twins are gone or one of them is. */
  lemma RemovedUnique(t: Table, r: Res, v: nat)
    requires Inv(t) && UniqueKeys(t) && r.ssid.Some? && v in Grown(t, r.ssid.value, r).store
    ensures UniqueKeys(Remove(Grown(t, r.ssid.value, r), v)) <==>
              forall h | h in t.store && Twin(t, h, r) :: v == h || v == t.top
  {
    hide Drop;
    var t1 := Grown(t, r.ssid.value, r);
    var t2 := Remove(t1, v);
    assert t.top !in t.store;
    if UniqueKeys(t2) {
      forall h | h in t.store && Twin(t, h, r) ensures v == h || v == t.top {
        assert v != h && v != t.top ==> h in t2.store && t.top in t2.store;
      }
    }
  }

  /** A scan result keeps keys unique exactly when it is not used, the filter admits its
      BSSID, or each entry with its key is pushed out by it (or pushes it out): without room
      for both, one of two twins may go. */
  lemma UniqueIffAdmitted(t: Table, c: Conf, r: Res)
    requires Inv(t) && UniqueKeys(t)
    ensures forall h | h in t.main :: h in t.store
    ensures UniqueKeys(ScanRes(t, c, r)) <==>
              !Usable(r)
              || PassesFilter(c, r.bssid)
              || forall h | h in t.store && Twin(t, h, r) :: PushesOut(t, c, r, h)
  {
    hide UniqueKeys, Lookup, Victim, Drop;
    if Usable(r) {
      if PassesFilter(c, r.bssid) {
        ScanResUnique(t, c, r);
      } else {
        GrownUnique(t, r.ssid.value, r);
        var t1 := Grown(t, r.ssid.value, r);
        GrownInv(t, r.ssid.value, r);
        RemovedUnique(t, r, Victim(t1, c, t1.main));
      }
    }
  }

  /** A table with room: the scan result of a known BSS outside the filter is added again. */
  lemma AddedTwice()
    ensures var e := Entry(0, 0, 1, [2], [7], 2412, 0, 0);
            var t := Table(map[0 := e], [0], [0], 1, 1, 1, 1);
            var c := Conf(200, 2, {}, Some({[4]}), None, [], []);
            && Inv(t) && UniqueKeys(t)
            && !UniqueKeys(ScanRes(t, c, Res([2], Some([7]), false, 2412, 5, 0)))
  {
    var e := Entry(0, 0, 1, [2], [7], 2412, 0, 0);
    var t := Table(map[0 := e], [0], [0], 1, 1, 1, 1);
    var c := Conf(200, 2, {}, Some({[4]}), None, [], []);
    var r := Res([2], Some([7]), false, 2412, 5, 0);
    assert [2][0] != [4][0];
    UniqueIffAdmitted(t, c, r);
    assert Twin(t, 0, r);
  }

  /** The id list is as long as the main list. */
  lemma BothCounted(t: Table)
    requires Inv(t)
    ensures |t.byId| == |t.main| == t.num
  {
    hide IdsRise, Recency, Distinct;
    SameLength(t.byId, t.main);
  }

  // ---- Expiry over runs of scans ----

  /** The entry is in the table. */
  ghost predicate Holds(t: Table, e: Entry)
  {
    exists h | h in t.store :: t.store[h] == e
  }

  /** No entry has this id. */
  ghost predicate Gone(t: Table, id: nat)
  {
    forall h | h in t.store :: t.store[h].id != id
  }

  lemma IdsDiffer(t: Table, h: nat, k: nat)
    requires Inv(t) && h in t.store && k in t.store && t.store[h].id == t.store[k].id
    ensures h == k
  {
    assert h in t.byId && k in t.byId;
    var i :| 0 <= i < |t.byId| && t.byId[i] == h;
    var j :| 0 <= j < |t.byId| && t.byId[j] == k;
  }

  lemma RemoveGone(t: Table, h: nat)
    requires Inv(t) && h in t.store
    ensures Gone(Remove(t, h), t.store[h].id)
  {
    forall k | k in Remove(t, h).store ensures t.store[k].id != t.store[h].id {
      if t.store[k].id == t.store[h].id {
        IdsDiffer(t, h, k);
      }
    }
  }

  /** The scan result is about this entry. */
  predicate Sights(r: Res, e: Entry)
  {
    Usable(r) && r.bssid == e.bssid && r.ssid.value == e.ssid
  }

  /** The entry as a sighting by result r in update `idx` leaves it: same id and key, no misses,
      and the frequency, time and elements of the result. */
  function Seen(e: Entry, r: Res, idx: nat): Entry
  {
    Entry(e.id, 0, idx, e.bssid, e.ssid, r.freq, r.updated, r.ies)
  }

  /** The last of the results that sights the entry. */
  function LastSight(rs: seq<Res>, e: Entry): (r: Option<Res>)
    ensures r.Some? ==> r.value in rs && Sights(r.value, e)
  {
    if rs == [] then None
    else if Sights(rs[|rs| - 1], e) then Some(rs[|rs| - 1])
    else LastSight(rs[..|rs| - 1], e)
  }

  /** The entry behind the results of one update. */
  function Told(e: Entry, rs: seq<Res>, idx: nat): Entry
  {
    if LastSight(rs, e).Some? then Seen(e, LastSight(rs, e).value, idx) else e
  }

  /** What one scan result does to an entry: a sighting updates it and resets its miss count,
      anything else leaves it alone or, by eviction, takes it out. */
  lemma ScanResEffect(t: Table, c: Conf, r: Res, h: nat)
    requires Inv(t) && UniqueKeys(t) && PassesFilter(c, r.bssid) && h in t.store
    ensures forall k | k in t.main :: k in t.store
    ensures var e := t.store[h];
            var e' := if Sights(r, e) then Seen(e, r, t.updateIdx) else e;
            Holds(ScanRes(t, c, r), e') || Gone(ScanRes(t, c, r), e.id)
  {
    var e := t.store[h];
    if Usable(r) {
      LookupFinds(t, t.main, r.bssid, r.ssid.value);
      var (found, k) := Lookup(t, t.main, r.bssid, r.ssid.value);
      if found {
        var t' := Update(t, k, r);
        if k == h {
          assert t'.store[Moved(t, h, r)] == Seen(e, r, t.updateIdx);
        } else {
          assert h in t'.store && t'.store[h] == e;
        }
      } else {
        AddEffect(t, c, r.ssid.value, r, h);
      }
    }
  }

  lemma AddEffect(t: Table, c: Conf, ssid: Bytes, r: Res, h: nat)
    requires Inv(t) && h in t.store
    ensures forall k | k in t.main :: k in t.store
    ensures Holds(Add(t, c, ssid, r), t.store[h]) || Gone(Add(t, c, ssid, r), t.store[h].id)
  {
    hide IdsRise, Recency, Distinct;
    GrownInv(t, ssid, r);
    GrownHandles(t, ssid, r);
    var t1 := Grown(t, ssid, r);
    assert h in t1.store && t1.store[h] == t.store[h];
    if t1.num > c.maxCount {
      var v := Victim(t1, c, t1.main);
      if v == h {
        RemoveGone(t1, v);
      } else {
        assert h in Remove(t1, v).store;
      }
    }
  }

  /** The scan results of one update, in order. */
  ghost function Results(t: Table, c: Conf, rs: seq<Res>): (t': Table)
    requires Inv(t)
    ensures Inv(t')
  {
    if rs == [] then t
    else
      var t1 := Results(t, c, rs[..|rs| - 1]);
      ScanResInv(t1, c, rs[|rs| - 1]);
      ScanRes(t1, c, rs[|rs| - 1])
  }

  ghost predicate Sighted(rs: seq<Res>, e: Entry)
  {
    exists r | r in rs :: Sights(r, e)
  }

  lemma {:induction false} SightedIff(rs: seq<Res>, e: Entry)
    ensures Sighted(rs, e) <==> LastSight(rs, e).Some?
  {
    if rs != [] {
      SightedIff(rs[..|rs| - 1], e);
      assert rs == rs[..|rs| - 1] + [rs[|rs| - 1]];
    }
  }

  /** An id that is gone is never given out again. */
  lemma GoneStays(t: Table, c: Conf, r: Res, id: nat)
    requires Inv(t) && Gone(t, id) && id < t.nextId
    ensures forall k | k in t.main :: k in t.store
    ensures Gone(ScanRes(t, c, r), id) && ScanRes(t, c, r).nextId >= t.nextId && ScanRes(t, c, r).updateIdx == t.updateIdx
  {
    hide IdsRise, Recency, Distinct, Victim, Lookup, Drop;
    if Usable(r) {
      LookupFinds(t, t.main, r.bssid, r.ssid.value);
      var (found, h) := Lookup(t, t.main, r.bssid, r.ssid.value);
      if found && PassesFilter(c, r.bssid) {
        var t' := Update(t, h, r);
        forall k | k in t'.store ensures t'.store[k].id != id {
          assert k == Moved(t, h, r) || t'.store[k] == t.store[k];
        }
      } else {
        var t1 := Grown(t, r.ssid.value, r);
        forall k | k in t1.store ensures t1.store[k].id != id {
          assert k == t.top || t1.store[k] == t.store[k];
        }
      }
    }
  }

  lemma ScanResKeepsIdx(t: Table, c: Conf, r: Res)
    requires Inv(t)
    ensures forall k | k in t.main :: k in t.store
    ensures ScanRes(t, c, r).updateIdx == t.updateIdx && ScanRes(t, c, r).nextId >= t.nextId
  {
    hide IdsRise, Recency, Distinct, Victim, Lookup, Drop;
    if Usable(r) {
      LookupFinds(t, t.main, r.bssid, r.ssid.value);
    }
  }

  /** All the results of an update together: the last sighting counts. */
  lemma {:induction false} ResultsEffect(t: Table, c: Conf, rs: seq<Res>, e: Entry)
    requires Inv(t) && UniqueKeys(t) && Holds(t, e) && e.id < t.nextId
    requires forall r | r in rs :: PassesFilter(c, r.bssid)
    ensures UniqueKeys(Results(t, c, rs))
    ensures Results(t, c, rs).updateIdx == t.updateIdx && Results(t, c, rs).nextId >= t.nextId
    ensures Holds(Results(t, c, rs), Told(e, rs, t.updateIdx)) || Gone(Results(t, c, rs), e.id)
  {
    hide Inv, UniqueKeys, ScanRes, Gone;
    if rs != [] {
      var init, r := rs[..|rs| - 1], rs[|rs| - 1];
      assert rs == init + [r];
      ResultsEffect(t, c, init, e);
      var t1, e1 := Results(t, c, init), Told(e, init, t.updateIdx);
      ScanResUnique(t1, c, r);
      ScanResKeepsIdx(t1, c, r);
      if Holds(t1, e1) {
        var h :| h in t1.store && t1.store[h] == e1;
        ScanResEffect(t1, c, r, h);
      } else {
        GoneStays(t1, c, r, e.id);
      }
    }
  }

  /** A scan result with an SSID of at most 32 octets, unless it is a P2P discovery result, is
      in the table afterwards with its frequency, time and elements, as an entry with its key
      and no misses; a new entry can be the one that goes if the table is full. All other
      results change nothing. */
  lemma ScanResShows(t: Table, c: Conf, r: Res)
    requires Inv(t)
    ensures forall k | k in t.main :: k in t.store
    ensures r.ssid.None? || |r.ssid.value| > 32 || (r.p2p && r.ssid.value == P2P_WILDCARD) ==> ScanRes(t, c, r) == t
    ensures r.ssid.Some? && |r.ssid.value| <= 32 && !(r.p2p && r.ssid.value == P2P_WILDCARD) ==>
      var t' := ScanRes(t, c, r);
      || (exists id :: Holds(t', Entry(id, 0, t.updateIdx, r.bssid, r.ssid.value, r.freq, r.updated, r.ies)))
      || (Gone(t', t.nextId) && t.num >= c.maxCount)
  {
    hide IdsRise, Recency, Distinct, Drop, Lookup, Victim;
    if r.ssid.Some? && Usable(r) {
      LookupFinds(t, t.main, r.bssid, r.ssid.value);
      var (found, h) := Lookup(t, t.main, r.bssid, r.ssid.value);
      if PassesFilter(c, r.bssid) && found {
        var e := Seen(t.store[h], r, t.updateIdx);
        assert ScanRes(t, c, r).store[Moved(t, h, r)] == e;
        assert Holds(ScanRes(t, c, r), e);
      } else {
        AddShows(t, c, r.ssid.value, r);
      }
    }
  }

  lemma AddShows(t: Table, c: Conf, ssid: Bytes, r: Res)
    requires Inv(t)
    ensures forall k | k in t.main :: k in t.store
    ensures var t' := Add(t, c, ssid, r);
      || Holds(t', Entry(t.nextId, 0, t.updateIdx, r.bssid, ssid, r.freq, r.updated, r.ies))
      || (Gone(t', t.nextId) && t.num >= c.maxCount)
  {
    hide IdsRise, Recency, Distinct, Drop, Victim;
    GrownInv(t, ssid, r);
    GrownHandles(t, ssid, r);
    var t1 := Grown(t, ssid, r);
    assert t1.store[t.top] == Entry(t.nextId, 0, t.updateIdx, r.bssid, ssid, r.freq, r.updated, r.ies);
    if t1.num > c.maxCount {
      var v := Victim(t1, c, t1.main);
      if v == t.top {
        RemoveGone(t1, v);
      } else {
        assert t.top in Remove(t1, v).store;
      }
    }
  }

  /** The closing loop treats each entry as if it were alone. */
  lemma {:induction false} EndEffect(t: Table, c: Conf, info: Option<Info>, hs: seq<nat>, h: nat)
    requires Distinct(hs) && h in t.store
    ensures var t', one := EndEach(t, c, info, hs), EndOne(t, c, info, h);
            && t'.updateIdx == t.updateIdx
            && (h in hs ==> (h in t'.store <==> h in one.store) && (h in one.store ==> t'.store[h] == one.store[h]))
            && (h !in hs ==> h in t'.store && t'.store[h] == t.store[h])
            && (forall k | k in t'.store :: k in t.store && t'.store[k].id == t.store[k].id)
  {
    if hs != [] {
      var init, x := hs[..|hs| - 1], hs[|hs| - 1];
      assert hs == init + [x];
      EndEffect(t, c, info, init, h);
    }
  }

  /** One update: start, results, end. */
  datatype Scan = Scan(conf: Conf, results: seq<Res>, info: Option<Info>, newScan: bool)

  ghost function Reported(t: Table, s: Scan): (t': Table)
    requires Inv(t)
    ensures Inv(t')
  {
    assert Inv(Start(t));
    Results(Start(t), s.conf, s.results)
  }

  ghost function Play(t: Table, s: Scan): (t': Table)
    requires Inv(t)
    ensures Inv(t')
  {
    var t1 := Reported(t, s);
    EndInv(t1, s.conf, s.info, t1.main);
    End(t1, s.conf, s.info, s.newScan)
  }

  /** What a scan means for an entry: it was sighted; or the scan does not count against
      it, being no new scan, not covering it, or finding it in use; or it was missed. */
  datatype Kind = Sighting | Idle | Miss

  ghost predicate Spared(t: Table, s: Scan, e: Entry)
  {
    !s.newScan || !Covered(s.info, e) || exists h | h in t.store && t.store[h] == e :: InUse(s.conf, h, e)
  }

  ghost function KindOf(t: Table, s: Scan, e: Entry): Kind
    requires Inv(t)
  {
    if Sighted(s.results, e) then Sighting else if Spared(Reported(t, s), s, e) then Idle else Miss
  }

  /** The scan-miss count after a scan; None when the entry expires. */
  function Counted(miss: nat, kind: Kind, limit: nat): Option<nat>
  {
    match kind
    case Sighting => Some(0)
    case Idle => Some(miss)
    case Miss => if miss + 1 >= limit then None else Some(miss + 1)
  }

  /** Frequency, time and elements of an entry. */
  datatype Data = Data(freq: int, updated: int, ies: nat)

  function DataOf(e: Entry): Data
  {
    Data(e.freq, e.updated, e.ies)
  }

  /** The entry, with this miss count and data, is in the table. */
  ghost predicate HoldsMissed(t: Table, e: Entry, miss: nat, d: Data)
  {
    exists x | Holds(t, x) ::
      (x.id, x.bssid, x.ssid) == (e.id, e.bssid, e.ssid) && x.miss == miss && DataOf(x) == d
  }

  /** What the last sighting in a run of scans says about the entry. */
  function Latest(e: Entry, scans: seq<Scan>): Data
  {
    if scans == [] then DataOf(e)
    else
      var r := LastSight(scans[|scans| - 1].results, e);
      if r.Some? then Data(r.value.freq, r.value.updated, r.value.ies) else Latest(e, scans[..|scans| - 1])
  }

  /** Results sight an entry by its key. */
  lemma {:induction false} SameSight(rs: seq<Res>, e: Entry, x: Entry)
    requires e.bssid == x.bssid && e.ssid == x.ssid
    ensures LastSight(rs, e) == LastSight(rs, x)
  {
    if rs != [] {
      SameSight(rs[..|rs| - 1], e, x);
    }
  }

  lemma EndHolds(t: Table, s: Scan, h: nat)
    requires Inv(t) && h in t.store && s.newScan
    ensures var t', one := End(t, s.conf, s.info, true), EndOne(t, s.conf, s.info, h);
            && (h in one.store ==> Holds(t', one.store[h]))
            && (h !in one.store ==> Gone(t', t.store[h].id))
  {
    hide IdsRise, Recency, EndOne;
    EndEffect(t, s.conf, s.info, t.main, h);
    var t', one := End(t, s.conf, s.info, true), EndOne(t, s.conf, s.info, h);
    if h !in one.store {
      forall k | k in t'.store ensures t'.store[k].id != t.store[h].id {
        EndEffect(t, s.conf, s.info, t.main, k);
        if t.store[k].id == t.store[h].id {
          IdsDiffer(t, h, k);
        }
      }
    } else {
      assert h in t'.store;
    }
  }

  lemma EndOneCount(t: Table, s: Scan, h: nat)
    requires h in t.store && s.newScan && 1 <= s.conf.expireCount
    ensures var e, one := t.store[h], EndOne(t, s.conf, s.info, h);
            if InUse(s.conf, h, e) || !Covered(s.info, e) then h in one.store && one.store[h] == e
            else if Missed(t, e) >= s.conf.expireCount then h !in one.store
            else h in one.store && one.store[h] == e.(miss := Missed(t, e))
  {
  }

  lemma HeldBounds(t: Table, h: nat)
    requires Inv(t) && h in t.store
    ensures t.store[h].id < t.nextId && t.store[h].lastIdx <= t.updateIdx
  {
    assert h in t.main && h in t.byId;
    var i :| 0 <= i < |t.main| && t.main[i] == h;
    var j :| 0 <= j < |t.byId| && t.byId[j] == h;
  }

  lemma StartKeeps(t: Table)
    requires Inv(t)
    ensures Inv(Start(t)) && (UniqueKeys(t) ==> UniqueKeys(Start(t)))
  {
  }

  lemma EndUnique(t: Table, s: Scan)
    requires Inv(t) && UniqueKeys(t)
    ensures UniqueKeys(End(t, s.conf, s.info, s.newScan))
  {
    EndInv(t, s.conf, s.info, t.main);
  }

  /** The handle of an entry is unique, so "in use" is about that handle. */
  lemma SparedHandle(t: Table, s: Scan, h: nat)
    requires Inv(t) && h in t.store && s.newScan
    ensures Spared(t, s, t.store[h]) <==> !Covered(s.info, t.store[h]) || InUse(s.conf, h, t.store[h])
  {
    forall k | k in t.store && t.store[k] == t.store[h] ensures k == h {
      IdsDiffer(t, h, k);
    }
  }

  lemma ReportedEffect(t: Table, s: Scan, e: Entry) returns (h: nat)
    requires Inv(t) && UniqueKeys(t) && Holds(t, e)
    requires forall r | r in s.results :: PassesFilter(s.conf, r.bssid)
    requires !Gone(Reported(t, s), e.id)
    ensures UniqueKeys(Reported(t, s))
    ensures h in Reported(t, s).store
    ensures Reported(t, s).updateIdx == t.updateIdx + 1 && e.lastIdx <= t.updateIdx
    ensures Reported(t, s).store[h] == Told(e, s.results, t.updateIdx + 1)
  {
    hide Inv, UniqueKeys, Results, Gone;
    var k :| k in t.store && t.store[k] == e;
    HeldBounds(t, k);
    StartKeeps(t);
    assert Holds(Start(t), e);
    ResultsEffect(Start(t), s.conf, s.results, e);
    h :| h in Reported(t, s).store && Reported(t, s).store[h] == Told(e, s.results, t.updateIdx + 1);
  }

  /** One scan, for an entry that is not evicted in its course: it is what the last result that
      sights it says, its miss count becomes what the kind of the scan says, and it is gone
      exactly when the limit is reached. */
  lemma ScanEffect(t: Table, s: Scan, e: Entry)
    requires Inv(t) && UniqueKeys(t) && Holds(t, e)
    requires e.miss < s.conf.expireCount
    requires forall r | r in s.results :: PassesFilter(s.conf, r.bssid)
    requires !Gone(Reported(t, s), e.id)
    ensures UniqueKeys(Play(t, s))
    ensures match Counted(e.miss, KindOf(t, s, e), s.conf.expireCount)
            case None => Gone(Play(t, s), e.id)
            case Some(m) => Holds(Play(t, s), Told(e, s.results, t.updateIdx + 1).(miss := m))
  {
    hide Inv, UniqueKeys, EndOne, EndEach, Reported, Gone, InUse, Covered, LastSight;
    var t1, t2 := Reported(t, s), Play(t, s);
    SightedIff(s.results, e);
    var h := ReportedEffect(t, s, e);
    EndUnique(t1, s);
    var e1 := t1.store[h];
    if s.newScan {
      EndHolds(t1, s, h);
      EndOneCount(t1, s, h);
      SparedHandle(t1, s, h);
    } else {
      assert Holds(t2, e1);
    }
  }

  // ---- Runs of scans ----

  ghost function PlayAll(t: Table, scans: seq<Scan>): (t': Table)
    requires Inv(t)
    ensures Inv(t')
  {
    if scans == [] then t else Play(PlayAll(t, scans[..|scans| - 1]), scans[|scans| - 1])
  }

  /** Scan i of the run is of this kind for the entry, if the entry is still there, and does
      not evict it. */
  ghost predicate Runs(t: Table, scans: seq<Scan>, kinds: seq<Kind>, id: nat, i: nat)
    requires Inv(t) && i < |scans| == |kinds|
  {
    var ti := PlayAll(t, scans[..i]);
    forall e | Holds(ti, e) && e.id == id :: KindOf(ti, scans[i], e) == kinds[i] && !Gone(Reported(ti, scans[i]), id)
  }

  function CountedAll(miss: nat, kinds: seq<Kind>, limit: nat): Option<nat>
  {
    if kinds == [] then Some(miss)
    else
      match CountedAll(miss, kinds[..|kinds| - 1], limit)
      case None => None
      case Some(m) => Counted(m, kinds[|kinds| - 1], limit)
  }

  lemma {:induction false} CountBelow(miss: nat, kinds: seq<Kind>, limit: nat)
    requires miss < limit
    ensures CountedAll(miss, kinds, limit).Some? ==> CountedAll(miss, kinds, limit).value < limit
  {
    if kinds != [] {
      CountBelow(miss, kinds[..|kinds| - 1], limit);
    }
  }

  lemma PlayGone(t: Table, s: Scan, id: nat)
    requires Inv(t) && Gone(t, id) && id < t.nextId
    ensures Gone(Play(t, s), id) && Play(t, s).nextId >= t.nextId
  {
    hide ScanRes, EndOne, UniqueKeys;
    StartKeeps(t);
    ResultsGone(Start(t), s.conf, s.results, id);
    var t1 := Reported(t, s);
    EndIds(t1, s.conf, s.info, t1.main);
  }

  lemma {:induction false} ResultsGone(t: Table, c: Conf, rs: seq<Res>, id: nat)
    requires Inv(t) && Gone(t, id) && id < t.nextId
    ensures Gone(Results(t, c, rs), id) && Results(t, c, rs).nextId >= t.nextId
  {
    hide ScanRes, Inv, Gone;
    if rs != [] {
      ResultsGone(t, c, rs[..|rs| - 1], id);
      GoneStays(Results(t, c, rs[..|rs| - 1]), c, rs[|rs| - 1], id);
    }
  }

  lemma {:induction false} EndIds(t: Table, c: Conf, info: Option<Info>, hs: seq<nat>)
    ensures EndEach(t, c, info, hs).nextId == t.nextId
    ensures forall k | k in EndEach(t, c, info, hs).store ::
              k in t.store && EndEach(t, c, info, hs).store[k].id == t.store[k].id
  {
    if hs != [] {
      EndIds(t, c, info, hs[..|hs| - 1]);
    }
  }

  /** Every scan whose results pass the filter keeps keys unique. */
  lemma {:induction false} ResultsUnique(t: Table, c: Conf, rs: seq<Res>)
    requires Inv(t) && UniqueKeys(t) && forall r | r in rs :: PassesFilter(c, r.bssid)
    ensures UniqueKeys(Results(t, c, rs))
  {
    hide ScanRes, Inv, UniqueKeys;
    if rs != [] {
      ResultsUnique(t, c, rs[..|rs| - 1]);
      ScanResUnique(Results(t, c, rs[..|rs| - 1]), c, rs[|rs| - 1]);
    }
  }

  lemma PlayUnique(t: Table, s: Scan)
    requires Inv(t) && UniqueKeys(t) && forall r | r in s.results :: PassesFilter(s.conf, r.bssid)
    ensures UniqueKeys(Play(t, s))
  {
    hide UniqueKeys, Results, EndEach;
    StartKeeps(t);
    ResultsUnique(Start(t), s.conf, s.results);
    EndUnique(Reported(t, s), s);
  }

  /** Over any run of scans with a fixed limit, an entry that is not evicted or flushed has
      the miss count that the kinds of the scans add up to and the frequency, time and elements
      of its last sighting, and is gone as soon as the count reaches the limit. */
  lemma {:induction false} ExpiryRun(t: Table, scans: seq<Scan>, kinds: seq<Kind>, e: Entry, limit: nat)
    requires Inv(t) && UniqueKeys(t) && Holds(t, e) && e.miss < limit && |scans| == |kinds|
    requires forall s | s in scans :: s.conf.expireCount == limit && forall r | r in s.results :: PassesFilter(s.conf, r.bssid)
    requires forall i | 0 <= i < |scans| :: Runs(t, scans, kinds, e.id, i)
    ensures UniqueKeys(PlayAll(t, scans)) && e.id < PlayAll(t, scans).nextId
    ensures match CountedAll(e.miss, kinds, limit)
            case None => Gone(PlayAll(t, scans), e.id)
            case Some(m) => HoldsMissed(PlayAll(t, scans), e, m, Latest(e, scans))
  {
    hide Inv, UniqueKeys, Play, KindOf, Gone;
    if scans == [] {
      var h :| h in t.store && t.store[h] == e;
      HeldBounds(t, h);
    } else {
      var n := |scans| - 1;
      var init, s, ks := scans[..n], scans[n], kinds[..n];
      forall i | 0 <= i < n ensures Runs(t, init, ks, e.id, i) {
        assert Runs(t, scans, kinds, e.id, i) && init[..i] == scans[..i];
      }
      ExpiryRun(t, init, ks, e, limit);
      CountBelow(e.miss, ks, limit);
      var t1 := PlayAll(t, init);
      PlayUnique(t1, s);
      var before := CountedAll(e.miss, ks, limit);
      if before.None? {
        PlayGone(t1, s, e.id);
      } else {
        var e1 :| Holds(t1, e1) && (e1.id, e1.bssid, e1.ssid) == (e.id, e.bssid, e.ssid)
          && e1.miss == before.value && DataOf(e1) == Latest(e, init);
        assert Runs(t, scans, kinds, e.id, n);
        ScanEffect(t1, s, e1);
        SameSight(s.results, e, e1);
        HoldsNext(t1, s, e.id);
      }
    }
  }

  lemma HoldsNext(t: Table, s: Scan, id: nat)
    requires Inv(t) && id < t.nextId
    ensures id < Play(t, s).nextId
  {
    hide ScanRes, EndOne, UniqueKeys;
    StartKeeps(t);
    ResultsNext(Start(t), s.conf, s.results);
    EndIds(Reported(t, s), s.conf, s.info, Reported(t, s).main);
  }

  lemma {:induction false} ResultsNext(t: Table, c: Conf, rs: seq<Res>)
    requires Inv(t)
    ensures Results(t, c, rs).nextId >= t.nextId
  {
    hide ScanRes, Inv;
    if rs != [] {
      ResultsNext(t, c, rs[..|rs| - 1]);
      ScanResKeepsIdx(Results(t, c, rs[..|rs| - 1]), c, rs[|rs| - 1]);
    }
  }

  lemma {:induction false} MissesAddUp(kinds: seq<Kind>, limit: nat)
    requires 1 <= limit && forall i | 0 <= i < |kinds| :: kinds[i] == Miss
    ensures CountedAll(0, kinds, limit) == if |kinds| < limit then Some(|kinds|) else None
  {
    if kinds != [] {
      MissesAddUp(kinds[..|kinds| - 1], limit);
    }
  }

  /** An unused entry that was just sighted and is covered by every following new scan
      disappears at the end of exactly the limit-th consecutive scan that misses it. */
  lemma KthMissExpires(t: Table, scans: seq<Scan>, kinds: seq<Kind>, e: Entry, limit: nat)
    requires Inv(t) && UniqueKeys(t) && Holds(t, e) && e.miss == 0 && 1 <= limit
    requires forall s | s in scans :: s.conf.expireCount == limit && forall r | r in s.results :: PassesFilter(s.conf, r.bssid)
    requires |kinds| == |scans| && forall i | 0 <= i < |scans| :: kinds[i] == Miss
    requires forall i | 0 <= i < |scans| :: Runs(t, scans, kinds, e.id, i)
    ensures if |scans| < limit then HoldsMissed(PlayAll(t, scans), e, |scans|, Latest(e, scans))
            else Gone(PlayAll(t, scans), e.id)
  {
    ExpiryRun(t, scans, kinds, e, limit);
    MissesAddUp(kinds, limit);
  }
}
