/** The ANQP fetch round: one GAS query after the other, each started by the callback of
    the one before, over a BSS table that no scan changes meanwhile. The round is
    composed with the query engine of module GasEngine. */
module AnqpFetch {
  import opened Octets
  import opened GasQuery
  import opened GasEngine

  const EXT_CAPAB_MIN: byte := 4
  const CAPAB_INTERWORKING: byte := 128

  /** The fields of struct wpa_bss that the round uses; `extCapab` is the Extended
      Capabilities element, if the BSS sent one. */
  datatype Bss = Bss(bssid: Mac, freq: int, ess: bool, extCapab: Option<Bytes>, fetched: bool, tried: bool)

  /** `asked` lists the table positions queried since the round was started, and
      `refused` says whether the latest request of the round did not start. */
  datatype Round = Round(
    table: seq<Bss>, inProgress: bool, networkSelect: bool, selections: nat,
    gas: Gas, asked: seq<nat>, refused: bool)

  /** The AP supports Interworking. */
  predicate Interworking(b: Bss)
  {
    && b.extCapab.Some?
    && |b.extCapab.value| > 5
    && b.extCapab.value[1] >= EXT_CAPAB_MIN
    && b.extCapab.value[5] >= CAPAB_INTERWORKING
  }

  /** A BSS the round still has to query. */
  predicate Wanted(b: Bss)
  {
    b.ess && Interworking(b) && !b.fetched && !b.tried
  }

  /** Position of the first wanted BSS, or the length. */
  function NextWanted(table: seq<Bss>): (i: nat)
    ensures i <= |table|
    ensures i < |table| ==> Wanted(table[i])
    ensures forall j | 0 <= j < i :: !Wanted(table[j])
  {
    if table == [] then 0 else if Wanted(table[0]) then 0 else 1 + NextWanted(table[1..])
  }

  /** interworking_anqp_send_req for the BSS at position i. An ANQP request always has
      room for the dialog token. */
  function Ask(b: Bss, len: nat, sendOk: bool): Call
  {
    Req(b.bssid, b.freq, 3 + len, FetchRound, sendOk)
  }

  /** interworking_next_anqp_fetch */
  ghost function NextFetch(r: Round, len: nat, sendOk: bool): (r': Round)
    requires Inv(r.gas)
    ensures Inv(r'.gas)
  {
    if !r.inProgress then r
    else
      var i := NextWanted(r.table);
      if i < |r.table| then
        var c := Ask(r.table[i], len, sendOk);
        ApplyInv(r.gas, c);
        var gas' := Apply(r.gas, c);
        r.(table := r.table[i := r.table[i].(tried := true)],
           gas := gas', asked := r.asked + [i], refused := gas' == r.gas)
      else
        r.(inProgress := false,
           networkSelect := false, refused := false,
           selections := r.selections + if r.networkSelect then 1 else 0)
  }

  /** The table with the fetch-tried flag of every entry cleared. */
  function Cleared(table: seq<Bss>): (t: seq<Bss>)
    ensures |t| == |table| && forall i | 0 <= i < |table| :: t[i] == table[i].(tried := false)
  {
    seq(|table|, i requires 0 <= i < |table| => table[i].(tried := false))
  }

  /** interworking_start_fetch_anqp */
  ghost function StartFetch(r: Round, len: nat, sendOk: bool): (r': Round)
    requires Inv(r.gas)
    ensures Inv(r'.gas)
  {
    NextFetch(r.(table := Cleared(r.table), inProgress := true, asked := [], refused := false), len, sendOk)
  }

  /** The Advertisement Protocol element names ANQP. */
  predicate IsAnqp(adv: Bytes)
  {
    |adv| >= 4 && adv[0] == 108 && adv[1] >= 2 && adv[3] == 0
  }

  /** Position of the last entry with this BSSID (wpa_bss_get_bssid), or the length. */
  function LastWith(table: seq<Bss>, bssid: Mac): (i: nat)
    ensures i <= |table|
    ensures i < |table| ==> table[i].bssid == bssid
    ensures forall j | 0 <= j < |table| && (j > i || i == |table|) :: table[j].bssid != bssid
  {
    if table == [] then 0
    else if table[|table| - 1].bssid == bssid then |table| - 1
    else
      var i := LastWith(table[..|table| - 1], bssid);
      if i < |table| - 1 then i else |table|
  }

  /** The completion brings an ANQP response for the entry at position i: a success under an
      Advertisement Protocol element for ANQP, from the BSSID of the entry and of none behind
      it. */
  predicate Fetches(table: seq<Bss>, c: Completion, i: nat)
    requires i < |table|
  {
    && c.result == Success && c.q.adv.Some?
    && |c.q.adv.value| > 3 && c.q.adv.value[0] == 108 && c.q.adv.value[1] > 1 && c.q.adv.value[3] == 0
    && table[i].bssid == c.q.addr && forall j | i < j < |table| :: table[j].bssid != c.q.addr
  }

  /** anqp_resp_cb: a good response marks the BSS as fetched, and no other. */
  function MarkFetched(table: seq<Bss>, c: Completion): (t: seq<Bss>)
    ensures |t| == |table|
    ensures forall i | 0 <= i < |table| :: t[i] == if Fetches(table, c, i) then table[i].(fetched := true) else table[i]
  {
    var i := LastWith(table, c.q.addr);
    if c.result == Success && c.q.adv.Some? && IsAnqp(c.q.adv.value) && i < |table|
    then table[i := table[i].(fetched := true)]
    else table
  }

  /** interworking_anqp_resp_cb for the queries of the round, and anqp_resp_cb alone for single
      requests; other callbacks leave the round alone. */
  ghost function Callback(r: Round, c: Completion, len: nat, sendOk: bool): (r': Round)
    requires Inv(r.gas)
    ensures Inv(r'.gas)
  {
    if c.q.client == FetchRound
    then NextFetch(r.(table := MarkFetched(r.table, c)), len, sendOk)
    else if c.q.client == AnqpRequest then r.(table := MarkFetched(r.table, c))
    else r
  }

  /** The engine has moved on to `gas`; if a query ended, its callback runs. */
  ghost function Absorb(r: Round, gas: Gas, len: nat, sendOk: bool): (r': Round)
    requires Inv(gas)
    ensures Inv(r'.gas)
  {
    var r1 := r.(gas := gas);
    if |gas.log| > |r.gas.log| then Callback(r1, gas.log[|gas.log| - 1], len, sendOk) else r1
  }

  /** Something happens to the query engine. */
  ghost function Event(r: Round, h: Happening): (r': Round)
    requires Inv(r.gas)
    ensures Inv(r'.gas)
  {
    ApplyInv(r.gas, h.call);
    Absorb(r, Apply(r.gas, h.call), h.len, h.sendOk)
  }

  /** An engine event with the answers the environment gives in its course. */
  datatype Happening = Happening(call: Call, len: nat, sendOk: bool)

  ghost function After(r: Round, hs: seq<Happening>): (r': Round)
    requires Inv(r.gas)
    ensures Inv(r'.gas)
  {
    if hs == [] then r
    else Event(After(r, hs[..|hs| - 1]), hs[|hs| - 1])
  }

  // ---- Measures ----

  /** Number of BSSes still to be queried. */
  function Untried(table: seq<Bss>): nat
  {
    if table == [] then 0
    else Untried(table[..|table| - 1]) + if Wanted(table[|table| - 1]) then 1 else 0
  }

  /** Number of pending queries of the round. */
  function Outstanding(pending: seq<Query>): nat
  {
    if pending == [] then 0
    else Outstanding(pending[..|pending| - 1]) + if pending[|pending| - 1].client == FetchRound then 1 else 0
  }

  lemma {:induction false} UntriedUpdate(table: seq<Bss>, i: nat, b: Bss)
    requires i < |table|
    ensures Untried(table[i := b]) ==
              Untried(table) - (if Wanted(table[i]) then 1 else 0) + (if Wanted(b) then 1 else 0)
  {
    var n := |table| - 1;
    if i < n {
      UntriedUpdate(table[..n], i, b);
      assert table[i := b][..n] == table[..n][i := b];
    } else {
      assert table[i := b][..n] == table[..n];
    }
  }

  lemma {:induction false} UntriedZero(table: seq<Bss>)
    ensures Untried(table) == 0 <==> NextWanted(table) == |table|
  {
    if table != [] {
      var n := |table| - 1;
      UntriedZero(table[..n]);
      var i := NextWanted(table);
      if i < n {
        assert Wanted(table[..n][i]);
      }
    }
  }

  lemma {:induction false} OutstandingSplit(a: seq<Query>, b: seq<Query>)
    ensures Outstanding(a + b) == Outstanding(a) + Outstanding(b)
  {
    if b == [] {
      assert a + b == a;
    } else {
      OutstandingSplit(a, b[..|b| - 1]);
      assert (a + b)[..|a + b| - 1] == a + b[..|b| - 1];
    }
  }

  lemma OutstandingAt(pending: seq<Query>, i: nat)
    requires i < |pending|
    ensures Outstanding(pending) ==
              Outstanding(pending[..i]) + Outstanding([pending[i]]) + Outstanding(pending[i + 1..])
  {
    hide Outstanding;
    OutstandingSplit(pending[..i], [pending[i]]);
    OutstandingSplit(pending[..i] + [pending[i]], pending[i + 1..]);
    assert pending == pending[..i] + [pending[i]] + pending[i + 1..];
  }

  function Weight(c: Client): nat
  {
    if c == FetchRound then 1 else 0
  }

  lemma OutstandingOne(q: Query)
    ensures Outstanding([q]) == Weight(q.client)
  {
    assert [q][..0] == [];
  }

  /** A request that starts joins the queries of its client. */
  lemma OutstandingRequest(s: Gas, c: Call)
    requires Inv(s) && c.Req?
    ensures var s' := Apply(s, c);
            && s'.log == s.log
            && Outstanding(s'.pending) == Outstanding(s.pending) + if s' == s then 0 else Weight(c.client)
  {
    var s' := Apply(s, c);
    hide Inv, FreeToken;
    if |s'.pending| == |s.pending| + 1 {
      OutstandingSplit([s'.pending[0]], s.pending);
      OutstandingOne(s'.pending[0]);
      assert s'.pending == [s'.pending[0]] + s.pending;
    }
  }

  /** Any other call: a query that ends leaves, everything else keeps their number. */
  lemma OutstandingEvent(s: Gas, c: Call)
    requires Inv(s) && !c.Req?
    ensures var s' := Apply(s, c);
            if |s'.log| > |s.log| then
              Outstanding(s'.pending) == Outstanding(s.pending) - Weight(s'.log[|s'.log| - 1].q.client)
            else
              Outstanding(s'.pending) == Outstanding(s.pending)
  {
    hide Inv, Step, Apply, Target, Outstanding, Settle;
    ApplyIs(s, c);
    if Target(s, c).Some? {
      var (i, e) := Target(s, c).value;
      SettledOutstanding(Expired(s, c), i, Step(s.pending[i], e));
    }
  }

  /** A call that is not a request settles the outcome of the query it is for, if any. */
  lemma ApplyIs(s: Gas, c: Call)
    requires Inv(s) && !c.Req?
    ensures match Target(s, c)
            case None => Apply(s, c).log == s.log && Apply(s, c).pending == s.pending
            case Some(t) =>
              && Sound(s.pending[t.0])
              && var o := Step(s.pending[t.0], t.1);
              && o.q.client == s.pending[t.0].client
              && Apply(s, c) == Settle(Expired(s, c), t.0, o)
              && (|Apply(s, c).log| > |s.log| <==> o.Done?)
              && (o.Done? ==> Apply(s, c).log[|Apply(s, c).log| - 1].q.client == o.q.client)
  {
    hide Accounted;
    if Target(s, c).Some? {
      assert s.pending[Target(s, c).value.0] in s.pending;
    }
  }

  lemma SettledOutstanding(s: Gas, i: nat, o: Outcome)
    requires i < |s.pending| && o.q.client == s.pending[i].client
    ensures var s' := Settle(s, i, o);
            Outstanding(s'.pending) == Outstanding(s.pending) - if o.Done? then Weight(o.q.client) else 0
  {
    var s' := Settle(s, i, o);
    OutstandingAt(s.pending, i);
    OutstandingOne(s.pending[i]);
    if o.Pending? {
      OutstandingAt(s'.pending, i);
      OutstandingOne(o.q);
      assert s'.pending[..i] == s.pending[..i] && s'.pending[i + 1..] == s.pending[i + 1..];
    } else {
      OutstandingSplit(s.pending[..i], s.pending[i + 1..]);
    }
  }

  // ---- The round over whole runs ----

  /** What is left to do: queries to make and queries to wait for. */
  function Work(r: Round): nat
  {
    Untried(r.table) + Outstanding(r.gas.pending)
  }

  /** Each BSS queried in the round was eligible, none was queried twice, and only they are
      marked as tried. */
  ghost predicate AskedOnce(r: Round)
  {
    && (forall i | 0 <= i < |r.table| && r.table[i].tried :: i in r.asked)
    && (forall k | 0 <= k < |r.asked| ::
          r.asked[k] < |r.table| && r.table[r.asked[k]].tried
          && r.table[r.asked[k]].ess && Interworking(r.table[r.asked[k]]))
    && (forall j, k | 0 <= j < k < |r.asked| :: r.asked[j] != r.asked[k])
  }

  /** A round that started with `n` BSSes to query, `selections` network selections made,
      and a selection to follow it if `wanted`. */
  ghost predicate OnTrack(r: Round, n: nat, selections: nat, wanted: bool)
  {
    && Inv(r.gas)
    && AskedOnce(r)
    && |r.asked| + Untried(r.table) <= n
    && (r.refused ==> r.inProgress)
    && (!r.inProgress ==> Untried(r.table) == 0)
    && (if r.inProgress then r.selections == selections && r.networkSelect == wanted
        else r.selections == selections + (if wanted then 1 else 0) && !r.networkSelect)
  }

  /** Between events a round in progress also has a query outstanding, unless its latest
      request did not start. */
  ghost predicate Underway(r: Round, n: nat, selections: nat, wanted: bool)
  {
    OnTrack(r, n, selections, wanted)
    && (r.inProgress && Outstanding(r.gas.pending) == 0 ==> r.refused)
  }

  /** The fetch loop makes one request for a BSS not queried before, or ends the round. */
  lemma NextFetchKeeps(r: Round, len: nat, sendOk: bool, n: nat, selections: nat, wanted: bool)
    requires OnTrack(r, n, selections, wanted)
    ensures Underway(NextFetch(r, len, sendOk), n, selections, wanted)
    ensures Work(NextFetch(r, len, sendOk)) <= Work(r)
    ensures NextFetch(r, len, sendOk).asked != r.asked ==>
              Untried(NextFetch(r, len, sendOk).table) == Untried(r.table) - 1
  {
    hide Inv, Apply, AskedOnce, Untried, Outstanding;
    var i := NextWanted(r.table);
    UntriedZero(r.table);
    if r.inProgress && i < |r.table| {
      UntriedUpdate(r.table, i, r.table[i].(tried := true));
      OutstandingRequest(r.gas, Ask(r.table[i], len, sendOk));
      AskedMore(r, i, NextFetch(r, len, sendOk));
    } else {
      AskedSame(r, NextFetch(r, len, sendOk));
    }
  }

  lemma AskedMore(r: Round, i: nat, next: Round)
    requires AskedOnce(r) && i < |r.table| && Wanted(r.table[i])
    requires next.table == r.table[i := r.table[i].(tried := true)] && next.asked == r.asked + [i]
    ensures AskedOnce(next)
  {
    assert i !in r.asked;
    assert next.asked[|r.asked|] == i;
  }

  lemma AskedSame(r: Round, next: Round)
    requires AskedOnce(r) && next.table == r.table && next.asked == r.asked
    ensures AskedOnce(next)
  {
  }

  lemma {:induction false} MarkFetchedLowers(table: seq<Bss>, c: Completion)
    ensures Untried(MarkFetched(table, c)) <= Untried(table)
  {
    var i := LastWith(table, c.q.addr);
    if i < |table| {
      UntriedUpdate(table, i, table[i].(fetched := true));
    }
  }

  lemma {:induction false} ClearedUntried(table: seq<Bss>, k: nat)
    requires k <= |table|
    ensures Untried(table[..k]) <= k
  {
    if k > 0 {
      ClearedUntried(table, k - 1);
      assert table[..k][..k - 1] == table[..k - 1];
    }
  }

  /** A query of the round ended in the step from `r.gas` to `gas`. */
  predicate RoundQueryEnds(r: Round, gas: Gas)
  {
    |gas.log| > |r.gas.log| && gas.log[|gas.log| - 1].q.client == FetchRound
  }

  lemma AbsorbKeeps(r: Round, gas: Gas, h: Happening, n: nat, selections: nat, wanted: bool)
    requires Underway(r, n, selections, wanted) && Inv(gas)
    requires if RoundQueryEnds(r, gas) then Outstanding(gas.pending) < Outstanding(r.gas.pending)
             else Outstanding(gas.pending) >= Outstanding(r.gas.pending)
    ensures Underway(Absorb(r, gas, h.len, h.sendOk), n, selections, wanted)
    ensures RoundQueryEnds(r, gas) ==> Work(Absorb(r, gas, h.len, h.sendOk)) < Work(r)
  {
    hide Inv, AskedOnce, Untried, Outstanding, MarkFetched, NextFetch;
    AskedSame(r, r.(gas := gas));
    if RoundQueryEnds(r, gas) {
      CallbackKeeps(r.(gas := gas), gas.log[|gas.log| - 1], h, n, selections, wanted);
    } else if |gas.log| > |r.gas.log| {
      MarkedKeeps(r.(gas := gas), gas.log[|gas.log| - 1], n, selections, wanted);
    }
  }

  lemma MarkedKeeps(r: Round, c: Completion, n: nat, selections: nat, wanted: bool)
    requires Underway(r, n, selections, wanted)
    ensures Underway(r.(table := MarkFetched(r.table, c)), n, selections, wanted)
  {
    hide Inv, AskedOnce, Untried, Outstanding, MarkFetched;
    MarkFetchedLowers(r.table, c);
    AskedMarked(r, c);
  }

  /** One event keeps the round in order; the end of one of its queries leaves less to do. */
  lemma EventKeeps(r: Round, h: Happening, n: nat, selections: nat, wanted: bool)
    requires Underway(r, n, selections, wanted)
    ensures Underway(Event(r, h), n, selections, wanted)
    ensures RoundQueryEnds(r, Apply(r.gas, h.call)) ==> Work(Event(r, h)) < Work(r)
  {
    hide Apply, AskedOnce, Outstanding, Untried, Absorb, Work, Accounted, DistinctPending;
    ApplyInv(r.gas, h.call);
    var gas := Apply(r.gas, h.call);
    if h.call.Req? {
      OutstandingRequest(r.gas, h.call);
    } else {
      OutstandingEvent(r.gas, h.call);
    }
    AbsorbKeeps(r, gas, h, n, selections, wanted);
  }

  lemma CallbackKeeps(r: Round, c: Completion, h: Happening, n: nat, selections: nat, wanted: bool)
    requires OnTrack(r, n, selections, wanted) && c.q.client == FetchRound
    ensures Underway(Callback(r, c, h.len, h.sendOk), n, selections, wanted)
    ensures Work(Callback(r, c, h.len, h.sendOk)) <= Work(r)
  {
    hide Inv, AskedOnce, Outstanding, Untried, NextFetch, MarkFetched;
    MarkFetchedLowers(r.table, c);
    AskedMarked(r, c);
    NextFetchKeeps(r.(table := MarkFetched(r.table, c)), h.len, h.sendOk, n, selections, wanted);
  }

  lemma AskedMarked(r: Round, c: Completion)
    requires AskedOnce(r)
    ensures AskedOnce(r.(table := MarkFetched(r.table, c)))
  {
    hide MarkFetched;
  }

  /** Every eligible BSS was queried or has been fetched. */
  ghost predicate AllAsked(r: Round)
  {
    forall i | 0 <= i < |r.table| && r.table[i].ess && Interworking(r.table[i]) && !r.table[i].fetched ::
      i in r.asked
  }

  lemma NoneLeft(r: Round)
    requires AskedOnce(r) && Untried(r.table) == 0
    ensures AllAsked(r)
  {
    UntriedZero(r.table);
    assert forall i | 0 <= i < |r.table| :: !Wanted(r.table[i]);
  }

  /** A round, from its start through any run of the query engine: each eligible BSS is
      queried at most once, with no more requests than BSSes wanted at the start, and when
      the round is over none was left out. When none of its queries is outstanding, the
      round is over unless its latest request did not start; when it is over, the network
      selection has run exactly once if one was requested and not at all otherwise, and
      before that it has not run. */
  lemma {:induction false} RoundOutcome(r0: Round, len: nat, sendOk: bool, hs: seq<Happening>)
    requires Inv(r0.gas)
    ensures var r := After(StartFetch(r0, len, sendOk), hs);
            && AskedOnce(r)
            && |r.asked| <= |r0.table|
            && (!r.inProgress ==> AllAsked(r))
            && (Outstanding(r.gas.pending) == 0 ==> (r.inProgress <==> r.refused))
            && r.selections == r0.selections + (if !r.inProgress && r0.networkSelect then 1 else 0)
            && (!r.inProgress ==> !r.networkSelect)
            && Underway(r, |r0.table|, r0.selections, r0.networkSelect)
  {
    var r1 := StartFetch(r0, len, sendOk);
    var r := After(r1, hs);
    if hs == [] {
      var cleared := Cleared(r0.table);
      ClearedUntried(cleared, |cleared|);
      assert cleared[..|cleared|] == cleared;
      NextFetchKeeps(r0.(table := cleared, inProgress := true, asked := [], refused := false), len, sendOk,
                     |r0.table|, r0.selections, r0.networkSelect);
    } else {
      RoundOutcome(r0, len, sendOk, hs[..|hs| - 1]);
      EventKeeps(After(r1, hs[..|hs| - 1]), hs[|hs| - 1], |r0.table|, r0.selections, r0.networkSelect);
    }
    if !r.inProgress {
      NoneLeft(r);
    }
  }

  // ---- Which BSSs are queried ----

  function PowerOfTwo(n: nat): (p: nat)
    ensures p > 0
  {
    if n == 0 then 1 else 2 * PowerOfTwo(n - 1)
  }

  /** Bit n of a field, the lowest bit of the first octet being bit 0. */
  predicate HasBit(field: Bytes, n: nat)
  {
    n / 8 < |field| && field[n / 8] as nat / PowerOfTwo(n % 8) % 2 == 1
  }

  /** Interworking is bit 31 of the Extended Capabilities (section 8.4.2.29 of IEEE Std
      802.11-2012); shorter fields do not have it. */
  lemma InterworkingIff(b: Bss, field: Bytes)
    requires |field| < 256 && b.extCapab == Some([127, |field|] + field)
    ensures Interworking(b) <==> HasBit(field, 31)
  {
    assert PowerOfTwo(7) == 128;
    var e := b.extCapab.value;
    assert |field| >= 4 ==> e[5] == field[3];
  }

  /** The fetch loop asks the first BSS that can do Interworking, has not been fetched and was
      not asked before, on its channel; such a request is refused only with 256 queries pending
      for it or if it cannot be sent. */
  lemma FirstIsAsked(r: Round, len: nat, sendOk: bool, i: nat)
    requires Inv(r.gas) && r.inProgress && i < |r.table|
    requires r.table[i].ess && Interworking(r.table[i]) && !r.table[i].fetched && !r.table[i].tried
    requires forall j | 0 <= j < i ::
      !(r.table[j].ess && Interworking(r.table[j]) && !r.table[j].fetched && !r.table[j].tried)
    ensures var r', b := NextFetch(r, len, sendOk), r.table[i];
      && r'.asked == r.asked + [i] && r'.inProgress
      && r'.table == r.table[i := b.(tried := true)]
      && (r'.refused <==> !sendOk || CountFor(r.gas.pending, b.bssid) == 256)
      && (r'.refused ==> r'.gas == r.gas)
      && (!r'.refused ==>
        && r'.gas.pending != [] && r'.gas.pending[1..] == r.gas.pending
        && r'.gas.pending[0].addr == b.bssid && r'.gas.pending[0].freq == b.freq
        && r'.gas.pending[0].client == FetchRound)
  {
    hide Apply, NextWanted, Interworking, Inv, CountFor, Sound, Find;
    assert NextWanted(r.table) == i;
    var c := Ask(r.table[i], len, sendOk);
    if sendOk {
      RefusedIffFull(r.gas, c);
      GrownPending(r.gas, c);
    } else {
      NotSent(r.gas, c);
    }
  }

  lemma GrownPending(s: Gas, c: Call)
    requires Inv(s) && c.Req?
    ensures Apply(s, c) != s ==> Apply(s, c).pending != []
  {
  }

  lemma NotSent(s: Gas, c: Call)
    requires Inv(s) && c.Req? && !c.reqSent
    ensures Apply(s, c) == s
  {
  }

  // ---- Which BSSs are fetched ----

  /** The completion is one of an ANQP query. */
  predicate OfAnqp(c: Completion)
  {
    c.q.client == FetchRound || c.q.client == AnqpRequest
  }

  /** Some completion from position `from` of the log on brings a response for entry i. */
  ghost predicate Brought(table: seq<Bss>, log: seq<Completion>, from: nat, i: nat)
    requires i < |table|
  {
    exists k: nat | from <= k < |log| :: OfAnqp(log[k]) && Fetches(table, log[k], i)
  }

  /** Only the flags of the entries differ. */
  predicate SameBsses(a: seq<Bss>, b: seq<Bss>)
  {
    |a| == |b| && forall i | 0 <= i < |a| :: b[i] == a[i].(fetched := b[i].fetched, tried := b[i].tried)
  }

  lemma CallLogsOne(s: Gas, c: Call)
    requires Inv(s)
    ensures s.log <= Apply(s, c).log && |Apply(s, c).log| <= |s.log| + 1
  {
    hide Step, FreeToken, Accounted;
    ApplyExtends(s, c);
  }

  /** The fetch loop does not touch flags of fetched entries, nor the log. */
  lemma NextFetchFlags(r: Round, len: nat, sendOk: bool)
    requires Inv(r.gas)
    ensures var r' := NextFetch(r, len, sendOk);
      && SameBsses(r.table, r'.table) && r'.gas.log == r.gas.log
      && forall i | 0 <= i < |r.table| :: r'.table[i].fetched == r.table[i].fetched
  {
    hide Apply, NextWanted;
    if r.inProgress && NextWanted(r.table) < |r.table| {
      OutstandingRequest(r.gas, Ask(r.table[NextWanted(r.table)], len, sendOk));
    }
  }

  /** A callback marks the entries its completion brings a response for. */
  lemma CallbackFlags(r: Round, c: Completion, len: nat, sendOk: bool)
    requires Inv(r.gas)
    ensures var r' := Callback(r, c, len, sendOk);
      && SameBsses(r.table, r'.table) && r'.gas.log == r.gas.log
      && forall i | 0 <= i < |r.table| ::
           r'.table[i].fetched <==> r.table[i].fetched || (OfAnqp(c) && Fetches(r.table, c, i))
  {
    hide NextFetch, Inv, MarkFetched, Fetches;
    NextFetchFlags(r.(table := MarkFetched(r.table, c)), len, sendOk);
  }

  lemma BroughtOne(table: seq<Bss>, log: seq<Completion>, i: nat)
    requires i < |table| && log != []
    ensures Brought(table, log, |log| - 1, i) <==> OfAnqp(log[|log| - 1]) && Fetches(table, log[|log| - 1], i)
  {
    hide Fetches;
  }

  /** One event: the entries it marks are those its completion brings a response for. */
  lemma EventFlags(r: Round, h: Happening)
    requires Inv(r.gas)
    ensures var r' := Event(r, h);
      && SameBsses(r.table, r'.table)
      && r.gas.log <= r'.gas.log && |r'.gas.log| <= |r.gas.log| + 1
      && forall i | 0 <= i < |r.table| ::
           r'.table[i].fetched <==> r.table[i].fetched || Brought(r.table, r'.gas.log, |r.gas.log|, i)
  {
    hide Apply, Callback, Inv, Fetches, OfAnqp, SameBsses;
    CallLogsOne(r.gas, h.call);
    var gas := GasAfter(r.gas, h.call);
    SameRefl(r.table);
    if |gas.log| > |r.gas.log| {
      CallbackFlags(r.(gas := gas), gas.log[|gas.log| - 1], h.len, h.sendOk);
      forall i | 0 <= i < |r.table|
        ensures Brought(r.table, gas.log, |r.gas.log|, i) <==>
          OfAnqp(gas.log[|gas.log| - 1]) && Fetches(r.table, gas.log[|gas.log| - 1], i)
      {
        BroughtOne(r.table, gas.log, i);
      }
    }
  }

  lemma SameRefl(a: seq<Bss>)
    ensures SameBsses(a, a)
  {
  }

  ghost function GasAfter(s: Gas, c: Call): (s': Gas)
    requires Inv(s)
    ensures Inv(s') && AllSound(s) && s' == Apply(s, c)
  {
    ApplyInv(s, c);
    Apply(s, c)
  }

  lemma FetchesSame(a: seq<Bss>, b: seq<Bss>, c: Completion, i: nat)
    requires SameBsses(a, b) && i < |a|
    ensures Fetches(a, c, i) <==> Fetches(b, c, i)
  {
  }

  /** In every run, an entry is marked as fetched exactly if it was before or an ANQP query has
      completed with a response for it: a success, under an ANQP element, from its BSSID. */
  lemma {:induction false} FetchedIff(r0: Round, len: nat, sendOk: bool, hs: seq<Happening>)
    requires Inv(r0.gas)
    ensures var r := After(StartFetch(r0, len, sendOk), hs);
      && SameBsses(r0.table, r.table) && r0.gas.log <= r.gas.log
      && forall i | 0 <= i < |r0.table| ::
           r.table[i].fetched <==> r0.table[i].fetched || Brought(r0.table, r.gas.log, |r0.gas.log|, i)
  {
    hide Event, NextFetch, Inv, Fetches;
    if hs == [] {
      NextFetchFlags(r0.(table := Cleared(r0.table), inProgress := true, asked := [], refused := false), len, sendOk);
    } else {
      var n := |hs| - 1;
      FetchedIff(r0, len, sendOk, hs[..n]);
      var r1 := After(StartFetch(r0, len, sendOk), hs[..n]);
      EventFlags(r1, hs[n]);
      var r := Event(r1, hs[n]);
      forall i | 0 <= i < |r0.table|
        ensures Brought(r0.table, r.gas.log, |r0.gas.log|, i) <==>
          Brought(r0.table, r1.gas.log, |r0.gas.log|, i) || Brought(r1.table, r.gas.log, |r1.gas.log|, i)
      {
        BroughtSplit(r0.table, r1.table, r1.gas.log, r.gas.log, |r0.gas.log|, i);
      }
    }
  }

  lemma BroughtSplit(a: seq<Bss>, b: seq<Bss>, log: seq<Completion>, longer: seq<Completion>, from: nat, i: nat)
    requires SameBsses(a, b) && i < |a| && log <= longer && from <= |log|
    ensures Brought(a, longer, from, i) <==> Brought(a, log, from, i) || Brought(b, longer, |log|, i)
  {
    hide Fetches;
    forall k: nat | k < |longer| ensures Fetches(a, longer[k], i) <==> Fetches(b, longer[k], i) {
      FetchesSame(a, b, longer[k], i);
    }
    assert forall k: nat | k < |log| :: log[k] == longer[k];
  }

  /** What the callback of the round asks of the query engine. */
  ghost function CallbackActs(r: Round, c: Completion, len: nat, sendOk: bool): seq<Act>
  {
    var table := MarkFetched(r.table, c);
    var i := NextWanted(table);
    if c.q.client == FetchRound && r.inProgress && i < |table|
    then [Start(table[i].bssid, table[i].freq, 3 + len, FetchRound, sendOk)]
    else []
  }

  lemma CallbackPerforms(r: Round, c: Completion, len: nat, sendOk: bool)
    requires Inv(r.gas)
    ensures Callback(r, c, len, sendOk).gas == Perform(r.gas, CallbackActs(r, c, len, sendOk))
  {
    hide Inv, Apply;
    var acts := CallbackActs(r, c, len, sendOk);
    if acts != [] {
      assert acts[1..] == [];
      assert Perform(r.gas, acts) == PerformOne(r.gas, acts[0]);
    }
  }

  /** The round drives the engine only from inside callbacks: an event with everything it
      leads to is one engine call whose callback starts at most one query. */
  lemma EventIsRespond(r: Round, h: Happening) returns (acts: seq<Act>)
    requires Inv(r.gas)
    ensures Event(r, h).gas == Respond(r.gas, h.call, acts)
    ensures |acts| <= 1 && forall a | a in acts :: a.Start? && a.client == FetchRound
  {
    hide Apply, Perform, PerformOne, Callback, MarkFetched, NextWanted;
    ApplyInv(r.gas, h.call);
    var gas := Apply(r.gas, h.call);
    acts := [];
    if |gas.log| > |r.gas.log| {
      var r1, c := r.(gas := gas), gas.log[|gas.log| - 1];
      CallbackPerforms(r1, c, h.len, h.sendOk);
      acts := CallbackActs(r1, c, h.len, h.sendOk);
    }
  }
}
