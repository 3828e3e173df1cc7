/** The fetch loop of interworking.c in its own form, over the engine of module GasObjects. */
module AnqpFetchObjects {
  import opened Octets
  import opened GasQuery
  import opened GasEngine
  import opened GasObjects
  import opened AnqpFetch

  /** The part of struct wpa_supplicant that the fetch round uses. `asked` and `refused`
      record what the round did. */
  class Fetcher {
    var table: seq<Bss>
    var inProgress: bool
    var networkSelect: bool
    var selections: nat
    const gas: GasQueries
    ghost var asked: seq<nat>
    ghost var refused: bool

    constructor (table: seq<Bss>, gas: GasQueries)
      ensures this.gas == gas && this.table == table
      ensures !inProgress && !networkSelect && selections == 0
    {
      this.table, this.gas := table, gas;
      inProgress, networkSelect, selections := false, false, 0;
      asked, refused := [], false;
    }

    ghost predicate Valid()
      reads this, gas, gas.pending
    {
      gas.Valid()
    }

    ghost function State(): Round
      reads this, gas, gas.pending
    {
      Round(table, inProgress, networkSelect, selections, gas.State(), asked, refused)
    }

    /** The loop over the BSS table. */
    method Search() returns (i: nat)
      ensures i == NextWanted(table)
    {
      i := 0;
      while i < |table|
        invariant i <= |table|
        invariant forall k | 0 <= k < i :: !Wanted(table[k])
      {
        var b := table[i];
        if b.ess && Interworking(b) && !b.fetched && !b.tried {
          return;
        }
        i := i + 1;
      }
    }

    /** interworking_anqp_send_req for the BSS that the loop found */
    method AskNext(i: nat, req: Bytes, sendOk: bool)
      requires Valid() && |req| >= 3 && inProgress && i == NextWanted(table) < |table|
      modifies this, gas
      ensures Valid() && fresh(gas.Entries() - old(gas.Entries()))
      ensures State() == NextFetch(old(State()), |req| - 3, sendOk)
    {
      hide Inv, Apply, Wanted, NextWanted, Views, Separate, NextFetch;
      AskIs(State(), |req| - 3, sendOk);
      table := table[i := table[i].(tried := true)];
      ghost var before := gas.State();
      var _, _ := gas.Request(table[i].bssid, table[i].freq, req, FetchRound, sendOk);
      asked, refused := asked + [i], gas.State() == before;
    }

    /** interworking_next_anqp_fetch */
    method Next(req: Bytes, sendOk: bool)
      requires Valid() && |req| >= 3
      modifies this, gas
      ensures Valid() && fresh(gas.Entries() - old(gas.Entries()))
      ensures State() == NextFetch(old(State()), |req| - 3, sendOk)
    {
      hide Inv, Apply, Wanted, NextWanted, Views, Separate;
      if !inProgress {
        return;
      }
      var i := Search();
      if i < |table| {
        AskNext(i, req, sendOk);
      } else {
        inProgress, refused := false, false;
        if networkSelect {
          SelectNetwork();
        }
      }
    }

    /** interworking_select_network, as far as it concerns the round. */
    method SelectNetwork()
      modifies this`networkSelect, this`selections
      ensures !networkSelect && selections == old(selections) + 1
    {
      networkSelect := false;
      selections := selections + 1;
    }

    /** interworking_start_fetch_anqp */
    method StartRound(req: Bytes, sendOk: bool)
      requires Valid() && |req| >= 3
      modifies this, gas
      ensures Valid() && fresh(gas.Entries() - old(gas.Entries()))
      ensures State() == StartFetch(old(State()), |req| - 3, sendOk)
    {
      hide Inv, NextFetch;
      ghost var was := table;
      var i := 0;
      while i < |table|
        invariant i <= |table| == |was|
        invariant forall k | 0 <= k < |table| :: table[k] == if k < i then was[k].(tried := false) else was[k]
        invariant gas.State() == old(gas.State()) && gas.Valid() && gas.pending == old(gas.pending)
        invariant (networkSelect, selections) == old((networkSelect, selections))
      {
        table := table[i := table[i].(tried := false)];
        i := i + 1;
      }
      inProgress := true;
      asked, refused := [], false;
      assert table == Cleared(was);
      Next(req, sendOk);
    }

    /** anqp_resp_cb, with the search from the end of wpa_bss_get_bssid */
    method AnqpResponse(c: Completion)
      modifies this`table
      ensures table == MarkFetched(old(table), c)
    {
      if c.result != Success || c.q.adv.None? {
        return;
      }
      var adv := c.q.adv.value;
      if |adv| < 4 || adv[0] != 108 || adv[1] < 2 || adv[3] != 0 {
        return;
      }
      var i: nat := |table|;
      while i > 0
        invariant i <= |table|
        invariant forall j | i <= j < |table| :: table[j].bssid != c.q.addr
      {
        i := i - 1;
        if table[i].bssid == c.q.addr {
          table := table[i := table[i].(fetched := true)];
          return;
        }
      }
    }

    /** interworking_anqp_resp_cb */
    method ResponseCallback(c: Completion, req: Bytes, sendOk: bool)
      requires Valid() && |req| >= 3 && c.q.client == FetchRound
      modifies this, gas
      ensures Valid() && fresh(gas.Entries() - old(gas.Entries()))
      ensures State() == Callback(old(State()), c, |req| - 3, sendOk)
    {
      hide Inv, NextFetch;
      AnqpResponse(c);
      Next(req, sendOk);
    }
  }

  lemma AskIs(r: Round, len: nat, sendOk: bool)
    requires Inv(r.gas) && r.inProgress && NextWanted(r.table) < |r.table|
    ensures var i := NextWanted(r.table);
      var gas := Apply(r.gas, Ask(r.table[i], len, sendOk));
      NextFetch(r, len, sendOk) == r.(table := r.table[i := r.table[i].(tried := true)],
        gas := gas, asked := r.asked + [i], refused := gas == r.gas)
  {
  }
}
