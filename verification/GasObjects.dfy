/** gas_query.c in its own form: entries linked into a list and updated in place by
    event handlers, with a completion callback that may call back in. Every method is
    proved equal to the corresponding transition of module GasEngine. */
module GasObjects {
  import opened Octets
  import opened GasFrame
  import opened GasQuery
  import opened GasEngine

  /** struct gas_query_pending */
  class PendingQuery {
    const id: nat
    const addr: Mac
    const token: byte
    const freq: int
    const client: Client
    var nextFrag: byte
    var waitComeback: bool
    var status: nat
    var adv: Option<Bytes>
    var resp: Option<Bytes>

    function View(): Query
      reads this
    {
      Query(id, addr, token, freq, client, nextFrag, waitComeback, status, adv, resp)
    }

    constructor (id: nat, addr: Mac, token: byte, freq: int, client: Client)
      ensures View() == Created(id, addr, token, freq, client)
    {
      this.id, this.addr, this.token, this.freq, this.client := id, addr, token, freq, client;
      nextFrag, waitComeback, status, adv, resp := 0, false, 0, None, None;
    }

    /** gas_query_append */
    method Append(data: Bytes)
      modifies this
      ensures View() == Appended(old(View()), data)
    {
      resp := Some(if resp.Some? then resp.value + data else data);
    }
  }

  /** The entries of the list are different objects. */
  ghost predicate Separate(ps: seq<PendingQuery>)
  {
    forall i, j | 0 <= i < j < |ps| :: ps[i] != ps[j]
  }

  function Views(ps: seq<PendingQuery>): (vs: seq<Query>)
    reads ps
    ensures |vs| == |ps| && forall i | 0 <= i < |ps| :: vs[i] == ps[i].View()
  {
    seq(|ps|, i requires 0 <= i < |ps| reads ps => ps[i].View())
  }

  /** struct gas_query, together with the event-loop timers that name its entries and
      the callbacks it has made. */
  class GasQueries {
    var pending: seq<PendingQuery>
    var timers: multiset<Timer>
    var log: seq<Completion>
    var nextId: nat

    ghost function Entries(): set<PendingQuery>
      reads this
    {
      set p | p in pending
    }

    ghost function State(): Gas
      reads this, pending
    {
      Gas(Views(pending), timers, log, nextId)
    }

    ghost predicate Valid()
      reads this, pending
    {
      Inv(State()) && Separate(pending)
    }

    /** A handler started in state `s` is at work on entry i and has touched nothing else,
        except that a timer of that entry may have expired. */
    ghost predicate Handling(s: Gas, i: nat)
      reads this, pending
    {
      && Inv(s) && Separate(pending)
      && i < |s.pending| == |pending|
      && (forall k | 0 <= k < |pending| && k != i :: pending[k].View() == s.pending[k])
      && pending[i].id == s.pending[i].id
      && log == s.log && nextId == s.nextId
      && WithoutTimers(timers, pending[i].id) == WithoutTimers(s.timers, pending[i].id)
    }

    constructor ()
      ensures Valid() && State() == Initial() && pending == []
    {
      pending, timers, log, nextId := [], multiset{}, [], 0;
    }

    /** gas_query_get_pending */
    method GetPending(addr: Mac, token: byte) returns (i: nat)
      ensures i == Find(Views(pending), addr, token)
    {
      i := 0;
      while i < |pending|
        invariant i <= |pending|
        invariant forall k | 0 <= k < i :: pending[k].addr != addr || pending[k].token != token
      {
        if pending[i].addr == addr && pending[i].token == token {
          return;
        }
        i := i + 1;
      }
    }

    /** gas_query_dialog_token_available */
    method TokenAvailable(dst: Mac, token: byte) returns (free: bool)
      ensures free <==> Find(Views(pending), dst, token) == |pending|
    {
      var i := 0;
      while i < |pending|
        invariant i <= |pending|
        invariant forall k | 0 <= k < i :: pending[k].addr != dst || pending[k].token != token
      {
        if dst == pending[i].addr && token == pending[i].token {
          return false;
        }
        i := i + 1;
      }
      return true;
    }

    /** gas_query_done up to and including the call of the callback. */
    method Unlink(i: nat, result: Result, ghost s: Gas)
      requires Handling(s, i) && Follows(s.pending[i], Done(pending[i].View(), result))
      modifies this
      ensures Valid() && Entries() <= old(Entries())
      ensures State() == Settled(s, i, Done(old(pending[i].View()), result))
    {
      hide Inv;
      var q := pending[i];
      timers := timers[Comeback(q.id) := 0];
      timers := timers[Overall(q.id) := 0];
      pending := Without(pending, i);
      log := log + [Completion(q.View(), result)];
      assert Views(pending) == Without(s.pending, i);
      assert State() == Settled(s, i, Done(q.View(), result));
    }

    /** gas_query_done: cancel both timers, unlink, call back, and let the callback act. */
    method Complete(i: nat, result: Result, acts: seq<Act>, ghost s: Gas)
      requires Handling(s, i) && Follows(s.pending[i], Done(pending[i].View(), result))
      modifies this, Entries()
      ensures Valid() && fresh(Entries() - old(Entries()))
      ensures State() == After(s, i, Done(old(pending[i].View()), result), acts)
      decreases acts, 3
    {
      hide Inv, Perform;
      Unlink(i, result, s);
      PerformActs(acts);
    }

    /** What a callback does: start and cancel queries. */
    method PerformActs(acts: seq<Act>)
      requires Valid()
      modifies this, Entries()
      ensures Valid() && fresh(Entries() - old(Entries()))
      ensures State() == Perform(old(State()), acts)
      decreases acts, 2
    {
      hide Inv, PerformOne;
      var k := 0;
      while k < |acts|
        invariant k <= |acts|
        invariant Valid() && fresh(Entries() - old(Entries()))
        invariant Perform(State(), acts[k..]) == Perform(old(State()), acts)
      {
        assert acts[k..][0] == acts[k] && acts[k..][1..] == acts[k + 1..];
        PerformAct(acts[k]);
        k := k + 1;
      }
    }

    method PerformAct(act: Act)
      requires Valid()
      modifies this, Entries()
      ensures Valid() && fresh(Entries() - old(Entries()))
      ensures State() == PerformOne(old(State()), act)
      decreases act, 5
    {
      hide Inv, Respond, Apply;
      match act {
        case Start(dst, freq, len, client, reqSent) =>
          var _, _ := Request(dst, freq, seq(len, _ => 0), client, reqSent);
        case Drop(peer, token, onDone) =>
          CancelPending(peer, token, onDone);
      }
    }

    /** The token loop of gas_query_req: the lowest free token, or 256. */
    method PickToken(dst: Mac) returns (t: nat)
      ensures t == FreeToken(Views(pending), dst, 0)
    {
      t := 0;
      while t < 256
        invariant t <= 256
        invariant FreeToken(Views(pending), dst, t) == FreeToken(Views(pending), dst, 0)
      {
        var free := TokenAvailable(dst, t);
        if free {
          break;
        }
        t := t + 1;
      }
    }

    /** A new entry at the head of the list, with its overall timer. */
    method Link(dst: Mac, freq: int, t: byte, client: Client)
      modifies this
      ensures fresh(Entries() - old(Entries()))
      ensures State() == Gas([Created(old(nextId), dst, t, freq, client)] + old(State()).pending,
                             old(timers) + multiset{Overall(old(nextId))}, old(log), old(nextId) + 1)
      ensures old(Separate(pending)) ==> Separate(pending)
    {
      ghost var before := Views(pending);
      var q := new PendingQuery(nextId, dst, t, freq, client);
      pending := [q] + pending;
      nextId := nextId + 1;
      timers := timers + multiset{Overall(q.id)};
      assert Views(pending) == [q.View()] + before;
    }

    /** gas_query_req: the dialog token, and the request frame with the token filled in. */
    method Request(dst: Mac, freq: int, req: Bytes, client: Client, sent: bool) returns (r: int, frame: Bytes)
      requires Valid()
      modifies this
      ensures Valid() && fresh(Entries() - old(Entries()))
      ensures State() == Apply(old(State()), Req(dst, freq, |req|, client, sent))
      ensures r == -1 <==> State() == old(State())
      ensures r != -1 ==> 0 <= r == State().pending[0].token && frame == req[2 := r]
    {
      hide Inv, FreeToken, Find;
      RequestInv(State(), Req(dst, freq, |req|, client, sent));
      if |req| < 3 {
        return -1, req;
      }
      var t := PickToken(dst);
      if t == 256 {
        return -1, req;
      }
      frame := req[2 := t];
      if !sent {
        return -1, frame;
      }
      Link(dst, freq, t, client);
      r := t;
    }

    /** gas_query_cancel */
    method CancelPending(dst: Mac, token: byte, acts: seq<Act>)
      requires Valid()
      modifies this, Entries()
      ensures Valid() && fresh(Entries() - old(Entries()))
      ensures State() == Respond(old(State()), CancelQuery(dst, token), acts)
      decreases acts, 4
    {
      hide Inv, Respond, Perform;
      ghost var s := State();
      CallIsAfter(s, CancelQuery(dst, token), acts);
      var i := GetPending(dst, token);
      if i < |pending| {
        Complete(i, Cancelled, acts, s);
      }
    }

    /** gas_query_timeout; the event loop has dropped the timer that fired. */
    method OverallTimeout(i: nat, acts: seq<Act>)
      requires Valid() && i < |pending| && Overall(pending[i].id) in timers
      modifies this, Entries()
      ensures Valid() && fresh(Entries() - old(Entries()))
      ensures State() == Respond(old(State()), Fire(Overall(old(pending)[i].id), true), acts)
    {
      hide Inv, Respond, Perform;
      ghost var s := State();
      OverallIsAfter(s, i, acts);
      timers := timers - multiset{Overall(pending[i].id)};
      Complete(i, Timeout, acts, s);
    }

    /** gas_query_tx_comeback_timeout */
    method ComebackTimeout(i: nat, sendOk: bool, acts: seq<Act>)
      requires Valid() && i < |pending| && Comeback(pending[i].id) in timers
      modifies this, Entries()
      ensures Valid() && fresh(Entries() - old(Entries()))
      ensures State() == Respond(old(State()), Fire(Comeback(old(pending)[i].id), sendOk), acts)
    {
      hide Inv, Respond, Perform;
      ComebackIsAfter(State(), i, sendOk, acts);
      timers := timers - multiset{Comeback(pending[i].id)};
      TxComebackReq(i, sendOk, acts, State());
    }

    /** gas_query_tx_comeback_req, sent at once or on the comeback timer. */
    method TxComebackReq(i: nat, sendOk: bool, acts: seq<Act>, ghost s: Gas)
      requires Handling(s, i) && timers == s.timers
      requires Follows(s.pending[i], Pending(pending[i].View(), false))
      modifies this, Entries()
      ensures Valid() && fresh(Entries() - old(Entries()))
      ensures State() == After(s, i, SendComeback(old(pending[i].View()), sendOk), acts)
    {
      if !sendOk {
        Complete(i, InternalError, acts, s);
      } else {
        assert State() == Settled(s, i, Pending(pending[i].View(), false));
      }
    }

    /** gas_query_tx_comeback_req_delay */
    method TxComebackReqDelay(i: nat, ghost s: Gas)
      requires Handling(s, i) && timers == s.timers
      requires Follows(s.pending[i], Pending(pending[i].View(), true))
      modifies this
      ensures Valid() && pending == old(pending)
      ensures State() == Settled(s, i, Pending(pending[i].View(), true))
    {
      timers := timers[Comeback(pending[i].id) := 0];
      timers := timers + multiset{Comeback(pending[i].id)};
      assert timers == s.timers[Comeback(pending[i].id) := 1];
      assert State() == Settled(s, i, Pending(pending[i].View(), true));
    }

    /** gas_query_rx_initial */
    method RxInitialResp(i: nat, b: Body, acts: seq<Act>, ghost s: Gas)
      requires Handling(s, i) && timers == s.timers
      requires pending[i].View() == s.pending[i] && !pending[i].waitComeback
      requires Sound(s.pending[i]) && Follows(s.pending[i], RxInitial(s.pending[i], b))
      modifies this, Entries()
      ensures Valid() && fresh(Entries() - old(Entries()))
      ensures State() == After(s, i, RxInitial(s.pending[i], b), acts)
    {
      hide Inv, Perform;
      var q := pending[i];
      q.adv := Some(b.adv);
      if b.delay != 0 {
        q.waitComeback := true;
        TxComebackReqDelay(i, s);
        return;
      }
      q.Append(b.resp);
      Complete(i, Success, acts, s);
    }

    /** gas_query_rx_comeback */
    method RxComebackResp(i: nat, b: Body, sendOk: bool, acts: seq<Act>, ghost s: Gas)
      requires Handling(s, i) && timers == s.timers
      requires pending[i].View() == s.pending[i] && pending[i].waitComeback
      requires Sound(s.pending[i]) && b.frag < 128
      requires Follows(s.pending[i], RxComeback(s.pending[i], b, sendOk))
      modifies this, Entries()
      ensures Valid() && fresh(Entries() - old(Entries()))
      ensures State() == After(s, i, RxComeback(s.pending[i], b, sendOk), acts)
    {
      hide Inv, Perform;
      var q := pending[i];
      if b.adv != q.adv.value {
        Complete(i, PeerError, acts, s);
        return;
      }
      if b.delay != 0 {
        if b.frag != 0 {
          Complete(i, PeerError, acts, s);
          return;
        }
        TxComebackReqDelay(i, s);
        return;
      }
      if b.frag != q.nextFrag {
        Complete(i, PeerError, acts, s);
        return;
      }
      q.nextFrag := (q.nextFrag + 1) % 256;
      q.Append(b.resp);
      if b.more {
        TxComebackReq(i, sendOk, acts, s);
        return;
      }
      Complete(i, Success, acts, s);
    }

    /** gas_query_rx up to and including the lookup */
    method Receive(sa: Mac, data: Bytes, sendOk: bool, acts: seq<Act>) returns (r: int)
      requires Valid()
      modifies this, Entries()
      ensures Valid() && fresh(Entries() - old(Entries()))
      ensures State() == Respond(old(State()), Rx(sa, data, sendOk), acts)
      ensures r == if Target(old(State()), Rx(sa, data, sendOk)).None? then -1 else 0
    {
      hide Inv, Respond, Perform, RxFrame;
      ghost var s := State();
      CallIsAfter(s, Rx(sa, data, sendOk), acts);
      if |data| < 4 {
        return -1;
      }
      if data[0] != GAS_INITIAL_RESP && data[0] != GAS_COMEBACK_RESP {
        return -1;
      }
      var i := GetPending(sa, data[1]);
      if i == |pending| {
        return -1;
      }
      Dispatch(i, data, sendOk, acts, s);
      return 0;
    }

    /** gas_query_rx after the lookup */
    method Dispatch(i: nat, data: Bytes, sendOk: bool, acts: seq<Act>, ghost s: Gas)
      requires Valid() && State() == s && i < |pending|
      requires |data| >= 4 && (data[0] == GAS_INITIAL_RESP || data[0] == GAS_COMEBACK_RESP)
      requires Sound(s.pending[i]) && Follows(s.pending[i], RxFrame(s.pending[i], data, sendOk))
      modifies this, Entries()
      ensures Valid() && fresh(Entries() - old(Entries()))
      ensures State() == After(s, i, RxFrame(s.pending[i], data, sendOk), acts)
    {
      hide Inv, Perform;
      var q := pending[i];
      var comeback := data[0] == GAS_COMEBACK_RESP;
      assert s.pending[i := s.pending[i]] == s.pending;
      if q.waitComeback != comeback {
        return;
      }
      q.status := Le16(data, 2);
      if q.status != 0 {
        Complete(i, Failure, acts, s);
        return;
      }
      assert Views(pending) == s.pending;
      var b := ParseBody(data, comeback);
      if b.None? {
        return;
      }
      if comeback {
        RxComebackResp(i, b.value, sendOk, acts, s);
      } else {
        RxInitialResp(i, b.value, acts, s);
      }
    }
  }

  function WithoutTimers(timers: multiset<Timer>, id: nat): multiset<Timer>
  {
    timers[Comeback(id) := 0][Overall(id) := 0]
  }

  ghost function Settled(s: Gas, i: nat, o: Outcome): (s': Gas)
    requires Inv(s) && i < |s.pending| && Follows(s.pending[i], o)
    ensures Inv(s')
  {
    SettleInv(s, i, o);
    Settle(s, i, o)
  }

  /** The state after an outcome and, if it ended the query, all its callback did. */
  ghost function After(s: Gas, i: nat, o: Outcome, acts: seq<Act>): (s': Gas)
    requires Inv(s) && i < |s.pending| && Follows(s.pending[i], o)
    ensures Inv(s')
  {
    if o.Done? then Perform(Settled(s, i, o), acts) else Settled(s, i, o)
  }

  lemma StepFollows(q: Query, e: Input)
    requires Sound(q)
    ensures Follows(q, Step(q, e))
  {
    hide RxFrame;
  }

  /** Responding to a call is settling the outcome of the input it delivers. */
  lemma CallIsAfter(s: Gas, c: Call, acts: seq<Act>)
    requires Inv(s) && !c.Req? && !c.Fire?
    ensures Target(s, c).None? ==> Respond(s, c, acts) == s
    ensures Target(s, c).Some? ==>
              var (i, e) := Target(s, c).value;
              && Sound(s.pending[i])
              && Follows(s.pending[i], Step(s.pending[i], e))
              && Respond(s, c, acts) == After(s, i, Step(s.pending[i], e), acts)
  {
    if Target(s, c).Some? {
      var (i, e) := Target(s, c).value;
      assert s.pending[i] in s.pending;
      StepFollows(s.pending[i], e);
      hide Inv, Step, Perform;
      assert Apply(s, c) == Settled(s, i, Step(s.pending[i], e));
    }
  }

  lemma OverallIsAfter(s: Gas, i: nat, acts: seq<Act>)
    requires Inv(s) && i < |s.pending| && Overall(s.pending[i].id) in s.timers
    ensures Follows(s.pending[i], Done(s.pending[i], Timeout))
    ensures Respond(s, Fire(Overall(s.pending[i].id), true), acts) == After(s, i, Done(s.pending[i], Timeout), acts)
  {
    var c := Fire(Overall(s.pending[i].id), true);
    assert s.pending[i] in s.pending;
    PositionUnique(s.pending, i);
    hide Inv, Perform;
    assert Apply(s, c) == Settled(s, i, Done(s.pending[i], Timeout));
  }

  lemma ComebackIsAfter(s: Gas, i: nat, sendOk: bool, acts: seq<Act>)
    requires Inv(s) && i < |s.pending| && Comeback(s.pending[i].id) in s.timers
    ensures var c := Fire(Comeback(s.pending[i].id), sendOk);
            && Inv(Expired(s, c))
            && Follows(s.pending[i], Pending(s.pending[i], false))
            && Follows(s.pending[i], SendComeback(s.pending[i], sendOk))
            && Respond(s, c, acts) == After(Expired(s, c), i, SendComeback(s.pending[i], sendOk), acts)
  {
    var c := Fire(Comeback(s.pending[i].id), sendOk);
    assert s.pending[i] in s.pending;
    PositionUnique(s.pending, i);
    ExpiredInv(s, c);
    hide Inv, Perform;
    assert Apply(s, c) == Settled(Expired(s, c), i, SendComeback(s.pending[i], sendOk));
  }
}
