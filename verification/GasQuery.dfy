/** One GAS query as an automaton over what is delivered to it: response frames,
    its two timers and a cancel. The engine keeps a list of these. */
module GasQuery {
  import opened Octets
  import opened GasFrame

  type Mac = Bytes

  datatype Result = Success | Failure | Timeout | PeerError | InternalError | Cancelled

  /** Who asked: the ANQP fetch round, a single ANQP request, or another caller of
      gas_query_req. */
  datatype Client = FetchRound | AnqpRequest | Other

  /** struct gas_query_pending; `id` stands for its address in memory. */
  datatype Query = Query(
    id: nat, addr: Mac, token: byte, freq: int, client: Client,
    nextFrag: byte, waitComeback: bool, status: nat,
    adv: Option<Bytes>, resp: Option<Bytes>)

  /** A query as gas_query_req creates it. */
  function Created(id: nat, addr: Mac, token: byte, freq: int, client: Client): Query
  {
    Query(id, addr, token, freq, client, 0, false, 0, None, None)
  }

  /** Inputs; `sendOk` says whether a comeback request sent in reaction is accepted
      by the off-channel transmitter. */
  datatype Input =
    | Frame(data: Bytes, sendOk: bool)
    | ComebackTimer(sendOk: bool)
    | OverallTimer
    | Cancel

  /** A query stays pending, possibly with its comeback timer set anew, or it ends. */
  datatype Outcome =
    | Pending(q: Query, rearm: bool)
    | Done(q: Query, result: Result)

  /** What holds of a query as long as it is pending. */
  predicate Sound(q: Query)
  {
    && (q.waitComeback <==> q.adv.Some?)
    && (q.nextFrag == 0 <==> q.resp.None?)
    && (q.resp.Some? ==> q.waitComeback)
    && q.nextFrag <= 128
    && q.status == 0
  }

  /** gas_query_append */
  function Appended(q: Query, data: Bytes): Query
  {
    q.(resp := Some(if q.resp.Some? then q.resp.value + data else data))
  }

  /** gas_query_tx_comeback_req */
  function SendComeback(q: Query, sendOk: bool): Outcome
  {
    if sendOk then Pending(q, false) else Done(q, InternalError)
  }

  /** gas_query_rx_initial */
  function RxInitial(q: Query, b: Body): Outcome
  {
    var q1 := q.(adv := Some(b.adv));
    if b.delay != 0 then Pending(q1.(waitComeback := true), true)
    else Done(Appended(q1, b.resp), Success)
  }

  /** gas_query_rx_comeback */
  function RxComeback(q: Query, b: Body, sendOk: bool): Outcome
    requires q.adv.Some?
  {
    if b.adv != q.adv.value then Done(q, PeerError)
    else if b.delay != 0 then
      if b.frag != 0 then Done(q, PeerError) else Pending(q, true)
    else if b.frag != q.nextFrag then Done(q, PeerError)
    else
      var q1 := Appended(q.(nextFrag := (q.nextFrag + 1) % 256), b.resp);
      if b.more then SendComeback(q1, sendOk) else Done(q1, Success)
  }

  /** The part of gas_query_rx that follows the lookup of the query. */
  function RxFrame(q: Query, data: Bytes, sendOk: bool): Outcome
    requires Sound(q)
    requires |data| >= 4
  {
    if data[0] != GAS_INITIAL_RESP && data[0] != GAS_COMEBACK_RESP then Pending(q, false)
    else
      var comeback := data[0] == GAS_COMEBACK_RESP;
      if q.waitComeback != comeback then Pending(q, false)
      else
        var q1 := q.(status := Le16(data, 2));
        if q1.status != 0 then Done(q1, Failure)
        else
          match ParseBody(data, comeback)
          case None => Pending(q1, false)
          case Some(b) => if comeback then RxComeback(q1, b, sendOk) else RxInitial(q1, b)
  }

  function Step(q: Query, e: Input): (o: Outcome)
    requires Sound(q)
    ensures o.Pending? ==> Sound(o.q)
    ensures (o.q.id, o.q.addr, o.q.token, o.q.freq, o.q.client) == (q.id, q.addr, q.token, q.freq, q.client)
    ensures o.Pending? && o.rearm ==> o.q.waitComeback
    ensures q.waitComeback ==> o.q.waitComeback
  {
    match e
    case Frame(data, sendOk) => if |data| < 4 then Pending(q, false) else RxFrame(q, data, sendOk)
    case ComebackTimer(sendOk) => SendComeback(q, sendOk)
    case OverallTimer => Done(q, Timeout)
    case Cancel => Done(q, Cancelled)
  }

  /** The outcome of delivering `es` in order; nothing reaches a query that has ended. */
  function Fold(q: Query, es: seq<Input>): (o: Outcome)
    requires Sound(q)
    ensures o.Pending? ==> Sound(o.q)
    ensures (o.q.id, o.q.addr, o.q.token, o.q.freq, o.q.client) == (q.id, q.addr, q.token, q.freq, q.client)
  {
    if es == [] then Pending(q, false)
    else
      var before := Fold(q, es[..|es| - 1]);
      if before.Done? then before else Step(before.q, es[|es| - 1])
  }

  // ---- What a transcript says, read off the frames alone ----

  /** A usable response of the given kind: status success and all fields present. */
  function Usable(e: Input, comeback: bool): Option<Body>
  {
    if e.Frame? && |e.data| >= 4
       && e.data[0] == (if comeback then GAS_COMEBACK_RESP else GAS_INITIAL_RESP)
       && Le16(e.data, 2) == 0
    then ParseBody(e.data, comeback)
    else None
  }

  /** The fragment an input carries, if any: a usable comeback response without a delay. */
  function FragmentOf(e: Input): (fs: seq<Body>)
    ensures |fs| <= 1
  {
    var u := Usable(e, true);
    if u.Some? && u.value.delay == 0 then [u.value] else []
  }

  /** The fragments in a transcript, in order of arrival. */
  function Fragments(es: seq<Input>): seq<Body>
  {
    if es == [] then [] else Fragments(es[..|es| - 1]) + FragmentOf(es[|es| - 1])
  }

  /** Position of the first usable initial response, or the length. */
  function Opening(es: seq<Input>): (i: nat)
    ensures i <= |es|
    ensures i < |es| ==> Usable(es[i], false).Some?
    ensures forall j | 0 <= j < i :: Usable(es[j], false).None?
  {
    if es == [] then 0
    else if Opening(es[..|es| - 1]) < |es| - 1 then Opening(es[..|es| - 1])
    else if Usable(es[|es| - 1], false).Some? then |es| - 1
    else |es|
  }

  function Payloads(fs: seq<Body>): (ps: seq<Bytes>)
    ensures |ps| == |fs| && forall k | 0 <= k < |fs| :: ps[k] == fs[k].resp
  {
    seq(|fs|, k requires 0 <= k < |fs| => fs[k].resp)
  }

  /** Fragments 0, 1, 2, ... under one Advertisement Protocol element, each
      announcing more, except the last one when `complete`. */
  predicate InOrder(fs: seq<Body>, adv: Bytes, complete: bool)
  {
    forall k | 0 <= k < |fs| ::
      && fs[k].frag == k
      && fs[k].adv == adv
      && (fs[k].more <==> !(complete && k == |fs| - 1))
  }

  /** A pending query has collected exactly the fragments seen since its opening. */
  ghost predicate Collected(q: Query, opening: Body, fs: seq<Body>)
  {
    && opening.delay != 0
    && q.waitComeback
    && q.adv == Some(opening.adv)
    && q.nextFrag == |fs|
    && InOrder(fs, opening.adv, false)
    && q.resp == if fs == [] then None else Some(Join(Payloads(fs)))
  }

  lemma PayloadsSnoc(fs: seq<Body>, f: Body)
    ensures Join(Payloads(fs + [f])) == Join(Payloads(fs)) + f.resp
  {
    assert Payloads(fs + [f])[..|fs|] == Payloads(fs);
  }

  /** One more input while fragments are collected: how a query can go on and how it can end. */
  lemma CollectStep(q: Query, opening: Body, fs: seq<Body>, e: Input)
    requires Sound(q) && Collected(q, opening, fs)
    ensures Step(q, e).Pending? ==> Collected(Step(q, e).q, opening, fs + FragmentOf(e))
    ensures Step(q, e).Done? && Step(q, e).result == Success ==>
              && |FragmentOf(e)| == 1
              && InOrder(fs + FragmentOf(e), opening.adv, true)
              && Step(q, e).q.adv == Some(opening.adv)
              && Step(q, e).q.resp == Some(Join(Payloads(fs + FragmentOf(e))))
    ensures FragmentOf(e) != [] && FragmentOf(e)[0].frag != |fs| ==>
              Step(q, e) == Done(q, PeerError)
  {
    if FragmentOf(e) == [] {
      assert fs + FragmentOf(e) == fs;
    } else {
      var b := FragmentOf(e)[0];
      PayloadsSnoc(fs, b);
      assert FragmentOf(e) == [b];
      if fs == [] {
        assert Join(Payloads(fs)) + b.resp == b.resp;
      }
      assert Step(q, e) == RxComeback(q, b, e.sendOk);
    }
  }

  /** Invariant of the automaton over every transcript. */
  lemma {:induction false} PendingCollects(q0: Query, es: seq<Input>)
    requires Sound(q0) && !q0.waitComeback
    requires Fold(q0, es).Pending?
    ensures var q, i := Fold(q0, es).q, Opening(es);
            if i == |es| then q == q0
            else Collected(q, Usable(es[i], false).value, Fragments(es[i + 1..]))
  {
    if es != [] {
      var init, last := es[..|es| - 1], es[|es| - 1];
      PendingCollects(q0, init);
      var i := Opening(init);
      if i < |init| {
        SplitAfter(es, i);
        CollectStep(Fold(q0, init).q, Usable(es[i], false).value, Fragments(init[i + 1..]), last);
      } else if Opening(es) < |es| {
        assert es[Opening(es) + 1..] == [];
      }
    }
  }

  lemma SplitAfter(es: seq<Input>, i: nat)
    requires i + 1 < |es|
    ensures Fragments(es[i + 1..]) == Fragments(es[..|es| - 1][i + 1..]) + FragmentOf(es[|es| - 1])
  {
    assert es[i + 1..][..|es| - i - 2] == es[..|es| - 1][i + 1..];
  }

  /** What a successful transcript contains and delivers: either one usable initial
      response without a delay, delivered whole, or an initial response with a delay
      followed by fragments 0..k, of which the result is the concatenation: all under the
      initial Advertisement Protocol element, only the last one not announcing more, and
      at most 128 of them. */
  ghost predicate Reassembled(es: seq<Input>, q: Query)
  {
    var i := Opening(es);
    && i < |es|
    && var opening, fs := Usable(es[i], false).value, Fragments(es[i + 1..]);
       && q.adv == Some(opening.adv)
       && (opening.delay == 0 ==> i == |es| - 1 && q.resp == Some(opening.resp))
       && (opening.delay != 0 ==>
             && 1 <= |fs| <= 128
             && InOrder(fs, opening.adv, true)
             && q.resp == Some(Join(Payloads(fs))))
  }

  /** A query that ends successfully delivers exactly what its transcript reassembles to. */
  lemma SuccessIsReassembly(q0: Query, es: seq<Input>)
    requires Sound(q0) && !q0.waitComeback && es != []
    requires Fold(q0, es[..|es| - 1]).Pending?
    requires Fold(q0, es).Done? && Fold(q0, es).result == Success
    ensures Reassembled(es, Fold(q0, es).q)
  {
    var init, last := es[..|es| - 1], es[|es| - 1];
    PendingCollects(q0, init);
    var i := Opening(init);
    if i < |init| {
      SplitAfter(es, i);
      var fs := Fragments(init[i + 1..]);
      CollectStep(Fold(q0, init).q, Usable(es[i], false).value, fs, last);
    }
  }

  /** While a query collects fragments, every fragment that is not the next one
      (repeated, skipped or out of order) ends it as a peer error. */
  lemma StrayFragmentIsPeerError(q0: Query, es: seq<Input>, e: Input)
    requires Sound(q0) && !q0.waitComeback
    requires Fold(q0, es).Pending? && Opening(es) < |es|
    requires FragmentOf(e) != [] && FragmentOf(e)[0].frag != |Fragments(es[Opening(es) + 1..])|
    ensures Fold(q0, es + [e]).Done? && Fold(q0, es + [e]).result == PeerError
  {
    PendingCollects(q0, es);
    assert (es + [e])[..|es|] == es;
    CollectStep(Fold(q0, es).q, Usable(es[Opening(es)], false).value, Fragments(es[Opening(es) + 1..]), e);
  }

  // ---- How a query ends ----

  /** The opening has been received and fragments are to come. */
  predicate Waiting(es: seq<Input>)
  {
    Opening(es) < |es|
  }

  /** Number of fragments so far. */
  function Count(es: seq<Input>): nat
    requires Waiting(es)
  {
    |Fragments(es[Opening(es) + 1..])|
  }

  /** The Advertisement Protocol element of the opening. */
  function OpeningAdv(es: seq<Input>): Bytes
    requires Waiting(es)
  {
    Usable(es[Opening(es)], false).value.adv
  }

  /** A response frame of the kind the query waits for. */
  predicate Expected(es: seq<Input>, e: Input)
  {
    e.Frame? && |e.data| >= 4 && e.data[0] == if Waiting(es) then GAS_COMEBACK_RESP else GAS_INITIAL_RESP
  }

  /** The next fragment in order under the element of the opening. */
  predicate NextFragment(es: seq<Input>, e: Input)
  {
    && Waiting(es) && FragmentOf(e) != []
    && FragmentOf(e)[0].adv == OpeningAdv(es) && FragmentOf(e)[0].frag == Count(es)
  }

  /** An initial response that is complete, or the last fragment. */
  predicate Completes(es: seq<Input>, e: Input)
  {
    || (!Waiting(es) && Usable(e, false).Some? && Usable(e, false).value.delay == 0)
    || (NextFragment(es, e) && !FragmentOf(e)[0].more)
  }

  /** A comeback request was due and could not be sent. */
  predicate Unsent(es: seq<Input>, e: Input)
  {
    || (e.ComebackTimer? && !e.sendOk)
    || (NextFragment(es, e) && FragmentOf(e)[0].more && !e.sendOk)
  }

  /** A comeback response that contradicts the earlier ones or itself. */
  predicate Contradicts(es: seq<Input>, e: Input)
  {
    && Waiting(es) && Usable(e, true).Some?
    && var b := Usable(e, true).value;
       b.adv != OpeningAdv(es) || (if b.delay != 0 then b.frag != 0 else b.frag != Count(es))
  }

  /** A usable response that asks to come back later. */
  predicate Delays(es: seq<Input>, e: Input)
  {
    if Waiting(es) then Usable(e, true).Some? && Usable(e, true).value.delay != 0 && !Contradicts(es, e)
    else Usable(e, false).Some? && Usable(e, false).value.delay != 0
  }

  /** What an input does to a pending query, read off the transcript alone. */
  ghost predicate EndsRight(o: Outcome, es: seq<Input>, e: Input)
  {
    && (o.Done? && o.result == Success <==> Completes(es, e))
    && (o.Done? && o.result == Failure <==> Expected(es, e) && Le16(e.data, 2) != 0)
    && (o.Done? && o.result == Timeout <==> e.OverallTimer?)
    && (o.Done? && o.result == Cancelled <==> e.Cancel?)
    && (o.Done? && o.result == InternalError <==> Unsent(es, e))
    && (o.Done? && o.result == PeerError <==> Contradicts(es, e))
    && (o.Pending? && o.rearm <==> Delays(es, e))
    && (o.Done? && o.result == Failure ==> o.q.status == Le16(e.data, 2))
    && (o.Done? && o.result == Success && !Waiting(es) ==>
          o.q.adv == Some(Usable(e, false).value.adv) && o.q.resp == Some(Usable(e, false).value.resp))
  }

  lemma FreshEnds(q: Query, es: seq<Input>, e: Input)
    requires Sound(q) && !q.waitComeback && !Waiting(es)
    ensures EndsRight(Step(q, e), es, e)
  {
    hide ParseBody, Opening, Fragments, Le16;
  }

  lemma CollectingEnds(q: Query, es: seq<Input>, e: Input)
    requires Sound(q) && Waiting(es) && q.waitComeback && q.adv == Some(OpeningAdv(es)) && q.nextFrag == Count(es)
    ensures EndsRight(Step(q, e), es, e)
  {
    hide ParseBody, Opening, Fragments, Le16;
  }

  /** A pending query succeeds exactly with a complete initial response or the last fragment in
      order; it fails exactly with a response of the expected kind and another status; it
      times out, is cancelled or hits an internal error exactly by its overall timer, a cancel
      or a comeback request that cannot be sent; it ends as a peer error exactly with a
      comeback response that contradicts the earlier ones; and the comeback timer is set anew
      exactly with a response that asks for it. */
  lemma HowItEnds(q0: Query, es: seq<Input>, e: Input)
    requires Sound(q0) && !q0.waitComeback && Fold(q0, es).Pending?
    ensures EndsRight(Fold(q0, es + [e]), es, e)
  {
    hide EndsRight, Step, Opening, Fragments;
    PendingCollects(q0, es);
    assert (es + [e])[..|es|] == es;
    var q := Fold(q0, es).q;
    if Waiting(es) {
      CollectingEnds(q, es, e);
    } else {
      FreshEnds(q, es, e);
    }
  }

  /** The ordinary exchange: an initial response without a delay, whatever came before it
      without opening the query, is delivered whole. */
  lemma InitialResponseSucceeds(q0: Query, es: seq<Input>, status: nat, adv: Bytes, resp: Bytes, sendOk: bool)
    requires Sound(q0) && !q0.waitComeback && Fold(q0, es).Pending? && !Waiting(es)
    requires status < 0x1_0000 && IsAdvProto(adv) && |resp| < 0x1_0000
    ensures var data := BuildResp(false, q0.token, status, Body(0, false, 0, adv, resp));
            var o := Fold(q0, es + [Frame(data, sendOk)]);
            && o.Done? && o.result == (if status == 0 then Success else Failure)
            && (status == 0 ==> o.q.adv == Some(adv) && o.q.resp == Some(resp))
  {
    hide ParseBody, Opening, Fold;
    var b := Body(0, false, 0, adv, resp);
    var data := BuildResp(false, q0.token, status, b);
    BuildThenParse(false, q0.token, status, b, []);
    assert data + [] == data;
    HowItEnds(q0, es, Frame(data, sendOk));
  }

  // ---- The sending side: fragmenting a response and getting it back ----

  function FragmentBody(adv: Bytes, ps: seq<Bytes>, k: nat): Body
    requires k < |ps|
  {
    Body(k % 128, k < |ps| - 1, 0, adv, ps[k])
  }

  /** Frames a peer sends for a response cut into `ps`: a delayed initial response,
      then comeback response k with part k. */
  function Transmission(token: byte, adv: Bytes, delay: nat, ps: seq<Bytes>, n: nat): (es: seq<Input>)
    requires n <= |ps|
    requires IsAdvProto(adv) && 0 < delay < 0x1_0000
    requires forall p | p in ps :: |p| < 0x1_0000
    ensures |es| == n + 1
  {
    if n == 0 then [Frame(BuildResp(false, token, 0, Body(0, false, delay, adv, [])), true)]
    else Transmission(token, adv, delay, ps, n - 1)
         + [Frame(BuildResp(true, token, 0, FragmentBody(adv, ps, n - 1)), true)]
  }

  /** After n of the comeback responses: still collecting, done, or refused past the 128th. */
  ghost predicate Received(o: Outcome, adv: Bytes, ps: seq<Bytes>, n: nat)
    requires n <= |ps|
  {
    if n > 128 then o.Done? && o.result == PeerError
    else if 0 < n == |ps| then
      o.Done? && o.result == Success && o.q.adv == Some(adv) && o.q.resp == Some(Join(ps))
    else
      && o.Pending? && o.q.waitComeback && o.q.adv == Some(adv) && o.q.nextFrag == n
      && o.q.resp == if n == 0 then None else Some(Join(ps[..n]))
  }

  lemma ReceivedStep(o: Outcome, adv: Bytes, ps: seq<Bytes>, n: nat, e: Input)
    requires n < |ps| && n <= 128
    requires Received(o, adv, ps, n) && Sound(o.q)
    requires Usable(e, true) == Some(FragmentBody(adv, ps, n)) && e.sendOk
    ensures Received(Step(o.q, e), adv, ps, n + 1)
  {
    var q, b := o.q, FragmentBody(adv, ps, n);
    assert q.(status := 0) == q;
    assert Step(q, e) == RxComeback(q, b, true);
    assert ps[..n + 1][..n] == ps[..n];
    assert ps[..|ps|] == ps;
    assert Join(ps[..n + 1]) == Join(ps[..n]) + ps[n];
    if n == 0 {
      assert Join(ps[..0]) + ps[0] == ps[0];
    }
  }

  lemma {:induction false} TransmissionFold(q0: Query, adv: Bytes, delay: nat, ps: seq<Bytes>, n: nat)
    requires Sound(q0) && !q0.waitComeback
    requires n <= |ps|
    requires IsAdvProto(adv) && 0 < delay < 0x1_0000
    requires forall p | p in ps :: |p| < 0x1_0000
    ensures Received(Fold(q0, Transmission(q0.token, adv, delay, ps, n)), adv, ps, n)
  {
    var es := Transmission(q0.token, adv, delay, ps, n);
    assert es[n].data + [] == es[n].data;
    if n == 0 {
      BuildThenParse(false, q0.token, 0, Body(0, false, delay, adv, []), []);
      assert es[..0] == [];
    } else {
      TransmissionFold(q0, adv, delay, ps, n - 1);
      assert es[..n] == Transmission(q0.token, adv, delay, ps, n - 1);
      BuildThenParse(true, q0.token, 0, FragmentBody(adv, ps, n - 1), []);
      if n <= 129 {
        ReceivedStep(Fold(q0, es[..n]), adv, ps, n - 1, es[n]);
      }
    }
  }

  /** A response cut into 1 to 128 parts and sent by the comeback mechanism is delivered
      whole; one cut into more parts ends as a peer error. */
  lemma FragmentThenReassemble(q0: Query, adv: Bytes, delay: nat, ps: seq<Bytes>)
    requires Sound(q0) && !q0.waitComeback
    requires IsAdvProto(adv) && 0 < delay < 0x1_0000
    requires ps != [] && forall p | p in ps :: |p| < 0x1_0000
    ensures var o := Fold(q0, Transmission(q0.token, adv, delay, ps, |ps|));
            && o.Done?
            && (o.result == Success <==> |ps| <= 128)
            && (|ps| <= 128 ==> o.q.adv == Some(adv) && o.q.resp == Some(Join(ps)))
            && (|ps| > 128 ==> o.result == PeerError)
  {
    TransmissionFold(q0, adv, delay, ps, |ps|);
  }
}
