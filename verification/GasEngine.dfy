/** The GAS query engine as a state machine over whole runs: the pending list, the
    event-loop timers that name a query and the callbacks that have been made. */
module GasEngine {
  import opened Octets
  import opened GasFrame
  import opened GasQuery

  /** gas_query_timeout or gas_query_tx_comeback_timeout registered for a query. */
  datatype Timer = Overall(id: nat) | Comeback(id: nat)

  /** One callback: the query as it was when the callback was made, and the result. */
  datatype Completion = Completion(q: Query, result: Result)

  datatype Gas = Gas(pending: seq<Query>, timers: multiset<Timer>, log: seq<Completion>, nextId: nat)

  /** What can happen to the engine. `sendOk` is the off-channel transmitter's answer. */
  datatype Call =
    | Req(dst: Mac, freq: int, len: nat, client: Client, reqSent: bool)
    | Rx(sa: Mac, data: Bytes, sendOk: bool)
    | Fire(timer: Timer, sendOk: bool)
    | CancelQuery(peer: Mac, token: byte)

  // ---- Lookups ----

  /** gas_query_get_pending: position of the first match, or the length. */
  function Find(pending: seq<Query>, addr: Mac, token: byte): (i: nat)
    ensures i <= |pending|
    ensures i < |pending| ==> pending[i].addr == addr && pending[i].token == token
    ensures forall j | 0 <= j < i :: pending[j].addr != addr || pending[j].token != token
  {
    if pending == [] then 0
    else if pending[0].addr == addr && pending[0].token == token then 0
    else 1 + Find(pending[1..], addr, token)
  }

  /** The entry a timer's context pointer refers to, or the length. */
  function Position(pending: seq<Query>, id: nat): (i: nat)
    ensures i <= |pending|
    ensures i < |pending| ==> pending[i].id == id
    ensures forall j | 0 <= j < i :: pending[j].id != id
  {
    if pending == [] then 0 else if pending[0].id == id then 0 else 1 + Position(pending[1..], id)
  }

  /** The first dialog token from `t` on that is free for `dst`, or 256. */
  function FreeToken(pending: seq<Query>, dst: Mac, t: nat): (r: nat)
    requires t <= 256
    ensures t <= r <= 256
    ensures r < 256 ==> Find(pending, dst, r) == |pending|
    ensures forall u | t <= u < r :: Find(pending, dst, u) < |pending|
    decreases 256 - t
  {
    if t == 256 || Find(pending, dst, t) == |pending| then t else FreeToken(pending, dst, t + 1)
  }

  // ---- Transitions ----

  function Without<T>(s: seq<T>, i: nat): (r: seq<T>)
    requires i < |s|
    ensures |r| == |s| - 1
    ensures forall k | 0 <= k < |r| :: r[k] == if k < i then s[k] else s[k + 1]
    ensures forall k | 0 <= k < |s| && k != i :: s[k] in r
  {
    s[..i] + s[i + 1..]
  }

  /** gas_query_done: both timers cancelled, the entry unlinked, the callback made. */
  function Finish(s: Gas, i: nat, q: Query, result: Result): Gas
    requires i < |s.pending|
  {
    Gas(Without(s.pending, i),
        s.timers[Comeback(q.id) := 0][Overall(q.id) := 0],
        s.log + [Completion(q, result)],
        s.nextId)
  }

  /** The engine's part of an outcome. Setting the comeback timer cancels an older one. */
  function Settle(s: Gas, i: nat, o: Outcome): Gas
    requires i < |s.pending|
  {
    match o
    case Pending(q, rearm) =>
      s.(pending := s.pending[i := q],
         timers := if rearm then s.timers[Comeback(q.id) := 1] else s.timers)
    case Done(q, result) => Finish(s, i, q, result)
  }

  /** An input for the query at position i. */
  function Deliver(s: Gas, i: nat, e: Input): Gas
    requires i < |s.pending| && Sound(s.pending[i])
  {
    Settle(s, i, Step(s.pending[i], e))
  }

  /** gas_query_req. A request that cannot be sent leaves nothing behind. */
  function Request(s: Gas, dst: Mac, freq: int, len: nat, client: Client, reqSent: bool): Gas
  {
    var t := FreeToken(s.pending, dst, 0);
    if len < 3 || t == 256 || !reqSent then s
    else Gas([Created(s.nextId, dst, t, freq, client)] + s.pending,
             s.timers + multiset{Overall(s.nextId)}, s.log, s.nextId + 1)
  }

  predicate AllSound(s: Gas)
  {
    forall q | q in s.pending :: Sound(q)
  }

  /** The query and input a call amounts to, if any. */
  function Target(s: Gas, c: Call): (r: Option<(nat, Input)>)
    ensures r.Some? ==> r.value.0 < |s.pending|
  {
    match c
    case Req(_, _, _, _, _) => None
    case Rx(sa, data, sendOk) =>
      if |data| < 4 || (data[0] != GAS_INITIAL_RESP && data[0] != GAS_COMEBACK_RESP) then None
      else
        var i := Find(s.pending, sa, data[1]);
        if i < |s.pending| then Some((i, Frame(data, sendOk))) else None
    case Fire(timer, sendOk) =>
      var i := Position(s.pending, timer.id);
      if timer in s.timers && i < |s.pending|
      then Some((i, if timer.Overall? then OverallTimer else ComebackTimer(sendOk)))
      else None
    case CancelQuery(peer, token) =>
      var i := Find(s.pending, peer, token);
      if i < |s.pending| then Some((i, Cancel)) else None
  }

  /** The event loop drops a timer before it calls the handler. */
  function Expired(s: Gas, c: Call): Gas
  {
    if c.Fire? then s.(timers := s.timers - multiset{c.timer}) else s
  }

  function Apply(s: Gas, c: Call): Gas
    requires AllSound(s)
  {
    if c.Req? then Request(s, c.dst, c.freq, c.len, c.client, c.reqSent)
    else
      match Target(s, c)
      case None => Expired(s, c)
      case Some(t) => Deliver(Expired(s, c), t.0, t.1)
  }

  // ---- Invariant ----

  predicate Listed(s: Gas, id: nat)
  {
    Position(s.pending, id) < |s.pending|
  }

  /** Number of callbacks made for a query. */
  function Callbacks(log: seq<Completion>, id: nat): nat
  {
    if log == [] then 0
    else Callbacks(log[..|log| - 1], id) + if log[|log| - 1].q.id == id then 1 else 0
  }

  predicate DistinctPending(pending: seq<Query>)
  {
    forall i, j | 0 <= i < j < |pending| ::
      && pending[i].id != pending[j].id
      && (pending[i].addr != pending[j].addr || pending[i].token != pending[j].token)
  }

  /** Each query ever accepted is either listed, with its overall timer armed exactly
      once and no callback made, or unlisted, with no timer and exactly one callback. */
  ghost predicate Accounted(s: Gas, id: nat)
  {
    if Listed(s, id) then
      && s.timers[Overall(id)] == 1
      && s.timers[Comeback(id)] <= 1
      && (s.timers[Comeback(id)] == 1 ==> s.pending[Position(s.pending, id)].waitComeback)
      && Callbacks(s.log, id) == 0
    else
      && s.timers[Overall(id)] == 0
      && s.timers[Comeback(id)] == 0
      && Callbacks(s.log, id) == if id < s.nextId then 1 else 0
  }

  ghost predicate Inv(s: Gas)
  {
    && AllSound(s)
    && DistinctPending(s.pending)
    && (forall q | q in s.pending :: q.id < s.nextId)
    && (forall id: nat :: Accounted(s, id))
  }

  lemma PositionUnique(pending: seq<Query>, i: nat)
    requires DistinctPending(pending) && i < |pending|
    ensures Position(pending, pending[i].id) == i
    ensures Find(pending, pending[i].addr, pending[i].token) == i
  {
  }

  /** How an outcome relates to the query it is about. */
  ghost predicate Follows(q: Query, o: Outcome)
  {
    && (o.q.id, o.q.addr, o.q.token) == (q.id, q.addr, q.token)
    && (q.waitComeback ==> o.q.waitComeback)
    && (o.Pending? ==> Sound(o.q) && (o.rearm ==> o.q.waitComeback))
  }

  /** Where the entries of the pending list are after an outcome. */
  lemma SettlePosition(s: Gas, i: nat, o: Outcome, id: nat)
    requires DistinctPending(s.pending) && i < |s.pending| && o.q.id == s.pending[i].id
    ensures var s' := Settle(s, i, o);
            if id == s.pending[i].id then
              Position(s.pending, id) == i
              && (if o.Pending? then Listed(s', id) && s'.pending[Position(s'.pending, id)] == o.q
                  else !Listed(s', id))
            else
              (Listed(s, id) <==> Listed(s', id))
              && (Listed(s, id) ==>
                    s'.pending[Position(s'.pending, id)] == s.pending[Position(s.pending, id)])
  {
    hide Position, Find, Settle;
    var p := Position(s.pending, id);
    PositionUnique(s.pending, i);
    if o.Pending? {
      SettlePending(s, i, o);
      if p < |s.pending| {
        PositionAt(s.pending[i := o.q], id, p);
      }
    } else {
      SettleDone(s, i, o);
      var rest := s.pending[..i] + s.pending[i + 1..];
      if p < |s.pending| && p != i {
        PositionAt(rest, id, if p < i then p else p - 1);
      }
    }
  }

  lemma SettlePending(s: Gas, i: nat, o: Outcome)
    requires i < |s.pending| && o.Pending?
    ensures Settle(s, i, o).pending == s.pending[i := o.q]
  {
  }

  lemma SettleDone(s: Gas, i: nat, o: Outcome)
    requires i < |s.pending| && o.Done?
    ensures Settle(s, i, o).pending == s.pending[..i] + s.pending[i + 1..]
  {
  }

  /** One outcome accounts for every query, whoever it was about. */
  lemma SettleKeeps(s: Gas, i: nat, o: Outcome, id: nat)
    requires DistinctPending(s.pending) && i < |s.pending| && Follows(s.pending[i], o)
    requires Accounted(s, id) && s.pending[i].id < s.nextId
    ensures Accounted(Settle(s, i, o), id)
  {
    SettlePosition(s, i, o, id);
    if o.Done? {
      assert Settle(s, i, o).log[..|s.log|] == s.log;
    }
  }

  lemma SettleInv(s: Gas, i: nat, o: Outcome)
    requires Inv(s) && i < |s.pending| && Follows(s.pending[i], o)
    ensures Inv(Settle(s, i, o))
  {
    forall id: nat ensures Accounted(Settle(s, i, o), id) {
      assert Accounted(s, id);
      SettleKeeps(s, i, o, id);
    }
  }

  lemma PositionAt(pending: seq<Query>, id: nat, p: nat)
    requires p < |pending| && pending[p].id == id
    requires forall k | 0 <= k < |pending| && k != p :: pending[k].id != id
    ensures Position(pending, id) == p
  {
  }

  lemma AddInv(s: Gas, q: Query)
    requires Inv(s) && q == Created(s.nextId, q.addr, q.token, q.freq, q.client)
    requires Find(s.pending, q.addr, q.token) == |s.pending|
    ensures Inv(Gas([q] + s.pending, s.timers + multiset{Overall(q.id)}, s.log, s.nextId + 1))
  {
    var s' := Gas([q] + s.pending, s.timers + multiset{Overall(q.id)}, s.log, s.nextId + 1);
    assert s'.pending[1..] == s.pending;
    assert forall k | 0 < k < |s'.pending| :: s'.pending[k] == s.pending[k - 1];
    forall id: nat ensures Accounted(s', id) {
      assert Accounted(s, id);
      assert Position(s'.pending, id) == if id == q.id then 0 else 1 + Position(s.pending, id);
    }
  }

  lemma DeliverInv(s: Gas, i: nat, e: Input)
    requires Inv(s) && i < |s.pending|
    ensures Inv(Deliver(s, i, e))
  {
    SettleInv(s, i, Step(s.pending[i], e));
  }

  /** Every call keeps the invariant. */
  lemma ApplyInv(s: Gas, c: Call)
    requires Inv(s)
    ensures Inv(Apply(s, c))
  {
    if c.Req? {
      RequestInv(s, c);
    } else if c.Fire? {
      FireInv(s, c);
    } else if Target(s, c).Some? {
      DeliverInv(s, Target(s, c).value.0, Target(s, c).value.1);
    }
  }

  /** Callbacks and identities are never taken back. */
  lemma ApplyExtends(s: Gas, c: Call)
    requires AllSound(s)
    ensures s.log <= Apply(s, c).log && s.nextId <= Apply(s, c).nextId
  {
  }

  lemma RequestInv(s: Gas, c: Call)
    requires Inv(s) && c.Req?
    ensures Inv(Apply(s, c))
  {
    var t := FreeToken(s.pending, c.dst, 0);
    if c.len >= 3 && t < 256 && c.reqSent {
      AddInv(s, Created(s.nextId, c.dst, t, c.freq, c.client));
    }
  }

  lemma FireInv(s: Gas, c: Call)
    requires Inv(s) && c.Fire?
    ensures Inv(Apply(s, c))
  {
    assert Accounted(s, c.timer.id);
    if Target(s, c).None? {
      assert Expired(s, c) == s;
    } else {
      var (i, e) := Target(s, c).value;
      if c.timer.Overall? {
        DeliverInv(s, i, e);
        assert Deliver(Expired(s, c), i, e) == Deliver(s, i, e);
      } else {
        ExpiredInv(s, c);
        DeliverInv(Expired(s, c), i, e);
      }
    }
  }

  lemma ExpiredInv(s: Gas, c: Call)
    requires Inv(s) && c.Fire? && c.timer.Comeback?
    ensures Inv(Expired(s, c))
  {
    forall id: nat ensures Accounted(Expired(s, c), id) {
      assert Accounted(s, id);
    }
  }

  // ---- Runs ----

  ghost function Run(s: Gas, calls: seq<Call>): (s': Gas)
    requires Inv(s)
    ensures Inv(s') && s.log <= s'.log && s.nextId <= s'.nextId
  {
    if calls == [] then s
    else
      var s1 := Run(s, calls[..|calls| - 1]);
      ApplyInv(s1, calls[|calls| - 1]);
      ApplyExtends(s1, calls[|calls| - 1]);
      Apply(s1, calls[|calls| - 1])
  }

  /** gas_query_init: nothing pending, nothing armed, nothing called back. */
  ghost function Initial(): (s: Gas)
    ensures Inv(s)
  {
    Gas([], multiset{}, [], 0)
  }

  /** In every run from an empty engine each accepted query gets its callback at most
      once: it is listed with its overall timer armed and no callback, or unlisted with
      exactly one callback and no timer naming it. Once called back it stays so, and
      callbacks already made are never revised. */
  lemma ExactlyOnce(calls: seq<Call>, later: seq<Call>, id: nat)
    ensures Accounted(Run(Initial(), calls), id)
    ensures Run(Initial(), calls).log <= Run(Run(Initial(), calls), later).log
    ensures !Listed(Run(Initial(), calls), id) && id < Run(Initial(), calls).nextId ==>
              !Listed(Run(Run(Initial(), calls), later), id)
  {
    var s := Run(Initial(), calls);
    var s' := Run(s, later);
    assert Accounted(s, id) && Accounted(s', id);
    CallbacksMonotone(s.log, s'.log, id);
  }

  lemma {:induction false} CallbacksMonotone(log: seq<Completion>, longer: seq<Completion>, id: nat)
    requires log <= longer
    ensures Callbacks(log, id) <= Callbacks(longer, id)
  {
    if |log| < |longer| {
      CallbacksMonotone(log, longer[..|longer| - 1], id);
    } else {
      assert log == longer;
    }
  }

  // ---- Dialog tokens ----

  function CountFor(pending: seq<Query>, dst: Mac): nat
  {
    if pending == [] then 0
    else CountFor(pending[1..], dst) + if pending[0].addr == dst then 1 else 0
  }

  function TokensFor(pending: seq<Query>, dst: Mac): set<nat>
  {
    if pending == [] then {}
    else TokensFor(pending[1..], dst) + if pending[0].addr == dst then {pending[0].token} else {}
  }

  lemma TailLacksHead(pending: seq<Query>)
    requires DistinctPending(pending) && pending != []
    ensures DistinctPending(pending[1..])
    ensures Find(pending[1..], pending[0].addr, pending[0].token) == |pending| - 1
  {
    var rest := pending[1..];
    assert forall j | 0 <= j < |rest| :: rest[j] == pending[j + 1];
  }

  lemma {:induction false} TokensFound(pending: seq<Query>, dst: Mac, t: byte)
    ensures t in TokensFor(pending, dst) <==> Find(pending, dst, t) < |pending|
  {
    if pending != [] {
      TokensFound(pending[1..], dst, t);
    }
  }

  lemma {:induction false} TokensCounted(pending: seq<Query>, dst: Mac)
    requires DistinctPending(pending)
    ensures |TokensFor(pending, dst)| == CountFor(pending, dst)
    ensures forall t | t in TokensFor(pending, dst) :: t < 256
  {
    if pending != [] {
      TailLacksHead(pending);
      TokensCounted(pending[1..], dst);
      TokensFound(pending[1..], pending[0].addr, pending[0].token);
    }
  }

  function Below(n: nat): (r: set<nat>)
    ensures |r| == n
    ensures forall t: nat :: t in r <==> t < n
  {
    if n == 0 then {} else Below(n - 1) + {n - 1}
  }

  lemma SubsetOfSameSize(a: set<nat>, b: set<nat>)
    requires a <= b
    ensures |a| <= |b|
    ensures |a| == |b| ==> a == b
  {
    assert |b - a| == |b| - |a| by { assert a + (b - a) == b; }
    if |a| == |b| {
      assert b - a == {};
    }
  }

  /** With n = 256 tokens to choose from: none is free exactly when n queries are pending. */
  lemma NoTokenIffFull(pending: seq<Query>, dst: Mac, n: nat)
    requires DistinctPending(pending) && n == 256
    ensures FreeToken(pending, dst, 0) == n <==> CountFor(pending, dst) == n
    ensures CountFor(pending, dst) <= n
  {
    hide TokensFor, Below, CountFor, Find, FreeToken, DistinctPending;
    TokensCounted(pending, dst);
    var used, all := TokensFor(pending, dst), Below(n);
    SubsetOfSameSize(used, all);
    var t := FreeToken(pending, dst, 0);
    if t < n {
      TokensFound(pending, dst, t);
      assert t !in used && t in all;
    } else {
      forall u: byte ensures u in used {
        TokensFound(pending, dst, u);
      }
      assert used == all;
    }
  }

  /** A request of legal length that can be sent is refused exactly when 256 queries
      are pending for its address; otherwise it gets a token no pending query for that
      address holds. */
  lemma RefusedIffFull(s: Gas, c: Call)
    requires Inv(s) && c.Req? && c.len >= 3 && c.reqSent
    ensures Apply(s, c) == s <==> CountFor(s.pending, c.dst) == 256
    ensures CountFor(s.pending, c.dst) <= 256
    ensures Apply(s, c) != s ==>
              && Apply(s, c).pending[1..] == s.pending
              && Apply(s, c).pending[0].addr == c.dst
              && Apply(s, c).pending[0].freq == c.freq && Apply(s, c).pending[0].client == c.client
              && Sound(Apply(s, c).pending[0]) && !Apply(s, c).pending[0].waitComeback
              && Find(s.pending, c.dst, Apply(s, c).pending[0].token) == |s.pending|
  {
    NoTokenIffFull(s.pending, c.dst, 256);
    assert Apply(s, c) != s ==> |Apply(s, c).pending| == |s.pending| + 1;
  }

  // ---- A run seen from one query ----

  /** The input that a call delivers to query `id`, if any. */
  function InputFor(s: Gas, c: Call, id: nat): (es: seq<Input>)
    ensures |es| <= 1
  {
    match Target(s, c)
    case None => []
    case Some(t) => if s.pending[t.0].id == id then [t.1] else []
  }

  ghost function Deliveries(s: Gas, calls: seq<Call>, id: nat): seq<Input>
    requires Inv(s)
  {
    if calls == [] then []
    else
      var init := calls[..|calls| - 1];
      Deliveries(s, init, id) + InputFor(Run(s, init), calls[|calls| - 1], id)
  }

  /** Query `id` has outcome `o` in state s: still listed, or called back. */
  ghost predicate Reflects(s: Gas, id: nat, o: Outcome)
  {
    match o
    case Pending(q, _) => Listed(s, id) && s.pending[Position(s.pending, id)] == q
    case Done(q, result) => !Listed(s, id) && Completion(q, result) in s.log
  }

  lemma SettleReflects(s: Gas, i: nat, o: Outcome, id: nat, q: Query)
    requires DistinctPending(s.pending) && i < |s.pending| && o.q.id == s.pending[i].id
    requires Reflects(s, id, Pending(q, false))
    ensures Reflects(Settle(s, i, o), id, if i == Position(s.pending, id) then o else Pending(q, false))
  {
    SettlePosition(s, i, o, id);
    PositionUnique(s.pending, i);
    if o.Done? {
      assert Settle(s, i, o).log[|s.log|] == Completion(o.q, o.result);
    }
  }

  lemma RequestReflects(s: Gas, c: Call, id: nat, q: Query)
    requires Inv(s) && Reflects(s, id, Pending(q, false)) && c.Req?
    ensures Reflects(Apply(s, c), id, Pending(q, false))
  {
    hide FreeToken, Accounted;
    var s' := Apply(s, c);
    if s' != s {
      assert s'.pending[1..] == s.pending;
      assert q in s.pending;
    }
  }

  lemma ApplyReflects(s: Gas, c: Call, id: nat, q: Query)
    requires Inv(s) && Reflects(s, id, Pending(q, false))
    ensures Reflects(Apply(s, c), id,
                     if InputFor(s, c, id) == [] then Pending(q, false) else Step(q, InputFor(s, c, id)[0]))
  {
    hide Step, Settle, Target, Request, Position, Find, Accounted;
    if c.Req? {
      NoTarget(s, c);
      RequestReflects(s, c, id, q);
    } else if Target(s, c).Some? {
      var (i, e) := Target(s, c).value;
      PositionUnique(s.pending, i);
      StepKeepsId(s.pending[i], e);
      SettleReflects(Expired(s, c), i, Step(s.pending[i], e), id, q);
    }
  }

  lemma NoTarget(s: Gas, c: Call)
    requires c.Req?
    ensures Target(s, c).None?
  {
  }

  lemma StepKeepsId(q: Query, e: Input)
    requires Sound(q)
    ensures Step(q, e).q.id == q.id
  {
  }

  /** A response matches one pending query at most: the only one with its address and dialog
      token. Every other query that is pending stays as it is. */
  lemma AtMostOneMatch(s: Gas, c: Call, id: nat, other: nat)
    requires Inv(s) && InputFor(s, c, id) != [] && Listed(s, other) && other != id
    ensures Listed(Apply(s, c), other)
    ensures Apply(s, c).pending[Position(Apply(s, c).pending, other)] == s.pending[Position(s.pending, other)]
    ensures c.Rx? ==> |c.data| >= 4 && forall i | 0 <= i < |s.pending| ::
              s.pending[i].addr == c.sa && s.pending[i].token == c.data[1] ==> s.pending[i].id == id
  {
    hide Accounted, Apply, Step, Position;
    ApplyReflects(s, c, other, s.pending[Position(s.pending, other)]);
    if c.Rx? {
      forall i | 0 <= i < |s.pending| && s.pending[i].addr == c.sa && s.pending[i].token == c.data[1]
        ensures s.pending[i].id == id
      {
        PositionUnique(s.pending, i);
      }
    }
  }

  /** What a call means for a pending query: a frame of at least four octets with action 11 or
      13 reaches it exactly if address and dialog token are its own, a cancel likewise, and a
      timer that runs exactly if it is its own. */
  lemma AddressedIff(s: Gas, c: Call, i: nat)
    requires Inv(s) && i < |s.pending|
    ensures var q := s.pending[i];
      InputFor(s, c, q.id) ==
        match c
        case Req(_, _, _, _, _) => []
        case Rx(sa, data, sent) =>
          if |data| > 3 && data[0] in {11, 13} && (sa, data[1]) == (q.addr, q.token) then [Frame(data, sent)] else []
        case Fire(t, sent) =>
          if t !in s.timers then [] else if t == Overall(q.id) then [OverallTimer]
          else if t == Comeback(q.id) then [ComebackTimer(sent)] else []
        case CancelQuery(peer, token) => if (peer, token) == (q.addr, q.token) then [Cancel] else []
  {
    hide Accounted, Find, Position;
    PositionUnique(s.pending, i);
    forall j | 0 <= j < |s.pending| ensures s.pending[j].id == s.pending[i].id ==> j == i {
      PositionUnique(s.pending, j);
    }
  }

  lemma ApplyReflectsDone(s: Gas, c: Call, id: nat, o: Outcome)
    requires Inv(s) && id < s.nextId && o.Done? && Reflects(s, id, o)
    ensures InputFor(s, c, id) == []
    ensures Reflects(Apply(s, c), id, o)
  {
    ApplyInv(s, c);
    ApplyExtends(s, c);
    assert Accounted(s, id) && Accounted(Apply(s, c), id);
    CallbacksMonotone(s.log, Apply(s, c).log, id);
  }

  /** Whatever else the engine does, the fate of a query is that of the per-query
      automaton fed with the inputs addressed to it. */
  lemma {:induction false} RunIsFold(s: Gas, calls: seq<Call>, id: nat)
    requires Inv(s) && Listed(s, id)
    ensures Reflects(Run(s, calls), id,
                     Fold(s.pending[Position(s.pending, id)], Deliveries(s, calls, id)))
  {
    var q := s.pending[Position(s.pending, id)];
    assert q in s.pending;
    if calls != [] {
      var init, c := calls[..|calls| - 1], calls[|calls| - 1];
      RunIsFold(s, init, id);
      var es := Deliveries(s, init, id);
      if Fold(q, es).Pending? {
        ApplyReflects(Run(s, init), c, id, Fold(q, es).q);
      } else {
        ApplyReflectsDone(Run(s, init), c, id, Fold(q, es));
      }
      var e := InputFor(Run(s, init), c, id);
      if e != [] {
        assert (es + e)[..|es| + 1 - 1] == es && (es + e)[|es|] == e[0];
      } else {
        assert es + e == es;
      }
    }
  }

  /** Nothing is delivered to a query after the input that ended it. */
  lemma {:induction false} DeliveriesStop(s: Gas, calls: seq<Call>, id: nat)
    requires Inv(s) && Listed(s, id)
    ensures var q, es := s.pending[Position(s.pending, id)], Deliveries(s, calls, id);
            && Sound(q)
            && (Fold(q, es).Done? ==> es != [] && Fold(q, es[..|es| - 1]).Pending?)
  {
    hide Apply, Run, Step, Reflects, Position, Accounted;
    var q := s.pending[Position(s.pending, id)];
    assert q in s.pending;
    if calls != [] {
      var init, c := calls[..|calls| - 1], calls[|calls| - 1];
      DeliveriesStop(s, init, id);
      RunIsFold(s, init, id);
      var es := Deliveries(s, init, id);
      if Fold(q, es).Done? {
        ApplyReflectsDone(Run(s, init), c, id, Fold(q, es));
        assert es + [] == es;
      } else {
        assert forall e: Input :: (es + [e])[..|es|] == es;
        assert es + [] == es;
      }
    }
  }

  /** In every run, an input for a pending query does exactly what the transcript of that query
      says, whatever happened to all other queries. */
  lemma EndsInRun(s: Gas, calls: seq<Call>, c: Call, id: nat)
    requires Inv(s) && Listed(s, id) && !s.pending[Position(s.pending, id)].waitComeback
    requires Listed(Run(s, calls), id) && InputFor(Run(s, calls), c, id) != []
    ensures var es, e := Deliveries(s, calls, id), InputFor(Run(s, calls), c, id)[0];
            exists o :: Reflects(Run(s, calls + [c]), id, o) && EndsRight(o, es, e)
  {
    hide Apply, Run, Step, Position, Accounted, EndsRight, Fold, InputFor;
    var q, es := s.pending[Position(s.pending, id)], Deliveries(s, calls, id);
    var e := InputFor(Run(s, calls), c, id)[0];
    assert q in s.pending;
    RunIsFold(s, calls, id);
    RunIsFold(s, calls + [c], id);
    assert (calls + [c])[..|calls|] == calls;
    assert Deliveries(s, calls + [c], id) == es + [e];
    HowItEnds(q, es, e);
  }

  lemma {:induction false} OneCompletion(log: seq<Completion>, c: Completion, d: Completion)
    requires c in log && d in log && c.q.id == d.q.id && Callbacks(log, c.q.id) <= 1
    ensures c == d
  {
    var init, last := log[..|log| - 1], log[|log| - 1];
    assert log == init + [last];
    if c in init && d in init {
      OneCompletion(init, c, d);
    } else if c in init {
      LoggedCounts(init, c);
    } else if d in init {
      LoggedCounts(init, d);
    }
  }

  lemma {:induction false} LoggedCounts(log: seq<Completion>, c: Completion)
    requires c in log
    ensures Callbacks(log, c.q.id) >= 1
  {
    var init := log[..|log| - 1];
    assert log == init + [log[|log| - 1]];
    if c in init {
      LoggedCounts(init, c);
    }
  }

  /** In every run, a success reported for a query is the in-order reassembly of the
      frames that were addressed to that query. */
  lemma SuccessInRun(s: Gas, calls: seq<Call>, id: nat, c: Completion)
    requires Inv(s) && Listed(s, id) && !s.pending[Position(s.pending, id)].waitComeback
    requires c in Run(s, calls).log && c.q.id == id && c.result == Success
    ensures Reassembled(Deliveries(s, calls, id), c.q)
  {
    var q, es, s' := s.pending[Position(s.pending, id)], Deliveries(s, calls, id), Run(s, calls);
    assert q in s.pending;
    RunIsFold(s, calls, id);
    DeliveriesStop(s, calls, id);
    assert Accounted(s', id);
    LoggedCounts(s'.log, c);
    var o := Fold(q, es);
    OneCompletion(s'.log, c, Completion(o.q, o.result));
    SuccessIsReassembly(q, es);
  }

  // ---- Callbacks that call back into the engine ----

  /** What a callback may do: start queries and cancel queries; a cancelled query's own
      callback acts in turn (`onDone`). */
  datatype Act =
    | Start(dst: Mac, freq: int, len: nat, client: Client, reqSent: bool)
    | Drop(peer: Mac, token: byte, onDone: seq<Act>)

  /** A call that may end a query, whose callback then performs `acts`. */
  ghost function Respond(s: Gas, c: Call, acts: seq<Act>): (s': Gas)
    requires Inv(s)
    ensures Inv(s')
    decreases acts, 1
  {
    ApplyInv(s, c);
    var s1 := Apply(s, c);
    if |s1.log| > |s.log| then Perform(s1, acts) else s1
  }

  ghost function PerformOne(s: Gas, act: Act): (s': Gas)
    requires Inv(s)
    ensures Inv(s')
    decreases act, 0
  {
    match act {
      case Start(dst, freq, len, client, reqSent) =>
        ApplyInv(s, Req(dst, freq, len, client, reqSent));
        Apply(s, Req(dst, freq, len, client, reqSent))
      case Drop(peer, token, onDone) =>
        Respond(s, CancelQuery(peer, token), onDone)
    }
  }

  ghost function Perform(s: Gas, acts: seq<Act>): (s': Gas)
    requires Inv(s)
    ensures Inv(s')
    decreases acts, 0
  {
    if acts == [] then s else Perform(PerformOne(s, acts[0]), acts[1..])
  }

  lemma {:induction false} RunSplit(s: Gas, a: seq<Call>, b: seq<Call>)
    requires Inv(s)
    ensures Run(s, a + b) == Run(Run(s, a), b)
  {
    hide Inv, Apply;
    if b == [] {
      assert a + b == a;
    } else {
      RunSplit(s, a, b[..|b| - 1]);
      assert (a + b)[..|a + b| - 1] == a + b[..|b| - 1];
    }
  }

  /** A call with all that its callback does amounts to a run of plain calls, so all
      that holds of runs holds with callbacks nested to any depth. */
  lemma {:induction false} RespondIsRun(s: Gas, c: Call, acts: seq<Act>) returns (calls: seq<Call>)
    requires Inv(s)
    ensures calls != [] && calls[0] == c
    ensures Respond(s, c, acts) == Run(s, calls)
    decreases acts, 1
  {
    ApplyInv(s, c);
    var s1 := Apply(s, c);
    assert [c][..0] == [];
    assert Run(s, [c]) == s1;
    calls := [c];
    if |s1.log| > |s.log| {
      var more := PerformIsRun(s1, acts);
      RunSplit(s, [c], more);
      calls := [c] + more;
    }
  }

  lemma {:induction false} PerformIsRun(s: Gas, acts: seq<Act>) returns (calls: seq<Call>)
    requires Inv(s)
    ensures Perform(s, acts) == Run(s, calls)
    decreases acts, 0
  {
    calls := [];
    if acts != [] {
      var first: seq<Call>;
      match acts[0] {
        case Start(dst, freq, len, client, reqSent) =>
          first := [Req(dst, freq, len, client, reqSent)];
          assert first[..0] == [];
        case Drop(peer, token, onDone) =>
          first := RespondIsRun(s, CancelQuery(peer, token), onDone);
      }
      var rest := PerformIsRun(Run(s, first), acts[1..]);
      RunSplit(s, first, rest);
      calls := first + rest;
    }
  }
}
