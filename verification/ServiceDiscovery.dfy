/** P2P service discovery (p2p_supplicant.c): which TLVs answer a request, for any table of
    services, within a bounded buffer, and what the response walker makes of them. */
module ServiceDiscovery {
  import opened Octets

  const RESPONSE_SIZE: nat := 10000

  const SERV_ALL_SERVICES: byte := 0
  const SERV_BONJOUR: byte := 1
  const SERV_UPNP: byte := 2

  const SD_SUCCESS: byte := 0
  const SD_PROTO_NOT_AVAILABLE: byte := 1
  const SD_REQUESTED_INFO_NOT_AVAILABLE: byte := 2

  datatype Bonjour = Bonjour(query: Bytes, resp: Bytes)

  datatype Upnp = Upnp(version: byte, service: Bytes)

  /** The services of this device. */
  datatype Services = Services(bonjour: seq<Bonjour>, upnp: seq<Upnp>)

  /** A service request TLV and a service response TLV. */
  datatype Request = Request(proto: byte, trans: byte, query: Bytes)

  datatype Tlv = Tlv(proto: byte, trans: byte, status: byte, data: Bytes)

  function Size(ts: seq<Tlv>): nat
  {
    if ts == [] then 0 else Size(ts[..|ts| - 1]) + 5 + |ts[|ts| - 1].data|
  }

  // ---- Answers ----

  function NotAvailable(proto: byte, trans: byte, room: nat): seq<Tlv>
  {
    if room < 5 then [] else [Tlv(proto, trans, SD_PROTO_NOT_AVAILABLE, [])]
  }

  /** TLVs from the first on, until one does not fit. */
  function Fitting(ts: seq<Tlv>, room: nat): seq<Tlv>
  {
    if ts == [] || room < 5 + |ts[0].data| then []
    else [ts[0]] + Fitting(ts[1..], room - 5 - |ts[0].data|)
  }

  function BonjourTlv(s: Bonjour, trans: byte): Tlv
  {
    Tlv(SERV_BONJOUR, trans, SD_SUCCESS, s.query + s.resp)
  }

  function BonjourTlvs(ss: seq<Bonjour>, trans: byte): (ts: seq<Tlv>)
    ensures |ts| == |ss|
    ensures forall i | 0 <= i < |ss| :: ts[i] == BonjourTlv(ss[i], trans)
  {
    if ss == [] then [] else [BonjourTlv(ss[0], trans)] + BonjourTlvs(ss[1..], trans)
  }

  function UpnpTlv(s: Upnp, trans: byte): Tlv
  {
    Tlv(SERV_UPNP, trans, SD_SUCCESS, [s.version] + s.service)
  }

  function UpnpTlvs(ss: seq<Upnp>, trans: byte): (ts: seq<Tlv>)
    ensures |ts| == |ss|
    ensures forall i | 0 <= i < |ss| :: ts[i] == UpnpTlv(ss[i], trans)
  {
    if ss == [] then [] else [UpnpTlv(ss[0], trans)] + UpnpTlvs(ss[1..], trans)
  }

  /** wpas_sd_all_bonjour and wpas_sd_all_upnp, one after the other */
  function AllServices(sv: Services, trans: byte, room: nat): seq<Tlv>
  {
    var b := Fitting(BonjourTlvs(sv.bonjour, trans), room);
    b + Fitting(UpnpTlvs(sv.upnp, trans), if Size(b) <= room then room - Size(b) else 0)
  }

  /** wpas_p2p_service_get_bonjour: index of the service, or the number of services */
  function FindBonjour(ss: seq<Bonjour>, query: Bytes): (i: nat)
    ensures i <= |ss|
    ensures i < |ss| ==> ss[i].query == query
    ensures forall j | 0 <= j < i :: ss[j].query != query
  {
    if ss == [] || ss[0].query == query then 0 else 1 + FindBonjour(ss[1..], query)
  }

  /** wpas_sd_req_bonjour */
  function AnswerBonjour(ss: seq<Bonjour>, trans: byte, query: Bytes, room: nat): seq<Tlv>
  {
    if ss == [] then NotAvailable(SERV_BONJOUR, trans, room)
    else if query == [] then Fitting(BonjourTlvs(ss, trans), room)
    else if room < 5 then []
    else
      var i := FindBonjour(ss, query);
      if i == |ss| then [Tlv(SERV_BONJOUR, trans, SD_REQUESTED_INFO_NOT_AVAILABLE, [])]
      else if room - 5 >= |ss[i].query| + |ss[i].resp| then [BonjourTlv(ss[i], trans)]
      else [Tlv(SERV_BONJOUR, trans, SD_SUCCESS, [])]
  }

  predicate FoundAt(h: Bytes, n: Bytes, i: nat)
  {
    i + |n| <= |h| && h[i..i + |n|] == n
  }

  /** os_strstr from position i on */
  predicate Contains(h: Bytes, n: Bytes, i: nat)
    decreases |h| - i
  {
    FoundAt(h, n, i) || (i < |h| && Contains(h, n, i + 1))
  }

  /** The octets before the first NUL. */
  function CString(b: Bytes): Bytes
  {
    if b == [] || b[0] == 0 then [] else [b[0]] + CString(b[1..])
  }

  /** "ssdp:all" */
  const SSDP_ALL: Bytes := [115, 115, 100, 112, 58, 97, 108, 108]

  const COMMA: byte := 44

  predicate UpnpMatches(s: Upnp, version: byte, text: Bytes)
  {
    s.version == version && (text == SSDP_ALL || Contains(s.service, text, 0))
  }

  /** The names of the matching services. */
  function UpnpNames(ss: seq<Upnp>, version: byte, text: Bytes): seq<Bytes>
  {
    if ss == [] then []
    else (if UpnpMatches(ss[0], version, text) then [ss[0].service] else []) + UpnpNames(ss[1..], version, text)
  }

  /** Status code and data with more names behind it, as far as there is room. The first name
      comes behind status and version, others behind a comma; a name that does not fit ends
      the list, but its comma stays. */
  function WithNames(body: Bytes, names: seq<Bytes>, version: byte, room: nat): Bytes
    decreases |names|
  {
    if names == [] || |body| + 2 > room then body
    else
      var b := body + if body == [] then [SD_SUCCESS, version] else [COMMA];
      if |b| + |names[0]| > room then b else WithNames(b + names[0], names[1..], version, room)
  }

  function UpnpBody(names: seq<Bytes>, version: byte, room: nat): Bytes
  {
    var b := WithNames([], names, version, room);
    if b == [] then [SD_REQUESTED_INFO_NOT_AVAILABLE] else b
  }

  /** wpas_sd_req_upnp */
  function AnswerUpnp(ss: seq<Upnp>, trans: byte, query: Bytes, room: nat): seq<Tlv>
  {
    if ss == [] then NotAvailable(SERV_UPNP, trans, room)
    else if query == [] then Fitting(UpnpTlvs(ss, trans), room)
    else if room < 5 then []
    else
      var body := UpnpBody(UpnpNames(ss, query[0], CString(query[1..])), query[0], room - 4);
      if body == [] then [] else [Tlv(SERV_UPNP, trans, body[0], body[1..])]
  }

  /** The answer to one request TLV. */
  function Answer(sv: Services, forced: bool, r: Request, room: nat): seq<Tlv>
  {
    if forced then AllServices(sv, r.trans, room)
    else if r.proto == SERV_ALL_SERVICES then
      if sv.upnp == [] && sv.bonjour == [] then NotAvailable(SERV_ALL_SERVICES, r.trans, room)
      else AllServices(sv, r.trans, room)
    else if r.proto == SERV_BONJOUR then AnswerBonjour(sv.bonjour, r.trans, r.query, room)
    else if r.proto == SERV_UPNP then AnswerUpnp(sv.upnp, r.trans, r.query, room)
    else NotAvailable(r.proto, r.trans, room)
  }

  /** The request TLVs; None if one has a wrong length. A single octet at the end is ignored. */
  function Requests(b: Bytes): Option<seq<Request>>
    decreases |b|
  {
    if |b| < 2 then Some([])
    else
      var n := Le16(b, 0);
      if 2 + n > |b| || n < 2 then None
      else
        var more := Requests(b[2 + n..]);
        if more.None? then None else Some([Request(b[2], b[3], b[4..2 + n])] + more.value)
  }

  /** Room that is left behind some TLVs. */
  function Left(room: nat, ts: seq<Tlv>): nat
  {
    if Size(ts) <= room then room - Size(ts) else 0
  }

  /** The answers to all requests, one part for each. */
  function Answers(sv: Services, rs: seq<Request>, room: nat): (parts: seq<seq<Tlv>>)
    ensures |parts| == |rs|
    decreases |rs|
  {
    if rs == [] then []
    else
      var a := Answer(sv, false, rs[0], room);
      [a] + Answers(sv, rs[1..], Left(room, a))
  }

  function Flat(parts: seq<seq<Tlv>>): seq<Tlv>
  {
    if parts == [] then [] else parts[0] + Flat(parts[1..])
  }

  /** wpas_sd_request: the TLVs of the response. In the long response test the first request
      TLV is answered with all services and the others are not looked at. */
  function Response(sv: Services, forced: bool, b: Bytes): Option<seq<Tlv>>
  {
    if forced && |b| >= 2 then
      var n := Le16(b, 0);
      if 2 + n > |b| || n < 2 then None
      else Some(Answer(sv, true, Request(b[2], b[3], b[4..2 + n]), RESPONSE_SIZE))
    else
      match Requests(b)
      case None => None
      case Some(rs) => Some(Flat(Answers(sv, rs, RESPONSE_SIZE)))
  }

  // ---- Octets of a response ----

  /** The length is a 16-bit field. */
  function EncodeTlv(t: Tlv): (b: Bytes)
    ensures |b| == 5 + |t.data|
  {
    PutLe16((3 + |t.data|) % 0x1_0000) + [t.proto, t.trans, t.status] + t.data
  }

  function Encode(ts: seq<Tlv>): (b: Bytes)
    ensures |b| == Size(ts)
  {
    if ts == [] then [] else Encode(ts[..|ts| - 1]) + EncodeTlv(ts[|ts| - 1])
  }

  /** wpas_sd_response: the TLVs that are seen on the way to the end; None if the walk stops
      early, as it does with one octet left, whatever the octet behind the end is. */
  function Walk(b: Bytes): Option<seq<Tlv>>
    decreases |b|
  {
    if b == [] then Some([])
    else if |b| < 2 || 2 + Le16(b, 0) > |b| || Le16(b, 0) < 3 then None
    else
      var n := Le16(b, 0);
      var more := Walk(b[2 + n..]);
      if more.None? then None else Some([Tlv(b[2], b[3], b[4], b[5..2 + n])] + more.value)
  }

  // ---- Sizes ----

  lemma {:induction false} SizeJoin(s: seq<Tlv>, t: seq<Tlv>)
    ensures Size(s + t) == Size(s) + Size(t)
  {
    if t == [] {
      assert s + t == s;
    } else {
      SizeJoin(s, t[..|t| - 1]);
      assert (s + t)[..|s + t| - 1] == s + t[..|t| - 1];
    }
  }

  lemma SizeOne(t: Tlv)
    ensures Size([t]) == 5 + |t.data|
  {
    assert [t][..0] == [];
  }

  /** A prefix of the TLVs that fits; all of them exactly when all fit. */
  lemma {:induction false} FittingFits(ts: seq<Tlv>, room: nat)
    ensures Fitting(ts, room) <= ts && Size(Fitting(ts, room)) <= room
    ensures Fitting(ts, room) == ts <==> Size(ts) <= room
  {
    if ts != [] {
      var t, more := ts[0], ts[1..];
      assert ts == [t] + more;
      SizeJoin([t], more);
      SizeOne(t);
      if room >= 5 + |t.data| {
        FittingFits(more, room - 5 - |t.data|);
        SizeJoin([t], Fitting(more, room - 5 - |t.data|));
      }
    }
  }

  lemma {:induction false} WithNamesFits(body: Bytes, names: seq<Bytes>, version: byte, room: nat)
    requires |body| <= room
    ensures |WithNames(body, names, version, room)| <= room
    decreases |names|
  {
    if names != [] && |body| + 2 <= room {
      var b := body + if body == [] then [SD_SUCCESS, version] else [COMMA];
      if |b| + |names[0]| <= room {
        WithNamesFits(b + names[0], names[1..], version, room);
      }
    }
  }

  /** The TLVs answer the request: they carry its transaction id, and its protocol unless it
      asks for all services. */
  predicate Answering(ts: seq<Tlv>, trans: byte, proto: byte)
  {
    forall i | 0 <= i < |ts| :: ts[i].trans == trans && (proto == SERV_ALL_SERVICES || ts[i].proto == proto)
  }

  ghost predicate Proper(ts: seq<Tlv>, trans: byte, proto: byte, room: nat)
  {
    Answering(ts, trans, proto) && Size(ts) <= room
  }

  lemma OneProper(t: Tlv, room: nat)
    requires 5 + |t.data| <= room
    ensures Proper([t], t.trans, t.proto, room)
  {
    SizeOne(t);
  }

  lemma NotAvailableProper(proto: byte, trans: byte, room: nat)
    ensures Proper(NotAvailable(proto, trans, room), trans, proto, room)
  {
    if room >= 5 {
      OneProper(Tlv(proto, trans, SD_PROTO_NOT_AVAILABLE, []), room);
    }
  }

  lemma FittingProper(ts: seq<Tlv>, trans: byte, proto: byte, room: nat)
    requires Answering(ts, trans, proto)
    ensures Proper(Fitting(ts, room), trans, proto, room)
  {
    hide Fitting;
    FittingFits(ts, room);
  }

  lemma AllServicesProper(sv: Services, trans: byte, room: nat)
    ensures Proper(AllServices(sv, trans, room), trans, SERV_ALL_SERVICES, room)
  {
    hide Fitting, BonjourTlvs, UpnpTlvs, Size;
    var b, u := BonjourTlvs(sv.bonjour, trans), UpnpTlvs(sv.upnp, trans);
    FittingProper(b, trans, SERV_ALL_SERVICES, room);
    var left := room - Size(Fitting(b, room));
    FittingProper(u, trans, SERV_ALL_SERVICES, left);
    SizeJoin(Fitting(b, room), Fitting(u, left));
  }

  lemma BonjourProper(ss: seq<Bonjour>, trans: byte, query: Bytes, room: nat)
    ensures Proper(AnswerBonjour(ss, trans, query, room), trans, SERV_BONJOUR, room)
  {
    hide Fitting, BonjourTlvs, Size, Proper, NotAvailable, FindBonjour;
    if ss == [] {
      NotAvailableProper(SERV_BONJOUR, trans, room);
    } else if query == [] {
      FittingProper(BonjourTlvs(ss, trans), trans, SERV_BONJOUR, room);
    } else if room >= 5 {
      OneProper(AnswerBonjour(ss, trans, query, room)[0], room);
    } else {
      NoneProper(trans, SERV_BONJOUR, room);
    }
  }

  lemma NoneProper(trans: byte, proto: byte, room: nat)
    ensures Proper([], trans, proto, room)
  {
  }

  lemma UpnpProper(ss: seq<Upnp>, trans: byte, query: Bytes, room: nat)
    ensures Proper(AnswerUpnp(ss, trans, query, room), trans, SERV_UPNP, room)
  {
    hide Fitting, UpnpTlvs, Size, Proper, NotAvailable, UpnpNames, CString, WithNames;
    if ss == [] {
      NotAvailableProper(SERV_UPNP, trans, room);
    } else if query == [] {
      FittingProper(UpnpTlvs(ss, trans), trans, SERV_UPNP, room);
    } else if room >= 5 {
      WithNamesFits([], UpnpNames(ss, query[0], CString(query[1..])), query[0], room - 4);
      OneProper(AnswerUpnp(ss, trans, query, room)[0], room);
    } else {
      NoneProper(trans, SERV_UPNP, room);
    }
  }

  /** Every answer fits and carries the transaction id of its request. */
  lemma AnswerProper(sv: Services, forced: bool, r: Request, room: nat)
    ensures Proper(Answer(sv, forced, r, room), r.trans, if forced then SERV_ALL_SERVICES else r.proto, room)
  {
    hide AllServices, AnswerBonjour, AnswerUpnp, NotAvailable, Proper;
    AllServicesProper(sv, r.trans, room);
    BonjourProper(sv.bonjour, r.trans, r.query, room);
    UpnpProper(sv.upnp, r.trans, r.query, room);
    NotAvailableProper(r.proto, r.trans, room);
  }

  /** Part i of the response answers request i. */
  predicate InStep(parts: seq<seq<Tlv>>, rs: seq<Request>)
  {
    |parts| == |rs| && forall i | 0 <= i < |rs| :: Answering(parts[i], rs[i].trans, rs[i].proto)
  }

  lemma {:induction false} AnswersFit(sv: Services, rs: seq<Request>, room: nat)
    ensures InStep(Answers(sv, rs, room), rs) && Size(Flat(Answers(sv, rs, room))) <= room
    decreases |rs|
  {
    hide Answer, Size, Answering;
    if rs != [] {
      var a := Answer(sv, false, rs[0], room);
      AnswerProper(sv, false, rs[0], room);
      AnswersFit(sv, rs[1..], room - Size(a));
      var more := Answers(sv, rs[1..], room - Size(a));
      SizeJoin(a, Flat(more));
      assert Answers(sv, rs, room) == [a] + more;
      assert ([a] + more)[1..] == more;
    } else {
      assert Size([]) == 0 by { EmptySize(); }
    }
  }

  lemma EmptySize()
    ensures Size([]) == 0
  {
  }

  // ---- Walking ----

  predicate Bounded(ts: seq<Tlv>)
  {
    forall i | 0 <= i < |ts| :: |ts[i].data| < RESPONSE_SIZE
  }

  lemma {:induction false} SmallIsBounded(ts: seq<Tlv>)
    requires Size(ts) <= RESPONSE_SIZE
    ensures Bounded(ts)
  {
    if ts != [] {
      SmallIsBounded(ts[..|ts| - 1]);
      assert ts == ts[..|ts| - 1] + [ts[|ts| - 1]];
    }
  }

  lemma WalkOne(t: Tlv, rest: Bytes)
    requires |t.data| < RESPONSE_SIZE
    ensures Walk(EncodeTlv(t) + rest) == if Walk(rest).None? then None else Some([t] + Walk(rest).value)
  {
    hide PutLe16;
    var b, n := EncodeTlv(t) + rest, 3 + |t.data|;
    assert b[0] == PutLe16(n)[0] && b[1] == PutLe16(n)[1];
    assert Le16(b, 0) == n;
    assert b[2] == t.proto && b[3] == t.trans && b[4] == t.status;
    assert b[5..2 + n] == t.data && b[2 + n..] == rest;
  }

  lemma {:induction false} WalkEncoded(ts: seq<Tlv>, rest: Bytes)
    requires Bounded(ts)
    ensures Walk(Encode(ts) + rest) == if Walk(rest).None? then None else Some(ts + Walk(rest).value)
    decreases |ts|
  {
    hide Walk, EncodeTlv;
    if ts == [] {
      assert Encode(ts) + rest == rest;
      if Walk(rest).Some? {
        assert ts + Walk(rest).value == Walk(rest).value;
      }
    } else {
      var t, front := ts[|ts| - 1], ts[..|ts| - 1];
      WalkOne(t, rest);
      WalkEncoded(front, EncodeTlv(t) + rest);
      assert Encode(ts) + rest == Encode(front) + (EncodeTlv(t) + rest);
      if Walk(rest).Some? {
        assert front + ([t] + Walk(rest).value) == ts + Walk(rest).value;
      }
    }
  }

  /** The walker sees exactly the TLVs of a response and gets to its end. */
  lemma WalkReturns(ts: seq<Tlv>)
    requires Bounded(ts)
    ensures Walk(Encode(ts)) == Some(ts)
  {
    hide Encode;
    WalkEncoded(ts, []);
    assert Encode(ts) + [] == Encode(ts);
    assert ts + [] == ts;
  }

  // ---- Reading beyond the end ----

  /** The walk comes to a length field with only one octet left, and reads the octet behind
      the end as the other half of it. */
  predicate OverReads(b: Bytes)
    decreases |b|
  {
    |b| == 1
    || (|b| >= 2 && 3 <= Le16(b, 0) && 2 + Le16(b, 0) <= |b| && OverReads(b[2 + Le16(b, 0)..]))
  }

  lemma OneLess(b: Bytes)
    requires |b| >= 2 && 3 <= Le16(b, 0) && 2 + Le16(b, 0) < |b|
    ensures Walk(b[..|b| - 1]).Some? <==> Walk(b[2 + Le16(b, 0)..][..|b| - 3 - Le16(b, 0)]).Some?
  {
    var n, c := Le16(b, 0), b[..|b| - 1];
    assert Le16(c, 0) == n;
    assert c[2 + n..] == b[2 + n..][..|b| - 3 - n];
  }

  /** The code reads beyond the end of a response exactly when it is a sequence of good TLVs
      with one more octet behind it. */
  lemma {:induction false} OverReadsIff(b: Bytes)
    ensures OverReads(b) <==> b != [] && Walk(b[..|b| - 1]).Some?
    decreases |b|
  {
    if |b| >= 2 && 3 <= Le16(b, 0) {
      var n, c := Le16(b, 0), b[..|b| - 1];
      if 2 + n < |b| {
        OverReadsIff(b[2 + n..]);
        OneLess(b);
      } else {
        assert |c| < 2 || Le16(c, 0) == n;
      }
    } else if |b| >= 2 {
      assert |b[..|b| - 1]| >= 2 ==> Le16(b[..|b| - 1], 0) == Le16(b, 0);
    }
  }

  /** A response of six octets: one TLV without data, and an octet. */
  lemma OverReadsSix()
    ensures OverReads([3, 0, SERV_BONJOUR, 9, SD_SUCCESS, 0])
  {
    var b: Bytes := [3, 0, SERV_BONJOUR, 9, SD_SUCCESS, 0];
    assert Le16(b, 0) == 3;
    assert b[5..] == [0];
  }

  /** No response that the builder makes is one of them. */
  lemma BuiltNeverOverReads(ts: seq<Tlv>)
    requires Bounded(ts)
    ensures !OverReads(Encode(ts))
  {
    hide Encode, OverReads;
    WalkReturns(ts);
    WalkedNever(Encode(ts));
  }

  lemma {:induction false} WalkedNever(b: Bytes)
    requires Walk(b).Some?
    ensures !OverReads(b)
    decreases |b|
  {
    if b != [] {
      WalkedNever(b[2 + Le16(b, 0)..]);
    }
  }

  /** For every table of services and every request: the response fits its buffer, is walked
      to the end, and consists of one part for each request TLV with its transaction id. */
  lemma ResponseIsSound(sv: Services, forced: bool, b: Bytes)
    requires Response(sv, forced, b).Some?
    ensures var ts := Response(sv, forced, b).value;
      && |Encode(ts)| <= RESPONSE_SIZE
      && Walk(Encode(ts)) == Some(ts)
    ensures !forced ==>
      && Requests(b).Some?
      && exists parts :: Flat(parts) == Response(sv, forced, b).value && InStep(parts, Requests(b).value)
    ensures forced && |b| >= 4 ==> Answering(Response(sv, forced, b).value, b[3], SERV_ALL_SERVICES)
  {
    hide Answer, Answers, Requests, InStep, Encode, Walk, Bounded, Flat;
    var ts := Response(sv, forced, b).value;
    if forced && |b| >= 2 {
      AnswerProper(sv, true, Request(b[2], b[3], b[4..2 + Le16(b, 0)]), RESPONSE_SIZE);
    } else {
      AnswersFit(sv, Requests(b).value, RESPONSE_SIZE);
    }
    SmallIsBounded(ts);
    WalkReturns(ts);
  }

  /** Octets of a request TLV. */
  function EncodeRequest(r: Request): (b: Bytes)
    ensures |b| == 4 + |r.query|
  {
    PutLe16((2 + |r.query|) % 0x1_0000) + [r.proto, r.trans] + r.query
  }

  function EncodeRequests(rs: seq<Request>): Bytes
  {
    if rs == [] then [] else EncodeRequest(rs[0]) + EncodeRequests(rs[1..])
  }

  /** Queries as long as the length field allows. */
  predicate Lengths(rs: seq<Request>)
  {
    forall i | 0 <= i < |rs| :: |rs[i].query| < 0xfffe
  }

  /** A length field that is too small, or points beyond the end. */
  predicate WrongLength(b: Bytes)
  {
    |b| >= 2 && (Le16(b, 0) < 2 || 2 + Le16(b, 0) > |b|)
  }

  lemma RequestFields(r: Request, rest: Bytes)
    requires |r.query| < 0xfffe
    ensures var b, n := EncodeRequest(r) + rest, 2 + |r.query|;
      && Le16(b, 0) == n && b[2] == r.proto && b[3] == r.trans
      && b[4..2 + n] == r.query && b[2 + n..] == rest
  {
    hide PutLe16;
    var b, n := EncodeRequest(r) + rest, 2 + |r.query|;
    assert b[0] == PutLe16(n)[0] && b[1] == PutLe16(n)[1];
  }

  lemma RequestsOne(r: Request, rest: Bytes)
    requires |r.query| < 0xfffe
    ensures Requests(EncodeRequest(r) + rest) == if Requests(rest).None? then None else Some([r] + Requests(rest).value)
  {
    hide EncodeRequest, Le16;
    RequestFields(r, rest);
  }

  lemma {:induction false} RequestsJoin(rs: seq<Request>, rest: Bytes)
    requires Lengths(rs)
    ensures Requests(EncodeRequests(rs) + rest) == if Requests(rest).None? then None else Some(rs + Requests(rest).value)
  {
    hide Requests, EncodeRequest;
    if rs == [] {
      assert EncodeRequests(rs) + rest == rest;
      if Requests(rest).Some? {
        assert rs + Requests(rest).value == Requests(rest).value;
      }
    } else {
      var more := EncodeRequests(rs[1..]) + rest;
      RequestsJoin(rs[1..], rest);
      RequestsOne(rs[0], more);
      assert EncodeRequests(rs) + rest == EncodeRequest(rs[0]) + more;
      if Requests(rest).Some? {
        assert [rs[0]] + (rs[1..] + Requests(rest).value) == rs + Requests(rest).value;
      }
    }
  }

  /** The octets are whole request TLVs and what is left behind them. */
  predicate Made(b: Bytes, rs: seq<Request>, rest: Bytes)
  {
    Lengths(rs) && b == EncodeRequests(rs) + rest
  }

  lemma MadeOne(b: Bytes, rs: seq<Request>, rest: Bytes)
    requires |b| >= 2 && !WrongLength(b) && Made(b[2 + Le16(b, 0)..], rs, rest)
    ensures var n := Le16(b, 0); Made(b, [Request(b[2], b[3], b[4..2 + n])] + rs, rest)
  {
    hide PutLe16, EncodeRequest;
    var n := Le16(b, 0);
    var r := Request(b[2], b[3], b[4..2 + n]);
    RequestOctets(b);
    assert ([r] + rs)[1..] == rs;
    assert b == b[..2 + n] + b[2 + n..];
    assert EncodeRequest(r) + EncodeRequests(rs) + rest == EncodeRequest(r) + (EncodeRequests(rs) + rest);
  }

  lemma RequestOctets(b: Bytes)
    requires |b| >= 2 && !WrongLength(b)
    ensures var n := Le16(b, 0); EncodeRequest(Request(b[2], b[3], b[4..2 + n])) == b[..2 + n]
  {
    var n := Le16(b, 0);
    assert PutLe16(n) == b[..2];
  }

  /** All octets divide into whole request TLVs and a rest that is too short for another or
      has a wrong length. */
  lemma {:induction false} Divide(b: Bytes) returns (rs: seq<Request>, rest: Bytes)
    ensures Made(b, rs, rest) && (|rest| < 2 || WrongLength(rest))
    decreases |b|
  {
    if |b| < 2 || WrongLength(b) {
      rs, rest := [], b;
      assert [] + b == b;
    } else {
      hide Made, WrongLength;
      var n := LengthOk(b);
      rs, rest := Divide(b[2 + n..]);
      MadeOne(b, rs, rest);
      rs := [Request(b[2], b[3], b[4..2 + n])] + rs;
    }
  }

  lemma LengthOk(b: Bytes) returns (n: nat)
    requires |b| >= 2 && !WrongLength(b)
    ensures n == Le16(b, 0) && 4 <= 2 + n <= |b|
  {
    n := Le16(b, 0);
  }

  /** The requests found are those that the octets are made of. */
  lemma RequestsIff(b: Bytes, rs: seq<Request>)
    ensures Requests(b) == Some(rs) <==> exists rest :: Made(b, rs, rest) && |rest| < 2
  {
    hide Requests, EncodeRequests, Lengths;
    forall rest | Made(b, rs, rest) && |rest| < 2 ensures Requests(b) == Some(rs) {
      RequestsJoin(rs, rest);
      ShortRest(rest);
      assert rs + [] == rs;
    }
    var ts, rest := Divide(b);
    RequestsJoin(ts, rest);
    ShortRest(rest);
    assert ts + [] == ts;
  }

  lemma ShortRest(rest: Bytes)
    ensures |rest| < 2 ==> Requests(rest) == Some([])
    ensures WrongLength(rest) ==> Requests(rest) == None
  {
  }

  /** No response exactly when the request is any number of whole TLVs followed by a length
      field that is less than 2 or points beyond the end; in the long response test only the
      first length field counts. */
  lemma SilentIffMalformed(sv: Services, forced: bool, b: Bytes)
    ensures !forced ==> (Response(sv, forced, b).None? <==> exists rs, rest :: Made(b, rs, rest) && WrongLength(rest))
    ensures forced ==> (Response(sv, forced, b).None? <==> WrongLength(b))
  {
    hide Answer, Answers, AllServices, Requests, Made, Flat, WrongLength;
    ShortRest(b);
    WrongIs(b);
    var ts, end := Divide(b);
    MadeRequests(b, ts, end);
    if exists rs, rest :: Made(b, rs, rest) && WrongLength(rest) {
      var rs, rest :| Made(b, rs, rest) && WrongLength(rest);
      MadeRequests(b, rs, rest);
    }
  }

  lemma WrongIs(b: Bytes)
    ensures WrongLength(b) <==> |b| >= 2 && (Le16(b, 0) < 2 || 2 + Le16(b, 0) > |b|)
  {
  }

  lemma MadeRequests(b: Bytes, rs: seq<Request>, rest: Bytes)
    requires Made(b, rs, rest)
    ensures |rest| < 2 ==> Requests(b).Some?
    ensures WrongLength(rest) ==> Requests(b).None?
  {
    hide Requests, EncodeRequests, WrongLength;
    RequestsJoin(rs, rest);
    ShortRest(rest);
  }

  // ---- Completeness ----

  /** All names with commas between them. */
  function Listed(names: seq<Bytes>): Bytes
  {
    if names == [] then [] else if |names| == 1 then names[0] else names[0] + [COMMA] + Listed(names[1..])
  }

  /** Names behind a body that already holds one. */
  ghost function Tail(names: seq<Bytes>): Bytes
  {
    if names == [] then [] else [COMMA] + names[0] + Tail(names[1..])
  }

  lemma {:induction false} TailListed(names: seq<Bytes>)
    requires names != []
    ensures Listed(names) == names[0] + Tail(names[1..])
  {
    if |names| > 1 {
      TailListed(names[1..]);
      assert names[0] + [COMMA] + Listed(names[1..]) == names[0] + Tail(names[1..]);
    }
  }

  /** A last name that is empty needs room for two octets although it takes one. */
  function Spare(names: seq<Bytes>): nat
  {
    if names != [] && names[|names| - 1] == [] then 1 else 0
  }

  lemma TailIs(names: seq<Bytes>)
    ensures Tail(names) == if names == [] then [] else [COMMA] + names[0] + Tail(names[1..])
  {
  }

  /** Behind a first name, the others follow with commas; all of them if and only if they fit,
      with an octet to spare if the last one is empty. */
  lemma {:induction false} WithTail(body: Bytes, names: seq<Bytes>, version: byte, room: nat)
    requires body != [] && |body| <= room
    ensures WithNames(body, names, version, room) <= body + Tail(names)
    ensures WithNames(body, names, version, room) == body + Tail(names) <==> |body + Tail(names)| + Spare(names) <= room
    decreases |names|
  {
    hide Tail;
    WithNamesFits(body, names, version, room);
    TailIs(names);
    if names == [] {
      assert body + Tail(names) == body;
    } else {
      var b, more := body + [COMMA], Tail(names[1..]);
      assert Tail(names) == [COMMA] + names[0] + more;
      assert body + Tail(names) == b + names[0] + more;
      TailIs(names[1..]);
      assert |names| > 1 ==> names[1..][|names| - 2] == names[|names| - 1] && |more| >= 1;
      if |b| + |names[0]| <= room {
        WithTail(b + names[0], names[1..], version, room);
      } else {
        assert b <= body + Tail(names) && body <= body + Tail(names);
      }
    }
  }

  /** The answer to a UPnP query lists the matching services in order. The list is complete
      exactly when it fits, with an octet to spare if an empty name comes last behind others;
      without matches, or without room for status and version, there is only a status code. */
  lemma UpnpListsAll(names: seq<Bytes>, version: byte, room: nat)
    ensures names == [] || room < 2 ==> UpnpBody(names, version, room) == [SD_REQUESTED_INFO_NOT_AVAILABLE]
    ensures names != [] && room >= 2 ==>
      var full: Bytes := [SD_SUCCESS, version] + Listed(names);
      && UpnpBody(names, version, room) <= full
      && (UpnpBody(names, version, room) == full <==> |full| + Spare(names[1..]) <= room)
  {
    if names != [] && room >= 2 {
      hide Tail, Listed;
      TailListed(names);
      var b: Bytes := [SD_SUCCESS, version];
      var full := b + Listed(names);
      assert [] + b == b;
      assert full == b + names[0] + Tail(names[1..]);
      if |b| + |names[0]| <= room {
        assert WithNames([], names, version, room) == WithNames(b + names[0], names[1..], version, room);
        WithTail(b + names[0], names[1..], version, room);
        NotLost(b + names[0], names[1..], version, room);
      } else {
        assert WithNames([], names, version, room) == b;
      }
    }
  }

  /** An empty name that is dropped although all four octets would fit. */
  lemma EmptyNameCut()
    ensures var names: seq<Bytes> := [[7], []];
      |[SD_SUCCESS, 1] + Listed(names)| == 4 && UpnpBody(names, 1, 4) == [SD_SUCCESS, 1, 7]
  {
    var names: seq<Bytes> := [[7], []];
    assert names[1..] == [[]];
    assert Listed(names) == [7] + [COMMA] + [];
    var b: Bytes := [SD_SUCCESS, 1];
    assert [] + b == b && b + [7] == [SD_SUCCESS, 1, 7];
  }

  lemma {:induction false} NotLost(body: Bytes, names: seq<Bytes>, version: byte, room: nat)
    requires body != []
    ensures WithNames(body, names, version, room) != []
    decreases |names|
  {
    if names != [] && |body| + 2 <= room && |body| + 1 + |names[0]| <= room {
      NotLost(body + [COMMA] + names[0], names[1..], version, room);
    }
  }

  // ---- What an answer says ----

  /** Service i is the first with this query. */
  predicate FirstWith(ss: seq<Bonjour>, query: Bytes, i: nat)
  {
    i < |ss| && ss[i].query == query && forall j | 0 <= j < i :: ss[j].query != query
  }

  /** A Bonjour query for a known service is answered by one TLV with status 0, its query and
      its response, or without data if they do not fit; a query for another service by status
      2; without any service by status 1. */
  lemma BonjourAnswered(sv: Services, trans: byte, query: Bytes, room: nat, i: nat)
    requires room >= 5 && query != []
    ensures var a := Answer(sv, false, Request(1, trans, query), room);
      && (sv.bonjour == [] ==> a == [Tlv(1, trans, 1, [])])
      && (sv.bonjour != [] && (forall j | 0 <= j < |sv.bonjour| :: sv.bonjour[j].query != query) ==> a == [Tlv(1, trans, 2, [])])
      && (FirstWith(sv.bonjour, query, i) && 5 + |query| + |sv.bonjour[i].resp| <= room ==>
            a == [Tlv(1, trans, 0, query + sv.bonjour[i].resp)])
      && (FirstWith(sv.bonjour, query, i) && 5 + |query| + |sv.bonjour[i].resp| > room ==> a == [Tlv(1, trans, 0, [])])
  {
    hide FindBonjour, Fitting;
    var k := FindBonjour(sv.bonjour, query);
  }

  /** A request for all services: one TLV for each, status 0, with query and response of a
      Bonjour service, then with version and name of an UPnP service, if all fit. */
  lemma AllAnswered(sv: Services, trans: byte, query: Bytes, room: nat)
    requires sv.bonjour != [] || sv.upnp != []
    requires Size(BonjourTlvs(sv.bonjour, trans)) + Size(UpnpTlvs(sv.upnp, trans)) <= room
    ensures var a := Answer(sv, false, Request(0, trans, query), room);
      && |a| == |sv.bonjour| + |sv.upnp|
      && (forall i | 0 <= i < |sv.bonjour| :: a[i] == Tlv(1, trans, 0, sv.bonjour[i].query + sv.bonjour[i].resp))
      && (forall i | 0 <= i < |sv.upnp| ::
            a[|sv.bonjour| + i] == Tlv(2, trans, 0, [sv.upnp[i].version] + sv.upnp[i].service))
  {
    hide Fitting, BonjourTlvs, UpnpTlvs, Size;
    FittingFits(BonjourTlvs(sv.bonjour, trans), room);
    FittingFits(UpnpTlvs(sv.upnp, trans), room - Size(BonjourTlvs(sv.bonjour, trans)));
  }

  /** Without services, and for another protocol, the answer is status 1 for that protocol. */
  lemma OthersAnswered(sv: Services, proto: byte, trans: byte, query: Bytes, room: nat)
    requires room >= 5 && proto != 1 && proto != 2 && (proto == 0 ==> sv.bonjour == [] && sv.upnp == [])
    ensures Answer(sv, false, Request(proto, trans, query), room) == [Tlv(proto, trans, 1, [])]
  {
  }

  /** The text occurs in the name. */
  ghost predicate Occurs(name: Bytes, text: Bytes)
  {
    exists a, b :: name == a + text + b
  }

  lemma {:induction false} ContainsFrom(h: Bytes, n: Bytes, i: nat)
    requires i <= |h|
    ensures Contains(h, n, i) <==> exists k: nat | i <= k <= |h| :: FoundAt(h, n, k)
    decreases |h| - i
  {
    hide FoundAt;
    if i < |h| {
      ContainsFrom(h, n, i + 1);
    } else {
      assert Contains(h, n, i) <==> FoundAt(h, n, i);
    }
  }

  /** os_strstr finds the text exactly if it occurs. */
  lemma ContainsIff(name: Bytes, text: Bytes)
    ensures Contains(name, text, 0) <==> Occurs(name, text)
  {
    hide Contains;
    ContainsFrom(name, text, 0);
    if Contains(name, text, 0) {
      var k: nat :| k <= |name| && FoundAt(name, text, k);
      assert name == name[..k] + text + name[k + |text|..];
    }
    if Occurs(name, text) {
      var a, b :| name == a + text + b;
      assert name[|a|..|a| + |text|] == text;
      assert FoundAt(name, text, |a|);
    }
  }

  /** The octets of "ssdp:all". */
  predicate AsksForAll(text: Bytes)
  {
    text == [115, 115, 100, 112, 58, 97, 108, 108]
  }

  /** Name w is one that an UPnP query for the version and text asks for. */
  ghost predicate AskedFor(ss: seq<Upnp>, version: byte, text: Bytes, w: Bytes)
  {
    exists i | 0 <= i < |ss| ::
      ss[i].version == version && ss[i].service == w && (AsksForAll(text) || Occurs(ss[i].service, text))
  }

  /** The names in an answer are those of the services of that version in whose names the text
      occurs, or of all of that version. */
  lemma {:induction false} NamesIff(ss: seq<Upnp>, version: byte, text: Bytes, w: Bytes)
    ensures w in UpnpNames(ss, version, text) <==> AskedFor(ss, version, text, w)
  {
    hide Contains, Occurs;
    if ss != [] {
      NamesIff(ss[1..], version, text, w);
      ContainsIff(ss[0].service, text);
      assert ss == [ss[0]] + ss[1..];
      if AskedFor(ss[1..], version, text, w) {
        var i :| 0 <= i < |ss| - 1 && ss[1..][i].version == version && ss[1..][i].service == w
          && (AsksForAll(text) || Occurs(ss[1..][i].service, text));
        assert ss[i + 1] == ss[1..][i];
      }
      if AskedFor(ss, version, text, w) {
        var i :| 0 <= i < |ss| && ss[i].version == version && ss[i].service == w
          && (AsksForAll(text) || Occurs(ss[i].service, text));
        assert i > 0 ==> ss[i] == ss[1..][i - 1];
      }
    }
  }

  /** The text of a query ends at its first NUL. */
  lemma {:induction false} CStringIs(b: Bytes)
    ensures CString(b) <= b && 0 !in CString(b)
    ensures |CString(b)| < |b| ==> b[|CString(b)|] == 0
  {
    if b != [] && b[0] != 0 {
      CStringIs(b[1..]);
      assert b == [b[0]] + b[1..];
    }
  }

  /** An UPnP query is answered by one TLV: status 2 without data if no service is asked for,
      else status 0, the version and the names, separated by commas, if they fit. */
  lemma UpnpAnswered(sv: Services, trans: byte, query: Bytes, room: nat)
    requires room >= 6 && query != [] && sv.upnp != []
    ensures var names := UpnpNames(sv.upnp, query[0], CString(query[1..]));
      var a := Answer(sv, false, Request(2, trans, query), room);
      && (names == [] ==> a == [Tlv(2, trans, 2, [])])
      && (names != [] && 6 + |Listed(names)| + Spare(names[1..]) <= room ==>
            a == [Tlv(2, trans, 0, [query[0]] + Listed(names))])
  {
    hide UpnpNames, CString, UpnpBody, Listed, Spare;
    var names := UpnpNames(sv.upnp, query[0], CString(query[1..]));
    UpnpListsAll(names, query[0], room - 4);
    var none: Bytes := [SD_REQUESTED_INFO_NOT_AVAILABLE];
    assert none[1..] == [];
    if names != [] && 6 + |Listed(names)| + Spare(names[1..]) <= room {
      var full: Bytes := [SD_SUCCESS, query[0]] + Listed(names);
      assert UpnpBody(names, query[0], room - 4) == full;
      assert full[1..] == [query[0]] + Listed(names);
    }
  }
}
