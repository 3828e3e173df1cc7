/** The builders of p2p_supplicant.c: they append to a buffer of fixed size and fill in the
    length of a TLV when it is complete. */
module SdObjects {
  import opened Octets
  import opened ServiceDiscovery

  /** struct wpabuf; appending more than there is room for would abort the program, so each
      append demands room. */
  class Wpabuf {
    const size: nat
    var data: Bytes

    constructor (n: nat)
      ensures size == n && data == []
    {
      size := n;
      data := [];
    }

    predicate Valid()
      reads this
    {
      |data| <= size
    }

    /** wpabuf_tailroom */
    function Tailroom(): nat
      requires Valid()
      reads this
    {
      size - |data|
    }

    /** wpabuf_put_u8, wpabuf_put_buf, wpabuf_put_str */
    method Put(b: Bytes)
      requires Valid() && |b| <= Tailroom()
      modifies this
      ensures Valid() && data == old(data) + b
    {
      data := data + b;
    }

    /** The length field, to be filled, and the fields behind it. */
    method Begin(proto: byte, trans: byte) returns (lenPos: nat)
      requires Valid() && 4 <= Tailroom()
      modifies this
      ensures Valid() && lenPos == |old(data)| && data == old(data) + [0, 0, proto, trans]
    {
      lenPos := |data|;
      Put([0, 0]);
      Put([proto]);
      Put([trans]);
      assert old(data) + [0, 0] + [proto] + [trans] == old(data) + [0, 0, proto, trans];
    }

    /** WPA_PUT_LE16 at the length field: everything behind it. */
    method End(lenPos: nat)
      requires Valid() && lenPos + 2 <= |data|
      modifies this
      ensures Valid()
      ensures data == old(data)[..lenPos] + PutLe16((|old(data)| - lenPos - 2) % 0x1_0000) + old(data)[lenPos + 2..]
    {
      var n := PutLe16((|data| - lenPos - 2) % 0x1_0000);
      data := data[lenPos := n[0]];
      data := data[lenPos + 1 := n[1]];
    }
  }

  lemma EndIs(before: Bytes, t: Tlv)
    ensures var d := before + [0, 0, t.proto, t.trans] + ([t.status] + t.data);
      d[..|before|] + PutLe16((|d| - |before| - 2) % 0x1_0000) + d[|before| + 2..] == before + EncodeTlv(t)
  {
    hide PutLe16;
    var d := before + [0, 0, t.proto, t.trans] + ([t.status] + t.data);
    assert d[..|before|] == before;
    assert d[|before| + 2..] == [t.proto, t.trans, t.status] + t.data;
  }

  lemma EncodeOne(t: Tlv)
    ensures Encode([t]) == EncodeTlv(t)
  {
    hide EncodeTlv;
    assert [t][..0] == [];
    assert [] + EncodeTlv(t) == EncodeTlv(t);
  }

  lemma EncodeNone(b: Bytes)
    ensures b + Encode([]) == b
  {
  }

  lemma EncodeSnoc(s: seq<Tlv>, t: Tlv)
    ensures Encode(s + [t]) == Encode(s) + EncodeTlv(t)
  {
    hide EncodeTlv;
    assert (s + [t])[..|s|] == s;
  }

  lemma {:induction false} EncodeJoin(s: seq<Tlv>, t: seq<Tlv>)
    ensures Encode(s + t) == Encode(s) + Encode(t)
  {
    hide EncodeTlv, Encode;
    if t == [] {
      assert s + t == s;
      EncodeNone(Encode(s));
    } else {
      var front, last := t[..|t| - 1], t[|t| - 1];
      EncodeJoin(s, front);
      EncodeSnoc(s + front, last);
      EncodeSnoc(front, last);
      assert s + front + [last] == s + t && front + [last] == t;
    }
  }

  /** A whole TLV. */
  method AppendTlv(resp: Wpabuf, t: Tlv)
    requires resp.Valid() && 5 + |t.data| <= resp.Tailroom()
    modifies resp
    ensures resp.Valid() && resp.data == old(resp.data) + Encode([t])
  {
    hide Encode, EncodeTlv;
    ghost var before := resp.data;
    var lenPos := resp.Begin(t.proto, t.trans);
    resp.Put([t.status]);
    resp.Put(t.data);
    assert resp.data == before + [0, 0, t.proto, t.trans] + ([t.status] + t.data);
    EndIs(before, t);
    EncodeOne(t);
    resp.End(lenPos);
  }

  /** wpas_sd_add_proto_not_avail */
  method AddProtoNotAvail(resp: Wpabuf, proto: byte, trans: byte)
    requires resp.Valid()
    modifies resp
    ensures resp.Valid() && resp.data == old(resp.data) + Encode(NotAvailable(proto, trans, old(resp.Tailroom())))
  {
    hide Encode;
    EncodeNone(resp.data);
    if resp.Tailroom() < 5 {
      return;
    }
    AppendTlv(resp, Tlv(proto, trans, SD_PROTO_NOT_AVAILABLE, []));
  }

  /** The TLVs from index i on, behind those that were appended. */
  ghost predicate Going(ts: seq<Tlv>, room: nat, done: seq<Tlv>, i: nat, left: nat)
  {
    i <= |ts| && Fitting(ts, room) == done + Fitting(ts[i..], left)
  }

  lemma GoingOn(ts: seq<Tlv>, room: nat, done: seq<Tlv>, i: nat, left: nat)
    requires Going(ts, room, done, i, left) && i < |ts|
    ensures left < 5 + |ts[i].data| ==> Fitting(ts, room) == done
    ensures left >= 5 + |ts[i].data| ==> Going(ts, room, done + [ts[i]], i + 1, left - 5 - |ts[i].data|)
  {
    var tail := ts[i..];
    assert tail[0] == ts[i] && tail[1..] == ts[i + 1..];
    if left >= 5 + |ts[i].data| {
      var more := Fitting(ts[i + 1..], left - 5 - |ts[i].data|);
      assert done + ([ts[i]] + more) == done + [ts[i]] + more;
    }
  }

  lemma GoingStart(ts: seq<Tlv>, room: nat)
    ensures Going(ts, room, [], 0, room)
  {
    assert ts[0..] == ts;
    assert [] + Fitting(ts, room) == Fitting(ts, room);
  }

  lemma GoingEnd(ts: seq<Tlv>, room: nat, done: seq<Tlv>, left: nat)
    requires Going(ts, room, done, |ts|, left)
    ensures Fitting(ts, room) == done
  {
    assert ts[|ts|..] == [];
  }

  /** wpas_sd_all_bonjour */
  method AllBonjour(sv: Services, resp: Wpabuf, trans: byte)
    requires resp.Valid()
    modifies resp
    ensures resp.Valid()
    ensures resp.data == old(resp.data) + Encode(Fitting(BonjourTlvs(sv.bonjour, trans), old(resp.Tailroom())))
  {
    hide Encode, Going, Fitting;
    ghost var ts, room, done := BonjourTlvs(sv.bonjour, trans), resp.Tailroom(), [];
    EncodeNone(resp.data);
    GoingStart(ts, room);
    var i: nat := 0;
    while i < |sv.bonjour|
      invariant i <= |ts| && resp.Valid() && resp.data == old(resp.data) + Encode(done)
      invariant Going(ts, room, done, i, resp.Tailroom())
    {
      var s := sv.bonjour[i];
      GoingOn(ts, room, done, i, resp.Tailroom());
      if resp.Tailroom() < 5 + |s.query| + |s.resp| {
        return;
      }
      AppendTlv(resp, BonjourTlv(s, trans));
      EncodeJoin(done, [ts[i]]);
      done := done + [ts[i]];
      i := i + 1;
    }
    GoingEnd(ts, room, done, resp.Tailroom());
  }

  /** wpas_sd_all_upnp */
  method AllUpnp(sv: Services, resp: Wpabuf, trans: byte)
    requires resp.Valid()
    modifies resp
    ensures resp.Valid()
    ensures resp.data == old(resp.data) + Encode(Fitting(UpnpTlvs(sv.upnp, trans), old(resp.Tailroom())))
  {
    hide Encode, Going, Fitting;
    ghost var ts, room, done := UpnpTlvs(sv.upnp, trans), resp.Tailroom(), [];
    EncodeNone(resp.data);
    GoingStart(ts, room);
    var i: nat := 0;
    while i < |sv.upnp|
      invariant i <= |ts| && resp.Valid() && resp.data == old(resp.data) + Encode(done)
      invariant Going(ts, room, done, i, resp.Tailroom())
    {
      var s := sv.upnp[i];
      GoingOn(ts, room, done, i, resp.Tailroom());
      if resp.Tailroom() < 5 + 1 + |s.service| {
        return;
      }
      AppendTlv(resp, UpnpTlv(s, trans));
      EncodeJoin(done, [ts[i]]);
      done := done + [ts[i]];
      i := i + 1;
    }
    GoingEnd(ts, room, done, resp.Tailroom());
  }

  method AllOfBoth(sv: Services, resp: Wpabuf, trans: byte)
    requires resp.Valid()
    modifies resp
    ensures resp.Valid()
    ensures resp.data == old(resp.data) + Encode(AllServices(sv, trans, old(resp.Tailroom())))
  {
    hide Fitting, Encode, Size, BonjourTlvs, UpnpTlvs;
    ghost var before, room := resp.data, resp.Tailroom();
    ghost var b := Fitting(BonjourTlvs(sv.bonjour, trans), room);
    AllBonjour(sv, resp, trans);
    ghost var u := Fitting(UpnpTlvs(sv.upnp, trans), resp.Tailroom());
    AllUpnp(sv, resp, trans);
    EncodeJoin(b, u);
    assert before + Encode(b) + Encode(u) == before + (Encode(b) + Encode(u));
  }

  /** wpas_sd_req_bonjour */
  method ReqBonjour(sv: Services, resp: Wpabuf, trans: byte, query: Bytes)
    requires resp.Valid()
    modifies resp
    ensures resp.Valid()
    ensures resp.data == old(resp.data) + Encode(AnswerBonjour(sv.bonjour, trans, query, old(resp.Tailroom())))
  {
    hide Encode, EncodeTlv, Fitting, FindBonjour;
    ghost var before := resp.data;
    EncodeNone(before);
    if sv.bonjour == [] {
      AddProtoNotAvail(resp, SERV_BONJOUR, trans);
      return;
    }
    if query == [] {
      AllBonjour(sv, resp, trans);
      return;
    }
    if resp.Tailroom() < 5 {
      return;
    }
    var lenPos := resp.Begin(SERV_BONJOUR, trans);
    var i := FindBonjour(sv.bonjour, query);
    ghost var t := AnswerBonjour(sv.bonjour, trans, query, old(resp.Tailroom()))[0];
    if i == |sv.bonjour| {
      resp.Put([SD_REQUESTED_INFO_NOT_AVAILABLE]);
    } else {
      resp.Put([SD_SUCCESS]);
      var s := sv.bonjour[i];
      if resp.Tailroom() >= |s.query| + |s.resp| {
        resp.Put(s.query);
        resp.Put(s.resp);
      }
    }
    assert resp.data == before + [0, 0, t.proto, t.trans] + ([t.status] + t.data);
    EndIs(before, t);
    EncodeOne(t);
    resp.End(lenPos);
  }

  lemma NamesFrom(ss: seq<Upnp>, i: nat, version: byte, text: Bytes)
    requires i < |ss|
    ensures UpnpNames(ss[i..], version, text) ==
      (if UpnpMatches(ss[i], version, text) then [ss[i].service] else []) + UpnpNames(ss[i + 1..], version, text)
  {
    hide UpnpMatches;
    assert ss[i..][0] == ss[i] && ss[i..][1..] == ss[i + 1..];
  }

  /** The names that are appended and those that are still to come make up the body. */
  ghost predicate Naming(whole: Bytes, body: Bytes, names: seq<Bytes>, version: byte, room: nat)
  {
    whole == WithNames(body, names, version, room)
  }

  lemma NamingOn(whole: Bytes, body: Bytes, name: Bytes, names: seq<Bytes>, version: byte, room: nat)
    requires Naming(whole, body, [name] + names, version, room)
    ensures |body| + 2 > room ==> whole == body
    ensures |body| + 2 <= room ==>
      var b := body + if body == [] then [SD_SUCCESS, version] else [COMMA];
      && (|b| + |name| > room ==> whole == b)
      && (|b| + |name| <= room ==> Naming(whole, b + name, names, version, room))
  {
    assert ([name] + names)[1..] == names;
  }

  /** The loop over the UPnP services; body is what stands behind the transaction id. */
  method PutNames(ss: seq<Upnp>, resp: Wpabuf, version: byte, text: Bytes) returns (count: nat)
    requires resp.Valid()
    modifies resp
    ensures resp.Valid()
    ensures resp.data == old(resp.data) + WithNames([], UpnpNames(ss, version, text), version, old(resp.Tailroom()))
    ensures count == 0 <==> resp.data == old(resp.data)
  {
    hide UpnpNames, UpnpMatches, Naming, WithNames;
    ghost var before, room := resp.data, resp.Tailroom();
    ghost var whole, body: Bytes := WithNames([], UpnpNames(ss, version, text), version, room), [];
    assert before + body == before;
    assert ss[0..] == ss;
    NamingStart(UpnpNames(ss, version, text), version, room);
    count := 0;
    var i: nat := 0;
    while i < |ss|
      invariant i <= |ss| && resp.Valid() && resp.data == before + body
      invariant count == 0 <==> body == []
      invariant Naming(whole, body, UpnpNames(ss[i..], version, text), version, room)
    {
      NamesFrom(ss, i, version, text);
      if UpnpMatches(ss[i], version, text) {
        NamingOn(whole, body, ss[i].service, UpnpNames(ss[i + 1..], version, text), version, room);
        if resp.Tailroom() < 2 {
          return;
        }
        body := body + if count == 0 then [SD_SUCCESS, version] else [COMMA];
        resp.Put(if count == 0 then [SD_SUCCESS, version] else [COMMA]);
        count := count + 1;
        assert resp.data == before + body;
        if resp.Tailroom() < |ss[i].service| {
          return;
        }
        resp.Put(ss[i].service);
        body := body + ss[i].service;
      } else {
        assert [] + UpnpNames(ss[i + 1..], version, text) == UpnpNames(ss[i + 1..], version, text);
      }
      i := i + 1;
    }
    NamingEnd(whole, body, ss, version, text, room);
  }

  lemma NamingEnd(whole: Bytes, body: Bytes, ss: seq<Upnp>, version: byte, text: Bytes, room: nat)
    requires Naming(whole, body, UpnpNames(ss[|ss|..], version, text), version, room)
    ensures whole == body
  {
  }

  lemma NamingStart(names: seq<Bytes>, version: byte, room: nat)
    ensures Naming(WithNames([], names, version, room), [], names, version, room)
  {
  }

  /** wpas_sd_req_upnp */
  method ReqUpnp(sv: Services, resp: Wpabuf, trans: byte, query: Bytes)
    requires resp.Valid()
    modifies resp
    ensures resp.Valid()
    ensures resp.data == old(resp.data) + Encode(AnswerUpnp(sv.upnp, trans, query, old(resp.Tailroom())))
  {
    hide Encode, EncodeTlv, Fitting, WithNames, UpnpNames, CString;
    ghost var before := resp.data;
    EncodeNone(before);
    if sv.upnp == [] {
      AddProtoNotAvail(resp, SERV_UPNP, trans);
      return;
    }
    if query == [] {
      AllUpnp(sv, resp, trans);
      return;
    }
    if resp.Tailroom() < 5 {
      return;
    }
    ghost var t := AnswerUpnp(sv.upnp, trans, query, resp.Tailroom())[0];
    var lenPos := resp.Begin(SERV_UPNP, trans);
    ghost var header := resp.data;
    var count := PutNames(sv.upnp, resp, query[0], CString(query[1..]));
    if count == 0 {
      resp.Put([SD_REQUESTED_INFO_NOT_AVAILABLE]);
    }
    assert resp.data == header + ([t.status] + t.data);
    EndIs(before, t);
    EncodeOne(t);
    resp.End(lenPos);
  }

  /** The switch over the protocol of a request TLV. */
  method AnswerTlv(sv: Services, forced: bool, resp: Wpabuf, r: Request)
    requires resp.Valid()
    modifies resp
    ensures resp.Valid()
    ensures resp.data == old(resp.data) + Encode(Answer(sv, forced, r, old(resp.Tailroom())))
  {
    hide Encode, AnswerUpnp, AnswerBonjour, AllServices, NotAvailable;
    if forced {
      AllOfBoth(sv, resp, r.trans);
    } else if r.proto == SERV_ALL_SERVICES {
      if sv.upnp == [] && sv.bonjour == [] {
        AddProtoNotAvail(resp, SERV_ALL_SERVICES, r.trans);
      } else {
        AllOfBoth(sv, resp, r.trans);
      }
    } else if r.proto == SERV_BONJOUR {
      ReqBonjour(sv, resp, r.trans, r.query);
    } else if r.proto == SERV_UPNP {
      ReqUpnp(sv, resp, r.trans, r.query);
    } else {
      AddProtoNotAvail(resp, r.proto, r.trans);
    }
  }

  /** Answers to the rest of the request, behind those that are in the buffer. */
  ghost function Rest(sv: Services, b: Bytes, room: nat): Option<seq<Tlv>>
  {
    if Requests(b).None? then None else Some(Flat(Answers(sv, Requests(b).value, room)))
  }

  /** The request TLV at an offset. */
  function RequestAt(b: Bytes, pos: nat): Request
    requires WellFormed(b, pos)
  {
    Request(b[pos + 2], b[pos + 3], b[pos + 4..pos + 2 + Le16(b, pos)])
  }

  predicate WellFormed(b: Bytes, pos: nat)
  {
    pos + 2 <= |b| && pos + 4 <= pos + 2 + Le16(b, pos) <= |b|
  }

  lemma RestOn(sv: Services, b: Bytes, pos: nat, room: nat)
    requires pos + 2 <= |b|
    ensures !WellFormed(b, pos) ==> Rest(sv, b[pos..], room).None?
    ensures WellFormed(b, pos) ==>
      var a := Answer(sv, false, RequestAt(b, pos), room);
      var more := Rest(sv, b[pos + 2 + Le16(b, pos)..], Left(room, a));
      Rest(sv, b[pos..], room) == if more.None? then None else Some(a + more.value)
  {
    hide Answer, Left;
    var t, n := b[pos..], Le16(b, pos);
    assert Le16(t, 0) == n;
    if WellFormed(b, pos) {
      SliceOfTail(b, pos, 4, 2 + n);
      TailOfTail(b, pos, 2 + n);
      assert RequestAt(b, pos) == Request(t[2], t[3], t[4..2 + n]);
      if Requests(t[2 + n..]).Some? {
        OneMore(sv, RequestAt(b, pos), Requests(t[2 + n..]).value, room);
      }
    }
  }

  lemma OneMore(sv: Services, r: Request, more: seq<Request>, room: nat)
    ensures var a := Answer(sv, false, r, room);
      Flat(Answers(sv, [r] + more, room)) == a + Flat(Answers(sv, more, Left(room, a)))
  {
    hide Answer, Left;
    assert ([r] + more)[1..] == more;
    var a := Answer(sv, false, r, room);
    var parts := Answers(sv, more, Left(room, a));
    assert ([a] + parts)[1..] == parts;
  }

  /** Octets of the whole response, if the rest of the request is all right. */
  ghost function Whole(done: seq<Tlv>, more: Option<seq<Tlv>>): Option<Bytes>
  {
    if more.None? then None else Some(Encode(done + more.value))
  }

  lemma WholeOn(done: seq<Tlv>, a: seq<Tlv>, more: Option<seq<Tlv>>)
    ensures Whole(done, if more.None? then None else Some(a + more.value)) == Whole(done + a, more)
  {
    if more.Some? {
      assert done + (a + more.value) == done + a + more.value;
    }
  }

  /** wpas_sd_request: the octets of the response, if there is one */
  method SdRequest(sv: Services, forced: bool, tlvs: Bytes) returns (r: Option<Bytes>)
    ensures r.None? <==> Response(sv, forced, tlvs).None?
    ensures r.Some? ==> r.value == Encode(Response(sv, forced, tlvs).value)
  {
    hide Encode, Answer, Rest, Size, Response, Le16, RequestAt;
    var resp := new Wpabuf(RESPONSE_SIZE);
    var pos: nat, end := 0, |tlvs|;
    ghost var done: seq<Tlv> := [];
    RestStart(sv, tlvs);
    while pos + 1 < end
      invariant pos <= end && resp.Valid() && resp.size == RESPONSE_SIZE && resp.data == Encode(done)
      invariant fresh(resp)
      invariant forced ==> pos == 0 && done == []
      invariant Whole([], Response(sv, false, tlvs)) == Whole(done, Rest(sv, tlvs[pos..], resp.Tailroom()))
    {
      RestOn(sv, tlvs, pos, resp.Tailroom());
      var slen := Le16(tlvs, pos);
      if pos + 2 + slen > end || slen < 2 {
        Forced(sv, tlvs);
        return None;
      }
      var q := RequestAt(tlvs, pos);
      ghost var a := Answer(sv, forced, q, resp.Tailroom());
      AnswerTlv(sv, forced, resp, q);
      EncodeJoin(done, a);
      if forced {
        assert done + a == a;
        Forced(sv, tlvs);
        return Some(resp.data);
      }
      WholeOn(done, a, Rest(sv, tlvs[pos + 2 + slen..], resp.Tailroom()));
      done := done + a;
      pos := pos + 2 + slen;
    }
    RestEnd(sv, tlvs[pos..], resp.Tailroom(), done);
    return Some(resp.data);
  }

  lemma Forced(sv: Services, b: Bytes)
    requires |b| >= 2
    ensures !WellFormed(b, 0) ==> Response(sv, true, b).None?
    ensures WellFormed(b, 0) ==> Response(sv, true, b) == Some(Answer(sv, true, RequestAt(b, 0), RESPONSE_SIZE))
  {
    hide Answer;
  }

  lemma RestStart(sv: Services, b: Bytes)
    ensures b[0..] == b
    ensures Encode([]) == []
    ensures Rest(sv, b, RESPONSE_SIZE) == Response(sv, false, b)
    ensures |b| < 2 ==> Response(sv, true, b) == Response(sv, false, b)
    ensures Whole([], Response(sv, false, b))
      == if Response(sv, false, b).None? then None else Some(Encode(Response(sv, false, b).value))
  {
    hide Requests, Answers, Flat;
    if Response(sv, false, b).Some? {
      assert [] + Response(sv, false, b).value == Response(sv, false, b).value;
    }
  }

  lemma RestEnd(sv: Services, b: Bytes, room: nat, done: seq<Tlv>)
    requires |b| < 2
    ensures Whole(done, Rest(sv, b, room)) == Some(Encode(done))
  {
    assert done + [] == done;
  }

  lemma WalkOn(tlvs: Bytes, pos: nat)
    requires pos + 2 <= |tlvs|
    ensures var n := Le16(tlvs, pos);
      if pos + 2 + n > |tlvs| || n < 3 then Walk(tlvs[pos..]).None?
      else
        var t := Tlv(tlvs[pos + 2], tlvs[pos + 3], tlvs[pos + 4], tlvs[pos + 5..pos + 2 + n]);
        var more := Walk(tlvs[pos + 2 + n..]);
        Walk(tlvs[pos..]) == if more.None? then None else Some([t] + more.value)
  {
    var b, n := tlvs[pos..], Le16(tlvs, pos);
    assert Le16(b, 0) == n;
    if pos + 2 + n <= |tlvs| && n >= 3 {
      SliceOfTail(tlvs, pos, 5, 2 + n);
      TailOfTail(tlvs, pos, 2 + n);
    }
  }

  lemma OverReadsOn(tlvs: Bytes, pos: nat)
    requires pos + 2 <= |tlvs|
    ensures var n := Le16(tlvs, pos);
      OverReads(tlvs[pos..]) <==> 3 <= n && pos + 2 + n <= |tlvs| && OverReads(tlvs[pos + 2 + n..])
  {
    var b, n := tlvs[pos..], Le16(tlvs, pos);
    assert Le16(b, 0) == n;
    if pos + 2 + n <= |tlvs| {
      TailOfTail(tlvs, pos, 2 + n);
    }
  }

  /** wpas_sd_response: walks the first `len` octets of the memory and returns the TLVs it saw,
      None if it stopped. `reach` is how far it read: never more than one octet beyond the
      end, and that far exactly for the responses of OverReads. The octet there makes no
      difference. */
  method SdResponse(mem: Bytes, len: nat) returns (r: Option<seq<Tlv>>, reach: nat)
    requires len < |mem|
    ensures r == Walk(mem[..len])
    ensures reach <= len + 1 && (reach == len + 1 <==> OverReads(mem[..len]))
  {
    hide Walk, Le16, OverReads;
    ghost var tlvs := mem[..len];
    var pos: nat, end := 0, len;
    var seen: seq<Tlv> := [];
    reach := 0;
    SeenStart(Walk(tlvs));
    assert tlvs[0..] == tlvs;
    while pos < end
      invariant pos <= end && reach <= pos
      invariant Walk(tlvs) == Seen(seen, Walk(tlvs[pos..]))
      invariant OverReads(tlvs) <==> OverReads(tlvs[pos..])
    {
      var slen := Le16(mem, pos);
      reach := pos + 2;
      WalkShort(tlvs[pos..]);
      if pos + 1 < end {
        SameLe16(mem, len, pos);
        WalkOn(tlvs, pos);
        OverReadsOn(tlvs, pos);
      }
      pos := pos + 2;
      if pos + slen > end || slen < 3 {
        return None, reach;
      }
      var t := Tlv(mem[pos], mem[pos + 1], mem[pos + 2], mem[pos + 3..pos + slen]);
      assert mem[pos + 3..pos + slen] == tlvs[pos + 3..pos + slen];
      reach := pos + slen;
      SeenOn(seen, t, Walk(tlvs[pos + slen..]));
      seen := seen + [t];
      pos := pos + slen;
    }
    WalkShort(tlvs[pos..]);
    assert seen + [] == seen;
    return Some(seen), reach;
  }

  lemma SameLe16(mem: Bytes, len: nat, pos: nat)
    requires pos + 2 <= len <= |mem|
    ensures Le16(mem[..len], pos) == Le16(mem, pos)
  {
  }

  lemma WalkShort(b: Bytes)
    ensures b == [] ==> Walk(b) == Some([])
    ensures |b| == 1 ==> Walk(b) == None
    ensures b == [] ==> !OverReads(b)
    ensures |b| == 1 ==> OverReads(b)
  {
  }

  ghost function Seen(done: seq<Tlv>, more: Option<seq<Tlv>>): Option<seq<Tlv>>
  {
    if more.None? then None else Some(done + more.value)
  }

  lemma SeenStart(more: Option<seq<Tlv>>)
    ensures Seen([], more) == more
  {
    if more.Some? {
      assert [] + more.value == more.value;
    }
  }

  lemma SeenOn(done: seq<Tlv>, t: Tlv, more: Option<seq<Tlv>>)
    ensures Seen(done + [t], more) == Seen(done, if more.None? then None else Some([t] + more.value))
  {
    if more.Some? {
      assert done + [t] + more.value == done + ([t] + more.value);
    }
  }
}
