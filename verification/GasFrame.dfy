/** GAS response frames: the parser inside gas_query_rx and, as its partner, the
    layout that gas_build_resp gives such frames. Frames start at the Action field;
    the category octet has been consumed by the caller. */
module GasFrame {
  import opened Octets

  const GAS_INITIAL_RESP: byte := 11
  const GAS_COMEBACK_RESP: byte := 13
  const ADV_PROTO: byte := 108

  /** What a response carries after its status code. */
  datatype Body = Body(frag: nat, more: bool, delay: nat, adv: Bytes, resp: Bytes)

  /** A well-formed Advertisement Protocol element: id, length, contents. */
  predicate IsAdvProto(adv: Bytes)
  {
    |adv| >= 2 && adv[0] == ADV_PROTO && |adv| == 2 + adv[1] as int
  }

  /** The part of gas_query_rx after the status code. None where the source
      gives up on the frame; octets after the query response are ignored. */
  function ParseBody(data: Bytes, comeback: bool): (r: Option<Body>)
    requires |data| >= 4
    ensures r.Some? ==>
              && IsAdvProto(r.value.adv)
              && r.value.frag < 128
              && r.value.delay < 0x1_0000
              && |r.value.adv| + |r.value.resp| < |data|
  {
    if comeback && 5 > |data| then None
    else
      var frag := if comeback then data[4] % 128 else 0;
      var more := comeback && data[4] >= 128;
      var p := if comeback then 5 else 4;
      if p + 2 > |data| then None
      else
        var delay := Le16(data, p);
        var a := p + 2;
        if a + 2 > |data| || a + 2 + data[a + 1] > |data| then None
        else if data[a] != ADV_PROTO then None
        else
          var l := a + 2 + data[a + 1];
          if l + 2 > |data| then None
          else
            var len := Le16(data, l);
            if l + 2 + len > |data| then None
            else Some(Body(frag, more, delay, data[a..l], data[l + 2..l + 2 + len]))
  }

  /** Fixed fields as laid out by gas_build_resp, then the Advertisement Protocol
      element, the length and the octets of the query response. */
  function BuildResp(comeback: bool, token: byte, status: nat, b: Body): (data: Bytes)
    requires status < 0x1_0000 && b.frag < 128 && b.delay < 0x1_0000
    requires IsAdvProto(b.adv) && |b.resp| < 0x1_0000
    ensures |data| >= 4 && data[1] == token && Le16(data, 2) == status
    ensures data[0] == if comeback then GAS_COMEBACK_RESP else GAS_INITIAL_RESP
  {
    [if comeback then GAS_COMEBACK_RESP else GAS_INITIAL_RESP, token] + PutLe16(status)
    + (if comeback then [b.frag + if b.more then 128 else 0] else [])
    + PutLe16(b.delay) + b.adv + PutLe16(|b.resp|) + b.resp
  }

  /** The parser finds each field where the layout puts it. */
  lemma ParseLaidOut(comeback: bool, head: Bytes, delay: nat, adv: Bytes, resp: Bytes, extra: Bytes)
    requires |head| == if comeback then 5 else 4
    requires delay < 0x1_0000 && IsAdvProto(adv) && |resp| < 0x1_0000
    ensures var data := head + PutLe16(delay) + adv + PutLe16(|resp|) + resp + extra;
            var frag := if comeback then head[4] % 128 else 0;
            ParseBody(data, comeback) == Some(Body(frag, comeback && head[4] >= 128, delay, adv, resp))
  {
    var data := head + PutLe16(delay) + adv + PutLe16(|resp|) + resp + extra;
    var p := |head|;
    var l := p + 2 + |adv|;
    assert comeback ==> data[4] == head[4];
    assert Le16(data, p) == Le16(PutLe16(delay), 0);
    assert data[p + 2..l] == adv;
    assert data[p + 2] == adv[0] && data[p + 3] == adv[1];
    assert Le16(data, l) == Le16(PutLe16(|resp|), 0);
    assert data[l + 2..l + 2 + |resp|] == resp;
  }

  /** Every built frame parses back to its fields, whatever octets follow it. */
  lemma BuildThenParse(comeback: bool, token: byte, status: nat, b: Body, extra: Bytes)
    requires status < 0x1_0000 && b.frag < 128 && b.delay < 0x1_0000
    requires IsAdvProto(b.adv) && |b.resp| < 0x1_0000
    requires !comeback ==> b.frag == 0 && !b.more
    ensures ParseBody(BuildResp(comeback, token, status, b) + extra, comeback) == Some(b)
  {
    var head := [if comeback then GAS_COMEBACK_RESP else GAS_INITIAL_RESP, token] + PutLe16(status)
                + (if comeback then [b.frag + if b.more then 128 else 0] else []);
    ParseLaidOut(comeback, head, b.delay, b.adv, b.resp, extra);
    assert BuildResp(comeback, token, status, b) + extra
        == head + PutLe16(b.delay) + b.adv + PutLe16(|b.resp|) + b.resp + extra;
  }

  lemma Le16Is(data: Bytes, at: nat)
    requires at + 2 <= |data|
    ensures PutLe16(Le16(data, at)) == data[at..at + 2]
  {
  }

  /** The fixed fields up to the comeback delay. */
  lemma HeadIs(data: Bytes, comeback: bool)
    requires |data| >= 4 && (comeback ==> |data| >= 5)
    requires data[0] == if comeback then GAS_COMEBACK_RESP else GAS_INITIAL_RESP
    ensures var frag := if comeback then [data[4] % 128 + if data[4] >= 128 then 128 else 0] else [];
            [if comeback then GAS_COMEBACK_RESP else GAS_INITIAL_RESP, data[1]] + PutLe16(Le16(data, 2)) + frag
            == data[..if comeback then 5 else 4]
  {
    Le16Is(data, 2);
  }

  /** Only built frames are accepted: a frame with a body is the frame built of its fields,
      with octets behind it that are ignored. */
  lemma ParseThenBuild(data: Bytes, comeback: bool) returns (extra: Bytes)
    requires |data| >= 4 && data[0] == if comeback then GAS_COMEBACK_RESP else GAS_INITIAL_RESP
    requires ParseBody(data, comeback).Some?
    ensures var b := ParseBody(data, comeback).value;
            && |b.resp| < 0x1_0000 && (!comeback ==> b.frag == 0 && !b.more)
            && data == BuildResp(comeback, data[1], Le16(data, 2), b) + extra
  {
    hide PutLe16, Le16;
    var b := ParseBody(data, comeback).value;
    var p := if comeback then 5 else 4;
    var l := p + 2 + |b.adv|;
    var n := |b.resp|;
    HeadIs(data, comeback);
    Le16Is(data, p);
    Le16Is(data, l);
    extra := data[l + 2 + n..];
    assert data[p + 2..l] == b.adv && data[l + 2..l + 2 + n] == b.resp;
    assert data == data[..p] + data[p..p + 2] + data[p + 2..l] + data[l..l + 2] + data[l + 2..l + 2 + n] + extra;
  }
}
