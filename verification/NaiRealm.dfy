/** NAI Realm element (section 8.4.4.10 of IEEE Std 802.11-2012): the parser of interworking.c
    as functions of the octets between its cursor and its end, and a reference encoder. */
module NaiRealm {
  import opened Octets

  const NON_EAP_INNER_AUTH: byte := 2
  const INNER_AUTH_EAP_METHOD: byte := 3
  const CRED_TYPE: byte := 5
  const TUNNELED_CRED_TYPE: byte := 6

  /** struct nai_realm_eap; zero stands for a parameter that was not there. */
  datatype Eap = Eap(eapType: byte, innerMethod: byte, innerNonEap: byte, credType: byte, tunneledCredType: byte)

  /** struct nai_realm */
  datatype Realm = Realm(encoding: byte, realm: Bytes, eaps: seq<Eap>)

  // ---- Parser ----

  /** One authentication parameter; parameters without a value and unknown ones are skipped. */
  function Apply(e: Eap, id: byte, v: Bytes): Eap
  {
    if v == [] then e
    else if id == NON_EAP_INNER_AUTH then e.(innerNonEap := v[0])
    else if id == INNER_AUTH_EAP_METHOD then e.(innerMethod := v[0])
    else if id == CRED_TYPE then e.(credType := v[0])
    else if id == TUNNELED_CRED_TYPE then e.(tunneledCredType := v[0])
    else e
  }

  /** The next n parameters; b goes to the end of the realm, not of the EAP method. */
  function Params(b: Bytes, n: nat, e: Eap): Option<Eap>
    decreases n
  {
    if n == 0 then Some(e)
    else if |b| < 2 || 2 + b[1] > |b| then None
    else Params(b[2 + b[1]..], n - 1, Apply(e, b[0], b[2..2 + b[1]]))
  }

  /** nai_realm_parse_eap: the method and the number of octets it takes */
  function ParseEap(b: Bytes): (r: Option<(Eap, nat)>)
    ensures r.Some? ==> 3 <= r.value.1 <= |b|
  {
    if |b| < 3 || 1 + b[0] > |b| || b[0] < 2 then None
    else
      match Params(b[3..], b[2], Eap(b[1], 0, 0, 0, 0))
      case None => None
      case Some(e) => Some((e, 1 + b[0] as nat))
  }

  function ParseEaps(b: Bytes, n: nat): (r: Option<seq<Eap>>)
    ensures r.Some? ==> |r.value| == n
    decreases n
  {
    if n == 0 then Some([])
    else
      match ParseEap(b)
      case None => None
      case Some((e, k)) =>
        var more := ParseEaps(b[k..], n - 1);
        if more.None? then None else Some([e] + more.value)
  }

  /** The data field of a realm, without its length. */
  function ParseData(b: Bytes): Option<Realm>
  {
    if |b| < 3 || 2 + b[1] + 1 > |b| then None
    else
      var realm, count, rest := b[2..2 + b[1]], b[2 + b[1]], b[3 + b[1]..];
      if 3 * count > |rest| then None
      else
        match ParseEaps(rest, count)
        case None => None
        case Some(eaps) => Some(Realm(b[0], realm, eaps))
  }

  /** nai_realm_parse_realm: the realm and the number of octets it takes */
  function ParseRealm(b: Bytes): (r: Option<(Realm, nat)>)
    ensures r.Some? ==> 5 <= r.value.1 <= |b|
  {
    if |b| < 4 || 2 + Le16(b, 0) > |b| || Le16(b, 0) < 3 then None
    else
      match ParseData(b[2..2 + Le16(b, 0)])
      case None => None
      case Some(r) => Some((r, 2 + Le16(b, 0)))
  }

  function ParseRealms(b: Bytes, n: nat): (r: Option<seq<Realm>>)
    ensures r.Some? ==> |r.value| == n
    decreases n
  {
    if n == 0 then Some([])
    else
      match ParseRealm(b)
      case None => None
      case Some((x, k)) =>
        var more := ParseRealms(b[k..], n - 1);
        if more.None? then None else Some([x] + more.value)
  }

  /** nai_realm_parse */
  function ParseList(b: Bytes): Option<seq<Realm>>
  {
    if |b| < 2 || 5 * Le16(b, 0) > |b| - 2 then None else ParseRealms(b[2..], Le16(b, 0))
  }

  // ---- Reference encoder ----

  datatype Param = Param(id: byte, value: Bytes)

  /** An EAP method with any parameters, and room behind them that nobody reads. */
  datatype EapCode = EapCode(eapType: byte, params: seq<Param>, pad: Bytes)

  datatype RealmCode = RealmCode(encoding: byte, realm: Bytes, eaps: seq<EapCode>, pad: Bytes)

  function EncodeParams(ps: seq<Param>): Bytes
    requires forall i | 0 <= i < |ps| :: |ps[i].value| < 256
  {
    if ps == [] then [] else [ps[0].id, |ps[0].value|] + ps[0].value + EncodeParams(ps[1..])
  }

  predicate EapFits(c: EapCode)
  {
    && |c.params| < 256
    && (forall i | 0 <= i < |c.params| :: |c.params[i].value| < 256)
    && 2 + |EncodeParams(c.params)| + |c.pad| < 256
  }

  function EncodeEap(c: EapCode): (b: Bytes)
    requires EapFits(c)
    ensures |b| >= 3
  {
    var ps := EncodeParams(c.params);
    [2 + |ps| + |c.pad|, c.eapType, |c.params|] + ps + c.pad
  }

  function EncodeEaps(cs: seq<EapCode>): (b: Bytes)
    requires forall i | 0 <= i < |cs| :: EapFits(cs[i])
    ensures |b| >= 3 * |cs|
  {
    if cs == [] then [] else EncodeEap(cs[0]) + EncodeEaps(cs[1..])
  }

  predicate RealmFits(c: RealmCode)
  {
    && |c.realm| < 256
    && |c.eaps| < 256
    && (forall i | 0 <= i < |c.eaps| :: EapFits(c.eaps[i]))
    && 3 + |c.realm| + |EncodeEaps(c.eaps)| + |c.pad| < 0x1_0000
  }

  function EncodeData(c: RealmCode): (b: Bytes)
    requires RealmFits(c)
    ensures 3 <= |b| < 0x1_0000
  {
    [c.encoding, |c.realm|] + c.realm + [|c.eaps|] + EncodeEaps(c.eaps) + c.pad
  }

  function EncodeRealm(c: RealmCode): (b: Bytes)
    requires RealmFits(c)
    ensures |b| >= 5
  {
    PutLe16(|EncodeData(c)|) + EncodeData(c)
  }

  function EncodeRealms(cs: seq<RealmCode>): (b: Bytes)
    requires forall i | 0 <= i < |cs| :: RealmFits(cs[i])
    ensures |b| >= 5 * |cs|
  {
    if cs == [] then [] else EncodeRealm(cs[0]) + EncodeRealms(cs[1..])
  }

  predicate ListFits(cs: seq<RealmCode>)
  {
    |cs| < 0x1_0000 && forall i | 0 <= i < |cs| :: RealmFits(cs[i])
  }

  function EncodeList(cs: seq<RealmCode>): Bytes
    requires ListFits(cs)
  {
    PutLe16(|cs|) + EncodeRealms(cs)
  }

  // ---- What an encoded list means ----

  /** The first octet of the last parameter with the id that has a value, else 0. */
  function ValueOf(ps: seq<Param>, id: byte): byte
  {
    if ps == [] then 0
    else
      var p := ps[|ps| - 1];
      if p.id == id && p.value != [] then p.value[0] else ValueOf(ps[..|ps| - 1], id)
  }

  function EapMeaning(c: EapCode): Eap
  {
    Eap(c.eapType, ValueOf(c.params, INNER_AUTH_EAP_METHOD), ValueOf(c.params, NON_EAP_INNER_AUTH),
      ValueOf(c.params, CRED_TYPE), ValueOf(c.params, TUNNELED_CRED_TYPE))
  }

  function EapMeanings(cs: seq<EapCode>): seq<Eap>
  {
    if cs == [] then [] else [EapMeaning(cs[0])] + EapMeanings(cs[1..])
  }

  function RealmMeaning(c: RealmCode): Realm
  {
    Realm(c.encoding, c.realm, EapMeanings(c.eaps))
  }

  function RealmMeanings(cs: seq<RealmCode>): seq<Realm>
  {
    if cs == [] then [] else [RealmMeaning(cs[0])] + RealmMeanings(cs[1..])
  }

  // ---- Round trip ----

  /** Parameters applied one after the other. */
  ghost function Applied(e: Eap, ps: seq<Param>): Eap
    decreases |ps|
  {
    if ps == [] then e else Applied(Apply(e, ps[0].id, ps[0].value), ps[1..])
  }

  lemma {:induction false} AppliedSnoc(e: Eap, ps: seq<Param>)
    requires ps != []
    ensures var n := |ps| - 1; Applied(e, ps) == Apply(Applied(e, ps[..n]), ps[n].id, ps[n].value)
    decreases |ps|
  {
    hide Apply;
    var n := |ps| - 1;
    if n > 0 {
      AppliedSnoc(Apply(e, ps[0].id, ps[0].value), ps[1..]);
      assert ps[1..][..n - 1] == ps[..n][1..];
    }
  }

  /** The last value of each parameter wins. */
  lemma {:induction false} LastValueWins(m: byte, ps: seq<Param>)
    ensures Applied(Eap(m, 0, 0, 0, 0), ps) == EapMeaning(EapCode(m, ps, []))
  {
    if ps != [] {
      LastValueWins(m, ps[..|ps| - 1]);
      AppliedSnoc(Eap(m, 0, 0, 0, 0), ps);
    }
  }

  lemma {:induction false} ParamsRoundTrip(ps: seq<Param>, rest: Bytes, e: Eap)
    requires forall i | 0 <= i < |ps| :: |ps[i].value| < 256
    ensures Params(EncodeParams(ps) + rest, |ps|, e) == Some(Applied(e, ps))
  {
    hide Apply;
    if ps != [] {
      var v, more := ps[0].value, EncodeParams(ps[1..]);
      ParamsRoundTrip(ps[1..], rest, Apply(e, ps[0].id, v));
      var b := EncodeParams(ps) + rest;
      assert b == [ps[0].id, |v|] + v + (more + rest);
      assert b[2..2 + |v|] == v && b[2 + |v|..] == more + rest;
    }
  }

  lemma EapRoundTrip(c: EapCode, rest: Bytes)
    requires EapFits(c)
    ensures ParseEap(EncodeEap(c) + rest) == Some((EapMeaning(c), |EncodeEap(c)|))
  {
    hide Params, EncodeParams, Apply, ValueOf;
    var ps := EncodeParams(c.params);
    var b := EncodeEap(c) + rest;
    assert b[0] == 2 + |ps| + |c.pad| && b[1] == c.eapType && b[2] == |c.params|;
    assert b[3..] == ps + (c.pad + rest);
    ParamsRoundTrip(c.params, c.pad + rest, Eap(c.eapType, 0, 0, 0, 0));
    LastValueWins(c.eapType, c.params);
  }

  lemma {:induction false} EapsRoundTrip(cs: seq<EapCode>, rest: Bytes)
    requires forall i | 0 <= i < |cs| :: EapFits(cs[i])
    ensures ParseEaps(EncodeEaps(cs) + rest, |cs|) == Some(EapMeanings(cs))
  {
    hide EapFits, ParseEap, EncodeEap, EapMeaning;
    if cs != [] {
      var more := EncodeEaps(cs[1..]) + rest;
      EapRoundTrip(cs[0], more);
      EapsRoundTrip(cs[1..], rest);
      var b := EncodeEaps(cs) + rest;
      assert b == EncodeEap(cs[0]) + more;
      assert b[|EncodeEap(cs[0])|..] == more;
    }
  }

  lemma DataRoundTrip(c: RealmCode)
    requires RealmFits(c)
    ensures ParseData(EncodeData(c)) == Some(RealmMeaning(c))
  {
    hide EapFits, ParseEaps, EncodeEaps, EapMeanings;
    EapsRoundTrip(c.eaps, c.pad);
    var b, n := EncodeData(c), |c.realm|;
    assert b[2..2 + n] == c.realm && b[2 + n] == |c.eaps|;
    assert b[3 + n..] == EncodeEaps(c.eaps) + c.pad;
  }

  lemma RealmRoundTrip(c: RealmCode, rest: Bytes)
    requires RealmFits(c)
    ensures ParseRealm(EncodeRealm(c) + rest) == Some((RealmMeaning(c), |EncodeRealm(c)|))
  {
    hide RealmFits, ParseData, EncodeData, RealmMeaning, PutLe16;
    DataRoundTrip(c);
    var d := EncodeData(c);
    var b := EncodeRealm(c) + rest;
    assert b[0] == PutLe16(|d|)[0] && b[1] == PutLe16(|d|)[1];
    assert Le16(b, 0) == |d|;
    assert b[2..2 + |d|] == d;
  }

  lemma {:induction false} RealmsRoundTrip(cs: seq<RealmCode>, rest: Bytes)
    requires forall i | 0 <= i < |cs| :: RealmFits(cs[i])
    ensures ParseRealms(EncodeRealms(cs) + rest, |cs|) == Some(RealmMeanings(cs))
  {
    hide RealmFits, ParseRealm, EncodeRealm, RealmMeaning;
    if cs != [] {
      var more := EncodeRealms(cs[1..]) + rest;
      RealmRoundTrip(cs[0], more);
      RealmsRoundTrip(cs[1..], rest);
      var b := EncodeRealms(cs) + rest;
      assert b == EncodeRealm(cs[0]) + more;
      assert b[|EncodeRealm(cs[0])|..] == more;
    }
  }

  /** Whatever follows it, an encoded list is read as what it means. */
  lemma ListRoundTrip(cs: seq<RealmCode>, rest: Bytes)
    requires ListFits(cs)
    ensures ParseList(EncodeList(cs) + rest) == Some(RealmMeanings(cs))
  {
    hide ParseRealms, EncodeRealms, RealmMeanings, RealmFits, PutLe16;
    RealmsRoundTrip(cs, rest);
    var b := EncodeList(cs) + rest;
    assert b[0] == PutLe16(|cs|)[0] && b[1] == PutLe16(|cs|)[1];
    assert Le16(b, 0) == |cs|;
    assert b[2..] == EncodeRealms(cs) + rest;
  }

  // ---- Parameters beyond their method ----

  /** More octets behind the parameters make no difference. */
  lemma {:induction false} ParamsPrefix(a: Bytes, b: Bytes, n: nat, e: Eap)
    requires a <= b && Params(a, n, e).Some?
    ensures Params(b, n, e) == Params(a, n, e)
    decreases n
  {
    hide Apply;
    if n > 0 {
      var k := 2 + a[1] as nat;
      assert a[2..k] == b[2..k];
      ParamsPrefix(a[k..], b[k..], n - 1, Apply(e, a[0], a[2..k]));
    }
  }

  /** Parameters are checked against the end of the realm, not of the method: what is read as
      a method is what its own octets say, exactly when its parameters end within them or do
      not even end within the realm. */
  lemma OwnOctetsIff(b: Bytes)
    requires |b| >= 3 && 2 <= b[0] && 1 + b[0] <= |b|
    ensures var own, e := b[..1 + b[0]], Eap(b[1], 0, 0, 0, 0);
      ParseEap(b) == ParseEap(own) <==> Params(own[3..], b[2], e).Some? || Params(b[3..], b[2], e).None?
  {
    hide Params;
    var own, e := b[..1 + b[0]], Eap(b[1], 0, 0, 0, 0);
    assert own[3..] <= b[3..] by { assert b[3..][..|own| - 3] == own[3..]; }
    if Params(own[3..], b[2], e).Some? {
      ParamsPrefix(own[3..], b[3..], b[2], e);
    }
  }

  /** A method of three octets that takes its one parameter from the octets behind it. */
  lemma BorrowedParameter()
    ensures var b: Bytes := [2, 21, 1, CRED_TYPE, 1, 7];
      ParseEap(b) == Some((Eap(21, 0, 0, 7, 0), 3)) && ParseEap(b[..3]) == None
  {
    var b: Bytes := [2, 21, 1, CRED_TYPE, 1, 7];
    var p: Bytes := [CRED_TYPE, 1, 7];
    assert b[3..] == p && p[2..3] == [7];
    assert Params(p[3..], 0, Eap(21, 0, 0, 7, 0)) == Some(Eap(21, 0, 0, 7, 0));
    assert Params(p, 1, Eap(21, 0, 0, 0, 0)) == Some(Eap(21, 0, 0, 7, 0));
    assert b[..3][3..] == [];
  }

  // ---- Every realm list has an encoding ----

  function CodeOf(e: Eap): EapCode
  {
    EapCode(e.eapType,
      [Param(INNER_AUTH_EAP_METHOD, [e.innerMethod]), Param(NON_EAP_INNER_AUTH, [e.innerNonEap]),
       Param(CRED_TYPE, [e.credType]), Param(TUNNELED_CRED_TYPE, [e.tunneledCredType])], [])
  }

  function CodesOf(es: seq<Eap>): (cs: seq<EapCode>)
    ensures |cs| == |es|
  {
    if es == [] then [] else [CodeOf(es[0])] + CodesOf(es[1..])
  }

  function RealmCodes(rs: seq<Realm>): (cs: seq<RealmCode>)
    ensures |cs| == |rs|
  {
    if rs == [] then [] else [RealmCode(rs[0].encoding, rs[0].realm, CodesOf(rs[0].eaps), [])] + RealmCodes(rs[1..])
  }

  lemma CodeMeans(e: Eap)
    ensures EapFits(CodeOf(e)) && |EncodeEap(CodeOf(e))| == 15 && EapMeaning(CodeOf(e)) == e
  {
    var ps := CodeOf(e).params;
    assert |EncodeParams(ps[4..])| == 0;
    assert ps[3..][1..] == ps[4..] && |EncodeParams(ps[3..])| == 3;
    assert ps[2..][1..] == ps[3..] && |EncodeParams(ps[2..])| == 6;
    assert ps[1..][1..] == ps[2..] && |EncodeParams(ps[1..])| == 9;
    assert |EncodeParams(ps)| == 12;
    ValuesMean(e);
  }

  lemma ValuesMean(e: Eap)
    ensures EapMeaning(CodeOf(e)) == e
  {
    var ps := CodeOf(e).params;
    assert ps[..3][..2] == ps[..2] && ps[..2][..1] == ps[..1];
    assert ValueOf(ps, TUNNELED_CRED_TYPE) == e.tunneledCredType;
    assert ValueOf(ps[..3], CRED_TYPE) == e.credType;
    assert ValueOf(ps[..2], NON_EAP_INNER_AUTH) == e.innerNonEap;
    assert ValueOf(ps[..3], NON_EAP_INNER_AUTH) == e.innerNonEap;
    assert ValueOf(ps[..1], INNER_AUTH_EAP_METHOD) == e.innerMethod;
    assert ValueOf(ps[..2], INNER_AUTH_EAP_METHOD) == e.innerMethod;
    assert ValueOf(ps[..3], INNER_AUTH_EAP_METHOD) == e.innerMethod;
  }

  lemma {:induction false} CodesMean(es: seq<Eap>)
    ensures forall i | 0 <= i < |es| :: EapFits(CodesOf(es)[i])
    ensures |EncodeEaps(CodesOf(es))| == 15 * |es| && EapMeanings(CodesOf(es)) == es
  {
    hide CodeOf, EapFits, EapMeaning, EncodeEap;
    if es != [] {
      CodeMeans(es[0]);
      CodesMean(es[1..]);
      assert es == [es[0]] + es[1..];
      assert CodesOf(es)[1..] == CodesOf(es[1..]);
    }
  }

  /** The parser returns every list of realms that has an encoding: names of less than 256
      octets and less than 256 methods each. */
  lemma {:induction false} RealmCodesMean(rs: seq<Realm>)
    requires forall i | 0 <= i < |rs| :: |rs[i].realm| < 256 && |rs[i].eaps| < 256
    ensures forall i | 0 <= i < |rs| :: RealmFits(RealmCodes(rs)[i])
    ensures RealmMeanings(RealmCodes(rs)) == rs
  {
    hide EapFits, EapMeanings, EncodeEaps, CodesOf;
    if rs != [] {
      CodesMean(rs[0].eaps);
      RealmCodesMean(rs[1..]);
      assert rs == [rs[0]] + rs[1..];
      assert RealmCodes(rs)[1..] == RealmCodes(rs[1..]);
    }
  }

  lemma AnyListRoundTrip(rs: seq<Realm>, rest: Bytes)
    requires |rs| < 0x1_0000 && forall i | 0 <= i < |rs| :: |rs[i].realm| < 256 && |rs[i].eaps| < 256
    ensures ListFits(RealmCodes(rs)) && ParseList(EncodeList(RealmCodes(rs)) + rest) == Some(rs)
  {
    hide ParseList, EncodeList, RealmCodes, RealmMeanings, RealmFits;
    RealmCodesMean(rs);
    ListRoundTrip(RealmCodes(rs), rest);
  }
}
