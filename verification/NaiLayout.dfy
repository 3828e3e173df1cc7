/** The layout of NAI Realm lists as a relation between octets and realms, and the parser as
    an exact decision of it: which lists are accepted, and which are rejected. */
module NaiLayout {
  import opened Octets
  import opened NaiRealm

  predicate ParamsFit(ps: seq<Param>)
  {
    |ps| < 256 && forall i | 0 <= i < |ps| :: |ps[i].value| < 256
  }

  /** A method of k octets at the start of b; its parameters may go on behind those. */
  ghost predicate EapIs(b: Bytes, e: Eap, k: nat, ps: seq<Param>, rest: Bytes)
  {
    && ParamsFit(ps) && 3 <= k <= 256 && k <= |b|
    && b == [k - 1, e.eapType, |ps|] + EncodeParams(ps) + rest
    && e == EapMeaning(EapCode(e.eapType, ps, []))
  }

  ghost predicate EapAt(b: Bytes, e: Eap, k: nat)
  {
    exists ps, rest :: EapIs(b, e, k, ps, rest)
  }

  /** One method behind the other. */
  ghost predicate EapsAt(b: Bytes, es: seq<Eap>)
    decreases |es|
  {
    es == [] || exists k: nat :: EapAt(b, es[0], k) && k <= |b| && EapsAt(b[k..], es[1..])
  }

  /** A realm of k octets at the start of b, m of them for its methods. */
  ghost predicate RealmIs(b: Bytes, r: Realm, k: nat, m: Bytes, rest: Bytes)
  {
    && |r.realm| < 256 && |r.eaps| < 256 && k == 5 + |r.realm| + |m| < 0x1_0002
    && b == PutLe16(k - 2) + ([r.encoding, |r.realm|] + r.realm + [|r.eaps|] + m) + rest
    && EapsAt(m, r.eaps)
  }

  ghost predicate RealmAt(b: Bytes, r: Realm, k: nat)
  {
    exists m, rest :: RealmIs(b, r, k, m, rest)
  }

  ghost predicate RealmsAt(b: Bytes, rs: seq<Realm>)
    decreases |rs|
  {
    rs == [] || exists k: nat :: RealmAt(b, rs[0], k) && k <= |b| && RealmsAt(b[k..], rs[1..])
  }

  /** A number of realms, then the realms. */
  ghost predicate ListAt(b: Bytes, rs: seq<Realm>)
  {
    |rs| < 0x1_0000 && |b| >= 2 && b[..2] == PutLe16(|rs|) && RealmsAt(b[2..], rs)
  }

  // ---- Methods ----

  lemma {:induction false} ParamsSplit(b: Bytes, n: nat, e: Eap) returns (ps: seq<Param>, rest: Bytes)
    requires Params(b, n, e).Some?
    ensures |ps| == n && (forall i | 0 <= i < n :: |ps[i].value| < 256) && b == EncodeParams(ps) + rest
    ensures Params(b, n, e) == Some(Applied(e, ps))
    decreases n
  {
    hide Apply, EncodeParams;
    if n == 0 {
      ps, rest := [], b;
      NoParams(b);
    } else {
      var k := 2 + b[1] as nat;
      var v := b[2..k];
      var more, end := ParamsSplit(b[k..], n - 1, Apply(e, b[0], v));
      ps, rest := [Param(b[0], v)] + more, end;
      assert ps[1..] == more;
      OneMore(b, more, rest);
    }
  }

  lemma NoParams(b: Bytes)
    ensures EncodeParams([]) + b == b
  {
  }

  lemma OneMore(b: Bytes, ps: seq<Param>, rest: Bytes)
    requires |b| >= 2 && 2 + b[1] <= |b| && forall i | 0 <= i < |ps| :: |ps[i].value| < 256
    requires b[2 + b[1]..] == EncodeParams(ps) + rest
    ensures var qs := [Param(b[0], b[2..2 + b[1]])] + ps;
      (forall i | 0 <= i < |qs| :: |qs[i].value| < 256) && b == EncodeParams(qs) + rest
  {
    var k := 2 + b[1] as nat;
    var v := b[2..k];
    var qs := [Param(b[0], v)] + ps;
    assert qs[1..] == ps;
    assert EncodeParams(qs) == [b[0], b[1]] + v + EncodeParams(ps);
    assert b == [b[0], b[1]] + v + b[k..];
  }

  lemma EapIff(b: Bytes, e: Eap, k: nat)
    ensures ParseEap(b) == Some((e, k)) <==> EapAt(b, e, k)
  {
    hide Params, EncodeParams, Apply, EapMeaning, EapIs;
    if ParseEap(b) == Some((e, k)) {
      EapSplit(b, e, k);
    }
    if EapAt(b, e, k) {
      var ps, rest :| EapIs(b, e, k, ps, rest);
      EapJoin(b, e, k, ps, rest);
    }
  }

  lemma EapSplit(b: Bytes, e: Eap, k: nat)
    requires ParseEap(b) == Some((e, k))
    ensures EapAt(b, e, k)
  {
    hide Params, EncodeParams, Apply, ValueOf;
    var zero := Eap(b[1], 0, 0, 0, 0);
    var ps, rest := ParamsSplit(b[3..], b[2], zero);
    LastValueWins(b[1], ps);
    assert b == [b[0], b[1], b[2]] + b[3..];
    assert b == [k - 1, e.eapType, |ps|] + EncodeParams(ps) + rest;
    assert EapIs(b, e, k, ps, rest);
  }

  lemma EapJoin(b: Bytes, e: Eap, k: nat, ps: seq<Param>, rest: Bytes)
    requires EapIs(b, e, k, ps, rest)
    ensures ParseEap(b) == Some((e, k))
  {
    hide Params, EncodeParams, Apply, ValueOf;
    ParamsRoundTrip(ps, rest, Eap(e.eapType, 0, 0, 0, 0));
    LastValueWins(e.eapType, ps);
    assert b[0] == k - 1 && b[1] == e.eapType && b[2] == |ps|;
    assert b[3..] == EncodeParams(ps) + rest;
  }

  lemma {:induction false} EapsIff(b: Bytes, es: seq<Eap>)
    ensures ParseEaps(b, |es|) == Some(es) <==> EapsAt(b, es)
    ensures EapsAt(b, es) ==> 3 * |es| <= |b|
    decreases |es|
  {
    hide ParseEap, EapAt;
    if es != [] {
      if ParseEap(b).Some? {
        var (e, k) := ParseEap(b).value;
        EapIff(b, e, k);
        EapsIff(b[k..], es[1..]);
        assert es == [es[0]] + es[1..];
      }
      forall k: nat | EapAt(b, es[0], k) ensures ParseEap(b) == Some((es[0], k)) {
        EapIff(b, es[0], k);
      }
    }
  }

  // ---- Realms ----

  lemma RealmIff(b: Bytes, r: Realm, k: nat)
    ensures ParseRealm(b) == Some((r, k)) <==> RealmAt(b, r, k)
  {
    hide ParseRealm, RealmIs;
    if ParseRealm(b) == Some((r, k)) {
      RealmSplit(b, r, k);
    }
    if RealmAt(b, r, k) {
      var m, rest :| RealmIs(b, r, k, m, rest);
      RealmJoin(b, r, k, m, rest);
    }
  }

  lemma DataSplit(d: Bytes, r: Realm)
    requires ParseData(d) == Some(r)
    ensures |r.realm| < 256 && |r.eaps| < 256 && 3 + |r.realm| <= |d|
    ensures var m := d[3 + |r.realm|..];
      EapsAt(m, r.eaps) && d == [r.encoding, |r.realm|] + r.realm + [|r.eaps|] + m
  {
    hide ParseEaps, EapsAt;
    var n := d[1] as nat;
    var m := d[3 + n..];
    EapsIff(m, r.eaps);
    assert d == [d[0], d[1]] + d[2..2 + n] + [d[2 + n]] + m;
  }

  lemma DataJoin(r: Realm, m: Bytes)
    requires |r.realm| < 256 && |r.eaps| < 256 && EapsAt(m, r.eaps)
    ensures ParseData([r.encoding, |r.realm|] + r.realm + [|r.eaps|] + m) == Some(r)
  {
    hide ParseEaps, EapsAt;
    EapsIff(m, r.eaps);
    var d: Bytes := [r.encoding, |r.realm|] + r.realm + [|r.eaps|] + m;
    var n := |r.realm|;
    assert d[2..2 + n] == r.realm && d[2 + n] == |r.eaps| && d[3 + n..] == m;
  }

  lemma RealmSplit(b: Bytes, r: Realm, k: nat)
    requires ParseRealm(b) == Some((r, k))
    ensures RealmAt(b, r, k)
  {
    hide ParseData, EapsAt;
    var d, rest := b[2..k], b[k..];
    DataSplit(d, r);
    assert PutLe16(k - 2) == b[..2];
    assert b == b[..2] + d + rest;
    assert RealmIs(b, r, k, d[3 + |r.realm|..], rest);
  }

  lemma RealmJoin(b: Bytes, r: Realm, k: nat, m: Bytes, rest: Bytes)
    requires RealmIs(b, r, k, m, rest)
    ensures ParseRealm(b) == Some((r, k))
  {
    hide ParseData, EapsAt, PutLe16;
    DataJoin(r, m);
    var d: Bytes := [r.encoding, |r.realm|] + r.realm + [|r.eaps|] + m;
    assert b[0] == PutLe16(|d|)[0] && b[1] == PutLe16(|d|)[1];
    assert Le16(b, 0) == |d|;
    assert b[2..2 + |d|] == d;
  }

  lemma {:induction false} RealmsIff(b: Bytes, rs: seq<Realm>)
    ensures ParseRealms(b, |rs|) == Some(rs) <==> RealmsAt(b, rs)
    ensures RealmsAt(b, rs) ==> 5 * |rs| <= |b|
    decreases |rs|
  {
    hide ParseRealm, RealmAt;
    if rs != [] {
      if ParseRealm(b).Some? {
        var (r, k) := ParseRealm(b).value;
        RealmIff(b, r, k);
        RealmsIff(b[k..], rs[1..]);
        assert rs == [rs[0]] + rs[1..];
      }
      forall k: nat | RealmAt(b, rs[0], k) ensures ParseRealm(b) == Some((rs[0], k)) {
        RealmIff(b, rs[0], k);
      }
    }
  }

  /** A list of realms is read exactly from the octets that are laid out as that list. */
  lemma ListIff(b: Bytes, rs: seq<Realm>)
    ensures ParseList(b) == Some(rs) <==> ListAt(b, rs)
  {
    hide ParseRealms, RealmsAt;
    if |b| >= 2 {
      RealmsIff(b[2..], rs);
      Le16Layout(b, |rs|);
    }
  }

  lemma Le16Layout(b: Bytes, n: nat)
    requires |b| >= 2
    ensures Le16(b, 0) == n <==> n < 0x1_0000 && b[..2] == PutLe16(n)
  {
    if n < 0x1_0000 && b[..2] == PutLe16(n) {
      assert b[0] == b[..2][0] && b[1] == b[..2][1];
    }
  }

  /** Any other octets are rejected. */
  lemma RejectedIff(b: Bytes)
    ensures ParseList(b).None? <==> forall rs :: !ListAt(b, rs)
  {
    hide ParseList, ListAt;
    forall rs ensures ParseList(b) == Some(rs) <==> ListAt(b, rs) {
      ListIff(b, rs);
    }
    if ParseList(b).Some? {
      assert ListAt(b, ParseList(b).value);
    }
  }
}
