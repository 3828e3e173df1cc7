/** Does a scan result fit a configured network: the checks of wpa_scan_res_match. */
module ScanMatch {
  import opened Octets
  import opened Networks

  /** A parsed WPA or RSN element. */
  datatype IeData = IeData(proto: set<Proto>, pairwise: set<Cipher>, group: set<Cipher>, keyMgmt: set<KeyMgmt>, mfpc: bool)

  /** An element as present in a scan result; `parsed` is None where parsing fails. */
  datatype Element = Element(len: nat, parsed: Option<IeData>)

  /** One scan result. `rates` are the octets of the two rate elements. The WPS code's
      answers are inputs: `wpsMatch` where it decides about a network by itself, and
      `wpsWildcard` for the networks it allows to match any SSID. */
  datatype ScanRes = ScanRes(
    bssid: Bytes, ssid: Option<Bytes>, wpaIe: Option<Element>, rsnIe: Option<Element>,
    privacy: bool, ibss: bool, freq: int, rates: seq<byte>,
    wpsMatch: map<int, bool>, wpsWildcard: set<int>)

  /** A hardware mode; `mcs0` is the first octet of its MCS set. */
  datatype Mode = Mode(isG: bool, freqs: seq<int>, rates: seq<int>, htKnown: bool, mcs0: byte)

  const HT_PHY := 127

  /** wpa_key_mgmt_wpa */
  predicate UsesWpa(n: Network)
  {
    WpaPsk in n.keyMgmt || WpaEap in n.keyMgmt
  }

  /** wpa_supplicant_match_privacy */
  predicate PrivacyMatches(r: ScanRes, n: Network)
  {
    n.mixedCell || Wps in n.keyMgmt ||
    var privacy := (exists l | l in n.wepKeyLens :: l > 0) || (Ieee8021x in n.keyMgmt && n.eapolKeys) || UsesWpa(n);
    r.privacy == privacy
  }

  /** One pass over the RSN or WPA element: accepted, or given up on. */
  predicate ElementAccepts(e: Element, n: Network, wepOk: bool, needMfp: bool)
  {
    && e.parsed.Some?
    && var d := e.parsed.value;
       || (wepOk && d.group * {Wep40, Wep104} != {})
       || (&& d.proto * n.proto != {}
           && d.pairwise * n.pairwise != {}
           && d.group * n.group != {}
           && d.keyMgmt * n.keyMgmt != {}
           && (needMfp ==> d.mfpc))
  }

  /** wpa_supplicant_ssid_bss_match */
  predicate SecurityMatches(r: ScanRes, n: Network)
  {
    if n.id in r.wpsMatch then r.wpsMatch[n.id]
    else
      var wepOk := !UsesWpa(n)
                   && ((NoKeyMgmt in n.keyMgmt && n.wepTxKey < |n.wepKeyLens| && n.wepKeyLens[n.wepTxKey] > 0)
                       || Ieee8021x in n.keyMgmt);
      || (Rsn in n.proto && r.rsnIe.Some? && ElementAccepts(r.rsnIe.value, n, wepOk, n.mfpRequired))
      || (Wpa in n.proto && r.wpaIe.Some? && ElementAccepts(r.wpaIe.value, n, wepOk, false))
      || !UsesWpa(n)
  }

  /** freq_allowed */
  predicate FreqAllowed(freqs: Option<seq<int>>, freq: int)
  {
    freqs.None? || freq in freqs.value
  }

  /** The mode rate_match settles on: the last one with the channel, but 802.11g stays. */
  function ModeFor(modes: seq<Mode>, freq: int): Option<Mode>
  {
    if modes == [] then None
    else
      var before, last := ModeFor(modes[..|modes| - 1], freq), modes[|modes| - 1];
      if freq in last.freqs && !(before.Some? && before.value.isG) then Some(last) else before
  }

  /** rate_match: every basic rate is supported, and HT where the BSS demands it. */
  predicate RatesMatch(modes: Option<seq<Mode>>, r: ScanRes)
  {
    r.freq == 0 || modes.None? ||
    var mode := ModeFor(modes.value, r.freq);
    && mode.Some?
    && forall rate | rate in r.rates && rate >= 128 ::
         if rate % 128 == HT_PHY then !mode.value.htKnown || mode.value.mcs0 == 255
         else (rate % 128) * 5 in mode.value.rates
  }

  /** The SSID has to be compared: not when the network gives none and a wildcard is allowed. */
  predicate ChecksSsid(r: ScanRes, n: Network)
  {
    var wpa := (r.wpaIe.Some? && r.wpaIe.value.len > 0) || (r.rsnIe.Some? && r.rsnIe.value.len > 0);
    var wildcard := n.ssid == [] && n.id in r.wpsWildcard;
    && (if wpa || Wps in n.keyMgmt then !wildcard else n.ssid != [])
    && !(n.bssid == Some(r.bssid) && n.ssid == [])
  }

  /** Everything wpa_scan_res_match asks of a pair, apart from the blacklist. */
  predicate Fits(modes: Option<seq<Mode>>, r: ScanRes, n: Network)
  {
    var wpa := (r.wpaIe.Some? && r.wpaIe.value.len > 0) || (r.rsnIe.Some? && r.rsnIe.value.len > 0);
    && r.ssid.Some? && r.ssid.value != []
    && !n.disabled
    && (ChecksSsid(r, n) ==> r.ssid.value == n.ssid)
    && (n.bssid.Some? ==> n.bssid.value == r.bssid)
    && SecurityMatches(r, n)
    && (wpa || n.keyMgmt * {NoKeyMgmt, Wps, Ieee8021x} != {})
    && PrivacyMatches(r, n)
    && !r.ibss
    && FreqAllowed(n.freqList, r.freq)
    && RatesMatch(modes, r)
  }

  // ---- What a fitting pair has in common ----

  /** The element offers what the network asks for: a protocol, a pairwise cipher, a group
      cipher and a key management. */
  predicate Shares(e: Option<Element>, n: Network)
  {
    && e.Some? && e.value.parsed.Some?
    && var d := e.value.parsed.value;
       && (exists x :: x in d.proto && x in n.proto)
       && (exists x :: x in d.pairwise && x in n.pairwise)
       && (exists x :: x in d.group && x in n.group)
       && (exists x :: x in d.keyMgmt && x in n.keyMgmt)
  }

  /** The RSN element says that management frame protection is possible. */
  predicate OffersMfp(e: Option<Element>)
  {
    e.Some? && e.value.parsed.Some? && e.value.parsed.value.mfpc
  }

  /** A basic rate, or the HT selector, that the hardware mode can do. */
  predicate CanDo(m: Mode, rate: byte)
  {
    if rate == 255 then m.htKnown ==> m.mcs0 == 255 else (rate - 128) * 5 in m.rates
  }

  /** A hardware mode with the channel that can do all basic rates. */
  predicate GoodMode(m: Mode, r: ScanRes)
  {
    r.freq in m.freqs && forall rate | rate in r.rates && rate >= 128 :: CanDo(m, rate)
  }

  /** Some WEP key is configured. */
  predicate HasWepKey(n: Network)
  {
    exists i | 0 <= i < |n.wepKeyLens| :: n.wepKeyLens[i] > 0
  }

  /** The scan result carries a WPA or RSN element that is not empty. */
  predicate AdvertisesWpa(r: ScanRes)
  {
    (r.wpaIe.Some? && r.wpaIe.value.len > 0) || (r.rsnIe.Some? && r.rsnIe.value.len > 0)
  }

  lemma {:induction false} ModeForIs(modes: seq<Mode>, freq: int)
    ensures ModeFor(modes, freq).Some? ==> ModeFor(modes, freq).value in modes && freq in ModeFor(modes, freq).value.freqs
    ensures ModeFor(modes, freq).None? ==> forall m | m in modes :: freq !in m.freqs
  {
    if modes != [] {
      ModeForIs(modes[..|modes| - 1], freq);
      assert modes == modes[..|modes| - 1] + [modes[|modes| - 1]];
    }
  }

  /** SSIDs, BSSIDs and state of a pair that fits. */
  lemma FittingIdentity(modes: Option<seq<Mode>>, r: ScanRes, n: Network)
    requires Fits(modes, r, n)
    ensures !n.disabled && !r.ibss && r.ssid.Some? && r.ssid.value != []
    ensures n.ssid != [] ==> r.ssid.value == n.ssid
    ensures n.bssid.Some? ==> r.bssid == n.bssid.value
    ensures n.ssid == [] ==>
      n.bssid == Some(r.bssid) || n.id in r.wpsWildcard || (!AdvertisesWpa(r) && Wps !in n.keyMgmt)
    ensures n.freqList.Some? ==> r.freq in n.freqList.value
  {
    hide SecurityMatches, PrivacyMatches, RatesMatch;
  }

  lemma FittingRates(modes: Option<seq<Mode>>, r: ScanRes, n: Network)
    requires Fits(modes, r, n)
    ensures modes.Some? && r.freq != 0 ==> exists m | m in modes.value :: GoodMode(m, r)
  {
    hide SecurityMatches, PrivacyMatches, ModeFor, ChecksSsid;
    if modes.Some? && r.freq != 0 {
      ModeForIs(modes.value, r.freq);
      var m := ModeFor(modes.value, r.freq).value;
      forall rate | rate in r.rates && rate >= 128 ensures CanDo(m, rate) {
        assert rate % 128 == rate - 128;
      }
      assert GoodMode(m, r);
    }
  }

  lemma FittingSecurity(modes: Option<seq<Mode>>, r: ScanRes, n: Network)
    requires Fits(modes, r, n)
    ensures (WpaPsk in n.keyMgmt || WpaEap in n.keyMgmt) && n.id !in r.wpsMatch ==>
      || (Rsn in n.proto && Shares(r.rsnIe, n) && (n.mfpRequired ==> OffersMfp(r.rsnIe)))
      || (Wpa in n.proto && Shares(r.wpaIe, n))
    ensures n.id in r.wpsMatch ==> r.wpsMatch[n.id]
    ensures !AdvertisesWpa(r) ==> NoKeyMgmt in n.keyMgmt || Wps in n.keyMgmt || Ieee8021x in n.keyMgmt
    ensures !n.mixedCell && Wps !in n.keyMgmt ==>
      (r.privacy <==> HasWepKey(n) || (Ieee8021x in n.keyMgmt && n.eapolKeys) || WpaPsk in n.keyMgmt || WpaEap in n.keyMgmt)
  {
    hide RatesMatch, ChecksSsid;
    if (WpaPsk in n.keyMgmt || WpaEap in n.keyMgmt) && n.id !in r.wpsMatch {
      if Rsn in n.proto && r.rsnIe.Some? && ElementAccepts(r.rsnIe.value, n, false, n.mfpRequired) {
        AcceptedShares(r.rsnIe.value, n, n.mfpRequired);
      } else {
        AcceptedShares(r.wpaIe.value, n, false);
      }
    }
    if HasWepKey(n) {
      var i :| 0 <= i < |n.wepKeyLens| && n.wepKeyLens[i] > 0;
      assert n.wepKeyLens[i] in n.wepKeyLens;
    }
  }

  lemma AcceptedShares(e: Element, n: Network, needMfp: bool)
    requires ElementAccepts(e, n, false, needMfp)
    ensures Shares(Some(e), n) && (needMfp ==> OffersMfp(Some(e)))
  {
    var d := e.parsed.value;
    var a :| a in d.proto * n.proto;
    var b :| b in d.pairwise * n.pairwise;
    var g :| g in d.group * n.group;
    var k :| k in d.keyMgmt * n.keyMgmt;
  }

  lemma SharedAccepted(e: Element, n: Network, wepOk: bool, needMfp: bool)
    requires Shares(Some(e), n) && (needMfp ==> OffersMfp(Some(e)))
    ensures ElementAccepts(e, n, wepOk, needMfp)
  {
    var d := e.parsed.value;
    var a :| a in d.proto && a in n.proto;
    assert a in d.proto * n.proto;
    var b :| b in d.pairwise && b in n.pairwise;
    assert b in d.pairwise * n.pairwise;
    var g :| g in d.group && g in n.group;
    assert g in d.group * n.group;
    var k :| k in d.keyMgmt && k in n.keyMgmt;
    assert k in d.keyMgmt * n.keyMgmt;
  }

  /** Everything but the security of a pair is in order: the network is enabled and names the
      BSS, the frequency is allowed, every hardware mode with the channel can do the basic
      rates and there is one, and WPS has no say. */
  predicate Reachable(modes: Option<seq<Mode>>, r: ScanRes, n: Network)
  {
    && !n.disabled && !r.ibss
    && n.ssid != [] && r.ssid == Some(n.ssid)
    && (n.bssid.Some? ==> n.bssid.value == r.bssid)
    && (n.freqList.Some? ==> r.freq in n.freqList.value)
    && n.id !in r.wpsMatch
    && (modes.Some? && r.freq != 0 ==>
          && (exists m | m in modes.value :: r.freq in m.freqs)
          && forall m | m in modes.value && r.freq in m.freqs :: GoodMode(m, r))
  }

  lemma ReachableRates(modes: Option<seq<Mode>>, r: ScanRes, n: Network)
    requires Reachable(modes, r, n)
    ensures RatesMatch(modes, r)
  {
    hide ModeFor;
    if modes.Some? && r.freq != 0 {
      ModeForIs(modes.value, r.freq);
      var m := ModeFor(modes.value, r.freq).value;
      forall rate | rate in r.rates && rate >= 128
        ensures if rate % 128 == HT_PHY then !m.htKnown || m.mcs0 == 255 else (rate % 128) * 5 in m.rates
      {
        assert rate % 128 == rate - 128 && CanDo(m, rate);
      }
    }
  }

  /** An open network fits every BSS of it without privacy. */
  lemma OpenFits(modes: Option<seq<Mode>>, r: ScanRes, n: Network)
    requires Reachable(modes, r, n)
    requires n.keyMgmt == {NoKeyMgmt} && !HasWepKey(n) && !r.privacy
    ensures Fits(modes, r, n)
  {
    hide RatesMatch;
    ReachableRates(modes, r, n);
    assert NoKeyMgmt in n.keyMgmt * {NoKeyMgmt, Wps, Ieee8021x};
    NoWepKey(n);
  }

  lemma NoWepKey(n: Network)
    ensures HasWepKey(n) <==> exists l | l in n.wepKeyLens :: l > 0
  {
    if exists l | l in n.wepKeyLens :: l > 0 {
      var l :| l in n.wepKeyLens && l > 0;
      var i :| 0 <= i < |n.wepKeyLens| && n.wepKeyLens[i] == l;
    }
    if HasWepKey(n) {
      var i :| 0 <= i < |n.wepKeyLens| && n.wepKeyLens[i] > 0;
      assert n.wepKeyLens[i] in n.wepKeyLens;
    }
  }

  /** A network with static WEP keys fits every BSS of it with privacy. */
  lemma WepFits(modes: Option<seq<Mode>>, r: ScanRes, n: Network)
    requires Reachable(modes, r, n)
    requires n.keyMgmt == {NoKeyMgmt} && HasWepKey(n) && r.privacy
    ensures Fits(modes, r, n)
  {
    hide RatesMatch;
    ReachableRates(modes, r, n);
    assert NoKeyMgmt in n.keyMgmt * {NoKeyMgmt, Wps, Ieee8021x};
    NoWepKey(n);
  }

  /** A WPA2-Personal network fits every BSS of it whose RSN element offers what it asks for. */
  lemma Wpa2Fits(modes: Option<seq<Mode>>, r: ScanRes, n: Network)
    requires Reachable(modes, r, n)
    requires n.keyMgmt == {WpaPsk} && Rsn in n.proto && r.privacy
    requires Shares(r.rsnIe, n) && r.rsnIe.value.len > 0 && (n.mfpRequired ==> OffersMfp(r.rsnIe))
    ensures Fits(modes, r, n)
  {
    hide RatesMatch, ElementAccepts;
    ReachableRates(modes, r, n);
    SharedAccepted(r.rsnIe.value, n, false, n.mfpRequired);
  }

  // ---- The exact condition ----

  /** The mode that counts for a channel: the first 802.11g mode that has it, else the last
      mode that has it. */
  predicate ChosenMode(modes: seq<Mode>, freq: int, k: nat)
  {
    && k < |modes| && freq in modes[k].freqs
    && (if modes[k].isG then forall j | 0 <= j < k :: !(modes[j].isG && freq in modes[j].freqs)
        else forall j | 0 <= j < |modes| && freq in modes[j].freqs :: !modes[j].isG && j <= k)
  }

  lemma {:induction false} ChosenIsModeFor(modes: seq<Mode>, freq: int, k: nat)
    requires ChosenMode(modes, freq, k)
    ensures ModeFor(modes, freq) == Some(modes[k])
  {
    var n := |modes| - 1;
    var init := modes[..n];
    if k < n {
      assert forall j | 0 <= j < n :: init[j] == modes[j];
      ChosenIsModeFor(init, freq, k);
    } else {
      ModeForIs(init, freq);
    }
  }

  lemma {:induction false} ModeForIsChosen(modes: seq<Mode>, freq: int)
    requires ModeFor(modes, freq).Some?
    ensures exists k: nat :: ChosenMode(modes, freq, k)
  {
    var n := |modes| - 1;
    var init := modes[..n];
    assert forall j | 0 <= j < n :: init[j] == modes[j];
    if ModeFor(init, freq).Some? {
      ModeForIsChosen(init, freq);
      var k: nat :| ChosenMode(init, freq, k);
      ChosenIsModeFor(init, freq, k);
      if modes[k].isG || freq !in modes[n].freqs {
        assert ChosenMode(modes, freq, k);
      } else {
        assert ChosenMode(modes, freq, n);
      }
    } else {
      ModeForIs(init, freq);
      assert ChosenMode(modes, freq, n);
    }
  }

  /** The hardware can do all basic rates in the mode that counts. */
  ghost predicate RatesDone(modes: Option<seq<Mode>>, r: ScanRes)
  {
    modes.Some? && r.freq != 0 ==>
      exists k: nat | k < |modes.value| :: ChosenMode(modes.value, r.freq, k) && GoodMode(modes.value[k], r)
  }

  lemma GoodModeIff(m: Mode, r: ScanRes)
    ensures (forall rate | rate in r.rates && rate >= 128 :: CanDo(m, rate)) <==>
      forall rate | rate in r.rates && rate >= 128 ::
        if rate % 128 == HT_PHY then !m.htKnown || m.mcs0 == 255 else (rate % 128) * 5 in m.rates
  {
    forall rate: byte | rate >= 128
      ensures CanDo(m, rate) <==> if rate % 128 == HT_PHY then !m.htKnown || m.mcs0 == 255 else (rate % 128) * 5 in m.rates
    {
      assert rate % 128 == rate - 128;
    }
  }

  lemma RatesIff(modes: Option<seq<Mode>>, r: ScanRes)
    ensures RatesMatch(modes, r) <==> RatesDone(modes, r)
  {
    hide ModeFor, ChosenMode, CanDo;
    if modes.Some? && r.freq != 0 {
      if ModeFor(modes.value, r.freq).Some? {
        var m := ModeFor(modes.value, r.freq).value;
        ModeForIsChosen(modes.value, r.freq);
        var k: nat :| ChosenMode(modes.value, r.freq, k);
        HasIndex(modes.value, r.freq, k);
        ModeForIs(modes.value, r.freq);
        GoodModeIff(m, r);
      }
      forall k: nat | k < |modes.value| && ChosenMode(modes.value, r.freq, k)
        ensures ModeFor(modes.value, r.freq) == Some(modes.value[k])
      {
        ChosenIsModeFor(modes.value, r.freq, k);
      }
    }
  }

  lemma HasIndex(modes: seq<Mode>, freq: int, k: nat)
    requires ChosenMode(modes, freq, k)
    ensures k < |modes|
  {
  }

  /** The network names the BSS by its SSID; or it has no SSID, and names its BSSID, may match
      any SSID by WPS, or is not for WPS and the BSS has no WPA. */
  predicate Named(r: ScanRes, n: Network)
  {
    if n.ssid != [] then r.ssid == Some(n.ssid)
    else
      && r.ssid.Some? && r.ssid.value != []
      && (n.bssid == Some(r.bssid) || n.id in r.wpsWildcard || (!AdvertisesWpa(r) && Wps !in n.keyMgmt))
  }

  /** WPS decides, or the network is not for WPA, or an element offers what it asks for. */
  predicate Secured(r: ScanRes, n: Network)
  {
    if n.id in r.wpsMatch then r.wpsMatch[n.id]
    else
      || (WpaPsk !in n.keyMgmt && WpaEap !in n.keyMgmt)
      || (Rsn in n.proto && Shares(r.rsnIe, n) && (n.mfpRequired ==> OffersMfp(r.rsnIe)))
      || (Wpa in n.proto && Shares(r.wpaIe, n))
  }

  /** Whether the BSS has privacy agrees with the network, where that matters. */
  predicate SamePrivacy(r: ScanRes, n: Network)
  {
    n.mixedCell || Wps in n.keyMgmt ||
    (r.privacy <==> HasWepKey(n) || (Ieee8021x in n.keyMgmt && n.eapolKeys) || WpaPsk in n.keyMgmt || WpaEap in n.keyMgmt)
  }

  /** All that a pair must have to fit. */
  ghost predicate Agree(modes: Option<seq<Mode>>, r: ScanRes, n: Network)
  {
    && !n.disabled && !r.ibss
    && Named(r, n) && (n.bssid.Some? ==> n.bssid.value == r.bssid)
    && (n.freqList.Some? ==> r.freq in n.freqList.value)
    && Secured(r, n) && SamePrivacy(r, n)
    && (AdvertisesWpa(r) || NoKeyMgmt in n.keyMgmt || Wps in n.keyMgmt || Ieee8021x in n.keyMgmt)
    && RatesDone(modes, r)
  }

  lemma SecuredIff(r: ScanRes, n: Network)
    ensures SecurityMatches(r, n) <==> Secured(r, n)
  {
    hide ElementAccepts, Shares, OffersMfp;
    if n.id !in r.wpsMatch && UsesWpa(n) {
      if r.rsnIe.Some? {
        SharesIff(r.rsnIe.value, n, n.mfpRequired);
      }
      if r.wpaIe.Some? {
        SharesIff(r.wpaIe.value, n, false);
      }
      NothingShared(n);
    }
  }

  lemma NothingShared(n: Network)
    ensures !Shares(None, n)
  {
  }

  lemma SharesIff(e: Element, n: Network, needMfp: bool)
    ensures ElementAccepts(e, n, false, needMfp) <==> Shares(Some(e), n) && (needMfp ==> OffersMfp(Some(e)))
  {
    hide ElementAccepts, Shares, OffersMfp;
    if ElementAccepts(e, n, false, needMfp) {
      AcceptedShares(e, n, needMfp);
    }
    if Shares(Some(e), n) && (needMfp ==> OffersMfp(Some(e))) {
      SharedAccepted(e, n, false, needMfp);
    }
  }

  lemma PrivacyIff(r: ScanRes, n: Network)
    ensures PrivacyMatches(r, n) <==> SamePrivacy(r, n)
  {
    NoWepKey(n);
  }

  /** A scan result fits a network exactly if they agree. */
  lemma FitsIff(modes: Option<seq<Mode>>, r: ScanRes, n: Network)
    ensures Fits(modes, r, n) <==> Agree(modes, r, n)
  {
    hide SecurityMatches, Secured, PrivacyMatches, SamePrivacy, RatesMatch, RatesDone;
    SecuredIff(r, n);
    PrivacyIff(r, n);
    RatesIff(modes, r);
    assert n.keyMgmt * {NoKeyMgmt, Wps, Ieee8021x} != {} <==>
      NoKeyMgmt in n.keyMgmt || Wps in n.keyMgmt || Ieee8021x in n.keyMgmt by {
      KeyMgmtMeets(n.keyMgmt);
    }
  }

  lemma KeyMgmtMeets(m: set<KeyMgmt>)
    ensures m * {NoKeyMgmt, Wps, Ieee8021x} != {} <==> NoKeyMgmt in m || Wps in m || Ieee8021x in m
  {
    var both := m * {NoKeyMgmt, Wps, Ieee8021x};
    assert NoKeyMgmt in both <==> NoKeyMgmt in m;
    assert Wps in both <==> Wps in m;
    assert Ieee8021x in both <==> Ieee8021x in m;
    if both != {} {
      var x :| x in both;
    }
  }
}
