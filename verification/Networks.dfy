/** Configured networks (struct wpa_ssid) as far as the priority index and the network
    selection look at them. Bit masks are sets of flags. */
module Networks {
  import opened Octets

  datatype KeyMgmt = WpaPsk | WpaEap | Ieee8021x | NoKeyMgmt | WpaNone | Wps

  datatype Cipher = Ccmp | Tkip | Wep104 | Wep40 | NoCipher

  datatype Proto = Wpa | Rsn

  /** `eapolKeys` says whether EAPOL flags require dynamic WEP keys; an empty `ssid` is
      no SSID; `freqList` is None where the C pointer is NULL. */
  datatype Network = Network(
    id: int, priority: int, disabled: bool,
    ssid: Bytes, bssid: Option<Bytes>,
    keyMgmt: set<KeyMgmt>, proto: set<Proto>, pairwise: set<Cipher>, group: set<Cipher>,
    wepKeyLens: seq<nat>, wepTxKey: nat, eapolKeys: bool, mixedCell: bool,
    mfpRequired: bool, freqList: Option<seq<int>>)

  /** The networks of one priority, in configuration order. */
  function WithPriority(ns: seq<Network>, p: int): seq<Network>
  {
    if ns == [] then []
    else WithPriority(ns[..|ns| - 1], p)
         + if ns[|ns| - 1].priority == p then [ns[|ns| - 1]] else []
  }

  lemma {:induction false} WithPriorityHas(ns: seq<Network>, p: int, n: Network)
    ensures n in WithPriority(ns, p) <==> n in ns && n.priority == p
  {
    if ns != [] {
      WithPriorityHas(ns[..|ns| - 1], p, n);
      assert ns == ns[..|ns| - 1] + [ns[|ns| - 1]];
    }
  }
}
