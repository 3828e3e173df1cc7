/** The concrete words and fields of a network block (config.c, the parser
    tables, in the order of wpa_config_write_network). */
module ConfigTable {
  import opened Octets
  import opened CText
  import opened ConfigLine
  import opened ConfigValue
  import opened ConfigField
  import opened ConfigBlock
  import opened Networks

  /** Tables of words. */
  function AuthAlgWords(): Words
  {
    Word(A(Open), "OPEN", Word(A(Shared), "SHARED", Word(A(Leap), "LEAP", NoWords)))
  }

  function ProtoWords(): Words
  {
    Word(P(Wpa), "WPA", Word(P(Rsn), "RSN", NoWords))
  }

  /** The reader also takes another name for RSN. */
  function ProtoReader(): Words
  {
    Word(P(Wpa), "WPA", Word(P(Rsn), "RSN", Word(P(Rsn), "WPA2", NoWords)))
  }

  function KeyMgmtWords(): Words
  {
    Word(K(WpaPsk), "WPA-PSK", Word(K(WpaEap), "WPA-EAP", Word(K(Ieee8021x), "IEEE8021X",
    Word(K(NoKeyMgmt), "NONE", Word(K(WpaNone), "WPA-NONE", Word(K(Wps), "WPS", NoWords))))))
  }

  function CipherWords(): Words
  {
    Word(C(Ccmp), "CCMP", Word(C(Tkip), "TKIP", Word(C(Wep104), "WEP104",
    Word(C(Wep40), "WEP40", Word(C(NoCipher), "NONE", NoWords)))))
  }

  function ProtoKind(): Kind
  {
    Mask(ProtoReader(), ProtoWords(), {P(Wpa), P(Rsn)}, {P(Wpa), P(Rsn)})
  }

  function KeyMgmtKind(): Kind
  {
    Mask(KeyMgmtWords(), KeyMgmtWords(),
      {K(WpaPsk), K(WpaEap), K(Ieee8021x), K(NoKeyMgmt), K(WpaNone), K(Wps)}, {K(WpaPsk), K(WpaEap)})
  }

  function PairwiseKind(): Kind
  {
    Mask(CipherWords(), CipherWords(), {C(Ccmp), C(Tkip), C(NoCipher)}, {C(Ccmp), C(Tkip)})
  }

  function GroupKind(): Kind
  {
    Mask(CipherWords(), CipherWords(),
      {C(Ccmp), C(Tkip), C(Wep104), C(Wep40)}, {C(Ccmp), C(Tkip), C(Wep104), C(Wep40)})
  }

  function AuthAlgKind(): Kind
  {
    Mask(AuthAlgWords(), AuthAlgWords(), {A(Open), A(Shared), A(Leap)}, {})
  }

  lemma KnownWords()
    ensures Known(ProtoReader(), ProtoWords())
    ensures Known(AuthAlgWords(), AuthAlgWords())
  {
  }

  lemma KnownKeyMgmt()
    ensures Known(KeyMgmtWords(), KeyMgmtWords())
  {
  }

  lemma KnownCiphers()
    ensures Known(CipherWords(), CipherWords())
  {
  }

  /** All masks of a network block can be read back. */
  lemma MaskKindsOk()
    ensures KindOk(ProtoKind()) && KindOk(AuthAlgKind())
    ensures KindOk(PairwiseKind()) && KindOk(GroupKind())
    ensures KindOk(KeyMgmtKind())
  {
    hide Known;
    KnownWords();
    KnownKeyMgmt();
    KnownCiphers();
  }

  /** The buffers of the mask writers (10, 50, 50 and 30 octets) hold every mask with its
      final NUL: snprintf cuts nothing. */
  lemma MaskBuffers(m: set<Flag>)
    ensures |WriteMask(ProtoWords(), m)| < 10 && |WriteMask(KeyMgmtWords(), m)| < 50
    ensures |WriteMask(CipherWords(), m)| < 50 && |WriteMask(AuthAlgWords(), m)| < 30
  {
    hide WriteMask, Chosen;
    MaskFits(ProtoWords(), m);
    MaskFits(KeyMgmtWords(), m);
    MaskFits(CipherWords(), m);
    MaskFits(AuthAlgWords(), m);
  }

  // ---- Fields ----

  /** The EAP methods of a build with all of them (eap_register.c). */
  function EapNames(): set<string>
  {
    { "MD5", "TLS", "MSCHAPV2", "PEAP", "TTLS", "GTC", "OTP", "SIM", "LEAP", "PSK", "AKA",
      "AKA'", "FAST", "PAX", "SAKE", "GPSK", "WSC", "IKEV2", "VENDOR-TEST", "TNC", "PWD" }
  }

  lemma EapWords1()
    ensures CleanWord("MD5")
    ensures CleanWord("TLS")
    ensures CleanWord("MSCHAPV2")
    ensures CleanWord("PEAP")
    ensures CleanWord("TTLS")
    ensures CleanWord("GTC")
    ensures CleanWord("OTP")
    ensures CleanWord("SIM")
    ensures CleanWord("LEAP")
    ensures CleanWord("PSK")
    ensures CleanWord("AKA")
  {
  }

  lemma EapWords2()
    ensures CleanWord("AKA'")
    ensures CleanWord("FAST")
    ensures CleanWord("PAX")
    ensures CleanWord("SAKE")
    ensures CleanWord("GPSK")
    ensures CleanWord("WSC")
    ensures CleanWord("IKEV2")
    ensures CleanWord("VENDOR-TEST")
    ensures CleanWord("TNC")
    ensures CleanWord("PWD")
  {
  }

  lemma EapNamesOk()
    ensures forall w | w in EapNames() :: CleanWord(w)
  {
    hide CleanWord;
    EapWords1();
    EapWords2();
  }

  /** Fields about the network; the last six are read but never written. */
  function CommonFields(): (t: seq<Field>)
    ensures |t| == 16
  {
    [ Field("ssid", StrLen(Some(32)), true), Field("scan_ssid", Int(0, Some(1)), true),
      Field("bssid", Address, true), Field("psk", Psk, true),
      Field("proto", ProtoKind(), true), Field("key_mgmt", KeyMgmtKind(), true),
      Field("pairwise", PairwiseKind(), true), Field("group", GroupKind(), true),
      Field("auth_alg", AuthAlgKind(), true), Field("eap", EapList(EapNames()), true),
      Field("mixed_cell", Int(0, Some(1)), false), Field("frequency", Int(0, Some(10000)), false),
      Field("wpa_ptk_rekey", Int(0, None), false), Field("bgscan", Str, false),
      Field("scan_freq", FreqList, false), Field("freq_list", FreqList, false)]
  }

  /** EAP identity and certificates. */
  function IdentityFields(): (t: seq<Field>)
    ensures |t| == 11
  {
    [ Field("identity", StrLen(None), true), Field("anonymous_identity", StrLen(None), true),
      Field("password", Password, true), Field("ca_cert", Str, true),
      Field("ca_path", Str, true), Field("client_cert", Str, true),
      Field("private_key", Str, true), Field("private_key_passwd", Str, true),
      Field("dh_file", Str, true), Field("subject_match", Str, true),
      Field("altsubject_match", Str, true)]
  }

  /** Certificates of the inner authentication, and phase parameters. */
  function InnerFields(): (t: seq<Field>)
    ensures |t| == 12
  {
    [ Field("ca_cert2", Str, true), Field("ca_path2", Str, true),
      Field("client_cert2", Str, true), Field("private_key2", Str, true),
      Field("private_key2_passwd", Str, true), Field("dh_file2", Str, true),
      Field("subject_match2", Str, true), Field("altsubject_match2", Str, true),
      Field("phase1", Str, true), Field("phase2", Str, true),
      Field("pcsc", Str, true), Field("pin", Str, true)]
  }

  /** Hardware tokens. */
  function EngineFields(): (t: seq<Field>)
    ensures |t| == 12
  {
    [ Field("engine_id", Str, true), Field("key_id", Str, true),
      Field("cert_id", Str, true), Field("ca_cert_id", Str, true),
      Field("key2_id", Str, true), Field("pin2", Str, true),
      Field("engine2_id", Str, true), Field("cert2_id", Str, true),
      Field("ca_cert2_id", Str, true), Field("engine", Int(0, None), true),
      Field("engine2", Int(0, None), true), Field("eapol_flags", Int(3, None), true)]
  }

  /** WEP keys and the rest. */
  function LinkFields(): (t: seq<Field>)
    ensures |t| == 15
  {
    [ Field("wep_key0", WepKey, true), Field("wep_key1", WepKey, true),
      Field("wep_key2", WepKey, true), Field("wep_key3", WepKey, true),
      Field("wep_tx_keyidx", Int(0, None), true), Field("priority", Int(0, None), true),
      Field("eap_workaround", Int(-1, None), true), Field("pac_file", Str, true),
      Field("fragment_size", Int(1398, None), true), Field("mode", Int(0, Some(4)), true),
      Field("proactive_key_caching", Int(0, Some(1)), true), Field("disabled", Int(0, Some(2)), true),
      Field("peerkey", Int(0, Some(1)), true), Field("ieee80211w", Int(0, Some(2)), true),
      Field("id_str", Str, true)]
  }

  /** Row of a field name, searched among the names of the same length. */
  function Rank(n: string): nat
  {
    match |n|
    case 3 => if n == "psk" then 3 else if n == "eap" then 9 else if n == "pin" then 38 else 66
    case 4 =>
      if n == "ssid" then 0 else if n == "pcsc" then 37 else if n == "pin2" then 44
      else if n == "mode" then 60 else 66
    case 5 => if n == "bssid" then 2 else if n == "proto" then 4 else if n == "group" then 7 else 66
    case 6 =>
      if n == "bgscan" then 13 else if n == "phase1" then 35 else if n == "phase2" then 36
      else if n == "key_id" then 40 else if n == "engine" then 48 else if n == "id_str" then 65
      else 66
    case 7 =>
      if n == "ca_cert" then 19 else if n == "ca_path" then 20 else if n == "dh_file" then 24
      else if n == "cert_id" then 41 else if n == "key2_id" then 43 else if n == "engine2" then 49
      else if n == "peerkey" then 63 else 66
    case 8 =>
      if n == "key_mgmt" then 5 else if n == "pairwise" then 6 else if n == "auth_alg" then 8
      else if n == "identity" then 16 else if n == "password" then 18
      else if n == "ca_cert2" then 27 else if n == "ca_path2" then 28
      else if n == "dh_file2" then 32 else if n == "cert2_id" then 46
      else if n == "wep_key0" then 51 else if n == "wep_key1" then 52
      else if n == "wep_key2" then 53 else if n == "wep_key3" then 54
      else if n == "priority" then 56 else if n == "pac_file" then 58
      else if n == "disabled" then 62 else 66
    case 9 =>
      if n == "scan_ssid" then 1 else if n == "frequency" then 11 else if n == "scan_freq" then 14
      else if n == "freq_list" then 15 else if n == "engine_id" then 39 else 66
    case 10 =>
      if n == "mixed_cell" then 10 else if n == "ca_cert_id" then 42
      else if n == "engine2_id" then 45 else if n == "ieee80211w" then 64 else 66
    case 11 =>
      if n == "client_cert" then 21 else if n == "private_key" then 22
      else if n == "ca_cert2_id" then 47 else if n == "eapol_flags" then 50 else 66
    case 12 => if n == "client_cert2" then 29 else if n == "private_key2" then 30 else 66
    case 13 =>
      if n == "wpa_ptk_rekey" then 12 else if n == "subject_match" then 25
      else if n == "wep_tx_keyidx" then 55 else if n == "fragment_size" then 59 else 66
    case 14 => if n == "subject_match2" then 33 else if n == "eap_workaround" then 57 else 66
    case 16 => if n == "altsubject_match" then 26 else 66
    case 17 => if n == "altsubject_match2" then 34 else 66
    case 18 =>
      if n == "anonymous_identity" then 17 else if n == "private_key_passwd" then 23 else 66
    case 19 => if n == "private_key2_passwd" then 31 else 66
    case 21 => if n == "proactive_key_caching" then 61 else 66
    case _ => 66
  }

  /** The rows of a part of the table that starts at row `base`. */
  predicate RowsOk(t: seq<Field>, base: nat)
  {
    forall i | 0 <= i < |t| :: IsName(t[i].name) && Rank(t[i].name) == base + i
  }

  lemma CommonNames1()
    ensures IsName("ssid")
    ensures IsName("scan_ssid")
    ensures IsName("bssid")
    ensures IsName("psk")
    ensures IsName("proto")
    ensures IsName("key_mgmt")
    ensures IsName("pairwise")
    ensures IsName("group")
  {
  }

  lemma CommonNames2()
    ensures IsName("auth_alg")
    ensures IsName("eap")
    ensures IsName("mixed_cell")
    ensures IsName("frequency")
    ensures IsName("wpa_ptk_rekey")
    ensures IsName("bgscan")
    ensures IsName("scan_freq")
    ensures IsName("freq_list")
  {
  }

  lemma CommonRanks()
    ensures Rank("ssid") == 0
    ensures Rank("scan_ssid") == 1
    ensures Rank("bssid") == 2
    ensures Rank("psk") == 3
    ensures Rank("proto") == 4
    ensures Rank("key_mgmt") == 5
    ensures Rank("pairwise") == 6
    ensures Rank("group") == 7
    ensures Rank("auth_alg") == 8
    ensures Rank("eap") == 9
    ensures Rank("mixed_cell") == 10
    ensures Rank("frequency") == 11
    ensures Rank("wpa_ptk_rekey") == 12
    ensures Rank("bgscan") == 13
    ensures Rank("scan_freq") == 14
    ensures Rank("freq_list") == 15
  {
  }

  lemma CommonFieldsOk()
    ensures RowsOk(CommonFields(), 0)
  {
    hide IsName, Rank;
    CommonNames1();
    CommonNames2();
    CommonRanks();
  }

  lemma IdentityNames1()
    ensures IsName("identity")
    ensures IsName("anonymous_identity")
    ensures IsName("password")
    ensures IsName("ca_cert")
    ensures IsName("ca_path")
    ensures IsName("client_cert")
    ensures IsName("private_key")
    ensures IsName("private_key_passwd")
  {
  }

  lemma IdentityNames2()
    ensures IsName("dh_file")
    ensures IsName("subject_match")
    ensures IsName("altsubject_match")
  {
  }

  lemma IdentityRanks()
    ensures Rank("identity") == 16
    ensures Rank("anonymous_identity") == 17
    ensures Rank("password") == 18
    ensures Rank("ca_cert") == 19
    ensures Rank("ca_path") == 20
    ensures Rank("client_cert") == 21
    ensures Rank("private_key") == 22
    ensures Rank("private_key_passwd") == 23
    ensures Rank("dh_file") == 24
    ensures Rank("subject_match") == 25
    ensures Rank("altsubject_match") == 26
  {
  }

  lemma IdentityFieldsOk()
    ensures RowsOk(IdentityFields(), 16)
  {
    hide IsName, Rank;
    IdentityNames1();
    IdentityNames2();
    IdentityRanks();
  }

  lemma InnerNames1()
    ensures IsName("ca_cert2")
    ensures IsName("ca_path2")
    ensures IsName("client_cert2")
    ensures IsName("private_key2")
    ensures IsName("private_key2_passwd")
    ensures IsName("dh_file2")
    ensures IsName("subject_match2")
    ensures IsName("altsubject_match2")
  {
  }

  lemma InnerNames2()
    ensures IsName("phase1")
    ensures IsName("phase2")
    ensures IsName("pcsc")
    ensures IsName("pin")
  {
  }

  lemma InnerRanks()
    ensures Rank("ca_cert2") == 27
    ensures Rank("ca_path2") == 28
    ensures Rank("client_cert2") == 29
    ensures Rank("private_key2") == 30
    ensures Rank("private_key2_passwd") == 31
    ensures Rank("dh_file2") == 32
    ensures Rank("subject_match2") == 33
    ensures Rank("altsubject_match2") == 34
    ensures Rank("phase1") == 35
    ensures Rank("phase2") == 36
    ensures Rank("pcsc") == 37
    ensures Rank("pin") == 38
  {
  }

  lemma InnerFieldsOk()
    ensures RowsOk(InnerFields(), 27)
  {
    hide IsName, Rank;
    InnerNames1();
    InnerNames2();
    InnerRanks();
  }

  lemma EngineNames1()
    ensures IsName("engine_id")
    ensures IsName("key_id")
    ensures IsName("cert_id")
    ensures IsName("ca_cert_id")
    ensures IsName("key2_id")
    ensures IsName("pin2")
    ensures IsName("engine2_id")
    ensures IsName("cert2_id")
  {
  }

  lemma EngineNames2()
    ensures IsName("ca_cert2_id")
    ensures IsName("engine")
    ensures IsName("engine2")
    ensures IsName("eapol_flags")
  {
  }

  lemma EngineRanks()
    ensures Rank("engine_id") == 39
    ensures Rank("key_id") == 40
    ensures Rank("cert_id") == 41
    ensures Rank("ca_cert_id") == 42
    ensures Rank("key2_id") == 43
    ensures Rank("pin2") == 44
    ensures Rank("engine2_id") == 45
    ensures Rank("cert2_id") == 46
    ensures Rank("ca_cert2_id") == 47
    ensures Rank("engine") == 48
    ensures Rank("engine2") == 49
    ensures Rank("eapol_flags") == 50
  {
  }

  lemma EngineFieldsOk()
    ensures RowsOk(EngineFields(), 39)
  {
    hide IsName, Rank;
    EngineNames1();
    EngineNames2();
    EngineRanks();
  }

  lemma LinkNames1()
    ensures IsName("wep_key0")
    ensures IsName("wep_key1")
    ensures IsName("wep_key2")
    ensures IsName("wep_key3")
    ensures IsName("wep_tx_keyidx")
    ensures IsName("priority")
    ensures IsName("eap_workaround")
    ensures IsName("pac_file")
  {
  }

  lemma LinkNames2()
    ensures IsName("fragment_size")
    ensures IsName("mode")
    ensures IsName("proactive_key_caching")
    ensures IsName("disabled")
    ensures IsName("peerkey")
    ensures IsName("ieee80211w")
    ensures IsName("id_str")
  {
  }

  lemma LinkRanks1()
    ensures Rank("wep_key0") == 51
    ensures Rank("wep_key1") == 52
    ensures Rank("wep_key2") == 53
    ensures Rank("wep_key3") == 54
    ensures Rank("wep_tx_keyidx") == 55
  {
  }

  lemma LinkRanks2()
    ensures Rank("priority") == 56
    ensures Rank("eap_workaround") == 57
    ensures Rank("pac_file") == 58
    ensures Rank("fragment_size") == 59
    ensures Rank("mode") == 60
  {
  }

  lemma LinkRanks3()
    ensures Rank("proactive_key_caching") == 61
    ensures Rank("disabled") == 62
    ensures Rank("peerkey") == 63
    ensures Rank("ieee80211w") == 64
    ensures Rank("id_str") == 65
  {
  }

  lemma LinkFieldsOk()
    ensures RowsOk(LinkFields(), 51)
  {
    hide IsName, Rank;
    LinkNames1();
    LinkNames2();
    LinkRanks1();
    LinkRanks2();
    LinkRanks3();
  }

  /** All fields of a network block. */
  function Table(): (t: seq<Field>)
    ensures |t| == 66
  {
    CommonFields() + IdentityFields() + InnerFields() + EngineFields() + LinkFields()
  }

  predicate KindsOk(t: seq<Field>)
  {
    forall i | 0 <= i < |t| :: KindOk(t[i].kind)
  }

  lemma EapKindsOk()
    ensures KindsOk(IdentityFields()) && KindsOk(InnerFields())
  {
  }

  lemma LinkKindsOk()
    ensures KindsOk(EngineFields()) && KindsOk(LinkFields())
  {
  }

  lemma CommonKindsOk()
    ensures KindsOk(CommonFields())
  {
    hide Known, Names, CleanWord, EapNames;
    MaskKindsOk();
    EapNamesOk();
  }

  lemma RowsJoin(s: seq<Field>, t: seq<Field>, base: nat)
    requires RowsOk(s, base) && RowsOk(t, base + |s|) && KindsOk(s) && KindsOk(t)
    ensures RowsOk(s + t, base) && KindsOk(s + t)
  {
    hide Rank, IsName, KindOk;
  }

  /** The names of all fields differ, and all values can be read back. */
  lemma TableIsOk()
    ensures TableOk(Table())
  {
    hide RowsOk, KindsOk, CommonFields, IdentityFields, InnerFields, EngineFields, LinkFields;
    CommonKindsOk();
    EapKindsOk();
    LinkKindsOk();
    CommonFieldsOk();
    IdentityFieldsOk();
    InnerFieldsOk();
    EngineFieldsOk();
    LinkFieldsOk();
    RowsJoin(CommonFields(), IdentityFields(), 0);
    RowsJoin(CommonFields() + IdentityFields(), InnerFields(), 0);
    RowsJoin(CommonFields() + IdentityFields() + InnerFields(), EngineFields(), 0);
    RowsJoin(CommonFields() + IdentityFields() + InnerFields() + EngineFields(), LinkFields(), 0);
    RanksDiffer(Table());
  }

  lemma RanksDiffer(t: seq<Field>)
    requires RowsOk(t, 0) && KindsOk(t)
    ensures TableOk(t)
  {
    hide Rank, IsName, KindOk;
  }
}
