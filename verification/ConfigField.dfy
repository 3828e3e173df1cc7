/** Fields of a network block: how each kind of field is parsed, written and checked
    (config.c, the ssid_fields table and its parser and writer functions). */
module ConfigField {
  import opened Octets
  import opened CText
  import opened ConfigLine
  import opened ConfigValue
  import opened Networks

  /** Value of a field. Octets are characters below 256. */
  datatype Value =
    | Unset
    | Text(octets: string)
    | Number(n: int)
    | Flags(flags: set<Flag>)
    | Passphrase(phrase: string)
    | Key(key: string)
    | NtHash(hash: string)
    | Methods(names: seq<string>)
    | Frequencies(freqs: seq<int>)

  /** StrLen has a separate length and can hold any octets, Str is a C string; EapList knows
      the EAP methods of the build by their names. */
  datatype Kind =
    | StrLen(maxLength: Option<nat>)
    | Str
    | Int(standard: int, max: Option<int>)
    | Address
    | Psk
    | Password
    | WepKey
    | EapList(known: set<string>)
    | FreqList
    | Mask(reader: Words, words: Words, allowed: set<Flag>, usual: set<Flag>)

  const PMK_LEN: nat := 32
  const NT_HASH_LEN: nat := 16
  const MAX_WEP_KEY_LEN: nat := 16
  const ETH_ALEN: nat := 6

  /** os_zalloc and wpa_config_set_network_defaults */
  function Default(k: Kind): Value
  {
    match k
    case StrLen(_) => Unset
    case Str => Unset
    case Int(d, _) => Number(d)
    case Address => Unset
    case Psk => Unset
    case Password => Unset
    case WepKey => Text("")
    case EapList(_) => Unset
    case FreqList => Unset
    case Mask(_, _, _, u) => Flags(u)
  }

  // ---- Parsers ----

  /** wpa_config_parse_str; a C string ends at its first NUL. */
  function ParseStr(k: Kind, t: string): Option<Value>
  {
    if t == "NULL" then Some(Unset)
    else
      match ParseString(t)
      case None => None
      case Some(s) =>
        if k.StrLen? then
          (if k.maxLength.Some? && |s| > k.maxLength.value then None else Some(Text(s)))
        else Some(Text(s[..First(s, 0 as char)]))
  }

  /** wpa_config_parse_bssid */
  function ParseAddress(t: string): Option<Value>
  {
    if t == "" || t == "\"\"" || t == "any" then Some(Unset)
    else
      match ParseMac(t, ETH_ALEN)
      case None => None
      case Some(a) => Some(Text(a))
  }

  /** wpa_config_parse_psk */
  function ParsePsk(t: string): Option<Value>
  {
    if t != "" && t[0] == '"' then
      var l := Last(t[1..], '"');
      if l < 8 || l > 63 then None else Some(Passphrase(t[1..][..l]))
    else if |t| != 2 * PMK_LEN then None
    else
      match FromHex(t)
      case None => None
      case Some(k) => Some(Key(k))
  }

  /** wpa_config_parse_password */
  function ParsePassword(t: string): Option<Value>
  {
    if t == "NULL" then Some(Unset)
    else if "hash:" <= t then
      if |t| - 5 != 2 * NT_HASH_LEN then None
      else
        match FromHex(t[5..])
        case None => None
        case Some(h) => Some(NtHash(h))
    else
      match ParseString(t)
      case None => None
      case Some(s) => Some(Text(s))
  }

  /** wpa_config_parse_wep_key */
  function ParseWepKey(t: string): Option<Value>
  {
    match ParseString(t)
    case None => None
    case Some(s) => if |s| > MAX_WEP_KEY_LEN then None else Some(Text(s))
  }

  /** wpa_config_parse_int: a lower limit of 0 is taken as no limit. */
  function ParseInt(max: Option<int>, t: string): Option<Value>
  {
    if max.Some? && Atoi(t) > max.value then None else Some(Number(Atoi(t)))
  }

  /** wpa_config_parse_proto, _key_mgmt, _pairwise, _group and _auth_alg */
  function ParseFlags(k: Kind, t: string): Option<Value>
    requires k.Mask?
  {
    match ParseMask(k.reader, t)
    case None => None
    case Some(m) => if m <= k.allowed then Some(Flags(m)) else None
  }

  /** wpa_config_parse_eap */
  function ParseEap(known: set<string>, t: string): Option<Value>
  {
    if forall w | w in CText.Words(t) :: w in known then Some(Methods(CText.Words(t))) else None
  }

  /** wpa_config_parse_freqs: numbers behind spaces, up to the first that is 0 or none. */
  function ParseFreqs(t: string): seq<int>
    decreases |t|
  {
    if t != "" && t[0] == ' ' then ParseFreqs(t[1..])
    else if Atoi(t) == 0 || t == "" then []
    else
      var e := First(t[1..], ' ');
      [Atoi(t)] + if e == |t| - 1 then [] else ParseFreqs(t[1 + e..])
  }

  /** The parser of a field. */
  function Parsed(k: Kind, t: string): Option<Value>
  {
    match k
    case StrLen(_) => ParseStr(k, t)
    case Str => ParseStr(k, t)
    case Int(_, max) => ParseInt(max, t)
    case Address => ParseAddress(t)
    case Psk => ParsePsk(t)
    case Password => ParsePassword(t)
    case WepKey => ParseWepKey(t)
    case EapList(known) => ParseEap(known, t)
    case FreqList => Some(Frequencies(ParseFreqs(t)))
    case Mask(_, _, _, _) => ParseFlags(k, t)
  }

  // ---- Writers ----

  /** Room in the buffer for names of EAP methods, without the terminating NUL. */
  const EAP_ROOM: nat := 99

  /** wpa_config_write_eap: names that do not fit are cut. */
  function WriteEap(names: seq<string>): string
  {
    var t := Spaced(names);
    if |t| <= EAP_ROOM then t else t[..EAP_ROOM]
  }

  /** The field can hold the value. */
  predicate Holds(k: Kind, v: Value)
  {
    match k
    case StrLen(max) => v.Unset? || (v.Text? && IsOctets(v.octets) && (max.Some? ==> |v.octets| <= max.value))
    case Str => v.Unset? || (v.Text? && IsOctets(v.octets) && !Has(v.octets, 0 as char))
    case Int(_, max) => v.Number? && (max.Some? ==> v.n <= max.value)
    case Address => v.Unset? || (v.Text? && IsOctets(v.octets) && |v.octets| == ETH_ALEN)
    case Psk =>
      || v.Unset?
      || (v.Passphrase? && 8 <= |v.phrase| <= 63)
      || (v.Key? && IsOctets(v.key) && |v.key| == PMK_LEN)
    case Password =>
      || v.Unset?
      || (v.Text? && IsOctets(v.octets))
      || (v.NtHash? && IsOctets(v.hash) && |v.hash| == NT_HASH_LEN)
    case WepKey => v.Text? && IsOctets(v.octets) && |v.octets| <= MAX_WEP_KEY_LEN
    case EapList(known) => v.Unset? || (v.Methods? && forall w | w in v.names :: w in known)
    case FreqList => v.Unset? || v.Frequencies?
    case Mask(_, _, allowed, _) => v.Flags? && v.flags <= allowed
  }

  /** What the writer puts behind the name of the field, None if it leaves the field out
      (write_str, write_int, write_bssid, write_psk, write_proto and so on). Lists of
      frequencies are never written. */
  function Written(k: Kind, v: Value): Option<string>
    requires Holds(k, v)
  {
    match k
    case StrLen(_) => if v.Unset? then None else Some(WriteString(v.octets))
    case Str => if v.Unset? then None else Some(WriteString(v.octets))
    case Int(d, _) => if v.n == d then None else Some(Decimal(v.n))
    case Address => if v.Unset? then None else Some(MacText(v.octets))
    case Psk => if v.Unset? then None else if v.Passphrase? then Some(Quote(v.phrase)) else Some(ToHex(v.key))
    case Password =>
      if v.Unset? then None else if v.Text? then Some(WriteString(v.octets)) else Some("hash:" + ToHex(v.hash))
    case WepKey => if v.octets == "" then None else Some(WriteString(v.octets))
    case EapList(_) => if v.Unset? || WriteEap(v.names) == "" then None else Some(WriteEap(v.names))
    case FreqList => None
    case Mask(_, words, _, usual) =>
      if v.flags == usual || WriteMask(words, v.flags) == "" then None else Some(WriteMask(words, v.flags))
  }

  // ---- Limits ----

  /** A field with limits 0 and max takes a value between them, exactly unless a negative
      number is written. */
  lemma WithinLimitsIff(standard: int, max: int, t: string)
    requires Parsed(Int(standard, Some(max)), t).Some?
    ensures 0 <= Parsed(Int(standard, Some(max)), t).value.n <= max <==> !IsNegative(t)
  {
    hide Atoi, IsNegative;
    AtoiNegative(t);
  }

  /** scan_ssid=-5 is accepted although the limits are 0 and 1. */
  lemma NegativeAccepted()
    ensures Parsed(Int(0, Some(1)), "-5") == Some(Number(-5))
  {
    DecimalRoundTrip(-5);
    assert Digits(5) == "5";
    assert Decimal(-5) == "-5";
  }

  // ---- Round trips ----

  /** The writer has a way to say the value: no newline in a passphrase, names of EAP methods
      that fit their buffer, no list of frequencies, no empty mask where there is a default. */
  predicate Sayable(k: Kind, v: Value)
  {
    match k
    case Psk => OneLine(v)
    case EapList(_) => v.Methods? ==> v.names != [] && |Spaced(v.names)| <= EAP_ROOM
    case FreqList => v.Unset?
    case Mask(_, _, _, usual) => v == Flags({}) ==> usual == {}
    case _ => true
  }

  /** Not a passphrase with a newline. */
  predicate OneLine(v: Value)
  {
    v.Passphrase? ==> !Has(v.phrase, '\n')
  }

  /** A word of characters that mean nothing to the line reader. */
  predicate CleanWord(w: string)
  {
    w != "" && forall i | 0 <= i < |w| :: !TrailingBlank(w[i]) && w[i] != '"' && w[i] != '#'
  }

  /** The words of the field name all flags it may hold, and its parser knows them; names of
      methods are clean; the default is a value of the field. */
  predicate KindOk(k: Kind)
  {
    && (k.Mask? ==> Known(k.reader, k.words) && forall f | f in k.allowed :: Names(k.words, f))
    && (k.EapList? ==> forall w | w in k.known :: CleanWord(w))
    && Holds(k, Default(k))
  }

  /** The text is read as the value and does not confuse the line reader. */
  ghost predicate Reads(k: Kind, t: string, v: Value)
  {
    Parsed(k, t) == Some(v) && (IsQuoted(t) || IsPlain(t))
  }

  /** The value comes back: by its text, or by the default if the field is left out. */
  ghost predicate Returns(k: Kind, v: Value)
    requires Holds(k, v)
  {
    match Written(k, v)
    case None => v == Default(k)
    case Some(t) => Reads(k, t, v)
  }

  lemma WrittenIsNotNull(s: string)
    requires IsOctets(s)
    ensures WriteString(s) != "NULL" && !("hash:" <= WriteString(s))
  {
    hide ToHex;
    var t := WriteString(s);
    if Printable(s) {
      assert t[0] == '"';
    } else {
      assert |t| > 0 && t[0] != 'N' && t[0] != 'h';
    }
  }

  lemma StrReads(k: Kind, v: Value)
    requires (k.Str? || k.StrLen?) && Holds(k, v) && v.Text?
    ensures Reads(k, WriteString(v.octets), v)
  {
    hide WriteString, ParseString, First, IsQuoted, IsPlain;
    var s := v.octets;
    StringRoundTrip(s);
    WrittenIsNotNull(s);
    if k.Str? {
      assert First(s, 0 as char) == |s|;
      assert s[..|s|] == s;
    }
  }

  lemma IntReads(k: Kind, v: Value)
    requires k.Int? && Holds(k, v)
    ensures Reads(k, Decimal(v.n), v)
  {
    hide Decimal, Atoi;
    DecimalRoundTrip(v.n);
    var d := Decimal(v.n);
    assert d[|d| - 1] != ' ';
  }

  lemma AddressReads(k: Kind, v: Value)
    requires k.Address? && Holds(k, v) && v.Text?
    ensures Reads(k, MacText(v.octets), v)
  {
    hide MacText, ParseMac, IsQuoted, IsPlain;
    MacRoundTrip(v.octets);
    MacPlain(v.octets);
    MacChars(v.octets);
    assert |MacText(v.octets)| == 17;
  }

  lemma QuotedPsk(p: string)
    requires 8 <= |p| <= 63
    ensures ParsePsk(Quote(p)) == Some(Passphrase(p))
  {
    hide Last;
    var rest := Quote(p)[1..];
    assert rest == p + "\"";
    assert rest[|p|] == '"';
    assert Last(rest, '"') == |p|;
    assert rest[..|p|] == p;
  }

  lemma PskReads(k: Kind, v: Value)
    requires k.Psk? && Holds(k, v) && !v.Unset? && OneLine(v)
    ensures Reads(k, Written(k, v).value, v)
  {
    hide ToHex, FromHex, ParsePsk, Quote, Last;
    if v.Passphrase? {
      QuotedPsk(v.phrase);
      QuoteIsQuoted(v.phrase);
    } else {
      RawPsk(v.key);
    }
  }

  lemma RawPsk(key: string)
    requires IsOctets(key) && |key| == PMK_LEN
    ensures ParsePsk(ToHex(key)) == Some(Key(key)) && IsPlain(ToHex(key))
  {
    hide ToHex, FromHex, Last;
    HexRoundTrip(key);
    assert ToHex(key)[0] != '"';
  }

  lemma PasswordReads(k: Kind, v: Value)
    requires k.Password? && Holds(k, v) && !v.Unset?
    ensures Reads(k, Written(k, v).value, v)
  {
    hide WriteString, ParseString, ToHex, FromHex, IsQuoted, IsPlain;
    if v.Text? {
      StringRoundTrip(v.octets);
      WrittenIsNotNull(v.octets);
    } else {
      HashReads(v.hash);
    }
  }

  lemma HashReads(h: string)
    requires IsOctets(h) && |h| == NT_HASH_LEN
    ensures ParsePassword("hash:" + ToHex(h)) == Some(NtHash(h)) && IsPlain("hash:" + ToHex(h))
  {
    hide ToHex, FromHex;
    HexRoundTrip(h);
    var t := "hash:" + ToHex(h);
    assert t[5..] == ToHex(h);
    assert "hash:" <= t;
    assert forall i | 5 <= i < |t| :: t[i] == ToHex(h)[i - 5];
  }

  lemma WepReads(k: Kind, v: Value)
    requires k.WepKey? && Holds(k, v)
    ensures Reads(k, WriteString(v.octets), v)
  {
    hide WriteString, ParseString, IsQuoted, IsPlain;
    StringRoundTrip(v.octets);
  }

  lemma MaskReads(k: Kind, v: Value)
    requires k.Mask? && KindOk(k) && Holds(k, v) && v.flags != {}
    ensures Reads(k, WriteMask(k.words, v.flags), v)
  {
    hide WriteMask, ParseMask, IsQuoted, IsPlain, Known, Names;
    MaskRoundTrip(k.reader, k.words, v.flags);
  }

  /** A value that a field can hold comes back exactly when the writer can say it. */
  lemma ValueRoundTrip(k: Kind, v: Value)
    requires KindOk(k) && Holds(k, v)
    ensures Returns(k, v) <==> Sayable(k, v)
  {
    hide Returns, KindOk, Holds;
    match k {
      case StrLen(_) => StrCase(k, v);
      case Str => StrCase(k, v);
      case Int(_, _) => IntCase(k, v);
      case Address => AddressCase(k, v);
      case Psk => PskCase(k, v);
      case Password => PasswordCase(k, v);
      case WepKey => WepCase(k, v);
      case EapList(_) => EapCase(k, v);
      case FreqList => FreqCase(k, v);
      case Mask(_, _, _, _) => MaskCase(k, v);
    }
  }

  lemma FreqCase(k: Kind, v: Value)
    requires k.FreqList? && Holds(k, v)
    ensures Returns(k, v) <==> Sayable(k, v)
  {
  }

  predicate CleanWords(ws: seq<string>)
  {
    forall i | 0 <= i < |ws| :: CleanWord(ws[i])
  }

  /** A line of clean words: no quotes, comment signs or newlines. */
  predicate CleanText(s: string)
  {
    s != "" && !TrailingBlank(s[0]) && forall i | 0 <= i < |s| :: s[i] != '"' && s[i] != '#' && s[i] != '\n'
  }

  lemma {:induction false} SpacedClean(ws: seq<string>)
    requires ws != [] && CleanWords(ws)
    ensures CleanText(Spaced(ws)) && !TrailingBlank(Spaced(ws)[|Spaced(ws)| - 1])
  {
    if |ws| > 1 {
      SpacedClean(ws[1..]);
      var s, t := Spaced(ws), Spaced(ws[1..]);
      assert s == ws[0] + " " + t;
      assert s[|s| - 1] == t[|t| - 1] && s[0] == ws[0][0];
      forall i | 0 <= i < |s| ensures s[i] != '"' && s[i] != '#' && s[i] != '\n' {
        if i < |ws[0]| {
          assert s[i] == ws[0][i];
        } else if i > |ws[0]| {
          assert s[i] == t[i - |ws[0]| - 1];
        }
      }
    }
  }

  lemma NamesClean(k: Kind, v: Value)
    requires k.EapList? && KindOk(k) && Holds(k, v) && v.Methods?
    ensures CleanWords(v.names)
  {
    hide CleanWord;
  }

  lemma CleanIsWord(ws: seq<string>)
    requires CleanWords(ws)
    ensures forall i | 0 <= i < |ws| :: IsWord(ws[i])
  {
  }

  /** Text that is not longer than the buffer cannot be read as names that do not fit it. */
  lemma CutIsOther(known: set<string>, names: seq<string>, t: string)
    requires |Spaced(names)| > EAP_ROOM >= |t|
    ensures ParseEap(known, t) != Some(Methods(names))
  {
    hide Spaced, CText.Words;
    SpacedNoLonger(t);
  }

  lemma EapReads(k: Kind, v: Value)
    requires k.EapList? && KindOk(k) && Holds(k, v) && v.Methods? && v.names != [] && |Spaced(v.names)| <= EAP_ROOM
    ensures Written(k, v) == Some(Spaced(v.names)) && Reads(k, Spaced(v.names), v)
  {
    hide Spaced, KindOk, CleanWords;
    NamesClean(k, v);
    SpacedClean(v.names);
    CleanIsWord(v.names);
    WordsRoundTrip(v.names);
  }

  lemma EapCase(k: Kind, v: Value)
    requires k.EapList? && KindOk(k) && Holds(k, v)
    ensures Returns(k, v) <==> Sayable(k, v)
  {
    hide Spaced, KindOk, ParseEap, IsQuoted, IsPlain;
    if v.Methods? {
      NoNames();
      if v.names != [] && |Spaced(v.names)| <= EAP_ROOM {
        EapReads(k, v);
      } else if v.names != [] {
        CutIsOther(k.known, v.names, WriteEap(v.names));
      }
    }
  }

  lemma NoNames()
    ensures Spaced([]) == ""
  {
  }

  lemma StrCase(k: Kind, v: Value)
    requires (k.Str? || k.StrLen?) && Holds(k, v)
    ensures Returns(k, v)
  {
    hide Reads, WriteString;
    if v.Text? {
      StrReads(k, v);
    }
  }

  lemma IntCase(k: Kind, v: Value)
    requires k.Int? && Holds(k, v)
    ensures Returns(k, v)
  {
    hide Reads, Decimal;
    IntReads(k, v);
  }

  lemma AddressCase(k: Kind, v: Value)
    requires k.Address? && Holds(k, v)
    ensures Returns(k, v)
  {
    hide Reads, MacText;
    if v.Text? {
      AddressReads(k, v);
    }
  }

  lemma PskCase(k: Kind, v: Value)
    requires k.Psk? && Holds(k, v)
    ensures Returns(k, v) <==> Sayable(k, v)
  {
    hide Reads, ToHex;
    if OneLine(v) {
      if !v.Unset? {
        PskReads(k, v);
      }
    } else {
      NewlineUnread(k, v);
    }
  }

  /** A passphrase with a newline makes two lines. */
  lemma NewlineUnread(k: Kind, v: Value)
    requires k.Psk? && Holds(k, v) && !OneLine(v)
    ensures Written(k, v) == Some(Quote(v.phrase)) && !Reads(k, Quote(v.phrase), v)
  {
    var i :| 0 <= i < |v.phrase| && v.phrase[i] == '\n';
    assert Quote(v.phrase)[i + 1] == '\n';
  }

  lemma PasswordCase(k: Kind, v: Value)
    requires k.Password? && Holds(k, v)
    ensures Returns(k, v)
  {
    hide Reads, ToHex, WriteString;
    if !v.Unset? {
      PasswordReads(k, v);
    }
  }

  lemma WepCase(k: Kind, v: Value)
    requires k.WepKey? && Holds(k, v)
    ensures Returns(k, v)
  {
    hide Reads, WriteString;
    WepReads(k, v);
  }

  lemma {:induction false} NothingChosen(t: Words)
    ensures WriteMask(t, {}) == ""
  {
    if t.Word? {
      NothingChosen(t.more);
      assert Chosen(t, {}) == [] + Chosen(t.more, {}) == Chosen(t.more, {});
    }
  }

  lemma MaskCase(k: Kind, v: Value)
    requires k.Mask? && KindOk(k) && Holds(k, v)
    ensures Returns(k, v) <==> Sayable(k, v)
  {
    hide KindOk, WriteMask;
    if v.flags == {} {
      NothingChosen(k.words);
    } else {
      MaskReads(k, v);
    }
  }

  // ---- Through the line reader ----

  /** The value that is read for a written field; None if the line is an error. */
  function Received(k: Kind, v: Value): Option<Value>
    requires Holds(k, v)
  {
    match Written(k, v)
    case None => Some(Default(k))
    case Some(t) => Parsed(k, LineText(t))
  }

  lemma {:induction false} TrimmedShorter(s: string)
    ensures |Trimmed(s)| <= |s|
  {
    if |s| > 1 {
      TrimmedShorter(s[..|s| - 1]);
    }
  }

  /** Names that do not fit the buffer: the line is good, but says something else. */
  lemma EapCut(k: Kind, v: Value)
    requires k.EapList? && KindOk(k) && Holds(k, v) && v.Methods? && |Spaced(v.names)| > EAP_ROOM
    ensures Written(k, v).Some? && LineSafe(Written(k, v).value) && Received(k, v) != Some(v)
  {
    hide Spaced, KindOk, ParseEap, Trimmed, CleanWords;
    NoNames();
    NamesClean(k, v);
    SpacedClean(v.names);
    var t := WriteEap(v.names);
    assert t[0] == Spaced(v.names)[0];
    assert forall i | 0 <= i < |t| :: t[i] == Spaced(v.names)[i];
    TrimmedShorter(t);
    CutIsOther(k.known, v.names, LineText(t));
  }

  /** A value without a newline takes one line, which gives it back exactly if the writer can
      say it. */
  lemma ReceivedIff(k: Kind, v: Value)
    requires KindOk(k) && Holds(k, v) && OneLine(v)
    ensures Written(k, v).Some? ==> LineSafe(Written(k, v).value)
    ensures Received(k, v) == Some(v) <==> Sayable(k, v)
  {
    hide KindOk, Holds, Written, Parsed, LineSafe, LineText, IsQuoted, IsPlain, Default;
    ValueRoundTrip(k, v);
    if Sayable(k, v) {
      if Written(k, v).Some? {
        PlainIsSafe(Written(k, v).value);
      }
    } else if k.EapList? {
      UnsaidEap(k, v);
    } else if k.Mask? {
      UnsaidMask(k, v);
    } else {
      UnsaidFreqs(k, v);
    }
  }

  lemma UnsaidEap(k: Kind, v: Value)
    requires k.EapList? && KindOk(k) && Holds(k, v) && !Sayable(k, v)
    ensures Written(k, v).Some? ==> LineSafe(Written(k, v).value)
    ensures Received(k, v) != Some(v)
  {
    hide Spaced, KindOk, Parsed, LineSafe;
    NoNames();
    if v.names != [] {
      EapCut(k, v);
    }
  }

  lemma UnsaidFreqs(k: Kind, v: Value)
    requires !k.EapList? && !k.Mask? && Holds(k, v) && !Sayable(k, v) && OneLine(v)
    ensures Written(k, v).None? && Received(k, v) != Some(v)
  {
  }

  lemma UnsaidMask(k: Kind, v: Value)
    requires k.Mask? && Holds(k, v) && !Sayable(k, v)
    ensures Written(k, v).None? && Received(k, v) != Some(v)
  {
    hide WriteMask;
    NothingChosen(k.words);
  }
}
