/** Parsers and writers of network block values (config.c), each pair with its round trip. */
module ConfigValue {
  import opened Octets
  import opened CText
  import opened ConfigLine
  import opened Networks

  // ---- Strings ----

  /** !is_hex: all octets can stand in a quoted string. */
  predicate Printable(s: string)
  {
    forall i | 0 <= i < |s| :: 32 <= s[i] as int < 127
  }

  function Quote(s: string): string
  {
    "\"" + s + "\""
  }

  /** wpa_config_write_string */
  function WriteString(s: string): string
    requires IsOctets(s)
  {
    if Printable(s) then Quote(s) else ToHex(s)
  }

  /** wpa_config_parse_string */
  function ParseString(v: string): Option<string>
  {
    if v != "" && v[0] == '"' then
      var rest := v[1..];
      var l := Last(rest, '"');
      if l + 1 != |rest| then None else Some(rest[..l])
    else if |v| % 2 != 0 then None
    else FromHex(v)
  }

  lemma QuoteRoundTrip(s: string)
    ensures ParseString(Quote(s)) == Some(s)
  {
    hide Last;
    var rest := Quote(s)[1..];
    assert rest == s + "\"";
    assert rest[|s|] == '"';
    assert Last(rest, '"') == |s|;
    assert rest[..|s|] == s;
  }

  lemma QuoteIsQuoted(s: string)
    requires forall i | 0 <= i < |s| :: s[i] != '\n'
    ensures IsQuoted(Quote(s))
  {
    assert forall i | 0 < i < |s| + 1 :: Quote(s)[i] == s[i - 1];
  }

  lemma HexString(s: string)
    requires IsOctets(s) && s != ""
    ensures ParseString(ToHex(s)) == Some(s) && IsPlain(ToHex(s))
  {
    hide ToHex, FromHex;
    HexRoundTrip(s);
  }

  /** Any octets written as a string are read back. */
  lemma StringRoundTrip(s: string)
    requires IsOctets(s)
    ensures ParseString(WriteString(s)) == Some(s)
    ensures IsQuoted(WriteString(s)) || IsPlain(WriteString(s))
  {
    hide ParseString, ToHex, Quote, IsPlain, IsQuoted;
    if Printable(s) {
      QuoteRoundTrip(s);
      QuoteIsQuoted(s);
    } else {
      HexString(s);
    }
  }

  // ---- Masks ----

  datatype AuthAlg = Open | Shared | Leap

  datatype Flag = P(proto: Proto) | K(mgmt: KeyMgmt) | C(cipher: Cipher) | A(alg: AuthAlg)

  /** Flags and their words in the configuration file. */
  datatype Words = NoWords | Word(flag: Flag, text: string, more: Words)

  /** The words of the flags that are set, in table order. */
  function Chosen(t: Words, m: set<Flag>): seq<string>
  {
    if t.NoWords? then []
    else (if t.flag in m then [t.text] else []) + Chosen(t.more, m)
  }

  /** wpa_config_write_cipher, _proto, _key_mgmt, _auth_alg */
  function WriteMask(t: Words, m: set<Flag>): string
  {
    Spaced(Chosen(t, m))
  }

  function FlagOf(t: Words, w: string): Option<Flag>
  {
    match t
    case NoWords => None
    case Word(flag, text, more) => if text == w then Some(flag) else FlagOf(more, w)
  }

  function Gathered(t: Words, ws: seq<string>): Option<set<Flag>>
  {
    if ws == [] then Some({})
    else
      var f, rest := FlagOf(t, ws[0]), Gathered(t, ws[1..]);
      if f.Some? && rest.Some? then Some({f.value} + rest.value) else None
  }

  /** wpa_config_parse_cipher, _proto, _key_mgmt, _auth_alg: unknown words and an empty
      mask are errors. */
  function ParseMask(t: Words, v: string): Option<set<Flag>>
  {
    var m := Gathered(t, CText.Words(v));
    if m.Some? && m.value != {} then m else None
  }

  /** The table has a word for the flag. */
  predicate Names(t: Words, f: Flag)
  {
    t.Word? && (t.flag == f || Names(t.more, f))
  }

  /** Letters, digits and hyphens from position i on. */
  predicate Token(w: string, i: nat)
    decreases |w| - i
  {
    i < |w| ==> ('A' <= w[i] <= 'Z' || '0' <= w[i] <= '9' || w[i] == '-') && Token(w, i + 1)
  }

  /** The reader's table finds every word of the writer's table. */
  predicate Known(reader: Words, t: Words)
  {
    match t
    case NoWords => true
    case Word(flag, text, more) =>
      text != "" && Token(text, 0) && FlagOf(reader, text) == Some(flag) && Known(reader, more)
  }

  lemma {:induction false} TokenChars(w: string, i: nat, j: nat)
    requires Token(w, i) && i <= j < |w|
    ensures !Blank(w[j]) && !TrailingBlank(w[j]) && w[j] != '"' && w[j] != '#'
    decreases j - i
  {
    if i < j {
      TokenChars(w, i + 1, j);
    }
  }

  lemma TokenIsWord(w: string)
    requires w != "" && Token(w, 0)
    ensures IsWord(w) && IsPlain(w)
  {
    hide Token, Blank, TrailingBlank;
    forall j: nat | j < |w| ensures !Blank(w[j]) && !TrailingBlank(w[j]) && w[j] != '"' && w[j] != '#' {
      TokenChars(w, 0, j);
    }
    assert forall j | 0 <= j < |w| :: w[j] != '\n' by { TrailingBlankIs(); }
  }

  lemma TrailingBlankIs()
    ensures TrailingBlank('\n')
  {
  }

  lemma GatherOne(t: Words, w: string, ws: seq<string>)
    requires FlagOf(t, w).Some? && Gathered(t, ws).Some?
    ensures Gathered(t, [w] + ws) == Some({FlagOf(t, w).value} + Gathered(t, ws).value)
  {
    hide FlagOf;
    assert ([w] + ws)[1..] == ws;
  }

  predicate AllWords(ws: seq<string>)
  {
    forall i | 0 <= i < |ws| :: IsWord(ws[i]) && IsPlain(ws[i])
  }

  lemma {:induction false} ChosenGathered(reader: Words, t: Words, m: set<Flag>)
    requires Known(reader, t)
    ensures AllWords(Chosen(t, m))
    ensures Gathered(reader, Chosen(t, m)).Some?
    ensures forall f :: f in Gathered(reader, Chosen(t, m)).value <==> f in m && Names(t, f)
  {
    hide FlagOf, Gathered, IsWord, IsPlain, Token;
    EmptyGathered(reader);
    if t.Word? {
      ChosenGathered(reader, t.more, m);
      var c := Chosen(t.more, m);
      TokenIsWord(t.text);
      if t.flag in m {
        assert Chosen(t, m) == [t.text] + c;
        GatherOne(reader, t.text, c);
      } else {
        assert Chosen(t, m) == [] + c == c;
      }
    }
  }

  lemma EmptyGathered(t: Words)
    ensures Gathered(t, []) == Some({})
  {
  }

  lemma {:induction false} SpacedPlain(ws: seq<string>)
    requires ws != [] && forall i | 0 <= i < |ws| :: IsPlain(ws[i])
    ensures IsPlain(Spaced(ws))
  {
    if |ws| > 1 {
      SpacedPlain(ws[1..]);
      var s, t := Spaced(ws), Spaced(ws[1..]);
      assert s == ws[0] + " " + t;
      assert s[|s| - 1] == t[|t| - 1];
      forall i | 0 <= i < |s| ensures s[i] != '"' && s[i] != '#' && s[i] != '\n' {
        if i < |ws[0]| {
          assert s[i] == ws[0][i];
        } else if i > |ws[0]| {
          assert s[i] == t[i - |ws[0]| - 1];
        }
      }
    }
  }

  /** A mask with at least one flag, all of them in the table, is read back. */
  lemma MaskRoundTrip(reader: Words, t: Words, m: set<Flag>)
    requires Known(reader, t) && m != {} && forall f | f in m :: Names(t, f)
    ensures ParseMask(reader, WriteMask(t, m)) == Some(m)
    ensures IsPlain(WriteMask(t, m))
  {
    hide Known, Names, Gathered, Chosen, FlagOf, IsWord, IsPlain;
    ChosenGathered(reader, t, m);
    var ws := Chosen(t, m);
    EmptyGathered(reader);
    assert Gathered(reader, ws).value == m;
    WordsRoundTrip(ws);
    SpacedPlain(ws);
  }

  /** Room for all words of a table with a space or the final NUL behind each. */
  function WordRoom(t: Words): nat
  {
    match t
    case NoWords => 0
    case Word(_, text, more) => |text| + 1 + WordRoom(more)
  }

  /** The text of a mask never needs more than that. */
  lemma {:induction false} MaskFits(t: Words, m: set<Flag>)
    ensures if Chosen(t, m) == [] then WriteMask(t, m) == "" else |WriteMask(t, m)| < WordRoom(t)
  {
    if t.Word? {
      MaskFits(t.more, m);
      var c := Chosen(t.more, m);
      if t.flag in m {
        assert Chosen(t, m) == [t.text] + c;
        assert ([t.text] + c)[1..] == c;
      } else {
        assert Chosen(t, m) == [] + c == c;
      }
    }
  }

  // ---- Addresses ----

  /** MACSTR */
  function MacText(a: string): string
    requires IsOctets(a)
  {
    if a == "" then "" else if |a| == 1 then ToHex(a) else ToHex(a[..1]) + ":" + MacText(a[1..])
  }

  /** hwaddr_aton for n octets; text after the last is ignored. */
  function ParseMac(t: string, n: nat): Option<string>
    decreases n
  {
    if n == 0 then Some("")
    else if |t| < 2 then None
    else
      var a, b := HexValue(t[0]), HexValue(t[1]);
      if a.None? || b.None? || (n > 1 && (|t| < 3 || t[2] != ':')) then None
      else
        var rest := ParseMac(if n > 1 then t[3..] else "", n - 1);
        if rest.None? then None else Some([(16 * a.value + b.value) as char] + rest.value)
  }

  lemma HexOne(a: string)
    requires IsOctets(a) && |a| == 1
    ensures |ToHex(a)| == 2
    ensures var x, y := HexValue(ToHex(a)[0]), HexValue(ToHex(a)[1]);
      x.Some? && y.Some? && [(16 * x.value + y.value) as char] == a
  {
    HexRoundTrip(a);
  }

  predicate MacChar(c: char)
  {
    c == ':' || '0' <= c <= '9' || 'a' <= c <= 'f'
  }

  lemma {:induction false} MacChars(a: string)
    requires IsOctets(a) && a != ""
    ensures |MacText(a)| == 3 * |a| - 1
    ensures forall i | 0 <= i < |MacText(a)| :: MacChar(MacText(a)[i])
  {
    hide ToHex;
    if |a| > 1 {
      MacChars(a[1..]);
      var m, h, t := MacText(a), ToHex(a[..1]), MacText(a[1..]);
      assert m == h + ":" + t;
      forall i | 0 <= i < |m| ensures MacChar(m[i]) {
        assert i < 2 ==> m[i] == h[i];
        assert i > 2 ==> m[i] == t[i - 3];
      }
    }
  }

  lemma MacPlain(a: string)
    requires IsOctets(a) && a != ""
    ensures IsPlain(MacText(a))
  {
    hide MacText;
    MacChars(a);
    var m := MacText(a);
    assert MacChar(m[|m| - 1]);
  }

  lemma MacStep(h: string, t: string, n: nat)
    requires |h| == 2 && HexValue(h[0]).Some? && HexValue(h[1]).Some?
    ensures ParseMac(h + ":" + t, n + 2) == (
      match ParseMac(t, n + 1)
      case None => None
      case Some(r) => Some([(16 * HexValue(h[0]).value + HexValue(h[1]).value) as char] + r))
  {
    hide HexValue;
    var m := h + ":" + t;
    assert m[0] == h[0] && m[1] == h[1] && m[2] == ':' && m[3..] == t;
  }

  /** An address is read back. */
  lemma {:induction false} MacRoundTrip(a: string)
    requires IsOctets(a) && a != ""
    ensures ParseMac(MacText(a), |a|) == Some(a)
  {
    hide ToHex, ParseMac, HexValue;
    HexOne(a[..1]);
    if |a| == 1 {
      assert a[..1] == a;
      MacLast(ToHex(a));
    } else {
      MacRoundTrip(a[1..]);
      MacStep(ToHex(a[..1]), MacText(a[1..]), |a| - 2);
      assert a == a[..1] + a[1..];
    }
  }

  lemma MacLast(h: string)
    requires |h| == 2 && HexValue(h[0]).Some? && HexValue(h[1]).Some?
    ensures ParseMac(h, 1) == Some([(16 * HexValue(h[0]).value + HexValue(h[1]).value) as char])
  {
    hide HexValue;
    assert ParseMac("", 0) == Some("");
    var c := (16 * HexValue(h[0]).value + HexValue(h[1]).value) as char;
    assert [c] + "" == [c];
  }
}
