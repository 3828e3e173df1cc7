/** What the reader of network blocks makes of any text: the value of a field is what the last
    line with its name says (config_file.c, wpa_config_read_network; config.c, wpa_config_set). */
module ConfigReader {
  import opened Octets
  import opened CText
  import opened ConfigLine
  import opened ConfigValue
  import opened ConfigField
  import opened ConfigBlock
  import opened ConfigTable
  import opened ConfigFile
  import opened Networks

  // ---- Masks ----

  /** A mask is read exactly from one or more words that are all known; it holds the flags of
      those words and no others. */
  lemma MaskIff(t: ConfigValue.Words, v: string, m: set<Flag>)
    ensures ParseMask(t, v) == Some(m) <==>
      && CText.Words(v) != []
      && (forall w | w in CText.Words(v) :: FlagOf(t, w).Some?)
      && m == set w | w in CText.Words(v) :: FlagOf(t, w).value
  {
    hide CText.Words, FlagOf;
    GatheredIff(t, CText.Words(v));
    if CText.Words(v) != [] {
      assert CText.Words(v)[0] in CText.Words(v);
    }
  }

  lemma {:induction false} GatheredIff(t: ConfigValue.Words, ws: seq<string>)
    ensures Gathered(t, ws).Some? <==> forall w | w in ws :: FlagOf(t, w).Some?
    ensures Gathered(t, ws).Some? ==> Gathered(t, ws).value == set w | w in ws :: FlagOf(t, w).value
    ensures ws != [] && Gathered(t, ws).Some? ==> Gathered(t, ws).value != {}
  {
    hide FlagOf;
    if ws != [] {
      GatheredIff(t, ws[1..]);
      assert ws[0] in ws && forall w | w in ws :: w == ws[0] || w in ws[1..];
      assert forall w | w in ws[1..] :: w in ws;
      if Gathered(t, ws).Some? {
        var m := Gathered(t, ws).value;
        assert forall f | f in m :: f == FlagOf(t, ws[0]).value || f in Gathered(t, ws[1..]).value;
      }
    }
  }

  // ---- Values ----

  lemma {:induction false} FromHexOctets(s: string)
    requires |s| % 2 == 0 && FromHex(s).Some?
    ensures IsOctets(FromHex(s).value) && 2 * |FromHex(s).value| == |s|
  {
    if s != "" {
      FromHexOctets(s[2..]);
    }
  }

  lemma {:induction false} ParseMacOctets(t: string, n: nat)
    requires ParseMac(t, n).Some?
    ensures IsOctets(ParseMac(t, n).value) && |ParseMac(t, n).value| == n
    decreases n
  {
    if n > 0 {
      ParseMacOctets(if n > 1 then t[3..] else "", n - 1);
    }
  }

  lemma ParseStringOctets(v: string)
    requires IsOctets(v) && ParseString(v).Some?
    ensures IsOctets(ParseString(v).value)
  {
    hide FromHex, Last;
    if !(v != "" && v[0] == '"') {
      FromHexOctets(v);
    }
  }

  /** Whatever is accepted for a field is a value that the field can hold. */
  lemma ParsedHolds(k: Kind, t: string)
    requires IsOctets(t) && Parsed(k, t).Some?
    ensures Holds(k, Parsed(k, t).value)
  {
    hide Parsed, IsOctets;
    match k {
      case StrLen(_) => StrHolds(k, t);
      case Str => StrHolds(k, t);
      case Address => AddressHolds(t);
      case Psk => PskHolds(t);
      case Password => PasswordHolds(t);
      case WepKey => WepHolds(t);
      case _ => OtherHolds(k, t);
    }
  }

  lemma StrHolds(k: Kind, t: string)
    requires (k.Str? || k.StrLen?) && IsOctets(t) && Parsed(k, t).Some?
    ensures Holds(k, Parsed(k, t).value)
  {
    hide ParseString, First;
    if t != "NULL" {
      ParseStringOctets(t);
    }
  }

  lemma AddressHolds(t: string)
    requires Parsed(Address, t).Some?
    ensures Holds(Address, Parsed(Address, t).value)
  {
    hide ParseMac;
    if ParseMac(t, ETH_ALEN).Some? {
      ParseMacOctets(t, ETH_ALEN);
    }
  }

  lemma PskHolds(t: string)
    requires Parsed(Psk, t).Some?
    ensures Holds(Psk, Parsed(Psk, t).value)
  {
    hide FromHex, Last;
    if !(t != "" && t[0] == '"') {
      FromHexOctets(t);
    }
  }

  lemma PasswordHolds(t: string)
    requires IsOctets(t) && Parsed(Password, t).Some?
    ensures Holds(Password, Parsed(Password, t).value)
  {
    hide FromHex, ParseString;
    if "hash:" <= t {
      FromHexOctets(t[5..]);
    } else if t != "NULL" {
      ParseStringOctets(t);
    }
  }

  lemma WepHolds(t: string)
    requires IsOctets(t) && Parsed(WepKey, t).Some?
    ensures Holds(WepKey, Parsed(WepKey, t).value)
  {
    hide ParseString;
    ParseStringOctets(t);
  }

  lemma OtherHolds(k: Kind, t: string)
    requires (k.Int? || k.EapList? || k.FreqList? || k.Mask?) && Parsed(k, t).Some?
    ensures Holds(k, Parsed(k, t).value)
  {
    hide Atoi, ParseMask, CText.Words, ParseFreqs;
  }

  // ---- Lines ----

  /** The lines of a block, whether a closing line ends them, and the text behind it. */
  datatype Lines = Lines(lines: seq<string>, closed: bool, rest: string)

  function LinesOf(text: string): Lines
    decreases |text|
  {
    var (line, rest) := NextLine(text);
    if line.None? then Lines([], false, rest)
    else if line.value == "}" then Lines([], true, rest)
    else
      var more := LinesOf(rest);
      more.(lines := [line.value] + more.lines)
  }

  /** A double quote at the start has a partner. */
  predicate QuoteEnds(t: string)
  {
    t != "" && t[0] == '"' ==> exists j | 0 < j < |t| :: t[j] == '"'
  }

  /** What a line says about a field, None if it is about another one or an error. */
  function Says(f: Field, l: string): Option<Value>
  {
    if f.name + "=" <= l && QuoteEnds(l[|f.name| + 1..]) then Parsed(f.kind, l[|f.name| + 1..]) else None
  }

  /** What the last line about the field says. */
  function Said(f: Field, ls: seq<string>, v: Value): Value
  {
    if ls == [] then v
    else Said(f, ls[1..], if Says(f, ls[0]).Some? then Says(f, ls[0]).value else v)
  }

  /** The last line that says something about a field decides; without one, the value stays. */
  lemma {:induction false} LastDecides(f: Field, ls: seq<string>, v: Value)
    ensures forall j | 0 <= j < |ls| && Says(f, ls[j]).Some? && (forall m | j < m < |ls| :: Says(f, ls[m]).None?) ::
      Said(f, ls, v) == Says(f, ls[j]).value
    ensures (forall j | 0 <= j < |ls| :: Says(f, ls[j]).None?) ==> Said(f, ls, v) == v
  {
    hide Says;
    if ls != [] {
      var w := if Says(f, ls[0]).Some? then Says(f, ls[0]).value else v;
      LastDecides(f, ls[1..], w);
      assert forall j | 1 <= j < |ls| :: ls[1..][j - 1] == ls[j];
    }
  }

  /** Some field takes the line. */
  ghost predicate Understood(table: seq<Field>, l: string)
  {
    exists i | 0 <= i < |table| :: Says(table[i], l).Some?
  }

  lemma NameBefore(n: string, l: string)
    requires IsName(n)
    ensures n + "=" <= l <==> First(l, '=') < |l| && l[..First(l, '=')] == n
  {
    hide First;
    var e := First(l, '=');
    if n + "=" <= l {
      assert l[|n|] == '=' && forall i | 0 <= i < |n| :: l[i] == n[i] != '=';
      assert e == |n|;
    }
    if e < |l| && l[..e] == n {
      assert l[..e + 1] == n + "=";
    }
  }

  lemma QuoteEndsIff(t: string)
    ensures QuoteEnds(t) <==> !(t != "" && t[0] == '"' && First(t[1..], '"') == |t| - 1)
  {
    hide First;
    if t != "" && t[0] == '"' {
      var e := First(t[1..], '"');
      if e < |t| - 1 {
        assert t[e + 1] == '"';
      } else {
        forall j | 0 < j < |t| ensures t[j] != '"' {
          assert t[j] == t[1..][j - 1];
        }
      }
    }
  }

  lemma NameOf(table: seq<Field>, i: nat)
    requires TableOk(table) && i < |table|
    ensures IsName(table[i].name) && forall j | 0 <= j < |table| && j != i :: table[j].name != table[i].name
  {
    hide KindOk, IsName;
  }

  /** A line sets the field it is about and no other; it is an error if no field takes it. */
  lemma LineEffect(table: seq<Field>, b: Block, l: string)
    requires TableOk(table) && |b| == |table|
    ensures SetLine(table, b, l).Some? <==> Understood(table, l)
    ensures SetLine(table, b, l).None? ==> forall i | 0 <= i < |table| :: Says(table[i], l).None?
    ensures SetLine(table, b, l).Some? ==> forall i | 0 <= i < |table| ::
      SetLine(table, b, l).value[i] == if Says(table[i], l).Some? then Says(table[i], l).value else b[i]
  {
    hide TableOk, First, Position, Parsed, QuoteEnds, IsName, Says;
    var e := First(l, '=');
    var p := if e < |l| then Position(table, l[..e]) else |table|;
    forall i | 0 <= i < |table| && i != p ensures Says(table[i], l).None? {
      NotAbout(table, i, p, l);
    }
    if p < |table| {
      About(table, p, l);
    }
  }

  lemma NotAbout(table: seq<Field>, i: nat, p: nat, l: string)
    requires TableOk(table) && i < |table| && i != p
    requires var e := First(l, '='); p == if e < |l| then Position(table, l[..e]) else |table|
    ensures Says(table[i], l).None?
  {
    hide TableOk, First, Position, Parsed, QuoteEnds, IsName;
    NameOf(table, i);
    NameBefore(table[i].name, l);
  }

  lemma About(table: seq<Field>, p: nat, l: string)
    requires TableOk(table) && p < |table|
    requires var e := First(l, '='); e < |l| && l[..e] == table[p].name
    ensures var v := l[First(l, '=') + 1..];
      Says(table[p], l) ==
        if v != "" && v[0] == '"' && First(v[1..], '"') == |v| - 1 then None else Parsed(table[p].kind, v)
  {
    hide TableOk, First, Parsed, QuoteEnds, IsName;
    NameOf(table, p);
    NameBefore(table[p].name, l);
    QuoteEndsIff(l[First(l, '=') + 1..]);
  }

  /** Reading the lines of a block: every field ends up with what its last line says, and the
      block is good exactly if every line was taken by some field. */
  lemma {:induction false} LinesEffect(table: seq<Field>, text: string, b: Block, good: bool)
    requires TableOk(table) && |b| == |table|
    ensures var r, ls := ReadLines(table, text, b, good), LinesOf(text);
      && r.closed == ls.closed && r.rest == ls.rest
      && (r.good <==> good && forall j | 0 <= j < |ls.lines| :: Understood(table, ls.lines[j]))
      && forall i | 0 <= i < |table| :: r.block[i] == Said(table[i], ls.lines, b[i])
    decreases |text|
  {
    hide NextLine, SetLine, TableOk, Says, Understood;
    var (line, rest) := NextLine(text);
    if line.Some? && line.value != "}" {
      var l, more := line.value, LinesOf(rest).lines;
      LineEffect(table, b, l);
      assert LinesOf(text).lines == [l] + more;
      assert ([l] + more)[1..] == more;
      assert forall j | 0 < j < |more| + 1 :: ([l] + more)[j] == more[j - 1];
      match SetLine(table, b, l) {
        case None =>
          LinesEffect(table, rest, b, false);
          assert !Understood(table, ([l] + more)[0]);
        case Some(c) =>
          LinesEffect(table, rest, c, good);
      }
    }
  }

  // ---- Octets ----

  lemma CleanOctets(raw: string)
    requires IsOctets(raw) && Clean(raw).Some?
    ensures IsOctets(Clean(raw).value)
  {
    hide Trimmed, CommentFrom, First;
    var s := raw[Lead(raw)..];
    var u := Uncommented(s);
    var from := CommentFrom(s);
    assert u == s[..|u|] by { assert s[from..][..First(s[from..], '#')] == s[from..|u|]; }
    TrimmedIsPrefix(u);
    var c := Clean(raw).value;
    forall i | 0 <= i < |c| ensures c[i] as int < 256 {
      assert c[i] == u[i] == s[i] == raw[Lead(raw) + i];
    }
  }

  lemma {:induction false} NextLineOctets(text: string)
    requires IsOctets(text)
    ensures IsOctets(NextLine(text).1) && (NextLine(text).0.Some? ==> IsOctets(NextLine(text).0.value))
    decreases |text|
  {
    hide Clean, First;
    if text != "" {
      var n := Fgets(text);
      if Clean(text[..n]).None? {
        NextLineOctets(text[n..]);
      } else {
        CleanOctets(text[..n]);
      }
    }
  }

  lemma {:induction false} LinesOctets(text: string)
    requires IsOctets(text)
    ensures IsOctets(LinesOf(text).rest)
    ensures forall j | 0 <= j < |LinesOf(text).lines| :: IsOctets(LinesOf(text).lines[j])
    decreases |text|
  {
    hide NextLine, IsOctets;
    var (line, rest) := NextLine(text);
    NextLineOctets(text);
    if line.Some? && line.value != "}" {
      LinesOctets(rest);
    }
  }

  lemma {:induction false} SaidHolds(f: Field, ls: seq<string>, v: Value)
    requires Holds(f.kind, v) && forall j | 0 <= j < |ls| :: IsOctets(ls[j])
    ensures Holds(f.kind, Said(f, ls, v))
  {
    hide Parsed, Holds, QuoteEnds;
    if ls != [] {
      var w := if Says(f, ls[0]).Some? then Says(f, ls[0]).value else v;
      assert Holds(f.kind, w) by {
        if Says(f, ls[0]).Some? {
          ParsedHolds(f.kind, ls[0][|f.name| + 1..]);
        }
      }
      SaidHolds(f, ls[1..], w);
    }
  }

  lemma {:induction false} SaidFlags(f: Field, ls: seq<string>, v: Value)
    requires f.kind.Mask? && v.Flags?
    ensures Said(f, ls, v).Flags?
  {
    hide QuoteEnds, ParseMask;
    if ls != [] {
      SaidFlags(f, ls[1..], if Says(f, ls[0]).Some? then Says(f, ls[0]).value else v);
    }
  }

  // ---- One block ----

  /** The value that a text gives to a field of a block. */
  function SaidOf(i: nat, text: string): Value
    requires i < |Table()|
  {
    Said(Table()[i], LinesOf(text).lines, Default(Table()[i].kind))
  }

  lemma MasksSaid(text: string)
    ensures SaidOf(KEY_MGMT, text).Flags? && SaidOf(PAIRWISE, text).Flags? && SaidOf(GROUP, text).Flags?
  {
    hide Table, LinesOf, Said;
    NamedRows();
    forall i | i == KEY_MGMT || i == PAIRWISE || i == GROUP ensures SaidOf(i, text).Flags? {
      SaidFlags(Table()[i], LinesOf(text).lines, Default(Table()[i].kind));
    }
  }

  /** A block is accepted exactly if it is closed, every line sets some field, and there is a
      key if WPA-PSK is allowed. Its fields are as their last lines say, without CCMP for
      groups where neither CCMP nor no cipher at all is allowed for pairs. */
  lemma NetworkFromText(text: string)
    ensures var ls := LinesOf(text);
      && ReadNetwork(text).1 == ls.rest
      && SaidOf(KEY_MGMT, text).Flags? && SaidOf(PAIRWISE, text).Flags? && SaidOf(GROUP, text).Flags?
      && (ReadNetwork(text).0.Some? <==>
        && ls.closed
        && (forall j | 0 <= j < |ls.lines| :: Understood(Table(), ls.lines[j]))
        && (K(WpaPsk) in SaidOf(KEY_MGMT, text).flags ==> !SaidOf(PSK, text).Unset?))
    ensures ReadNetwork(text).0.Some? ==>
      var b, pairs, groups := ReadNetwork(text).0.value, SaidOf(PAIRWISE, text).flags, SaidOf(GROUP, text).flags;
      && |b| == |Table()|
      && b[GROUP] == Flags(if C(Ccmp) in pairs || C(NoCipher) in pairs then groups else groups - {C(Ccmp)})
      && forall i | 0 <= i < |b| && i != GROUP :: b[i] == SaidOf(i, text)
  {
    hide Table, ReadLines, LinesOf, Said, Understood, TableOk, Defaults, Default;
    TableIsOk();
    MasksSaid(text);
    LinesEffect(Table(), text, Defaults(Table()), true);
    var r := ReadLines(Table(), text, Defaults(Table()), true).block;
    assert forall i | 0 <= i < |Table()| :: r[i] == SaidOf(i, text);
  }

  /** Every block that is read holds values of its fields, has a key for WPA-PSK, and allows
      CCMP for groups only with CCMP or no cipher for pairs. */
  ghost predicate Proper(b: Block)
  {
    && Holding(Table(), b)
    && b[KEY_MGMT].Flags? && b[PAIRWISE].Flags? && b[GROUP].Flags?
    && (K(WpaPsk) in b[KEY_MGMT].flags ==> !b[PSK].Unset?)
    && (C(Ccmp) in b[GROUP].flags ==> C(Ccmp) in b[PAIRWISE].flags || C(NoCipher) in b[PAIRWISE].flags)
  }

  lemma AllSaidHold(text: string, i: nat)
    requires IsOctets(text) && i < |Table()|
    ensures Holds(Table()[i].kind, SaidOf(i, text))
  {
    hide Table, LinesOf, Said, IsOctets, Holds, Default;
    LinesOctets(text);
    DefaultsSay(i);
    SaidHolds(Table()[i], LinesOf(text).lines, Default(Table()[i].kind));
  }

  lemma FewerHold(k: Kind, f: set<Flag>, g: set<Flag>)
    requires k.Mask? && Holds(k, Flags(f)) && g <= f
    ensures Holds(k, Flags(g))
  {
  }

  lemma NetworkIsProper(text: string)
    requires IsOctets(text) && ReadNetwork(text).0.Some?
    ensures Proper(ReadNetwork(text).0.value)
  {
    hide Table, ReadNetwork, LinesOf, SaidOf, IsOctets, Holds, Understood;
    NetworkFromText(text);
    NamedRows();
    var b := ReadNetwork(text).0.value;
    forall i | 0 <= i < |b| ensures Holds(Table()[i].kind, b[i]) {
      AllSaidHold(text, i);
      if i == GROUP {
        FewerHold(GroupKind(), SaidOf(GROUP, text).flags, b[GROUP].flags);
      }
    }
  }

  lemma NetworkRest(text: string)
    requires IsOctets(text)
    ensures IsOctets(ReadNetwork(text).1)
  {
    hide Table, ReadNetwork, LinesOf, SaidOf, IsOctets, Understood;
    NetworkFromText(text);
    LinesOctets(text);
  }

  /** Whatever the file, all networks that are read from it are proper. */
  lemma {:induction false} AllProper(known: string -> bool, text: string)
    requires IsOctets(text) && ReadNetworks(known, text).Some?
    ensures forall i | 0 <= i < |ReadNetworks(known, text).value| :: Proper(ReadNetworks(known, text).value[i])
    decreases |text|
  {
    hide NextLine, ReadNetwork, IsOctets, Proper;
    NextLineOctets(text);
    var (line, rest) := NextLine(text);
    if line.Some? {
      if line.value == "network={" {
        NetworkIsProper(rest);
        NetworkRest(rest);
        AllProper(known, ReadNetwork(rest).1);
      } else {
        AllProper(known, rest);
      }
    }
  }

  // ---- A mask that validation empties ----

  /** A block with CCMP alone for groups and neither CCMP nor no cipher for pairs is read with
      no group cipher at all. Saved and read once more, it has all group ciphers but CCMP. */
  lemma GroupWidens(b: Block, rest: string)
    requires Holding(Table(), b) && LinesFit(Table(), b) && Told(Table(), b) && !PskMissing(b)
    requires b[GROUP] == Flags({C(Ccmp)}) && GroupTooStrong(b)
    ensures var none := b[GROUP := Flags({})];
      && Holding(Table(), none)
      && ReadNetwork(WriteNetwork(b) + "}\n" + rest) == (Some(none), rest)
      && ReadNetwork(WriteNetwork(none) + "}\n" + rest)
        == (Some(b[GROUP := Flags({C(Tkip), C(Wep104), C(Wep40)})]), rest)
  {
    hide Table, ReadNetwork, WriteNetwork, Told, Got, GoodFrom, LinesFit, TableOk, OneLineEach, Holds;
    ToldOneLine(b);
    TableIsOk();
    ToldIff(Table(), b);
    NetworkGot(b, rest);
    assert {C(Ccmp)} - {C(Ccmp)} == {};
    EmptyGroupGot(b);
    var none := b[GROUP := Flags({})];
    NetworkGot(none, rest);
    var d := Default(GroupKind()).flags;
    assert d - {C(Ccmp)} == {C(Tkip), C(Wep104), C(Wep40)};
    assert Got(Table(), none)[GROUP := Flags(d - {C(Ccmp)})] == b[GROUP := Flags(d - {C(Ccmp)})];
  }

  lemma EmptyGroupGot(b: Block)
    requires Holding(Table(), b) && LinesFit(Table(), b) && OneLineEach(b)
    requires GoodFrom(Table(), b, 0) && Got(Table(), b) == b
    ensures var none := b[GROUP := Flags({})];
      && Holding(Table(), none) && LinesFit(Table(), none) && OneLineEach(none)
      && GoodFrom(Table(), none, 0) && Got(Table(), none) == b[GROUP := Default(GroupKind())]
  {
    hide Table, Got, GoodFrom, Received, Written, OneLine, Default, Holds;
    NamedRows();
    var none := b[GROUP := Flags({})];
    EmptyGroup();
    FlagsOneLine({});
    assert Holding(Table(), none);
    GoodIff(Table(), b, 0);
    GoodIff(Table(), none, 0);
  }

  lemma EmptyGroup()
    ensures Holds(GroupKind(), Flags({})) && Written(GroupKind(), Flags({})).None?
    ensures Received(GroupKind(), Flags({})) == Some(Default(GroupKind()))
  {
    hide WriteMask;
    NothingChosen(GroupKind().words);
  }

  // ---- Strings and numbers ----

  /** A string is written in quotes exactly if all its octets are printable ASCII, otherwise as
      hexadecimal digits. */
  lemma QuotedIff(s: string)
    requires IsOctets(s)
    ensures WriteString(s) == if forall i | 0 <= i < |s| :: ' ' <= s[i] <= '~' then "\"" + s + "\"" else ToHex(s)
  {
  }

  /** Numbers with a space in front of each. */
  function FreqText(fs: seq<int>): (t: string)
    ensures t == "" || t[0] == ' '
  {
    if fs == [] then "" else " " + Decimal(fs[0]) + FreqText(fs[1..])
  }

  lemma OneFreq(f: int, t: string)
    requires f != 0 && (t == "" || t[0] == ' ')
    ensures ParseFreqs(" " + Decimal(f) + t) == [f] + ParseFreqs(t)
  {
    hide Decimal, Atoi, First;
    var d := Decimal(f);
    var u := d + t;
    assert (" " + d + t)[1..] == u && u[0] == d[0];
    AtoiReads("", f, t);
    assert "" + d + t == u;
    var e := First(u[1..], ' ');
    assert forall i | 0 <= i < |d| - 1 :: u[1..][i] == d[i + 1];
    if t != "" {
      assert u[1..][|d| - 1] == t[0];
    }
    assert e == |d| - 1;
    assert u[1 + e..] == t;
    NoFreqs();
  }

  lemma NoFreqs()
    ensures ParseFreqs("") == []
  {
  }

  /** A list of frequencies is read number by number. */
  lemma {:induction false} FreqsRead(fs: seq<int>, t: string)
    requires (forall i | 0 <= i < |fs| :: fs[i] != 0) && (t == "" || t[0] == ' ')
    ensures ParseFreqs(FreqText(fs) + t) == fs + ParseFreqs(t)
  {
    hide ParseFreqs, Decimal, FreqText;
    FreqTextIs(fs, t);
    if fs == [] {
      assert fs + ParseFreqs(t) == ParseFreqs(t);
    } else {
      FreqsRead(fs[1..], t);
      OneFreq(fs[0], FreqText(fs[1..]) + t);
      assert fs + ParseFreqs(t) == [fs[0]] + (fs[1..] + ParseFreqs(t));
    }
  }

  lemma FreqTextIs(fs: seq<int>, t: string)
    ensures FreqText(fs) + t == if fs == [] then t else " " + Decimal(fs[0]) + (FreqText(fs[1..]) + t)
  {
    hide Decimal;
  }

  /** It ends at a zero, or at the end of the text. */
  lemma {:induction false} FreqsEnd(w: string, t: string)
    requires (forall i | 0 <= i < |w| :: w[i] == ' ') && (t == "" || !('0' <= t[0] <= '9'))
    ensures ParseFreqs(w) == [] && ParseFreqs(w + "0" + t) == []
  {
    hide Atoi;
    var s := w + "0" + t;
    if w == "" {
      assert Digits(0) == "0";
      AtoiReads("", 0, t);
      assert "" + Decimal(0) + t == s;
    } else {
      FreqsEnd(w[1..], t);
      assert s[1..] == w[1..] + "0" + t;
    }
  }
}
