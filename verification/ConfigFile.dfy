/** The network section of the configuration file: validation of a block that was read, the
    choice of blocks that are saved, and what comes back (config_file.c). */
module ConfigFile {
  import opened Octets
  import opened CText
  import opened ConfigLine
  import opened ConfigValue
  import opened ConfigField
  import opened ConfigBlock
  import opened ConfigTable
  import opened Networks

  // Rows of the table that the code names.
  const PSK: nat := 3
  const KEY_MGMT: nat := 5
  const PAIRWISE: nat := 6
  const GROUP: nat := 7

  lemma NamedRows()
    ensures Table()[PSK] == Field("psk", Psk, true)
    ensures Table()[KEY_MGMT] == Field("key_mgmt", KeyMgmtKind(), true)
    ensures Table()[PAIRWISE] == Field("pairwise", PairwiseKind(), true)
    ensures Table()[GROUP] == Field("group", GroupKind(), true)
  {
    hide IdentityFields, InnerFields, EngineFields, LinkFields, KeyMgmtKind, PairwiseKind, GroupKind;
    var c := CommonFields();
    assert Table()[PSK] == c[PSK] && Table()[KEY_MGMT] == c[KEY_MGMT];
    assert Table()[PAIRWISE] == c[PAIRWISE] && Table()[GROUP] == c[GROUP];
  }

  // ---- One block ----

  /** WPA-PSK is accepted but there is no key. */
  predicate PskMissing(b: Block)
    requires |b| == |Table()|
  {
    b[KEY_MGMT].Flags? && K(WpaPsk) in b[KEY_MGMT].flags && b[PSK].Unset?
  }

  /** CCMP for groups without CCMP or no cipher for pairs. */
  predicate GroupTooStrong(b: Block)
    requires |b| == |Table()|
  {
    && b[GROUP].Flags? && b[PAIRWISE].Flags?
    && C(Ccmp) in b[GROUP].flags
    && C(Ccmp) !in b[PAIRWISE].flags && C(NoCipher) !in b[PAIRWISE].flags
  }

  /** What wpa_config_validate_network makes of a block. */
  function Validated(b: Block): (r: Option<Block>)
    requires |b| == |Table()|
  {
    if PskMissing(b) then None
    else if GroupTooStrong(b) then Some(b[GROUP := Flags(b[GROUP].flags - {C(Ccmp)})])
    else Some(b)
  }

  /** wpa_config_read_network */
  function ReadNetwork(text: string): (r: (Option<Block>, string))
    ensures |r.1| <= |text|
  {
    var r := ReadLines(Table(), text, Defaults(Table()), true);
    (if r.good && r.closed then Validated(r.block) else None, r.rest)
  }

  /** wpa_config_write_network */
  function WriteNetwork(b: Block): string
    requires Holding(Table(), b)
  {
    WriteFields(Table(), b, 0)
  }

  /** The file says the whole block and validation leaves it alone. */
  predicate Intact(b: Block)
    requires Holding(Table(), b)
  {
    Told(Table(), b) && !PskMissing(b) && !GroupTooStrong(b)
  }

  lemma ValidatedSame(b: Block)
    requires |b| == |Table()|
    ensures Validated(b) == Some(b) <==> !PskMissing(b) && !GroupTooStrong(b)
  {
    hide Table;
    if GroupTooStrong(b) {
      assert b[GROUP := Flags(b[GROUP].flags - {C(Ccmp)})][GROUP] != b[GROUP];
    }
  }

  /** Group ciphers are read as they were written, unless there are none. */
  predicate GroupBack(g: Value, v: Value)
  {
    if v == Flags({}) then g == Default(GroupKind()) else g == v
  }

  /** Validation only changes the group ciphers, and never the default to none. */
  lemma ValidatedElse(g: Block, b: Block)
    requires |g| == |b| == |Table()| && GroupBack(g[GROUP], b[GROUP]) && Validated(g) == Some(b)
    ensures g == b
  {
    hide Table;
    var d := Default(GroupKind()).flags;
    assert C(Tkip) in d - {C(Ccmp)};
  }

  lemma GroupReturns(b: Block)
    requires Holding(Table(), b) && OneLineEach(b)
    ensures GroupBack(Got(Table(), b)[GROUP], b[GROUP])
  {
    hide Table, Got, TableOk, Received, Holds, OneLine;
    TableIsOk();
    NamedRows();
    TableRow(Table(), GROUP);
    var f := Table()[GROUP];
    assert Holds(f.kind, b[GROUP]);
    OutcomeIff(f, b[GROUP]);
    if b[GROUP] == Flags({}) {
      EmptyMask(f.kind);
    }
  }

  lemma EmptyMask(k: Kind)
    requires k.Mask? && Holds(k, Flags({}))
    ensures Received(k, Flags({})) == Some(Default(k))
  {
    hide WriteMask;
    NothingChosen(k.words);
  }

  lemma TableRow(table: seq<Field>, i: nat)
    requires TableOk(table) && i < |table|
    ensures KindOk(table[i].kind)
  {
  }

  /** What comes back of a block without newlines. */
  lemma NetworkGot(b: Block, rest: string)
    requires Holding(Table(), b) && LinesFit(Table(), b) && OneLineEach(b)
    ensures ReadNetwork(WriteNetwork(b) + "}\n" + rest)
      == (if GoodFrom(Table(), b, 0) then Validated(Got(Table(), b)) else None, rest)
  {
    hide Got, Table, ReadLines, WriteFields, Validated, Holding, LinesFit, TableOk, GoodFrom, OneLineEach, Told, Defaults;
    TableIsOk();
    BlockRoundTrip(Table(), b, rest);
  }

  /** A passphrase with a newline cannot come back from any file. */
  lemma NewlineLost(text: string)
    requires ReadNetwork(text).0.Some?
    ensures OneLineEach(ReadNetwork(text).0.value)
  {
    hide Table, ReadLines, OneLine, Defaults;
    DefaultsOneLine(Table());
    ReadIsOneLine(Table(), text, Defaults(Table()), true);
    FlagsOneLine({});
  }

  lemma FlagsOneLine(f: set<Flag>)
    ensures forall g: set<Flag> :: OneLine(Flags(g))
  {
  }

  /** A block whose lines fit the buffer comes back unchanged exactly when every field that is
      not written has its default, the writer can say all others, there is a key for WPA-PSK
      and the group ciphers are not too strong. */
  lemma NetworkRoundTrip(b: Block, rest: string)
    requires Holding(Table(), b) && LinesFit(Table(), b)
    ensures ReadNetwork(WriteNetwork(b) + "}\n" + rest) == (Some(b), rest) <==> Intact(b)
  {
    hide Got, Table, ReadNetwork, WriteNetwork, Validated, Holding, LinesFit, TableOk, GoodFrom, OneLineEach, Told, PskMissing, GroupTooStrong;
    var text := WriteNetwork(b) + "}\n" + rest;
    GotLength(b);
    if OneLineEach(b) {
      TableIsOk();
      NetworkGot(b, rest);
      ToldIff(Table(), b);
      ValidatedSame(b);
      GroupReturns(b);
      if ReadNetwork(text) == (Some(b), rest) {
        ValidatedElse(Got(Table(), b), b);
      }
    } else {
      if Told(Table(), b) {
        ToldOneLine(b);
      }
      if ReadNetwork(text).0 == Some(b) {
        NewlineLost(text);
      }
    }
  }

  lemma GotLength(b: Block)
    requires Holding(Table(), b)
    ensures |Got(Table(), b)| == |b| == |Table()|
  {
    hide Table, Got;
  }

  /** A block that the file says has no newlines. */
  lemma ToldOneLine(b: Block)
    requires Holding(Table(), b) && Told(Table(), b)
    ensures OneLineEach(b)
  {
    hide Table, Has;
    forall i | 0 <= i < |b| ensures OneLine(b[i]) {
      assert Holds(Table()[i].kind, b[i]);
      DefaultOneLine(Table()[i].kind);
      HoldsOneLine(Table()[i].kind, b[i]);
    }
  }

  lemma DefaultOneLine(k: Kind)
    ensures OneLine(Default(k))
  {
  }

  lemma HoldsOneLine(k: Kind, v: Value)
    requires Holds(k, v) && Sayable(k, v)
    ensures OneLine(v)
  {
    hide Has;
  }

  // ---- Blocks that do not come back ----

  lemma {:induction false} WriteSame(b: Block, i: nat, v: Value, k: nat)
    requires Holding(Table(), b) && i < |b| && !Table()[i].written && Holding(Table(), b[i := v]) && k <= |Table()|
    ensures WriteFields(Table(), b[i := v], k) == WriteFields(Table(), b, k)
    decreases |Table()| - k
  {
    hide Table, Holds, Written;
    if k < |Table()| {
      WriteSame(b, i, v, k + 1);
    }
  }

  /** A field that is not written is lost: whatever it holds, the block comes back without. */
  lemma UnwrittenLost(b: Block, i: nat, v: Value, rest: string)
    requires Holding(Table(), b) && LinesFit(Table(), b) && Intact(b)
    requires i < |b| && !Table()[i].written && Holding(Table(), b[i := v])
    ensures ReadNetwork(WriteNetwork(b[i := v]) + "}\n" + rest) == (Some(b), rest)
  {
    hide Table, ReadNetwork, Intact, LinesFit, Holds;
    WriteSame(b, i, v, 0);
    NetworkRoundTrip(b, rest);
  }

  lemma DefaultSays(k: Kind)
    requires Holds(k, Default(k))
    ensures Sayable(k, Default(k)) && Written(k, Default(k)).None?
  {
  }

  /** A network without encryption, everything else at its default. */
  function PlainBlock(): (b: Block)
    ensures |b| == |Table()|
  {
    Defaults(Table())[KEY_MGMT := Flags({K(NoKeyMgmt)})]
  }

  lemma DefaultsSay(i: nat)
    requires i < |Table()|
    ensures var k := Table()[i].kind; Holds(k, Default(k)) && Sayable(k, Default(k)) && Written(k, Default(k)).None?
  {
    hide Table, Holds, Sayable, Written, Default;
    TableIsOk();
    assert KindOk(Table()[i].kind);
    DefaultSays(Table()[i].kind);
  }

  lemma PlainHolds()
    ensures Holding(Table(), PlainBlock()) && Told(Table(), PlainBlock())
  {
    hide Table, Holds, Sayable, Default, Defaults;
    NamedRows();
    NoneHolds();
    forall i | 0 <= i < |Table()|
      ensures Holds(Table()[i].kind, PlainBlock()[i])
      ensures if Table()[i].written then Sayable(Table()[i].kind, PlainBlock()[i])
        else PlainBlock()[i] == Default(Table()[i].kind)
    {
      DefaultsSay(i);
    }
  }

  lemma NoneHolds()
    ensures Holds(KeyMgmtKind(), Flags({K(NoKeyMgmt)})) && Sayable(KeyMgmtKind(), Flags({K(NoKeyMgmt)}))
    ensures var f := Field("key_mgmt", KeyMgmtKind(), true);
      |FieldText(f, Flags({K(NoKeyMgmt)}))| <= 61
  {
    hide WriteMask, KeyMgmtWords;
    MaskBuffers({K(NoKeyMgmt)});
  }

  lemma PlainFits()
    requires Holding(Table(), PlainBlock())
    ensures LinesFit(Table(), PlainBlock())
  {
    hide Table, Holds, Default, Defaults, Written;
    NamedRows();
    NoneHolds();
    forall i | 0 <= i < |Table()| ensures |FieldText(Table()[i], PlainBlock()[i])| <= ROOM {
      DefaultsSay(i);
    }
  }

  lemma PlainIntact()
    ensures Holding(Table(), PlainBlock()) && Intact(PlainBlock())
  {
    hide Table, Holding, Told, Defaults;
    PlainHolds();
    NamedRows();
    assert PlainBlock()[PAIRWISE] == Default(PairwiseKind());
    assert K(WpaPsk) !in {K(NoKeyMgmt)};
  }

  const MIXED_CELL: nat := 10

  lemma MixedCellRow()
    ensures Table()[MIXED_CELL] == Field("mixed_cell", Int(0, Some(1)), false)
  {
    hide IdentityFields, InnerFields, EngineFields, LinkFields, KeyMgmtKind, PairwiseKind, GroupKind, ProtoKind, AuthAlgKind, EapNames;
    var c := CommonFields();
    assert Table()[MIXED_CELL] == c[MIXED_CELL];
  }

  /** mixed_cell=1 is lost. */
  lemma MixedCellLost(rest: string)
    ensures var b := PlainBlock()[MIXED_CELL := Number(1)];
      && Holding(Table(), b) && b != PlainBlock()
      && ReadNetwork(WriteNetwork(b) + "}\n" + rest) == (Some(PlainBlock()), rest)
  {
    hide Table, ReadNetwork, WriteNetwork, Intact, LinesFit, Defaults;
    MixedCellRow();
    PlainIntact();
    PlainFits();
    var b := PlainBlock()[MIXED_CELL := Number(1)];
    assert PlainBlock()[MIXED_CELL] == Number(0);
    assert b[MIXED_CELL] != PlainBlock()[MIXED_CELL];
    HoldingSet(PlainBlock(), MIXED_CELL, Number(1));
    UnwrittenLost(PlainBlock(), MIXED_CELL, Number(1), rest);
  }

  lemma HoldingSet(b: Block, i: nat, v: Value)
    requires Holding(Table(), b) && i < |b| && Holds(Table()[i].kind, v)
    ensures Holding(Table(), b[i := v])
  {
    hide Table, Holds;
  }

  /** A passphrase with a newline is lost, or worse. */
  lemma NewlinePassphraseLost(rest: string)
    ensures var b := PlainBlock()[PSK := Passphrase("abcd\nefgh")];
      && Holding(Table(), b)
      && ReadNetwork(WriteNetwork(b) + "}\n" + rest).0 != Some(b)
  {
    hide Table, ReadNetwork, WriteNetwork, LinesFit, Defaults, Holds;
    NamedRows();
    PlainIntact();
    var p := "abcd\nefgh";
    assert p[4] == '\n';
    PhraseHolds(p);
    var b := PlainBlock()[PSK := Passphrase(p)];
    HoldingSet(PlainBlock(), PSK, Passphrase(p));
    assert b[PSK] == Passphrase(p) && !OneLine(b[PSK]);
    var text := WriteNetwork(b) + "}\n" + rest;
    if ReadNetwork(text).0 == Some(b) {
      NewlineLost(text);
    }
  }

  lemma PhraseHolds(p: string)
    requires 8 <= |p| <= 63
    ensures Holds(Psk, Passphrase(p))
  {
  }

  const EAP: nat := 9

  lemma EapRow()
    ensures Table()[EAP] == Field("eap", EapList(EapNames()), true)
  {
    hide IdentityFields, InnerFields, EngineFields, LinkFields, KeyMgmtKind, PairwiseKind, GroupKind, ProtoKind, AuthAlgKind, EapNames;
    var c := CommonFields();
    assert Table()[EAP] == c[EAP];
  }

  /** The same word over and over. */
  function Repeated(w: string, n: nat): (ws: seq<string>)
    ensures |ws| == n && forall i | 0 <= i < n :: ws[i] == w
  {
    if n == 0 then [] else [w] + Repeated(w, n - 1)
  }

  lemma {:induction false} RepeatedLength(w: string, n: nat)
    requires n > 0
    ensures |Spaced(Repeated(w, n))| == n * (|w| + 1) - 1
  {
    var ws := Repeated(w, n);
    if n > 1 {
      RepeatedLength(w, n - 1);
      assert ws[1..] == Repeated(w, n - 1);
    }
  }

  /** Nine methods whose names do not fit the buffer of the writer do not come back. */
  lemma ManyMethodsLost(rest: string)
    ensures var b := PlainBlock()[EAP := Methods(Repeated("VENDOR-TEST", 9))];
      && Holding(Table(), b)
      && ReadNetwork(WriteNetwork(b) + "}\n" + rest) != (Some(b), rest)
  {
    hide Table, ReadNetwork, WriteNetwork, Defaults, Repeated, EapNames, Written;
    EapRow();
    PlainIntact();
    PlainFits();
    var ns := Repeated("VENDOR-TEST", 9);
    RepeatedLength("VENDOR-TEST", 9);
    VendorTestKnown();
    assert Holds(EapList(EapNames()), Methods(ns));
    HoldingSet(PlainBlock(), EAP, Methods(ns));
    var b := PlainBlock()[EAP := Methods(ns)];
    EapLineFits(Field("eap", EapList(EapNames()), true), Methods(ns));
    assert LinesFit(Table(), b) by { FitSet(PlainBlock(), EAP, Methods(ns)); }
    NetworkRoundTrip(b, rest);
    assert b[EAP] == Methods(ns) && !Sayable(Table()[EAP].kind, b[EAP]);
  }

  lemma VendorTestKnown()
    ensures "VENDOR-TEST" in EapNames()
  {
  }

  lemma EapLineFits(f: Field, v: Value)
    requires f.kind.EapList? && Holds(f.kind, v) && |f.name| == 3
    ensures |FieldText(f, v)| <= ROOM
  {
    hide Spaced;
  }

  lemma FitSet(b: Block, i: nat, v: Value)
    requires Holding(Table(), b) && LinesFit(Table(), b) && i < |b| && Holding(Table(), b[i := v])
    requires |FieldText(Table()[i], v)| <= ROOM
    ensures LinesFit(Table(), b[i := v])
  {
    hide Table, Holds, FieldText;
  }

  // ---- All blocks ----

  /** A network as it is in memory. */
  datatype Configured = Configured(block: Block, temporary: bool)

  /** wpa_config_write keeps temporary networks, pure WPS networks and networks that need a
      key but have none out of the file. */
  predicate Saved(n: Configured)
    requires |n.block| == |Table()|
  {
    !n.temporary && n.block[KEY_MGMT] != Flags({K(Wps)}) && !PskMissing(n.block)
  }

  predicate AllHold(ns: seq<Configured>)
  {
    forall i | 0 <= i < |ns| :: Holding(Table(), ns[i].block)
  }

  const OPENING := "\nnetwork={\n"

  function WriteNetworks(ns: seq<Configured>): string
    requires AllHold(ns)
  {
    if ns == [] then ""
    else (if Saved(ns[0]) then OPENING + WriteNetwork(ns[0].block) + "}\n" else "") + WriteNetworks(ns[1..])
  }

  lemma {:induction false} WriteBoth(ms: seq<Configured>, ns: seq<Configured>)
    requires AllHold(ms) && AllHold(ns)
    ensures AllHold(ms + ns) && WriteNetworks(ms + ns) == WriteNetworks(ms) + WriteNetworks(ns)
  {
    hide Table, Holds, Saved, WriteNetwork;
    if ms == [] {
      assert ms + ns == ns;
    } else {
      WriteBoth(ms[1..], ns);
      assert (ms + ns)[1..] == ms[1..] + ns;
    }
  }

  /** A network is left out of the file exactly if it is temporary, for WPS alone, or allows
      WPA-PSK without a key; any other has its block between those of its neighbours. */
  lemma InFileIff(ms: seq<Configured>, n: Configured, ns: seq<Configured>)
    requires AllHold(ms) && AllHold(ns) && Holding(Table(), n.block)
    ensures AllHold(ms + [n] + ns)
    ensures var b := n.block;
      WriteNetworks(ms + [n] + ns) ==
        if n.temporary || b[KEY_MGMT] == Flags({K(Wps)}) ||
          (b[KEY_MGMT].Flags? && K(WpaPsk) in b[KEY_MGMT].flags && b[PSK].Unset?)
        then WriteNetworks(ms) + WriteNetworks(ns)
        else WriteNetworks(ms) + ("\nnetwork={\n" + WriteNetwork(b) + "}\n") + WriteNetworks(ns)
  {
    hide Table, Holds, WriteNetwork;
    WriteBoth(ms, [n]);
    WriteBoth(ms + [n], ns);
    var alone := WriteNetworks([n]);
    assert [n][1..] == [];
  }

  /** A list that starts with what came back of a block. */
  function Both(x: Option<Block>, xs: Option<seq<Block>>): Option<seq<Block>>
  {
    if x.Some? && xs.Some? then Some([x.value] + xs.value) else None
  }

  /** The loop of wpa_config_read: None as soon as anything is wrong. `known` tells which other
      lines the parser of global parameters accepts. */
  function ReadNetworks(known: string -> bool, text: string): Option<seq<Block>>
    decreases |text|
  {
    var (line, rest) := NextLine(text);
    match line
    case None => Some([])
    case Some(l) =>
      if l == "network={" then
        var (b, after) := ReadNetwork(rest);
        Both(b, ReadNetworks(known, after))
      else if known(l) then ReadNetworks(known, rest)
      else None
  }

  /** Lines with global parameters, as wpa_config_write_global puts them in front. */
  function GlobalText(gs: seq<string>): string
  {
    if gs == [] then "" else gs[0] + "\n" + GlobalText(gs[1..])
  }

  /** A line that is read as it is and accepted. */
  predicate IsGlobal(known: string -> bool, g: string)
  {
    |g| < ROOM && !Has(g, '\n') && Clean(g + "\n") == Some(g) && g != "network={" && known(g)
  }

  predicate AllGlobal(known: string -> bool, gs: seq<string>)
  {
    forall i | 0 <= i < |gs| :: IsGlobal(known, gs[i])
  }

  /** What comes back of one block. */
  function OneGot(b: Block): Option<Block>
    requires Holding(Table(), b)
  {
    if GoodFrom(Table(), b, 0) then Validated(Got(Table(), b)) else None
  }

  /** What comes back of the blocks that are in the file. */
  function SectionGot(ns: seq<Configured>): Option<seq<Block>>
    requires AllHold(ns)
  {
    if ns == [] then Some([])
    else if !Saved(ns[0]) then SectionGot(ns[1..])
    else Both(OneGot(ns[0].block), SectionGot(ns[1..]))
  }

  /** The blocks that are in the file. */
  function SavedBlocks(ns: seq<Configured>): seq<Block>
    requires AllHold(ns)
  {
    if ns == [] then [] else (if Saved(ns[0]) then [ns[0].block] else []) + SavedBlocks(ns[1..])
  }

  /** The lines of all networks that are saved fit the reader's buffer and are lines. */
  predicate AllFit(ns: seq<Configured>)
    requires AllHold(ns)
  {
    forall i | 0 <= i < |ns| :: Saved(ns[i]) ==> LinesFit(Table(), ns[i].block) && OneLineEach(ns[i].block)
  }

  predicate AllIntact(ns: seq<Configured>)
    requires AllHold(ns)
  {
    forall i | 0 <= i < |ns| :: Saved(ns[i]) ==> Intact(ns[i].block)
  }

  lemma EmptyLine(rest: string)
    ensures NextLine("\n" + rest) == NextLine(rest)
  {
    hide Uncommented, Trimmed;
    var text := "\n" + rest;
    assert text[0] == '\n';
    assert First(text, '\n') == 0;
    assert text[..1] == "\n" && text[1..] == rest;
    assert Clean("\n") == None;
  }

  lemma OpenLine(rest: string)
    ensures NextLine(OPENING + rest) == (Some("network={"), rest)
  {
    hide NextLine;
    var line := "network={\n";
    assert OPENING + rest == "\n" + (line + rest);
    EmptyLine(line + rest);
    HeaderLine(rest);
  }

  lemma CleanHeader()
    ensures Clean("network={\n") == Some("network={")
  {
    hide First, Uncommented, Trimmed;
    var s := "network={\n";
    assert Lead(s) == 0 && s[0..] == s;
    assert s == "network={" + "\n";
    assert First(s, '"') == |s|;
    NothingCommented(s);
    TrimNewline("network={");
  }

  lemma HeaderLine(rest: string)
    ensures NextLine("network={\n" + rest) == (Some("network={"), rest)
  {
    hide First, Clean;
    var line := "network={\n";
    var text := line + rest;
    assert forall i | 0 <= i < 9 :: text[i] == line[i] != '\n';
    assert text[9] == '\n';
    assert First(text, '\n') == 9;
    assert text[..10] == line && text[10..] == rest;
    CleanHeader();
  }

  lemma NothingLeft()
    ensures NextLine("") == (None, "")
  {
  }

  lemma OneGotIff(b: Block)
    requires Holding(Table(), b) && LinesFit(Table(), b) && OneLineEach(b)
    ensures ReadNetwork(WriteNetwork(b) + "}\n" + "") == (OneGot(b), "")
    ensures OneGot(b) == Some(b) <==> Intact(b)
  {
    hide Table, LinesFit, ReadNetwork, WriteNetwork, Got, Validated, GoodFrom, OneLineEach, Told, PskMissing, GroupTooStrong, Holds;
    NetworkGot(b, "");
    NetworkRoundTrip(b, "");
  }

  lemma {:induction false} NetworksGot(known: string -> bool, ns: seq<Configured>)
    requires AllHold(ns) && AllFit(ns)
    ensures ReadNetworks(known, WriteNetworks(ns)) == SectionGot(ns)
  {
    hide Table, Saved, LinesFit, Holds, ReadNetwork, WriteNetwork, NextLine, OneLineEach, GoodFrom, Got, Validated;
    if ns == [] {
      NothingLeft();
    } else {
      NetworksGot(known, ns[1..]);
      var more := WriteNetworks(ns[1..]);
      if Saved(ns[0]) {
        var b := ns[0].block;
        NetworkGot(b, more);
        var text := OPENING + (WriteNetwork(b) + "}\n" + more);
        assert WriteNetworks(ns) == text;
        OpenLine(WriteNetwork(b) + "}\n" + more);
      } else {
        assert WriteNetworks(ns) == "" + more == more;
      }
    }
  }

  lemma BothIff(x: Option<Block>, xs: Option<seq<Block>>, b: Block, bs: seq<Block>)
    ensures Both(x, xs) == Some([b] + bs) <==> x == Some(b) && xs == Some(bs)
  {
    if Both(x, xs) == Some([b] + bs) {
      assert ([x.value] + xs.value)[0] == ([b] + bs)[0];
      assert ([x.value] + xs.value)[1..] == xs.value && ([b] + bs)[1..] == bs;
    }
  }

  lemma IntactFrom(ns: seq<Configured>)
    requires AllHold(ns) && ns != []
    ensures AllHold(ns[1..])
    ensures AllFit(ns) ==> AllFit(ns[1..])
    ensures AllIntact(ns) <==> (Saved(ns[0]) ==> Intact(ns[0].block)) && AllIntact(ns[1..])
  {
    hide Table, Saved, LinesFit, Holds, OneLineEach, Intact;
    assert forall i | 1 <= i < |ns| :: ns[i] == ns[1..][i - 1];
  }

  lemma {:induction false} SectionIff(ns: seq<Configured>)
    requires AllHold(ns) && AllFit(ns)
    ensures SectionGot(ns) == Some(SavedBlocks(ns)) <==> AllIntact(ns)
  {
    hide Table, Saved, LinesFit, Holds, OneLineEach, OneGot, Intact;
    if ns != [] {
      IntactFrom(ns);
      SectionIff(ns[1..]);
      var more := SavedBlocks(ns[1..]);
      if Saved(ns[0]) {
        OneGotIff(ns[0].block);
        BothIff(OneGot(ns[0].block), SectionGot(ns[1..]), ns[0].block, more);
        assert SavedBlocks(ns) == [ns[0].block] + more;
      } else {
        assert SavedBlocks(ns) == [] + more == more;
      }
    }
  }

  lemma GlobalLine(known: string -> bool, g: string, rest: string)
    requires IsGlobal(known, g)
    ensures NextLine(g + "\n" + rest) == (Some(g), rest)
  {
    hide First, Clean;
    var line := g + "\n";
    var text := line + rest;
    assert forall i | 0 <= i < |g| :: text[i] == g[i] != '\n';
    assert text[|g|] == '\n';
    assert First(text, '\n') == |g|;
    assert text[..|g| + 1] == line && text[|g| + 1..] == rest;
  }

  lemma {:induction false} GlobalsSkipped(known: string -> bool, gs: seq<string>, rest: string)
    requires AllGlobal(known, gs)
    ensures ReadNetworks(known, GlobalText(gs) + rest) == ReadNetworks(known, rest)
  {
    hide NextLine, ReadNetwork, Clean, Has;
    if gs == [] {
      assert GlobalText(gs) + rest == rest;
    } else {
      var more := GlobalText(gs[1..]) + rest;
      GlobalsSkipped(known, gs[1..], rest);
      GlobalLine(known, gs[0], more);
      assert GlobalText(gs) + rest == gs[0] + "\n" + more;
    }
  }

  /** Reading the file back gives what comes back of each saved network, in order, whatever
      global lines stand in front. It gives the saved networks themselves exactly when all of
      them are intact. */
  lemma SectionRoundTrip(known: string -> bool, gs: seq<string>, ns: seq<Configured>)
    requires AllGlobal(known, gs) && AllHold(ns) && AllFit(ns)
    ensures ReadNetworks(known, GlobalText(gs) + WriteNetworks(ns)) == SectionGot(ns)
    ensures ReadNetworks(known, GlobalText(gs) + WriteNetworks(ns)) == Some(SavedBlocks(ns)) <==> AllIntact(ns)
  {
    hide ReadNetworks, WriteNetworks, SectionGot, SavedBlocks, AllHold, AllFit, AllIntact, AllGlobal, GlobalText;
    GlobalsSkipped(known, gs, WriteNetworks(ns));
    NetworksGot(known, ns);
    SectionIff(ns);
  }
}
