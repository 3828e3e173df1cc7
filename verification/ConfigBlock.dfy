/** Network blocks in the configuration file: wpa_config_write_network against
    wpa_config_read_network, for any table of fields. */
module ConfigBlock {
  import opened Octets
  import opened CText
  import opened ConfigLine
  import opened ConfigValue
  import opened ConfigField

  /** A row of the ssid_fields table; the writer leaves some fields out. */
  datatype Field = Field(name: string, kind: Kind, written: bool)

  /** struct wpa_ssid: the values of the fields of a table. */
  type Block = seq<Value>

  /** Names can be told apart and values can be read back. */
  predicate TableOk(table: seq<Field>)
  {
    && (forall i | 0 <= i < |table| :: IsName(table[i].name) && KindOk(table[i].kind))
    && (forall i, j | 0 <= i < j < |table| :: table[i].name != table[j].name)
  }

  // ---- Reading ----

  function Defaults(table: seq<Field>): (b: Block)
    ensures |b| == |table|
    ensures forall i | 0 <= i < |table| :: b[i] == Default(table[i].kind)
  {
    if table == [] then [] else [Default(table[0].kind)] + Defaults(table[1..])
  }

  /** The first row with the name, or the length of the table. */
  function Position(table: seq<Field>, name: string): (i: nat)
    ensures i <= |table|
    ensures i < |table| ==> table[i].name == name
    ensures forall j | 0 <= j < i :: table[j].name != name
  {
    if table == [] || table[0].name == name then 0 else 1 + Position(table[1..], name)
  }

  /** wpa_config_set */
  function SetField(table: seq<Field>, b: Block, name: string, v: string): (r: Option<Block>)
    requires |b| == |table|
    ensures r.Some? ==> |r.value| == |table|
  {
    var i := Position(table, name);
    if i == |table| then None
    else
      match Parsed(table[i].kind, v)
      case None => None
      case Some(x) => Some(b[i := x])
  }

  /** One line of a block: a name, an equals sign and a value; a value that starts with a
      double quote must have another one. */
  function SetLine(table: seq<Field>, b: Block, line: string): (r: Option<Block>)
    requires |b| == |table|
    ensures r.Some? ==> |r.value| == |table|
  {
    var e := First(line, '=');
    if e == |line| then None
    else
      var v := line[e + 1..];
      if v != "" && v[0] == '"' && First(v[1..], '"') == |v| - 1 then None
      else SetField(table, b, line[..e], v)
  }

  /** The values read so far, whether all lines were good, whether the closing line was
      found, and the text behind it. */
  datatype Reading = Reading(block: Block, good: bool, closed: bool, rest: string)

  /** The loop of wpa_config_read_network: bad lines are counted and reading goes on. */
  function ReadLines(table: seq<Field>, text: string, b: Block, good: bool): (r: Reading)
    requires |b| == |table|
    ensures |r.block| == |table| && |r.rest| <= |text|
    decreases |text|
  {
    var (line, rest) := NextLine(text);
    match line
    case None => Reading(b, good, false, rest)
    case Some(l) =>
      if l == "}" then Reading(b, good, true, rest)
      else
        match SetLine(table, b, l)
        case None => ReadLines(table, rest, b, false)
        case Some(c) => ReadLines(table, rest, c, good)
  }

  // ---- Writing ----

  /** Every field holds a value of its kind. */
  predicate Holding(table: seq<Field>, b: Block)
  {
    |b| == |table| && forall i | 0 <= i < |table| :: Holds(table[i].kind, b[i])
  }

  function FieldText(f: Field, v: Value): string
    requires Holds(f.kind, v)
  {
    if !f.written || Written(f.kind, v).None? then "" else Line(f.name, Written(f.kind, v).value)
  }

  /** wpa_config_write_network, from field k on */
  function WriteFields(table: seq<Field>, b: Block, k: nat): string
    requires Holding(table, b) && k <= |table|
    decreases |table| - k
  {
    if k == |table| then "" else FieldText(table[k], b[k]) + WriteFields(table, b, k + 1)
  }

  /** No line is longer than the reader's buffer. */
  predicate LinesFit(table: seq<Field>, b: Block)
    requires Holding(table, b)
  {
    forall i | 0 <= i < |table| :: |FieldText(table[i], b[i])| <= ROOM
  }

  // ---- Round trip ----

  /** What is read for a field: its value if it is written, else its default; None if its line
      is an error. */
  function Outcome(f: Field, v: Value): Option<Value>
    requires Holds(f.kind, v)
  {
    if f.written then Received(f.kind, v) else Some(Default(f.kind))
  }

  function GotValue(f: Field, v: Value): Value
    requires Holds(f.kind, v)
  {
    if Outcome(f, v).Some? then Outcome(f, v).value else Default(f.kind)
  }

  /** The block that is read. */
  function Got(table: seq<Field>, b: Block): (r: Block)
    requires Holding(table, b)
    ensures |r| == |table|
    ensures forall i | 0 <= i < |table| :: r[i] == GotValue(table[i], b[i])
  {
    if table == [] then [] else [GotValue(table[0], b[0])] + Got(table[1..], b[1..])
  }

  /** No line from field k on is an error. */
  function GoodFrom(table: seq<Field>, b: Block, k: nat): bool
    requires Holding(table, b) && k <= |table|
    decreases |table| - k
  {
    k == |table| || (Outcome(table[k], b[k]).Some? && GoodFrom(table, b, k + 1))
  }

  /** No value has a newline. */
  predicate OneLineEach(b: Block)
  {
    forall i | 0 <= i < |b| :: OneLine(b[i])
  }

  lemma SplitLine(n: string, v: string)
    requires IsName(n)
    ensures var l := n + "=" + v; First(l, '=') == |n| && l[..|n|] == n && l[|n| + 1..] == v
    ensures n + "=" + v != "}"
  {
    hide First;
    var l := n + "=" + v;
    assert forall i | 0 <= i < |n| :: l[i] == n[i];
    assert l[|n|] == '=';
    assert l[0] == n[0];
  }

  lemma QuoteClosed(t: string)
    requires LineSafe(t)
    ensures var v := LineText(t); !(v != "" && v[0] == '"' && First(v[1..], '"') == |v| - 1)
  {
    hide First, Trimmed;
    TrimmedIsPrefix(t);
    var v := LineText(t);
    if IsQuoted(t) {
      assert v[1..][|v| - 2] == '"';
    } else if v != "" {
      assert v[0] == t[0];
    }
  }

  /** The line of a field sets it, or is an error. */
  lemma SetWritten(table: seq<Field>, k: nat, t: string, cur: Block)
    requires TableOk(table) && k < |table| == |cur| && LineSafe(t)
    ensures SetLine(table, cur, table[k].name + "=" + LineText(t)) ==
      match Parsed(table[k].kind, LineText(t)) case None => None case Some(x) => Some(cur[k := x])
    ensures table[k].name + "=" + LineText(t) != "}"
  {
    hide First, Position, KindOk, IsName, LineSafe, LineText, Parsed;
    SplitLine(table[k].name, LineText(t));
    QuoteClosed(t);
    assert Position(table, table[k].name) == k;
  }

  /** Reading the text of one field behind the earlier ones. */
  lemma ReadField(table: seq<Field>, k: nat, v: Value, cur: Block, good: bool, rest: string)
    requires TableOk(table) && k < |table| == |cur|
    requires Holds(table[k].kind, v) && OneLine(v) && |FieldText(table[k], v)| <= ROOM
    requires cur[k] == Default(table[k].kind)
    ensures ReadLines(table, FieldText(table[k], v) + rest, cur, good)
      == ReadLines(table, rest, cur[k := GotValue(table[k], v)], good && Outcome(table[k], v).Some?)
  {
    hide NextLine, SetLine, Written, KindOk, Holds, IsName, Line, LineSafe, LineText, Parsed, Default, OneLine, Sayable;
    var f := table[k];
    ReceivedIff(f.kind, v);
    if !f.written || Written(f.kind, v).None? {
      assert FieldText(f, v) + rest == rest;
      assert cur[k := GotValue(f, v)] == cur;
    } else {
      var t := Written(f.kind, v).value;
      LineRoundTrip(f.name, t, rest);
      SetWritten(table, k, t, cur);
      if Parsed(f.kind, LineText(t)).None? {
        assert cur[k := GotValue(f, v)] == cur;
      }
    }
  }

  lemma CloseLine(rest: string)
    ensures NextLine("}\n" + rest) == (Some("}"), rest)
  {
    var text := "}\n" + rest;
    assert text[1] == '\n' && text[0] == '}';
    assert First(text[1..], '\n') == 0;
    assert text[..2] == "}\n" && text[2..] == rest;
    assert Clean("}\n") == Some("}") by { CleanClose(); }
  }

  lemma CleanClose()
    ensures Clean("}\n") == Some("}")
  {
    hide First, Trimmed, Uncommented;
    var s := "}\n";
    assert Lead(s) == 0 && s[0..] == s;
    assert First(s, '"') == 2;
    NothingCommented(s);
    assert s == "}" + "\n";
    TrimNewline("}");
  }

  /** What is read for the first k fields, defaults for the others. */
  function Partly(table: seq<Field>, b: Block, k: nat): (r: Block)
    requires Holding(table, b) && k <= |table|
    ensures |r| == |table|
  {
    Got(table, b)[..k] + Defaults(table)[k..]
  }

  lemma PartlyNext(table: seq<Field>, b: Block, k: nat)
    requires Holding(table, b) && k < |table|
    ensures Partly(table, b, k)[k] == Default(table[k].kind)
    ensures Partly(table, b, k)[k := GotValue(table[k], b[k])] == Partly(table, b, k + 1)
  {
    hide Got, Defaults, GotValue, Holds;
    var a, d := Got(table, b), Defaults(table);
    assert a[..k + 1] == a[..k] + [a[k]];
    assert d[k..] == [d[k]] + d[k + 1..];
  }

  lemma {:induction false} ReadWritten(table: seq<Field>, b: Block, k: nat, good: bool, rest: string)
    requires TableOk(table) && Holding(table, b) && LinesFit(table, b) && OneLineEach(b) && k <= |table|
    ensures ReadLines(table, WriteFields(table, b, k) + "}\n" + rest, Partly(table, b, k), good)
      == Reading(Got(table, b), good && GoodFrom(table, b, k), true, rest)
    decreases |table| - k
  {
    hide NextLine, SetLine, TableOk, Got, Defaults, FieldText, ReadLines, GotValue, Holds, Outcome, OneLine;
    if k == |table| {
      Finished(table, Got(table, b), good, rest);
      assert WriteFields(table, b, k) + "}\n" + rest == "}\n" + rest;
      assert Partly(table, b, k) == Got(table, b);
    } else {
      ReadWritten(table, b, k + 1, good && Outcome(table[k], b[k]).Some?, rest);
      PartlyNext(table, b, k);
      var more := WriteFields(table, b, k + 1) + "}\n" + rest;
      ReadField(table, k, b[k], Partly(table, b, k), good, more);
      assert WriteFields(table, b, k) + "}\n" + rest == FieldText(table[k], b[k]) + more;
    }
  }

  lemma Finished(table: seq<Field>, b: Block, good: bool, rest: string)
    requires |b| == |table|
    ensures ReadLines(table, "}\n" + rest, b, good) == Reading(b, good, true, rest)
  {
    hide NextLine, SetLine;
    CloseLine(rest);
  }

  /** The file says the whole block: every field that is not written has its default, and the
      writer can say all the others. */
  predicate Told(table: seq<Field>, b: Block)
    requires |b| == |table|
  {
    forall i | 0 <= i < |table| ::
      if table[i].written then Sayable(table[i].kind, b[i]) else b[i] == Default(table[i].kind)
  }

  lemma OutcomeIff(f: Field, v: Value)
    requires KindOk(f.kind) && Holds(f.kind, v) && OneLine(v)
    ensures Outcome(f, v) == Some(v) <==> if f.written then Sayable(f.kind, v) else v == Default(f.kind)
  {
    hide KindOk, Received, Default, Sayable, OneLine;
    ReceivedIff(f.kind, v);
  }

  lemma {:induction false} GoodIff(table: seq<Field>, b: Block, k: nat)
    requires Holding(table, b) && k <= |table|
    ensures GoodFrom(table, b, k) <==> forall i | k <= i < |table| :: Outcome(table[i], b[i]).Some?
    decreases |table| - k
  {
    hide Outcome, Holds;
    if k < |table| {
      GoodIff(table, b, k + 1);
    }
  }

  lemma ToldIff(table: seq<Field>, b: Block)
    requires TableOk(table) && Holding(table, b) && OneLineEach(b)
    ensures Told(table, b) <==> GoodFrom(table, b, 0) && Got(table, b) == b
  {
    hide Got, Outcome, KindOk, Holds, OneLine, Sayable, Default;
    GoodIff(table, b, 0);
    forall i | 0 <= i < |table|
      ensures Outcome(table[i], b[i]) == Some(b[i]) <==>
        if table[i].written then Sayable(table[i].kind, b[i]) else b[i] == Default(table[i].kind)
    {
      OutcomeIff(table[i], b[i]);
    }
  }

  /** Reading a block back stops right behind it, gives every field what its line says and all
      others their defaults; that is the block itself exactly if the file says all of it. */
  lemma BlockRoundTrip(table: seq<Field>, b: Block, rest: string)
    requires TableOk(table) && Holding(table, b) && LinesFit(table, b) && OneLineEach(b)
    ensures ReadLines(table, WriteFields(table, b, 0) + "}\n" + rest, Defaults(table), true)
      == Reading(Got(table, b), GoodFrom(table, b, 0), true, rest)
    ensures Told(table, b) <==>
      ReadLines(table, WriteFields(table, b, 0) + "}\n" + rest, Defaults(table), true) == Reading(b, true, true, rest)
  {
    hide ReadLines, Got, Defaults, WriteFields, TableOk, LinesFit, GoodFrom, OneLineEach, Holds, Told;
    assert Partly(table, b, 0) == Defaults(table);
    ReadWritten(table, b, 0, true, rest);
    ToldIff(table, b);
  }

  // ---- No file says a newline ----

  lemma ParsedIsOneLine(k: Kind, t: string)
    requires !Has(t, '\n') && Parsed(k, t).Some?
    ensures OneLine(Parsed(k, t).value)
  {
    hide ParseString, FromHex, ParseMac, Atoi, ParseMask, Last, First;
    if k.Psk? && Parsed(k, t).value.Passphrase? {
      var p := Parsed(k, t).value.phrase;
      assert forall i | 0 <= i < |p| :: p[i] == t[i + 1];
    }
  }

  lemma SetLineIsOneLine(table: seq<Field>, b: Block, line: string)
    requires |b| == |table| && OneLineEach(b) && !Has(line, '\n') && SetLine(table, b, line).Some?
    ensures OneLineEach(SetLine(table, b, line).value)
  {
    hide First, Parsed, Position, OneLine;
    var e := First(line, '=');
    var v := line[e + 1..];
    assert forall i | 0 <= i < |v| :: v[i] == line[e + 1 + i];
    ParsedIsOneLine(table[Position(table, line[..e])].kind, v);
  }

  /** Whatever the text is, no value that is read has a newline. */
  lemma {:induction false} ReadIsOneLine(table: seq<Field>, text: string, b: Block, good: bool)
    requires |b| == |table| && OneLineEach(b)
    ensures OneLineEach(ReadLines(table, text, b, good).block)
    decreases |text|
  {
    hide NextLine, SetLine, OneLineEach;
    var (line, rest) := NextLine(text);
    if line.Some? && line.value != "}" {
      NextLineHasNoNewline(text);
      match SetLine(table, b, line.value) {
        case None =>
          ReadIsOneLine(table, rest, b, false);
        case Some(c) =>
          SetLineIsOneLine(table, b, line.value);
          ReadIsOneLine(table, rest, c, good);
      }
    }
  }

  lemma DefaultsOneLine(table: seq<Field>)
    ensures OneLineEach(Defaults(table))
  {
    hide Defaults;
  }
}
