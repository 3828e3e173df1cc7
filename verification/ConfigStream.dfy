/** Loops of the configuration file code over a stream, proved to compute the functions that
    the round trips are about. */
module ConfigStream {
  import opened Octets
  import opened CText
  import opened ConfigLine
  import opened ConfigValue
  import opened ConfigField
  import opened ConfigBlock
  import opened ConfigTable
  import opened ConfigFile

  /** FILE: what is left to read, or what has been written. */
  class Stream {
    var text: string

    constructor (t: string)
      ensures text == t
    {
      text := t;
    }

    /** fgets with the reader's buffer */
    method Fgets() returns (s: string)
      requires text != ""
      modifies this
      ensures s == old(text)[..ConfigLine.Fgets(old(text))]
      ensures text == old(text)[ConfigLine.Fgets(old(text))..]
    {
      var n := ConfigLine.Fgets(text);
      s := text[..n];
      text := text[n..];
    }

    /** fprintf */
    method Print(s: string)
      modifies this
      ensures text == old(text) + s
    {
      text := text + s;
    }
  }

  /** White space at the beginning of the line. */
  method SkipBlanks(s: string) returns (pos: nat)
    ensures pos == Lead(s)
  {
    pos := 0;
    while pos < |s| && LeadingBlank(s[pos])
      invariant pos <= |s|
      invariant Lead(s) == pos + Lead(s[pos..])
    {
      assert s[pos..][1..] == s[pos + 1..];
      pos := pos + 1;
    }
  }

  /** White space at the end of the line; the first character is never removed. */
  method DropBlanks(s: string) returns (r: string)
    requires s != ""
    ensures r == Trimmed(s)
  {
    var end := |s| - 1;
    assert s[..|s|] == s;
    while end > 0 && TrailingBlank(s[end])
      invariant 0 <= end < |s|
      invariant Trimmed(s) == Trimmed(s[..end + 1])
    {
      assert s[..end + 1][..end] == s[..end];
      end := end - 1;
    }
    r := s[..end + 1];
  }

  lemma UncommentedKeepsFirst(s: string)
    requires s != "" && s[0] != '#'
    ensures Uncommented(s) != ""
  {
    hide CommentFrom;
    var from := CommentFrom(s);
    if from == 0 {
      assert s[0..] == s;
      assert First(s, '#') > 0;
    }
  }

  /** wpa_config_get_line */
  method GetLine(f: Stream) returns (line: Option<string>)
    modifies f
    ensures (line, f.text) == NextLine(old(f.text))
  {
    while f.text != ""
      invariant NextLine(f.text) == NextLine(old(f.text))
      decreases |f.text|
    {
      var s := f.Fgets();
      var pos := SkipBlanks(s);
      if pos < |s| && s[pos] != '#' && s[pos] != '\n' {
        UncommentedKeepsFirst(s[pos..]);
        var t := DropBlanks(Uncommented(s[pos..]));
        return Some(t);
      }
    }
    return None;
  }

  /** wpa_config_read_network */
  method ReadNetworkBlock(f: Stream) returns (b: Option<Block>)
    modifies f
    ensures (b, f.text) == ReadNetwork(old(f.text))
  {
    hide Table, NextLine, SetLine, Validated, Defaults;
    var ssid := Defaults(Table());
    var good, end := true, false;
    while !end
      invariant |ssid| == |Table()|
      invariant ReadLines(Table(), old(f.text), Defaults(Table()), true)
        == if end then Reading(ssid, good, true, f.text) else ReadLines(Table(), f.text, ssid, good)
      decreases !end, |f.text|
    {
      var line := GetLine(f);
      if line.None? {
        return None;
      } else if line.value == "}" {
        end := true;
      } else {
        match SetLine(Table(), ssid, line.value) {
          case None => good := false;
          case Some(c) => ssid := c;
        }
      }
    }
    b := if good then Validated(ssid) else None;
  }

  /** wpa_config_write_network */
  method WriteNetworkBlock(f: Stream, ssid: Block)
    requires Holding(Table(), ssid)
    modifies f
    ensures f.text == old(f.text) + WriteNetwork(ssid)
  {
    hide Table, FieldText, WriteFields, Holds;
    var k := 0;
    ghost var start := f.text;
    while k < |Table()|
      invariant k <= |Table()|
      invariant f.text + WriteFields(Table(), ssid, k) == start + WriteNetwork(ssid)
    {
      OneField(f.text, ssid, k);
      f.Print(FieldText(Table()[k], ssid[k]));
      k := k + 1;
    }
    NoField(f.text, ssid);
  }

  lemma OneField(text: string, b: Block, k: nat)
    requires Holding(Table(), b) && k < |Table()|
    ensures text + FieldText(Table()[k], b[k]) + WriteFields(Table(), b, k + 1) == text + WriteFields(Table(), b, k)
  {
    hide Table, FieldText, Holds;
  }

  lemma NoField(text: string, b: Block)
    requires Holding(Table(), b)
    ensures text + WriteFields(Table(), b, |Table()|) == text
  {
    hide Table, FieldText, Holds;
  }

  /** wpa_config_read: the networks of the file, or None if anything is wrong; `known` tells
      which other lines are good. */
  method ReadSection(f: Stream, known: string -> bool) returns (r: Option<seq<Block>>)
    modifies f
    ensures r == ReadNetworks(known, old(f.text))
  {
    hide NextLine, ReadNetwork;
    var blocks := [];
    var good := true;
    AfterNone(ReadNetworks(known, f.text));
    while true
      invariant ReadNetworks(known, old(f.text)) == if good then After(blocks, ReadNetworks(known, f.text)) else None
      decreases |f.text|
    {
      var line := GetLine(f);
      if line.None? {
        assert blocks + [] == blocks;
        return if good then Some(blocks) else None;
      }
      if line.value == "network={" {
        var b := ReadNetworkBlock(f);
        match b {
          case None => good := false;
          case Some(x) =>
            if good {
              AfterOne(blocks, x, ReadNetworks(known, f.text));
            }
            blocks := blocks + [x];
        }
      } else if !known(line.value) {
        good := false;
      }
    }
  }

  /** Blocks in front of those that are still to be read. */
  ghost function After(bs: seq<Block>, r: Option<seq<Block>>): Option<seq<Block>>
  {
    if r.None? then None else Some(bs + r.value)
  }

  lemma AfterNone(r: Option<seq<Block>>)
    ensures After([], r) == r
  {
    if r.Some? {
      assert [] + r.value == r.value;
    }
  }

  lemma AfterOne(bs: seq<Block>, b: Block, r: Option<seq<Block>>)
    ensures After(bs + [b], r) == After(bs, if r.None? then None else Some([b] + r.value))
  {
    if r.Some? {
      assert bs + [b] + r.value == bs + ([b] + r.value);
    }
  }

  /** The tokenising loop of the mask parsers. */
  method ParseWords(t: ConfigValue.Words, value: string) returns (m: Option<set<Flag>>)
    ensures m == ParseMask(t, value)
  {
    var start, val, errors := 0, {}, false;
    assert value[0..] == value;
    CollectNone(Gathered(t, CText.Words(value)));
    while start < |value|
      invariant start <= |value|
      invariant Gathered(t, CText.Words(value)) == Collected(val, errors, Gathered(t, CText.Words(value[start..])))
    {
      if Blank(value[start]) {
        assert value[start..][1..] == value[start + 1..];
        start := start + 1;
      } else {
        var end := WordEnd(value, start);
        var w := value[start..end];
        OneWord(t, value, start, end);
        CollectOne(val, errors, FlagOf(t, w), Gathered(t, CText.Words(value[end..])));
        match FlagOf(t, w) {
          case None => errors := true;
          case Some(f) => val := val + {f};
        }
        start := end;
      }
    }
    assert value[start..] == "";
    m := if errors || val == {} then None else Some(val);
  }

  /** What the loop has gathered together with what is still to come. */
  ghost function Collected(val: set<Flag>, errors: bool, rest: Option<set<Flag>>): Option<set<Flag>>
  {
    if errors || rest.None? then None else Some(val + rest.value)
  }

  lemma CollectNone(rest: Option<set<Flag>>)
    ensures Collected({}, false, rest) == rest
  {
    if rest.Some? {
      assert {} + rest.value == rest.value;
    }
  }

  lemma CollectOne(val: set<Flag>, errors: bool, f: Option<Flag>, rest: Option<set<Flag>>)
    ensures Collected(val, errors, if f.Some? && rest.Some? then Some({f.value} + rest.value) else None)
      == if f.None? then None else Collected(val + {f.value}, errors, rest)
  {
    if f.Some? && rest.Some? {
      assert val + ({f.value} + rest.value) == val + {f.value} + rest.value;
    }
  }

  method WordEnd(value: string, start: nat) returns (end: nat)
    requires start < |value| && !Blank(value[start])
    ensures start < end <= |value|
    ensures end == start + WordLength(value[start..])
  {
    end := start + 1;
    assert value[start..][1..] == value[end..];
    while end < |value| && !Blank(value[end])
      invariant start < end <= |value|
      invariant start + WordLength(value[start..]) == end + WordLength(value[end..])
    {
      assert value[end..][1..] == value[end + 1..];
      end := end + 1;
    }
  }

  lemma OneWord(t: ConfigValue.Words, value: string, start: nat, end: nat)
    requires start < end <= |value| && !Blank(value[start])
    requires end == start + WordLength(value[start..])
    ensures Gathered(t, CText.Words(value[start..])) == (
      match (FlagOf(t, value[start..end]), Gathered(t, CText.Words(value[end..])))
      case (Some(f), Some(m)) => Some({f} + m)
      case _ => None)
  {
    hide FlagOf;
    var s := value[start..];
    assert s[..WordLength(s)] == value[start..end];
    assert s[WordLength(s)..] == value[end..];
    var ws := CText.Words(value[end..]);
    assert CText.Words(s) == [value[start..end]] + ws;
    assert ([value[start..end]] + ws)[1..] == ws;
  }
}
