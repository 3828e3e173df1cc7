/** C strings as the configuration code uses them: searching, trimming, hexadecimal and
    decimal numbers. Characters stand for octets; text contains no NUL. */
module CText {
  import opened Octets

  /** os_strchr: position of the first c, or the length. */
  function First(s: string, c: char): (i: nat)
    ensures i <= |s|
    ensures i < |s| ==> s[i] == c
    ensures forall j | 0 <= j < i :: s[j] != c
  {
    if s == "" then 0 else if s[0] == c then 0 else 1 + First(s[1..], c)
  }

  /** os_strrchr: position of the last c, or the length. */
  function Last(s: string, c: char): (i: nat)
    ensures i <= |s|
    ensures i < |s| ==> s[i] == c
    ensures forall j | i < j < |s| :: s[j] != c
    ensures i == |s| ==> forall j | 0 <= j < |s| :: s[j] != c
  {
    if s == "" then 0
    else if s[|s| - 1] == c then |s| - 1
    else
      var i := Last(s[..|s| - 1], c);
      if i < |s| - 1 then i else |s|
  }

  predicate Has(s: string, c: char)
  {
    exists i | 0 <= i < |s| :: s[i] == c
  }

  // ---- Hexadecimal ----

  /** hex2num */
  function HexValue(c: char): (v: Option<nat>)
    ensures v.Some? ==> v.value < 16
  {
    if '0' <= c <= '9' then Some((c - '0') as nat)
    else if 'a' <= c <= 'f' then Some((c - 'a') as nat + 10)
    else if 'A' <= c <= 'F' then Some((c - 'A') as nat + 10)
    else None
  }

  function HexDigit(n: nat): (c: char)
    requires n < 16
    ensures HexValue(c) == Some(n)
    ensures '0' <= c <= '9' || 'a' <= c <= 'f'
  {
    if n < 10 then '0' + n as char else 'a' + (n - 10) as char
  }

  /** The digits are those of either case, with their values. */
  lemma HexIff(c: char, n: nat)
    ensures HexValue(c) == Some(n) <==> n < 16 && (c == "0123456789abcdef"[n] || c == "0123456789ABCDEF"[n])
  {
    if HexValue(c) == Some(n) {
      assert n < 10 ==> c as int == 48 + n;
      assert n >= 10 ==> c as int == 87 + n || c as int == 55 + n;
    }
  }

  /** The text holds octets only. */
  predicate IsOctets(s: string)
  {
    forall i | 0 <= i < |s| :: s[i] as int < 256
  }

  /** wpa_snprintf_hex */
  function ToHex(s: string): (r: string)
    requires IsOctets(s)
    ensures |r| == 2 * |s|
    ensures forall i | 0 <= i < |r| :: '0' <= r[i] <= '9' || 'a' <= r[i] <= 'f'
  {
    if s == "" then ""
    else
      var n := s[0] as int;
      [HexDigit(n / 16), HexDigit(n % 16)] + ToHex(s[1..])
  }

  /** hexstr2bin over the whole text */
  function FromHex(s: string): Option<string>
    requires |s| % 2 == 0
  {
    if s == "" then Some("")
    else
      var a, b, rest := HexValue(s[0]), HexValue(s[1]), FromHex(s[2..]);
      if a.Some? && b.Some? && rest.Some? then Some([(16 * a.value + b.value) as char] + rest.value) else None
  }

  lemma {:induction false} HexRoundTrip(s: string)
    requires IsOctets(s)
    ensures FromHex(ToHex(s)) == Some(s)
  {
    if s != "" {
      HexRoundTrip(s[1..]);
      assert ToHex(s)[2..] == ToHex(s[1..]);
      assert s == [s[0]] + s[1..];
    }
  }

  // ---- Decimal ----

  /** The digits of a number, most significant first. */
  function Digits(n: nat): (r: string)
    ensures |r| > 0
    ensures forall i | 0 <= i < |r| :: '0' <= r[i] <= '9'
  {
    if n < 10 then ['0' + n as char] else Digits(n / 10) + ['0' + (n % 10) as char]
  }

  /** "%d" */
  function Decimal(n: int): (r: string)
    ensures |r| > 0
    ensures forall i | 0 <= i < |r| :: '0' <= r[i] <= '9' || r[i] == '-'
  {
    if n >= 0 then Digits(n) else "-" + Digits(-n)
  }

  /** Number of leading digits. */
  function DigitRun(s: string): (k: nat)
    ensures k <= |s|
    ensures forall i | 0 <= i < k :: '0' <= s[i] <= '9'
    ensures k < |s| ==> !('0' <= s[k] <= '9')
  {
    if s != "" && '0' <= s[0] <= '9' then 1 + DigitRun(s[1..]) else 0
  }

  function Number(s: string): nat
    requires forall i | 0 <= i < |s| :: '0' <= s[i] <= '9'
  {
    if s == "" then 0 else 10 * Number(s[..|s| - 1]) + (s[|s| - 1] - '0') as nat
  }

  predicate Space(c: char)
  {
    c == ' ' || '\t' <= c <= '\r'
  }

  /** atoi: white space, a sign, digits; whatever follows is ignored. */
  function Atoi(s: string): int
  {
    if s == "" then 0
    else if Space(s[0]) then Atoi(s[1..])
    else if s[0] == '-' then -(Number(s[1..][..DigitRun(s[1..])]) as int)
    else if s[0] == '+' then Number(s[1..][..DigitRun(s[1..])])
    else Number(s[..DigitRun(s)])
  }

  /** The text without white space at the beginning. */
  function Unspaced(s: string): string
  {
    if s != "" && Space(s[0]) then Unspaced(s[1..]) else s
  }

  /** A minus sign and digits that are not all 0, behind white space. */
  predicate IsNegative(s: string)
  {
    var u := Unspaced(s);
    u != "" && u[0] == '-' && Number(u[1..][..DigitRun(u[1..])]) > 0
  }

  lemma {:induction false} AtoiNegative(s: string)
    ensures Atoi(s) < 0 <==> IsNegative(s)
  {
    hide Number, DigitRun;
    if s != "" && Space(s[0]) {
      AtoiNegative(s[1..]);
    }
  }

  lemma {:induction false} DigitsNumber(n: nat)
    ensures Number(Digits(n)) == n
  {
    var d := Digits(n);
    if n >= 10 {
      DigitsNumber(n / 10);
      assert d[..|d| - 1] == Digits(n / 10);
    } else {
      assert d[..0] == "";
    }
  }

  lemma DecimalRoundTrip(n: int)
    ensures Atoi(Decimal(n)) == n
  {
    var d := Digits(if n >= 0 then n else -n);
    assert DigitRun(d) == |d| && d[..|d|] == d;
    DigitsNumber(if n >= 0 then n else -n);
    if n < 0 {
      assert Decimal(n)[1..] == d;
    }
  }

  lemma DigitsThen(n: nat, rest: string)
    requires rest == "" || !('0' <= rest[0] <= '9')
    ensures var s := Digits(n) + rest; Number(s[..DigitRun(s)]) == n
  {
    hide Digits, Number;
    var d := Digits(n);
    var s := d + rest;
    assert forall i | 0 <= i < |d| :: s[i] == d[i];
    assert DigitRun(s) == |d| && s[..|d|] == d;
    DigitsNumber(n);
  }

  lemma SignedThen(d: string, rest: string)
    requires d != "" && '0' <= d[0] <= '9'
    ensures var t := d + rest;
      && Atoi(t) == Number(t[..DigitRun(t)])
      && Atoi("-" + t) == -(Number(t[..DigitRun(t)]) as int)
      && Atoi("+" + t) == Number(t[..DigitRun(t)])
  {
    hide Number, DigitRun;
    var t := d + rest;
    assert ("-" + t)[1..] == t && ("+" + t)[1..] == t && t[0] == d[0];
  }

  lemma NumberThen(n: int, rest: string)
    requires rest == "" || !('0' <= rest[0] <= '9')
    ensures Atoi(Decimal(n) + rest) == n
    ensures n >= 0 ==> Atoi("+" + Decimal(n) + rest) == n
  {
    hide Digits, Number, DigitRun, Atoi;
    var d := Digits(if n >= 0 then n else -n);
    DigitsThen(if n >= 0 then n else -n, rest);
    SignedThen(d, rest);
    assert "-" + d + rest == "-" + (d + rest) && "+" + d + rest == "+" + (d + rest);
  }

  /** White space in front of a number, as isspace has it, a plus sign, and whatever is no digit
      behind it do not matter to atoi. */
  lemma {:induction false} AtoiReads(w: string, n: int, rest: string)
    requires forall i | 0 <= i < |w| :: w[i] == ' ' || 9 <= w[i] as int < 14
    requires rest == "" || !('0' <= rest[0] <= '9')
    ensures Atoi(w + Decimal(n) + rest) == n
    ensures n >= 0 ==> Atoi(w + ("+" + Decimal(n)) + rest) == n
  {
    hide Decimal, Number, DigitRun;
    var a, b := Decimal(n), "+" + Decimal(n);
    if w == "" {
      NumberThen(n, rest);
      assert w + a + rest == a + rest && w + b + rest == b + rest;
    } else {
      AtoiReads(w[1..], n, rest);
      assert (w + a + rest)[1..] == w[1..] + a + rest && (w + b + rest)[1..] == w[1..] + b + rest;
      assert (w + a + rest)[0] == w[0] && (w + b + rest)[0] == w[0];
    }
  }

  // ---- Words ----

  predicate Blank(c: char)
  {
    c == ' ' || c == '\t'
  }

  /** Length of the word the text starts with. */
  function WordLength(s: string): (k: nat)
    ensures k <= |s|
    ensures forall i | 0 <= i < k :: !Blank(s[i])
    ensures k < |s| ==> Blank(s[k])
  {
    if s != "" && !Blank(s[0]) then 1 + WordLength(s[1..]) else 0
  }

  /** The words of a text, as the tokenising loops of the mask parsers find them. */
  function Words(s: string): seq<string>
    decreases |s|
  {
    if s == "" then []
    else if Blank(s[0]) then Words(s[1..])
    else [s[..WordLength(s)]] + Words(s[WordLength(s)..])
  }

  predicate IsWord(w: string)
  {
    w != "" && forall i | 0 <= i < |w| :: !Blank(w[i])
  }

  /** Words separated by single spaces. */
  function Spaced(ws: seq<string>): string
  {
    if ws == [] then ""
    else if |ws| == 1 then ws[0]
    else ws[0] + " " + Spaced(ws[1..])
  }

  lemma {:induction false} WordsRoundTrip(ws: seq<string>)
    requires forall i | 0 <= i < |ws| :: IsWord(ws[i])
    ensures Words(Spaced(ws)) == ws
  {
    if |ws| == 1 {
      var s := Spaced(ws);
      assert WordLength(s) == |s| && s[|s|..] == "" && s[..|s|] == s;
      assert ws == [ws[0]];
    } else if |ws| > 1 {
      var s, w := Spaced(ws), ws[0];
      WordsRoundTrip(ws[1..]);
      assert forall i | 0 <= i < |w| :: s[i] == w[i];
      assert s[|w|] == ' ';
      assert WordLength(s) == |w|;
      assert s[..|w|] == w;
      assert s[|w|..][0] == ' ' && s[|w|..][1..] == Spaced(ws[1..]);
      assert ws == [w] + ws[1..];
    }
  }

  /** The words of a text with single spaces between them are no longer than the text. */
  lemma {:induction false} SpacedNoLonger(s: string)
    ensures |Spaced(Words(s))| <= |s|
    decreases |s|
  {
    if s != "" {
      if Blank(s[0]) {
        SpacedNoLonger(s[1..]);
      } else {
        var k := WordLength(s);
        var more := Words(s[k..]);
        SpacedNoLonger(s[k..]);
        assert Words(s) == [s[..k]] + more;
        assert ([s[..k]] + more)[1..] == more;
        if more != [] {
          assert Blank(s[k..][0]);
          SpacedNoLonger(s[k..][1..]);
        }
      }
    }
  }
}
