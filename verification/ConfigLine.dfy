/** Lines of the configuration file: how wpa_config_get_line reads one, and that it gets
    back what the writer put on it. */
module ConfigLine {
  import opened Octets
  import opened CText

  /** Room in the line buffer, without the terminating NUL. */
  const ROOM := 255

  /** fgets: up to and including the first newline, but no more than fits the buffer. */
  function Fgets(text: string): (n: nat)
    ensures n <= |text|
    ensures text != "" ==> n > 0
  {
    var e := First(text, '\n');
    var n := if e < |text| then e + 1 else e;
    if n > ROOM then ROOM else n
  }

  predicate LeadingBlank(c: char)
  {
    c == ' ' || c == '\t' || c == '\r'
  }

  predicate TrailingBlank(c: char)
  {
    c == '\n' || c == ' ' || c == '\t' || c == '\r'
  }

  /** Number of blanks at the beginning. */
  function Lead(s: string): (k: nat)
    ensures k <= |s|
  {
    if s != "" && LeadingBlank(s[0]) then 1 + Lead(s[1..]) else 0
  }

  /** Without blanks at the end; the first character always stays. */
  function Trimmed(s: string): string
  {
    if |s| > 1 && TrailingBlank(s[|s| - 1]) then Trimmed(s[..|s| - 1]) else s
  }

  /** Where the search for a comment starts: at the last double quote if there are two or
      more, else at the beginning. */
  function CommentFrom(s: string): (i: nat)
    ensures i <= |s|
  {
    var q := First(s, '"');
    if q == |s| then 0
    else
      var l := Last(s[q + 1..], '"');
      if l == |s| - q - 1 then 0 else q + 1 + l
  }

  /** The text before a comment. */
  function Uncommented(s: string): string
  {
    var from := CommentFrom(s);
    s[..from] + s[from..][..First(s[from..], '#')]
  }

  /** What wpa_config_get_line makes of one line; None for comment lines and empty lines. */
  function Clean(raw: string): Option<string>
  {
    var s := raw[Lead(raw)..];
    if s == "" || s[0] == '#' || s[0] == '\n' then None else Some(Trimmed(Uncommented(s)))
  }

  /** The next line with something on it and the text after it. */
  function NextLine(text: string): (r: (Option<string>, string))
    ensures |r.1| <= |text| && (r.0.Some? ==> |r.1| < |text|)
    decreases |text|
  {
    if text == "" then (None, "")
    else
      var n := Fgets(text);
      match Clean(text[..n])
      case None => NextLine(text[n..])
      case Some(line) => (Some(line), text[n..])
  }

  // ---- What the writer emits ----

  /** A field name: no blanks, quotes, comment signs or equals signs. */
  predicate IsName(n: string)
  {
    n != "" && forall i | 0 <= i < |n| :: n[i] == '_' || 'a' <= n[i] <= 'z' || '0' <= n[i] <= '9'
  }

  /** A value in double quotes; inside there may be anything but a newline. */
  predicate IsQuoted(v: string)
  {
    |v| >= 2 && v[0] == '"' && v[|v| - 1] == '"' && forall i | 0 <= i < |v| :: v[i] != '\n'
  }

  /** A value without quotes: no comment signs, no newline, no blank at the end. */
  predicate IsPlain(v: string)
  {
    v != "" && !TrailingBlank(v[|v| - 1]) && forall i | 0 <= i < |v| :: v[i] != '"' && v[i] != '#' && v[i] != '\n'
  }

  function Line(n: string, v: string): string
  {
    "\t" + n + "=" + v + "\n"
  }

  lemma TrimNewline(s: string)
    requires s != "" && !TrailingBlank(s[|s| - 1])
    ensures Trimmed(s + "\n") == s
  {
    assert (s + "\n")[..|s|] == s;
  }

  lemma CommentFromAt(s: string, q: nat, l: nat)
    requires q < l < |s| && s[q] == '"' && s[l] == '"'
    requires forall i | 0 <= i < q :: s[i] != '"'
    requires forall i | l < i < |s| :: s[i] != '"'
    ensures CommentFrom(s) == l
  {
    hide First, Last;
    var t := s[q + 1..];
    assert First(s, '"') == q;
    assert t[l - q - 1] == '"';
    assert forall i | l - q - 1 < i < |t| :: t[i] == s[q + 1 + i] != '"';
    assert Last(t, '"') == l - q - 1;
  }

  lemma NothingCommented(s: string)
    requires forall i | CommentFrom(s) <= i < |s| :: s[i] != '#'
    ensures Uncommented(s) == s
  {
    hide First, CommentFrom;
    var from := CommentFrom(s);
    var t := s[from..];
    assert forall i | 0 <= i < |t| :: t[i] == s[from + i];
    assert First(t, '#') == |t| && t[..|t|] == t;
    assert s == s[..from] + t;
  }

  lemma UncommentedPlain(n: string, v: string)
    requires IsName(n) && forall i | 0 <= i < |v| :: v[i] != '"' && v[i] != '#'
    ensures Uncommented(n + "=" + v + "\n") == n + "=" + v + "\n"
  {
    hide First;
    var s := n + "=" + v + "\n";
    forall i | 0 <= i < |s| ensures s[i] != '"' && s[i] != '#' {
      if i < |n| {
        assert s[i] == n[i];
      } else if |n| < i < |s| - 1 {
        assert s[i] == v[i - |n| - 1];
      }
    }
    assert First(s, '"') == |s|;
    NothingCommented(s);
  }

  lemma UncommentedQuoted(n: string, v: string)
    requires IsName(n) && IsQuoted(v)
    ensures Uncommented(n + "=" + v + "\n") == n + "=" + v + "\n"
  {
    hide CommentFrom, Uncommented;
    var s := n + "=" + v + "\n";
    var q, l := |n| + 1, |n| + |v|;
    assert s[q] == v[0] && s[l] == v[|v| - 1] && s[l + 1] == '\n';
    assert forall i | 0 <= i < |n| :: s[i] == n[i];
    assert s[|n|] == '=';
    CommentFromAt(s, q, l);
    NothingCommented(s);
  }

  /** A value that ends at the end of the line: in quotes, or without quotes and comment signs
      and not blank. */
  predicate LineSafe(v: string)
  {
    || IsQuoted(v)
    || (&& v != "" && !(TrailingBlank(v[0]) && TrailingBlank(v[|v| - 1]))
        && forall i | 0 <= i < |v| :: v[i] != '"' && v[i] != '#' && v[i] != '\n')
  }

  /** What is left of it when blanks at the end of the line are removed. */
  function LineText(v: string): string
  {
    if IsQuoted(v) then v else Trimmed(v)
  }

  lemma {:induction false} TrimBehind(n: string, v: string)
    requires v != "" && !TrailingBlank(v[0])
    ensures Trimmed(n + v) == n + Trimmed(v)
    decreases |v|
  {
    var s := n + v;
    assert s[|s| - 1] == v[|v| - 1];
    if |v| > 1 && TrailingBlank(v[|v| - 1]) {
      TrimBehind(n, v[..|v| - 1]);
      assert s[..|s| - 1] == n + v[..|v| - 1];
    }
  }

  lemma TrimEnd(s: string)
    requires s != ""
    ensures Trimmed(s + "\n") == Trimmed(s)
  {
    assert (s + "\n")[..|s|] == s;
  }

  lemma SafeUncommented(n: string, v: string)
    requires IsName(n) && LineSafe(v)
    ensures Uncommented(n + "=" + v + "\n") == n + "=" + v + "\n"
  {
    if IsQuoted(v) {
      UncommentedQuoted(n, v);
    } else {
      UncommentedPlain(n, v);
    }
  }

  lemma SafeTrimmed(n: string, v: string)
    requires LineSafe(v)
    ensures Trimmed(n + "=" + v) == n + "=" + LineText(v)
  {
    if IsQuoted(v) {
      var x := n + "=" + v;
      assert x[|x| - 1] == v[|v| - 1];
    } else if !TrailingBlank(v[|v| - 1]) {
      var x := n + "=" + v;
      assert x[|x| - 1] == v[|v| - 1];
    } else {
      TrimBehind(n + "=", v);
    }
  }

  lemma CleanLine(n: string, v: string)
    requires IsName(n) && LineSafe(v)
    ensures Clean(Line(n, v)) == Some(n + "=" + LineText(v))
  {
    hide Uncommented, Trimmed, LineSafe, LineText;
    var line, s := Line(n, v), n + "=" + v + "\n";
    assert line == "\t" + s && line[1..] == s;
    assert s[0] == n[0];
    assert Lead(s) == 0 && Lead(line) == 1;
    SafeUncommented(n, v);
    TrimEnd(n + "=" + v);
    SafeTrimmed(n, v);
  }

  /** A line that fits the buffer is read back as it was written, but for blanks at its end,
      and reading goes on behind it. */
  lemma LineRoundTrip(n: string, v: string, rest: string)
    requires IsName(n) && LineSafe(v) && |Line(n, v)| <= ROOM
    ensures NextLine(Line(n, v) + rest) == (Some(n + "=" + LineText(v)), rest)
  {
    hide First, Clean, LineSafe, LineText;
    var line := Line(n, v);
    var text := line + rest;
    assert forall i | 0 <= i < |line| - 1 :: line[i] != '\n' by { NoNewline(n, v); }
    assert forall i | 0 <= i < |line| :: text[i] == line[i];
    assert text[|line| - 1] == '\n';
    assert First(text, '\n') == |line| - 1;
    assert text[..|line|] == line && text[|line|..] == rest;
    CleanLine(n, v);
  }

  lemma PlainIsSafe(v: string)
    requires IsQuoted(v) || IsPlain(v)
    ensures LineSafe(v) && LineText(v) == v
  {
  }

  // ---- Lines that people write ----

  /** Blanks in front of a line. */
  predicate Indent(s: string)
  {
    forall i | 0 <= i < |s| :: LeadingBlank(s[i])
  }

  /** Blanks within a line. */
  predicate Blanks(s: string)
  {
    forall i | 0 <= i < |s| :: TrailingBlank(s[i]) && s[i] != '\n'
  }

  /** A setting with a comment behind it. */
  function Commented(n: string, v: string, w: string, c: string): string
  {
    n + "=" + v + w + "#" + c + "\n"
  }

  /** At most one double quote. */
  predicate OneQuote(c: string)
  {
    forall i, j | 0 <= i < j < |c| :: !(c[i] == '"' && c[j] == '"')
  }

  /** The comment has no double quote that the reader takes for the end of a value: none at
      all behind a quoted value, one at most behind another. */
  predicate ClearComment(v: string, c: string)
  {
    if IsQuoted(v) then !Has(c, '"') else OneQuote(c)
  }

  lemma {:induction false} LeadOf(lead: string, s: string)
    requires Indent(lead) && s != "" && !LeadingBlank(s[0])
    ensures Lead(lead + s) == |lead| && (lead + s)[|lead|..] == s
  {
    if lead == "" {
      assert lead + s == s;
    } else {
      LeadOf(lead[1..], s);
      assert (lead + s)[1..] == lead[1..] + s;
    }
  }

  lemma {:induction false} TrimBlanks(x: string, w: string)
    requires x != "" && !TrailingBlank(x[|x| - 1])
    requires forall i | 0 <= i < |w| :: TrailingBlank(w[i])
    ensures Trimmed(x + w) == x
  {
    if w == "" {
      assert x + w == x;
    } else {
      TrimBlanks(x, w[..|w| - 1]);
      assert (x + w)[..|x + w| - 1] == x + w[..|w| - 1];
    }
  }

  lemma {:induction false} TrimmedKeeps(s: string, i: nat)
    requires i < |s| && !TrailingBlank(s[i])
    ensures |Trimmed(s)| > i
  {
    if |s| > 1 && TrailingBlank(s[|s| - 1]) {
      TrimmedKeeps(s[..|s| - 1], i);
    }
  }

  /** With two quotes the search for a comment starts at a quote, and not before the second. */
  lemma CommentFromBeyond(s: string, i: nat, j: nat)
    requires i < j < |s| && s[i] == '"' && s[j] == '"'
    ensures CommentFrom(s) < |s| && s[CommentFrom(s)] == '"' && CommentFrom(s) >= j
  {
    hide First, Last;
    var q := First(s, '"');
    var t := s[q + 1..];
    assert t[j - q - 1] == '"';
  }

  lemma CommentFromStart(s: string)
    requires OneQuote(s)
    ensures CommentFrom(s) == 0
  {
    hide First, Last;
    var q := First(s, '"');
    if q < |s| {
      var t := s[q + 1..];
      assert forall i | 0 <= i < |t| :: t[i] == s[q + 1 + i] != '"';
    }
  }

  /** The part of a commented line before its comment sign. */
  lemma BeforeComment(n: string, v: string, w: string, c: string)
    requires IsName(n) && (IsQuoted(v) || IsPlain(v)) && Blanks(w)
    ensures var s, k := Commented(n, v, w, c), |n| + 1 + |v| + |w|;
      && s[k] == '#' && s[..k] == n + "=" + v + w
      && (forall i | 0 <= i < |n| :: s[i] == n[i]) && s[|n|] == '='
      && (forall i | 0 <= i < |v| :: s[|n| + 1 + i] == v[i])
      && (forall i | 0 <= i < |w| :: s[|n| + 1 + |v| + i] == w[i])
      && (forall i | 0 <= i < |c| :: s[k + 1 + i] == c[i])
      && s[|s| - 1] == '\n'
  {
  }

  /** No comment sign, and no quote, in name, plain value and blanks. */
  lemma NoneBefore(n: string, v: string, w: string, c: string)
    requires IsName(n) && IsPlain(v) && Blanks(w)
    ensures var s, k := Commented(n, v, w, c), |n| + 1 + |v| + |w|;
      forall i | 0 <= i < k :: s[i] != '#' && s[i] != '"'
  {
    var s, k := Commented(n, v, w, c), |n| + 1 + |v| + |w|;
    BeforeComment(n, v, w, c);
    forall i | 0 <= i < k ensures s[i] != '#' && s[i] != '"' {
      if |n| < i <= |n| + |v| {
        assert s[i] == v[i - |n| - 1];
      } else if i > |n| + |v| {
        assert s[i] == w[i - |n| - 1 - |v|];
      }
    }
  }

  lemma OneQuoteLine(n: string, v: string, w: string, c: string)
    requires IsName(n) && IsPlain(v) && Blanks(w) && OneQuote(c)
    ensures OneQuote(Commented(n, v, w, c))
  {
    hide Commented, IsPlain, IsName, Blanks;
    var s, k := Commented(n, v, w, c), |n| + 1 + |v| + |w|;
    NoneBefore(n, v, w, c);
    BeforeComment(n, v, w, c);
    CommentedLength(n, v, w, c);
    forall i, j | 0 <= i < j < |s| ensures !(s[i] == '"' && s[j] == '"') {
      if k < i && j < |s| - 1 {
        assert s[k + 1 + (i - k - 1)] == c[i - k - 1] && s[k + 1 + (j - k - 1)] == c[j - k - 1];
      }
    }
  }

  lemma CutAt(s: string, k: nat)
    requires CommentFrom(s) <= k < |s| && s[k] == '#' && forall i | CommentFrom(s) <= i < k :: s[i] != '#'
    ensures Uncommented(s) == s[..k]
  {
    hide First, CommentFrom;
    var from := CommentFrom(s);
    var t := s[from..];
    assert t[k - from] == '#' && forall i | 0 <= i < k - from :: t[i] == s[from + i] != '#';
    assert First(t, '#') == k - from;
    assert s[..from] + t[..k - from] == s[..k];
  }

  lemma CutPlain(n: string, v: string, w: string, c: string)
    requires IsName(n) && IsPlain(v) && Blanks(w) && OneQuote(c)
    ensures Uncommented(Commented(n, v, w, c)) == n + "=" + v + w
  {
    hide CommentFrom, IsPlain, Commented, IsName, Blanks, OneQuote;
    var s, k := Commented(n, v, w, c), |n| + 1 + |v| + |w|;
    NoneBefore(n, v, w, c);
    BeforeComment(n, v, w, c);
    CommentedLength(n, v, w, c);
    OneQuoteLine(n, v, w, c);
    CommentFromStart(s);
    CutAt(s, k);
  }

  lemma CutQuoted(n: string, v: string, w: string, c: string)
    requires IsName(n) && IsQuoted(v) && Blanks(w) && !Has(c, '"')
    ensures Uncommented(Commented(n, v, w, c)) == n + "=" + v + w
  {
    hide CommentFrom, Commented, Uncommented;
    var s, k := Commented(n, v, w, c), |n| + 1 + |v| + |w|;
    var q, l := |n| + 1, |n| + |v|;
    BeforeComment(n, v, w, c);
    CommentedLength(n, v, w, c);
    assert s[q + 0] == v[0] && s[q + (|v| - 1)] == v[|v| - 1];
    forall i | l < i < |s| ensures s[i] != '"' && (i < k ==> s[i] != '#') {
      if i < k {
        assert s[|n| + 1 + |v| + (i - l - 1)] == w[i - l - 1];
      } else if k < i < |s| - 1 {
        assert s[k + 1 + (i - k - 1)] == c[i - k - 1];
      }
    }
    CommentFromAt(s, q, l);
    CutAt(s, k);
  }

  /** What stands before the quote where the search starts stays. */
  lemma KeptTo(s: string)
    requires CommentFrom(s) < |s| && s[CommentFrom(s)] == '"'
    ensures |Trimmed(Uncommented(s))| > CommentFrom(s)
  {
    hide First, CommentFrom, Trimmed;
    var from := CommentFrom(s);
    var t := s[from..];
    assert t[0] == '"';
    assert First(t, '#') > 0;
    assert Uncommented(s)[from] == '"';
    TrimmedKeeps(Uncommented(s), from);
  }

  /** A quote too many in the comment keeps the comment sign in the line. */
  lemma NotCut(n: string, v: string, w: string, c: string)
    requires IsName(n) && (IsQuoted(v) || IsPlain(v)) && Blanks(w) && !ClearComment(v, c)
    ensures |Trimmed(Uncommented(Commented(n, v, w, c)))| > |n| + 1 + |v|
  {
    hide CommentFrom, Trimmed, Uncommented, Commented, IsPlain, IsName, Blanks;
    var s, k := Commented(n, v, w, c), |n| + 1 + |v| + |w|;
    BeforeComment(n, v, w, c);
    CommentedLength(n, v, w, c);
    if IsQuoted(v) {
      var j :| 0 <= j < |c| && c[j] == '"';
      assert s[|n| + 1 + 0] == v[0] && s[k + 1 + j] == '"';
      CommentFromBeyond(s, |n| + 1, k + 1 + j);
    } else {
      var i, j :| 0 <= i < j < |c| && c[i] == '"' && c[j] == '"';
      assert s[k + 1 + i] == '"' && s[k + 1 + j] == '"';
      CommentFromBeyond(s, k + 1 + i, k + 1 + j);
    }
    KeptTo(s);
  }

  lemma CommentedLength(n: string, v: string, w: string, c: string)
    ensures |Commented(n, v, w, c)| == |n| + |v| + |w| + |c| + 3
  {
  }

  lemma CleanCommented(lead: string, n: string, v: string, w: string, c: string)
    requires Indent(lead) && IsName(n) && (IsQuoted(v) || IsPlain(v)) && Blanks(w)
    ensures Clean(lead + Commented(n, v, w, c)) == Some(n + "=" + v) <==> ClearComment(v, c)
  {
    hide Uncommented, Trimmed, IsQuoted, IsPlain, Lead;
    var s, x := Commented(n, v, w, c), n + "=" + v;
    assert s[0] == n[0];
    LeadOf(lead, s);
    if ClearComment(v, c) {
      if IsQuoted(v) {
        CutQuoted(n, v, w, c);
      } else {
        CutPlain(n, v, w, c);
      }
      ValueEnds(n, v);
      TrimBlanks(x, w);
    } else {
      NotCut(n, v, w, c);
    }
  }

  lemma ValueEnds(n: string, v: string)
    requires IsQuoted(v) || IsPlain(v)
    ensures var x := n + "=" + v; !TrailingBlank(x[|x| - 1])
  {
    var x := n + "=" + v;
    assert x[|x| - 1] == v[|v| - 1];
  }

  /** The next line, if it fits the buffer and is not skipped. */
  lemma WholeLine(line: string, rest: string)
    requires line != "" && |line| <= ROOM && line[|line| - 1] == '\n'
    requires forall i | 0 <= i < |line| - 1 :: line[i] != '\n'
    ensures NextLine(line + rest) == if Clean(line).None? then NextLine(rest) else (Clean(line), rest)
  {
    hide First, Clean;
    var text := line + rest;
    assert forall i | 0 <= i < |line| :: text[i] == line[i];
    assert First(text, '\n') == |line| - 1;
    assert text[..|line|] == line && text[|line|..] == rest;
  }

  lemma CommentedIsLine(lead: string, n: string, v: string, w: string, c: string)
    requires Indent(lead) && IsName(n) && (IsQuoted(v) || IsPlain(v)) && Blanks(w) && !Has(c, '\n')
    ensures var line := lead + Commented(n, v, w, c);
      line != "" && line[|line| - 1] == '\n' && forall i | 0 <= i < |line| - 1 :: line[i] != '\n'
  {
    var s, line := Commented(n, v, w, c), lead + Commented(n, v, w, c);
    var k := |n| + 1 + |v| + |w|;
    BeforeComment(n, v, w, c);
    forall i | 0 <= i < |line| - 1 ensures line[i] != '\n' {
      if i < |lead| {
        assert line[i] == lead[i];
      } else {
        var j := i - |lead|;
        assert line[i] == s[j];
        if |n| < j <= |n| + |v| {
          assert s[j] == v[j - |n| - 1];
        } else if |n| + |v| < j < k {
          assert s[j] == w[j - |n| - 1 - |v|];
        } else if j > k {
          assert s[j] == c[j - k - 1];
        }
      }
    }
  }

  /** A setting with blanks in front and a comment behind it is read without them, exactly when
      the comment has no double quote too many. */
  lemma CommentsAreRemoved(lead: string, n: string, v: string, w: string, c: string, rest: string)
    requires Indent(lead) && IsName(n) && (IsQuoted(v) || IsPlain(v)) && Blanks(w) && !Has(c, '\n')
    requires |lead + Commented(n, v, w, c)| <= ROOM
    ensures NextLine(lead + Commented(n, v, w, c) + rest) == (Some(n + "=" + v), rest) <==> ClearComment(v, c)
  {
    hide NextLine, Clean, Commented, ClearComment, IsQuoted, IsPlain, Has;
    var line := lead + Commented(n, v, w, c);
    CommentedIsLine(lead, n, v, w, c);
    WholeLine(line, rest);
    CleanCommented(lead, n, v, w, c);
    CleanIsSome(lead, n, v, w, c);
  }

  lemma CleanIsSome(lead: string, n: string, v: string, w: string, c: string)
    requires Indent(lead) && IsName(n)
    ensures Clean(lead + Commented(n, v, w, c)).Some?
  {
    hide Uncommented, Trimmed, Lead;
    var s := Commented(n, v, w, c);
    assert s[0] == n[0];
    LeadOf(lead, s);
  }

  /** A comment that keeps its sign: the quotes in it look like a value. */
  lemma QuotedCommentKept(rest: string)
    ensures NextLine("priority=1 # a \"b\"\n" + rest) != (Some("priority=1"), rest)
  {
    hide NextLine, ClearComment, IsName;
    var c := " a \"b\"";
    assert c[3] == '"' && c[5] == '"' && !OneQuote(c);
    PriorityIsName();
    assert "" + Commented("priority", "1", " ", c) + rest == "priority=1 # a \"b\"\n" + rest;
    assert "priority" + "=" + "1" == "priority=1";
    assert !ClearComment("1", c) by { QuotesTooMany(c); }
    CommentsAreRemoved("", "priority", "1", " ", c, rest);
  }

  lemma QuotesTooMany(c: string)
    requires !OneQuote(c)
    ensures !ClearComment("1", c)
  {
  }

  lemma PriorityIsName()
    ensures IsName("priority")
  {
  }

  /** Lines with nothing but blanks or a comment are skipped. */
  lemma NothingToRead(lead: string, c: string, rest: string)
    requires Indent(lead) && !Has(c, '\n') && |lead| + |c| + 2 <= ROOM
    ensures NextLine(lead + "#" + c + "\n" + rest) == NextLine(rest)
    ensures NextLine(lead + "\n" + rest) == NextLine(rest)
  {
    hide NextLine, Uncommented, Trimmed, Lead;
    var a, b := "#" + c + "\n", "\n";
    LeadOf(lead, a);
    LeadOf(lead, b);
    assert forall i | 0 <= i < |lead| :: lead[i] != '\n' by { assert forall i | 0 <= i < |lead| :: LeadingBlank(lead[i]); }
    assert forall i | 0 <= i < |c| :: c[i] != '\n';
    WholeLine(lead + a, rest);
    WholeLine(lead + b, rest);
    assert lead + "#" + c + "\n" + rest == lead + a + rest;
  }

  // ---- Lines have no newline ----

  lemma {:induction false} TrimmedIsPrefix(s: string)
    ensures Trimmed(s) <= s
    ensures s != "" && s[0] != '\n' && (forall i | 0 <= i < |s| - 1 :: s[i] != '\n') ==> forall i | 0 <= i < |Trimmed(s)| :: Trimmed(s)[i] != '\n'
  {
    if |s| > 1 && TrailingBlank(s[|s| - 1]) {
      TrimmedIsPrefix(s[..|s| - 1]);
    }
  }

  lemma CleanHasNoNewline(raw: string)
    requires forall i | 0 <= i < |raw| - 1 :: raw[i] != '\n'
    requires Clean(raw).Some?
    ensures forall i | 0 <= i < |Clean(raw).value| :: Clean(raw).value[i] != '\n'
  {
    hide Trimmed, CommentFrom, First;
    var s := raw[Lead(raw)..];
    var u := Uncommented(s);
    var from := CommentFrom(s);
    assert u == s[..|u|] by { assert s[from..][..First(s[from..], '#')] == s[from..|u|]; }
    if u == "" {
      TrimmedIsPrefix(u);
    } else {
      assert u[0] == s[0];
      TrimmedIsPrefix(u);
    }
  }

  /** Whatever the text is, no line that is read has a newline in it. */
  lemma {:induction false} NextLineHasNoNewline(text: string)
    requires NextLine(text).0.Some?
    ensures forall i | 0 <= i < |NextLine(text).0.value| :: NextLine(text).0.value[i] != '\n'
    decreases |text|
  {
    hide Clean, First;
    var n := Fgets(text);
    var raw := text[..n];
    if Clean(raw).None? {
      NextLineHasNoNewline(text[n..]);
    } else {
      assert forall i | 0 <= i < |raw| - 1 :: raw[i] == text[i] != '\n';
      CleanHasNoNewline(raw);
    }
  }

  lemma NoNewline(n: string, v: string)
    requires IsName(n) && LineSafe(v)
    ensures forall i | 0 <= i < |Line(n, v)| - 1 :: Line(n, v)[i] != '\n'
  {
    var line := Line(n, v);
    forall i | 0 <= i < |line| - 1 ensures line[i] != '\n' {
      if 1 <= i <= |n| {
        assert line[i] == n[i - 1];
      } else if i >= |n| + 2 {
        assert line[i] == v[i - |n| - 2];
      }
    }
  }
}
