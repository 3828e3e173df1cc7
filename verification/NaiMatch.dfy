/** nai_realm_match: a realm field lists realms separated by semicolons. */
module NaiMatch {
  import opened Octets
  import opened CText

  function Lower(c: char): char
  {
    if 'A' <= c <= 'Z' then c - 'A' + 'a' else c
  }

  /** os_strcasecmp(a, b) == 0 */
  predicate SameText(a: string, b: string)
  {
    |a| == |b| && forall i | 0 <= i < |a| :: Lower(a[i]) == Lower(b[i])
  }

  /** The text between semicolons. */
  function Parts(s: string): (ps: seq<string>)
    ensures |ps| > 0
    decreases |s|
  {
    var e := First(s, ';');
    if e == |s| then [s] else [s[..e]] + Parts(s[e + 1..])
  }

  /** The i-th part is compared: all are, but for an empty one at the end of a list. */
  predicate Compared(ps: seq<string>, i: nat)
    requires i < |ps|
  {
    i + 1 < |ps| || |ps| == 1 || ps[i] != ""
  }

  predicate Matches(realm: string, home: string)
  {
    var ps := Parts(realm);
    exists i: nat | i < |ps| :: Compared(ps, i) && SameText(ps[i], home)
  }

  /** The parts with semicolons between them. */
  function Joined(ps: seq<string>): string
  {
    if ps == [] then "" else if |ps| == 1 then ps[0] else ps[0] + ";" + Joined(ps[1..])
  }

  /** The parts are those that make up the text, and none of them has a semicolon. */
  lemma {:induction false} PartsMakeUp(s: string)
    ensures Joined(Parts(s)) == s
    ensures forall i | 0 <= i < |Parts(s)| :: !Has(Parts(s)[i], ';')
    decreases |s|
  {
    hide First;
    var e := First(s, ';');
    if e < |s| {
      PartsMakeUp(s[e + 1..]);
      var more := Parts(s[e + 1..]);
      assert Parts(s) == [s[..e]] + more && Parts(s)[1..] == more;
      assert s == s[..e] + ";" + s[e + 1..];
    }
  }

  /** Only the case of letters is ignored: two texts are the same exactly if they have the same
      length and at each place the same character or the two forms of one letter. */
  lemma SameTextIff(a: string, b: string)
    ensures SameText(a, b) <==> |a| == |b| && forall i | 0 <= i < |a| ::
      a[i] == b[i] || ('A' <= a[i] <= 'Z' && b[i] as int == a[i] as int + 32) || ('A' <= b[i] <= 'Z' && a[i] as int == b[i] as int + 32)
  {
    if |a| == |b| {
      forall i | 0 <= i < |a| ensures Lower(a[i]) == Lower(b[i]) <==>
        a[i] == b[i] || ('A' <= a[i] <= 'Z' && b[i] as int == a[i] as int + 32) || ('A' <= b[i] <= 'Z' && a[i] as int == b[i] as int + 32)
      {
        SameLetter(a[i], b[i]);
      }
    }
  }

  lemma SameLetter(x: char, y: char)
    ensures Lower(x) == Lower(y) <==>
      x == y || ('A' <= x <= 'Z' && y as int == x as int + 32) || ('A' <= y <= 'Z' && x as int == y as int + 32)
  {
    assert 'A' <= x <= 'Z' ==> Lower(x) as int == x as int + 32;
    assert 'A' <= y <= 'Z' ==> Lower(y) as int == y as int + 32;
  }

  /** A realm matches when it is one of those listed, whatever the case of its letters. */
  method RealmMatch(realm: Option<string>, home: Option<string>) returns (found: bool)
    ensures found <==> realm.Some? && home.Some? && Matches(realm.value, home.value)
  {
    hide SameText, First;
    if realm.None? || home.None? {
      return false;
    }
    var s, h := realm.value, home.value;
    if First(s, ';') == |s| {
      assert Compared(Parts(s), 0);
      return SameText(s, h);
    }
    found := SearchList(s, h);
  }

  /** A list of parts: those already compared, and the others. */
  ghost predicate Split(s: string, done: seq<string>, rest: string, h: string)
  {
    Parts(s) == done + Parts(rest) && forall i | 0 <= i < |done| :: !SameText(done[i], h)
  }

  lemma SplitHit(s: string, done: seq<string>, rest: string, h: string)
    requires Split(s, done, rest, h) && rest != "" && SameText(rest[..First(rest, ';')], h)
    ensures Matches(s, h)
  {
    hide SameText, First;
    var ps, p := Parts(s), rest[..First(rest, ';')];
    assert ps[|done|] == Parts(rest)[0] == p;
    assert Compared(ps, |done|);
  }

  lemma SplitOn(s: string, done: seq<string>, rest: string, h: string)
    requires Split(s, done, rest, h) && !SameText(rest[..First(rest, ';')], h) && First(rest, ';') < |rest|
    ensures Split(s, done + [rest[..First(rest, ';')]], rest[First(rest, ';') + 1..], h)
  {
    hide SameText, First;
    var p, more := rest[..First(rest, ';')], Parts(rest[First(rest, ';') + 1..]);
    assert done + ([p] + more) == done + [p] + more;
  }

  lemma SplitMiss(s: string, done: seq<string>, rest: string, h: string)
    requires Split(s, done, rest, h) && !SameText(rest, h) && First(rest, ';') == |rest|
    ensures !Matches(s, h)
  {
    hide SameText, First;
    assert Parts(s) == done + [rest];
  }

  lemma SplitEnd(s: string, done: seq<string>, h: string)
    requires Split(s, done, "", h) && First(s, ';') < |s|
    ensures !Matches(s, h)
  {
    hide SameText, First;
    assert Parts("") == [""];
    assert |Parts(s)| > 1;
  }

  lemma SplitStart(s: string, h: string)
    ensures Split(s, [], s, h)
  {
    assert [] + Parts(s) == Parts(s);
  }

  /** The loop over the parts. */
  method SearchList(s: string, h: string) returns (found: bool)
    requires First(s, ';') < |s|
    ensures found <==> Matches(s, h)
  {
    hide SameText, First, Split, Matches, Parts;
    var pos: nat := 0;
    ghost var done: seq<string> := [];
    SplitStart(s, h);
    assert s[0..] == s;
    while pos < |s|
      invariant pos <= |s|
      invariant Split(s, done, s[pos..], h)
    {
      var tail := s[pos..];
      var end := First(tail, ';');
      if SameText(tail[..end], h) {
        SplitHit(s, done, tail, h);
        return true;
      }
      if end == |tail| {
        assert tail[..end] == tail;
        SplitMiss(s, done, tail, h);
        return false;
      }
      SplitOn(s, done, tail, h);
      TailOfTail(s, pos, end + 1);
      done := done + [tail[..end]];
      pos := pos + end + 1;
    }
    assert s[pos..] == "";
    SplitEnd(s, done, h);
    return false;
  }
}
