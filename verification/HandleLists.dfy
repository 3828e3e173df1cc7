/** Lists of handles (addresses of list entries): unlinking, relinking, order. */
module HandleLists {

  predicate Distinct(s: seq<nat>)
  {
    forall i, j | 0 <= i < j < |s| :: s[i] != s[j]
  }

  /** The list with entry h unlinked. */
  function Drop(s: seq<nat>, h: nat): seq<nat>
  {
    if s == [] then []
    else Drop(s[..|s| - 1], h) + if s[|s| - 1] == h then [] else [s[|s| - 1]]
  }

  lemma {:induction false} DropHas(s: seq<nat>, h: nat)
    ensures forall x :: x in Drop(s, h) <==> x in s && x != h
  {
    if s != [] {
      DropHas(s[..|s| - 1], h);
      assert s == s[..|s| - 1] + [s[|s| - 1]];
    }
  }

  /** What is left keeps its order: two entries of the shorter list, and where they were. */
  lemma {:induction false} DropOrder(s: seq<nat>, h: nat, i: nat, j: nat) returns (i': nat, j': nat)
    requires i < j < |Drop(s, h)|
    ensures i' < j' < |s| && s[i'] == Drop(s, h)[i] && s[j'] == Drop(s, h)[j]
  {
    var n := |s| - 1;
    if j < |Drop(s[..n], h)| {
      i', j' := DropOrder(s[..n], h, i, j);
    } else {
      DropHas(s[..n], h);
      assert Drop(s[..n], h)[i] in s[..n];
      i' :| 0 <= i' < n && s[..n][i'] == Drop(s[..n], h)[i];
      j' := n;
    }
  }

  lemma DropDistinct(s: seq<nat>, h: nat)
    requires Distinct(s)
    ensures Distinct(Drop(s, h))
  {
    forall i, j | 0 <= i < j < |Drop(s, h)| ensures Drop(s, h)[i] != Drop(s, h)[j] {
      var i', j' := DropOrder(s, h, i, j);
    }
  }

  lemma {:induction false} DropLength(s: seq<nat>, h: nat)
    requires Distinct(s)
    ensures |Drop(s, h)| == if h in s then |s| - 1 else |s|
  {
    if s != [] {
      var init := s[..|s| - 1];
      DropLength(init, h);
      assert s == init + [s[|s| - 1]];
    }
  }

  /** The list with h' linked in the place of h. */
  function Swap(s: seq<nat>, h: nat, h': nat): (r: seq<nat>)
    ensures |r| == |s|
    ensures forall i | 0 <= i < |s| :: r[i] == if s[i] == h then h' else s[i]
  {
    seq(|s|, i requires 0 <= i < |s| => if s[i] == h then h' else s[i])
  }

  lemma SwapHas(s: seq<nat>, h: nat, h': nat)
    requires h in s
    ensures forall x :: x in Swap(s, h, h') <==> x == h' || (x in s && x != h)
  {
    var r := Swap(s, h, h');
    forall x ensures x in r <==> x == h' || (x in s && x != h) {
      if x == h' {
        var i :| 0 <= i < |s| && s[i] == h;
        assert r[i] == h';
      } else if x in s && x != h {
        var i :| 0 <= i < |s| && s[i] == x;
        assert r[i] == x;
      }
    }
  }

  lemma SwapDistinct(s: seq<nat>, h: nat, h': nat)
    requires Distinct(s) && (h' == h || h' !in s)
    ensures Distinct(Swap(s, h, h'))
  {
  }

  lemma {:induction false} NoLonger(a: seq<nat>, b: seq<nat>)
    requires Distinct(a) && Distinct(b) && forall x | x in a :: x in b
    ensures |a| <= |b|
  {
    if a != [] {
      var init, x := a[..|a| - 1], a[|a| - 1];
      assert a == init + [x];
      DropHas(b, x);
      DropDistinct(b, x);
      DropLength(b, x);
      NoLonger(init, Drop(b, x));
    }
  }

  /** Lists without repetition over the same handles have the same length. */
  lemma SameLength(a: seq<nat>, b: seq<nat>)
    requires Distinct(a) && Distinct(b) && forall x :: x in a <==> x in b
    ensures |a| == |b|
  {
    NoLonger(a, b);
    NoLonger(b, a);
  }
}
