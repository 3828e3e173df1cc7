/** The temporary BSSID blacklist: a list of counts, newest entry first. */
module Blacklist {
  import opened Octets

  datatype Entry = Entry(bssid: Bytes, count: nat)

  /** How often a BSSID has been blacklisted; 0 when it is not listed. */
  function CountOf(es: seq<Entry>, bssid: Bytes): nat
  {
    if es == [] then 0 else if es[0].bssid == bssid then es[0].count else CountOf(es[1..], bssid)
  }

  predicate Listed(es: seq<Entry>, bssid: Bytes)
  {
    exists i | 0 <= i < |es| :: es[i].bssid == bssid
  }

  /** Counts are positive and no BSSID is listed twice. */
  predicate Wellformed(es: seq<Entry>)
  {
    && (forall i | 0 <= i < |es| :: es[i].count > 0)
    && (forall i, j | 0 <= i < j < |es| :: es[i].bssid != es[j].bssid)
  }

  lemma {:induction false} CountAt(es: seq<Entry>, i: nat)
    requires Wellformed(es) && i < |es|
    ensures CountOf(es, es[i].bssid) == es[i].count
  {
    if i > 0 {
      CountAt(es[1..], i - 1);
    }
  }

  lemma {:induction false} CountZero(es: seq<Entry>, bssid: Bytes)
    requires Wellformed(es)
    ensures CountOf(es, bssid) == 0 <==> !Listed(es, bssid)
  {
    if es != [] {
      CountZero(es[1..], bssid);
      if Listed(es[1..], bssid) {
        var i :| 0 <= i < |es[1..]| && es[1..][i].bssid == bssid;
        assert es[i + 1].bssid == bssid;
      } else if es[0].bssid != bssid {
        assert forall i | 0 <= i < |es| :: es[i].bssid != bssid by {
          assert forall i | 0 < i < |es| :: es[i] == es[1..][i - 1];
        }
      }
    }
  }

  lemma {:induction false} CountUpdated(es: seq<Entry>, i: nat, c: nat, other: Bytes)
    requires Wellformed(es) && i < |es|
    ensures CountOf(es[i := Entry(es[i].bssid, c)], other) == if other == es[i].bssid then c else CountOf(es, other)
  {
    var es' := es[i := Entry(es[i].bssid, c)];
    if i > 0 {
      CountUpdated(es[1..], i - 1, c, other);
      assert es'[1..] == es[1..][i - 1 := Entry(es[i].bssid, c)];
    } else {
      assert es'[1..] == es[1..];
    }
  }

  lemma WellformedWithout(es: seq<Entry>, i: nat)
    requires Wellformed(es) && i < |es|
    ensures Wellformed(es[..i] + es[i + 1..])
  {
    var es' := es[..i] + es[i + 1..];
    forall j | 0 <= j < |es'| ensures es'[j] == es[if j < i then j else j + 1] {
    }
    forall j, k | 0 <= j < k < |es'| ensures es'[j].bssid != es'[k].bssid {
      assert es'[j] == es[if j < i then j else j + 1] && es'[k] == es[if k < i then k else k + 1];
    }
  }

  lemma {:induction false} CountWithout(es: seq<Entry>, i: nat, other: Bytes)
    requires Wellformed(es) && i < |es|
    ensures CountOf(es[..i] + es[i + 1..], other) == if other == es[i].bssid then 0 else CountOf(es, other)
  {
    var es' := es[..i] + es[i + 1..];
    if i > 0 {
      var t := es[1..];
      assert Wellformed(t) && t[i - 1] == es[i];
      CountWithout(t, i - 1, other);
      assert es' == [es[0]] + (t[..i - 1] + t[i..]);
      assert es[0].bssid != es[i].bssid;
    } else {
      var t := es[1..];
      assert es' == t && Wellformed(t);
      CountZero(t, other);
    }
  }

  class BssidBlacklist {
    var entries: seq<Entry>

    constructor ()
      ensures entries == [] && Wellformed(entries)
    {
      entries := [];
    }

    /** wpa_blacklist_get: position of the entry, or the length. */
    method Get(bssid: Bytes) returns (i: nat)
      ensures i <= |entries|
      ensures i < |entries| ==> entries[i].bssid == bssid
      ensures i == |entries| ==> !Listed(entries, bssid)
    {
      i := 0;
      while i < |entries|
        invariant i <= |entries|
        invariant forall k | 0 <= k < i :: entries[k].bssid != bssid
      {
        if entries[i].bssid == bssid {
          return;
        }
        i := i + 1;
      }
    }

    /** wpa_blacklist_add: one more failure for this BSSID and for no other. */
    method Add(bssid: Bytes) returns (count: nat)
      requires Wellformed(entries)
      modifies this
      ensures Wellformed(entries)
      ensures count == old(CountOf(entries, bssid)) + 1
      ensures forall b :: CountOf(entries, b) == old(CountOf(entries, b)) + if b == bssid then 1 else 0
    {
      var i := Get(bssid);
      ghost var was := entries;
      if i < |entries| {
        CountAt(was, i);
        forall b ensures CountOf(was[i := Entry(bssid, was[i].count + 1)], b) == CountOf(was, b) + if b == bssid then 1 else 0 {
          CountUpdated(was, i, was[i].count + 1, b);
        }
        entries := entries[i := Entry(bssid, entries[i].count + 1)];
        return entries[i].count;
      }
      CountZero(was, bssid);
      entries := [Entry(bssid, 1)] + entries;
      assert entries[1..] == was;
      return 1;
    }

    /** wpa_blacklist_del: forgets this BSSID and no other. */
    method Del(bssid: Bytes) returns (r: int)
      requires Wellformed(entries)
      modifies this
      ensures Wellformed(entries)
      ensures r == if old(CountOf(entries, bssid)) > 0 then 0 else -1
      ensures forall b :: CountOf(entries, b) == if b == bssid then 0 else old(CountOf(entries, b))
    {
      CountZero(entries, bssid);
      var i := 0;
      while i < |entries|
        modifies {}
        invariant i <= |entries|
        invariant forall k | 0 <= k < i :: entries[k].bssid != bssid
      {
        if entries[i].bssid == bssid {
          break;
        }
        i := i + 1;
      }
      if i == |entries| {
        return -1;
      }
      WellformedWithout(entries, i);
      forall b ensures CountOf(entries[..i] + entries[i + 1..], b) == if b == bssid then 0 else CountOf(entries, b) {
        CountWithout(entries, i, b);
      }
      entries := entries[..i] + entries[i + 1..];
      return 0;
    }

    /** wpa_blacklist_clear */
    method Clear()
      modifies this
      ensures entries == []
    {
      entries := [];
    }
  }
}
