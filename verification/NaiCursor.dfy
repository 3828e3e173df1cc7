/** The cursor loops of the NAI Realm parser over one buffer. Results depend only on the octets
    between the cursor and the end: nothing else is read. */
module NaiCursor {
  import opened Octets
  import opened NaiRealm

  lemma Onwards(mem: Bytes, pos: nat, k: nat, end: nat)
    requires pos + k <= end <= |mem|
    ensures mem[pos..end][k..] == mem[pos + k..end]
    ensures forall i | 0 <= i < k :: mem[pos..end][i] == mem[pos + i]
  {
  }

  /** The loop over the authentication parameters. */
  method ReadParams(mem: Bytes, start: nat, end: nat, count: byte, first: Eap) returns (r: Option<Eap>)
    requires start <= end <= |mem|
    ensures r == Params(mem[start..end], count, first)
  {
    hide Apply;
    var pos: nat, a: nat, e := start, 0, first;
    while a < count
      invariant a <= count && pos <= end
      invariant Params(mem[start..end], count, first) == Params(mem[pos..end], count - a, e)
    {
      if pos + 2 > end || pos + 2 + mem[pos + 1] > end {
        return None;
      }
      var id, len: nat := mem[pos], mem[pos + 1];
      Onwards(mem, pos, 2 + len, end);
      SliceOfSlice(mem, pos, end, 2, 2 + len);
      e := Apply(e, id, mem[pos + 2..pos + 2 + len]);
      pos := pos + 2 + len;
      a := a + 1;
    }
    return Some(e);
  }

  /** nai_realm_parse_eap: the method and the new cursor */
  method ReadEap(mem: Bytes, pos: nat, end: nat) returns (r: Option<(Eap, nat)>)
    requires pos <= end <= |mem|
    ensures r.None? <==> ParseEap(mem[pos..end]).None?
    ensures r.Some? ==> pos <= r.value.1 && ParseEap(mem[pos..end]) == Some((r.value.0, r.value.1 - pos))
  {
    hide Params;
    if pos + 3 > end {
      return None;
    }
    var elen: nat := mem[pos];
    if pos + 1 + elen > end || elen < 2 {
      return None;
    }
    Onwards(mem, pos, 3, end);
    var e := ReadParams(mem, pos + 3, end, mem[pos + 2], Eap(mem[pos + 1], 0, 0, 0, 0));
    match e {
      case None => return None;
      case Some(x) => return Some((x, pos + 1 + elen));
    }
  }

  /** The loop over the EAP methods of a realm. */
  method ReadEaps(mem: Bytes, start: nat, end: nat, count: byte) returns (r: Option<seq<Eap>>)
    requires start <= end <= |mem|
    ensures r == ParseEaps(mem[start..end], count)
  {
    hide ParseEap;
    var pos: nat, i: nat, eaps := start, 0, [];
    StartWith(ParseEaps(mem[start..end], count));
    while i < count
      invariant i <= count && pos <= end
      invariant ParseEaps(mem[start..end], count) == Behind(eaps, ParseEaps(mem[pos..end], count - i))
    {
      var e := ReadEap(mem, pos, end);
      if e.None? {
        return None;
      }
      Onwards(mem, pos, e.value.1 - pos, end);
      OneBehind(eaps, e.value.0, ParseEaps(mem[e.value.1..end], count - i - 1));
      eaps, pos, i := eaps + [e.value.0], e.value.1, i + 1;
    }
    assert eaps + [] == eaps;
    return Some(eaps);
  }

  /** nai_realm_parse_realm: the realm and the new cursor */
  method ReadRealm(mem: Bytes, start: nat, end: nat) returns (r: Option<(Realm, nat)>)
    requires start <= end <= |mem|
    ensures r.None? <==> ParseRealm(mem[start..end]).None?
    ensures r.Some? ==> start <= r.value.1 && ParseRealm(mem[start..end]) == Some((r.value.0, r.value.1 - start))
  {
    hide ParseEaps, ParseData;
    if end - start < 4 {
      return None;
    }
    var len := Le16(mem, start);
    var pos := start + 2;
    if pos + len > end || len < 3 {
      return None;
    }
    var fEnd := pos + len;
    SliceOfSlice(mem, start, end, 2, 2 + len);
    var d := ReadData(mem, pos, fEnd);
    match d {
      case None => return None;
      case Some(x) => return Some((x, fEnd));
    }
  }

  method ReadData(mem: Bytes, start: nat, fEnd: nat) returns (r: Option<Realm>)
    requires start + 3 <= fEnd <= |mem|
    ensures r == ParseData(mem[start..fEnd])
  {
    hide ParseEaps;
    ghost var b := mem[start..fEnd];
    var encoding, realmLen: nat := mem[start], mem[start + 1];
    var pos := start + 2;
    if pos + realmLen > fEnd {
      return None;
    }
    var realm := mem[pos..pos + realmLen];
    SliceOfSlice(mem, start, fEnd, 2, 2 + realmLen);
    pos := pos + realmLen;
    if pos + 1 > fEnd {
      return None;
    }
    var count: nat := mem[pos];
    pos := pos + 1;
    if pos + 3 * count > fEnd {
      return None;
    }
    TailOfSlice(mem, start, fEnd, 3 + realmLen);
    var eaps := ReadEaps(mem, pos, fEnd, count);
    match eaps {
      case None => return None;
      case Some(x) => return Some(Realm(encoding, realm, x));
    }
  }

  /** nai_realm_parse */
  method ReadList(mem: Bytes) returns (r: Option<seq<Realm>>)
    ensures r == ParseList(mem)
  {
    hide ParseRealm;
    if |mem| < 2 {
      return None;
    }
    var num: nat, pos: nat := Le16(mem, 0), 2;
    var end := |mem|;
    if num * 5 > end - pos {
      return None;
    }
    var i: nat, realms := 0, [];
    assert mem[pos..end] == mem[2..];
    StartWith(ParseRealms(mem[2..], num));
    while i < num
      invariant i <= num && pos <= end
      invariant ParseRealms(mem[2..], num) == Behind(realms, ParseRealms(mem[pos..end], num - i))
    {
      var x := ReadRealm(mem, pos, end);
      if x.None? {
        return None;
      }
      Onwards(mem, pos, x.value.1 - pos, end);
      OneBehind(realms, x.value.0, ParseRealms(mem[x.value.1..end], num - i - 1));
      realms, pos, i := realms + [x.value.0], x.value.1, i + 1;
    }
    assert realms + [] == realms;
    return Some(realms);
  }

  /** What was read before, in front of what is still to be read. */
  ghost function Behind<T>(done: seq<T>, more: Option<seq<T>>): Option<seq<T>>
  {
    if more.None? then None else Some(done + more.value)
  }

  lemma StartWith<T>(more: Option<seq<T>>)
    ensures Behind([], more) == more
  {
    if more.Some? {
      assert [] + more.value == more.value;
    }
  }

  lemma OneBehind<T>(done: seq<T>, x: T, more: Option<seq<T>>)
    ensures Behind(done + [x], more) == Behind(done, if more.None? then None else Some([x] + more.value))
  {
    if more.Some? {
      assert done + [x] + more.value == done + ([x] + more.value);
    }
  }
}
