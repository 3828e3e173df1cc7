/** Octets, little-endian fields and the small data types shared by all modules. */
module Octets {

  type byte = i: int | 0 <= i < 256

  type Bytes = seq<byte>

  datatype Option<+T> = None | Some(value: T)

  /** The 16-bit little-endian field at offset `at` (WPA_GET_LE16). */
  function Le16(b: Bytes, at: nat): (v: nat)
    requires at + 2 <= |b|
    ensures v < 0x1_0000
  {
    b[at] as int + 256 * (b[at + 1] as int)
  }

  /** The two octets of a 16-bit little-endian field (WPA_PUT_LE16). */
  function PutLe16(v: nat): (b: Bytes)
    requires v < 0x1_0000
    ensures |b| == 2 && Le16(b, 0) == v
  {
    [v % 256, v / 256]
  }

  /** All parts of a sequence of octet strings, one after the other. */
  function Join(parts: seq<Bytes>): Bytes
  {
    if parts == [] then [] else Join(parts[..|parts| - 1]) + parts[|parts| - 1]
  }

  lemma SliceOfSlice<T>(s: seq<T>, a: nat, b: nat, c: nat, d: nat)
    requires a <= b <= |s| && c <= d <= b - a
    ensures s[a..b][c..d] == s[a + c..a + d]
  {
    var t := s[a..b];
    forall i | 0 <= i < d - c ensures t[c..d][i] == s[a + c..a + d][i] {
      assert t[c..d][i] == t[c + i] == s[a + c + i];
    }
  }

  lemma TailOfSlice<T>(s: seq<T>, a: nat, b: nat, c: nat)
    requires a <= b <= |s| && c <= b - a
    ensures s[a..b][c..] == s[a + c..b]
  {
  }

  lemma TailOfTail<T>(s: seq<T>, a: nat, c: nat)
    requires a + c <= |s|
    ensures s[a..][c..] == s[a + c..]
  {
  }

  lemma SliceOfTail<T>(s: seq<T>, a: nat, c: nat, d: nat)
    requires c <= d && a + d <= |s|
    ensures s[a..][c..d] == s[a + c..a + d]
  {
  }
}
