/** A growable file of bytes with positioned reads and writes, and the 64-bit big-endian
    integers the encryptor keeps in it. */
module ByteStore {
  import opened Outcomes

  newtype byte = x: int | 0 <= x < 256

  function Zeros(n: nat): (r: seq<byte>)
    ensures |r| == n
  {
    seq(n, _ => 0)
  }

  /** A positioned write: a gap between the end of the file and `off` reads as zeros. */
  function WriteAt(s: seq<byte>, off: nat, data: seq<byte>): (r: seq<byte>)
    requires data != []
    ensures |r| == if |s| < off + |data| then off + |data| else |s|
  {
    var base := if |s| < off then s + Zeros(off - |s|) else s;
    var tail := if off + |data| < |base| then base[off + |data|..] else [];
    base[..off] + data + tail
  }

  /** A positioned read of exactly `n` bytes; a short read is an error. */
  function ReadAt(s: seq<byte>, off: nat, n: nat): (r: Option<seq<byte>>)
    ensures r.Some? <==> off + n <= |s|
    ensures r.Some? ==> |r.value| == n
  {
    if off + n <= |s| then Some(s[off..off + n]) else None
  }

  /** The data is at its place, every byte before the end of the file and outside that window is as it
      was, and a gap is filled with zeros. */
  lemma Writes(s: seq<byte>, off: nat, data: seq<byte>)
    requires data != []
    ensures var r := WriteAt(s, off, data);
            && r[off..off + |data|] == data
            && (forall k :: 0 <= k < |s| && (k < off || off + |data| <= k) ==> r[k] == s[k])
            && (forall k :: |s| <= k < off ==> r[k] == 0)
  {
  }

  /** A read of the window that was written gets the data. */
  lemma ReadSame(s: seq<byte>, off: nat, data: seq<byte>)
    requires data != []
    ensures ReadAt(WriteAt(s, off, data), off, |data|) == Some(data)
  {
    Writes(s, off, data);
  }

  /** A read of a disjoint window gets what was there. */
  lemma ReadDisjoint(s: seq<byte>, off: nat, data: seq<byte>, at: nat, n: nat)
    requires data != []
    requires at + n <= off || off + |data| <= at
    requires at + n <= |s|
    ensures ReadAt(WriteAt(s, off, data), at, n) == ReadAt(s, at, n)
  {
    Writes(s, off, data);
    assert WriteAt(s, off, data)[at..at + n] == s[at..at + n];
  }

  // ----- 64-bit integers, big-endian -----

  const TWO63 := 0x8000_0000_0000_0000
  const TWO64 := 0x1_0000_0000_0000_0000

  /** The `k` low-order base-256 digits of `n`, most significant first. */
  function BigEndian(n: nat, k: nat): (r: seq<byte>)
    ensures |r| == k
  {
    if k == 0 then [] else BigEndian(n / 256, k - 1) + [(n % 256) as byte]
  }

  function FromBigEndian(s: seq<byte>): nat {
    if s == [] then 0 else 256 * FromBigEndian(s[..|s| - 1]) + s[|s| - 1] as nat
  }

  function Pow256(k: nat): (r: nat)
    ensures r > 0
  {
    if k == 0 then 1 else 256 * Pow256(k - 1)
  }

  lemma {:induction false} BigEndianRoundTrip(n: nat, k: nat)
    requires n < Pow256(k)
    ensures FromBigEndian(BigEndian(n, k)) == n
  {
    if k > 0 {
      var r := BigEndian(n, k);
      assert r[..|r| - 1] == BigEndian(n / 256, k - 1);
      BigEndianRoundTrip(n / 256, k - 1);
    }
  }

  lemma Pow256Eight()
    ensures Pow256(8) == TWO64
  {
    assert Pow256(2) == 0x1_0000;
    assert Pow256(4) == 0x1_0000_0000;
    assert Pow256(6) == 0x1_0000_0000_0000;
  }

  lemma {:induction false} FromBigEndianBound(s: seq<byte>)
    ensures FromBigEndian(s) < Pow256(|s|)
  {
    if s != [] { FromBigEndianBound(s[..|s| - 1]); }
  }

  type int64 = v: int | -TWO63 <= v < TWO63

  /** uint64(v) for an int64 `v`, then PutUint64. */
  function PutInt64(v: int64): (r: seq<byte>)
    ensures |r| == 8
  {
    BigEndian(if v < 0 then v + TWO64 else v, 8)
  }

  /** int64(Uint64(s)). */
  function GetInt64(s: seq<byte>): int64
    requires |s| == 8
  {
    FromBigEndianBound(s);
    assert Pow256(8) == TWO64 by { Pow256Eight(); }
    var u := FromBigEndian(s);
    if u < TWO63 then u else u - TWO64
  }

  lemma Int64RoundTrip(v: int64)
    ensures GetInt64(PutInt64(v)) == v
  {
    Pow256Eight();
    BigEndianRoundTrip(if v < 0 then v + TWO64 else v, 8);
  }
}
