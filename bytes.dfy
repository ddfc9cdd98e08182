/**
 * Byte strings as Go's `[]byte`: sequences of values 0..255, ordered the way
 * a KV-store iterator orders its keys (`bytes.Compare`), and the fixed-width
 * big-endian integer encoding of `sdk.Uint64ToBigEndian`.
 */
module Bytes {
  type byte = x: int | 0 <= x < 256

  /** 2^64: every `uint64` is below it. */
  const U64: int := 0x1_0000_0000_0000_0000

  function Pow256(n: nat): (r: nat)
    ensures r > 0
  {
    if n == 0 then 1 else 256 * Pow256(n - 1)
  }

  /** `bytes.Compare(a, b) < 0`: a proper prefix, or a smaller byte at the first difference. */
  predicate Less(a: seq<byte>, b: seq<byte>) {
    if |a| == 0 then |b| > 0
    else if |b| == 0 then false
    else a[0] < b[0] || (a[0] == b[0] && Less(a[1..], b[1..]))
  }

  predicate IsPrefix(p: seq<byte>, s: seq<byte>) {
    |p| <= |s| && s[..|p|] == p
  }

  /** The n-byte big-endian encoding of x mod 256^n, most significant byte first. */
  function BigEndian(x: nat, n: nat): (r: seq<byte>)
    ensures |r| == n
  {
    if n == 0 then [] else BigEndian(x / 256, n - 1) + [x % 256]
  }

  /** `sdk.BigEndianToUint64`: the number a big-endian byte string denotes. */
  function FromBigEndian(bs: seq<byte>): (r: nat)
    ensures r < Pow256(|bs|)
  {
    if bs == [] then 0 else FromBigEndian(bs[..|bs| - 1]) * 256 + bs[|bs| - 1]
  }

  /** `sdk.BigEndianToUint64(sdk.Uint64ToBigEndian(x)) == x` for x < 256^n. */
  lemma {:induction false} BigEndianRoundTrip(x: nat, n: nat)
    requires x < Pow256(n)
    ensures FromBigEndian(BigEndian(x, n)) == x
  {
    if n > 0 {
      var bs := BigEndian(x, n);
      assert bs[..n - 1] == BigEndian(x / 256, n - 1);
      BigEndianRoundTrip(x / 256, n - 1);
    }
  }

  lemma BigEndianInjective(x: nat, y: nat, n: nat)
    requires x < Pow256(n) && y < Pow256(n)
    requires BigEndian(x, n) == BigEndian(y, n)
    ensures x == y
  {
    BigEndianRoundTrip(x, n);
    BigEndianRoundTrip(y, n);
  }

  /** Two strings of one length, each extended by one byte. */
  lemma {:induction false} LessAppend(a: seq<byte>, b: seq<byte>, c: byte, d: byte)
    requires |a| == |b|
    ensures Less(a + [c], b + [d]) <==> Less(a, b) || (a == b && c < d)
  {
    if |a| > 0 {
      assert (a + [c])[1..] == a[1..] + [c] && (b + [d])[1..] == b[1..] + [d];
      LessAppend(a[1..], b[1..], c, d);
      assert a == [a[0]] + a[1..] && b == [b[0]] + b[1..];
    }
  }

  /** Big-endian encodings of one width compare as the numbers they encode. */
  lemma {:induction false} BigEndianOrder(x: nat, y: nat, n: nat)
    requires x < Pow256(n) && y < Pow256(n)
    ensures Less(BigEndian(x, n), BigEndian(y, n)) <==> x < y
  {
    if n > 0 {
      BigEndianOrder(x / 256, y / 256, n - 1);
      LessAppend(BigEndian(x / 256, n - 1), BigEndian(y / 256, n - 1), x % 256, y % 256);
      if BigEndian(x / 256, n - 1) == BigEndian(y / 256, n - 1) {
        BigEndianInjective(x / 256, y / 256, n - 1);
      }
    }
  }

  lemma LessIrreflexive(a: seq<byte>)
    ensures !Less(a, a)
  {
  }
}
