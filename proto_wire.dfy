/**
 * The protobuf wire format as the gogoproto-generated codecs of the chain
 * read and write it.  Every generated file carries its own copy of the same
 * helpers (`encodeVarintQuery`/`encodeVarintProposals`, `sovQuery`/
 * `sovProposals`, `skipQuery`/`skipProposals`, and the varint loops inlined
 * into every `Unmarshal`); this module states them once.
 *
 * Marshalling writes backwards: a buffer of exactly `Size()` bytes is filled
 * from its end, the last field first.  Unmarshalling advances an index
 * through the input; indices and lengths are Go `int`s (64-bit, wrapping),
 * and an input slice is shorter than 2^63 bytes.
 */
module ProtoWire {
  import opened Wrappers
  import opened Bytes
  import Arith

  const TwoTo31: int := 0x8000_0000
  const TwoTo32: int := 0x1_0000_0000
  const TwoTo63: int := 0x8000_0000_0000_0000

  type uint32 = x: int | 0 <= x < 0x1_0000_0000
  type uint64 = x: int | 0 <= x < 0x1_0000_0000_0000_0000

  /** The errors an `Unmarshal` or `skip` returns. */
  datatype WireError =
    | IntOverflow                        // ErrIntOverflow: a varint of more than 10 bytes
    | UnexpectedEOF                      // io.ErrUnexpectedEOF
    | InvalidLength                      // ErrInvalidLength: a negative length or index
    | UnexpectedEndOfGroup               // ErrUnexpectedEndOfGroup
    | IllegalWireType(wireType: nat)     // "proto: illegal wireType %d"
    | EndGroupForNonGroup                // "wiretype end group for non-group"
    | IllegalTag(fieldNum: int)          // "illegal tag %d"
    | WrongWireType(fieldNum: int, wireType: nat)  // "wrong wireType = %d for field ..."
    | NestedFailed                       // the error of a nested message's `Unmarshal`

  function Pow2(n: nat): (r: nat)
    ensures r > 0
  {
    if n == 0 then 1 else 2 * Pow2(n - 1)
  }

  lemma Pow2Step(n: nat)
    ensures Pow2(n + 7) == 128 * Pow2(n)
  {
    assert Pow2(n + 7) == 2 * Pow2(n + 6) == 4 * Pow2(n + 5) == 8 * Pow2(n + 4);
    assert Pow2(n + 4) == 2 * Pow2(n + 3) == 4 * Pow2(n + 2) == 8 * Pow2(n + 1) == 16 * Pow2(n);
  }

  /** A Go `uint64` reinterpreted as an `int`. */
  function ToInt64(v: nat): (r: int)
    requires v < U64
    ensures -TwoTo63 <= r < TwoTo63
  {
    if v >= TwoTo63 then v - U64 else v
  }

  /** Go's `int` addition of two non-negative `int`s, which wraps to a negative value past 2^63 - 1. */
  function IntAdd(a: nat, b: nat): (r: int)
    requires a < TwoTo63 && b < TwoTo63
    ensures r >= 0 <==> a + b < TwoTo63
    ensures r >= 0 ==> r == a + b
  {
    ToInt64(a + b)
  }

  /** `int32(x)`: the low 32 bits of x, as a signed number. */
  function Int32(x: nat): (r: int)
    ensures -TwoTo31 <= r < TwoTo31
  {
    var y := x % TwoTo32;
    if y >= TwoTo31 then y - TwoTo32 else y
  }

  // ---------------------------------------------------------------------
  // Varints

  /** The base-128 encoding of v: seven bits per byte, least significant group first, high bit set on every byte but the last. */
  function Varint(v: nat): (r: seq<byte>)
    ensures |r| >= 1
    decreases v
  {
    if v < 128 then [v] else [v % 128 + 128] + Varint(v / 128)
  }

  /** `math_bits.Len64`: the number of bits needed to write x. */
  function BitLen(x: nat): nat {
    if x == 0 then 0 else 1 + BitLen(x / 2)
  }

  /** `sovQuery(x)` / `sovProposals(x)`: `(Len64(x|1) + 6) / 7`. */
  function Sov(x: nat): nat {
    (BitLen(if x % 2 == 0 then x + 1 else x) + 6) / 7
  }

  lemma BitLenOr1(x: nat)
    requires x >= 1
    ensures BitLen(if x % 2 == 0 then x + 1 else x) == BitLen(x)
  {
    if x % 2 == 0 {
      assert (x + 1) / 2 == x / 2;
    }
  }

  lemma BitLenDiv128(x: nat)
    requires x >= 128
    ensures BitLen(x) == BitLen(x / 128) + 7
  {
    var x1, x2, x3, x4, x5, x6, x7 := x / 2, x / 4, x / 8, x / 16, x / 32, x / 64, x / 128;
    assert x1 / 2 == x2 && x2 / 2 == x3 && x3 / 2 == x4 && x4 / 2 == x5 && x5 / 2 == x6 && x6 / 2 == x7;
    assert BitLen(x) == 1 + BitLen(x1);
    assert BitLen(x1) == 1 + BitLen(x2);
    assert BitLen(x2) == 1 + BitLen(x3);
    assert BitLen(x3) == 1 + BitLen(x4);
    assert BitLen(x4) == 1 + BitLen(x5);
    assert BitLen(x5) == 1 + BitLen(x6);
    assert BitLen(x6) == 1 + BitLen(x7);
  }

  lemma {:induction false} BitLenAtMost(x: nat, k: nat)
    requires x < Pow2(k)
    ensures BitLen(x) <= k
    decreases k
  {
    if x > 0 {
      BitLenAtMost(x / 2, k - 1);
    }
  }

  lemma BitLenBelow128(x: nat)
    requires 1 <= x < 128
    ensures 1 <= BitLen(x) <= 7
  {
    Pow2Step(0);
    BitLenAtMost(x, 7);
  }

  /** `sov(x)` is the number of base-128 digits of x: the length of its varint. */
  lemma {:induction false} SovIsVarintLength(x: nat)
    ensures Sov(x) == |Varint(x)|
    decreases x
  {
    if x < 128 {
      BitLenBelow128(if x % 2 == 0 then x + 1 else x);
    } else {
      BitLenOr1(x);
      BitLenDiv128(x);
      BitLenOr1(x / 128);
      SovIsVarintLength(x / 128);
    }
  }

  function Pow128(k: nat): (r: nat)
    ensures r > 0
  {
    if k == 0 then 1 else 128 * Pow128(k - 1)
  }

  lemma {:induction false} VarintLengthBound(v: nat, k: nat)
    requires k >= 1 && v < Pow128(k)
    ensures |Varint(v)| <= k
    decreases k
  {
    if v >= 128 {
      VarintLengthBound(v / 128, k - 1);
    }
  }

  /** Every `uint64` takes one to ten bytes. */
  lemma VarintAtMostTen(v: nat)
    requires v < U64
    ensures 1 <= Sov(v) == |Varint(v)| <= 10
  {
    SovIsVarintLength(v);
    assert Pow128(1) == 0x80;
    assert Pow128(2) == 0x4000;
    assert Pow128(3) == 0x20_0000;
    assert Pow128(4) == 0x1000_0000;
    assert Pow128(5) == 0x8_0000_0000;
    assert Pow128(6) == 0x400_0000_0000;
    assert Pow128(7) == 0x2_0000_0000_0000;
    assert Pow128(8) == 0x100_0000_0000_0000;
    assert Pow128(9) == 0x8000_0000_0000_0000;
    assert Pow128(10) == 0x40_0000_0000_0000_0000;
    VarintLengthBound(v, 10);
  }

  /** The continuation bit is set on every byte but the last. */
  /** A 32-bit value takes at most five bytes. */
  lemma Uint32VarintLength(v: nat)
    requires v < TwoTo32
    ensures |Varint(v)| <= 5
  {
    VarintLengthBound(v, 5);
    assert Pow128(5) == 0x8_0000_0000 by {
      assert Pow128(1) == 0x80;
      assert Pow128(2) == 0x4000;
      assert Pow128(3) == 0x20_0000;
      assert Pow128(4) == 0x1000_0000;
    }
  }

  lemma {:induction false} VarintShape(v: nat)
    ensures forall k :: 0 <= k < |Varint(v)| - 1 ==> Varint(v)[k] >= 128
    ensures Varint(v)[|Varint(v)| - 1] < 128
    decreases v
  {
    if v >= 128 {
      VarintShape(v / 128);
      assert forall k :: 1 <= k < |Varint(v)| ==> Varint(v)[k] == Varint(v / 128)[k - 1];
    }
  }

  /** A varint of at least 128 is a continuation group followed by the varint of the rest. */
  lemma VarintCons(w: nat)
    requires w >= 128
    ensures Varint(w) == [w % 128 + 128] + Varint(w / 128) && |Varint(w)| == 1 + |Varint(w / 128)|
  {
  }

  /** Moving the next group from the unwritten rest to the written prefix keeps the whole. */
  lemma PushGroup(written: seq<byte>, x: byte, rest: seq<byte>, whole: seq<byte>)
    requires written + ([x] + rest) == whole
    ensures (written + [x]) + rest == whole
  {
    assert written + ([x] + rest) == (written + [x]) + rest;
  }

  /** Writes x at o, growing the written part buf[base..o] by one byte and leaving everything outside base..offset alone. */
  method PutByte(buf: array<byte>, base: nat, o: nat, offset: nat, x: byte)
    requires base <= o < offset <= buf.Length
    modifies buf
    ensures buf[base..o + 1] == old(buf[base..o]) + [x]
    ensures buf[..base] == old(buf[..base]) && buf[offset..] == old(buf[offset..])
  {
    ghost var written := buf[base..o];
    buf[o] := x;
    assert buf[base..o + 1] == written + [x];
  }

  /** One continuation group moves from the varint still to write to the bytes written. */
  lemma GroupStep(written: seq<byte>, w: nat, whole: seq<byte>)
    requires w >= 128 && written + Varint(w) == whole
    ensures (written + [w % 128 + 128]) + Varint(w / 128) == whole
    ensures |Varint(w)| == 1 + |Varint(w / 128)|
  {
    VarintCons(w);
    PushGroup(written, w % 128 + 128, Varint(w / 128), whole);
  }

  /** The last group completes the varint. */
  lemma LastGroup(written: seq<byte>, w: nat, whole: seq<byte>)
    requires w < 128 && written + Varint(w) == whole
    ensures written + [w] == whole
  {
  }

  /** `encodeVarint(dAtA, offset, v)`: fills the `sov(v)` bytes just before `offset` and returns where they start. */
  method EncodeVarint(buf: array<byte>, offset: nat, v: nat) returns (base: nat)
    requires v < U64 && Sov(v) <= offset <= buf.Length
    modifies buf
    ensures base == offset - Sov(v)
    ensures buf[base..offset] == Varint(v)
    ensures buf[..base] == old(buf[..base]) && buf[offset..] == old(buf[offset..])
  {
    SovIsVarintLength(v);
    base := offset - Sov(v);
    var o := base;
    var w := v;
    while w >= 128
      invariant base <= o && o + |Varint(w)| == offset
      invariant buf[base..o] + Varint(w) == Varint(v)
      invariant buf[..base] == old(buf[..base]) && buf[offset..] == old(buf[offset..])
      decreases w
    {
      GroupStep(buf[base..o], w, Varint(v));
      PutByte(buf, base, o, offset, w % 128 + 128);
      w := w / 128;
      o := o + 1;
    }
    LastGroup(buf[base..o], w, Varint(v));
    PutByte(buf, base, o, offset, w);
  }

  /**
   * Where the varint at i ends: the control flow of the varint loop inlined
   * into every `Unmarshal` and `skip`, which stops after the first byte
   * below 0x80 and fails once the shift reaches 64 or the input runs out.
   */
  function VarintEnd(bs: seq<byte>, i: nat, shift: nat): (r: Result<nat, WireError>)
    ensures r.Ok? ==> i < r.value <= |bs|
    decreases 70 - shift
  {
    if shift >= 64 then Err(IntOverflow)
    else if i >= |bs| then Err(UnexpectedEOF)
    else if bs[i] < 128 then Ok(i + 1)
    else VarintEnd(bs, i + 1, shift + 7)
  }

  /** The number that base-128 groups denote, least significant first; the high bit of each byte is ignored. */
  function Base128(groups: seq<byte>): nat {
    if groups == [] then 0 else groups[0] % 128 + 128 * Base128(groups[1..])
  }

  /**
   * The value of the varint at i and the index just past it.  The loop's
   * `wire |= uint64(b&0x7F) << shift` puts each group into its own bits and
   * truncates to 64 bits, which makes the groups' number modulo 2^64.
   */
  function ReadVarint(bs: seq<byte>, i: nat): (r: Result<(nat, nat), WireError>)
    ensures r.Ok? ==> r.value.0 < U64 && i < r.value.1 <= |bs|
  {
    match VarintEnd(bs, i, 0)
    case Err(e) => Err(e)
    case Ok(e) => Ok((Base128(bs[i..e]) % U64, e))
  }

  lemma {:induction false} Pow2Is128(k: nat)
    ensures Pow2(7 * k) == Pow128(k)
  {
    if k > 0 {
      Pow2Step(7 * (k - 1));
      Pow2Is128(k - 1);
    }
  }

  lemma Scale128(c: nat, p: nat)
    ensures 128 * (c * p) == c * (128 * p)
  {
  }

  lemma {:induction false} Base128Append(groups: seq<byte>, b: byte)
    ensures Base128(groups + [b]) == Base128(groups) + (b % 128) * Pow128(|groups|)
    decreases |groups|
  {
    if groups == [] {
      assert ([] + [b])[1..] == [];
    } else {
      assert (groups + [b])[1..] == groups[1..] + [b];
      Base128Append(groups[1..], b);
      Scale128(b % 128, Pow128(|groups| - 1));
    }
  }

  lemma ModAdd(x: nat, y: nat)
    ensures (x % U64 + y % U64) % U64 == (x + y) % U64
  {
    var rx, ry := x % U64, y % U64;
    var q := x / U64 + y / U64 + (rx + ry) / U64;
    assert x + y == q * U64 + (rx + ry) % U64;
    Arith.DivUnique(x + y, U64, q, (rx + ry) % U64);
  }

  /** One turn of the varint loop adds the next group to the truncated value. */
  lemma WireStep(bs: seq<byte>, start: nat, i: nat, shift: nat, wire: nat)
    requires start <= i < |bs| && shift == 7 * (i - start) && wire == Base128(bs[start..i]) % U64
    ensures (wire + (bs[i] % 128) * Pow2(shift) % U64) % U64 == Base128(bs[start..i + 1]) % U64
  {
    var xs, d := bs[start..i], bs[i] % 128;
    assert bs[start..i + 1] == xs + [bs[i]];
    assert Pow2(shift) == Pow128(|xs|) by {
      Pow2Is128(i - start);
    }
    assert Base128(xs + [bs[i]]) == Base128(xs) + d * Pow2(shift) by {
      Base128Append(xs, bs[i]);
    }
    ModAdd(Base128(xs), d * Pow2(shift));
  }

  /** The varint loop itself, with Go's shifts and truncations. */
  method DecodeVarint(bs: seq<byte>, start: nat) returns (r: Result<(nat, nat), WireError>)
    requires start <= |bs|
    ensures r == ReadVarint(bs, start)
  {
    var wire: nat, i: nat, shift: nat := 0, start, 0;
    while true
      invariant start <= i && shift == 7 * (i - start) && shift < 71
      invariant VarintEnd(bs, i, shift) == VarintEnd(bs, start, 0)
      invariant i <= |bs| && wire == Base128(bs[start..i]) % U64
      decreases 70 - shift
    {
      if shift >= 64 {
        return Err(IntOverflow);
      }
      if i >= |bs| {
        return Err(UnexpectedEOF);
      }
      var b := bs[i];
      WireStep(bs, start, i, shift, wire);
      i := i + 1;
      wire := (wire + (b % 128) * Pow2(shift) % U64) % U64;
      if b < 128 {
        return Ok((wire, i));
      }
      shift := shift + 7;
    }
  }

  lemma {:induction false} VarintEndOf(bs: seq<byte>, i: nat, shift: nat, w: nat)
    requires i + |Varint(w)| <= |bs| && bs[i..i + |Varint(w)|] == Varint(w)
    requires shift + 7 * (|Varint(w)| - 1) < 64
    ensures VarintEnd(bs, i, shift) == Ok(i + |Varint(w)|)
    decreases w
  {
    assert bs[i] == Varint(w)[0];
    if w >= 128 {
      assert bs[i + 1..i + 1 + |Varint(w / 128)|] == Varint(w / 128) by {
        assert Varint(w)[1..] == Varint(w / 128);
        assert bs[i + 1..i + 1 + |Varint(w / 128)|] == bs[i..i + |Varint(w)|][1..];
      }
      VarintEndOf(bs, i + 1, shift + 7, w / 128);
    }
  }

  lemma {:induction false} Base128Varint(v: nat)
    ensures Base128(Varint(v)) == v
    decreases v
  {
    if v >= 128 {
      assert Varint(v)[1..] == Varint(v / 128);
      Base128Varint(v / 128);
    }
  }

  /** Decoding what `encodeVarint` wrote gives back the value and moves past exactly its bytes. */
  lemma ReadVarintAt(bs: seq<byte>, i: nat, v: nat)
    requires v < U64
    requires i + |Varint(v)| <= |bs| && bs[i..i + |Varint(v)|] == Varint(v)
    ensures ReadVarint(bs, i) == Ok((v, i + |Varint(v)|))
  {
    VarintAtMostTen(v);
    VarintEndOf(bs, i, 0, v);
    Base128Varint(v);
    ReadVarintOf(bs, i, i + |Varint(v)|, v);
  }

  lemma ReadVarintOf(bs: seq<byte>, i: nat, e: nat, v: nat)
    requires v < U64 && i <= e <= |bs| && VarintEnd(bs, i, 0) == Ok(e) && Base128(bs[i..e]) == v
    ensures ReadVarint(bs, i) == Ok((v, e))
  {
  }

  lemma {:induction false} VarintEndOverflow(bs: seq<byte>, i: nat, shift: nat)
    requires shift % 7 == 0 && shift <= 70
    requires i + (70 - shift) / 7 <= |bs|
    requires forall k :: i <= k < i + (70 - shift) / 7 ==> bs[k] >= 128
    ensures VarintEnd(bs, i, shift) == Err(IntOverflow)
    decreases 70 - shift
  {
    if shift < 64 {
      VarintEndOverflow(bs, i + 1, shift + 7);
    }
  }

  /** Ten bytes with the continuation bit set: the varint would be longer than ten bytes, which is `ErrIntOverflow`. */
  lemma ReadVarintOverflow(bs: seq<byte>, i: nat)
    requires i + 10 <= |bs| && forall k :: i <= k < i + 10 ==> bs[k] >= 128
    ensures ReadVarint(bs, i) == Err(IntOverflow)
  {
    VarintEndOverflow(bs, i, 0);
  }

  lemma {:induction false} VarintEndTruncated(bs: seq<byte>, i: nat, shift: nat)
    requires i <= |bs| && shift + 7 * (|bs| - i) < 64
    requires forall k :: i <= k < |bs| ==> bs[k] >= 128
    ensures VarintEnd(bs, i, shift) == Err(UnexpectedEOF)
    decreases |bs| - i
  {
    if i < |bs| {
      VarintEndTruncated(bs, i + 1, shift + 7);
    }
  }

  /** Input that ends, within ten bytes, while the continuation bit is still set is `ErrUnexpectedEOF`. */
  lemma ReadVarintTruncated(bs: seq<byte>, i: nat)
    requires i <= |bs| < i + 10
    requires forall k :: i <= k < |bs| ==> bs[k] >= 128
    ensures ReadVarint(bs, i) == Err(UnexpectedEOF)
  {
    VarintEndTruncated(bs, i, 0);
  }

  // ---------------------------------------------------------------------
  // Tags and lengths

  /**
   * The head of every `Unmarshal` loop: the tag varint, split into
   * `fieldNum := int32(wire >> 3)` and `wireType := wire & 7`; an end-group
   * wire type and a field number of zero or below are refused.
   */
  function ReadTag(bs: seq<byte>, i: nat): (r: Result<(int, nat, nat), WireError>)
    ensures r.Ok? ==> r.value.0 > 0 && r.value.1 < 8 && r.value.1 != 4 && i < r.value.2 <= |bs|
  {
    match ReadVarint(bs, i)
    case Err(e) => Err(e)
    case Ok((wire, j)) =>
      var fieldNum := Int32(wire / 8);
      var wireType := wire % 8;
      if wireType == 4 then Err(EndGroupForNonGroup)
      else if fieldNum <= 0 then Err(IllegalTag(fieldNum))
      else Ok((fieldNum, wireType, j))
  }

  method DecodeTag(bs: seq<byte>, i: nat) returns (r: Result<(int, nat, nat), WireError>)
    requires i <= |bs|
    ensures r == ReadTag(bs, i)
  {
    var wire := DecodeVarint(bs, i);
    if wire.Err? {
      return Err(wire.error);
    }
    var fieldNum := Int32(wire.value.0 / 8);
    var wireType := wire.value.0 % 8;
    if wireType == 4 {
      return Err(EndGroupForNonGroup);
    }
    if fieldNum <= 0 {
      return Err(IllegalTag(fieldNum));
    }
    return Ok((fieldNum, wireType, wire.value.1));
  }

  /**
   * A length-delimited payload after its tag: the length varint read as an
   * `int`, refused when negative, and `postIndex := iNdEx + length` refused
   * when negative or past the end.  The result is the payload's bounds.
   */
  function ReadLength(bs: seq<byte>, j: nat): (r: Result<(nat, nat), WireError>)
    requires |bs| < TwoTo63
    ensures r.Ok? ==> j < r.value.0 <= r.value.1 <= |bs|
  {
    match ReadVarint(bs, j)
    case Err(e) => Err(e)
    case Ok((raw, k)) =>
      var length := ToInt64(raw);
      if length < 0 then Err(InvalidLength)
      else
        var post := IntAdd(k, length);
        if post < 0 then Err(InvalidLength)
        else if post > |bs| then Err(UnexpectedEOF)
        else Ok((k, post))
  }

  method DecodeLength(bs: seq<byte>, j: nat) returns (r: Result<(nat, nat), WireError>)
    requires j <= |bs| < TwoTo63
    ensures r == ReadLength(bs, j)
  {
    var raw := DecodeVarint(bs, j);
    if raw.Err? {
      return Err(raw.error);
    }
    var length := ToInt64(raw.value.0);
    if length < 0 {
      return Err(InvalidLength);
    }
    var post := IntAdd(raw.value.1, length);
    if post < 0 {
      return Err(InvalidLength);
    }
    if post > |bs| {
      return Err(UnexpectedEOF);
    }
    return Ok((raw.value.1, post));
  }

  // ---------------------------------------------------------------------
  // Skipping unknown fields

  /** One wire type's step of `skip`: the new index and group depth. */
  function SkipPayload(bs: seq<byte>, j: nat, wireType: nat, depth: nat): (r: Result<(int, nat), WireError>)
    requires j <= |bs| < TwoTo63
    ensures r.Ok? && r.value.0 >= 0 ==> r.value.0 >= j
  {
    if wireType == 0 then
      match ReadVarint(bs, j)
      case Err(e) => Err(e)
      case Ok((_, k)) => Ok((k, depth))
    else if wireType == 1 then Ok((IntAdd(j, 8), depth))
    else if wireType == 2 then
      match ReadVarint(bs, j)
      case Err(e) => Err(e)
      case Ok((raw, k)) =>
        var length := ToInt64(raw);
        if length < 0 then Err(InvalidLength) else Ok((IntAdd(k, length), depth))
    else if wireType == 3 then Ok((j, depth + 1))
    else if wireType == 4 then (if depth == 0 then Err(UnexpectedEndOfGroup) else Ok((j, depth - 1)))
    else if wireType == 5 then Ok((IntAdd(j, 4), depth))
    else Err(IllegalWireType(wireType))
  }

  /** The `skip` loop from index i at group depth `depth`. */
  function SkipFrom(bs: seq<byte>, i: nat, depth: nat): (r: Result<nat, WireError>)
    requires |bs| < TwoTo63
    ensures r.Ok? ==> i < r.value < TwoTo63
    decreases |bs| - i
  {
    if i >= |bs| then Err(UnexpectedEOF)
    else
      match ReadVarint(bs, i)
      case Err(e) => Err(e)
      case Ok((wire, j)) =>
        match SkipPayload(bs, j, wire % 8, depth)
        case Err(e) => Err(e)
        case Ok((next, d)) =>
          if next < 0 then Err(InvalidLength)
          else if d == 0 then Ok(next)
          else SkipFrom(bs, next, d)
  }

  /** `skipQuery(dAtA)` / `skipProposals(dAtA)`: the length of the field at the start of `bs`, groups included. */
  function Skip(bs: seq<byte>): (r: Result<nat, WireError>)
    requires |bs| < TwoTo63
    ensures r.Ok? ==> 0 < r.value < TwoTo63
  {
    SkipFrom(bs, 0, 0)
  }

  method SkipPayloadStep(bs: seq<byte>, j: nat, wireType: nat, depth: nat) returns (r: Result<(int, nat), WireError>)
    requires j <= |bs| < TwoTo63
    ensures r == SkipPayload(bs, j, wireType, depth)
  {
    if wireType == 0 {
      var v := DecodeVarint(bs, j);
      if v.Err? {
        return Err(v.error);
      }
      return Ok((v.value.1, depth));
    } else if wireType == 1 {
      return Ok((IntAdd(j, 8), depth));
    } else if wireType == 2 {
      var raw := DecodeVarint(bs, j);
      if raw.Err? {
        return Err(raw.error);
      }
      var length := ToInt64(raw.value.0);
      if length < 0 {
        return Err(InvalidLength);
      }
      return Ok((IntAdd(raw.value.1, length), depth));
    } else if wireType == 3 {
      return Ok((j, depth + 1));
    } else if wireType == 4 {
      if depth == 0 {
        return Err(UnexpectedEndOfGroup);
      }
      return Ok((j, depth - 1));
    } else if wireType == 5 {
      return Ok((IntAdd(j, 4), depth));
    }
    return Err(IllegalWireType(wireType));
  }

  method SkipField(bs: seq<byte>) returns (r: Result<nat, WireError>)
    requires |bs| < TwoTo63
    ensures r == Skip(bs)
  {
    var i: nat, depth: nat := 0, 0;
    while i < |bs|
      invariant SkipFrom(bs, i, depth) == Skip(bs)
      decreases |bs| - i
    {
      var wire := DecodeVarint(bs, i);
      if wire.Err? {
        return Err(wire.error);
      }
      var step := SkipPayloadStep(bs, wire.value.1, wire.value.0 % 8, depth);
      if step.Err? {
        return Err(step.error);
      }
      var next := step.value.0;
      if next < 0 {
        return Err(InvalidLength);
      }
      depth := step.value.1;
      if depth == 0 {
        return Ok(next);
      }
      i := next;
    }
    return Err(UnexpectedEOF);
  }

  /**
   * The `default:` branch of every `Unmarshal`: skip the unknown field that
   * starts at `pre`, refusing a skip that ends past the input.
   */
  function SkipUnknown(bs: seq<byte>, pre: nat): (r: Result<nat, WireError>)
    requires pre < |bs| < TwoTo63
    ensures r.Ok? ==> pre < r.value <= |bs|
  {
    match Skip(bs[pre..])
    case Err(e) => Err(e)
    case Ok(skippy) =>
      var end := IntAdd(pre, skippy);
      if end < 0 then Err(InvalidLength)
      else if end > |bs| then Err(UnexpectedEOF)
      else Ok(end)
  }

  method SkipUnknownField(bs: seq<byte>, pre: nat) returns (r: Result<nat, WireError>)
    requires pre < |bs| < TwoTo63
    ensures r == SkipUnknown(bs, pre)
  {
    var skippy := SkipField(bs[pre..]);
    if skippy.Err? {
      return Err(skippy.error);
    }
    var end := IntAdd(pre, skippy.value);
    if end < 0 {
      return Err(InvalidLength);
    }
    if end > |bs| {
      return Err(UnexpectedEOF);
    }
    return Ok(end);
  }

  lemma ReadOneByte(bs: seq<byte>, i: nat)
    requires i < |bs| && bs[i] < 128
    ensures ReadVarint(bs, i) == Ok((bs[i], i + 1))
  {
    var g := bs[i..i + 1];
    assert g == [bs[i]] && g[1..] == [];
    assert Base128(g) == bs[i] % 128 + 128 * Base128(g[1..]) == bs[i];
    assert VarintEnd(bs, i, 0) == Ok(i + 1);
  }

  /** Wire types 6 and 7 do not exist. */
  lemma SkipIllegalWireType(bs: seq<byte>)
    requires 1 <= |bs| < TwoTo63 && bs[0] < 128 && bs[0] % 8 >= 6
    ensures Skip(bs) == Err(IllegalWireType(bs[0] % 8))
  {
    ReadOneByte(bs, 0);
  }

  /** An end-group tag with no group open. */
  lemma SkipUnmatchedEndGroup(bs: seq<byte>)
    requires 1 <= |bs| < TwoTo63 && bs[0] < 128 && bs[0] % 8 == 4
    ensures Skip(bs) == Err(UnexpectedEndOfGroup)
  {
    ReadOneByte(bs, 0);
  }

  /** A fixed-width field is skipped by its width without looking at the bytes; the caller's bound check catches truncation. */
  lemma SkipFixed(bs: seq<byte>)
    requires 1 <= |bs| < TwoTo63 - 9 && bs[0] < 128 && (bs[0] % 8 == 1 || bs[0] % 8 == 5)
    ensures Skip(bs) == Ok(if bs[0] % 8 == 1 then 9 else 5)
  {
    ReadOneByte(bs, 0);
  }

  /** A one-byte tag `tag` followed by the varint of v. */
  function VarintField(tag: byte, v: nat): seq<byte> {
    [tag] + Varint(v)
  }

  /** A one-byte tag, the varint length of `data`, then `data`. */
  function LenField(tag: byte, data: seq<byte>): seq<byte> {
    [tag] + Varint(|data|) + data
  }

  /** A well-formed unknown varint field is skipped whole. */
  lemma SkipVarintField(bs: seq<byte>, tag: byte, v: nat)
    requires tag < 128 && tag % 8 == 0 && v < U64
    requires |VarintField(tag, v)| <= |bs| < TwoTo63 && bs[..|VarintField(tag, v)|] == VarintField(tag, v)
    ensures Skip(bs) == Ok(|VarintField(tag, v)|)
  {
    var f := VarintField(tag, v);
    ReadOneByte(bs, 0);
    SubSlice(bs, 0, f, 1, |f|);
    assert f[1..] == Varint(v);
    ReadVarintAt(bs, 1, v);
  }

  /** A well-formed unknown length-delimited field is skipped whole. */
  lemma SkipLenField(bs: seq<byte>, tag: byte, data: seq<byte>)
    requires tag < 128 && tag % 8 == 2
    requires |LenField(tag, data)| <= |bs| < TwoTo63 && bs[..|LenField(tag, data)|] == LenField(tag, data)
    ensures Skip(bs) == Ok(|LenField(tag, data)|)
  {
    var f := LenField(tag, data);
    ReadOneByte(bs, 0);
    SubSlice(bs, 0, f, 1, 1 + |Varint(|data|)|);
    assert f[1..1 + |Varint(|data|)|] == Varint(|data|);
    ReadVarintAt(bs, 1, |data|);
  }

  /** An empty group, a start-group tag straight followed by its end-group tag, is skipped whole. */
  lemma SkipEmptyGroup(bs: seq<byte>)
    requires 2 <= |bs| < TwoTo63 && bs[0] < 128 && bs[1] < 128 && bs[0] % 8 == 3 && bs[1] % 8 == 4
    ensures Skip(bs) == Ok(2)
  {
    ReadOneByte(bs, 0);
    ReadOneByte(bs, 1);
    assert SkipPayload(bs, 1, 3, 0) == Ok((1, 1));
    assert SkipPayload(bs, 2, 4, 1) == Ok((2, 0));
    assert SkipFrom(bs, 1, 1) == Ok(2);
  }

  // ---------------------------------------------------------------------
  // Fields

  /** Go's `1 + l + sov(uint64(l))` for a length-delimited field of l bytes. */
  function LenFieldSize(l: nat): nat {
    1 + l + Sov(l)
  }

  lemma LenFieldLength(tag: byte, data: seq<byte>)
    ensures |LenField(tag, data)| == LenFieldSize(|data|)
  {
    SovIsVarintLength(|data|);
  }

  lemma VarintFieldLength(tag: byte, v: nat)
    ensures |VarintField(tag, v)| == 1 + Sov(v)
  {
    SovIsVarintLength(v);
  }

  /** A slice of a slice. */
  lemma SubSlice(bs: seq<byte>, p: nat, f: seq<byte>, a: nat, b: nat)
    requires p + |f| <= |bs| && bs[p..p + |f|] == f && a <= b <= |f|
    ensures bs[p + a..p + b] == f[a..b]
  {
    forall k | 0 <= k < b - a
      ensures bs[p + a..p + b][k] == f[a..b][k]
    {
      assert bs[p + a + k] == bs[p..p + |f|][a + k];
    }
  }

  /** A one-byte tag: field numbers below 16. */
  lemma TagByteAt(bs: seq<byte>, p: nat, tag: byte)
    requires 8 <= tag < 128 && tag % 8 != 4 && p < |bs| && bs[p] == tag
    ensures ReadTag(bs, p) == Ok((tag / 8, tag % 8, p + 1))
  {
    ReadOneByte(bs, p);
    assert Int32(tag / 8) == tag / 8;
  }

  /** A one-byte tag with wire type 4, or with field number 0, is refused before any field is looked at. */
  lemma TagByteRejected(bs: seq<byte>, p: nat)
    requires p < |bs| && bs[p] < 128 && (bs[p] % 8 == 4 || bs[p] < 8)
    ensures ReadTag(bs, p) == Err(if bs[p] % 8 == 4 then EndGroupForNonGroup else IllegalTag(0))
  {
    ReadOneByte(bs, p);
  }

  /** A length varint n between j and s, then n more bytes up to e: the payload's bounds. */
  lemma LengthAt(bs: seq<byte>, j: nat, n: nat, s: nat, e: nat)
    requires s == j + |Varint(n)| && e == s + n && e <= |bs| < TwoTo63
    requires bs[j..s] == Varint(n)
    ensures ReadLength(bs, j) == Ok((s, e))
  {
    ReadVarintAt(bs, j, n);
    assert ToInt64(n) == n;
  }

  /** The three parts of a length-delimited field between p and e. */
  lemma LenFieldParts(bs: seq<byte>, p: nat, tag: byte, data: seq<byte>, s: nat, e: nat)
    requires s == p + 1 + |Varint(|data|)| && e == s + |data| && e <= |bs|
    requires bs[p..e] == LenField(tag, data)
    ensures bs[p] == tag && bs[p + 1..s] == Varint(|data|) && bs[s..e] == data
  {
    var f := LenField(tag, data);
    var n := |Varint(|data|)|;
    SubSlice(bs, p, f, 0, 1);
    assert f[0..1] == [tag];
    SubSlice(bs, p, f, 1, 1 + n);
    assert f[1..1 + n] == Varint(|data|);
    SubSlice(bs, p, f, 1 + n, |f|);
    assert f[1 + n..|f|] == data;
  }

  /**
   * Reading a length-delimited field back: its tag, then the bounds s..e of
   * exactly `data`.
   */
  lemma LenFieldAt(bs: seq<byte>, p: nat, tag: byte, data: seq<byte>, s: nat, e: nat)
    requires 8 <= tag < 128 && tag % 8 == 2
    requires s == p + 1 + |Varint(|data|)| && e == s + |data| && e <= |bs| < TwoTo63
    requires bs[p..e] == LenField(tag, data)
    ensures ReadTag(bs, p) == Ok((tag / 8, 2, p + 1))
    ensures ReadLength(bs, p + 1) == Ok((s, e))
    ensures bs[s..e] == data
  {
    LenFieldParts(bs, p, tag, data, s, e);
    TagByteAt(bs, p, tag);
    LengthAt(bs, p + 1, |data|, s, e);
  }

  /** Reading a varint field back: its tag, then the value, ending at e. */
  lemma VarintFieldAt(bs: seq<byte>, p: nat, tag: byte, v: nat, e: nat)
    requires 8 <= tag < 128 && tag % 8 == 0 && v < U64
    requires e == p + 1 + |Varint(v)| && e <= |bs|
    requires bs[p..e] == VarintField(tag, v)
    ensures ReadTag(bs, p) == Ok((tag / 8, 0, p + 1))
    ensures ReadVarint(bs, p + 1) == Ok((v, e))
  {
    var f := VarintField(tag, v);
    SubSlice(bs, p, f, 0, 1);
    assert f[0..1] == [tag];
    TagByteAt(bs, p, tag);
    SubSlice(bs, p, f, 1, |f|);
    assert f[1..|f|] == Varint(v);
    ReadVarintAt(bs, p + 1, v);
  }

  /** The `default:` branch at a well-formed varint field of an unknown number: it is skipped whole. */
  lemma SkipUnknownVarintField(bs: seq<byte>, pre: nat, tag: byte, v: nat, e: nat)
    requires 8 <= tag < 128 && tag % 8 == 0 && v < U64
    requires e == pre + 1 + |Varint(v)| && e <= |bs| < TwoTo63
    requires bs[pre..e] == VarintField(tag, v)
    ensures ReadTag(bs, pre) == Ok((tag / 8, 0, pre + 1))
    ensures SkipUnknown(bs, pre) == Ok(e)
  {
    assert bs[pre] == bs[pre..e][0] == tag;
    TagByteAt(bs, pre, tag);
    var t := bs[pre..];
    assert t[..e - pre] == bs[pre..e];
    SkipVarintField(t, tag, v);
  }

  /** The `default:` branch at a well-formed length-delimited field of an unknown number: it is skipped whole. */
  lemma SkipUnknownLenField(bs: seq<byte>, pre: nat, tag: byte, data: seq<byte>, e: nat)
    requires 8 <= tag < 128 && tag % 8 == 2
    requires e == pre + 1 + |Varint(|data|)| + |data| && e <= |bs| < TwoTo63
    requires bs[pre..e] == LenField(tag, data)
    ensures ReadTag(bs, pre) == Ok((tag / 8, 2, pre + 1))
    ensures SkipUnknown(bs, pre) == Ok(e)
  {
    LenFieldParts(bs, pre, tag, data, pre + 1 + |Varint(|data|)|, e);
    TagByteAt(bs, pre, tag);
    var t := bs[pre..];
    assert t[..e - pre] == bs[pre..e];
    SkipLenField(t, tag, data);
  }

  /** Splitting off the first part of what follows index p. */
  lemma SplitAt(bs: seq<byte>, p: nat, a: seq<byte>, rest: seq<byte>)
    requires p <= |bs| && bs[p..] == a + rest
    ensures p + |a| <= |bs| && bs[p..p + |a|] == a && bs[p + |a|..] == rest
  {
    assert bs[p..p + |a|] == bs[p..][..|a|];
    assert bs[p + |a|..] == bs[p..][|a|..];
  }

  // ---------------------------------------------------------------------
  // Writing backwards

  /** `i -= len(data); copy(dAtA[i:], data)`, and a nested message's `MarshalToSizedBuffer(dAtA[:i])`. */
  method WriteBytes(buf: array<byte>, i: nat, data: seq<byte>) returns (j: nat)
    requires |data| <= i <= buf.Length
    modifies buf
    ensures j == i - |data| && buf[j..i] == data
    ensures buf[..j] == old(buf[..j]) && buf[i..] == old(buf[i..])
  {
    j := i - |data|;
    var k := 0;
    while k < |data|
      invariant 0 <= k <= |data|
      invariant buf[j..j + k] == data[..k]
      invariant buf[..j] == old(buf[..j]) && buf[i..] == old(buf[i..])
    {
      buf[j + k] := data[k];
      assert buf[j..j + k + 1] == buf[j..j + k] + [data[k]];
      assert data[..k + 1] == data[..k] + [data[k]];
      k := k + 1;
    }
  }

  /** The payload, its length varint, then the tag byte, each written before the last. */
  method WriteLenField(buf: array<byte>, i: nat, tag: byte, data: seq<byte>) returns (j: nat)
    requires |data| < U64 && |LenField(tag, data)| <= i <= buf.Length
    modifies buf
    ensures j == i - |LenField(tag, data)| && buf[j..i] == LenField(tag, data)
    ensures buf[..j] == old(buf[..j]) && buf[i..] == old(buf[i..])
  {
    SovIsVarintLength(|data|);
    ghost var s0 := buf[..];
    var k := WriteBytes(buf, i, data);
    ghost var s1 := buf[..];
    var m := EncodeVarint(buf, k, |data|);
    ghost var s2 := buf[..];
    j := m - 1;
    buf[j] := tag;
    assert s1[..k] == s0[..k] && s1[i..] == s0[i..] && s1[k..i] == data;
    assert s2[..m] == s1[..m] && s2[k..] == s1[k..] && s2[m..k] == Varint(|data|);
    assert buf[..] == s2[j := tag];
    assert buf[..j] == s2[..j] == s1[..j] == s0[..j];
    assert buf[i..] == s2[i..] == s1[i..] == s0[i..];
    assert buf[k..i] == s2[k..i] == s1[k..i];
    assert buf[m..k] == s2[m..k];
    assert buf[j] == tag;
    ThreeParts(buf[..], j, k, i, tag, Varint(|data|), data);
  }

  /** A tag byte at j, then two written parts, read back as one slice. */
  lemma ThreeParts(b: seq<byte>, j: nat, k: nat, i: nat, tag: byte, x: seq<byte>, y: seq<byte>)
    requires j < k <= i <= |b| && b[j] == tag && b[j + 1..k] == x && b[k..i] == y
    ensures b[j..i] == [tag] + x + y
  {
    assert b[j..i] == [b[j]] + b[j + 1..k] + b[k..i];
  }

  /** The value's varint, then the tag byte before it. */
  method WriteVarintField(buf: array<byte>, i: nat, tag: byte, v: nat) returns (j: nat)
    requires v < U64 && |VarintField(tag, v)| <= i <= buf.Length
    modifies buf
    ensures j == i - |VarintField(tag, v)| && buf[j..i] == VarintField(tag, v)
    ensures buf[..j] == old(buf[..j]) && buf[i..] == old(buf[i..])
  {
    SovIsVarintLength(v);
    var m := EncodeVarint(buf, i, v);
    ghost var s1 := buf[..];
    j := m - 1;
    buf[j] := tag;
    assert buf[..] == s1[j := tag];
    assert buf[..j] == s1[..j];
    assert buf[i..] == s1[i..];
    assert buf[m..i] == s1[m..i] == Varint(v);
    assert buf[j..i] == [tag] + buf[m..i];
  }

  /**
   * The frame of one backward write: a new part between j' and j, in front
   * of what was already written between j and i, with nothing else changed
   * since the start (`start`).
   */
  lemma WrittenBefore(start: seq<byte>, before: seq<byte>, after: seq<byte>, j': nat, j: nat, i: nat, part: seq<byte>, tail: seq<byte>)
    requires |start| == |before| == |after| && j' <= j <= i <= |before|
    requires after[j'..j] == part && after[..j'] == before[..j'] && after[j..] == before[j..]
    requires before[j..i] == tail && before[..j] == start[..j] && before[i..] == start[i..]
    ensures after[j'..i] == part + tail && after[..j'] == start[..j'] && after[i..] == start[i..]
  {
    assert after[j..i] == after[j..][..i - j] == before[j..][..i - j] == before[j..i];
    assert after[j'..i] == after[j'..j] + after[j..i];
    assert after[..j'] == before[..j'] == before[..j][..j'] == start[..j][..j'] == start[..j'];
    assert after[i..] == after[j..][i - j..] == before[j..][i - j..] == before[i..];
  }

  // ---------------------------------------------------------------------
  // Scalar fields left out when empty

  /** A `string` or `bytes` field: written only when `len(v) > 0`. */
  function BytesField(tag: byte, v: seq<byte>): seq<byte> {
    if |v| > 0 then LenField(tag, v) else []
  }

  /** Go's `l = len(v); if l > 0 { n += 1 + l + sov(uint64(l)) }`. */
  function BytesFieldSize(l: nat): nat {
    if l > 0 then LenFieldSize(l) else 0
  }

  lemma BytesFieldLength(tag: byte, v: seq<byte>)
    ensures |BytesField(tag, v)| == BytesFieldSize(|v|)
    ensures |v| > 0 <==> |BytesField(tag, v)| > 0
  {
    if |v| > 0 {
      LenFieldLength(tag, v);
    }
  }

  /** A `uint64` field: written only when it is not zero. */
  function Uint64Field(tag: byte, v: nat): seq<byte> {
    if v != 0 then VarintField(tag, v) else []
  }

  /** Go's `if v != 0 { n += 1 + sov(uint64(v)) }`. */
  function Uint64FieldSize(v: nat): nat {
    if v != 0 then 1 + Sov(v) else 0
  }

  lemma Uint64FieldLength(tag: byte, v: nat)
    ensures |Uint64Field(tag, v)| == Uint64FieldSize(v)
    ensures v != 0 <==> |Uint64Field(tag, v)| > 0
  {
    if v != 0 {
      VarintFieldLength(tag, v);
    }
  }

  /**
   * One `if len(v) > 0 { … }` block of a `MarshalToSizedBuffer`: the field
   * goes in front of the `tail` already written between i and end, and
   * nothing outside the bytes written changes since `start`.
   */
  method PrependBytesField(buf: array<byte>, i: nat, end: nat, tag: byte, v: seq<byte>, ghost start: seq<byte>, ghost tail: seq<byte>) returns (j: nat)
    requires |start| == buf.Length && i <= end <= buf.Length < U64 && |BytesField(tag, v)| <= i
    requires buf[i..end] == tail && buf[..i] == start[..i] && buf[end..] == start[end..]
    modifies buf
    ensures j == i - |BytesField(tag, v)| && buf[j..end] == BytesField(tag, v) + tail
    ensures buf[..j] == start[..j] && buf[end..] == start[end..]
  {
    if |v| > 0 {
      ghost var before := buf[..];
      j := WriteLenField(buf, i, tag, v);
      WrittenBefore(start, before, buf[..], j, i, end, LenField(tag, v), tail);
    } else {
      j := i;
      assert BytesField(tag, v) + tail == tail;
    }
  }

  /** One `if v != 0 { … }` block of a `MarshalToSizedBuffer`, for a `uint64` field. */
  method PrependUint64Field(buf: array<byte>, i: nat, end: nat, tag: byte, v: nat, ghost start: seq<byte>, ghost tail: seq<byte>) returns (j: nat)
    requires |start| == buf.Length && i <= end <= buf.Length && v < U64 && |Uint64Field(tag, v)| <= i
    requires buf[i..end] == tail && buf[..i] == start[..i] && buf[end..] == start[end..]
    modifies buf
    ensures j == i - |Uint64Field(tag, v)| && buf[j..end] == Uint64Field(tag, v) + tail
    ensures buf[..j] == start[..j] && buf[end..] == start[end..]
  {
    if v != 0 {
      ghost var before := buf[..];
      j := WriteVarintField(buf, i, tag, v);
      WrittenBefore(start, before, buf[..], j, i, end, VarintField(tag, v), tail);
    } else {
      j := i;
      assert Uint64Field(tag, v) + tail == tail;
    }
  }

  // ---------------------------------------------------------------------
  // Nested messages

  /**
   * A nested message's codec (`Coin`, `Schedule`, `PageRequest`), which
   * lives outside the files modelled: its empty value, what its `Marshal`
   * writes, and what its `Unmarshal` makes of a payload when run on a value
   * (`None` for an error).
   */
  datatype Codec<!T> = Codec(zero: T, enc: T -> seq<byte>, merge: (T, seq<byte>) -> Option<T>)

  /** Unmarshalling what was marshalled into an empty value gives the value back. */
  ghost predicate Lawful<T(!new)>(c: Codec<T>) {
    forall x: T :: c.merge(c.zero, c.enc(x)) == Some(x)
  }

  /** A repeated nested field: one length-delimited entry per element, in order. */
  function Repeated<T>(tag: byte, enc: T -> seq<byte>, xs: seq<T>): seq<byte>
    decreases |xs|
  {
    if xs == [] then [] else LenField(tag, enc(xs[0])) + Repeated(tag, enc, xs[1..])
  }

  /** Go's size loop `for _, e := range xs { l = e.Size(); n += 1 + l + sov(uint64(l)) }`. */
  function RepeatedSize<T>(enc: T -> seq<byte>, xs: seq<T>): nat
    decreases |xs|
  {
    if xs == [] then 0 else LenFieldSize(|enc(xs[0])|) + RepeatedSize(enc, xs[1..])
  }

  lemma {:induction false} RepeatedLength<T>(tag: byte, enc: T -> seq<byte>, xs: seq<T>)
    ensures |Repeated(tag, enc, xs)| == RepeatedSize(enc, xs)
    decreases |xs|
  {
    if xs != [] {
      LenFieldLength(tag, enc(xs[0]));
      RepeatedLength(tag, enc, xs[1..]);
    }
  }

  /**
   * The backward loop `for iNdEx := len(xs) - 1; iNdEx >= 0; iNdEx--` over a
   * repeated field: written last element first, it reads in order.
   */
  method WriteRepeated<T>(buf: array<byte>, i: nat, tag: byte, enc: T -> seq<byte>, xs: seq<T>) returns (j: nat)
    requires |Repeated(tag, enc, xs)| <= i <= buf.Length < U64
    modifies buf
    ensures j == i - |Repeated(tag, enc, xs)| && buf[j..i] == Repeated(tag, enc, xs)
    ensures buf[..j] == old(buf[..j]) && buf[i..] == old(buf[i..])
  {
    j := i;
    var k := |xs|;
    assert xs[..k] == xs && xs[k..] == [];
    while k > 0
      invariant 0 <= k <= |xs|
      invariant |Repeated(tag, enc, xs[..k])| + |Repeated(tag, enc, xs[k..])| == |Repeated(tag, enc, xs)|
      invariant j == i - |Repeated(tag, enc, xs[k..])| && buf[j..i] == Repeated(tag, enc, xs[k..])
      invariant buf[..j] == old(buf[..j]) && buf[i..] == old(buf[i..])
    {
      k := k - 1;
      RepeatedSplit(tag, enc, xs, k);
      ghost var before := buf[..];
      var j' := WriteLenField(buf, j, tag, enc(xs[k]));
      WrittenBefore(old(buf[..]), before, buf[..], j', j, i, LenField(tag, enc(xs[k])), Repeated(tag, enc, xs[k + 1..]));
      j := j';
    }
    assert xs[0..] == xs;
  }

  /** Splitting a repeated field's encoding at element k. */
  lemma RepeatedSplit<T>(tag: byte, enc: T -> seq<byte>, xs: seq<T>, k: nat)
    requires k < |xs|
    ensures Repeated(tag, enc, xs[k..]) == LenField(tag, enc(xs[k])) + Repeated(tag, enc, xs[k + 1..])
    ensures |Repeated(tag, enc, xs[..k + 1])| == |Repeated(tag, enc, xs[..k])| + |LenField(tag, enc(xs[k]))|
  {
    assert xs[k..][1..] == xs[k + 1..];
    RepeatedAppend(tag, enc, xs[..k], xs[k]);
    assert xs[..k + 1] == xs[..k] + [xs[k]];
  }

  /** What a decoder appends one element at a time adds up to the whole. */
  lemma AppendFirst<T>(acc: seq<T>, xs: seq<T>)
    requires xs != []
    ensures acc + [xs[0]] + xs[1..] == acc + xs
  {
    assert xs == [xs[0]] + xs[1..];
  }

  lemma {:induction false} RepeatedAppend<T>(tag: byte, enc: T -> seq<byte>, xs: seq<T>, x: T)
    ensures Repeated(tag, enc, xs + [x]) == Repeated(tag, enc, xs) + LenField(tag, enc(x))
    decreases |xs|
  {
    if xs == [] {
      assert [x][1..] == [];
    } else {
      assert (xs + [x])[1..] == xs[1..] + [x];
      RepeatedAppend(tag, enc, xs[1..], x);
    }
  }
}
