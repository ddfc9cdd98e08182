/**
 * The protobuf wire codec of `SafetyFundSpendProposal`
 * (`x/safetyfund/types/proposals.pb.go`): three strings and the repeated
 * `Coin` amount, a nested message that comes in as a codec.  Strings are
 * the bytes Go stores in them.
 */
module SafetyFundProposalCodec {
  import opened Wrappers
  import opened Bytes
  import opened ProtoWire

  datatype SafetyFundSpendProposal<C> = SafetyFundSpendProposal(
    title: seq<byte>, description: seq<byte>, recipient: seq<byte>, amount: seq<C>)

  /** The empty proposal `Unmarshal` is run on. */
  function Empty<C>(): SafetyFundSpendProposal<C> {
    SafetyFundSpendProposal([], [], [], [])
  }

  /** Fields in number order: title (0x0a), description (0x12), recipient (0x1a), each left out when empty, then one 0x22 entry per coin. */
  function Encode<C>(c: Codec<C>, m: SafetyFundSpendProposal<C>): seq<byte> {
    BytesField(0x0a, m.title) + (BytesField(0x12, m.description) + (BytesField(0x1a, m.recipient) + Repeated(0x22, c.enc, m.amount)))
  }

  function Size<C>(c: Codec<C>, m: SafetyFundSpendProposal<C>): nat {
    BytesFieldSize(|m.title|) + BytesFieldSize(|m.description|) + BytesFieldSize(|m.recipient|) + RepeatedSize(c.enc, m.amount)
  }

  /** `Size` is the length `Marshal` writes, and only the empty proposal encodes to nothing. */
  lemma SizeIsLength<C>(c: Codec<C>, m: SafetyFundSpendProposal<C>)
    ensures Size(c, m) == |Encode(c, m)|
    ensures |Encode(c, m)| == 0 <==> m == Empty()
  {
    BytesFieldLength(0x0a, m.title);
    BytesFieldLength(0x12, m.description);
    BytesFieldLength(0x1a, m.recipient);
    RepeatedLength(0x22, c.enc, m.amount);
    if m.amount != [] {
      assert |Repeated(0x22, c.enc, m.amount)| >= |LenField(0x22, c.enc(m.amount[0]))|;
    }
  }

  /** The coins last, back to front, then recipient, description and title, each in front of the last. */
  method MarshalToSizedBuffer<C>(c: Codec<C>, m: SafetyFundSpendProposal<C>, buf: array<byte>) returns (n: nat)
    requires |Encode(c, m)| <= buf.Length < U64
    modifies buf
    ensures n == |Encode(c, m)| && buf[buf.Length - n..] == Encode(c, m)
    ensures buf[..buf.Length - n] == old(buf[..buf.Length - n])
  {
    ghost var start := buf[..];
    var end := buf.Length;
    var i := WriteRepeated(buf, end, 0x22, c.enc, m.amount);
    ghost var tail := Repeated(0x22, c.enc, m.amount);
    i := PrependBytesField(buf, i, end, 0x1a, m.recipient, start, tail);
    tail := BytesField(0x1a, m.recipient) + tail;
    i := PrependBytesField(buf, i, end, 0x12, m.description, start, tail);
    tail := BytesField(0x12, m.description) + tail;
    i := PrependBytesField(buf, i, end, 0x0a, m.title, start, tail);
    return end - i;
  }

  method Marshal<C>(c: Codec<C>, m: SafetyFundSpendProposal<C>) returns (data: seq<byte>)
    requires |Encode(c, m)| < TwoTo63
    ensures data == Encode(c, m)
  {
    var size := Size(c, m);
    SizeIsLength(c, m);
    var buf := new byte[size];
    var n := MarshalToSizedBuffer(c, m, buf);
    data := buf[..n];
  }

  /** The string field with number k (1 to 3) replaced by v. */
  function SetString<C>(m: SafetyFundSpendProposal<C>, k: int, v: seq<byte>): SafetyFundSpendProposal<C>
    requires 1 <= k <= 3
  {
    if k == 1 then m.(title := v) else if k == 2 then m.(description := v) else m.(recipient := v)
  }

  /**
   * One turn of the `Unmarshal` loop at i.  Fields 1 to 3 must be
   * length-delimited and replace their string; field 4 must be
   * length-delimited and appends a coin unmarshalled from an empty one; any
   * other field is skipped.
   */
  function Field<C>(c: Codec<C>, bs: seq<byte>, i: nat, m: SafetyFundSpendProposal<C>): (r: Result<(SafetyFundSpendProposal<C>, nat), WireError>)
    requires i < |bs| < TwoTo63
    ensures r.Ok? ==> i < r.value.1 <= |bs|
  {
    match ReadTag(bs, i)
    case Err(e) => Err(e)
    case Ok((fieldNum, wireType, j)) =>
      if 1 <= fieldNum <= 4 then
        if wireType != 2 then Err(WrongWireType(fieldNum, wireType))
        else
          match ReadLength(bs, j)
          case Err(e) => Err(e)
          case Ok((s, e)) =>
            if fieldNum <= 3 then Ok((SetString(m, fieldNum, bs[s..e]), e))
            else
              match c.merge(c.zero, bs[s..e])
              case None => Err(NestedFailed)
              case Some(x) => Ok((m.(amount := m.amount + [x]), e))
      else
        match SkipUnknown(bs, i)
        case Err(e) => Err(e)
        case Ok(k) => Ok((m, k))
  }

  /** The fields from i to the end, merged into m. */
  function Decode<C>(c: Codec<C>, bs: seq<byte>, i: nat, m: SafetyFundSpendProposal<C>): Result<SafetyFundSpendProposal<C>, WireError>
    requires i <= |bs| < TwoTo63
    decreases |bs| - i
  {
    if i == |bs| then Ok(m)
    else
      match Field(c, bs, i, m)
      case Err(e) => Err(e)
      case Ok((m', k)) => Decode(c, bs, k, m')
  }

  method Unmarshal<C>(c: Codec<C>, bs: seq<byte>, m0: SafetyFundSpendProposal<C>) returns (r: Result<SafetyFundSpendProposal<C>, WireError>)
    requires |bs| < TwoTo63
    ensures r == Decode(c, bs, 0, m0)
  {
    var m, i := m0, 0;
    while i < |bs|
      invariant i <= |bs|
      invariant Decode(c, bs, i, m) == Decode(c, bs, 0, m0)
      decreases |bs| - i
    {
      var tag := DecodeTag(bs, i);
      if tag.Err? {
        return Err(tag.error);
      }
      var (fieldNum, wireType, j) := tag.value;
      if 1 <= fieldNum <= 4 {
        if wireType != 2 {
          return Err(WrongWireType(fieldNum, wireType));
        }
        var bounds := DecodeLength(bs, j);
        if bounds.Err? {
          return Err(bounds.error);
        }
        var (s, e) := bounds.value;
        if fieldNum == 1 {
          m := m.(title := bs[s..e]);
        } else if fieldNum == 2 {
          m := m.(description := bs[s..e]);
        } else if fieldNum == 3 {
          m := m.(recipient := bs[s..e]);
        } else {
          var x := c.merge(c.zero, bs[s..e]);
          if x.None? {
            return Err(NestedFailed);
          }
          m := m.(amount := m.amount + [x.value]);
        }
        i := e;
      } else {
        var k := SkipUnknownField(bs, i);
        if k.Err? {
          return Err(k.error);
        }
        i := k.value;
      }
    }
    return Ok(m);
  }

  /** The string field with number k (1 to 3). */
  function GetString<C>(m: SafetyFundSpendProposal<C>, k: int): seq<byte>
    requires 1 <= k <= 3
  {
    if k == 1 then m.title else if k == 2 then m.description else m.recipient
  }

  /**
   * A string field as `Marshal` writes it, read at i: a non-empty string
   * replaces whatever the proposal held (the last value wins), and an
   * empty one, which is not written, leaves the proposal alone.
   */
  lemma StringReads<C>(c: Codec<C>, bs: seq<byte>, i: nat, m: SafetyFundSpendProposal<C>, k: int, v: seq<byte>, e: nat)
    requires 1 <= k <= 3 && (|v| > 0 || GetString(m, k) == [])
    requires e == i + |BytesField(8 * k + 2, v)| && e <= |bs| < TwoTo63 && bs[i..e] == BytesField(8 * k + 2, v)
    ensures Decode(c, bs, i, m) == Decode(c, bs, e, SetString(m, k, v))
  {
    if |v| > 0 {
      LenFieldAt(bs, i, 8 * k + 2, v, i + 1 + |Varint(|v|)|, e);
      assert Field(c, bs, i, m) == Ok((SetString(m, k, v), e));
    } else {
      assert SetString(m, k, v) == m;
    }
  }

  /** Coin entries read from i on are appended, in order, after the coins decoded so far. */
  lemma {:induction false} AmountAppends<C(!new)>(c: Codec<C>, bs: seq<byte>, i: nat, m: SafetyFundSpendProposal<C>, xs: seq<C>)
    requires Lawful(c) && i <= |bs| < TwoTo63 && bs[i..] == Repeated(0x22, c.enc, xs)
    ensures Decode(c, bs, i, m) == Ok(m.(amount := m.amount + xs))
    decreases |xs|
  {
    if xs == [] {
      assert m.amount + xs == m.amount;
    } else {
      var x, rest := xs[0], xs[1..];
      var f := LenField(0x22, c.enc(x));
      var e := i + |f|;
      assert e <= |bs| && bs[i..e] == f && bs[e..] == Repeated(0x22, c.enc, rest) by {
        SplitAt(bs, i, f, Repeated(0x22, c.enc, rest));
      }
      assert Decode(c, bs, i, m) == Decode(c, bs, e, m.(amount := m.amount + [x])) by {
        LenFieldAt(bs, i, 0x22, c.enc(x), i + 1 + |Varint(|c.enc(x)|)|, e);
        assert Field(c, bs, i, m) == Ok((m.(amount := m.amount + [x]), e));
      }
      AmountAppends(c, bs, e, m.(amount := m.amount + [x]), rest);
      AppendFirst(m.amount, xs);
    }
  }

  /** The fields in the order `Marshal` writes them, laid out at 0, p1, p2 and p3, read one by one. */
  lemma FieldsRead<C(!new)>(c: Codec<C>, bs: seq<byte>, m: SafetyFundSpendProposal<C>, p1: nat, p2: nat, p3: nat)
    requires Lawful(c) && p1 <= p2 <= p3 <= |bs| < TwoTo63
    requires p1 == |BytesField(0x0a, m.title)| && bs[0..p1] == BytesField(0x0a, m.title)
    requires p2 == p1 + |BytesField(0x12, m.description)| && bs[p1..p2] == BytesField(0x12, m.description)
    requires p3 == p2 + |BytesField(0x1a, m.recipient)| && bs[p2..p3] == BytesField(0x1a, m.recipient)
    requires bs[p3..] == Repeated(0x22, c.enc, m.amount)
    ensures Decode(c, bs, 0, Empty()) == Ok(m)
  {
    var m1 := SafetyFundSpendProposal(m.title, [], [], []);
    var m2 := SafetyFundSpendProposal(m.title, m.description, [], []);
    var m3 := SafetyFundSpendProposal(m.title, m.description, m.recipient, []);
    assert Decode(c, bs, 0, Empty()) == Decode(c, bs, p1, m1) by {
      StringReads(c, bs, 0, Empty(), 1, m.title, p1);
    }
    assert Decode(c, bs, p1, m1) == Decode(c, bs, p2, m2) by {
      StringReads(c, bs, p1, m1, 2, m.description, p2);
    }
    assert Decode(c, bs, p2, m2) == Decode(c, bs, p3, m3) by {
      StringReads(c, bs, p2, m2, 3, m.recipient, p3);
    }
    AmountAppends(c, bs, p3, m3, m.amount);
    assert m3.(amount := m3.amount + m.amount) == m;
  }

  /** Unmarshalling what `Marshal` wrote into an empty proposal gives the proposal back. */
  lemma RoundTrip<C(!new)>(c: Codec<C>, m: SafetyFundSpendProposal<C>)
    requires Lawful(c) && |Encode(c, m)| < TwoTo63
    ensures Decode(c, Encode(c, m), 0, Empty()) == Ok(m)
  {
    var bs := Encode(c, m);
    var f1, f2, f3 := BytesField(0x0a, m.title), BytesField(0x12, m.description), BytesField(0x1a, m.recipient);
    var r := Repeated(0x22, c.enc, m.amount);
    assert bs[0..] == f1 + (f2 + (f3 + r));
    SplitAt(bs, 0, f1, f2 + (f3 + r));
    SplitAt(bs, |f1|, f2, f3 + r);
    SplitAt(bs, |f1| + |f2|, f3, r);
    FieldsRead(c, bs, m, |f1|, |f1| + |f2|, |f1| + |f2| + |f3|);
  }

  /** Fields 1 to 4 in any wire type but length-delimited are refused. */
  lemma WrongWireTypeRefused<C>(c: Codec<C>, bs: seq<byte>, i: nat, m: SafetyFundSpendProposal<C>)
    requires i < |bs| < TwoTo63 && 1 <= bs[i] / 8 <= 4 && bs[i] % 8 !in {2, 4}
    ensures Decode(c, bs, i, m) == Err(WrongWireType(bs[i] / 8, bs[i] % 8))
  {
    TagByteAt(bs, i, bs[i]);
  }

  /** A string whose one-byte length runs past the end of the input is an unexpected EOF. */
  lemma LengthPastEnd<C>(c: Codec<C>, bs: seq<byte>, i: nat, m: SafetyFundSpendProposal<C>)
    requires i + 1 < |bs| && |bs| + 128 < TwoTo63 && bs[i] in {0x0a, 0x12, 0x1a, 0x22}
    requires bs[i + 1] < 128 && i + 2 + bs[i + 1] > |bs|
    ensures Decode(c, bs, i, m) == Err(UnexpectedEOF)
  {
    TagByteAt(bs, i, bs[i]);
    ReadOneByte(bs, i + 1);
    assert ToInt64(bs[i + 1]) == bs[i + 1];
    assert IntAdd(i + 2, bs[i + 1]) == i + 2 + bs[i + 1];
    assert ReadLength(bs, i + 1) == Err(UnexpectedEOF);
  }

  /** A length varint of ten continuation bytes overflows. */
  lemma LengthOverflow<C>(c: Codec<C>, bs: seq<byte>, i: nat, m: SafetyFundSpendProposal<C>)
    requires i + 11 <= |bs| < TwoTo63 && bs[i] in {0x0a, 0x12, 0x1a, 0x22}
    requires forall k :: i + 1 <= k < i + 11 ==> bs[k] >= 128
    ensures Decode(c, bs, i, m) == Err(IntOverflow)
  {
    TagByteAt(bs, i, bs[i]);
    ReadVarintOverflow(bs, i + 1);
  }

  /** A string whose length varint reads as a negative 64-bit integer has an invalid length. */
  lemma NegativeLength<C>(c: Codec<C>, bs: seq<byte>, i: nat, m: SafetyFundSpendProposal<C>, v: nat)
    requires TwoTo63 <= v < U64 && i + 1 + |Varint(v)| <= |bs| < TwoTo63
    requires bs[i] in {0x0a, 0x12, 0x1a, 0x22} && bs[i + 1..i + 1 + |Varint(v)|] == Varint(v)
    ensures Decode(c, bs, i, m) == Err(InvalidLength)
  {
    TagByteAt(bs, i, bs[i]);
    assert ReadLength(bs, i + 1) == Err(InvalidLength) by {
      ReadVarintAt(bs, i + 1, v);
      assert ToInt64(v) < 0;
    }
    assert Field(c, bs, i, m) == Err(InvalidLength);
  }

  /** A string field that occurs twice keeps its later value. */
  lemma StringLastWins<C>(c: Codec<C>, bs: seq<byte>, i: nat, m: SafetyFundSpendProposal<C>, k: int, a: seq<byte>, b: seq<byte>, p: nat, e: nat)
    requires 1 <= k <= 3 && |a| > 0 && |b| > 0
    requires p == i + |BytesField(8 * k + 2, a)| && e == p + |BytesField(8 * k + 2, b)| && e <= |bs| < TwoTo63
    requires bs[i..p] == BytesField(8 * k + 2, a) && bs[p..e] == BytesField(8 * k + 2, b)
    ensures Decode(c, bs, i, m) == Decode(c, bs, e, SetString(m, k, b))
  {
    StringReads(c, bs, i, m, k, a, p);
    StringReads(c, bs, p, SetString(m, k, a), k, b, e);
    assert SetString(SetString(m, k, a), k, b) == SetString(m, k, b);
  }

  /** A length-delimited field of another number is skipped and changes nothing. */
  lemma SkipsUnknown<C>(c: Codec<C>, bs: seq<byte>, i: nat, m: SafetyFundSpendProposal<C>, tag: byte, data: seq<byte>, e: nat)
    requires 40 <= tag < 128 && tag % 8 == 2
    requires e == i + 1 + |Varint(|data|)| + |data| && e <= |bs| < TwoTo63 && bs[i..e] == LenField(tag, data)
    ensures Decode(c, bs, i, m) == Decode(c, bs, e, m)
  {
    SkipUnknownLenField(bs, i, tag, data, e);
  }
}
