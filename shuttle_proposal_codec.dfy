/**
 * The protobuf wire codec of the two shuttle proposals
 * (`x/shuttle/types/proposals.pb.go`): `ExecuteRemoteContractProposal` and
 * `MigrateRemoteContractProposal`.  Strings are the bytes Go stores in
 * them; the raw contract message is a byte slice, `None` when nil; `Coin`
 * is a nested message that comes in as a codec.
 */
module ShuttleProposalCodec {
  import opened Wrappers
  import opened Bytes
  import opened ProtoWire

  /** The bytes of a possibly nil slice. */
  function Raw(msg: Option<seq<byte>>): seq<byte> {
    if msg.Some? then msg.value else []
  }

  /** What a slice reads back as after a round trip: an empty slice is not written, so it comes back nil. */
  function Normal(msg: Option<seq<byte>>): Option<seq<byte>> {
    if |Raw(msg)| > 0 then msg else None
  }

  /**
   * Writes the four strings both proposals begin with (tags 0x0a to 0x22)
   * in front of tail, which sits in buf[i..end].
   */
  method PrependStrings(buf: array<byte>, i: nat, end: nat, title: seq<byte>, description: seq<byte>, connectionId: seq<byte>, contract: seq<byte>,
                        ghost start: seq<byte>, ghost tail: seq<byte>) returns (j: nat)
    requires |start| == buf.Length && i <= end <= buf.Length < U64
    requires |BytesField(0x0a, title)| + |BytesField(0x12, description)| + |BytesField(0x1a, connectionId)| + |BytesField(0x22, contract)| <= i
    requires buf[i..end] == tail && buf[..i] == start[..i] && buf[end..] == start[end..]
    modifies buf
    ensures j == i - (|BytesField(0x0a, title)| + |BytesField(0x12, description)| + |BytesField(0x1a, connectionId)| + |BytesField(0x22, contract)|)
    ensures buf[j..end] == BytesField(0x0a, title) + (BytesField(0x12, description) + (BytesField(0x1a, connectionId) + (BytesField(0x22, contract) + tail)))
    ensures buf[..j] == start[..j] && buf[end..] == start[end..]
  {
    ghost var t := tail;
    j := PrependBytesField(buf, i, end, 0x22, contract, start, t);
    t := BytesField(0x22, contract) + t;
    j := PrependBytesField(buf, j, end, 0x1a, connectionId, start, t);
    t := BytesField(0x1a, connectionId) + t;
    j := PrependBytesField(buf, j, end, 0x12, description, start, t);
    t := BytesField(0x12, description) + t;
    j := PrependBytesField(buf, j, end, 0x0a, title, start, t);
  }

  // ---------------------------------------------------------------------
  // ExecuteRemoteContractProposal

  datatype ExecuteProposal<C> = ExecuteProposal(
    title: seq<byte>, description: seq<byte>, connectionId: seq<byte>, contract: seq<byte>,
    msg: Option<seq<byte>>, funds: seq<C>)

  function ExecuteEmpty<C>(): ExecuteProposal<C> {
    ExecuteProposal([], [], [], [], None, [])
  }

  /** Fields 1 to 5 (tags 0x0a, 0x12, 0x1a, 0x22, 0x2a) each left out when empty, then one 0x32 entry per coin. */
  function EncodeExecute<C>(c: Codec<C>, m: ExecuteProposal<C>): seq<byte> {
    BytesField(0x0a, m.title) + (BytesField(0x12, m.description) + (BytesField(0x1a, m.connectionId) +
      (BytesField(0x22, m.contract) + (BytesField(0x2a, Raw(m.msg)) + Repeated(0x32, c.enc, m.funds)))))
  }

  function SizeExecute<C>(c: Codec<C>, m: ExecuteProposal<C>): nat {
    BytesFieldSize(|m.title|) + BytesFieldSize(|m.description|) + BytesFieldSize(|m.connectionId|) +
      BytesFieldSize(|m.contract|) + BytesFieldSize(|Raw(m.msg)|) + RepeatedSize(c.enc, m.funds)
  }

  /** `Size` is the length `Marshal` writes. */
  lemma ExecuteSizeIsLength<C>(c: Codec<C>, m: ExecuteProposal<C>)
    ensures SizeExecute(c, m) == |EncodeExecute(c, m)|
  {
    BytesFieldLength(0x0a, m.title);
    BytesFieldLength(0x12, m.description);
    BytesFieldLength(0x1a, m.connectionId);
    BytesFieldLength(0x22, m.contract);
    BytesFieldLength(0x2a, Raw(m.msg));
    RepeatedLength(0x32, c.enc, m.funds);
  }

  /** A nil and an empty contract message are written alike: not at all. */
  lemma ExecuteNilMsgLikeEmpty<C>(c: Codec<C>, m: ExecuteProposal<C>)
    ensures EncodeExecute(c, m.(msg := None)) == EncodeExecute(c, m.(msg := Some([])))
    ensures m.msg.Some? && |m.msg.value| > 0 ==> EncodeExecute(c, m) != EncodeExecute(c, m.(msg := None))
  {
    if m.msg.Some? && |m.msg.value| > 0 {
      ExecuteSizeIsLength(c, m);
      ExecuteSizeIsLength(c, m.(msg := None));
      assert BytesFieldSize(|Raw(m.msg)|) > 0;
    }
  }

  method ExecuteToSizedBuffer<C>(c: Codec<C>, m: ExecuteProposal<C>, buf: array<byte>) returns (n: nat)
    requires |EncodeExecute(c, m)| <= buf.Length < U64
    modifies buf
    ensures n == |EncodeExecute(c, m)| && buf[buf.Length - n..] == EncodeExecute(c, m)
    ensures buf[..buf.Length - n] == old(buf[..buf.Length - n])
  {
    ghost var start := buf[..];
    var end := buf.Length;
    var i := WriteRepeated(buf, end, 0x32, c.enc, m.funds);
    ghost var tail := Repeated(0x32, c.enc, m.funds);
    i := PrependBytesField(buf, i, end, 0x2a, Raw(m.msg), start, tail);
    tail := BytesField(0x2a, Raw(m.msg)) + tail;
    i := PrependStrings(buf, i, end, m.title, m.description, m.connectionId, m.contract, start, tail);
    assert BytesField(0x0a, m.title) + (BytesField(0x12, m.description) + (BytesField(0x1a, m.connectionId) + (BytesField(0x22, m.contract) + tail))) == EncodeExecute(c, m);
    return end - i;
  }

  method MarshalExecute<C>(c: Codec<C>, m: ExecuteProposal<C>) returns (data: seq<byte>)
    requires |EncodeExecute(c, m)| < TwoTo63
    ensures data == EncodeExecute(c, m)
  {
    var size := SizeExecute(c, m);
    ExecuteSizeIsLength(c, m);
    var buf := new byte[size];
    var n := ExecuteToSizedBuffer(c, m, buf);
    data := buf[..n];
  }

  /** The string field with number k (1 to 4). */
  function ExecuteString<C>(m: ExecuteProposal<C>, k: int): seq<byte>
    requires 1 <= k <= 4
  {
    if k == 1 then m.title else if k == 2 then m.description else if k == 3 then m.connectionId else m.contract
  }

  /** The string field with number k (1 to 4) replaced by v. */
  function ExecuteSetString<C>(m: ExecuteProposal<C>, k: int, v: seq<byte>): ExecuteProposal<C>
    requires 1 <= k <= 4
  {
    if k == 1 then m.(title := v) else if k == 2 then m.(description := v)
    else if k == 3 then m.(connectionId := v) else m.(contract := v)
  }

  /**
   * One turn of the `Unmarshal` loop at i.  Fields 1 to 6 must all be
   * length-delimited: 1 to 4 replace their string, 5 replaces the message
   * (an empty payload gives an empty, non-nil slice), 6 appends a coin
   * unmarshalled from an empty one; any other field is skipped.
   */
  function ExecuteField<C>(c: Codec<C>, bs: seq<byte>, i: nat, m: ExecuteProposal<C>): (r: Result<(ExecuteProposal<C>, nat), WireError>)
    requires i < |bs| < TwoTo63
    ensures r.Ok? ==> i < r.value.1 <= |bs|
  {
    match ReadTag(bs, i)
    case Err(e) => Err(e)
    case Ok((fieldNum, wireType, j)) =>
      if 1 <= fieldNum <= 6 then
        if wireType != 2 then Err(WrongWireType(fieldNum, wireType))
        else
          match ReadLength(bs, j)
          case Err(e) => Err(e)
          case Ok((s, e)) =>
            if fieldNum <= 4 then Ok((ExecuteSetString(m, fieldNum, bs[s..e]), e))
            else if fieldNum == 5 then Ok((m.(msg := Some(bs[s..e])), e))
            else
              match c.merge(c.zero, bs[s..e])
              case None => Err(NestedFailed)
              case Some(x) => Ok((m.(funds := m.funds + [x]), e))
      else
        match SkipUnknown(bs, i)
        case Err(e) => Err(e)
        case Ok(k) => Ok((m, k))
  }

  function DecodeExecute<C>(c: Codec<C>, bs: seq<byte>, i: nat, m: ExecuteProposal<C>): Result<ExecuteProposal<C>, WireError>
    requires i <= |bs| < TwoTo63
    decreases |bs| - i
  {
    if i == |bs| then Ok(m)
    else
      match ExecuteField(c, bs, i, m)
      case Err(e) => Err(e)
      case Ok((m', k)) => DecodeExecute(c, bs, k, m')
  }

  method UnmarshalExecute<C>(c: Codec<C>, bs: seq<byte>, m0: ExecuteProposal<C>) returns (r: Result<ExecuteProposal<C>, WireError>)
    requires |bs| < TwoTo63
    ensures r == DecodeExecute(c, bs, 0, m0)
  {
    var m, i := m0, 0;
    while i < |bs|
      invariant i <= |bs|
      invariant DecodeExecute(c, bs, i, m) == DecodeExecute(c, bs, 0, m0)
      decreases |bs| - i
    {
      var tag := DecodeTag(bs, i);
      if tag.Err? {
        return Err(tag.error);
      }
      var (fieldNum, wireType, j) := tag.value;
      if 1 <= fieldNum <= 6 {
        if wireType != 2 {
          return Err(WrongWireType(fieldNum, wireType));
        }
        var bounds := DecodeLength(bs, j);
        if bounds.Err? {
          return Err(bounds.error);
        }
        var (s, e) := bounds.value;
        if fieldNum == 1 {
          m := m.(title := bs[s..e]);
        } else if fieldNum == 2 {
          m := m.(description := bs[s..e]);
        } else if fieldNum == 3 {
          m := m.(connectionId := bs[s..e]);
        } else if fieldNum == 4 {
          m := m.(contract := bs[s..e]);
        } else if fieldNum == 5 {
          m := m.(msg := Some(bs[s..e]));
        } else {
          var x := c.merge(c.zero, bs[s..e]);
          if x.None? {
            return Err(NestedFailed);
          }
          m := m.(funds := m.funds + [x.value]);
        }
        i := e;
      } else {
        var k := SkipUnknownField(bs, i);
        if k.Err? {
          return Err(k.error);
        }
        i := k.value;
      }
    }
    return Ok(m);
  }

  /** A string field as `Marshal` writes it, read at i: a non-empty string replaces the old one, an empty one is not there. */
  lemma ExecuteStringReads<C>(c: Codec<C>, bs: seq<byte>, i: nat, m: ExecuteProposal<C>, k: int, v: seq<byte>, e: nat)
    requires 1 <= k <= 4 && (|v| > 0 || ExecuteString(m, k) == [])
    requires e == i + |BytesField(8 * k + 2, v)| && e <= |bs| < TwoTo63 && bs[i..e] == BytesField(8 * k + 2, v)
    ensures DecodeExecute(c, bs, i, m) == DecodeExecute(c, bs, e, ExecuteSetString(m, k, v))
  {
    var tag: byte := 8 * k + 2;
    assert tag / 8 == k && tag % 8 == 2;
    if |v| > 0 {
      assert ExecuteField(c, bs, i, m) == Ok((ExecuteSetString(m, k, v), e)) by {
        LenFieldAt(bs, i, tag, v, i + 1 + |Varint(|v|)|, e);
      }
    } else {
      assert ExecuteSetString(m, k, v) == m;
    }
  }

  /** The message field as `Marshal` writes it, read at i: set when non-empty, absent otherwise. */
  lemma ExecuteMsgReads<C>(c: Codec<C>, bs: seq<byte>, i: nat, m: ExecuteProposal<C>, v: seq<byte>, e: nat)
    requires e == i + |BytesField(0x2a, v)| && e <= |bs| < TwoTo63 && bs[i..e] == BytesField(0x2a, v)
    ensures DecodeExecute(c, bs, i, m) == DecodeExecute(c, bs, e, if |v| > 0 then m.(msg := Some(v)) else m)
  {
    if |v| > 0 {
      LenFieldAt(bs, i, 0x2a, v, i + 1 + |Varint(|v|)|, e);
      assert ExecuteField(c, bs, i, m) == Ok((m.(msg := Some(v)), e));
    }
  }

  /** A message field of length zero gives an empty slice, not a nil one. */
  lemma ExecuteEmptyMsgIsNotNil<C>(c: Codec<C>, m: ExecuteProposal<C>)
    ensures DecodeExecute(c, [0x2a, 0x00], 0, m) == Ok(m.(msg := Some([])))
  {
    var bs: seq<byte> := [0x2a, 0x00];
    TagByteAt(bs, 0, 0x2a);
    ReadOneByte(bs, 1);
    assert ReadLength(bs, 1) == Ok((2, 2));
    assert bs[2..2] == [];
    assert ExecuteField(c, bs, 0, m) == Ok((m.(msg := Some([])), 2));
  }

  /** Coin entries read from i on are appended, in order, after the funds decoded so far. */
  lemma {:induction false} ExecuteFundsAppend<C(!new)>(c: Codec<C>, bs: seq<byte>, i: nat, m: ExecuteProposal<C>, xs: seq<C>)
    requires Lawful(c) && i <= |bs| < TwoTo63 && bs[i..] == Repeated(0x32, c.enc, xs)
    ensures DecodeExecute(c, bs, i, m) == Ok(m.(funds := m.funds + xs))
    decreases |xs|
  {
    if xs == [] {
      assert m.funds + xs == m.funds;
    } else {
      var x, rest := xs[0], xs[1..];
      var f := LenField(0x32, c.enc(x));
      var e := i + |f|;
      assert e <= |bs| && bs[i..e] == f && bs[e..] == Repeated(0x32, c.enc, rest) by {
        SplitAt(bs, i, f, Repeated(0x32, c.enc, rest));
      }
      assert DecodeExecute(c, bs, i, m) == DecodeExecute(c, bs, e, m.(funds := m.funds + [x])) by {
        LenFieldAt(bs, i, 0x32, c.enc(x), i + 1 + |Varint(|c.enc(x)|)|, e);
        assert ExecuteField(c, bs, i, m) == Ok((m.(funds := m.funds + [x]), e));
      }
      ExecuteFundsAppend(c, bs, e, m.(funds := m.funds + [x]), rest);
      AppendFirst(m.funds, xs);
    }
  }

  /** The title and the description in the order `Marshal` writes them, read from p on. */
  lemma ExecuteLeadRead<C>(c: Codec<C>, bs: seq<byte>, p: nat, m: ExecuteProposal<C>, a: seq<byte>, b: seq<byte>, t: seq<byte>, q: nat)
    requires (|a| > 0 || m.title == []) && (|b| > 0 || m.description == [])
    requires q == p + |BytesField(0x0a, a)| + |BytesField(0x12, b)| && p <= |bs| < TwoTo63
    requires bs[p..] == BytesField(0x0a, a) + (BytesField(0x12, b) + t)
    ensures q <= |bs| && bs[q..] == t
    ensures DecodeExecute(c, bs, p, m) == DecodeExecute(c, bs, q, m.(title := a, description := b))
  {
    var fa, fb := BytesField(0x0a, a), BytesField(0x12, b);
    var r := p + |fa|;
    var m' := m.(title := a);
    assert bs[p..r] == fa && bs[r..] == fb + t by {
      SplitAt(bs, p, fa, fb + t);
    }
    assert DecodeExecute(c, bs, p, m) == DecodeExecute(c, bs, r, m') by {
      ExecuteStringReads(c, bs, p, m, 1, a, r);
    }
    assert bs[r..q] == fb && bs[q..] == t by {
      SplitAt(bs, r, fb, t);
    }
    assert DecodeExecute(c, bs, r, m') == DecodeExecute(c, bs, q, m'.(description := b)) by {
      ExecuteStringReads(c, bs, r, m', 2, b, q);
    }
  }

  /** The connection id and the contract in the order `Marshal` writes them, read from p on. */
  lemma ExecuteTargetRead<C>(c: Codec<C>, bs: seq<byte>, p: nat, m: ExecuteProposal<C>, a: seq<byte>, b: seq<byte>, t: seq<byte>, q: nat)
    requires (|a| > 0 || m.connectionId == []) && (|b| > 0 || m.contract == [])
    requires q == p + |BytesField(0x1a, a)| + |BytesField(0x22, b)| && p <= |bs| < TwoTo63
    requires bs[p..] == BytesField(0x1a, a) + (BytesField(0x22, b) + t)
    ensures q <= |bs| && bs[q..] == t
    ensures DecodeExecute(c, bs, p, m) == DecodeExecute(c, bs, q, m.(connectionId := a, contract := b))
  {
    var fa, fb := BytesField(0x1a, a), BytesField(0x22, b);
    var r := p + |fa|;
    var m' := m.(connectionId := a);
    assert bs[p..r] == fa && bs[r..] == fb + t by {
      SplitAt(bs, p, fa, fb + t);
    }
    assert DecodeExecute(c, bs, p, m) == DecodeExecute(c, bs, r, m') by {
      ExecuteStringReads(c, bs, p, m, 3, a, r);
    }
    assert bs[r..q] == fb && bs[q..] == t by {
      SplitAt(bs, r, fb, t);
    }
    assert DecodeExecute(c, bs, r, m') == DecodeExecute(c, bs, q, m'.(contract := b)) by {
      ExecuteStringReads(c, bs, r, m', 4, b, q);
    }
  }

  /** The four strings in the order `Marshal` writes them, each followed by the rest, read one by one. */
  lemma ExecuteStringsRead<C>(c: Codec<C>, bs: seq<byte>, m: ExecuteProposal<C>, t1: seq<byte>, t2: seq<byte>, t3: seq<byte>, t4: seq<byte>, p: nat)
    requires |bs| < TwoTo63 && p == |BytesField(0x0a, m.title)| + |BytesField(0x12, m.description)| + |BytesField(0x1a, m.connectionId)| + |BytesField(0x22, m.contract)|
    requires bs[0..] == BytesField(0x0a, m.title) + t1 && t1 == BytesField(0x12, m.description) + t2
    requires t2 == BytesField(0x1a, m.connectionId) + t3 && t3 == BytesField(0x22, m.contract) + t4
    ensures p <= |bs| && bs[p..] == t4
    ensures DecodeExecute(c, bs, 0, ExecuteEmpty()) == DecodeExecute(c, bs, p, ExecuteProposal(m.title, m.description, m.connectionId, m.contract, None, []))
  {
    var p2 := |BytesField(0x0a, m.title)| + |BytesField(0x12, m.description)|;
    var m2 := ExecuteEmpty().(title := m.title, description := m.description);
    ExecuteLeadRead(c, bs, 0, ExecuteEmpty(), m.title, m.description, t2, p2);
    ExecuteTargetRead(c, bs, p2, m2, m.connectionId, m.contract, t4, p);
    assert m2.(connectionId := m.connectionId, contract := m.contract) == ExecuteProposal(m.title, m.description, m.connectionId, m.contract, None, []);
  }

  /** The message and the coins in the order `Marshal` writes them, read from p on. */
  lemma ExecuteTailRead<C(!new)>(c: Codec<C>, bs: seq<byte>, p: nat, m: ExecuteProposal<C>, msg: Option<seq<byte>>, funds: seq<C>)
    requires Lawful(c) && p <= |bs| < TwoTo63 && m.msg.None?
    requires bs[p..] == BytesField(0x2a, Raw(msg)) + Repeated(0x32, c.enc, funds)
    ensures DecodeExecute(c, bs, p, m) == Ok(m.(msg := Normal(msg), funds := m.funds + funds))
  {
    var t := Repeated(0x32, c.enc, funds);
    var q := p + |BytesField(0x2a, Raw(msg))|;
    var m' := m.(msg := Normal(msg));
    assert bs[p..q] == BytesField(0x2a, Raw(msg)) && bs[q..] == t by {
      SplitAt(bs, p, BytesField(0x2a, Raw(msg)), t);
    }
    assert DecodeExecute(c, bs, p, m) == DecodeExecute(c, bs, q, m') by {
      ExecuteMsgReads(c, bs, p, m, Raw(msg), q);
    }
    ExecuteFundsAppend(c, bs, q, m', funds);
  }

  /** The fields in the order `Marshal` writes them, each followed by the rest, read one by one. */
  lemma ExecuteFieldsRead<C(!new)>(c: Codec<C>, bs: seq<byte>, m: ExecuteProposal<C>, t1: seq<byte>, t2: seq<byte>, t3: seq<byte>, t4: seq<byte>)
    requires Lawful(c) && |bs| < TwoTo63
    requires bs[0..] == BytesField(0x0a, m.title) + t1 && t1 == BytesField(0x12, m.description) + t2
    requires t2 == BytesField(0x1a, m.connectionId) + t3 && t3 == BytesField(0x22, m.contract) + t4
    requires t4 == BytesField(0x2a, Raw(m.msg)) + Repeated(0x32, c.enc, m.funds)
    ensures DecodeExecute(c, bs, 0, ExecuteEmpty()) == Ok(m.(msg := Normal(m.msg)))
  {
    var p := |BytesField(0x0a, m.title)| + |BytesField(0x12, m.description)| + |BytesField(0x1a, m.connectionId)| + |BytesField(0x22, m.contract)|;
    var m4 := ExecuteProposal(m.title, m.description, m.connectionId, m.contract, None, []);
    ExecuteStringsRead(c, bs, m, t1, t2, t3, t4, p);
    ExecuteTailRead(c, bs, p, m4, m.msg, m.funds);
    assert m4.(msg := Normal(m.msg), funds := m4.funds + m.funds) == m.(msg := Normal(m.msg));
  }

  /**
   * Unmarshalling what `Marshal` wrote into an empty proposal gives the
   * proposal back, except that an empty contract message comes back nil.
   */
  lemma ExecuteRoundTrip<C(!new)>(c: Codec<C>, m: ExecuteProposal<C>)
    requires Lawful(c) && |EncodeExecute(c, m)| < TwoTo63
    ensures DecodeExecute(c, EncodeExecute(c, m), 0, ExecuteEmpty()) == Ok(m.(msg := Normal(m.msg)))
    ensures |Raw(m.msg)| > 0 || m.msg.None? ==> DecodeExecute(c, EncodeExecute(c, m), 0, ExecuteEmpty()) == Ok(m)
  {
    var bs := EncodeExecute(c, m);
    var t4 := BytesField(0x2a, Raw(m.msg)) + Repeated(0x32, c.enc, m.funds);
    var t3 := BytesField(0x22, m.contract) + t4;
    var t2 := BytesField(0x1a, m.connectionId) + t3;
    var t1 := BytesField(0x12, m.description) + t2;
    assert bs[0..] == bs;
    ExecuteFieldsRead(c, bs, m, t1, t2, t3, t4);
  }

  /** Fields 1 to 6 in any wire type but length-delimited are refused. */
  lemma ExecuteWrongWireType<C>(c: Codec<C>, bs: seq<byte>, i: nat, m: ExecuteProposal<C>)
    requires i < |bs| < TwoTo63 && 1 <= bs[i] / 8 <= 6 && bs[i] % 8 !in {2, 4}
    ensures DecodeExecute(c, bs, i, m) == Err(WrongWireType(bs[i] / 8, bs[i] % 8))
  {
    TagByteAt(bs, i, bs[i]);
  }

  /** A one-byte length that runs past the end of the input is an unexpected EOF. */
  lemma ExecuteLengthPastEnd<C>(c: Codec<C>, bs: seq<byte>, i: nat, m: ExecuteProposal<C>)
    requires i + 1 < |bs| && |bs| + 128 < TwoTo63 && bs[i] in {0x0a, 0x12, 0x1a, 0x22, 0x2a, 0x32}
    requires bs[i + 1] < 128 && i + 2 + bs[i + 1] > |bs|
    ensures DecodeExecute(c, bs, i, m) == Err(UnexpectedEOF)
  {
    TagByteAt(bs, i, bs[i]);
    ReadOneByte(bs, i + 1);
    assert ToInt64(bs[i + 1]) == bs[i + 1];
    assert IntAdd(i + 2, bs[i + 1]) == i + 2 + bs[i + 1];
    assert ReadLength(bs, i + 1) == Err(UnexpectedEOF);
  }

  // ---------------------------------------------------------------------
  // MigrateRemoteContractProposal

  datatype MigrateProposal = MigrateProposal(
    title: seq<byte>, description: seq<byte>, connectionId: seq<byte>, contract: seq<byte>,
    codeId: uint64, msg: Option<seq<byte>>)

  function MigrateEmpty(): MigrateProposal {
    MigrateProposal([], [], [], [], 0, None)
  }

  /** Fields 1 to 4 (tags 0x0a to 0x22) each left out when empty, the code id after 0x28 unless zero, the message after 0x32 unless empty. */
  function EncodeMigrate(m: MigrateProposal): seq<byte> {
    BytesField(0x0a, m.title) + (BytesField(0x12, m.description) + (BytesField(0x1a, m.connectionId) +
      (BytesField(0x22, m.contract) + (Uint64Field(0x28, m.codeId) + BytesField(0x32, Raw(m.msg))))))
  }

  function SizeMigrate(m: MigrateProposal): nat {
    BytesFieldSize(|m.title|) + BytesFieldSize(|m.description|) + BytesFieldSize(|m.connectionId|) +
      BytesFieldSize(|m.contract|) + Uint64FieldSize(m.codeId) + BytesFieldSize(|Raw(m.msg)|)
  }

  /** `Size` is the length `Marshal` writes. */
  lemma MigrateSizeIsLength(m: MigrateProposal)
    ensures SizeMigrate(m) == |EncodeMigrate(m)|
  {
    BytesFieldLength(0x0a, m.title);
    BytesFieldLength(0x12, m.description);
    BytesFieldLength(0x1a, m.connectionId);
    BytesFieldLength(0x22, m.contract);
    Uint64FieldLength(0x28, m.codeId);
    BytesFieldLength(0x32, Raw(m.msg));
  }

  method MigrateToSizedBuffer(m: MigrateProposal, buf: array<byte>) returns (n: nat)
    requires |EncodeMigrate(m)| <= buf.Length < U64
    modifies buf
    ensures n == |EncodeMigrate(m)| && buf[buf.Length - n..] == EncodeMigrate(m)
    ensures buf[..buf.Length - n] == old(buf[..buf.Length - n])
  {
    ghost var start := buf[..];
    var end := buf.Length;
    var i := PrependBytesField(buf, end, end, 0x32, Raw(m.msg), start, []);
    ghost var tail := BytesField(0x32, Raw(m.msg));
    assert BytesField(0x32, Raw(m.msg)) + [] == tail;
    i := PrependUint64Field(buf, i, end, 0x28, m.codeId, start, tail);
    tail := Uint64Field(0x28, m.codeId) + tail;
    i := PrependStrings(buf, i, end, m.title, m.description, m.connectionId, m.contract, start, tail);
    assert BytesField(0x0a, m.title) + (BytesField(0x12, m.description) + (BytesField(0x1a, m.connectionId) + (BytesField(0x22, m.contract) + tail))) == EncodeMigrate(m);
    return end - i;
  }

  method MarshalMigrate(m: MigrateProposal) returns (data: seq<byte>)
    requires |EncodeMigrate(m)| < TwoTo63
    ensures data == EncodeMigrate(m)
  {
    var size := SizeMigrate(m);
    MigrateSizeIsLength(m);
    var buf := new byte[size];
    var n := MigrateToSizedBuffer(m, buf);
    data := buf[..n];
  }

  function MigrateString(m: MigrateProposal, k: int): seq<byte>
    requires 1 <= k <= 4
  {
    if k == 1 then m.title else if k == 2 then m.description else if k == 3 then m.connectionId else m.contract
  }

  function MigrateSetString(m: MigrateProposal, k: int, v: seq<byte>): MigrateProposal
    requires 1 <= k <= 4
  {
    if k == 1 then m.(title := v) else if k == 2 then m.(description := v)
    else if k == 3 then m.(connectionId := v) else m.(contract := v)
  }

  /**
   * One turn of the `Unmarshal` loop at i.  Fields 1 to 4 and 6 must be
   * length-delimited, field 5 a varint: 1 to 4 replace their string, 5 the
   * code id, 6 the message (an empty payload gives an empty, non-nil
   * slice); any other field is skipped.
   */
  function MigrateField(bs: seq<byte>, i: nat, m: MigrateProposal): (r: Result<(MigrateProposal, nat), WireError>)
    requires i < |bs| < TwoTo63
    ensures r.Ok? ==> i < r.value.1 <= |bs|
  {
    match ReadTag(bs, i)
    case Err(e) => Err(e)
    case Ok((fieldNum, wireType, j)) =>
      if fieldNum == 5 then
        if wireType != 0 then Err(WrongWireType(5, wireType))
        else
          match ReadVarint(bs, j)
          case Err(e) => Err(e)
          case Ok((v, k)) => Ok((m.(codeId := v), k))
      else if 1 <= fieldNum <= 6 then
        if wireType != 2 then Err(WrongWireType(fieldNum, wireType))
        else
          match ReadLength(bs, j)
          case Err(e) => Err(e)
          case Ok((s, e)) =>
            if fieldNum <= 4 then Ok((MigrateSetString(m, fieldNum, bs[s..e]), e))
            else Ok((m.(msg := Some(bs[s..e])), e))
      else
        match SkipUnknown(bs, i)
        case Err(e) => Err(e)
        case Ok(k) => Ok((m, k))
  }

  function DecodeMigrate(bs: seq<byte>, i: nat, m: MigrateProposal): Result<MigrateProposal, WireError>
    requires i <= |bs| < TwoTo63
    decreases |bs| - i
  {
    if i == |bs| then Ok(m)
    else
      match MigrateField(bs, i, m)
      case Err(e) => Err(e)
      case Ok((m', k)) => DecodeMigrate(bs, k, m')
  }

  method UnmarshalMigrate(bs: seq<byte>, m0: MigrateProposal) returns (r: Result<MigrateProposal, WireError>)
    requires |bs| < TwoTo63
    ensures r == DecodeMigrate(bs, 0, m0)
  {
    var m, i := m0, 0;
    while i < |bs|
      invariant i <= |bs|
      invariant DecodeMigrate(bs, i, m) == DecodeMigrate(bs, 0, m0)
      decreases |bs| - i
    {
      var tag := DecodeTag(bs, i);
      if tag.Err? {
        return Err(tag.error);
      }
      var (fieldNum, wireType, j) := tag.value;
      if fieldNum == 5 {
        if wireType != 0 {
          return Err(WrongWireType(5, wireType));
        }
        var v := DecodeVarint(bs, j);
        if v.Err? {
          return Err(v.error);
        }
        m, i := m.(codeId := v.value.0), v.value.1;
      } else if 1 <= fieldNum <= 6 {
        if wireType != 2 {
          return Err(WrongWireType(fieldNum, wireType));
        }
        var bounds := DecodeLength(bs, j);
        if bounds.Err? {
          return Err(bounds.error);
        }
        var (s, e) := bounds.value;
        if fieldNum == 1 {
          m := m.(title := bs[s..e]);
        } else if fieldNum == 2 {
          m := m.(description := bs[s..e]);
        } else if fieldNum == 3 {
          m := m.(connectionId := bs[s..e]);
        } else if fieldNum == 4 {
          m := m.(contract := bs[s..e]);
        } else {
          m := m.(msg := Some(bs[s..e]));
        }
        i := e;
      } else {
        var k := SkipUnknownField(bs, i);
        if k.Err? {
          return Err(k.error);
        }
        i := k.value;
      }
    }
    return Ok(m);
  }

  /** A string field as `Marshal` writes it, read at i: a non-empty string replaces the old one, an empty one is not there. */
  lemma MigrateStringReads(bs: seq<byte>, i: nat, m: MigrateProposal, k: int, v: seq<byte>, e: nat)
    requires 1 <= k <= 4 && (|v| > 0 || MigrateString(m, k) == [])
    requires e == i + |BytesField(8 * k + 2, v)| && e <= |bs| < TwoTo63 && bs[i..e] == BytesField(8 * k + 2, v)
    ensures DecodeMigrate(bs, i, m) == DecodeMigrate(bs, e, MigrateSetString(m, k, v))
  {
    var tag: byte := 8 * k + 2;
    assert tag / 8 == k && tag % 8 == 2;
    if |v| > 0 {
      assert MigrateField(bs, i, m) == Ok((MigrateSetString(m, k, v), e)) by {
        LenFieldAt(bs, i, tag, v, i + 1 + |Varint(|v|)|, e);
      }
    } else {
      assert MigrateSetString(m, k, v) == m;
    }
  }

  /** The code id as `Marshal` writes it, read at i: a non-zero id replaces the old one, a zero one is not there. */
  lemma MigrateCodeIdReads(bs: seq<byte>, i: nat, m: MigrateProposal, v: uint64, e: nat)
    requires v != 0 || m.codeId == 0
    requires e == i + |Uint64Field(0x28, v)| && e <= |bs| < TwoTo63 && bs[i..e] == Uint64Field(0x28, v)
    ensures DecodeMigrate(bs, i, m) == DecodeMigrate(bs, e, m.(codeId := v))
  {
    if v != 0 {
      VarintFieldAt(bs, i, 0x28, v, e);
      assert MigrateField(bs, i, m) == Ok((m.(codeId := v), e));
    } else {
      assert m.(codeId := v) == m;
    }
  }

  /** The message field as `Marshal` writes it, read at i: set when non-empty, absent otherwise. */
  lemma MigrateMsgReads(bs: seq<byte>, i: nat, m: MigrateProposal, v: seq<byte>, e: nat)
    requires e == i + |BytesField(0x32, v)| && e <= |bs| < TwoTo63 && bs[i..e] == BytesField(0x32, v)
    ensures DecodeMigrate(bs, i, m) == DecodeMigrate(bs, e, if |v| > 0 then m.(msg := Some(v)) else m)
  {
    if |v| > 0 {
      LenFieldAt(bs, i, 0x32, v, i + 1 + |Varint(|v|)|, e);
      assert MigrateField(bs, i, m) == Ok((m.(msg := Some(v)), e));
    }
  }

  /** The title and the description in the order `Marshal` writes them, read from p on. */
  lemma MigrateLeadRead(bs: seq<byte>, p: nat, m: MigrateProposal, a: seq<byte>, b: seq<byte>, t: seq<byte>, q: nat)
    requires (|a| > 0 || m.title == []) && (|b| > 0 || m.description == [])
    requires q == p + |BytesField(0x0a, a)| + |BytesField(0x12, b)| && p <= |bs| < TwoTo63
    requires bs[p..] == BytesField(0x0a, a) + (BytesField(0x12, b) + t)
    ensures q <= |bs| && bs[q..] == t
    ensures DecodeMigrate(bs, p, m) == DecodeMigrate(bs, q, m.(title := a, description := b))
  {
    var fa, fb := BytesField(0x0a, a), BytesField(0x12, b);
    var r := p + |fa|;
    var m' := m.(title := a);
    assert bs[p..r] == fa && bs[r..] == fb + t by {
      SplitAt(bs, p, fa, fb + t);
    }
    assert DecodeMigrate(bs, p, m) == DecodeMigrate(bs, r, m') by {
      MigrateStringReads(bs, p, m, 1, a, r);
    }
    assert bs[r..q] == fb && bs[q..] == t by {
      SplitAt(bs, r, fb, t);
    }
    assert DecodeMigrate(bs, r, m') == DecodeMigrate(bs, q, m'.(description := b)) by {
      MigrateStringReads(bs, r, m', 2, b, q);
    }
  }

  /** The connection id and the contract in the order `Marshal` writes them, read from p on. */
  lemma MigrateTargetRead(bs: seq<byte>, p: nat, m: MigrateProposal, a: seq<byte>, b: seq<byte>, t: seq<byte>, q: nat)
    requires (|a| > 0 || m.connectionId == []) && (|b| > 0 || m.contract == [])
    requires q == p + |BytesField(0x1a, a)| + |BytesField(0x22, b)| && p <= |bs| < TwoTo63
    requires bs[p..] == BytesField(0x1a, a) + (BytesField(0x22, b) + t)
    ensures q <= |bs| && bs[q..] == t
    ensures DecodeMigrate(bs, p, m) == DecodeMigrate(bs, q, m.(connectionId := a, contract := b))
  {
    var fa, fb := BytesField(0x1a, a), BytesField(0x22, b);
    var r := p + |fa|;
    var m' := m.(connectionId := a);
    assert bs[p..r] == fa && bs[r..] == fb + t by {
      SplitAt(bs, p, fa, fb + t);
    }
    assert DecodeMigrate(bs, p, m) == DecodeMigrate(bs, r, m') by {
      MigrateStringReads(bs, p, m, 3, a, r);
    }
    assert bs[r..q] == fb && bs[q..] == t by {
      SplitAt(bs, r, fb, t);
    }
    assert DecodeMigrate(bs, r, m') == DecodeMigrate(bs, q, m'.(contract := b)) by {
      MigrateStringReads(bs, r, m', 4, b, q);
    }
  }

  /** The four strings in the order `Marshal` writes them, each followed by the rest, read one by one. */
  lemma MigrateStringsRead(bs: seq<byte>, m: MigrateProposal, t1: seq<byte>, t2: seq<byte>, t3: seq<byte>, t4: seq<byte>, p: nat)
    requires |bs| < TwoTo63 && p == |BytesField(0x0a, m.title)| + |BytesField(0x12, m.description)| + |BytesField(0x1a, m.connectionId)| + |BytesField(0x22, m.contract)|
    requires bs[0..] == BytesField(0x0a, m.title) + t1 && t1 == BytesField(0x12, m.description) + t2
    requires t2 == BytesField(0x1a, m.connectionId) + t3 && t3 == BytesField(0x22, m.contract) + t4
    ensures p <= |bs| && bs[p..] == t4
    ensures DecodeMigrate(bs, 0, MigrateEmpty()) == DecodeMigrate(bs, p, MigrateProposal(m.title, m.description, m.connectionId, m.contract, 0, None))
  {
    var p2 := |BytesField(0x0a, m.title)| + |BytesField(0x12, m.description)|;
    var m2 := MigrateEmpty().(title := m.title, description := m.description);
    MigrateLeadRead(bs, 0, MigrateEmpty(), m.title, m.description, t2, p2);
    MigrateTargetRead(bs, p2, m2, m.connectionId, m.contract, t4, p);
    assert m2.(connectionId := m.connectionId, contract := m.contract) == MigrateProposal(m.title, m.description, m.connectionId, m.contract, 0, None);
  }

  /** The code id and the message in the order `Marshal` writes them, read from p on to the end. */
  lemma MigrateTailRead(bs: seq<byte>, p: nat, m: MigrateProposal, codeId: uint64, msg: Option<seq<byte>>)
    requires p <= |bs| < TwoTo63 && m.codeId == 0 && m.msg.None?
    requires bs[p..] == Uint64Field(0x28, codeId) + BytesField(0x32, Raw(msg))
    ensures DecodeMigrate(bs, p, m) == Ok(m.(codeId := codeId, msg := Normal(msg)))
  {
    var t := BytesField(0x32, Raw(msg));
    var q := p + |Uint64Field(0x28, codeId)|;
    var m' := m.(codeId := codeId);
    assert bs[p..q] == Uint64Field(0x28, codeId) && bs[q..] == t by {
      SplitAt(bs, p, Uint64Field(0x28, codeId), t);
    }
    assert DecodeMigrate(bs, p, m) == DecodeMigrate(bs, q, m') by {
      MigrateCodeIdReads(bs, p, m, codeId, q);
    }
    assert DecodeMigrate(bs, q, m') == DecodeMigrate(bs, |bs|, m'.(msg := Normal(msg))) by {
      assert bs[q..|bs|] == t;
      MigrateMsgReads(bs, q, m', Raw(msg), |bs|);
    }
  }

  /** The fields in the order `Marshal` writes them, each followed by the rest, read one by one. */
  lemma MigrateFieldsRead(bs: seq<byte>, m: MigrateProposal, t1: seq<byte>, t2: seq<byte>, t3: seq<byte>, t4: seq<byte>)
    requires |bs| < TwoTo63
    requires bs[0..] == BytesField(0x0a, m.title) + t1 && t1 == BytesField(0x12, m.description) + t2
    requires t2 == BytesField(0x1a, m.connectionId) + t3 && t3 == BytesField(0x22, m.contract) + t4
    requires t4 == Uint64Field(0x28, m.codeId) + BytesField(0x32, Raw(m.msg))
    ensures DecodeMigrate(bs, 0, MigrateEmpty()) == Ok(m.(msg := Normal(m.msg)))
  {
    var p := |BytesField(0x0a, m.title)| + |BytesField(0x12, m.description)| + |BytesField(0x1a, m.connectionId)| + |BytesField(0x22, m.contract)|;
    var m4 := MigrateProposal(m.title, m.description, m.connectionId, m.contract, 0, None);
    MigrateStringsRead(bs, m, t1, t2, t3, t4, p);
    MigrateTailRead(bs, p, m4, m.codeId, m.msg);
    assert m4.(codeId := m.codeId, msg := Normal(m.msg)) == m.(msg := Normal(m.msg));
  }

  /**
   * Unmarshalling what `Marshal` wrote into an empty proposal gives the
   * proposal back, except that an empty contract message comes back nil.
   */
  lemma MigrateRoundTrip(m: MigrateProposal)
    requires |EncodeMigrate(m)| < TwoTo63
    ensures DecodeMigrate(EncodeMigrate(m), 0, MigrateEmpty()) == Ok(m.(msg := Normal(m.msg)))
    ensures |Raw(m.msg)| > 0 || m.msg.None? ==> DecodeMigrate(EncodeMigrate(m), 0, MigrateEmpty()) == Ok(m)
  {
    var bs := EncodeMigrate(m);
    var t4 := Uint64Field(0x28, m.codeId) + BytesField(0x32, Raw(m.msg));
    var t3 := BytesField(0x22, m.contract) + t4;
    var t2 := BytesField(0x1a, m.connectionId) + t3;
    var t1 := BytesField(0x12, m.description) + t2;
    assert bs[0..] == bs;
    MigrateFieldsRead(bs, m, t1, t2, t3, t4);
  }

  /** The code id in any wire type but varint is refused, and so are the other known fields in any but length-delimited. */
  lemma MigrateWrongWireType(bs: seq<byte>, i: nat, m: MigrateProposal)
    requires i < |bs| < TwoTo63 && 1 <= bs[i] / 8 <= 6 && bs[i] % 8 != 4
    requires if bs[i] / 8 == 5 then bs[i] % 8 != 0 else bs[i] % 8 != 2
    ensures DecodeMigrate(bs, i, m) == Err(WrongWireType(bs[i] / 8, bs[i] % 8))
  {
    TagByteAt(bs, i, bs[i]);
  }

  /** A code id written as ten continuation bytes overflows. */
  lemma MigrateCodeIdOverflow(bs: seq<byte>, i: nat, m: MigrateProposal)
    requires i + 11 <= |bs| < TwoTo63 && bs[i] == 0x28
    requires forall k :: i + 1 <= k < i + 11 ==> bs[k] >= 128
    ensures DecodeMigrate(bs, i, m) == Err(IntOverflow)
  {
    TagByteAt(bs, i, 0x28);
    ReadVarintOverflow(bs, i + 1);
  }

  /** A varint field of another number is skipped and changes nothing. */
  lemma MigrateSkipsUnknown(bs: seq<byte>, i: nat, m: MigrateProposal, tag: byte, v: nat, e: nat)
    requires 56 <= tag < 128 && tag % 8 == 0 && v < U64
    requires e == i + 1 + |Varint(v)| && e <= |bs| < TwoTo63 && bs[i..e] == VarintField(tag, v)
    ensures DecodeMigrate(bs, i, m) == DecodeMigrate(bs, e, m)
  {
    SkipUnknownVarintField(bs, i, tag, v, e);
  }
}
