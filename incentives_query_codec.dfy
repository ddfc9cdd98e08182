/**
 * The protobuf wire codec of the four incentives query messages
 * (`x/incentives/types/query.pb.go`).  `Schedule` and `PageRequest` are
 * nested messages defined elsewhere; they come in as codecs.
 *
 * Each message has: the bytes it encodes to (`Encode…`), Go's size formula
 * (`Size…`), the backward writer (`…ToSizedBuffer`) and `Marshal`, the decoder
 * as a function over an input position (`Decode…`, one field per step) and
 * the `Unmarshal` loop proved to compute it.  Decoding runs on a message
 * value, as Go's `Unmarshal` does on its receiver: fields merge into it.
 */
module IncentivesQueryCodec {
  import opened Wrappers
  import opened Bytes
  import opened ProtoWire

  // ---------------------------------------------------------------------
  // QueryScheduleRequest { uint32 id = 1; }

  datatype QueryScheduleRequest = QueryScheduleRequest(id: uint32)

  /** Field 1 as a varint after tag 0x08, left out when zero. */
  function EncodeScheduleRequest(m: QueryScheduleRequest): (r: seq<byte>)
    ensures |r| <= 6
  {
    if m.id != 0 then Uint32VarintLength(m.id); VarintField(0x08, m.id) else []
  }

  function SizeScheduleRequest(m: QueryScheduleRequest): nat {
    if m.id != 0 then 1 + Sov(m.id) else 0
  }

  /** `Size` is the length `Marshal` writes: nothing for a zero id, at least two bytes otherwise. */
  lemma ScheduleRequestSize(m: QueryScheduleRequest)
    ensures SizeScheduleRequest(m) == |EncodeScheduleRequest(m)|
    ensures m.id != 0 <==> |EncodeScheduleRequest(m)| >= 2
  {
    if m.id != 0 {
      VarintFieldLength(0x08, m.id);
    }
  }

  method ScheduleRequestToSizedBuffer(m: QueryScheduleRequest, buf: array<byte>) returns (n: nat)
    requires |EncodeScheduleRequest(m)| <= buf.Length
    modifies buf
    ensures n == |EncodeScheduleRequest(m)| && buf[buf.Length - n..] == EncodeScheduleRequest(m)
    ensures buf[..buf.Length - n] == old(buf[..buf.Length - n])
  {
    var i := buf.Length;
    if m.id != 0 {
      i := WriteVarintField(buf, i, 0x08, m.id);
    }
    return buf.Length - i;
  }

  method MarshalScheduleRequest(m: QueryScheduleRequest) returns (data: seq<byte>)
    ensures data == EncodeScheduleRequest(m)
  {
    var size := SizeScheduleRequest(m);
    ScheduleRequestSize(m);
    var buf := new byte[size];
    var n := ScheduleRequestToSizedBuffer(m, buf);
    data := buf[..n];
  }

  /**
   * One turn of the `Unmarshal` loop at i: field 1 must be a varint, which
   * replaces the id (truncated to 32 bits); any other field is skipped.
   */
  function ScheduleRequestField(bs: seq<byte>, i: nat, m: QueryScheduleRequest): (r: Result<(QueryScheduleRequest, nat), WireError>)
    requires i < |bs| < TwoTo63
    ensures r.Ok? ==> i < r.value.1 <= |bs|
  {
    match ReadTag(bs, i)
    case Err(e) => Err(e)
    case Ok((fieldNum, wireType, j)) =>
      if fieldNum == 1 then
        if wireType != 0 then Err(WrongWireType(1, wireType))
        else
          match ReadVarint(bs, j)
          case Err(e) => Err(e)
          case Ok((v, k)) => Ok((m.(id := v % TwoTo32), k))
      else
        match SkipUnknown(bs, i)
        case Err(e) => Err(e)
        case Ok(k) => Ok((m, k))
  }

  /** The fields from i to the end, merged into m. */
  function DecodeScheduleRequest(bs: seq<byte>, i: nat, m: QueryScheduleRequest): Result<QueryScheduleRequest, WireError>
    requires i <= |bs| < TwoTo63
    decreases |bs| - i
  {
    if i == |bs| then Ok(m)
    else
      match ScheduleRequestField(bs, i, m)
      case Err(e) => Err(e)
      case Ok((m', k)) => DecodeScheduleRequest(bs, k, m')
  }

  method UnmarshalScheduleRequest(bs: seq<byte>, m0: QueryScheduleRequest) returns (r: Result<QueryScheduleRequest, WireError>)
    requires |bs| < TwoTo63
    ensures r == DecodeScheduleRequest(bs, 0, m0)
  {
    var m, i := m0, 0;
    while i < |bs|
      invariant i <= |bs|
      invariant DecodeScheduleRequest(bs, i, m) == DecodeScheduleRequest(bs, 0, m0)
      decreases |bs| - i
    {
      var tag := DecodeTag(bs, i);
      if tag.Err? {
        return Err(tag.error);
      }
      var (fieldNum, wireType, j) := tag.value;
      if fieldNum == 1 {
        if wireType != 0 {
          return Err(WrongWireType(1, wireType));
        }
        var v := DecodeVarint(bs, j);
        if v.Err? {
          return Err(v.error);
        }
        m, i := m.(id := v.value.0 % TwoTo32), v.value.1;
      } else {
        var k := SkipUnknownField(bs, i);
        if k.Err? {
          return Err(k.error);
        }
        i := k.value;
      }
    }
    return Ok(m);
  }

  /**
   * An encoded request read at i: a non-zero id it carries replaces the
   * one decoded so far.  (A zero id is not written at all.)
   */
  lemma ScheduleRequestReads(bs: seq<byte>, i: nat, m0: QueryScheduleRequest, m: QueryScheduleRequest)
    requires m.id != 0
    requires i + |EncodeScheduleRequest(m)| <= |bs| < TwoTo63
    requires bs[i..i + |EncodeScheduleRequest(m)|] == EncodeScheduleRequest(m)
    ensures DecodeScheduleRequest(bs, i, m0) == DecodeScheduleRequest(bs, i + |EncodeScheduleRequest(m)|, m)
  {
    var e := i + |EncodeScheduleRequest(m)|;
    VarintFieldAt(bs, i, 0x08, m.id, e);
    assert m0.(id := m.id % TwoTo32) == m;
    assert ScheduleRequestField(bs, i, m0) == Ok((m, e));
  }

  /** Unmarshalling what `Marshal` wrote gives the request back. */
  lemma ScheduleRequestRoundTrip(m: QueryScheduleRequest)
    ensures DecodeScheduleRequest(EncodeScheduleRequest(m), 0, QueryScheduleRequest(0)) == Ok(m)
  {
    var bs := EncodeScheduleRequest(m);
    ScheduleRequestSize(m);
    if m.id != 0 {
      ScheduleRequestReads(bs, 0, QueryScheduleRequest(0), m);
    }
  }

  /** Two requests back to back: the later id wins, and an absent one leaves the earlier in place. */
  lemma ScheduleRequestLastWins(a: QueryScheduleRequest, b: QueryScheduleRequest, m0: QueryScheduleRequest)
    ensures DecodeScheduleRequest(EncodeScheduleRequest(a) + EncodeScheduleRequest(b), 0, m0) ==
      Ok(if b.id != 0 then b else if a.id != 0 then a else m0)
  {
    var ea, eb := EncodeScheduleRequest(a), EncodeScheduleRequest(b);
    var bs := ea + eb;
    assert bs[..|ea|] == ea && bs[|ea|..|ea| + |eb|] == eb;
    var mid := if a.id != 0 then a else m0;
    var last := if b.id != 0 then b else mid;
    if a.id != 0 {
      ScheduleRequestReads(bs, 0, m0, a);
    } else {
      assert |ea| == 0;
    }
    assert DecodeScheduleRequest(bs, 0, m0) == DecodeScheduleRequest(bs, |ea|, mid);
    if b.id != 0 {
      ScheduleRequestReads(bs, |ea|, mid, b);
    } else {
      assert |ea| == |bs|;
    }
    assert DecodeScheduleRequest(bs, |ea|, mid) == DecodeScheduleRequest(bs, |bs|, last);
    assert DecodeScheduleRequest(bs, |bs|, last) == Ok(last);
  }

  /**
   * What the decoder refuses at a one-byte tag: an end-group wire type,
   * field number 0, and field 1 with a wire type other than varint.
   */
  lemma ScheduleRequestRejects(bs: seq<byte>, i: nat, m: QueryScheduleRequest)
    requires i < |bs| < TwoTo63 && bs[i] < 128
    ensures bs[i] % 8 == 4 ==> DecodeScheduleRequest(bs, i, m) == Err(EndGroupForNonGroup)
    ensures bs[i] < 8 && bs[i] % 8 != 4 ==> DecodeScheduleRequest(bs, i, m) == Err(IllegalTag(0))
    ensures bs[i] / 8 == 1 && bs[i] % 8 !in {0, 4} ==> DecodeScheduleRequest(bs, i, m) == Err(WrongWireType(1, bs[i] % 8))
  {
    if bs[i] % 8 == 4 || bs[i] < 8 {
      TagByteRejected(bs, i);
    } else if bs[i] / 8 == 1 {
      TagByteAt(bs, i, bs[i]);
    }
  }

  /** An id whose varint is cut off by the end of the input is an unexpected EOF. */
  lemma ScheduleRequestTruncated(bs: seq<byte>, m: QueryScheduleRequest)
    requires 1 <= |bs| <= 9 && bs[0] == 0x08 && forall k :: 1 <= k < |bs| ==> bs[k] >= 128
    ensures DecodeScheduleRequest(bs, 0, m) == Err(UnexpectedEOF)
  {
    TagByteAt(bs, 0, 0x08);
    ReadVarintTruncated(bs, 1);
  }

  /** A varint field of another number is skipped and changes nothing. */
  lemma ScheduleRequestSkipsUnknown(bs: seq<byte>, i: nat, m: QueryScheduleRequest, tag: byte, v: nat, e: nat)
    requires 16 <= tag < 128 && tag % 8 == 0 && v < U64
    requires e == i + 1 + |Varint(v)| && e <= |bs| < TwoTo63 && bs[i..e] == VarintField(tag, v)
    ensures DecodeScheduleRequest(bs, i, m) == DecodeScheduleRequest(bs, e, m)
  {
    SkipUnknownVarintField(bs, i, tag, v, e);
  }

  // ---------------------------------------------------------------------
  // QueryScheduleResponse { Schedule schedule = 1 [(gogoproto.nullable) = false]; }

  datatype QueryScheduleResponse<S> = QueryScheduleResponse(schedule: S)

  /** The schedule as a length-delimited field after tag 0x0a, always written, even when empty. */
  function EncodeScheduleResponse<S>(c: Codec<S>, m: QueryScheduleResponse<S>): seq<byte> {
    LenField(0x0a, c.enc(m.schedule))
  }

  function SizeScheduleResponse<S>(c: Codec<S>, m: QueryScheduleResponse<S>): nat {
    LenFieldSize(|c.enc(m.schedule)|)
  }

  lemma ScheduleResponseSize<S>(c: Codec<S>, m: QueryScheduleResponse<S>)
    ensures SizeScheduleResponse(c, m) == |EncodeScheduleResponse(c, m)| >= 2
  {
    LenFieldLength(0x0a, c.enc(m.schedule));
  }

  method ScheduleResponseToSizedBuffer<S>(c: Codec<S>, m: QueryScheduleResponse<S>, buf: array<byte>) returns (n: nat)
    requires |EncodeScheduleResponse(c, m)| <= buf.Length < U64
    modifies buf
    ensures n == |EncodeScheduleResponse(c, m)| && buf[buf.Length - n..] == EncodeScheduleResponse(c, m)
    ensures buf[..buf.Length - n] == old(buf[..buf.Length - n])
  {
    var i := WriteLenField(buf, buf.Length, 0x0a, c.enc(m.schedule));
    return buf.Length - i;
  }

  method MarshalScheduleResponse<S>(c: Codec<S>, m: QueryScheduleResponse<S>) returns (data: seq<byte>)
    requires |EncodeScheduleResponse(c, m)| < TwoTo63
    ensures data == EncodeScheduleResponse(c, m)
  {
    var size := SizeScheduleResponse(c, m);
    ScheduleResponseSize(c, m);
    var buf := new byte[size];
    var n := ScheduleResponseToSizedBuffer(c, m, buf);
    data := buf[..n];
  }

  /** Field 1 must be length-delimited; its payload is unmarshalled into the schedule decoded so far. */
  function ScheduleResponseField<S>(c: Codec<S>, bs: seq<byte>, i: nat, m: QueryScheduleResponse<S>): (r: Result<(QueryScheduleResponse<S>, nat), WireError>)
    requires i < |bs| < TwoTo63
    ensures r.Ok? ==> i < r.value.1 <= |bs|
  {
    match ReadTag(bs, i)
    case Err(e) => Err(e)
    case Ok((fieldNum, wireType, j)) =>
      if fieldNum == 1 then
        if wireType != 2 then Err(WrongWireType(1, wireType))
        else
          match ReadLength(bs, j)
          case Err(e) => Err(e)
          case Ok((s, e)) =>
            match c.merge(m.schedule, bs[s..e])
            case None => Err(NestedFailed)
            case Some(x) => Ok((m.(schedule := x), e))
      else
        match SkipUnknown(bs, i)
        case Err(e) => Err(e)
        case Ok(k) => Ok((m, k))
  }

  function DecodeScheduleResponse<S>(c: Codec<S>, bs: seq<byte>, i: nat, m: QueryScheduleResponse<S>): Result<QueryScheduleResponse<S>, WireError>
    requires i <= |bs| < TwoTo63
    decreases |bs| - i
  {
    if i == |bs| then Ok(m)
    else
      match ScheduleResponseField(c, bs, i, m)
      case Err(e) => Err(e)
      case Ok((m', k)) => DecodeScheduleResponse(c, bs, k, m')
  }

  method UnmarshalScheduleResponse<S>(c: Codec<S>, bs: seq<byte>, m0: QueryScheduleResponse<S>) returns (r: Result<QueryScheduleResponse<S>, WireError>)
    requires |bs| < TwoTo63
    ensures r == DecodeScheduleResponse(c, bs, 0, m0)
  {
    var m, i := m0, 0;
    while i < |bs|
      invariant i <= |bs|
      invariant DecodeScheduleResponse(c, bs, i, m) == DecodeScheduleResponse(c, bs, 0, m0)
      decreases |bs| - i
    {
      var tag := DecodeTag(bs, i);
      if tag.Err? {
        return Err(tag.error);
      }
      var (fieldNum, wireType, j) := tag.value;
      if fieldNum == 1 {
        if wireType != 2 {
          return Err(WrongWireType(1, wireType));
        }
        var bounds := DecodeLength(bs, j);
        if bounds.Err? {
          return Err(bounds.error);
        }
        var (s, e) := bounds.value;
        var x := c.merge(m.schedule, bs[s..e]);
        if x.None? {
          return Err(NestedFailed);
        }
        m, i := m.(schedule := x.value), e;
      } else {
        var k := SkipUnknownField(bs, i);
        if k.Err? {
          return Err(k.error);
        }
        i := k.value;
      }
    }
    return Ok(m);
  }

  /** The field `Marshal` writes, read at i: the schedule's bytes are merged into the one decoded so far. */
  lemma ScheduleResponseReads<S>(c: Codec<S>, bs: seq<byte>, i: nat, m0: QueryScheduleResponse<S>, x: S, e: nat)
    requires e == i + |EncodeScheduleResponse(c, QueryScheduleResponse(x))| && e <= |bs| < TwoTo63
    requires bs[i..e] == EncodeScheduleResponse(c, QueryScheduleResponse(x))
    ensures DecodeScheduleResponse(c, bs, i, m0) ==
      match c.merge(m0.schedule, c.enc(x))
      case None => Err(NestedFailed)
      case Some(y) => DecodeScheduleResponse(c, bs, e, QueryScheduleResponse(y))
  {
    var data := c.enc(x);
    LenFieldAt(bs, i, 0x0a, data, i + 1 + |Varint(|data|)|, e);
  }

  /** Unmarshalling what `Marshal` wrote into an empty response gives the response back. */
  lemma ScheduleResponseRoundTrip<S(!new)>(c: Codec<S>, m: QueryScheduleResponse<S>)
    requires Lawful(c) && |EncodeScheduleResponse(c, m)| < TwoTo63
    ensures DecodeScheduleResponse(c, EncodeScheduleResponse(c, m), 0, QueryScheduleResponse(c.zero)) == Ok(m)
  {
    var bs := EncodeScheduleResponse(c, m);
    ScheduleResponseReads(c, bs, 0, QueryScheduleResponse(c.zero), m.schedule, |bs|);
  }

  /** Field 1 in any wire type but length-delimited is refused. */
  lemma ScheduleResponseWrongWireType<S>(c: Codec<S>, bs: seq<byte>, i: nat, m: QueryScheduleResponse<S>)
    requires i < |bs| < TwoTo63 && bs[i] / 8 == 1 && bs[i] % 8 !in {2, 4}
    ensures DecodeScheduleResponse(c, bs, i, m) == Err(WrongWireType(1, bs[i] % 8))
  {
    TagByteAt(bs, i, bs[i]);
  }

  /** A one-byte length that runs past the end of the input is an unexpected EOF. */
  lemma ScheduleResponseLengthPastEnd<S>(c: Codec<S>, bs: seq<byte>, i: nat, m: QueryScheduleResponse<S>)
    requires i + 1 < |bs| && |bs| + 128 < TwoTo63 && bs[i] == 0x0a && bs[i + 1] < 128 && i + 2 + bs[i + 1] > |bs|
    ensures DecodeScheduleResponse(c, bs, i, m) == Err(UnexpectedEOF)
  {
    TagByteAt(bs, i, 0x0a);
    ReadOneByte(bs, i + 1);
    assert ToInt64(bs[i + 1]) == bs[i + 1];
    assert IntAdd(i + 2, bs[i + 1]) == i + 2 + bs[i + 1];
    assert ReadLength(bs, i + 1) == Err(UnexpectedEOF);
  }

  /** A nested schedule that does not unmarshal fails the whole response. */
  lemma ScheduleResponseNestedFails<S>(c: Codec<S>, bs: seq<byte>, i: nat, m0: QueryScheduleResponse<S>, x: S, e: nat)
    requires e == i + |EncodeScheduleResponse(c, QueryScheduleResponse(x))| && e <= |bs| < TwoTo63
    requires bs[i..e] == EncodeScheduleResponse(c, QueryScheduleResponse(x))
    requires c.merge(m0.schedule, c.enc(x)).None?
    ensures DecodeScheduleResponse(c, bs, i, m0) == Err(NestedFailed)
  {
    ScheduleResponseReads(c, bs, i, m0, x, e);
  }

  // ---------------------------------------------------------------------
  // QuerySchedulesRequest { cosmos.base.query.v1beta1.PageRequest pagination = 1; }

  /** `Pagination` may be nil: `None` for nil. */
  datatype QuerySchedulesRequest<P> = QuerySchedulesRequest(pagination: Option<P>)

  /** The page request after tag 0x0a when it is set, nothing when it is nil. */
  function EncodeSchedulesRequest<P>(c: Codec<P>, m: QuerySchedulesRequest<P>): seq<byte> {
    if m.pagination.Some? then LenField(0x0a, c.enc(m.pagination.value)) else []
  }

  function SizeSchedulesRequest<P>(c: Codec<P>, m: QuerySchedulesRequest<P>): nat {
    if m.pagination.Some? then LenFieldSize(|c.enc(m.pagination.value)|) else 0
  }

  lemma SchedulesRequestSize<P>(c: Codec<P>, m: QuerySchedulesRequest<P>)
    ensures SizeSchedulesRequest(c, m) == |EncodeSchedulesRequest(c, m)|
    ensures m.pagination.Some? <==> |EncodeSchedulesRequest(c, m)| > 0
  {
    if m.pagination.Some? {
      LenFieldLength(0x0a, c.enc(m.pagination.value));
    }
  }

  method SchedulesRequestToSizedBuffer<P>(c: Codec<P>, m: QuerySchedulesRequest<P>, buf: array<byte>) returns (n: nat)
    requires |EncodeSchedulesRequest(c, m)| <= buf.Length < U64
    modifies buf
    ensures n == |EncodeSchedulesRequest(c, m)| && buf[buf.Length - n..] == EncodeSchedulesRequest(c, m)
    ensures buf[..buf.Length - n] == old(buf[..buf.Length - n])
  {
    var i := buf.Length;
    if m.pagination.Some? {
      i := WriteLenField(buf, i, 0x0a, c.enc(m.pagination.value));
    }
    return buf.Length - i;
  }

  method MarshalSchedulesRequest<P>(c: Codec<P>, m: QuerySchedulesRequest<P>) returns (data: seq<byte>)
    requires |EncodeSchedulesRequest(c, m)| < TwoTo63
    ensures data == EncodeSchedulesRequest(c, m)
  {
    var size := SizeSchedulesRequest(c, m);
    SchedulesRequestSize(c, m);
    var buf := new byte[size];
    var n := SchedulesRequestToSizedBuffer(c, m, buf);
    data := buf[..n];
  }

  /** The page request already decoded, or a fresh empty one when it is still nil. */
  function PaginationOrZero<P>(c: Codec<P>, m: QuerySchedulesRequest<P>): P {
    if m.pagination.Some? then m.pagination.value else c.zero
  }

  /** Field 1 must be length-delimited; its payload is unmarshalled into the page request, allocated if nil. */
  function SchedulesRequestField<P>(c: Codec<P>, bs: seq<byte>, i: nat, m: QuerySchedulesRequest<P>): (r: Result<(QuerySchedulesRequest<P>, nat), WireError>)
    requires i < |bs| < TwoTo63
    ensures r.Ok? ==> i < r.value.1 <= |bs|
  {
    match ReadTag(bs, i)
    case Err(e) => Err(e)
    case Ok((fieldNum, wireType, j)) =>
      if fieldNum == 1 then
        if wireType != 2 then Err(WrongWireType(1, wireType))
        else
          match ReadLength(bs, j)
          case Err(e) => Err(e)
          case Ok((s, e)) =>
            match c.merge(PaginationOrZero(c, m), bs[s..e])
            case None => Err(NestedFailed)
            case Some(x) => Ok((QuerySchedulesRequest(Some(x)), e))
      else
        match SkipUnknown(bs, i)
        case Err(e) => Err(e)
        case Ok(k) => Ok((m, k))
  }

  function DecodeSchedulesRequest<P>(c: Codec<P>, bs: seq<byte>, i: nat, m: QuerySchedulesRequest<P>): Result<QuerySchedulesRequest<P>, WireError>
    requires i <= |bs| < TwoTo63
    decreases |bs| - i
  {
    if i == |bs| then Ok(m)
    else
      match SchedulesRequestField(c, bs, i, m)
      case Err(e) => Err(e)
      case Ok((m', k)) => DecodeSchedulesRequest(c, bs, k, m')
  }

  method UnmarshalSchedulesRequest<P>(c: Codec<P>, bs: seq<byte>, m0: QuerySchedulesRequest<P>) returns (r: Result<QuerySchedulesRequest<P>, WireError>)
    requires |bs| < TwoTo63
    ensures r == DecodeSchedulesRequest(c, bs, 0, m0)
  {
    var m, i := m0, 0;
    while i < |bs|
      invariant i <= |bs|
      invariant DecodeSchedulesRequest(c, bs, i, m) == DecodeSchedulesRequest(c, bs, 0, m0)
      decreases |bs| - i
    {
      var tag := DecodeTag(bs, i);
      if tag.Err? {
        return Err(tag.error);
      }
      var (fieldNum, wireType, j) := tag.value;
      if fieldNum == 1 {
        if wireType != 2 {
          return Err(WrongWireType(1, wireType));
        }
        var bounds := DecodeLength(bs, j);
        if bounds.Err? {
          return Err(bounds.error);
        }
        var (s, e) := bounds.value;
        var page := if m.pagination.None? then c.zero else m.pagination.value;
        var x := c.merge(page, bs[s..e]);
        if x.None? {
          return Err(NestedFailed);
        }
        m, i := QuerySchedulesRequest(Some(x.value)), e;
      } else {
        var k := SkipUnknownField(bs, i);
        if k.Err? {
          return Err(k.error);
        }
        i := k.value;
      }
    }
    return Ok(m);
  }

  /**
   * Unmarshalling what `Marshal` wrote into an empty request gives the
   * request back: a nil pagination stays nil, a set one (even an empty one)
   * comes back set.
   */
  lemma SchedulesRequestRoundTrip<P(!new)>(c: Codec<P>, m: QuerySchedulesRequest<P>)
    requires Lawful(c) && |EncodeSchedulesRequest(c, m)| < TwoTo63
    ensures DecodeSchedulesRequest(c, EncodeSchedulesRequest(c, m), 0, QuerySchedulesRequest(None)) == Ok(m)
  {
    var bs := EncodeSchedulesRequest(c, m);
    if m.pagination.Some? {
      var data := c.enc(m.pagination.value);
      LenFieldAt(bs, 0, 0x0a, data, 1 + |Varint(|data|)|, |bs|);
      assert SchedulesRequestField(c, bs, 0, QuerySchedulesRequest(None)) == Ok((m, |bs|));
    }
  }

  /** Field 1 in any wire type but length-delimited is refused. */
  lemma SchedulesRequestWrongWireType<P>(c: Codec<P>, bs: seq<byte>, i: nat, m: QuerySchedulesRequest<P>)
    requires i < |bs| < TwoTo63 && bs[i] / 8 == 1 && bs[i] % 8 !in {2, 4}
    ensures DecodeSchedulesRequest(c, bs, i, m) == Err(WrongWireType(1, bs[i] % 8))
  {
    TagByteAt(bs, i, bs[i]);
  }

  // ---------------------------------------------------------------------
  // QuerySchedulesResponse { repeated Schedule schedules = 1 [(gogoproto.nullable) = false]; }

  datatype QuerySchedulesResponse<S> = QuerySchedulesResponse(schedules: seq<S>)

  /** One length-delimited entry after tag 0x0a per schedule, in order. */
  function EncodeSchedulesResponse<S>(c: Codec<S>, m: QuerySchedulesResponse<S>): seq<byte> {
    Repeated(0x0a, c.enc, m.schedules)
  }

  function SizeSchedulesResponse<S>(c: Codec<S>, m: QuerySchedulesResponse<S>): nat {
    RepeatedSize(c.enc, m.schedules)
  }

  lemma SchedulesResponseSize<S>(c: Codec<S>, m: QuerySchedulesResponse<S>)
    ensures SizeSchedulesResponse(c, m) == |EncodeSchedulesResponse(c, m)|
  {
    RepeatedLength(0x0a, c.enc, m.schedules);
  }

  method SchedulesResponseToSizedBuffer<S>(c: Codec<S>, m: QuerySchedulesResponse<S>, buf: array<byte>) returns (n: nat)
    requires |EncodeSchedulesResponse(c, m)| <= buf.Length < U64
    modifies buf
    ensures n == |EncodeSchedulesResponse(c, m)| && buf[buf.Length - n..] == EncodeSchedulesResponse(c, m)
    ensures buf[..buf.Length - n] == old(buf[..buf.Length - n])
  {
    var i := WriteRepeated(buf, buf.Length, 0x0a, c.enc, m.schedules);
    return buf.Length - i;
  }

  method MarshalSchedulesResponse<S>(c: Codec<S>, m: QuerySchedulesResponse<S>) returns (data: seq<byte>)
    requires |EncodeSchedulesResponse(c, m)| < TwoTo63
    ensures data == EncodeSchedulesResponse(c, m)
  {
    var size := SizeSchedulesResponse(c, m);
    SchedulesResponseSize(c, m);
    var buf := new byte[size];
    var n := SchedulesResponseToSizedBuffer(c, m, buf);
    data := buf[..n];
  }

  /** Field 1 must be length-delimited; its payload is unmarshalled into a new empty schedule appended to the list. */
  function SchedulesResponseField<S>(c: Codec<S>, bs: seq<byte>, i: nat, m: QuerySchedulesResponse<S>): (r: Result<(QuerySchedulesResponse<S>, nat), WireError>)
    requires i < |bs| < TwoTo63
    ensures r.Ok? ==> i < r.value.1 <= |bs|
  {
    match ReadTag(bs, i)
    case Err(e) => Err(e)
    case Ok((fieldNum, wireType, j)) =>
      if fieldNum == 1 then
        if wireType != 2 then Err(WrongWireType(1, wireType))
        else
          match ReadLength(bs, j)
          case Err(e) => Err(e)
          case Ok((s, e)) =>
            match c.merge(c.zero, bs[s..e])
            case None => Err(NestedFailed)
            case Some(x) => Ok((QuerySchedulesResponse(m.schedules + [x]), e))
      else
        match SkipUnknown(bs, i)
        case Err(e) => Err(e)
        case Ok(k) => Ok((m, k))
  }

  function DecodeSchedulesResponse<S>(c: Codec<S>, bs: seq<byte>, i: nat, m: QuerySchedulesResponse<S>): Result<QuerySchedulesResponse<S>, WireError>
    requires i <= |bs| < TwoTo63
    decreases |bs| - i
  {
    if i == |bs| then Ok(m)
    else
      match SchedulesResponseField(c, bs, i, m)
      case Err(e) => Err(e)
      case Ok((m', k)) => DecodeSchedulesResponse(c, bs, k, m')
  }

  method UnmarshalSchedulesResponse<S>(c: Codec<S>, bs: seq<byte>, m0: QuerySchedulesResponse<S>) returns (r: Result<QuerySchedulesResponse<S>, WireError>)
    requires |bs| < TwoTo63
    ensures r == DecodeSchedulesResponse(c, bs, 0, m0)
  {
    var m, i := m0, 0;
    while i < |bs|
      invariant i <= |bs|
      invariant DecodeSchedulesResponse(c, bs, i, m) == DecodeSchedulesResponse(c, bs, 0, m0)
      decreases |bs| - i
    {
      var tag := DecodeTag(bs, i);
      if tag.Err? {
        return Err(tag.error);
      }
      var (fieldNum, wireType, j) := tag.value;
      if fieldNum == 1 {
        if wireType != 2 {
          return Err(WrongWireType(1, wireType));
        }
        var bounds := DecodeLength(bs, j);
        if bounds.Err? {
          return Err(bounds.error);
        }
        var (s, e) := bounds.value;
        var x := c.merge(c.zero, bs[s..e]);
        if x.None? {
          return Err(NestedFailed);
        }
        m, i := QuerySchedulesResponse(m.schedules + [x.value]), e;
      } else {
        var k := SkipUnknownField(bs, i);
        if k.Err? {
          return Err(k.error);
        }
        i := k.value;
      }
    }
    return Ok(m);
  }

  /** One entry read at i is appended to the schedules decoded so far. */
  lemma SchedulesResponseEntry<S(!new)>(c: Codec<S>, bs: seq<byte>, i: nat, acc: seq<S>, x: S, e: nat)
    requires Lawful(c) && e == i + |LenField(0x0a, c.enc(x))| && e <= |bs| < TwoTo63
    requires bs[i..e] == LenField(0x0a, c.enc(x))
    ensures DecodeSchedulesResponse(c, bs, i, QuerySchedulesResponse(acc)) == DecodeSchedulesResponse(c, bs, e, QuerySchedulesResponse(acc + [x]))
  {
    var data := c.enc(x);
    LenFieldAt(bs, i, 0x0a, data, i + 1 + |Varint(|data|)|, e);
    assert SchedulesResponseField(c, bs, i, QuerySchedulesResponse(acc)) == Ok((QuerySchedulesResponse(acc + [x]), e));
  }

  /** Entries read from i on are appended, in order, after the schedules decoded so far. */
  lemma {:induction false} SchedulesResponseAppends<S(!new)>(c: Codec<S>, bs: seq<byte>, i: nat, acc: seq<S>, xs: seq<S>)
    requires Lawful(c) && i <= |bs| < TwoTo63 && bs[i..] == Repeated(0x0a, c.enc, xs)
    ensures DecodeSchedulesResponse(c, bs, i, QuerySchedulesResponse(acc)) == Ok(QuerySchedulesResponse(acc + xs))
    decreases |xs|
  {
    if xs == [] {
      assert acc + xs == acc;
    } else {
      var x, rest := xs[0], xs[1..];
      var f := LenField(0x0a, c.enc(x));
      var e := i + |f|;
      assert e <= |bs| && bs[i..e] == f && bs[e..] == Repeated(0x0a, c.enc, rest) by {
        SplitAt(bs, i, f, Repeated(0x0a, c.enc, rest));
      }
      assert DecodeSchedulesResponse(c, bs, i, QuerySchedulesResponse(acc)) == DecodeSchedulesResponse(c, bs, e, QuerySchedulesResponse(acc + [x])) by {
        SchedulesResponseEntry(c, bs, i, acc, x, e);
      }
      SchedulesResponseAppends(c, bs, e, acc + [x], rest);
      AppendFirst(acc, xs);
    }
  }

  /** Unmarshalling what `Marshal` wrote into an empty response gives every schedule back, in order. */
  lemma SchedulesResponseRoundTrip<S(!new)>(c: Codec<S>, m: QuerySchedulesResponse<S>)
    requires Lawful(c) && |EncodeSchedulesResponse(c, m)| < TwoTo63
    ensures DecodeSchedulesResponse(c, EncodeSchedulesResponse(c, m), 0, QuerySchedulesResponse([])) == Ok(m)
  {
    var bs := EncodeSchedulesResponse(c, m);
    assert bs[0..] == bs;
    SchedulesResponseAppends(c, bs, 0, [], m.schedules);
    assert [] + m.schedules == m.schedules;
  }

  /** Field 1 in any wire type but length-delimited is refused. */
  lemma SchedulesResponseWrongWireType<S>(c: Codec<S>, bs: seq<byte>, i: nat, m: QuerySchedulesResponse<S>)
    requires i < |bs| < TwoTo63 && bs[i] / 8 == 1 && bs[i] % 8 !in {2, 4}
    ensures DecodeSchedulesResponse(c, bs, i, m) == Err(WrongWireType(1, bs[i] % 8))
  {
    TagByteAt(bs, i, bs[i]);
  }
}
