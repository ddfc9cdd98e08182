/** Store keys of the incentives module (x/incentives/types/keys.go). */
module IncentivesKeys {
  import opened Bytes

  const ModuleName: string := "incentives"
  const StoreKey: string := ModuleName
  const RouterKey: string := ModuleName
  const QuerierRoute: string := ModuleName

  /** Key of the next schedule id. */
  const KeyNextScheduleId: seq<byte> := [0x00]
  /** Prefix of every schedule key. */
  const KeySchedule: seq<byte> := [0x01]

  /** `GetScheduleKey`: the prefix 0x01 followed by the 8-byte big-endian id. */
  function GetScheduleKey(id: nat): (r: seq<byte>)
    requires id < U64
    ensures |r| == 9 && r[..1] == KeySchedule
    ensures FromBigEndian(r[1..]) == id
  {
    BigEndianRoundTrip(id, 8);
    KeySchedule + BigEndian(id, 8)
  }

  /** Distinct ids never share a key. */
  lemma GetScheduleKeyInjective(a: nat, b: nat)
    requires a < U64 && b < U64
    ensures GetScheduleKey(a) == GetScheduleKey(b) <==> a == b
  {
    if GetScheduleKey(a) == GetScheduleKey(b) {
      assert GetScheduleKey(a)[1..] == GetScheduleKey(b)[1..];
    }
  }

  /** The store iterates schedule keys in byte order, which is the numeric order of the ids. */
  lemma GetScheduleKeyOrder(a: nat, b: nat)
    requires a < U64 && b < U64
    ensures Less(GetScheduleKey(a), GetScheduleKey(b)) <==> a < b
  {
    BigEndianOrder(a, b, 8);
    assert GetScheduleKey(a) == [1] + BigEndian(a, 8) && GetScheduleKey(b) == [1] + BigEndian(b, 8);
    assert GetScheduleKey(a)[1..] == BigEndian(a, 8) && GetScheduleKey(b)[1..] == BigEndian(b, 8);
  }

  /** The next-id key is neither a schedule key nor a prefix of one, so the two never collide. */
  lemma NextIdKeyApart(id: nat)
    requires id < U64
    ensures GetScheduleKey(id) != KeyNextScheduleId
    ensures !IsPrefix(KeyNextScheduleId, GetScheduleKey(id))
    ensures IsPrefix(KeySchedule, GetScheduleKey(id))
  {
    assert GetScheduleKey(id)[0] == 1;
  }
}
