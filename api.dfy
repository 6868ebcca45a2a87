/**
 * The account's API methods, each reduced to what it does with the response:
 * a response whose `code` is 0 yields a projection of its payload, any other
 * code yields a fixed per-method fallback. The HTTP exchange itself (URL,
 * headers, form encoding) is outside the model: a response is an input.
 * Also the `hb` parameter of the web heartbeat.
 */
module Api {
  import opened Wrappers
  import JsRuntime
  import Decimal
  import Base64

  /** The API methods an account offers, by the name a cache request uses. */
  datatype Method =
    | GetAreaList | GetRoomListPair | GetAreaInfoByRoomId | GetAttentionList
    | GetBagList | WebHeartBeat | DrawRedPocket | RelationModify

  datatype Room = Room(roomId: int, uid: int)
  datatype Gift = Gift(giftName: string, cornerMark: string, giftNum: int)

  /** The part of a response's `data` that each method reads. */
  datatype Body =
    | AreaListBody(areaIds: seq<int>)           // data.data[i].id
    | RoomListBody(rooms: seq<Room>)            // data.list[i].{roomid, uid}
    | RoomInfoBody(parentAreaId: int, areaId: int)
    | AttentionListBody(followed: Option<seq<int>>) // data.list, possibly null
    | BagListBody(bag: Option<seq<Gift>>)       // data.list, possibly null
    | HeartBeatBody(nextInterval: int)          // data.next_interval
    | IgnoredBody                               // draw and relation read only the code

  datatype Response = Response(code: int, body: Body)

  /** What a method resolves to. */
  datatype Value =
    | Numbers(numbers: seq<int>)
    | RoomPairs(pairs: seq<(int, int)>)
    | GiftTriples(gifts: seq<(string, string, int)>)
    | Flag(ok: bool)
    | Interval(seconds: int)

  /** The payload a successful response to `m` must carry (else the method throws). */
  predicate BodyFits(m: Method, b: Body) {
    match m
    case GetAreaList => b.AreaListBody?
    case GetRoomListPair => b.RoomListBody?
    case GetAreaInfoByRoomId => b.RoomInfoBody?
    case GetAttentionList => b.AttentionListBody?
    case GetBagList => b.BagListBody?
    case WebHeartBeat => b.HeartBeatBody?
    case DrawRedPocket => true
    case RelationModify => true
  }

  /** A response `m` can decode without throwing. */
  predicate Decodable(m: Method, r: Response) {
    r.code == 0 ==> BodyFits(m, r.body)
  }

  /** The shape of every value method `m` resolves to. */
  predicate Shaped(m: Method, v: Value) {
    match m
    case GetAreaList => v.Numbers?
    case GetRoomListPair => v.RoomPairs?
    case GetAreaInfoByRoomId => v.Numbers? && (|v.numbers| == 0 || |v.numbers| == 2)
    case GetAttentionList => v.Numbers?
    case GetBagList => v.GiftTriples?
    case WebHeartBeat => v.Interval?
    case DrawRedPocket => v.Flag?
    case RelationModify => v.Flag?
  }

  function RoomPair(r: Room): (int, int) { (r.roomId, r.uid) }

  function GiftTriple(g: Gift): (string, string, int) { (g.giftName, g.cornerMark, g.giftNum) }

  /** The projection of a successful response. */
  function Project(m: Method, b: Body): (v: Value)
    requires BodyFits(m, b)
    ensures Shaped(m, v)
  {
    match m
    case GetAreaList => Numbers(b.areaIds)
    case GetRoomListPair => RoomPairs(seq(|b.rooms|, i requires 0 <= i < |b.rooms| => RoomPair(b.rooms[i])))
    case GetAreaInfoByRoomId => Numbers([b.parentAreaId, b.areaId])
    case GetAttentionList => Numbers(b.followed.GetOr([]))
    case GetBagList =>
      var gifts := b.bag.GetOr([]);
      GiftTriples(seq(|gifts|, i requires 0 <= i < |gifts| => GiftTriple(gifts[i])))
    case WebHeartBeat => Interval(b.nextInterval)
    case DrawRedPocket => Flag(true)
    case RelationModify => Flag(true)
  }

  /** The value a method returns when the response code is not 0. */
  function Fallback(m: Method): (v: Value)
    ensures Shaped(m, v)
  {
    match m
    case GetAreaList => Numbers([])
    case GetRoomListPair => RoomPairs([])
    case GetAreaInfoByRoomId => Numbers([])
    case GetAttentionList => Numbers([])
    case GetBagList => GiftTriples([])
    case WebHeartBeat => Interval(60)
    case DrawRedPocket => Flag(false)
    case RelationModify => Flag(false)
  }

  /** What calling method `m` resolves to, given the response it receives. */
  function Decode(m: Method, r: Response): (v: Value)
    requires Decodable(m, r)
    ensures Shaped(m, v)
    ensures r.code == 0 ==> v == Project(m, r.body)
    ensures r.code != 0 ==> v == Fallback(m)
  {
    if r.code == 0 then Project(m, r.body) else Fallback(m)
  }

  /** Draw and relation calls report success exactly when the code is 0. */
  lemma FlagIffCodeZero(m: Method, r: Response)
    requires m == DrawRedPocket || m == RelationModify
    ensures Decode(m, r) == Flag(r.code == 0)
  {
  }

  /** A failed call of a list method yields the empty list. */
  lemma ListFallbackIsEmpty(m: Method, r: Response)
    requires m in {GetAreaList, GetRoomListPair, GetAreaInfoByRoomId, GetAttentionList, GetBagList}
    requires r.code != 0
    ensures match Decode(m, r)
            case Numbers(ns) => ns == []
            case RoomPairs(ps) => ps == []
            case GiftTriples(gs) => gs == []
            case _ => false
  {
  }

  /** The heartbeat resolves to the server's next interval, or to 60 when the call fails. */
  lemma HeartBeatInterval(r: Response)
    requires Decodable(WebHeartBeat, r)
    ensures Decode(WebHeartBeat, r) == Interval(if r.code == 0 then r.body.nextInterval else 60)
  {
  }

  /** The attention list projects to a missing list as empty, and otherwise to itself. */
  lemma AttentionListProjection(r: Response)
    requires r.code == 0 && r.body.AttentionListBody?
    ensures Decode(GetAttentionList, r).numbers == (if r.body.followed.Some? then r.body.followed.value else [])
  {
  }

  /** A successful area list resolves to the areas' ids, in order. */
  lemma AreaListProjection(r: Response)
    requires r.code == 0 && r.body.AreaListBody?
    ensures Decode(GetAreaList, r) == Numbers(r.body.areaIds)
  {
  }

  /** A successful room list resolves to one `[roomid, uid]` pair per room, in order. */
  lemma RoomListProjection(r: Response)
    requires r.code == 0 && r.body.RoomListBody?
    ensures Decode(GetRoomListPair, r).RoomPairs?
    ensures |Decode(GetRoomListPair, r).pairs| == |r.body.rooms|
    ensures forall i :: 0 <= i < |r.body.rooms| ==>
              Decode(GetRoomListPair, r).pairs[i] == (r.body.rooms[i].roomId, r.body.rooms[i].uid)
  {
  }

  /** A successful room-info lookup resolves to `[parent_area_id, area_id]`. */
  lemma AreaInfoProjection(r: Response)
    requires r.code == 0 && r.body.RoomInfoBody?
    ensures Decode(GetAreaInfoByRoomId, r) == Numbers([r.body.parentAreaId, r.body.areaId])
  {
  }

  /**
   * A successful bag list resolves to one `[gift_name, corner_mark, gift_num]`
   * triple per gift, in order, and to `[]` when the list is null.
   */
  lemma BagListProjection(r: Response)
    requires r.code == 0 && r.body.BagListBody?
    ensures Decode(GetBagList, r).GiftTriples?
    ensures r.body.bag.None? ==> Decode(GetBagList, r).gifts == []
    ensures r.body.bag.Some? ==>
              && |Decode(GetBagList, r).gifts| == |r.body.bag.value|
              && forall i :: 0 <= i < |r.body.bag.value| ==>
                   var g := r.body.bag.value[i];
                   Decode(GetBagList, r).gifts[i] == (g.giftName, g.cornerMark, g.giftNum)
  {
  }

  /** The heartbeat payload before encoding: `${next_interval}|${room_id}|1|0`. */
  function HeartBeatPayload(nextInterval: int, roomId: int): (s: string)
    ensures IsAscii(s)
  {
    var a, b := Decimal.IntToString(nextInterval), Decimal.IntToString(roomId);
    assert IsAscii(a) && IsAscii(b);
    a + "|" + b + "|1|0"
  }

  predicate IsAscii(s: string) {
    forall i :: 0 <= i < |s| ==> s[i] as int < 128
  }

  /** UTF-8 of an ASCII string: one byte per character, its code. */
  function AsciiBytes(s: string): (bytes: seq<Base64.Byte>)
    requires IsAscii(s)
    ensures |bytes| == |s|
  {
    seq(|s|, i requires 0 <= i < |s| => s[i] as int)
  }

  function AsciiString(bytes: seq<Base64.Byte>): string
    requires forall i :: 0 <= i < |bytes| ==> bytes[i] < 128
  {
    seq(|bytes|, i requires 0 <= i < |bytes| => bytes[i] as char)
  }

  /** The `hb` query parameter: the payload's bytes in base64. */
  function HeartBeatParam(nextInterval: int, roomId: int): (hb: string)
    ensures Base64.Decode(hb) == Some(AsciiBytes(HeartBeatPayload(nextInterval, roomId)))
    ensures forall i :: 0 <= i < |hb| ==> Base64.IsAlphabetChar(hb[i]) || hb[i] == '='
  {
    var bytes := AsciiBytes(HeartBeatPayload(nextInterval, roomId));
    Base64.DecodeEncode(bytes);
    Base64.Encode(bytes)
  }

  /** Reads `${a}|${b}|1|0` back into (a, b). */
  function ParseHeartBeatPayload(s: string): Option<(int, int)> {
    var parts := JsRuntime.Split(s, '|');
    if |parts| == 4 && parts[2] == "1" && parts[3] == "0" then
      match (Decimal.ParseInt(parts[0]), Decimal.ParseInt(parts[1]))
      case (Some(a), Some(b)) => Some((a, b))
      case _ => None
    else None
  }

  lemma NoBarInNumber(n: int)
    ensures '|' !in Decimal.IntToString(n)
  {
  }

  /** The payload determines the interval and the room it was built from. */
  lemma ParseHeartBeatPayloadRoundTrip(nextInterval: int, roomId: int)
    ensures ParseHeartBeatPayload(HeartBeatPayload(nextInterval, roomId)) == Some((nextInterval, roomId))
  {
    var a, b := Decimal.IntToString(nextInterval), Decimal.IntToString(roomId);
    NoBarInNumber(nextInterval);
    NoBarInNumber(roomId);
    var parts := [a, b, "1", "0"];
    assert JsRuntime.Join(parts[3..], '|') == "0";
    assert JsRuntime.Join(parts[2..], '|') == "1|0" by {
      assert parts[2..][1..] == parts[3..];
    }
    assert JsRuntime.Join(parts[1..], '|') == b + "|1|0" by {
      assert parts[1..][1..] == parts[2..];
    }
    assert JsRuntime.Join(parts, '|') == HeartBeatPayload(nextInterval, roomId);
    JsRuntime.SplitJoin(parts, '|');
    Decimal.ParseIntToString(nextInterval);
    Decimal.ParseIntToString(roomId);
  }

  /** Decoding the `hb` parameter gives back the interval and the room id. */
  lemma HeartBeatParamRoundTrip(nextInterval: int, roomId: int)
    ensures var decoded := Base64.Decode(HeartBeatParam(nextInterval, roomId));
            && decoded.Some?
            && (forall i :: 0 <= i < |decoded.value| ==> decoded.value[i] < 128)
            && ParseHeartBeatPayload(AsciiString(decoded.value)) == Some((nextInterval, roomId))
  {
    var payload := HeartBeatPayload(nextInterval, roomId);
    var bytes := AsciiBytes(payload);
    assert AsciiString(bytes) == payload;
    ParseHeartBeatPayloadRoundTrip(nextInterval, roomId);
  }
}
