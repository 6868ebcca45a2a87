/**
 * The entry point `main.js`: scan the live areas for rooms, start one monitor
 * per room not already watched, and share one lazily built account pool among
 * all monitors. The API responses the announcing account receives are inputs;
 * `cookie.json` is the constructor's `cookies` parameter.
 */
module Discovery {
  import opened Wrappers
  import Api
  import Accounts
  import Monitor
  import Util

  /** The configuration every monitor is started with. */
  const PriceLimit: int := 0
  const DrawDelay: int := 100
  /** `list(1)`: only page 1 of each area is scanned. */
  const PageCount: nat := 1

  /** `{ method: "getAttentionList" }`: no params. */
  const AttentionRequest: Accounts.Request := Accounts.Request(Api.GetAttentionList, None)

  /** A response to `getRoomListPair` that the method can decode. */
  type RoomListResponse = r: Api.Response | Api.Decodable(Api.GetRoomListPair, r)
    witness Api.Response(1, Api.IgnoredBody)

  /** A response to `getAttentionList` that the method can decode. */
  type AttentionResponse = r: Api.Response | Api.Decodable(Api.GetAttentionList, r)
    witness Api.Response(1, Api.IgnoredBody)

  /** One attention-list response per cookie. */
  predicate AttentionFits(attention: seq<AttentionResponse>, n: nat) {
    |attention| == n
  }

  /** The room ids of a sequence of (room id, owner uid) pairs. */
  function RoomIds(pairs: seq<(int, int)>): set<int> {
    set k | 0 <= k < |pairs| :: pairs[k].0
  }

  /**
   * The pairs that start a monitor when `pairs` is scanned in order with
   * `seen` already in the set: each pair whose room id is neither in `seen`
   * nor earlier in the scan.
   */
  function Admitted(pairs: seq<(int, int)>, seen: set<int>): seq<(int, int)>
    decreases |pairs|
  {
    if |pairs| == 0 then []
    else
      var init, last := pairs[..|pairs| - 1], pairs[|pairs| - 1];
      Admitted(init, seen) + (if last.0 in seen + RoomIds(init) then [] else [last])
  }

  lemma RoomIdsSnoc(pairs: seq<(int, int)>, p: (int, int))
    ensures RoomIds(pairs + [p]) == RoomIds(pairs) + {p.0}
  {
    var ext := pairs + [p];
    forall x | x in RoomIds(ext) ensures x in RoomIds(pairs) + {p.0} {
      var k :| 0 <= k < |ext| && ext[k].0 == x;
      if k < |pairs| {
        assert pairs[k] == ext[k];
      }
    }
    forall x | x in RoomIds(pairs) ensures x in RoomIds(ext) {
      var k :| 0 <= k < |pairs| && pairs[k].0 == x;
      assert ext[k] == pairs[k];
    }
    assert ext[|pairs|] == p;
  }

  /** Scanning one more pair admits it exactly when its room id is new. */
  lemma AdmittedSnoc(pairs: seq<(int, int)>, p: (int, int), seen: set<int>)
    ensures Admitted(pairs + [p], seen) ==
              Admitted(pairs, seen) + (if p.0 in seen + RoomIds(pairs) then [] else [p])
  {
    assert (pairs + [p])[..|pairs|] == pairs;
  }

  /** One step of a scan, as the loop sees it: the set before the step is `seen` plus the rooms scanned. */
  lemma AdmitStep(scanned: seq<(int, int)>, p: (int, int), seen: set<int>, current: set<int>)
    requires current == seen + RoomIds(scanned)
    ensures seen + RoomIds(scanned + [p]) == current + {p.0}
    ensures Admitted(scanned + [p], seen) == Admitted(scanned, seen) + (if p.0 in current then [] else [p])
  {
    AdmittedSnoc(scanned, p, seen);
    RoomIdsSnoc(scanned, p);
  }

  /**
   * A scan admits only pairs it saw, never a room already in the set, never a
   * room twice, and afterwards every room it saw is in the set or admitted.
   */
  lemma {:induction false} AdmittedDedup(pairs: seq<(int, int)>, seen: set<int>)
    ensures forall k :: 0 <= k < |Admitted(pairs, seen)| ==> Admitted(pairs, seen)[k] in pairs
    ensures forall k :: 0 <= k < |Admitted(pairs, seen)| ==> Admitted(pairs, seen)[k].0 !in seen
    ensures forall i, j :: 0 <= i < j < |Admitted(pairs, seen)| ==>
              Admitted(pairs, seen)[i].0 != Admitted(pairs, seen)[j].0
    ensures seen + RoomIds(pairs) == seen + RoomIds(Admitted(pairs, seen))
    decreases |pairs|
  {
    if |pairs| > 0 {
      var init, last := pairs[..|pairs| - 1], pairs[|pairs| - 1];
      assert pairs == init + [last];
      AdmittedDedup(init, seen);
      var before := Admitted(init, seen);
      RoomIdsSnoc(init, last);
      if last.0 !in seen + RoomIds(init) {
        assert Admitted(pairs, seen) == before + [last];
        RoomIdsSnoc(before, last);
        forall i | 0 <= i < |before| ensures before[i].0 != last.0 {
          assert before[i].0 in RoomIds(before);
        }
      } else {
        assert Admitted(pairs, seen) == before;
        assert seen + RoomIds(pairs) == seen + RoomIds(init);
      }
    }
  }

  /** Scanning `a` then `b` admits what `a` admits, then what `b` admits with `a`'s rooms seen. */
  lemma {:induction false} AdmittedConcat(a: seq<(int, int)>, b: seq<(int, int)>, seen: set<int>)
    ensures Admitted(a + b, seen) == Admitted(a, seen) + Admitted(b, seen + RoomIds(a))
    decreases |b|
  {
    if |b| == 0 {
      assert a + b == a;
    } else {
      var init, last := b[..|b| - 1], b[|b| - 1];
      assert b == init + [last];
      assert a + b == (a + init) + [last];
      AdmittedConcat(a, init, seen);
      AdmittedSnoc(a + init, last, seen);
      AdmittedSnoc(init, last, seen + RoomIds(a));
      RoomIdsConcat(a, init);
    }
  }

  /** A page of a scan: what it admits and what it adds to the set. */
  lemma ScanStep(scanned: seq<(int, int)>, pairs: seq<(int, int)>, seen: set<int>, current: set<int>)
    requires current == seen + RoomIds(scanned)
    ensures seen + RoomIds(scanned + pairs) == current + RoomIds(pairs)
    ensures Admitted(scanned + pairs, seen) == Admitted(scanned, seen) + Admitted(pairs, current)
  {
    AdmittedConcat(scanned, pairs, seen);
    RoomIdsConcat(scanned, pairs);
  }

  /**
   * The scan invariant carried across one offered chunk: if the set and the
   * started monitors matched `scanned` before the chunk, they match
   * `scanned + pairs` after it.
   */
  lemma ScanAdvance(started0: seq<(int, int)>, seen: set<int>, scanned: seq<(int, int)>, pairs: seq<(int, int)>,
                    current: set<int>, setNow: set<int>, startedNow: seq<(int, int)>)
    requires current == seen + RoomIds(scanned)
    requires setNow == current + RoomIds(pairs)
    requires startedNow == (started0 + Admitted(scanned, seen)) + Admitted(pairs, current)
    ensures setNow == seen + RoomIds(scanned + pairs)
    ensures startedNow == started0 + Admitted(scanned + pairs, seen)
  {
    ScanStep(scanned, pairs, seen, current);
    AppendAssoc(started0, Admitted(scanned, seen), Admitted(pairs, current));
  }

  lemma RoomIdsConcat(a: seq<(int, int)>, b: seq<(int, int)>)
    ensures RoomIds(a + b) == RoomIds(a) + RoomIds(b)
  {
    var ab := a + b;
    forall x | x in RoomIds(ab) ensures x in RoomIds(a) + RoomIds(b) {
      var k :| 0 <= k < |ab| && ab[k].0 == x;
      if k < |a| {
        assert ab[k] == a[k];
      } else {
        assert ab[k] == b[k - |a|];
      }
    }
    forall x | x in RoomIds(a) + RoomIds(b) ensures x in RoomIds(ab) {
      if x in RoomIds(a) {
        var k :| 0 <= k < |a| && a[k].0 == x;
        assert ab[k] == a[k];
      } else {
        var k :| 0 <= k < |b| && b[k].0 == x;
        assert ab[|a| + k] == b[k];
      }
    }
  }

  /** The pairs one page of one area lists. */
  function PagePairs(area: int, page: int, rooms: (int, int) -> RoomListResponse): seq<(int, int)> {
    Api.Decode(Api.GetRoomListPair, rooms(area, page)).pairs
  }

  /** The pairs the scanned pages of one area list, page after page. */
  function AreaPairs(area: int, pages: seq<int>, rooms: (int, int) -> RoomListResponse): seq<(int, int)>
    decreases |pages|
  {
    if |pages| == 0 then []
    else AreaPairs(area, pages[..|pages| - 1], rooms) + PagePairs(area, pages[|pages| - 1], rooms)
  }

  lemma AreaPairsSnoc(area: int, pages: seq<int>, p: nat, rooms: (int, int) -> RoomListResponse)
    requires p < |pages|
    ensures AreaPairs(area, pages[..p + 1], rooms) == AreaPairs(area, pages[..p], rooms) + PagePairs(area, pages[p], rooms)
  {
    assert pages[..p + 1][..p] == pages[..p];
  }

  /** The pairs a whole scan lists, area after area. */
  function ScanPairs(areas: seq<int>, pages: seq<int>, rooms: (int, int) -> RoomListResponse): seq<(int, int)>
    decreases |areas|
  {
    if |areas| == 0 then []
    else ScanPairs(areas[..|areas| - 1], pages, rooms) + AreaPairs(areas[|areas| - 1], pages, rooms)
  }

  /** The rooms of the monitors that have not settled. */
  function RunningRooms(started: seq<(int, int)>, settled: set<nat>): set<int> {
    set i | 0 <= i < |started| && i !in settled :: started[i].0
  }

  /** No two unsettled monitors watch the same room. */
  predicate DistinctRunning(started: seq<(int, int)>, settled: set<nat>) {
    forall i, j :: 0 <= i < j < |started| && i !in settled && j !in settled ==> started[i].0 != started[j].0
  }

  /** Starting a monitor for a room not running keeps the running rooms distinct and adds the room. */
  lemma StartRunning(started: seq<(int, int)>, settled: set<nat>, p: (int, int))
    requires DistinctRunning(started, settled) && p.0 !in RunningRooms(started, settled)
    requires forall i :: i in settled ==> i < |started|
    ensures RunningRooms(started + [p], settled) == RunningRooms(started, settled) + {p.0}
    ensures DistinctRunning(started + [p], settled)
  {
    var ext := started + [p];
    forall x | x in RunningRooms(ext, settled) ensures x in RunningRooms(started, settled) + {p.0} {
      var i :| 0 <= i < |ext| && i !in settled && ext[i].0 == x;
      if i < |started| {
        assert started[i] == ext[i];
      }
    }
    forall x | x in RunningRooms(started, settled) ensures x in RunningRooms(ext, settled) {
      var i :| 0 <= i < |started| && i !in settled && started[i].0 == x;
      assert ext[i] == started[i];
    }
    assert ext[|started|] == p;
    forall i, j | 0 <= i < j < |ext| && i !in settled && j !in settled
      ensures ext[i].0 != ext[j].0
    {
      if j == |started| {
        assert started[i].0 in RunningRooms(started, settled);
      } else {
        assert ext[i] == started[i] && ext[j] == started[j];
      }
    }
  }

  /** Settling monitor k removes exactly its room from the running rooms. */
  lemma SettleRunning(started: seq<(int, int)>, settled: set<nat>, k: nat)
    requires DistinctRunning(started, settled) && k < |started| && k !in settled
    ensures RunningRooms(started, settled + {k}) == RunningRooms(started, settled) - {started[k].0}
    ensures DistinctRunning(started, settled + {k})
  {
    forall x | x in RunningRooms(started, settled) - {started[k].0} ensures x in RunningRooms(started, settled + {k}) {
      var i :| 0 <= i < |started| && i !in settled && started[i].0 == x;
      assert i != k;
    }
  }

  /** The object `busers`: the shared account pool, built once from the cookies. */
  class BUserPool {
    const cookies: seq<string>
    var inner: seq<Accounts.BUser>

    /** Empty, or one account per cookie in cookie order, each with its attention list cached. */
    ghost predicate Valid()
      reads this, inner
    {
      |inner| == 0 ||
      (|inner| == |cookies| &&
       forall i :: 0 <= i < |inner| ==>
         inner[i].cookieHeader == cookies[i] && inner[i].Valid() && inner[i].Get(AttentionRequest).Some?)
    }

    constructor(cookies: seq<string>)
      ensures this.cookies == cookies && inner == [] && Valid()
    {
      this.cookies := cookies;
      inner := [];
    }

    /**
     * `get()`: when the pool is empty, build one account per cookie and cache
     * its attention list (from `attention`); then return the pool.
     */
    method Get(attention: seq<AttentionResponse>) returns (pool: seq<Accounts.BUser>)
      requires Valid()
      requires |inner| == 0 ==> AttentionFits(attention, |cookies|)
      modifies this
      ensures Valid() && pool == inner
      ensures old(|inner|) != 0 ==> inner == old(inner)
      ensures old(|inner|) == 0 ==>
                && |inner| == |cookies|
                && forall i :: 0 <= i < |inner| ==>
                     && fresh(inner[i])
                     && inner[i].cookieHeader == cookies[i]
                     && inner[i].Get(AttentionRequest) == Some(Api.Decode(Api.GetAttentionList, attention[i]))
    {
      if |inner| == 0 {
        var built: seq<Accounts.BUser> := [];
        for k := 0 to |cookies|
          invariant |built| == k
          invariant forall i :: 0 <= i < k ==>
                      && fresh(built[i])
                      && built[i].cookieHeader == cookies[i] && built[i].Valid()
                      && built[i].Get(AttentionRequest) == Some(Api.Decode(Api.GetAttentionList, attention[i]))
        {
          var b := Build(cookies[k], attention[k]);
          built := built + [b];
        }
        inner := built;
      }
      pool := inner;
    }
  }

  /** One account of the pool: `new BUser(cookie).cache(attention request)`. */
  method Build(cookie: string, attention: AttentionResponse) returns (b: Accounts.BUser)
    ensures fresh(b) && b.cookieHeader == cookie && b.Valid()
    ensures b.Get(AttentionRequest) == Some(Api.Decode(Api.GetAttentionList, attention))
  {
    b := new Accounts.BUser(cookie);
    b := b.Cache(AttentionRequest, attention);
  }

  /** A monitor as `start()` leaves it: configured, feed open, close timer armed. */
  ghost predicate Launched(m: Monitor.RedPacketMonitor, nowMs: nat)
    reads m
  {
    && m.Valid() && m.feedOpen
    && m.totalPriceLimit == PriceLimit && m.drawDelay == DrawDelay
    && m.closeTime == Monitor.DefaultCloseTimeMs
    && m.timer == Some(nowMs + Monitor.DefaultCloseTimeMs)
    && !m.hasRedPacket && !m.enableWebHeart && m.log == []
  }

  /** `new RedPacketMonitor(...).setTotalPriceLimit(0).setDrawDelay(100).start()`. */
  method Launch(roomId: int, ruid: int, pool: seq<Accounts.BUser>, nowMs: nat)
    returns (m: Monitor.RedPacketMonitor)
    ensures fresh(m) && Launched(m, nowMs)
    ensures m.roomId == roomId && m.ruid == ruid && m.busers == pool
  {
    m := new Monitor.RedPacketMonitor(roomId, ruid, pool);
    m := m.SetTotalPriceLimit(PriceLimit);
    m := m.SetDrawDelay(DrawDelay);
    m.Start(nowMs);
  }

  /** The module state of `main.js`: `roomid_set`, the pool, and the rooms of the monitors started so far. */
  class Scanner {
    const busers: BUserPool
    var roomIdSet: set<int>
    /** (room id, owner uid) of every monitor started, in order. */
    var started: seq<(int, int)>
    /** Indices of the monitors whose `start()` has settled. */
    var settled: set<nat>

    /**
     * `roomid_set` holds exactly the rooms of the unsettled monitors, and no two
     * unsettled monitors watch the same room.
     */
    ghost predicate Valid()
      reads this, busers, busers.inner
    {
      && busers.Valid()
      && roomIdSet == RunningRooms(started, settled)
      && DistinctRunning(started, settled)
      && (forall i :: i in settled ==> i < |started|)
    }

    constructor(cookies: seq<string>)
      ensures busers.cookies == cookies && busers.inner == []
      ensures roomIdSet == {} && started == [] && settled == {}
      ensures Valid()
    {
      busers := new BUserPool(cookies);
      roomIdSet := {};
      started := [];
      settled := {};
    }

    /**
     * One (room id, uid) pair of the scan: unless the room is already in the
     * set, add it, get the pool, and start a monitor with price limit 0 and
     * draw delay 100.
     */
    method Offer(pair: (int, int), nowMs: nat, attention: seq<AttentionResponse>)
      returns (launched: Option<Monitor.RedPacketMonitor>)
      requires Valid()
      requires |busers.inner| == 0 ==> AttentionFits(attention, |busers.cookies|)
      modifies this, busers
      ensures Valid() && settled == old(settled)
      ensures pair.0 in old(roomIdSet) ==>
                roomIdSet == old(roomIdSet) && started == old(started) &&
                busers.inner == old(busers.inner) && launched.None?
      ensures pair.0 !in old(roomIdSet) ==>
                && roomIdSet == old(roomIdSet) + {pair.0}
                && started == old(started) + [pair]
                && launched.Some? && fresh(launched.value) && Launched(launched.value, nowMs)
                && launched.value.roomId == pair.0 && launched.value.ruid == pair.1
                && launched.value.busers == busers.inner && |busers.inner| == |busers.cookies|
      ensures |old(busers.inner)| != 0 ==> busers.inner == old(busers.inner)
      ensures |busers.inner| != 0 ==> |busers.inner| == |busers.cookies|
    {
      launched := None;
      if pair.0 !in roomIdSet {
        roomIdSet := roomIdSet + {pair.0};
        var pool := busers.Get(attention);
        var m := Launch(pair.0, pair.1, pool, nowMs);
        StartRunning(started, settled, pair);
        started := started + [pair];
        launched := Some(m);
      }
    }

    /** Offer the pairs of one page, in order. */
    method OfferPairs(pairs: seq<(int, int)>, nowMs: nat, attention: seq<AttentionResponse>)
      requires Valid()
      requires |busers.inner| == 0 ==> AttentionFits(attention, |busers.cookies|)
      modifies this, busers
      ensures Valid() && settled == old(settled)
      ensures |busers.inner| == 0 ==> AttentionFits(attention, |busers.cookies|)
      ensures roomIdSet == old(roomIdSet) + RoomIds(pairs)
      ensures started == old(started) + Admitted(pairs, old(roomIdSet))
    {
      ghost var scanned: seq<(int, int)> := [];
      for r := 0 to |pairs|
        invariant Valid() && settled == old(settled)
        invariant |busers.inner| == 0 ==> AttentionFits(attention, |busers.cookies|)
        invariant scanned == pairs[..r]
        invariant roomIdSet == old(roomIdSet) + RoomIds(scanned)
        invariant started == old(started) + Admitted(scanned, old(roomIdSet))
      {
        AdmitStep(scanned, pairs[r], old(roomIdSet), roomIdSet);
        ghost var admittedBefore := Admitted(scanned, old(roomIdSet));
        ghost var step := if pairs[r].0 in roomIdSet then [] else [pairs[r]];
        var _ := Offer(pairs[r], nowMs, attention);
        AppendAssoc(old(started), admittedBefore, step);
        assert pairs[..r + 1] == scanned + [pairs[r]];
        scanned := scanned + [pairs[r]];
      }
      assert pairs[..|pairs|] == pairs;
    }

    /** Offer the pairs of every page of one area, page after page. */
    method OfferArea(area: int, pages: seq<int>, nowMs: nat, rooms: (int, int) -> RoomListResponse, attention: seq<AttentionResponse>)
      requires Valid()
      requires |busers.inner| == 0 ==> AttentionFits(attention, |busers.cookies|)
      modifies this, busers
      ensures Valid() && settled == old(settled)
      ensures |busers.inner| == 0 ==> AttentionFits(attention, |busers.cookies|)
      ensures roomIdSet == old(roomIdSet) + RoomIds(AreaPairs(area, pages, rooms))
      ensures started == old(started) + Admitted(AreaPairs(area, pages, rooms), old(roomIdSet))
    {
      ghost var scanned: seq<(int, int)> := [];
      for p := 0 to |pages|
        invariant Valid() && settled == old(settled)
        invariant |busers.inner| == 0 ==> AttentionFits(attention, |busers.cookies|)
        invariant scanned == AreaPairs(area, pages[..p], rooms)
        invariant roomIdSet == old(roomIdSet) + RoomIds(scanned)
        invariant started == old(started) + Admitted(scanned, old(roomIdSet))
      {
        var pairs := PagePairs(area, pages[p], rooms);
        AreaPairsSnoc(area, pages, p, rooms);
        ghost var current := roomIdSet;
        OfferPairs(pairs, nowMs, attention);
        ScanAdvance(old(started), old(roomIdSet), scanned, pairs, current, roomIdSet, started);
        scanned := scanned + pairs;
      }
      assert pages[..|pages|] == pages;
    }

    /**
     * `start()`: for every area the announcing account lists, for every page of
     * `list(1)`, offer every (room id, uid) pair of that page.
     */
    method Start(nowMs: nat, areaList: Api.Response, rooms: (int, int) -> RoomListResponse, attention: seq<AttentionResponse>)
      requires Valid()
      requires Api.Decodable(Api.GetAreaList, areaList)
      requires |busers.inner| == 0 ==> AttentionFits(attention, |busers.cookies|)
      modifies this, busers
      ensures Valid() && settled == old(settled)
      ensures var pairs := ScanPairs(Api.Decode(Api.GetAreaList, areaList).numbers, Util.List(PageCount), rooms);
              && roomIdSet == old(roomIdSet) + RoomIds(pairs)
              && started == old(started) + Admitted(pairs, old(roomIdSet))
    {
      var areaIds := Api.Decode(Api.GetAreaList, areaList).numbers;
      var pages := Util.List(PageCount);
      ghost var scanned: seq<(int, int)> := [];
      for a := 0 to |areaIds|
        invariant Valid() && settled == old(settled)
        invariant |busers.inner| == 0 ==> AttentionFits(attention, |busers.cookies|)
        invariant scanned == ScanPairs(areaIds[..a], pages, rooms)
        invariant roomIdSet == old(roomIdSet) + RoomIds(scanned)
        invariant started == old(started) + Admitted(scanned, old(roomIdSet))
      {
        assert areaIds[..a + 1][..a] == areaIds[..a];
        ghost var current := roomIdSet;
        OfferArea(areaIds[a], pages, nowMs, rooms, attention);
        ScanAdvance(old(started), old(roomIdSet), scanned, AreaPairs(areaIds[a], pages, rooms), current, roomIdSet, started);
        scanned := scanned + AreaPairs(areaIds[a], pages, rooms);
      }
      assert areaIds[..|areaIds|] == areaIds;
    }

    /** `.finally(() => roomid_set.delete(roomid))`: monitor k's `start()` settled. */
    method Settle(k: nat)
      requires Valid() && k < |started| && k !in settled
      modifies this
      ensures Valid() && started == old(started)
      ensures roomIdSet == old(roomIdSet) - {started[k].0}
      ensures settled == old(settled) + {k}
    {
      SettleRunning(started, settled, k);
      roomIdSet := roomIdSet - {started[k].0};
      settled := settled + {k};
    }
  }
}
