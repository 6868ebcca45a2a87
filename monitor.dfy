/**
 * The per-room red-packet monitor of `src/redpacket_monitor.js`.
 *
 * The monitor is driven by two kinds of feed commands and by its close timer.
 * Time is an input: a handler receives `nowMs`, the value `Date.now()` would
 * return while it runs. The single pending close timer is kept as its absolute
 * deadline. Requests to the API (draw, bag lookup, unfollow), the start of a
 * heartbeat loop and the closing of the feed are appended to `log`; requests
 * that are scheduled for later carry the time `at` they fire.
 */
module Monitor {
  import opened Wrappers
  import JsRuntime
  import Decimal
  import Api
  import Accounts
  import Util

  /** `close_time` of a new monitor: 3 minutes. */
  const DefaultCloseTimeMs: int := 3 * 60 * 1000

  /** The interval a heartbeat loop sends first. */
  const FirstHeartBeatInterval: int := 6

  /** The data of a POPULARITY_RED_POCKET_START command. */
  datatype RedPocket = RedPocket(totalPrice: int, lotId: int, lastTime: int, removeTime: int)

  /** A request the monitor issues, or a change of its feed. */
  datatype Action =
    | StartHeartBeat(account: nat)
    | Draw(account: nat, lotId: int, roomId: int, ruid: int, at: int)
    | BagLookup(account: nat, at: int)
    | Unfollow(account: nat, target: int)
    | CloseFeed

  /** What the winner-list handler reports: GET for an account's uid, or NO. */
  datatype WinnerReport = Won(uid: string) | NoWin

  /** `~~(Date.now() / 1000)`: whole seconds, truncated to a signed 32-bit integer. */
  function DataNow(nowMs: nat): (s: int)
    ensures nowMs < JsRuntime.TwoTo31 * 1000 ==> s == nowMs / 1000
  {
    JsRuntime.ToInt32(nowMs / 1000)
  }

  /**
   * The delay of the draw fan-out:
   * `(draw_delay % last_time) * 1000 + (remove_time && (remove_time - data_now))`,
   * None when `last_time` is 0 (the remainder is NaN). The carry-over term is
   * in seconds and is not multiplied by 1000.
   */
  function DrawDelayMs(drawDelay: int, lastTime: int, previousRemoveTime: int, dataNow: int): (d: Option<int>)
    ensures d.None? <==> lastTime == 0
    ensures d.Some? && previousRemoveTime == 0 ==> d.value % 1000 == 0
    ensures d.Some? && previousRemoveTime == 0 && drawDelay >= 0 ==> 0 <= d.value < JsRuntime.Abs(lastTime) * 1000
    ensures d.Some? && previousRemoveTime != 0 ==> (d.value - (previousRemoveTime - dataNow)) % 1000 == 0
    ensures d.Some? ==>
              var ms := d.value - (if previousRemoveTime == 0 then 0 else previousRemoveTime - dataNow);
              var s := ms / 1000;
              && ms % 1000 == 0
              && (drawDelay - s) % lastTime == 0
              && JsRuntime.Abs(s) < JsRuntime.Abs(lastTime)
              && (drawDelay >= 0 ==> s >= 0)
              && (drawDelay < 0 ==> s <= 0)
  {
    match JsRuntime.Rem(drawDelay, lastTime)
    case None => None
    case Some(rem) => Some(rem * 1000 + (if previousRemoveTime == 0 then 0 else previousRemoveTime - dataNow))
  }

  /** Draw delay 100 on a first red packet with a 30-second window: the draws fire after 10 s. */
  lemma DrawDelayFirstPacket(dataNow: int)
    ensures DrawDelayMs(100, 30, 0, dataNow) == Some(10000)
  {
  }

  /** One StartHeartBeat per account, in account order. */
  function HeartBeatStarts(n: nat): (acts: seq<Action>)
    ensures |acts| == n
    ensures forall i :: 0 <= i < n ==> acts[i] == StartHeartBeat(i)
  {
    seq(n, i requires 0 <= i < n => StartHeartBeat(i))
  }

  /**
   * The draw fan-out: for every account in turn, a draw and then a bag lookup,
   * all fired at `at`.
   */
  function FanOut(n: nat, lotId: int, roomId: int, ruid: int, at: int): (acts: seq<Action>)
    ensures |acts| == 2 * n
    ensures forall i :: 0 <= i < n ==>
              acts[2 * i] == Draw(i, lotId, roomId, ruid, at) && acts[2 * i + 1] == BagLookup(i, at)
    decreases n
  {
    if n == 0 then []
    else FanOut(n - 1, lotId, roomId, ruid, at) + [Draw(n - 1, lotId, roomId, ruid, at), BagLookup(n - 1, at)]
  }

  /** The `busers.forEach` of the red-pocket handler: a draw and a bag lookup per account. */
  method Claims(n: nat, lotId: int, roomId: int, ruid: int, at: int) returns (claims: seq<Action>)
    ensures claims == FanOut(n, lotId, roomId, ruid, at)
  {
    claims := [];
    var i := 0;
    while i < n
      invariant 0 <= i <= n
      invariant claims == FanOut(i, lotId, roomId, ruid, at)
    {
      claims := claims + [Draw(i, lotId, roomId, ruid, at), BagLookup(i, at)];
      i := i + 1;
    }
  }

  /** An action is in the fan-out exactly when it is one account's draw or bag lookup. */
  lemma {:induction false} FanOutMembers(n: nat, lotId: int, roomId: int, ruid: int, at: int, a: Action)
    ensures a in FanOut(n, lotId, roomId, ruid, at) <==>
              (a.Draw? && a.account < n && a == Draw(a.account, lotId, roomId, ruid, at)) ||
              (a.BagLookup? && a.account < n && a == BagLookup(a.account, at))
    decreases n
  {
    if n > 0 {
      FanOutMembers(n - 1, lotId, roomId, ruid, at, a);
    }
  }

  /** The cached attention list of one account, as `close` reads it; None when `.includes` would throw. */
  function AttentionOf(cached: Option<Api.Value>): Option<seq<int>> {
    match cached
    case Some(Numbers(ns)) => Some(ns)
    case _ => None
  }

  /** How many accounts `close` gets through: up to the first one without a cached attention list. */
  function ScanLength(lists: seq<Option<seq<int>>>): (k: nat)
    ensures k <= |lists|
    ensures forall j :: 0 <= j < k ==> lists[j].Some?
    ensures k < |lists| ==> lists[k].None?
    decreases |lists|
  {
    if |lists| == 0 || lists[0].None? then 0 else 1 + ScanLength(lists[1..])
  }

  /** The unfollow requests `close` issues for the first `n` accounts. */
  function Unfollows(lists: seq<Option<seq<int>>>, ruid: int, hasRedPacket: bool, n: nat): (acts: seq<Action>)
    requires n <= |lists| && forall j :: 0 <= j < n ==> lists[j].Some?
    ensures |acts| <= n
    ensures forall i :: 0 <= i < |acts| ==>
              acts[i].Unfollow? && acts[i].target == ruid && acts[i].account < n && ruid !in lists[acts[i].account].value
    ensures forall i, j :: 0 <= i < j < |acts| ==> acts[i].account < acts[j].account
    ensures !hasRedPacket ==> acts == []
    decreases n
  {
    if n == 0 then []
    else
      Unfollows(lists, ruid, hasRedPacket, n - 1) +
      (if ruid !in lists[n - 1].value && hasRedPacket then [Unfollow(n - 1, ruid)] else [])
  }

  /** Everything `close` issues: the unfollows, then the feed is closed unless an account threw. */
  function CloseEffects(lists: seq<Option<seq<int>>>, ruid: int, hasRedPacket: bool): (acts: seq<Action>)
    ensures CloseFeed in acts <==> ScanLength(lists) == |lists|
    ensures |acts| <= |lists| + 1
    ensures forall i :: 0 <= i < |acts| && acts[i] != CloseFeed ==> acts[i].Unfollow? && acts[i].target == ruid
  {
    var k := ScanLength(lists);
    Unfollows(lists, ruid, hasRedPacket, k) + (if k == |lists| then [CloseFeed] else [])
  }

  /**
   * The loop of `close`: walk the accounts' cached attention lists in order,
   * collecting an unfollow for each list that lacks the owner (when a red packet
   * was seen), and stop at the first account without a cached list, where
   * `.includes` on the undefined result of `get` throws.
   */
  method CloseScan(lists: seq<Option<seq<int>>>, ruid: int, hasRedPacket: bool)
    returns (unfollows: seq<Action>, completed: bool)
    ensures completed <==> ScanLength(lists) == |lists|
    ensures unfollows == Unfollows(lists, ruid, hasRedPacket, ScanLength(lists))
  {
    var k := ScanLength(lists);
    unfollows := [];
    var i := 0;
    while i < |lists|
      invariant 0 <= i <= k
      invariant unfollows == Unfollows(lists, ruid, hasRedPacket, i)
    {
      var cached := lists[i];
      if cached.None? {
        return unfollows, false;
      }
      if ruid !in cached.value && hasRedPacket {
        unfollows := unfollows + [Unfollow(i, ruid)];
      }
      i := i + 1;
    }
    completed := true;
  }

  /** Account i is unfollowed exactly when its list lacks the owner and a red packet was seen. */
  lemma {:induction false} UnfollowsExactly(lists: seq<Option<seq<int>>>, ruid: int, hasRedPacket: bool, n: nat, a: Action)
    requires n <= |lists| && forall j :: 0 <= j < n ==> lists[j].Some?
    ensures a in Unfollows(lists, ruid, hasRedPacket, n) <==>
              a.Unfollow? && a.account < n && a.target == ruid && hasRedPacket && ruid !in lists[a.account].value
    decreases n
  {
    if n > 0 {
      UnfollowsExactly(lists, ruid, hasRedPacket, n - 1, a);
    }
  }

  /**
   * When every account has its attention list cached, `close` unfollows the owner
   * for exactly the accounts whose list lacks it, only if a red packet was seen,
   * and then closes the feed.
   */
  lemma CloseUnfollowsExactly(lists: seq<Option<seq<int>>>, ruid: int, hasRedPacket: bool, a: Action)
    requires forall j :: 0 <= j < |lists| ==> lists[j].Some?
    ensures CloseEffects(lists, ruid, hasRedPacket)[|CloseEffects(lists, ruid, hasRedPacket)| - 1] == CloseFeed
    ensures a in CloseEffects(lists, ruid, hasRedPacket) <==>
              a == CloseFeed ||
              (a.Unfollow? && a.account < |lists| && a.target == ruid && hasRedPacket && ruid !in lists[a.account].value)
  {
    UnfollowsExactly(lists, ruid, hasRedPacket, |lists|, a);
  }

  /** Without a red packet, `close` issues no unfollow at all, whatever the attention lists hold. */
  lemma {:induction false} NoRedPacketNoUnfollow(lists: seq<Option<seq<int>>>, ruid: int, n: nat)
    requires n <= |lists| && forall j :: 0 <= j < n ==> lists[j].Some?
    ensures Unfollows(lists, ruid, false, n) == []
    decreases n
  {
    if n > 0 {
      NoRedPacketNoUnfollow(lists, ruid, n - 1);
    }
  }

  /** An account whose cookie uid equals the winner's uid (`winner.uid == uid`). */
  predicate Wins(winnerUid: int, b: Accounts.BUser) {
    Decimal.LooseEquals(winnerUid, b.DedeUserId())
  }

  /** What one heartbeat call gives the loop: a rejection, or a response. */
  datatype HeartBeatReply = Rejected | Replied(response: Api.Response)

  /** One iteration as the loop observes it: the flag at the check, then the call's outcome. */
  datatype Tick = Tick(enabled: bool, reply: HeartBeatReply)

  /** Why a loop stopped: the flag was off, a call rejected, or no more iterations were observed. */
  datatype LoopEnd = FlagCleared | CallRejected | Unobserved

  datatype HeartBeatTrace = HeartBeatTrace(intervals: seq<int>, sleptMs: int, end: LoopEnd)

  predicate TickDecodable(t: Tick) {
    t.reply.Replied? ==> Api.Decodable(Api.WebHeartBeat, t.reply.response)
  }

  /** The interval a heartbeat response hands to the next iteration. */
  function NextInterval(r: Api.Response): int
    requires Api.Decodable(Api.WebHeartBeat, r)
  {
    Api.Decode(Api.WebHeartBeat, r).seconds
  }

  /**
   * The loop `while (enable_web_heart) { next = await webHeartBeat(next, room); await sleep(next) }`
   * from the interval `interval` on: the intervals it sends, the time it sleeps, and why it stops.
   */
  function HeartBeatRun(ticks: seq<Tick>, interval: int): (t: HeartBeatTrace)
    requires forall k :: 0 <= k < |ticks| ==> TickDecodable(ticks[k])
    ensures |t.intervals| <= |ticks|
    ensures |t.intervals| > 0 ==> t.intervals[0] == interval
    ensures forall j :: 0 <= j < |t.intervals| ==> ticks[j].enabled
    ensures forall j :: 0 <= j < |t.intervals| - 1 ==> ticks[j].reply.Replied?
    ensures t.end == FlagCleared ==> |t.intervals| < |ticks| && !ticks[|t.intervals|].enabled
    ensures t.end == CallRejected ==> |t.intervals| > 0 && ticks[|t.intervals| - 1].reply.Rejected?
    ensures t.end == Unobserved ==> |t.intervals| == |ticks| && (|ticks| > 0 ==> ticks[|ticks| - 1].reply.Replied?)
    decreases |ticks|
  {
    if |ticks| == 0 then HeartBeatTrace([], 0, Unobserved)
    else if !ticks[0].enabled then HeartBeatTrace([], 0, FlagCleared)
    else match ticks[0].reply
      case Rejected => HeartBeatTrace([interval], 0, CallRejected)
      case Replied(r) =>
        assert TickDecodable(ticks[0]);
        var next := NextInterval(r);
        Prepend([interval], Util.SleepMs(next), HeartBeatRun(ticks[1..], next))
  }

  /** A trace preceded by the intervals sent and the time slept before it. */
  function Prepend(sent: seq<int>, sleptMs: int, rest: HeartBeatTrace): HeartBeatTrace {
    HeartBeatTrace(sent + rest.intervals, sleptMs + rest.sleptMs, rest.end)
  }

  /** One answered iteration of the loop, unfolded. */
  lemma HeartBeatRunStep(ticks: seq<Tick>, interval: int)
    requires forall k :: 0 <= k < |ticks| ==> TickDecodable(ticks[k])
    requires |ticks| > 0 && ticks[0].enabled && ticks[0].reply.Replied?
    ensures Api.Decodable(Api.WebHeartBeat, ticks[0].reply.response)
    ensures var next := NextInterval(ticks[0].reply.response);
            HeartBeatRun(ticks, interval) == Prepend([interval], Util.SleepMs(next), HeartBeatRun(ticks[1..], next))
  {
    assert TickDecodable(ticks[0]);
  }

  lemma PrependTwice(sent: seq<int>, slept: int, more: seq<int>, moreSlept: int, rest: HeartBeatTrace)
    ensures Prepend(sent, slept, Prepend(more, moreSlept, rest)) == Prepend(sent + more, slept + moreSlept, rest)
  {
    assert sent + (more + rest.intervals) == (sent + more) + rest.intervals;
  }

  /**
   * A loop that sees the flag cleared at iteration k, after k answered calls,
   * has sent exactly k intervals and stops because of the flag.
   */
  lemma {:induction false} HeartBeatStopsWhenCleared(ticks: seq<Tick>, interval: int, k: nat)
    requires forall j :: 0 <= j < |ticks| ==> TickDecodable(ticks[j])
    requires k < |ticks| && !ticks[k].enabled
    requires forall j :: 0 <= j < k ==> ticks[j].enabled && ticks[j].reply.Replied?
    ensures |HeartBeatRun(ticks, interval).intervals| == k
    ensures HeartBeatRun(ticks, interval).end == FlagCleared
    decreases k
  {
    if k > 0 {
      var next := NextInterval(ticks[0].reply.response);
      HeartBeatStopsWhenCleared(ticks[1..], next, k - 1);
    }
  }

  /**
   * The first interval sent is the starting one; each later one is what the
   * previous call returned (60 when its code was not 0).
   */
  lemma {:induction false} HeartBeatIntervals(ticks: seq<Tick>, interval: int, j: nat)
    requires forall k :: 0 <= k < |ticks| ==> TickDecodable(ticks[k])
    requires j < |HeartBeatRun(ticks, interval).intervals|
    ensures j < |ticks| && ticks[j].enabled
    ensures j == 0 ==> HeartBeatRun(ticks, interval).intervals[0] == interval
    ensures j > 0 ==>
              && ticks[j - 1].reply.Replied?
              && HeartBeatRun(ticks, interval).intervals[j] ==
                   (if ticks[j - 1].reply.response.code == 0 then ticks[j - 1].reply.response.body.nextInterval else 60)
    decreases j
  {
    if j > 0 {
      var next := NextInterval(ticks[0].reply.response);
      HeartBeatIntervals(ticks[1..], next, j - 1);
      if j == 1 {
        Api.HeartBeatInterval(ticks[0].reply.response);
      }
    }
  }

  /** The `hb` parameter of each call, in order. */
  function HeartBeatParams(intervals: seq<int>, roomId: int): (ps: seq<string>)
    ensures |ps| == |intervals|
    decreases |intervals|
  {
    if |intervals| == 0 then []
    else HeartBeatParams(intervals[..|intervals| - 1], roomId) + [Api.HeartBeatParam(intervals[|intervals| - 1], roomId)]
  }

  lemma {:induction false} HeartBeatParamsAt(intervals: seq<int>, roomId: int, k: nat)
    requires k < |intervals|
    ensures HeartBeatParams(intervals, roomId)[k] == Api.HeartBeatParam(intervals[k], roomId)
    decreases |intervals|
  {
    if k < |intervals| - 1 {
      HeartBeatParamsAt(intervals[..|intervals| - 1], roomId, k);
    }
  }

  /**
   * One account's heartbeat loop, started with interval 6. Returns the trace and
   * the `hb` parameter of every call it makes.
   */
  method HeartBeatLoop(roomId: int, ticks: seq<Tick>) returns (trace: HeartBeatTrace, params: seq<string>)
    requires forall k :: 0 <= k < |ticks| ==> TickDecodable(ticks[k])
    ensures trace == HeartBeatRun(ticks, FirstHeartBeatInterval)
    ensures params == HeartBeatParams(trace.intervals, roomId)
  {
    var nextInterval := FirstHeartBeatInterval;
    var sent: seq<int> := [];
    var slept := 0;
    var rest := ticks;
    while |rest| > 0 && rest[0].enabled
      invariant forall k :: 0 <= k < |rest| ==> TickDecodable(rest[k])
      invariant HeartBeatRun(ticks, FirstHeartBeatInterval) == Prepend(sent, slept, HeartBeatRun(rest, nextInterval))
      decreases |rest|
    {
      sent := sent + [nextInterval];
      match rest[0].reply
      case Rejected =>
        trace := HeartBeatTrace(sent, slept, CallRejected);
        params := ParamsOf(sent, roomId);
        return;
      case Replied(r) =>
        HeartBeatRunStep(rest, nextInterval);
        var next := NextInterval(r);
        PrependTwice(sent[..|sent| - 1], slept, [nextInterval], Util.SleepMs(next), HeartBeatRun(rest[1..], next));
        assert sent[..|sent| - 1] + [nextInterval] == sent;
        nextInterval := next;
        slept := slept + Util.SleepMs(next);
        rest := rest[1..];
    }
    trace := HeartBeatTrace(sent, slept, if |rest| > 0 then FlagCleared else Unobserved);
    params := ParamsOf(sent, roomId);
  }

  /** The `hb` parameters of the calls that sent `intervals`. */
  method ParamsOf(intervals: seq<int>, roomId: int) returns (params: seq<string>)
    ensures params == HeartBeatParams(intervals, roomId)
  {
    params := [];
    for i := 0 to |intervals|
      invariant params == HeartBeatParams(intervals[..i], roomId)
    {
      assert intervals[..i + 1][..i] == intervals[..i];
      params := params + [Api.HeartBeatParam(intervals[i], roomId)];
    }
    assert intervals[..|intervals|] == intervals;
  }

  class RedPacketMonitor {
    const busers: seq<Accounts.BUser>
    const roomId: int
    const ruid: int
    var feedOpen: bool
    var hasRedPacket: bool
    var enableWebHeart: bool
    var removeTime: int
    var drawDelay: int
    /** The deadline of the pending close timer, if one is pending. */
    var timer: Option<int>
    var closeTime: int
    var totalPriceLimit: int
    var log: seq<Action>

    /**
     * The heartbeat flag is only ever raised by a red packet, and a monitor that
     * has not seen one has claimed nothing and unfollowed nobody.
     */
    ghost predicate Valid()
      reads this
    {
      && (enableWebHeart ==> hasRedPacket)
      && (!hasRedPacket ==> removeTime == 0 && forall i :: 0 <= i < |log| ==> log[i] == CloseFeed)
    }

    /** The attention list each account has cached, as `close` reads them. */
    function AttentionLists(): (lists: seq<Option<seq<int>>>)
      reads busers
      ensures |lists| == |busers|
    {
      seq(|busers|, i reads busers requires 0 <= i < |busers| =>
        AttentionOf(busers[i].Get(Accounts.Request(Api.GetAttentionList, None))))
    }

    constructor(roomId: int, ruid: int, busers: seq<Accounts.BUser>)
      ensures this.roomId == roomId && this.ruid == ruid && this.busers == busers
      ensures !feedOpen && !hasRedPacket && !enableWebHeart && removeTime == 0 && drawDelay == 0
      ensures timer == None && closeTime == DefaultCloseTimeMs && totalPriceLimit == 0 && log == []
      ensures Valid()
    {
      this.roomId := roomId;
      this.ruid := ruid;
      this.busers := busers;
      feedOpen := false;
      hasRedPacket := false;
      enableWebHeart := false;
      removeTime := 0;
      drawDelay := 0;
      timer := None;
      closeTime := DefaultCloseTimeMs;
      totalPriceLimit := 0;
      log := [];
    }

    method SetTotalPriceLimit(limit: int) returns (self: RedPacketMonitor)
      modifies this
      ensures self == this && totalPriceLimit == limit
      ensures feedOpen == old(feedOpen) && hasRedPacket == old(hasRedPacket) && enableWebHeart == old(enableWebHeart)
      ensures removeTime == old(removeTime) && drawDelay == old(drawDelay) && timer == old(timer)
      ensures closeTime == old(closeTime) && log == old(log)
    {
      totalPriceLimit := limit;
      self := this;
    }

    method SetDrawDelay(delay: int) returns (self: RedPacketMonitor)
      modifies this
      ensures self == this && drawDelay == delay
      ensures feedOpen == old(feedOpen) && hasRedPacket == old(hasRedPacket) && enableWebHeart == old(enableWebHeart)
      ensures removeTime == old(removeTime) && totalPriceLimit == old(totalPriceLimit) && timer == old(timer)
      ensures closeTime == old(closeTime) && log == old(log)
    {
      drawDelay := delay;
      self := this;
    }

    /** `closeTimerUpdate(close_time)`: clear the pending timer, then arm one for `closeTimeMs` from now. */
    method CloseTimerUpdate(nowMs: nat, closeTimeMs: int)
      modifies this
      ensures timer == Some(nowMs + JsRuntime.EffectiveDelay(Some(closeTimeMs)))
      ensures feedOpen == old(feedOpen) && hasRedPacket == old(hasRedPacket) && enableWebHeart == old(enableWebHeart)
      ensures removeTime == old(removeTime) && drawDelay == old(drawDelay) && totalPriceLimit == old(totalPriceLimit)
      ensures closeTime == old(closeTime) && log == old(log)
    {
      timer := None;
      timer := Some(nowMs + JsRuntime.EffectiveDelay(Some(closeTimeMs)));
    }

    /** `start()`: arm the close timer with `close_time`, then open the feed. */
    method Start(nowMs: nat)
      requires Valid()
      modifies this
      ensures Valid() && feedOpen
      ensures timer == Some(nowMs + JsRuntime.EffectiveDelay(Some(closeTime)))
      ensures hasRedPacket == old(hasRedPacket) && enableWebHeart == old(enableWebHeart)
      ensures removeTime == old(removeTime) && drawDelay == old(drawDelay) && totalPriceLimit == old(totalPriceLimit)
      ensures closeTime == old(closeTime) && log == old(log)
    {
      CloseTimerUpdate(nowMs, closeTime);
      feedOpen := true;
    }

    /** `webHeartBeat()`: raise the flag and start one loop per account, unless the flag is already up. */
    method WebHeartBeat()
      modifies this
      ensures enableWebHeart
      ensures log == old(log) + (if old(enableWebHeart) then [] else HeartBeatStarts(|busers|))
      ensures feedOpen == old(feedOpen) && hasRedPacket == old(hasRedPacket) && timer == old(timer)
      ensures removeTime == old(removeTime) && drawDelay == old(drawDelay) && totalPriceLimit == old(totalPriceLimit)
      ensures closeTime == old(closeTime)
    {
      if !enableWebHeart {
        enableWebHeart := true;
        var starts: seq<Action> := [];
        var i := 0;
        while i < |busers|
          invariant 0 <= i <= |busers|
          invariant starts == HeartBeatStarts(i)
        {
          starts := starts + [StartHeartBeat(i)];
          i := i + 1;
        }
        log := log + starts;
      }
    }

    /** The POPULARITY_RED_POCKET_START handler. */
    method OnRedPocketStart(e: RedPocket, nowMs: nat)
      requires Valid()
      modifies this
      ensures Valid()
      ensures e.totalPrice <= old(totalPriceLimit) ==>
                && hasRedPacket == old(hasRedPacket) && enableWebHeart == old(enableWebHeart)
                && removeTime == old(removeTime) && timer == old(timer) && log == old(log)
      ensures e.totalPrice > old(totalPriceLimit) ==>
                && hasRedPacket && enableWebHeart
                && removeTime == e.removeTime
                && timer == Some(nowMs + JsRuntime.EffectiveDelay(Some(e.removeTime - DataNow(nowMs) + closeTime)))
                && log == old(log)
                          + (if old(enableWebHeart) then [] else HeartBeatStarts(|busers|))
                          + FanOut(|busers|, e.lotId, roomId, ruid,
                                   nowMs + JsRuntime.EffectiveDelay(DrawDelayMs(drawDelay, e.lastTime, old(removeTime), DataNow(nowMs))))
      ensures feedOpen == old(feedOpen) && closeTime == old(closeTime)
      ensures drawDelay == old(drawDelay) && totalPriceLimit == old(totalPriceLimit)
    {
      if e.totalPrice > totalPriceLimit {
        WebHeartBeat();
        hasRedPacket := true;
        var dataNow := DataNow(nowMs);
        var at := nowMs + JsRuntime.EffectiveDelay(DrawDelayMs(drawDelay, e.lastTime, removeTime, dataNow));
        var claims := Claims(|busers|, e.lotId, roomId, ruid, at);
        log := log + claims;
        removeTime := e.removeTime;
        CloseTimerUpdate(nowMs, removeTime - dataNow + closeTime);
      }
    }

    /**
     * The POPULARITY_RED_POCKET_WINNER_LIST handler: scans winners, and for each
     * winner the accounts, and reports the first account that won.
     */
    method OnWinnerList(winnerUids: seq<int>) returns (report: WinnerReport)
      ensures report.NoWin? <==>
                forall w, b :: 0 <= w < |winnerUids| && 0 <= b < |busers| ==> !Wins(winnerUids[w], busers[b])
      ensures report.Won? ==>
                exists w, b :: 0 <= w < |winnerUids| && 0 <= b < |busers| && Wins(winnerUids[w], busers[b]) &&
                  busers[b].DedeUserId() == Some(report.uid) &&
                  (forall w', b' :: 0 <= w' < |winnerUids| && 0 <= b' < |busers| && (w' < w || (w' == w && b' < b))
                     ==> !Wins(winnerUids[w'], busers[b']))
    {
      for w := 0 to |winnerUids|
        invariant forall w', b' :: 0 <= w' < w && 0 <= b' < |busers| ==> !Wins(winnerUids[w'], busers[b'])
      {
        var found := FirstWinningAccount(winnerUids[w]);
        if found.Some? {
          var b := found.value;
          report := Won(busers[b].DedeUserId().value);
          assert Wins(winnerUids[w], busers[b]) && busers[b].DedeUserId() == Some(report.uid);
          return;
        }
      }
      return NoWin;
    }

    /** The inner loop of the winner check: the first account whose uid equals `winnerUid`. */
    method FirstWinningAccount(winnerUid: int) returns (found: Option<nat>)
      ensures found.None? ==> forall b :: 0 <= b < |busers| ==> !Wins(winnerUid, busers[b])
      ensures found.Some? ==>
                && found.value < |busers| && Wins(winnerUid, busers[found.value])
                && busers[found.value].DedeUserId().Some?
                && forall b :: 0 <= b < found.value ==> !Wins(winnerUid, busers[b])
    {
      for b := 0 to |busers|
        invariant forall b' :: 0 <= b' < b ==> !Wins(winnerUid, busers[b'])
      {
        if Wins(winnerUid, busers[b]) {
          return Some(b);
        }
      }
      return None;
    }

    /** `close()`: unfollow where needed, then close the feed; false when an account's list was missing. */
    method Close() returns (completed: bool)
      modifies this
      ensures completed <==> ScanLength(AttentionLists()) == |busers|
      ensures log == old(log) + CloseEffects(AttentionLists(), ruid, hasRedPacket)
      ensures feedOpen == (if completed then false else old(feedOpen))
      ensures hasRedPacket == old(hasRedPacket) && enableWebHeart == old(enableWebHeart) && timer == old(timer)
      ensures removeTime == old(removeTime) && drawDelay == old(drawDelay) && totalPriceLimit == old(totalPriceLimit)
      ensures closeTime == old(closeTime)
    {
      var lists := AttentionLists();
      var unfollows;
      unfollows, completed := CloseScan(lists, ruid, hasRedPacket);
      if completed {
        log := log + unfollows + [CloseFeed];
        feedOpen := false;
      } else {
        log := log + unfollows;
      }
      assert AttentionLists() == lists;
    }

    /** The close timer fires: lower the heartbeat flag, then `close()`. */
    method OnCloseTimer() returns (completed: bool)
      requires Valid() && timer.Some?
      modifies this
      ensures Valid()
      ensures !enableWebHeart && timer == None
      ensures completed <==> ScanLength(AttentionLists()) == |busers|
      ensures log == old(log) + CloseEffects(AttentionLists(), ruid, hasRedPacket)
      ensures feedOpen == (if completed then false else old(feedOpen))
      ensures hasRedPacket == old(hasRedPacket) && removeTime == old(removeTime)
      ensures drawDelay == old(drawDelay) && totalPriceLimit == old(totalPriceLimit) && closeTime == old(closeTime)
    {
      timer := None;
      enableWebHeart := false;
      completed := Close();
      if !hasRedPacket {
        NoRedPacketNoUnfollow(AttentionLists(), ruid, ScanLength(AttentionLists()));
      }
    }
  }
}
