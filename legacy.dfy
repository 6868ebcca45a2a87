/**
 * The older single-account script `index.js`: its list helpers (`cross`,
 * `pipe`, `apply`; `list` and `parseCookie` are the definitions in `Util` and
 * `Cookie`), and its red-packet monitor, which follows the room owner on the
 * first red packet, draws only when it did not already follow the owner, and
 * extends its close timer after a successful draw.
 */
module Legacy {
  import opened Wrappers
  import JsRuntime
  import Util

  // ---------------------------------------------------------------- cross

  /** The row `[f, s]` for every `s` of `second`. */
  function Row<T, U>(f: T, second: seq<U>): (row: seq<(T, U)>)
    ensures |row| == |second|
    ensures forall j :: 0 <= j < |second| ==> row[j] == (f, second[j])
  {
    seq(|second|, j requires 0 <= j < |second| => (f, second[j]))
  }

  /** The pairs `cross(first)(second)` yields, `first` being the outer loop. */
  function Pairs<T, U>(first: seq<T>, second: seq<U>): (pairs: seq<(T, U)>)
    ensures forall k :: 0 <= k < |pairs| ==> pairs[k].0 in first && pairs[k].1 in second
    decreases |first|
  {
    if |first| == 0 then []
    else Pairs(first[..|first| - 1], second) + Row(first[|first| - 1], second)
  }

  /** `cross(first)(second)`: nested `forEach` loops pushing `[f, s]`. */
  method Cross<T, U>(first: seq<T>, second: seq<U>) returns (cross: seq<(T, U)>)
    ensures cross == Pairs(first, second)
  {
    cross := [];
    for i := 0 to |first|
      invariant cross == Pairs(first[..i], second)
    {
      assert first[..i + 1][..i] == first[..i];
      ghost var outer := cross;
      for j := 0 to |second|
        invariant cross == outer + Row(first[i], second[..j])
      {
        cross := cross + [(first[i], second[j])];
        assert Row(first[i], second[..j + 1]) == Row(first[i], second[..j]) + [(first[i], second[j])];
      }
      assert second[..|second|] == second;
    }
    assert first[..|first|] == first;
  }

  lemma MulStep(i: nat, m: nat, j: nat, n: nat)
    requires i < n && j < m
    ensures i * m + j < n * m
  {
    assert (i + 1) * m == i * m + m;
    MulMono(i + 1, n, m);
  }

  lemma {:induction false} MulMono(a: nat, b: nat, m: nat)
    requires a <= b
    ensures a * m <= b * m
    decreases b - a
  {
    if a < b {
      MulMono(a + 1, b, m);
      assert (a + 1) * m == a * m + m;
    }
  }

  /** `cross(a)(b)` has |a|·|b| pairs. */
  lemma {:induction false} PairsLength<T, U>(first: seq<T>, second: seq<U>)
    ensures |Pairs(first, second)| == |first| * |second|
    decreases |first|
  {
    if |first| > 0 {
      PairsLength(first[..|first| - 1], second);
      assert |first| * |second| == (|first| - 1) * |second| + |second|;
    }
  }

  /** Pair i·|b| + j of `cross(a)(b)` is `[a[i], b[j]]`. */
  lemma {:induction false} PairsAt<T, U>(first: seq<T>, second: seq<U>, i: nat, j: nat)
    requires i < |first| && j < |second|
    ensures i * |second| + j < |Pairs(first, second)|
    ensures Pairs(first, second)[i * |second| + j] == (first[i], second[j])
    decreases |first|
  {
    var init := first[..|first| - 1];
    PairsLength(init, second);
    PairsLength(first, second);
    if i < |init| {
      MulStep(i, |second|, j, |init|);
      PairsAt(init, second, i, j);
    }
  }

  /** `[f, s]` is among the pairs exactly when `f` is in `first` and `s` in `second`. */
  lemma {:induction false} PairsMembers<T, U>(first: seq<T>, second: seq<U>, f: T, s: U)
    ensures (f, s) in Pairs(first, second) <==> f in first && s in second
    decreases |first|
  {
    if |first| > 0 {
      var init := first[..|first| - 1];
      PairsMembers(init, second, f, s);
      assert first == init + [first[|first| - 1]];
      if s in second && f == first[|first| - 1] {
        var j :| 0 <= j < |second| && second[j] == s;
        assert Row(f, second)[j] == (f, s);
      }
    }
  }

  /** `cross(list(2))(areas)`: every area on page 1, then every area on page 2. */
  lemma PageGrid(areas: seq<int>)
    ensures Pairs(Util.List(2), areas) == Row(1, areas) + Row(2, areas)
  {
    var pages := Util.List(2);
    assert pages == [1, 2];
    assert pages[..1] == [1] && [1][..0] == [];
  }

  // ---------------------------------------------------------------- pipe

  /** How an awaited value settles. */
  datatype Settled<T> = Fulfilled(value: T) | Rejected

  /**
   * The value each job receives when `pipe(jobs)` runs: the first receives
   * undefined (None), each later one what the previous resolved to; the run
   * stops after a job rejects.
   */
  function PipeRun<T>(jobs: seq<Option<T> -> Settled<T>>, input: Option<T>): (received: seq<Option<T>>)
    ensures |received| <= |jobs|
    ensures |jobs| > 0 ==> |received| > 0 && received[0] == input
    decreases |jobs|
  {
    if |jobs| == 0 then []
    else match jobs[0](input)
      case Rejected => [input]
      case Fulfilled(v) => [input] + PipeRun(jobs[1..], Some(v))
  }

  /** `pipe(jobs)`: await each job on the previous job's value, in order. */
  method Pipe<T>(jobs: seq<Option<T> -> Settled<T>>) returns (received: seq<Option<T>>)
    ensures received == PipeRun(jobs, None)
  {
    var lastValue: Option<T> := None;
    var rest := jobs;
    received := [];
    while |rest| > 0
      invariant PipeRun(jobs, None) == received + PipeRun(rest, lastValue)
      decreases |rest|
    {
      AppendAssoc(received, [lastValue], PipeRun(rest[1..], lastValue));
      match rest[0](lastValue)
      case Rejected =>
        received := received + [lastValue];
        return;
      case Fulfilled(v) =>
        AppendAssoc(received, [lastValue], PipeRun(rest[1..], Some(v)));
        received := received + [lastValue];
        lastValue := Some(v);
        rest := rest[1..];
    }
  }

  /**
   * The first job receives undefined; job k + 1 receives what job k resolved to;
   * and the run stops early only when the last job it ran rejected.
   */
  lemma {:induction false} PipeChain<T>(jobs: seq<Option<T> -> Settled<T>>, input: Option<T>)
    ensures forall k :: 0 <= k < |PipeRun(jobs, input)| - 1 ==>
              jobs[k](PipeRun(jobs, input)[k]).Fulfilled? &&
              PipeRun(jobs, input)[k + 1] == Some(jobs[k](PipeRun(jobs, input)[k]).value)
    ensures 0 < |PipeRun(jobs, input)| < |jobs| ==>
              jobs[|PipeRun(jobs, input)| - 1](PipeRun(jobs, input)[|PipeRun(jobs, input)| - 1]).Rejected?
    decreases |jobs|
  {
    if |jobs| > 0 {
      match jobs[0](input)
      case Rejected =>
      case Fulfilled(v) =>
        var tail := PipeRun(jobs[1..], Some(v));
        PipeChain(jobs[1..], Some(v));
        assert PipeRun(jobs, input) == [input] + tail;
        forall k | 0 <= k < |PipeRun(jobs, input)| - 1
          ensures jobs[k](PipeRun(jobs, input)[k]).Fulfilled? &&
                  PipeRun(jobs, input)[k + 1] == Some(jobs[k](PipeRun(jobs, input)[k]).value)
        {
          if k > 0 {
            assert jobs[k] == jobs[1..][k - 1];
          }
        }
        if 0 < |PipeRun(jobs, input)| < |jobs| && |tail| > 0 {
          assert jobs[|tail|] == jobs[1..][|tail| - 1];
        }
    }
  }

  // ---------------------------------------------------------------- apply

  /** What `fn(...arr)` returns: a thenable that settles, a plain value, or null/undefined. */
  datatype Returned<T> = Thenable(settles: Settled<T>) | Plain(value: T) | Nullish

  /** What `apply(fn, callback)(arr)` does with the callback. */
  datatype ApplyOutcome<T> = CallbackGets(arg: T) | CallbackNever | Throws

  /** `await r`: a thenable settles as it settles, a plain value is fulfilled with itself. */
  function Await<T>(r: Returned<T>): Settled<T>
    requires !r.Nullish?
  {
    match r
    case Thenable(s) => s
    case Plain(v) => Fulfilled(v)
  }

  /**
   * `apply(fn, callback)(arr)`: call `fn` on the spread array, then hand its
   * (awaited) result to `callback`. Promises and plain values are treated
   * alike: the callback receives `v` exactly when awaiting `fn(...arr)` gives
   * `v`, is never called when that rejects, and only a null or undefined
   * result throws.
   */
  function Apply<A, T>(fn: seq<A> -> Returned<T>, arr: seq<A>): (o: ApplyOutcome<T>)
    ensures o.Throws? <==> fn(arr).Nullish?
    ensures !fn(arr).Nullish? ==>
              (o.CallbackNever? <==> Await(fn(arr)).Rejected?) &&
              (o.CallbackGets? <==> Await(fn(arr)).Fulfilled?) &&
              (o.CallbackGets? ==> Await(fn(arr)).value == o.arg)
  {
    match fn(arr)
    case Thenable(Fulfilled(v)) => CallbackGets(v)
    case Thenable(Rejected) => CallbackNever
    case Plain(v) => CallbackGets(v)
    case Nullish => Throws
  }

  // ---------------------------------------------------------------- monitor

  /** The `close_time` of a new monitor: 5 minutes. */
  const InitialCloseTimeMs: int := 300000

  /** `relation_modify` acts. */
  const Follow: int := 1
  const Unfollow: int := 2

  /** The older monitor's requests, in the order it issues them. */
  datatype Action =
    | Relation(act: int)
    | DrawRequest(lotId: int, roomId: int, ruid: int)
    | BagLookup
    | CloseFeed

  /** The live feed: not yet created (`liveflow` is null), running, or closed. */
  datatype Feed = Unset | Running | Closed

  /** How many follow requests a log holds. */
  function Follows(log: seq<Action>): nat
    decreases |log|
  {
    if |log| == 0 then 0
    else Follows(log[..|log| - 1]) + (if log[|log| - 1] == Relation(Follow) then 1 else 0)
  }

  lemma {:induction false} FollowsAppend(log: seq<Action>, more: seq<Action>)
    requires Relation(Follow) !in more
    ensures Follows(log + more) == Follows(log)
    decreases |more|
  {
    if |more| == 0 {
      assert log + more == log;
    } else {
      assert (log + more)[..|log + more| - 1] == log + more[..|more| - 1];
      assert (log + more)[|log + more| - 1] == more[|more| - 1];
      assert more[|more| - 1] in more;
      FollowsAppend(log, more[..|more| - 1]);
    }
  }

  lemma {:induction false} FollowsZero(log: seq<Action>)
    requires Follows(log) == 0
    ensures Relation(Follow) !in log
    decreases |log|
  {
    if |log| > 0 {
      FollowsZero(log[..|log| - 1]);
      assert log == log[..|log| - 1] + [log[|log| - 1]];
    }
  }

  class RedPacketMonitor {
    const roomId: int
    const ruid: int
    var feed: Feed
    var noRelationModify: bool
    var hasRedPacket: bool
    /** The deadline of the pending close timer, if one is pending. */
    var timer: Option<int>
    var closeTime: int
    var log: seq<Action>

    /**
     * The owner is followed at most once, and only after a red packet; nothing
     * is unfollowed before one either.
     */
    ghost predicate Valid()
      reads this
    {
      && Follows(log) <= 1
      && (!hasRedPacket ==> Follows(log) == 0 && Relation(Unfollow) !in log)
    }

    constructor(roomId: int, ruid: int)
      ensures this.roomId == roomId && this.ruid == ruid
      ensures feed == Unset && !noRelationModify && !hasRedPacket
      ensures timer == None && closeTime == InitialCloseTimeMs && log == []
      ensures Valid()
    {
      this.roomId := roomId;
      this.ruid := ruid;
      feed := Unset;
      noRelationModify := false;
      hasRedPacket := false;
      timer := None;
      closeTime := InitialCloseTimeMs;
      log := [];
    }

    /** `no_relation_modify()`: switch follow, unfollow and draw off. */
    method NoRelationModify() returns (self: RedPacketMonitor)
      modifies this
      ensures self == this && noRelationModify
      ensures feed == old(feed) && hasRedPacket == old(hasRedPacket) && timer == old(timer)
      ensures closeTime == old(closeTime) && log == old(log)
    {
      noRelationModify := true;
      self := this;
    }

    /** `closeTimerUpdate()`: arm a close timer for `close_time` (it does not clear one). */
    method CloseTimerUpdate(nowMs: nat)
      modifies this
      ensures timer == Some(nowMs + JsRuntime.EffectiveDelay(Some(closeTime)))
      ensures feed == old(feed) && noRelationModify == old(noRelationModify) && hasRedPacket == old(hasRedPacket)
      ensures closeTime == old(closeTime) && log == old(log)
    {
      timer := Some(nowMs + JsRuntime.EffectiveDelay(Some(closeTime)));
    }

    /**
     * `start()`: arm the close timer, switch relation changes off when the
     * account already follows the owner, and open the feed.
     */
    method Start(nowMs: nat, attentionList: seq<int>)
      requires Valid()
      modifies this
      ensures Valid() && feed == Running
      ensures timer == Some(nowMs + JsRuntime.EffectiveDelay(Some(closeTime)))
      ensures noRelationModify == (old(noRelationModify) || ruid in attentionList)
      ensures hasRedPacket == old(hasRedPacket) && closeTime == old(closeTime) && log == old(log)
    {
      CloseTimerUpdate(nowMs);
      if ruid in attentionList {
        var _ := NoRelationModify();
      }
      feed := Running;
    }

    /**
     * `relation_modify(act)`: true without any request when relation changes
     * are off; otherwise one request, true exactly when its reply code is 0.
     */
    method RelationModify(act: int, code: int) returns (ok: bool)
      modifies this
      ensures noRelationModify ==> ok && log == old(log)
      ensures !noRelationModify ==> ok == (code == 0) && log == old(log) + [Relation(act)]
      ensures feed == old(feed) && noRelationModify == old(noRelationModify) && hasRedPacket == old(hasRedPacket)
      ensures timer == old(timer) && closeTime == old(closeTime)
    {
      if noRelationModify {
        return true;
      }
      log := log + [Relation(act)];
      ok := code == 0;
    }

    /**
     * The POPULARITY_RED_POCKET_START handler: on the first red packet, follow
     * the owner; draw unless relation changes are off; look up the bag. The
     * follow reply's code is `followCode`, which the handler ignores.
     */
    method OnRedPocketStart(lotId: int, followCode: int)
      requires Valid()
      modifies this
      ensures Valid() && hasRedPacket
      ensures log == old(log)
                     + (if !old(hasRedPacket) && !noRelationModify then [Relation(Follow)] else [])
                     + (if !noRelationModify then [DrawRequest(lotId, roomId, ruid)] else [])
                     + [BagLookup]
      ensures feed == old(feed) && noRelationModify == old(noRelationModify)
      ensures timer == old(timer) && closeTime == old(closeTime)
    {
      if !hasRedPacket {
        hasRedPacket := true;
        ghost var before := log;
        var _ := RelationModify(Follow, followCode);
        assert Follows(log) <= 1 by {
          if log != before {
            assert log[..|log| - 1] == before;
          }
        }
      }
      var tail: seq<Action> := if noRelationModify then [] else [DrawRequest(lotId, roomId, ruid)];
      tail := tail + [BagLookup];
      FollowsAppend(log, tail);
      log := log + tail;
    }

    /**
     * The reply to a draw of a red packet whose `last_time` was `lastTime`:
     * code 0 sets `close_time` to 300000 + last_time·1000, clears the pending
     * timer and arms a new one; any other code changes nothing.
     */
    method OnDrawReply(lastTime: int, code: int, nowMs: nat)
      requires Valid()
      modifies this
      ensures Valid()
      ensures code == 0 ==>
                closeTime == InitialCloseTimeMs + lastTime * 1000 &&
                timer == Some(nowMs + JsRuntime.EffectiveDelay(Some(InitialCloseTimeMs + lastTime * 1000)))
      ensures code != 0 ==> closeTime == old(closeTime) && timer == old(timer)
      ensures feed == old(feed) && noRelationModify == old(noRelationModify) && hasRedPacket == old(hasRedPacket)
      ensures log == old(log)
    {
      if code == 0 {
        timer := None;
        closeTime := InitialCloseTimeMs + lastTime * 1000;
        CloseTimerUpdate(nowMs);
      }
    }

    /**
     * The close timer fires: `close()` unfollows the owner if a red packet was
     * seen (unless relation changes are off), then closes the feed. The
     * unfollow reply's code is `unfollowCode`, which `close` ignores.
     */
    method OnCloseTimer(unfollowCode: int)
      requires Valid() && timer.Some?
      modifies this
      ensures Valid() && timer == None && feed == Closed
      ensures log == old(log)
                     + (if hasRedPacket && !noRelationModify then [Relation(Unfollow)] else [])
                     + [CloseFeed]
      ensures noRelationModify == old(noRelationModify) && hasRedPacket == old(hasRedPacket)
      ensures closeTime == old(closeTime)
    {
      timer := None;
      ghost var unfollow: seq<Action> := if hasRedPacket && !noRelationModify then [Relation(Unfollow)] else [];
      FollowsAppend(log, unfollow + [CloseFeed]);
      if hasRedPacket {
        var _ := RelationModify(Unfollow, unfollowCode);
      }
      assert log == old(log) + unfollow;
      log := log + [CloseFeed];
      AppendAssoc(old(log), unfollow, [CloseFeed]);
      feed := Closed;
    }
  }
}
