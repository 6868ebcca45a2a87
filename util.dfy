/** The helpers of `src/util.js`: `list` and `sleep`. */
module Util {
  import opened Wrappers
  import JsRuntime

  /** `list(num)`: `Array(num).fill().map((_, n) => n + 1)`, the numbers 1..num. */
  function List(num: nat): (r: seq<int>)
    ensures |r| == num
    ensures forall k :: k in r <==> 1 <= k <= num
    ensures forall i, j :: 0 <= i < j < |r| ==> r[i] < r[j]
  {
    var r := seq(num, n requires 0 <= n < num => n + 1);
    EveryNumberListed(num, r);
    r
  }

  lemma EveryNumberListed(num: nat, r: seq<int>)
    requires |r| == num && forall n :: 0 <= n < num ==> r[n] == n + 1
    ensures forall k :: 1 <= k <= num ==> k in r
  {
    forall k | 1 <= k <= num ensures k in r {
      assert r[k - 1] == k;
    }
  }

  /** Element n of `list(num)` is n + 1. */
  lemma ListAt(num: nat, n: nat)
    requires n < num
    ensures List(num)[n] == n + 1
  {
  }

  /** `list(0)` is empty, `list(1)` is `[1]`. */
  lemma ListSmall()
    ensures List(0) == [] && List(1) == [1]
  {
  }

  /** How long `sleep(sec)` waits: `setTimeout(resolve, sec * 1000)`. */
  function SleepMs(sec: int): (ms: int)
    ensures 1 <= ms <= JsRuntime.TimeoutMax
    ensures 1 <= sec * 1000 <= JsRuntime.TimeoutMax ==> ms == sec * 1000
    ensures !(1 <= sec * 1000 <= JsRuntime.TimeoutMax) ==> ms == 1
  {
    JsRuntime.EffectiveDelay(Some(sec * 1000))
  }
}
