/**
 State names of pools and vdevs, and the gauges that are set from them.
 */
module States {

  const POOL_STATES := ["ACTIVE", "EXPORTED", "DESTROYED", "SPARE", "L2CACHE", "UNINITIALIZED",
                        "UNAVAIL", "POTENTIALLY_ACTIVE", "UNKNOWN"]

  const VDEV_STATES := ["OFFLINE", "REMOVED", "FAULTED", "SPLIT", "UNAVAIL", "DEGRADED", "ONLINE", "UNKNOWN"]

  const AUX_CORRUPT_DATA := 2
  const AUX_BAD_LOG := 13
  const AUX_SPLIT_POOL := 15

  function PoolStateString(state: int): string {
    match state
    case 0 => "ACTIVE"
    case 1 => "EXPORTED"
    case 2 => "DESTROYED"
    case 3 => "SPARE"
    case 4 => "L2CACHE"
    case 5 => "UNINITIALIZED"
    case 6 => "UNAVAIL"
    case 7 => "POTENTIALLY_ACTIVE"
    case _ => "UNKNOWN"
  }

  /** A closed vdev (state 1) is not treated like an offline one: its case is empty and
      does not fall through. */
  function VDevStateString(state: int, aux: int): string {
    match state
    case 2 => "OFFLINE"
    case 3 => "REMOVED"
    case 4 =>
      if aux == AUX_CORRUPT_DATA || aux == AUX_BAD_LOG then "FAULTED"
      else if aux == AUX_SPLIT_POOL then "SPLIT"
      else "UNAVAIL"
    case 5 => "FAULTED"
    case 6 => "DEGRADED"
    case 7 => "ONLINE"
    case _ => "UNKNOWN"
  }

  /** For each of the eight names, exactly the states and auxiliary reasons that have it. State
      1 (closed), whose empty case stands in front of that of offline, is unknown. */
  lemma VdevStateNames(state: int, aux: int)
    ensures VDevStateString(state, aux) == "UNKNOWN" <==> !(2 <= state <= 7)
    ensures VDevStateString(state, aux) == "OFFLINE" <==> state == 2
    ensures VDevStateString(state, aux) == "REMOVED" <==> state == 3
    ensures VDevStateString(state, aux) == "SPLIT" <==> state == 4 && aux == AUX_SPLIT_POOL
    ensures VDevStateString(state, aux) == "UNAVAIL" <==>
      state == 4 && aux != AUX_CORRUPT_DATA && aux != AUX_BAD_LOG && aux != AUX_SPLIT_POOL
    ensures VDevStateString(state, aux) == "DEGRADED" <==> state == 6
    ensures VDevStateString(state, aux) == "FAULTED" <==>
      state == 5 || (state == 4 && (aux == AUX_CORRUPT_DATA || aux == AUX_BAD_LOG))
    ensures VDevStateString(state, aux) == "ONLINE" <==> state == 7
  {
    VdevStatesDistinct();
    var s := VDEV_STATES;
    assert s[0] == "OFFLINE" && s[1] == "REMOVED" && s[2] == "FAULTED" && s[3] == "SPLIT";
    assert s[4] == "UNAVAIL" && s[5] == "DEGRADED" && s[6] == "ONLINE" && s[7] == "UNKNOWN";
  }

  /** One gauge a known state: on for the current one. */
  function Gauges(states: seq<string>, current: string): (g: seq<bool>)
    ensures |g| == |states|
    ensures forall i :: 0 <= i < |g| ==> g[i] == (states[i] == current)
  {
    seq(|states|, i requires 0 <= i < |states| => states[i] == current)
  }

  function CountOn(g: seq<bool>): nat {
    if g == [] then 0 else (if g[0] then 1 else 0) + CountOn(g[1..])
  }

  predicate NoDuplicates<T(==)>(s: seq<T>) {
    forall i, j :: 0 <= i < j < |s| ==> s[i] != s[j]
  }

  lemma {:induction false} CountOnGauges(states: seq<string>, current: string)
    requires NoDuplicates(states)
    ensures CountOn(Gauges(states, current)) == if current in states then 1 else 0
  {
    if states != [] {
      CountOnGauges(states[1..], current);
      assert Gauges(states, current)[1..] == Gauges(states[1..], current);
      assert states == [states[0]] + states[1..];
    }
  }

  lemma VdevStatesDistinct()
    ensures NoDuplicates(VDEV_STATES)
  {
    var s := VDEV_STATES;
    assert |s[0]| == 7 && |s[1]| == 7 && |s[2]| == 7 && |s[3]| == 5;
    assert |s[4]| == 7 && |s[5]| == 8 && |s[6]| == 6 && |s[7]| == 7;
    assert s[0][0] == 'O' && s[1][0] == 'R' && s[2][0] == 'F' && s[4][0] == 'U' && s[7][0] == 'U';
    assert s[4][2] == 'A' && s[7][2] == 'K';
  }

  lemma PoolStatesDistinct()
    ensures NoDuplicates(POOL_STATES)
  {
    var s := POOL_STATES;
    assert |s[0]| == 6 && |s[1]| == 8 && |s[2]| == 9 && |s[3]| == 5 && |s[4]| == 7;
    assert |s[5]| == 13 && |s[6]| == 7 && |s[7]| == 18 && |s[8]| == 7;
    assert s[4][0] == 'L' && s[6][0] == 'U' && s[8][0] == 'U' && s[6][2] == 'A' && s[8][2] == 'K';
  }

  /** A vdev whose state was decoded sets exactly one gauge; the empty state, which a vdev
      without statistics keeps, sets none. */
  lemma OneVdevGauge(state: int, aux: int)
    ensures CountOn(Gauges(VDEV_STATES, VDevStateString(state, aux))) == 1
    ensures CountOn(Gauges(VDEV_STATES, "")) == 0
  {
    VdevStatesDistinct();
    CountOnGauges(VDEV_STATES, VDevStateString(state, aux));
    CountOnGauges(VDEV_STATES, "");
    var s := VDEV_STATES;
    assert s[0] == "OFFLINE" && s[1] == "REMOVED" && s[2] == "FAULTED" && s[3] == "SPLIT";
    assert s[4] == "UNAVAIL" && s[5] == "DEGRADED" && s[6] == "ONLINE" && s[7] == "UNKNOWN";
    assert forall i :: 0 <= i < |s| ==> |s[i]| > 0;
  }

  lemma OnePoolGauge(state: int)
    ensures CountOn(Gauges(POOL_STATES, PoolStateString(state))) == 1
  {
    PoolStatesDistinct();
    CountOnGauges(POOL_STATES, PoolStateString(state));
    var s := POOL_STATES;
    assert s[0] == "ACTIVE" && s[1] == "EXPORTED" && s[2] == "DESTROYED" && s[3] == "SPARE" && s[4] == "L2CACHE";
    assert s[5] == "UNINITIALIZED" && s[6] == "UNAVAIL" && s[7] == "POTENTIALLY_ACTIVE" && s[8] == "UNKNOWN";
  }

  /** The name of a pool state is the one that stands at its number, and the last one for all
      other numbers. */
  lemma PoolStateAt(n: int)
    ensures PoolStateString(n) == POOL_STATES[if 0 <= n < 8 then n else 8]
  {
  }

  /** For each of the nine names, exactly the states that have it. */
  lemma PoolStateNames(n: int)
    ensures PoolStateString(n) == "ACTIVE" <==> n == 0
    ensures PoolStateString(n) == "EXPORTED" <==> n == 1
    ensures PoolStateString(n) == "DESTROYED" <==> n == 2
    ensures PoolStateString(n) == "SPARE" <==> n == 3
    ensures PoolStateString(n) == "L2CACHE" <==> n == 4
    ensures PoolStateString(n) == "UNINITIALIZED" <==> n == 5
    ensures PoolStateString(n) == "UNAVAIL" <==> n == 6
    ensures PoolStateString(n) == "POTENTIALLY_ACTIVE" <==> n == 7
    ensures PoolStateString(n) == "UNKNOWN" <==> !(0 <= n < 8)
  {
    PoolStatesDistinct();
    PoolStateAt(n);
    PoolStateOrder();
  }

  lemma PoolStateOrder()
    ensures var s := POOL_STATES;
      && |s| == 9 && s[0] == "ACTIVE" && s[1] == "EXPORTED" && s[2] == "DESTROYED" && s[3] == "SPARE"
      && s[4] == "L2CACHE" && s[5] == "UNINITIALIZED" && s[6] == "UNAVAIL" && s[7] == "POTENTIALLY_ACTIVE"
      && s[8] == "UNKNOWN"
  {
  }

  /** Distinct pool states below 8 have distinct names; all others share "UNKNOWN". */
  lemma PoolStatesAlike(a: int, b: int)
    ensures PoolStateString(a) == PoolStateString(b) <==> a == b || (!(0 <= a < 8) && !(0 <= b < 8))
  {
    PoolStatesDistinct();
    PoolStateAt(a);
    PoolStateAt(b);
  }
}
