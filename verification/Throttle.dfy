/** The notification gate: a send is forwarded only when enough time has passed since the last forwarded one. */
module Throttling {
  const MAX_DURATION: int := 0x7fff_ffff_ffff_ffff
  const MIN_DURATION: int := -0x8000_0000_0000_0000

  /** A signed 64-bit number of nanoseconds. */
  type Duration = d: int | MIN_DURATION <= d <= MAX_DURATION

  /** The gate is only put in front of a receiver whose interval is positive. */
  type Interval = d: Duration | d > 0 witness 1

  /** A clock reading in nanoseconds since the zero time, which means "never". */
  type Time = int

  const NEVER: Time := 0

  /** The difference of two readings, saturated to what a duration can hold. */
  function Elapsed(now: Time, since: Time): Duration {
    if now - since > MAX_DURATION then MAX_DURATION
    else if now - since < MIN_DURATION then MIN_DURATION
    else now - since
  }

  predicate Passes(lastSent: Time, minInterval: Interval, now: Time) {
    lastSent == NEVER || Elapsed(now, lastSent) >= minInterval
  }

  /** What the gate compares is the plain difference of the readings: saturation changes nothing, whatever the
      interval. */
  lemma PassesIff(lastSent: Time, minInterval: int, now: Time)
    requires 0 < minInterval <= 0x7fff_ffff_ffff_ffff
    ensures Passes(lastSent, minInterval as Interval, now) <==> lastSent == 0 || now - lastSent >= minInterval
  {
  }

  /** The readings forwarded out of a run of attempts. */
  function Forwarded(lastSent: Time, minInterval: Interval, attempts: seq<Time>): seq<Time>
    decreases |attempts|
  {
    if attempts == [] then []
    else if Passes(lastSent, minInterval, attempts[0]) then
      [attempts[0]] + Forwarded(attempts[0], minInterval, attempts[1..])
    else Forwarded(lastSent, minInterval, attempts[1..])
  }

  predicate Apart(sends: seq<Time>, gap: int, i: nat) {
    i + 1 < |sends| ==> sends[i + 1] - sends[i] >= gap
  }

  ghost predicate Spaced(sends: seq<Time>, gap: int) {
    forall i: nat :: Apart(sends, gap, i)
  }

  /** sel can be picked out of attempts, in order. */
  predicate Picked(sel: seq<Time>, attempts: seq<Time>) {
    if sel == [] then true
    else if attempts == [] then false
    else (sel[0] == attempts[0] && Picked(sel[1..], attempts[1..])) || Picked(sel, attempts[1..])
  }

  /** No attempt but possibly the last is read at the zero time. */
  ghost predicate ZeroOnlyLast(attempts: seq<Time>) {
    forall i :: 0 <= i < |attempts| - 1 ==> attempts[i] != NEVER
  }

  ghost predicate NonDecreasing(attempts: seq<Time>) {
    forall i, j :: 0 <= i < j < |attempts| ==> attempts[i] <= attempts[j]
  }

  /** No attempt is read before the last one forwarded so far; it may be read before a suppressed one. */
  predicate OnTime(lastSent: Time, minInterval: Interval, attempts: seq<Time>)
    decreases |attempts|
  {
    attempts == [] ||
    (&& (lastSent != NEVER ==> lastSent <= attempts[0])
     && OnTime(if Passes(lastSent, minInterval, attempts[0]) then attempts[0] else lastSent, minInterval,
        attempts[1..]))
  }

  lemma SpacedCons(now: Time, sends: seq<Time>, gap: int)
    requires Spaced(sends, gap) && (sends != [] ==> sends[0] - now >= gap)
    ensures Spaced([now] + sends, gap)
  {
    forall i: nat
      ensures Apart([now] + sends, gap, i)
    {
      assert i > 0 ==> Apart(sends, gap, i - 1);
    }
  }

  /** What is forwarded is picked out of the attempts and spaced by the interval, also from the send before. */
  lemma {:induction false} ForwardedSpaced(lastSent: Time, minInterval: Interval, attempts: seq<Time>)
    requires ZeroOnlyLast(attempts)
    ensures var sends := Forwarded(lastSent, minInterval, attempts);
            && Picked(sends, attempts) && Spaced(sends, minInterval)
            && (lastSent != NEVER && sends != [] ==> sends[0] - lastSent >= minInterval)
    decreases |attempts|
  {
    if attempts != [] {
      var now, rest := attempts[0], attempts[1..];
      if Passes(lastSent, minInterval, now) {
        ForwardedSpaced(now, minInterval, rest);
        SpacedCons(now, Forwarded(now, minInterval, rest), minInterval);
      } else {
        ForwardedSpaced(lastSent, minInterval, rest);
      }
    }
  }

  /** Spaced sends span at least one interval per send after the first. */
  lemma {:induction false} SpacedSpan(sends: seq<Time>, gap: int)
    requires sends != [] && Spaced(sends, gap)
    ensures sends[|sends| - 1] - sends[0] >= (|sends| - 1) * gap
    decreases |sends|
  {
    var k := |sends| - 1;
    if k > 0 {
      var before := sends[..k];
      forall i: nat
        ensures Apart(before, gap, i)
      {
        assert Apart(sends, gap, i);
      }
      SpacedSpan(before, gap);
      assert Apart(sends, gap, k - 1);
      assert (k - 1) * gap + gap == k * gap;
    }
  }

  /** Spacing: in any run, k forwarded sends span at least k - 1 intervals. */
  lemma SendsSpan(lastSent: Time, minInterval: Interval, attempts: seq<Time>)
    requires ZeroOnlyLast(attempts) && Forwarded(lastSent, minInterval, attempts) != []
    ensures var sends := Forwarded(lastSent, minInterval, attempts);
            sends[|sends| - 1] - sends[0] >= (|sends| - 1) * minInterval
  {
    ForwardedSpaced(lastSent, minInterval, attempts);
    SpacedSpan(Forwarded(lastSent, minInterval, attempts), minInterval);
  }

  /** The next send keeps its distance from the last one, whenever it comes, exactly when the last one was
      not read at the zero time: that reading means "never sent" and opens the gate again. */
  lemma GateHoldsIff(lastSent: Time, minInterval: Interval)
    ensures (forall now: Time :: Passes(lastSent, minInterval, now) ==> now - lastSent >= minInterval)
            <==> lastSent != NEVER
  {
    if lastSent == NEVER {
      assert Passes(lastSent, minInterval, minInterval - 1);
    }
  }

  lemma SpacedRest(sel: seq<Time>, gap: int)
    requires sel != [] && Spaced(sel, gap)
    ensures Spaced(sel[1..], gap) && (|sel| > 1 ==> sel[1] - sel[0] >= gap)
  {
    forall i: nat
      ensures Apart(sel[1..], gap, i)
    {
      assert Apart(sel, gap, i + 1);
    }
    assert Apart(sel, gap, 0);
  }

  lemma {:induction false} PickedRest(sel: seq<Time>, attempts: seq<Time>)
    requires sel != [] && Picked(sel, attempts)
    ensures Picked(sel[1..], attempts[1..]) && sel[0] in attempts
    decreases |attempts|
  {
    if !(sel[0] == attempts[0] && Picked(sel[1..], attempts[1..])) {
      PickedRest(sel, attempts[1..]);
      PickedMore(sel[1..], attempts[1..]);
    }
  }

  lemma PickedMore(sel: seq<Time>, attempts: seq<Time>)
    requires attempts != [] && Picked(sel, attempts[1..])
    ensures Picked(sel, attempts)
  {
  }

  ghost predicate KeepsFrom(lastSent: Time, gap: int, sel: seq<Time>) {
    Spaced(sel, gap) && (lastSent != NEVER && sel != [] ==> sel[0] - lastSent >= gap)
  }

  /** No selection of the attempts that keeps the interval - also from the send before - holds more sends than
      are forwarded. */
  ghost predicate IsLargest(lastSent: Time, minInterval: Interval, attempts: seq<Time>) {
    forall sel: seq<Time> :: Picked(sel, attempts) && KeepsFrom(lastSent, minInterval, sel) ==>
      |sel| <= |Forwarded(lastSent, minInterval, attempts)|
  }

  lemma {:induction false} OnTimeFloor(lastSent: Time, minInterval: Interval, attempts: seq<Time>)
    requires OnTime(lastSent, minInterval, attempts) && ZeroOnlyLast(attempts)
    ensures lastSent != NEVER ==> forall i :: 0 <= i < |attempts| ==> lastSent <= attempts[i]
    decreases |attempts|
  {
    if attempts != [] {
      var now, rest := attempts[0], attempts[1..];
      OnTimeFloor(if Passes(lastSent, minInterval, now) then now else lastSent, minInterval, rest);
      assert forall i :: 1 <= i < |attempts| ==> attempts[i] == rest[i - 1];
    }
  }

  lemma {:induction false} LargestFrom(lastSent: Time, minInterval: Interval, attempts: seq<Time>, sel: seq<Time>)
    requires ZeroOnlyLast(attempts) && OnTime(lastSent, minInterval, attempts)
    requires Picked(sel, attempts) && KeepsFrom(lastSent, minInterval, sel)
    ensures |sel| <= |Forwarded(lastSent, minInterval, attempts)|
    decreases |attempts|
  {
    if attempts != [] && sel != [] {
      var now, rest := attempts[0], attempts[1..];
      if Passes(lastSent, minInterval, now) {
        PickedRest(sel, attempts);
        SpacedRest(sel, minInterval);
        OnTimeFloor(now, minInterval, rest);
        assert sel[0] == now || sel[0] in rest;
        LargestFrom(now, minInterval, rest, sel[1..]);
      } else {
        LargestFrom(lastSent, minInterval, rest, sel);
      }
    }
  }

  /** Optimality: the forwarded sends are a largest selection whenever no attempt is read before the last one
      forwarded. */
  lemma GreedyIsLargest(lastSent: Time, minInterval: Interval, attempts: seq<Time>)
    requires ZeroOnlyLast(attempts) && OnTime(lastSent, minInterval, attempts)
    ensures IsLargest(lastSent, minInterval, attempts)
  {
    forall sel: seq<Time> | Picked(sel, attempts) && KeepsFrom(lastSent, minInterval, sel)
      ensures |sel| <= |Forwarded(lastSent, minInterval, attempts)|
    {
      LargestFrom(lastSent, minInterval, attempts, sel);
    }
  }

  lemma {:induction false} NonDecreasingOnTime(lastSent: Time, minInterval: Interval, attempts: seq<Time>)
    requires NonDecreasing(attempts) && (lastSent != NEVER && attempts != [] ==> lastSent <= attempts[0])
    ensures OnTime(lastSent, minInterval, attempts)
    decreases |attempts|
  {
    if attempts != [] {
      NonDecreasingOnTime(if Passes(lastSent, minInterval, attempts[0]) then attempts[0] else lastSent, minInterval,
          attempts[1..]);
    }
  }

  /** The runs that start with two given readings and go on without stepping back. */
  ghost predicate GoesOn(x: Time, y: Time, more: seq<Time>) {
    ZeroOnlyLast([x, y] + more) && NonDecreasing([y] + more)
  }

  /** Exactly when stepping back costs: after a first send at x, a next reading y leaves the gate's selection
      a largest one on every run that goes on from y, if and only if y is not before x. */
  lemma StepBackIff(minInterval: Interval, x: Time, y: Time)
    requires x != NEVER && y != NEVER
    ensures (forall more: seq<Time> :: GoesOn(x, y, more) ==> IsLargest(NEVER, minInterval, [x, y] + more)) <==> x <= y
  {
    if x <= y {
      forall more: seq<Time> | GoesOn(x, y, more)
        ensures IsLargest(NEVER, minInterval, [x, y] + more)
      {
        StartsEarlier(x, y, more);
        NonDecreasingOnTime(NEVER, minInterval, [x, y] + more);
        GreedyIsLargest(NEVER, minInterval, [x, y] + more);
      }
    } else {
      BetterFromEarlier(minInterval, x, y);
    }
  }

  lemma StartsEarlier(x: Time, y: Time, more: seq<Time>)
    requires x <= y && NonDecreasing([y] + more)
    ensures NonDecreasing([x, y] + more)
  {
    var later, all := [y] + more, [x, y] + more;
    forall i, j | 0 <= i < j < |all|
      ensures all[i] <= all[j]
    {
      assert all[j] == later[j - 1] && later[0] <= later[j - 1];
      if i > 0 { assert all[i] == later[i - 1]; }
    }
  }

  /** For y before x, the run that ends one interval after y: two sends keep the interval, one is forwarded. */
  lemma BetterFromEarlier(minInterval: Interval, x: Time, y: Time)
    requires x != NEVER && y != NEVER && y < x
    ensures var more := [y + minInterval]; GoesOn(x, y, more) && !IsLargest(NEVER, minInterval, [x, y] + more)
  {
    var t := y + minInterval;
    var attempts, sel := [x, y] + [t], [y, t];
    assert attempts[1..] == [y, t] && [y, t][1..] == [t] && [t][1..] == [];
    assert Picked([t], [t]) && Picked(sel, sel);
    PickedMore(sel, attempts);
    assert KeepsFrom(NEVER, minInterval, sel);
    assert Forwarded(x, minInterval, [t]) == [];
    assert Forwarded(x, minInterval, [y, t]) == [];
    assert Forwarded(NEVER, minInterval, attempts) == [x];
  }

  // ---- The gate -----------------------------------------------------------------------

  class Throttled {
    const minInterval: Interval
    var lastSent: Time
    /** The readings at which the notifier behind the gate was called. */
    var sends: seq<Time>

    constructor (minInterval: Interval)
      ensures this.minInterval == minInterval && lastSent == NEVER && sends == []
    {
      this.minInterval := minInterval;
      lastSent, sends := NEVER, [];
    }

    /** A suppressed send is not an error; a forwarded one returns the notifier's own answer, and counts as
        sent even when that is an error. */
    method SendEnv(now: Time, innerFails: bool) returns (failed: bool)
      modifies this
      ensures sends == old(sends) + Forwarded(old(lastSent), minInterval, [now])
      ensures lastSent == if Passes(old(lastSent), minInterval, now) then now else old(lastSent)
      ensures failed <==> innerFails && Passes(old(lastSent), minInterval, now)
    {
      if lastSent != NEVER && Elapsed(now, lastSent) < minInterval {
        return false;
      }
      lastSent := now;
      sends := sends + [now];
      failed := innerFails;
    }

    /** A run of attempts forwards what the selection says. */
    method SendAll(attempts: seq<Time>)
      modifies this
      ensures sends == old(sends) + Forwarded(old(lastSent), minInterval, attempts)
    {
      var i := 0;
      assert attempts[0..] == attempts;
      while i < |attempts|
        invariant i <= |attempts|
        invariant sends + Forwarded(lastSent, minInterval, attempts[i..])
               == old(sends) + Forwarded(old(lastSent), minInterval, attempts)
      {
        assert attempts[i..][1..] == attempts[i + 1..];
        var _ := SendEnv(attempts[i], false);
        i := i + 1;
      }
      assert attempts[|attempts|..] == [];
    }
  }
}
