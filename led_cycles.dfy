/**
 * The repeat-count law of the LED engine: how many animation legs a record
 * starts over successive recompute passes of LedRGBAnimate, and when its
 * effect stops, for the biased counter LedRGBSetAnimation stores.
 */
module LedCycles {
  import opened Basics
  import opened Led

  /**
   * The record at position `i` after one recompute pass per element of `px`;
   * `px[j]` is the colour its pixel shows at pass j.
   */
  function AfterPasses(i: nat, e: AnimState, px: seq<Colour>): AnimState
    decreases |px|
  {
    if px == [] then e else AfterPasses(i, Recompute(i, e, px[0]).entry, px[1..])
  }

  /** The number of legs those passes hand to the scheduler. */
  function LegsStarted(i: nat, e: AnimState, px: seq<Colour>): nat
    decreases |px|
  {
    if px == [] then 0
    else
      var p := Recompute(i, e, px[0]);
      (if p.started then 1 else 0) + LegsStarted(i, p.entry, px[1..])
  }

  /** A record without an effect starts nothing and keeps no effect. */
  lemma {:induction false} StoppedStaysStopped(i: nat, e: AnimState, px: seq<Colour>)
    requires e.effect == AnimNone
    ensures LegsStarted(i, e, px) == 0
    ensures AfterPasses(i, e, px).effect == AnimNone
    ensures e.time == 0 ==> AfterPasses(i, e, px).time == 0
    decreases |px|
  {
    if px != [] {
      StoppedStaysStopped(i, Recompute(i, e, px[0]).entry, px[1..]);
    }
  }

  /**
   * A stored count c >= 2 starts exactly min(passes, c - 2) legs: one per
   * pass while the counter is above 2, then the pass that brings it to 1
   * stops the effect.
   */
  lemma {:induction false} FiniteRun(i: nat, e: AnimState, px: seq<Colour>)
    requires 2 <= e.count && e.time != 0 && e.effect != AnimNone
    ensures LegsStarted(i, e, px) == Min(|px|, e.count - 2)
    ensures |px| <= e.count - 2 ==> AfterPasses(i, e, px).effect != AnimNone
    ensures |px| > e.count - 2 ==> AfterPasses(i, e, px).effect == AnimNone && AfterPasses(i, e, px).time == 0
    decreases |px|
  {
    if px != [] {
      var p := Recompute(i, e, px[0]);
      if e.count == 2 {
        StoppedStaysStopped(i, p.entry, px[1..]);
      } else {
        FiniteRun(i, p.entry, px[1..]);
      }
    }
  }

  /** Stored counts 0 and 1 never run down: every pass starts a leg. */
  lemma {:induction false} EndlessRun(i: nat, e: AnimState, px: seq<Colour>)
    requires e.count <= 1 && e.time != 0 && e.effect != AnimNone
    ensures LegsStarted(i, e, px) == |px|
    ensures AfterPasses(i, e, px).effect != AnimNone
    decreases |px|
  {
    if px != [] {
      EndlessRun(i, Recompute(i, e, px[0]).entry, px[1..]);
    }
  }

  /**
   * After LedRGBSetAnimation(duration, led, k, effect) with a running effect
   * and a nonzero duration, successive recompute passes start exactly k legs
   * of a selected pixel for k in 1..253, its effect ending on the pass after
   * the k-th start; for k = 0 and, by uint8_t wrap-around, k = 254 and
   * k = 255 every pass starts one.
   */
  lemma RequestedLegs(s: seq<AnimState>, led: u16, duration: u16, count: u8, effect: Effect, i: nat, px: seq<Colour>)
    requires ValidLed(led) && i < |s| && Selected(led, i) && duration != 0 && effect != AnimNone
    ensures 1 <= count <= 253 ==>
      LegsStarted(i, WithAnimation(s, led, duration, count, effect)[i], px) == Min(|px|, count) &&
      (AfterPasses(i, WithAnimation(s, led, duration, count, effect)[i], px).effect == AnimNone <==> |px| > count)
    ensures count == 0 || count >= 254 ==>
      LegsStarted(i, WithAnimation(s, led, duration, count, effect)[i], px) == |px|
  {
    var e := WithAnimation(s, led, duration, count, effect)[i];
    if 1 <= count <= 253 {
      FiniteRun(i, e, px);
    } else {
      EndlessRun(i, e, px);
    }
  }
}
