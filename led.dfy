/**
 * The status-indicator engine of RGBLed.cpp: one animation record per pixel
 * (`animationState[RGB_LED_COUNT]`), the commands that configure, light and
 * clear those records, the recompute pass of LedRGBAnimate that advances each
 * record's effect phase, and the per-tick blink and fade callbacks that the
 * animation scheduler invokes.
 *
 * The pixel bus is the `pixels` field (what GetPixelColor reads back); the
 * animation scheduler is seen only through the ghost `log` of calls made to
 * it and to the bus.
 */
module Led {
  import opened Basics

  /** RGB_LED_COUNT */
  const N: nat := 2

  // Hues, in degrees, of the named colours of RGBLed.h
  const COLOR_RED: u16 := 0
  const COLOR_ORANGE: u16 := 30
  const COLOR_ORANGE_YELLOW: u16 := 45
  const COLOR_YELLOW: u16 := 60
  const COLOR_YELLOW_GREEN: u16 := 90
  const COLOR_GREEN: u16 := 120
  const COLOR_GREEN_CYAN: u16 := 165
  const COLOR_CYAN: u16 := 180
  const COLOR_CYAN_BLUE: u16 := 210
  const COLOR_BLUE: u16 := 240
  const COLOR_BLUE_MAGENTA: u16 := 275
  const COLOR_MAGENTA: u16 := 300
  const COLOR_PINK: u16 := 350

  /** RgbEffectState_e */
  datatype Effect = AnimNone | FadeIn | FadeOut | BlinkOn | BlinkOff

  /**
   * Colours are opaque: the HSL colour built from a hue and the global
   * luminosity, black, and a blend the fade callback produces part-way
   * through a leg.
   */
  datatype Colour =
    | Black
    | Hsl(hue: int, luminosity: int)
    | Blend(from: Colour, to: Colour, progress: real)

  /** MyAnimationState: one record per pixel. */
  datatype AnimState = AnimState(
    starting: Colour,   // RgbStartingColor
    ending: Colour,     // RgbEndingColor
    rest: Colour,       // RgbNoEffectColor
    effect: Effect,     // RgbEffectState
    time: u16,          // AnimTime, the duration of one leg in ms
    count: u8)          // AnimCount, biased remaining-leg counter

  /** The zero-initialised record of the global array. */
  const Blank := AnimState(Black, Black, Black, AnimNone, 0, 0)

  /** Which update callback an animation leg was started with. */
  datatype Update = FadeUpdate | BlinkUpdate

  /** Calls made to the animation scheduler and to the pixel bus. */
  datatype Event =
    | StartAnimation(index: nat, duration: u16, update: Update)
    | StopAnimation(index: nat)
    | RestartAnimation(index: nat)
    | UpdateAnimations
    | SetPixel(index: nat, colour: Colour)
    | Show

  // ---------------------------------------------------------------------------
  // Position selection: external index 1..N names one pixel, 0 names all.

  /** `led - 1`, stored into the `uint8_t` loop bound. */
  function Position(led: u16): nat
    requires led != 0
  {
    (led - 1) % 0x100
  }

  /** The index the loop then reads and writes lies inside the array. */
  predicate ValidLed(led: u16)
  {
    led == 0 || Position(led) < N
  }

  predicate Selected(led: u16, i: int)
  {
    if led == 0 then 0 <= i < N else i == Position(led)
  }

  /** The first position the loops of LedRGBSetAnimation, LedRGBON and LedRGBOFF visit. */
  function Lo(led: u16): (lo: nat)
    requires ValidLed(led)
    ensures lo < N
  {
    if led == 0 then 0 else Position(led)
  }

  /** One past the last position those loops visit. */
  function Hi(led: u16): (hi: nat)
    requires ValidLed(led)
    ensures Lo(led) < hi <= N
    ensures forall i :: Selected(led, i) <==> Lo(led) <= i < hi
  {
    if led == 0 then N else Position(led) + 1
  }

  // ---------------------------------------------------------------------------
  // LedRGBSetAnimation

  /** The counter stored for a requested number of legs: biased by 2, in uint8_t. */
  function StoredCount(count: u8): (r: u8)
    ensures 1 <= count <= 253 ==> r == count + 2
    ensures r <= 1 <==> count == 0 || count >= 254
  {
    if count == 0 then 0 else (count + 2) % 0x100
  }

  /** The records after LedRGBSetAnimation(duration, led, count, effect). */
  function WithAnimation(s: seq<AnimState>, led: u16, duration: u16, count: u8, effect: Effect): (r: seq<AnimState>)
    requires ValidLed(led)
    ensures |r| == |s|
    ensures forall i :: 0 <= i < |s| && !Selected(led, i) ==> r[i] == s[i]
    ensures forall i :: 0 <= i < |s| && Selected(led, i) ==>
      r[i].effect == effect && r[i].time == duration && r[i].count == StoredCount(count)
    ensures forall i :: 0 <= i < |s| ==>
      r[i].starting == s[i].starting && r[i].ending == s[i].ending && r[i].rest == s[i].rest
  {
    AnimRange(s, Lo(led), Hi(led), duration, StoredCount(count), effect)
  }

  /** The records after LedRGBSetAnimation's loop has run over positions lo..hi-1. */
  function AnimRange(s: seq<AnimState>, lo: nat, hi: nat, duration: u16, stored: u8, effect: Effect): (r: seq<AnimState>)
    ensures |r| == |s|
    ensures forall i :: 0 <= i < |s| ==>
      r[i] == if lo <= i < hi then s[i].(effect := effect, count := stored, time := duration) else s[i]
  {
    seq(|s|, i requires 0 <= i < |s| =>
      if lo <= i < hi then s[i].(effect := effect, count := stored, time := duration) else s[i])
  }

  lemma AnimRangeStep(s: seq<AnimState>, lo: nat, i: nat, duration: u16, stored: u8, effect: Effect)
    requires lo <= i < |s|
    ensures AnimRange(s, lo, i + 1, duration, stored, effect) ==
      AnimRange(s, lo, i, duration, stored, effect)[i := s[i].(effect := effect, count := stored, time := duration)]
  {
  }

  // ---------------------------------------------------------------------------
  // LedRGBON and LedRGBOFF

  /** The records after LedRGBON with target colour `target`. */
  function WithRest(s: seq<AnimState>, led: u16, target: Colour, now: bool): (r: seq<AnimState>)
    requires ValidLed(led)
    ensures |r| == |s|
    ensures forall i :: 0 <= i < |s| && !Selected(led, i) ==> r[i] == s[i]
    ensures forall i :: 0 <= i < |s| && Selected(led, i) ==>
      r[i].rest == target && r[i].ending == (if now then Black else s[i].ending)
    ensures forall i :: 0 <= i < |s| ==>
      r[i].starting == s[i].starting && r[i].effect == s[i].effect &&
      r[i].time == s[i].time && r[i].count == s[i].count
  {
    RestRange(s, Lo(led), Hi(led), target, now)
  }

  /** One record after LedRGBON's loop body. */
  function Rested(e: AnimState, target: Colour, now: bool): AnimState
  {
    if now then e.(rest := target, ending := Black) else e.(rest := target)
  }

  /** The records after LedRGBON's loop has run over positions lo..hi-1. */
  function RestRange(s: seq<AnimState>, lo: nat, hi: nat, target: Colour, now: bool): (r: seq<AnimState>)
    ensures |r| == |s|
    ensures forall i :: 0 <= i < |s| ==> r[i] == if lo <= i < hi then Rested(s[i], target, now) else s[i]
  {
    seq(|s|, i requires 0 <= i < |s| => if lo <= i < hi then Rested(s[i], target, now) else s[i])
  }

  /** One more iteration of LedRGBON's loop. */
  lemma RestRangeStep(s: seq<AnimState>, lo: nat, i: nat, target: Colour, now: bool)
    requires lo <= i < |s|
    ensures RestRange(s, lo, i + 1, target, now) == RestRange(s, lo, i, target, now)[i := Rested(s[i], target, now)]
  {
  }

  /** The records after LedRGBOFF. */
  function Cleared(s: seq<AnimState>, led: u16): (r: seq<AnimState>)
    requires ValidLed(led)
    ensures |r| == |s|
    ensures forall i :: 0 <= i < |s| && !Selected(led, i) ==> r[i] == s[i]
    ensures forall i :: 0 <= i < |s| && Selected(led, i) ==>
      r[i].starting == Black && r[i].ending == Black && r[i].rest == Black && r[i].effect == AnimNone
    ensures forall i :: 0 <= i < |s| ==> r[i].time == s[i].time && r[i].count == s[i].count
  {
    ClearRange(s, Lo(led), Hi(led))
  }

  /** One record after LedRGBOFF's loop body. */
  function Darkened(e: AnimState): AnimState
  {
    e.(starting := Black, ending := Black, rest := Black, effect := AnimNone)
  }

  /** The records after LedRGBOFF's loop has run over positions lo..hi-1. */
  function ClearRange(s: seq<AnimState>, lo: nat, hi: nat): (r: seq<AnimState>)
    ensures |r| == |s|
    ensures forall i :: 0 <= i < |s| ==> r[i] == if lo <= i < hi then Darkened(s[i]) else s[i]
  {
    seq(|s|, i requires 0 <= i < |s| => if lo <= i < hi then Darkened(s[i]) else s[i])
  }

  lemma ClearRangeStep(s: seq<AnimState>, lo: nat, i: nat)
    requires lo <= i < |s|
    ensures ClearRange(s, lo, i + 1) == ClearRange(s, lo, i)[i := Darkened(s[i])]
  {
  }

  /** The pixel colours after the selected pixels are written with `c`. */
  function Painted(px: seq<Colour>, led: u16, c: Colour): (r: seq<Colour>)
    requires ValidLed(led)
    ensures |r| == |px|
    ensures forall i :: 0 <= i < |px| ==> r[i] == if Selected(led, i) then c else px[i]
  {
    PaintRange(px, Lo(led), Hi(led), c)
  }

  /** The pixel colours after positions lo..hi-1 are written with `c`. */
  function PaintRange(px: seq<Colour>, lo: nat, hi: nat, c: Colour): (r: seq<Colour>)
    ensures |r| == |px|
    ensures forall i :: 0 <= i < |px| ==> r[i] == if lo <= i < hi then c else px[i]
  {
    seq(|px|, i requires 0 <= i < |px| => if lo <= i < hi then c else px[i])
  }

  lemma PaintRangeStep(px: seq<Colour>, lo: nat, i: nat, c: Colour)
    requires lo <= i < |px|
    ensures PaintRange(px, lo, i + 1, c) == PaintRange(px, lo, i, c)[i := c]
  {
  }

  /** What a command does to the bus and scheduler at one selected position. */
  datatype Action = Light(colour: Colour, now: bool) | Dark

  function ActionEvents(a: Action, i: nat): seq<Event>
  {
    match a
    case Light(c, now) => if now then [StopAnimation(i), SetPixel(i, c), Show] else []
    case Dark => [StopAnimation(i), SetPixel(i, Black), Show]
  }

  /** The calls a command makes over positions 0..n-1, in loop order. */
  function SelectionEvents(led: u16, a: Action, n: nat): seq<Event>
  {
    if n == 0 then []
    else SelectionEvents(led, a, n - 1) + (if Selected(led, n - 1) then ActionEvents(a, n - 1) else [])
  }

  /** One more selected position of a command's loop. */
  lemma SelectionEventsStep(led: u16, a: Action, i: nat)
    requires Selected(led, i)
    ensures SelectionEvents(led, a, i + 1) == SelectionEvents(led, a, i) + ActionEvents(a, i)
  {
  }

  lemma {:induction false} SelectionEventsSkip(led: u16, a: Action, n: nat, m: nat)
    requires n <= m
    requires forall k :: n <= k < m ==> !Selected(led, k)
    ensures SelectionEvents(led, a, m) == SelectionEvents(led, a, n)
  {
    if n < m {
      SelectionEventsSkip(led, a, n, m - 1);
    }
  }

  /** A colour stored without `doitnow` reaches neither the bus nor the scheduler. */
  lemma {:induction false} StoredColourIsSilent(led: u16, c: Colour, n: nat)
    ensures SelectionEvents(led, Light(c, false), n) == []
  {
    if n > 0 {
      StoredColourIsSilent(led, c, n - 1);
    }
  }

  function Shows(log: seq<Event>): nat
  {
    if log == [] then 0 else Shows(log[..|log| - 1]) + (if log[|log| - 1] == Show then 1 else 0)
  }

  lemma {:induction false} ShowsAppend(a: seq<Event>, b: seq<Event>)
    ensures Shows(a + b) == Shows(a) + Shows(b)
  {
    if b == [] {
      assert a + b == a;
    } else {
      assert (a + b)[..|a + b| - 1] == a + b[..|b| - 1];
      assert (a + b)[|a + b| - 1] == b[|b| - 1];
      ShowsAppend(a, b[..|b| - 1]);
    }
  }

  function SelectedCount(led: u16, n: nat): nat
  {
    if n == 0 then 0 else SelectedCount(led, n - 1) + (if Selected(led, n - 1) then 1 else 0)
  }

  lemma {:induction false} DarkShowsOncePerPosition(led: u16, n: nat)
    ensures Shows(SelectionEvents(led, Dark, n)) == SelectedCount(led, n)
  {
    if n > 0 {
      DarkShowsOncePerPosition(led, n - 1);
      var step := if Selected(led, n - 1) then ActionEvents(Dark, n - 1) else [];
      ShowsAppend(SelectionEvents(led, Dark, n - 1), step);
      if Selected(led, n - 1) {
        assert step == [StopAnimation(n - 1), SetPixel(n - 1, Black)] + [Show];
        ShowsAppend([StopAnimation(n - 1), SetPixel(n - 1, Black)], [Show]);
        ShowsAppend([StopAnimation(n - 1)], [SetPixel(n - 1, Black)]);
        ShowsAppend([], [StopAnimation(n - 1)]);
      }
    }
  }

  /** LedRGBOFF flushes the display once per selected pixel: N times for 0, once otherwise. */
  lemma OffShowCount(led: u16)
    requires ValidLed(led)
    ensures Shows(SelectionEvents(led, Dark, N)) == if led == 0 then N else 1
  {
    DarkShowsOncePerPosition(led, N);
    assert SelectedCount(led, 1) == if Selected(led, 0) then 1 else 0;
  }

  /**
   * `LedRGBON(hue, true)` binds `true` to the index (1) and leaves `doitnow`
   * false: only pixel 0's rest colour changes, and nothing is lit.
   */
  lemma IndexOneRestOnly(s: seq<AnimState>, c: Colour)
    requires |s| == N
    ensures WithRest(s, 1, c, false) == s[0 := s[0].(rest := c)]
    ensures SelectionEvents(1, Light(c, false), N) == []
  {
    StoredColourIsSilent(1, c, N);
  }

  // ---------------------------------------------------------------------------
  // LedRGBAnimate: the recompute pass

  /** The phase that follows a leg of `e`. */
  function NextEffect(e: Effect): (r: Effect)
    ensures r == AnimNone <==> e == AnimNone
  {
    match e
    case AnimNone => AnimNone
    case FadeIn => FadeOut
    case FadeOut => FadeIn
    case BlinkOn => BlinkOff
    case BlinkOff => BlinkOn
  }

  function UpdateFor(e: Effect): Update
  {
    if e == BlinkOn || e == BlinkOff then BlinkUpdate else FadeUpdate
  }

  /** One record's share of a recompute pass. */
  datatype Pass = Pass(entry: AnimState, events: seq<Event>, started: bool)

  /**
   * The recompute pass at position `i`, whose pixel currently shows `pixel`.
   * A stored count of 2 is the last one: it drops to 1 and stops the effect.
   */
  function Recompute(i: nat, e: AnimState, pixel: Colour): (p: Pass)
    ensures p.entry.starting == pixel && p.entry.rest == e.rest
    ensures p.entry.count == if e.count > 1 then e.count - 1 else e.count
    ensures e.count == 2 ==> p.entry.effect == AnimNone && p.entry.time == 0
    ensures e.count != 2 ==> p.entry.effect == NextEffect(e.effect) && p.entry.time == e.time
    ensures p.entry.ending ==
      if e.count != 2 && e.effect == FadeIn then e.rest
      else if e.count != 2 && e.effect == FadeOut then Black
      else e.ending
    ensures p.started <==> e.count != 2 && e.effect != AnimNone && e.time != 0
    ensures p.events ==
      (if e.count == 2 then [StopAnimation(i)] else []) +
      (if p.started then [StartAnimation(i, e.time, UpdateFor(e.effect))] else [])
  {
    var e1 := e.(starting := pixel);
    var last := e1.count > 1 && e1.count - 1 == 1;
    var e2 :=
      if e1.count <= 1 then e1
      else if last then e1.(count := 1, effect := AnimNone, time := 0)
      else e1.(count := e1.count - 1);
    var stop := if last then [StopAnimation(i)] else [];
    var restart := !last && e2.time != 0;
    var start := if restart then [StartAnimation(i, e2.time, UpdateFor(e2.effect))] else [];
    match e2.effect
    case AnimNone => Pass(e2, stop, false)
    case FadeIn => Pass(e2.(ending := e2.rest, effect := FadeOut), stop + start, restart)
    case FadeOut => Pass(e2.(ending := Black, effect := FadeIn), stop + start, restart)
    case BlinkOn => Pass(e2.(effect := BlinkOff), stop + start, restart)
    case BlinkOff => Pass(e2.(effect := BlinkOn), stop + start, restart)
  }

  /** All records after a recompute pass. */
  function Recomputed(s: seq<AnimState>, px: seq<Colour>): (r: seq<AnimState>)
    requires |px| >= |s|
  {
    RecomputedUpTo(s, px, |s|)
  }

  /** The records once the pass has reached position n: 0..n-1 recomputed, the rest as they were. */
  function RecomputedUpTo(s: seq<AnimState>, px: seq<Colour>, n: nat): (r: seq<AnimState>)
    requires |px| >= |s|
    ensures |r| == |s|
  {
    seq(|s|, i requires 0 <= i < |s| => if i < n then Recompute(i, s[i], px[i]).entry else s[i])
  }

  lemma RecomputedStep(s: seq<AnimState>, px: seq<Colour>, i: nat)
    requires i < |s| <= |px|
    ensures RecomputedUpTo(s, px, i + 1) == RecomputedUpTo(s, px, i)[i := Recompute(i, s[i], px[i]).entry]
  {
  }

  /** The calls a recompute pass makes for positions 0..n-1. */
  function PassEvents(s: seq<AnimState>, px: seq<Colour>, n: nat): seq<Event>
    requires n <= |s| <= |px|
  {
    if n == 0 then [] else PassEvents(s, px, n - 1) + Recompute(n - 1, s[n - 1], px[n - 1]).events
  }


  /**
   * The body of LedRGBAnimate's loop for position `i`: the record is worked on
   * in `e`, the calls to the scheduler collected in `calls`.
   */
  method AdvanceRecord(i: nat, record: AnimState, pixel: Colour) returns (e: AnimState, calls: seq<Event>)
    ensures e == Recompute(i, record, pixel).entry
    ensures calls == Recompute(i, record, pixel).events
  {
    e := record;
    calls := [];
    var restart := true;
    e := e.(starting := pixel);
    if e.count > 1 {
      e := e.(count := e.count - 1);
      if e.count == 1 {
        e := e.(effect := AnimNone, time := 0);
        calls := calls + [StopAnimation(i)];
        restart := false;
      }
    }
    var effect := e.effect;
    if e.time == 0 {
      restart := false;
    }
    if effect == FadeIn {
      e := e.(ending := e.rest, effect := FadeOut);
      if restart {
        calls := calls + [StartAnimation(i, e.time, FadeUpdate)];
      }
    } else if effect == FadeOut {
      e := e.(ending := Black, effect := FadeIn);
      if restart {
        calls := calls + [StartAnimation(i, e.time, FadeUpdate)];
      }
    } else if effect == BlinkOn {
      e := e.(effect := BlinkOff);
      if restart {
        calls := calls + [StartAnimation(i, e.time, BlinkUpdate)];
      }
    } else if effect == BlinkOff {
      e := e.(effect := BlinkOn);
      if restart {
        calls := calls + [StartAnimation(i, e.time, BlinkUpdate)];
      }
    }
  }

  // ---------------------------------------------------------------------------
  // The per-tick callbacks

  /** LedRGBBlinkAnimUpdate's colour: the rest colour for the first quarter of a leg, black after. */
  function BlinkColour(rest: Colour, progress: real): Colour
  {
    if progress < 0.25 then rest else Black
  }

  /**
   * The easing LedRGBFadeAnimUpdate applies: NeoEase::QuadraticOut while the
   * record's effect is FadeIn, NeoEase::QuadraticIn while it is FadeOut.
   */
  function Eased(effect: Effect, p: real): (q: real)
    ensures 0.0 <= p <= 1.0 ==> 0.0 <= q <= 1.0
    ensures p == 0.0 ==> q == 0.0
    ensures p == 1.0 ==> q == 1.0
  {
    if effect == FadeIn then
      assert 0.0 <= p <= 1.0 ==> 0.0 <= p * (2.0 - p) <= 1.0 by {
        if 0.0 <= p <= 1.0 {
          assert 1.0 - p * (2.0 - p) == (1.0 - p) * (1.0 - p);
        }
      }
      -p * (p - 2.0)
    else if effect == FadeOut then
      assert 0.0 <= p <= 1.0 ==> p * p <= 1.0 by {
        if 0.0 <= p <= 1.0 {
          assert p * p <= p * 1.0;
        }
      }
      p * p
    else p
  }

  /**
   * LinearBlend: the left colour at 0, the right colour at 1, and a colour
   * blended with itself is that colour; any other blend is opaque.
   */
  function Mix(a: Colour, b: Colour, q: real): (c: Colour)
    ensures q == 0.0 || a == b ==> c == a
    ensures q == 1.0 ==> c == b
  {
    if q == 0.0 || a == b then a else if q == 1.0 then b else Blend(a, b, q)
  }

  /** The colour LedRGBFadeAnimUpdate writes for record `e` at `progress`. */
  function FadeColour(e: AnimState, progress: real): (c: Colour)
    ensures progress == 0.0 ==> c == e.starting
    ensures progress == 1.0 ==> c == e.ending
  {
    Mix(e.starting, e.ending, Eased(e.effect, progress))
  }

  // ---------------------------------------------------------------------------
  // The engine: the global array, the pixel bus and the global luminosity

  class Engine {
    /** animationState[RGB_LED_COUNT] */
    const anim: array<AnimState>
    /** What the pixel bus holds for each pixel. */
    var pixels: seq<Colour>
    /** rgb_luminosity, in percent */
    var luminosity: u8
    /** Calls made to the scheduler and the bus, oldest first. */
    ghost var log: seq<Event>

    ghost predicate Valid()
      reads this
    {
      anim.Length == N && |pixels| == N
    }

    constructor ()
      ensures Valid() && fresh(anim)
      ensures forall i :: 0 <= i < N ==> anim[i] == Blank && pixels[i] == Black
      ensures luminosity == 20 && log == []
    {
      anim := new AnimState[N](_ => Blank);
      pixels := seq(N, _ => Black);
      luminosity := 20;
      log := [];
    }

    /** The colour HslColor(hue / 360, 1, 0.005 * rgb_luminosity) stands for. */
    function Target(hue: u16): Colour
      reads this
    {
      Hsl(hue, luminosity)
    }

    /** LedRGBSetAnimation: effect, count and duration of the selected records; nothing is lit. */
    method SetAnimation(duration: u16, led: u16, count: u8, effect: Effect)
      requires Valid() && ValidLed(led)
      modifies anim
      ensures Valid()
      ensures anim[..] == WithAnimation(old(anim[..]), led, duration, count, effect)
    {
      var start, end := 0, N - 1;
      if led != 0 {
        start := Position(led);
        end := start;
      }
      var stored := count;
      if count != 0 {
        // counting stops at 1 and is decremented before use: bias by 2
        stored := (count + 2) % 0x100;
      }
      assert start == Lo(led) && end + 1 == Hi(led) && stored == StoredCount(count);
      for i := start to end + 1
        invariant anim[..] == AnimRange(old(anim[..]), start, i, duration, stored, effect)
      {
        AnimRangeStep(old(anim[..]), start, i, duration, stored, effect);
        anim[i] := anim[i].(effect := effect, count := stored, time := duration);
      }
    }

    /** The body of LedRGBON's loop at position `i`. */
    method Store(i: nat, target: Colour, doitnow: bool)
      requires Valid() && i < N
      modifies this, anim
      ensures Valid() && luminosity == old(luminosity)
      ensures anim[..] == old(anim[..])[i := Rested(old(anim[i]), target, doitnow)]
      ensures pixels == if doitnow then old(pixels)[i := target] else old(pixels)
      ensures log == old(log) + ActionEvents(Light(target, doitnow), i)
    {
      anim[i] := anim[i].(rest := target);
      if doitnow {
        log := log + [StopAnimation(i)];
        anim[i] := anim[i].(ending := Black);
        pixels := pixels[i := target];
        log := log + [SetPixel(i, target), Show];
      }
    }

    /** The body of LedRGBOFF's loop at position `i`. */
    method Darken(i: nat)
      requires Valid() && i < N
      modifies this, anim
      ensures Valid() && luminosity == old(luminosity)
      ensures anim[..] == old(anim[..])[i := Darkened(old(anim[i]))]
      ensures pixels == old(pixels)[i := Black]
      ensures log == old(log) + ActionEvents(Dark, i)
    {
      log := log + [StopAnimation(i)];
      anim[i] := anim[i].(starting := Black, ending := Black, rest := Black, effect := AnimNone);
      pixels := pixels[i := Black];
      log := log + [SetPixel(i, Black), Show];
    }

    /** LedRGBON: store the rest colour; with `doitnow`, also stop the animation and light it. */
    method On(hue: u16, led: u16, doitnow: bool)
      requires Valid() && ValidLed(led)
      modifies this, anim
      ensures Valid() && luminosity == old(luminosity)
      ensures anim[..] == WithRest(old(anim[..]), led, Target(hue), doitnow)
      ensures pixels == if doitnow then Painted(old(pixels), led, Target(hue)) else old(pixels)
      ensures log == old(log) + SelectionEvents(led, Light(Target(hue), doitnow), N)
    {
      var target := Target(hue);
      var start, end := 0, N - 1;
      if led != 0 {
        start := Position(led);
        end := start;
      }
      assert start == Lo(led) && end + 1 == Hi(led);
      ghost var act := Light(target, doitnow);
      SelectionEventsSkip(led, act, 0, start);
      for i := start to end + 1
        invariant Valid() && luminosity == old(luminosity)
        invariant anim[..] == RestRange(old(anim[..]), start, i, target, doitnow)
        invariant pixels == if doitnow then PaintRange(old(pixels), start, i, target) else old(pixels)
        invariant log == old(log) + SelectionEvents(led, act, i)
      {
        RestRangeStep(old(anim[..]), start, i, target, doitnow);
        SelectionEventsStep(led, act, i);
        PaintRangeStep(old(pixels), start, i, target);
        Store(i, target, doitnow);
      }
      SelectionEventsSkip(led, act, end + 1, N);
    }

    /** LedRGBOFF: stop, blacken and flush the selected pixels. */
    method Off(led: u16)
      requires Valid() && ValidLed(led)
      modifies this, anim
      ensures Valid() && luminosity == old(luminosity)
      ensures anim[..] == Cleared(old(anim[..]), led)
      ensures pixels == Painted(old(pixels), led, Black)
      ensures log == old(log) + SelectionEvents(led, Dark, N)
    {
      var start, end := 0, N - 1;
      if led != 0 {
        start := Position(led);
        end := start;
      }
      assert start == Lo(led) && end + 1 == Hi(led);
      SelectionEventsSkip(led, Dark, 0, start);
      for i := start to end + 1
        invariant Valid() && luminosity == old(luminosity)
        invariant anim[..] == ClearRange(old(anim[..]), start, i)
        invariant pixels == PaintRange(old(pixels), start, i, Black)
        invariant log == old(log) + SelectionEvents(led, Dark, i)
      {
        ClearRangeStep(old(anim[..]), start, i);
        SelectionEventsStep(led, Dark, i);
        PaintRangeStep(old(pixels), start, i, Black);
        Darken(i);
      }
      SelectionEventsSkip(led, Dark, end + 1, N);
    }

    /**
     * LedRGBAnimate. While a leg is running and no recompute is forced, it
     * only lets the scheduler advance and flushes; otherwise every record is
     * recomputed from the colour its pixel shows now.
     */
    method Animate(force: bool, animating: bool)
      requires Valid()
      modifies anim, this`log
      ensures Valid()
      ensures animating && !force ==> anim[..] == old(anim[..]) && log == old(log) + [UpdateAnimations, Show]
      ensures !animating || force ==>
        anim[..] == Recomputed(old(anim[..]), pixels) && log == old(log) + PassEvents(old(anim[..]), pixels, N)
    {
      if animating && !force {
        log := log + [UpdateAnimations, Show];
      } else {
        assert RecomputedUpTo(old(anim[..]), pixels, 0) == old(anim[..]);
        for i := 0 to N
          invariant anim[..] == RecomputedUpTo(old(anim[..]), pixels, i)
          invariant log == old(log) + PassEvents(old(anim[..]), pixels, i)
        {
          RecomputedStep(old(anim[..]), pixels, i);
          var e, calls := AdvanceRecord(i, anim[i], pixels[i]);
          anim[i] := e;
          log := log + calls;
        }
      }
    }

    /** LedRGBBlinkAnimUpdate: one scheduler tick of a blink leg at `index`. */
    method BlinkAnimUpdate(index: nat, progress: real, completed: bool)
      requires Valid() && index < N
      modifies this`pixels, this`log
      ensures Valid()
      ensures pixels == old(pixels)[index := BlinkColour(anim[index].rest, progress)]
      ensures log == old(log) + [SetPixel(index, Black)] +
        (if progress < 0.25 then [SetPixel(index, anim[index].rest)] else []) +
        (if completed then [RestartAnimation(index)] else [])
    {
      pixels := pixels[index := Black];
      log := log + [SetPixel(index, Black)];
      if progress < 0.25 {
        pixels := pixels[index := anim[index].rest];
        log := log + [SetPixel(index, anim[index].rest)];
      }
      if completed {
        log := log + [RestartAnimation(index)];
      }
    }

    /** LedRGBFadeAnimUpdate: one scheduler tick of a fade leg at `index`. */
    method FadeAnimUpdate(index: nat, progress: real)
      requires Valid() && index < N
      modifies this`pixels, this`log
      ensures Valid()
      ensures pixels == old(pixels)[index := FadeColour(anim[index], progress)]
      ensures log == old(log) + [SetPixel(index, FadeColour(anim[index], progress))]
    {
      var eased := progress;
      if anim[index].effect == FadeIn {
        eased := -progress * (progress - 2.0);
      }
      if anim[index].effect == FadeOut {
        eased := progress * progress;
      }
      var updated := Mix(anim[index].starting, anim[index].ending, eased);
      pixels := pixels[index := updated];
      log := log + [SetPixel(index, updated)];
    }
  }
}
