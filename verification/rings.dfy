/**
 * A ring: the circular line loop marking one boundary of a cell, and the
 * appearance state machine that animates it in. A ring starts `Rezzing`,
 * first sliding to its height and then growing to its radius, and settles
 * in `Idle`. `Derezzing` and `Derezzed` exist but nothing leads into them.
 */
module Rings {
  import opened Options
  import opened Tweens

  /** Length of each of the two materialise transitions. */
  const RezDuration: real := 0.25
  /** Scale of the line loop when it is built, and where its growth starts. */
  const InitialScale: real := 0.02

  datatype State =
    | Rezzing(heightTween: Tweener, scaleTween: Tweener)
    | Idle
    | Derezzing
    | Derezzed

  /** A ring's state and the transform last given to its line loop (vertical offset and uniform scale). */
  datatype Ring = Ring(state: State, y: real, scale: real)

  /**
   * A new ring: rezzing, with an unstarted ease-in slide from 0 to `height`
   * and an unstarted ease-out growth from the initial scale to `radius`,
   * each lasting `RezDuration`; its line loop sits at the origin at the
   * initial scale.
   */
  function NewFromPoint(height: real, radius: real): (r: Ring)
    ensures r.state.Rezzing?
    ensures r.state.heightTween == Tweener(QuadIn, 0.0, height, RezDuration, 0.0)
    ensures r.state.scaleTween == Tweener(QuadOut, InitialScale, radius, RezDuration, 0.0)
    ensures !Finished(r.state.heightTween) && !Finished(r.state.scaleTween)
    ensures r.y == 0.0 && r.scale == InitialScale
  {
    Ring(
      Rezzing(Tweener(QuadIn, 0.0, height, RezDuration, 0.0),
              Tweener(QuadOut, InitialScale, radius, RezDuration, 0.0)),
      0.0, InitialScale)
  }

  /**
   * One frame of `dt`. While the height transition runs, only it advances
   * and only the offset moves; once it has finished, only the scale
   * transition advances and only the scale changes; once both have
   * finished the ring becomes `Idle`. Every other state is left alone.
   * The state after the step is `Step(r, dt).state`.
   */
  function Step(r: Ring, dt: real): (r': Ring)
    ensures !r.state.Rezzing? ==> r' == r
    ensures r.state.Rezzing? && !Finished(r.state.heightTween) ==>
      && r'.state.Rezzing?
      && r'.state.heightTween == r.state.heightTween.(elapsed := r.state.heightTween.elapsed + dt)
      && r'.state.scaleTween == r.state.scaleTween
      && r'.y == Value(r'.state.heightTween)
      && r'.scale == r.scale
    ensures r.state.Rezzing? && Finished(r.state.heightTween) && !Finished(r.state.scaleTween) ==>
      && r'.state.Rezzing?
      && r'.state.heightTween == r.state.heightTween
      && r'.state.scaleTween == r.state.scaleTween.(elapsed := r.state.scaleTween.elapsed + dt)
      && r'.y == r.y
      && r'.scale == Value(r'.state.scaleTween)
    ensures r'.state.Idle? <==>
      r.state.Idle? || (r.state.Rezzing? && Finished(r.state.heightTween) && Finished(r.state.scaleTween))
    ensures r'.state.Idle? ==> r'.y == r.y && r'.scale == r.scale
  {
    match r.state
    case Rezzing(h, s) =>
      var hu := Update(h, dt);
      if hu.value.Some? then
        Ring(Rezzing(hu.tweener, s), hu.value.value, r.scale)
      else
        var su := Update(s, dt);
        if su.value.Some? then
          Ring(Rezzing(h, su.tweener), r.y, su.value.value)
        else
          r.(state := Idle)
    case _ => r
  }

  /** The ring after one step per frame length in `dts`, in order. */
  function Run(r: Ring, dts: seq<real>): Ring
    decreases |dts|
  {
    if |dts| == 0 then r else Run(Step(r, dts[0]), dts[1..])
  }

  /**
   * The shapes a ring can take after it is built: rezzing with the scale
   * transition untouched until the height transition has finished, or idle.
   */
  predicate Rezzes(r: Ring) {
    match r.state
    case Rezzing(h, s) => s.elapsed != 0.0 ==> Finished(h)
    case Idle => true
    case _ => false
  }

  /** Stepping keeps a ring within the shapes of `Rezzes`, whatever the frame lengths. */
  lemma {:induction false} RunKeepsRezzes(r: Ring, dts: seq<real>)
    requires Rezzes(r)
    ensures Rezzes(Run(r, dts))
    decreases |dts|
  {
    if |dts| > 0 {
      RunKeepsRezzes(Step(r, dts[0]), dts[1..]);
    }
  }

  /**
   * From a new ring only `Rezzing` and `Idle` are reachable, and while
   * rezzing the scale transition has not moved unless the height one is done.
   */
  lemma OnlyRezzingOrIdleReachable(height: real, radius: real, dts: seq<real>)
    ensures Run(NewFromPoint(height, radius), dts).state.Rezzing?
         || Run(NewFromPoint(height, radius), dts).state.Idle?
    ensures Run(NewFromPoint(height, radius), dts).state.Rezzing? ==>
      var st := Run(NewFromPoint(height, radius), dts).state;
      st.scaleTween.elapsed != 0.0 ==> Finished(st.heightTween)
  {
    RunKeepsRezzes(NewFromPoint(height, radius), dts);
  }

  /** `Idle`, `Derezzing` and `Derezzed` are fixed points of every run. */
  lemma {:induction false} SettledStaysPut(r: Ring, dts: seq<real>)
    requires !r.state.Rezzing?
    ensures Run(r, dts) == r
    decreases |dts|
  {
    if |dts| > 0 {
      SettledStaysPut(Step(r, dts[0]), dts[1..]);
    }
  }

  /**
   * A new ring ticked with frames of at least `RezDuration` is still rezzing
   * after two frames (height, then scale) and idle from the third on, with
   * its line loop at `height` and scaled to `radius`.
   */
  lemma IdleFromThirdLongFrame(height: real, radius: real, dts: seq<real>)
    requires |dts| >= 3
    requires forall i :: 0 <= i < |dts| ==> dts[i] >= RezDuration
    ensures Run(NewFromPoint(height, radius), dts[..2]).state.Rezzing?
    ensures Run(NewFromPoint(height, radius), dts).state.Idle?
    ensures Run(NewFromPoint(height, radius), dts).y == height
    ensures Run(NewFromPoint(height, radius), dts).scale == radius
  {
    var r0 := NewFromPoint(height, radius);
    var r1 := Step(r0, dts[0]);
    var r2 := Step(r1, dts[1]);
    var r3 := Step(r2, dts[2]);
    var two := dts[..2];
    assert Run(r0, two) == Run(r1, two[1..]) == Run(r2, two[2..]);
    assert two[2..] == [];
    assert r3.state.Idle?;
    assert Run(r0, dts) == Run(r1, dts[1..]);
    assert Run(r1, dts[1..]) == Run(r2, dts[2..]) by { assert dts[1..][1..] == dts[2..]; }
    assert Run(r2, dts[2..]) == Run(r3, dts[3..]) by { assert dts[2..][1..] == dts[3..]; }
    SettledStaysPut(r3, dts[3..]);
  }

  /** With frames of exactly `RezDuration`, a new ring is idle after its third step and not before. */
  lemma IdleOnThirdQuarterFrame(height: real, radius: real)
    ensures !Step(NewFromPoint(height, radius), RezDuration).state.Idle?
    ensures !Step(Step(NewFromPoint(height, radius), RezDuration), RezDuration).state.Idle?
    ensures Step(Step(Step(NewFromPoint(height, radius), RezDuration), RezDuration), RezDuration).state.Idle?
  {
    var r0 := NewFromPoint(height, radius);
    var r1 := Step(r0, RezDuration);
    assert Finished(r1.state.heightTween) && !Finished(r1.state.scaleTween);
    var r2 := Step(r1, RezDuration);
    assert Finished(r2.state.heightTween) && Finished(r2.state.scaleTween);
  }
}
