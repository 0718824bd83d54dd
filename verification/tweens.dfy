/**
 * Elapsed-time tweeners: the two eased transitions a ring runs while it
 * materialises. A tweener keeps its range, its duration and the time spent
 * so far; `Update` advances it and yields the eased value until the
 * duration is used up, and nothing from then on.
 */
module Tweens {
  import opened Options

  /** The two quadratic curves the rings use. */
  datatype Easing = QuadIn | QuadOut

  /** Eased progress for linear progress `p`; both curves fix 0 and 1. */
  function Ease(e: Easing, p: real): (q: real)
    requires 0.0 <= p <= 1.0
    ensures p == 0.0 ==> q == 0.0
    ensures p == 1.0 ==> q == 1.0
  {
    match e
    case QuadIn => p * p
    case QuadOut => p * (2.0 - p)
  }

  /** A transition from `from` to `to` lasting `duration`, `elapsed` time in. */
  datatype Tweener = Tweener(easing: Easing, from: real, to: real, duration: real, elapsed: real)

  /** The whole duration has been consumed. */
  predicate Finished(t: Tweener) {
    t.elapsed >= t.duration
  }

  /** Fraction of the duration consumed, clamped to [0, 1]. */
  function Progress(t: Tweener): (p: real)
    ensures 0.0 <= p <= 1.0
    ensures p == 1.0 <==> Finished(t)
    ensures p == 0.0 <==> !Finished(t) && t.elapsed <= 0.0
  {
    if Finished(t) then 1.0
    else if t.elapsed <= 0.0 then 0.0
    else t.elapsed / t.duration
  }

  /** The eased value at the current elapsed time: `from` before any time has passed, `to` once finished. */
  function Value(t: Tweener): (v: real)
    ensures Finished(t) ==> v == t.to
    ensures !Finished(t) && t.elapsed <= 0.0 ==> v == t.from
  {
    t.from + (t.to - t.from) * Ease(t.easing, Progress(t))
  }

  /** A tweener after an update, and what the update yielded. */
  datatype Updated = Updated(tweener: Tweener, value: Option<real>)

  /**
   * Advances `t` by `dt`. An unfinished tweener moves on and yields its new
   * eased value; a finished one yields nothing and stays as it is.
   */
  function Update(t: Tweener, dt: real): (u: Updated)
    ensures u.value.None? <==> Finished(t)
    ensures u.value.None? ==> u.tweener == t
    ensures u.value.Some? ==> u.tweener == t.(elapsed := t.elapsed + dt)
    ensures u.value.Some? && Finished(u.tweener) ==> u.value.value == t.to
  {
    if Finished(t) then Updated(t, None)
    else
      var t' := t.(elapsed := t.elapsed + dt);
      Updated(t', Some(Value(t')))
  }

  /**
   * Once an update yields nothing, every later update yields nothing: a
   * finished tweener never comes back.
   */
  lemma NoneIsFinal(t: Tweener, dt: real, dt': real)
    requires Update(t, dt).value.None?
    ensures Update(Update(t, dt).tweener, dt').value.None?
  {
  }

  /**
   * The update that uses up the remaining duration yields exactly the end
   * of the range, and the update after it yields nothing.
   */
  lemma LastValueIsEnd(t: Tweener, dt: real, dt': real)
    requires !Finished(t)
    requires dt >= t.duration - t.elapsed
    ensures Update(t, dt).value == Some(t.to)
    ensures Update(Update(t, dt).tweener, dt').value.None?
  {
  }
}
