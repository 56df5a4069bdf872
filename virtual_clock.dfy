/** The virtual clock every process builds for itself: a position on the
    dataset's timeline derived from elapsed wall-clock time
    (`now_virtual_time`, and the same expression inline in
    `update_input_data`). The wall clock is an explicit argument. */
module VirtualClock {

  /** The virtual time at wall-clock time `wall` of a clock that read `origin`
      at wall-clock time `wall0` and runs `scale` times as fast. */
  function Now(origin: real, wall0: real, scale: real, wall: real): (r: real)
    ensures wall == wall0 ==> r == origin
    ensures 0.0 <= scale && wall0 <= wall ==> origin <= r
    ensures scale == 1.0 ==> r - origin == wall - wall0
  {
    var elapsed := wall - wall0;
    assert 0.0 <= scale && 0.0 <= elapsed ==> 0.0 <= scale * elapsed by {
      if 0.0 <= scale && 0.0 <= elapsed {
        NonNegProduct(scale, elapsed);
      }
    }
    origin + scale * elapsed
  }

  /** For a non-negative scale the clock never runs backwards, and it advances
      by exactly scale times the elapsed wall time. */
  lemma {:induction false} NowMonotone(origin: real, wall0: real, scale: real, w1: real, w2: real)
    requires 0.0 <= scale && w1 <= w2
    ensures Now(origin, wall0, scale, w1) <= Now(origin, wall0, scale, w2)
    ensures Now(origin, wall0, scale, w2) - Now(origin, wall0, scale, w1) == scale * (w2 - w1)
  {
    assert scale * (w2 - wall0) - scale * (w1 - wall0) == scale * (w2 - w1);
    NonNegProduct(scale, w2 - w1);
  }

  lemma NonNegProduct(a: real, b: real)
    requires 0.0 <= a && 0.0 <= b
    ensures 0.0 <= a * b
  {
  }
}
