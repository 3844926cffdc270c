/** The deadzone store and the per-tick stick filter.

    The deadzone is kept in integer hundredths: the adjustment callbacks only
    ever step it by 0.01 and round to two decimals, so the value 0.10 is 10
    here and the cap 0.50 is 50. Stick readings are reals; the filter compares
    them with the deadzone in the same units (hundredths divided by 100). */
module Deadzone {
  import opened Actions

  const MinDeadzone: int := 0
  const MaxDeadzone: int := 50
  const DefaultDeadzone: int := 10
  /** Pointer displacement per unit of stick deflection per tick. */
  const MouseSpeed: int := 15

  predicate InRange(d: int)
  {
    MinDeadzone <= d <= MaxDeadzone
  }

  /** The "Increase (+0.01)" callback: one step up, unless that passes the cap. */
  function Increase(d: int): (r: int)
    ensures r == d + 1 || r == d
    ensures r == d + 1 <==> d + 1 <= MaxDeadzone
    ensures InRange(d) ==> InRange(r)
  {
    var stepped := d + 1;
    if stepped <= MaxDeadzone then stepped else d
  }

  /** The "Decrease (-0.01)" callback: one step down, unless that goes below 0. */
  function Decrease(d: int): (r: int)
    ensures r == d - 1 || r == d
    ensures r == d - 1 <==> d - 1 >= MinDeadzone
    ensures InRange(d) ==> InRange(r)
  {
    var stepped := d - 1;
    if stepped >= MinDeadzone then stepped else d
  }

  function Threshold(d: int): real
  {
    d as real / 100.0
  }

  function Abs(v: real): real
  {
    if v < 0.0 then -v else v
  }

  /** A stick reading after the deadzone: readings strictly inside the
      deadzone become 0, all others pass unchanged. */
  function Filter(v: real, d: int): (r: real)
    ensures r == 0.0 || r == v
    ensures Abs(v) >= Threshold(d) ==> r == v
    ensures r == 0.0 <==> Abs(v) < Threshold(d) || v == 0.0
  {
    if Abs(v) < Threshold(d) then 0.0 else v
  }

  /** The mouse move of one tick: at most one move, present exactly when a
      filtered component is nonzero, each delta the filtered reading times
      the mouse speed. */
  function AxisActions(x: real, y: real, d: int): (r: seq<Action>)
    ensures |r| <= 1
    ensures r == [] <==> Filter(x, d) == 0.0 && Filter(y, d) == 0.0
    ensures r != [] ==> r[0] == MouseMove(Filter(x, d) * MouseSpeed as real, Filter(y, d) * MouseSpeed as real)
  {
    var fx, fy := Filter(x, d), Filter(y, d);
    if fx == 0.0 && fy == 0.0 then [] else [MouseMove(fx * MouseSpeed as real, fy * MouseSpeed as real)]
  }

  /** A larger deadzone never lets through a reading a smaller one stops. */
  lemma FilterMonotone(v: real, smaller: int, larger: int)
    requires smaller <= larger
    ensures Filter(v, larger) != 0.0 ==> Filter(v, smaller) == v
  {
  }

  /** The boundary is closed: a reading exactly at the deadzone is kept. */
  lemma FilterKeepsBoundary(v: real, d: int)
    requires Abs(v) == Threshold(d)
    ensures Filter(v, d) == v
  {
  }

  /** A small reading inside the deadzone moves nothing. */
  lemma SmallReadingSuppressed()
    ensures AxisActions(0.05, 0.0, DefaultDeadzone) == []
  {
  }

  /** Readings (0.50, -0.20) at the default deadzone move by (7.5, -3.0). */
  lemma ReadingScaled()
    ensures AxisActions(0.5, -0.2, DefaultDeadzone) == [MouseMove(7.5, -3.0)]
  {
  }
}
