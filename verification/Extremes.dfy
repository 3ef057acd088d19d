/** Python's `min` and `max` over the reals. */
module Extremes {
  function Min(a: real, b: real): real { if a <= b then a else b }

  function Max(a: real, b: real): real { if a >= b then a else b }

  function Greatest(rs: seq<real>): (m: real)
    requires rs != []
    ensures m in rs && forall r :: r in rs ==> r <= m
  {
    if |rs| == 1 then rs[0]
    else
      assert rs == [rs[0]] + rs[1..];
      Max(rs[0], Greatest(rs[1..]))
  }

  function Least(rs: seq<real>): (m: real)
    requires rs != []
    ensures m in rs && forall r :: r in rs ==> m <= r
  {
    if |rs| == 1 then rs[0]
    else
      assert rs == [rs[0]] + rs[1..];
      Min(rs[0], Least(rs[1..]))
  }
}
