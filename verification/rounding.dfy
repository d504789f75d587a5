/**
  `hex_round` of fire_fight/hexgon.py over exact reals: each coordinate is
  rounded with Python's `round` (half to even), and the coordinate whose
  rounding moved it furthest is recomputed from the other two.
*/
module Rounding {
  import opened Hexes

  function AbsReal(x: real): real {
    if x < 0.0 then -x else x
  }

  /** Python's `int(round(x))`: the nearest integer, ties to the even one. */
  function RoundHalfEven(x: real): (n: int)
    ensures AbsReal(n as real - x) <= 0.5
    ensures AbsReal(n as real - x) == 0.5 ==> n % 2 == 0
  {
    var f := x.Floor;
    var frac := x - f as real;
    if frac < 0.5 then f
    else if frac > 0.5 then f + 1
    else if f % 2 == 0 then f
    else f + 1
  }

  /** The two properties of `RoundHalfEven`'s contract single out its result. */
  lemma RoundHalfEvenUnique(x: real, m: int)
    requires AbsReal(m as real - x) <= 0.5
    requires AbsReal(m as real - x) == 0.5 ==> m % 2 == 0
    ensures m == RoundHalfEven(x)
  {
    var n := RoundHalfEven(x);
    assert -1 <= m - n <= 1;
    assert m != n ==> AbsReal(m as real - x) == 0.5 && AbsReal(n as real - x) == 0.5;
  }

  /** Rounding leaves an integer where it is. */
  lemma RoundInteger(n: int)
    ensures RoundHalfEven(n as real) == n
  {
    RoundHalfEvenUnique(n as real, n);
  }

  /** `hex_round(q, r, s)`. Among the coordinates whose rounding delta is
      largest, the last one in the order q, r, s is recomputed from the other
      two, which keep their rounded values; the result is always a valid hex. */
  function HexRound(q: real, r: real, s: real): (h: Hex)
    ensures var qd, rd, sd := AbsReal(RoundHalfEven(q) as real - q),
                              AbsReal(RoundHalfEven(r) as real - r),
                              AbsReal(RoundHalfEven(s) as real - s);
      && (qd > rd && qd > sd ==> h.r == RoundHalfEven(r) && h.s == RoundHalfEven(s))
      && (rd >= qd && rd > sd ==> h.q == RoundHalfEven(q) && h.s == RoundHalfEven(s))
      && (sd >= qd && sd >= rd ==> h.q == RoundHalfEven(q) && h.r == RoundHalfEven(r))
  {
    var qi, ri, si := RoundHalfEven(q), RoundHalfEven(r), RoundHalfEven(s);
    var qDiff, rDiff, sDiff := AbsReal(qi as real - q), AbsReal(ri as real - r), AbsReal(si as real - s);
    if qDiff > rDiff && qDiff > sDiff then Cube(-ri - si, ri, si)
    else if rDiff > sDiff then Cube(qi, -qi - si, si)
    else Cube(qi, ri, -qi - ri)
  }

  /** An integer triple that is already a hex comes back unchanged. */
  lemma HexRoundOfHex(h: Hex)
    ensures HexRound(h.q as real, h.r as real, h.s as real) == h
  {
    RoundInteger(h.q);
    RoundInteger(h.r);
    RoundInteger(h.s);
  }

  /** The tie (0.5, 0.5, -1.0): both halves round to 0 with delta 0.5, so
      q's delta is not strictly the largest; r's exceeds s's (0), so r is
      recomputed as 1. */
  lemma HexRoundTie()
    ensures HexRound(0.5, 0.5, -1.0) == Cube(0, 1, -1)
  {
    assert RoundHalfEven(0.5) == 0 by { RoundHalfEvenUnique(0.5, 0); }
    assert RoundHalfEven(-1.0) == -1 by { RoundInteger(-1); }
  }

  /** For a point on the plane q + r + s == 0 every coordinate of the result
      lies within 1 of the input, and the two kept ones within 1/2. */
  lemma HexRoundNear(q: real, r: real, s: real)
    requires q + r + s == 0.0
    ensures AbsReal(HexRound(q, r, s).q as real - q) <= 1.0
    ensures AbsReal(HexRound(q, r, s).r as real - r) <= 1.0
    ensures AbsReal(HexRound(q, r, s).s as real - s) <= 1.0
  {
    var h := HexRound(q, r, s);
    var qi, ri, si := RoundHalfEven(q), RoundHalfEven(r), RoundHalfEven(s);
    assert h.q as real - q == -(h.r as real - r) - (h.s as real - s);
    assert h.r as real - r == -(h.q as real - q) - (h.s as real - s);
    assert h.s as real - s == -(h.q as real - q) - (h.r as real - r);
  }
}
