/**
  The `Hex` cube-coordinate value type of fire_fight/hexgon.py.

  A `Cube` is any integer triple; a `Hex` is a triple that passed the
  constructor's assertion q + r + s == 0. Operations of the source that can
  trip that assertion return an `Option<Hex>`, `None` standing for the
  AssertionError. The arithmetic operators are modelled twice: `Add`/`Sub`
  as written (the third component combines with the other operand's r), and
  `Plus`/`Minus` component-wise, the evidently intended behaviour on which
  the distance laws and `Neighbor` rest.
*/
module Hexes {
  import opened Wrappers

  /** A raw coordinate triple, before the constructor's check. */
  datatype Cube = Cube(q: int, r: int, s: int)

  /** A constructed hex: a triple whose coordinates sum to zero. */
  type Hex = c: Cube | c.q + c.r + c.s == 0 witness Cube(0, 0, 0)

  const Origin: Hex := Cube(0, 0, 0)

  function Abs(x: int): nat {
    if x < 0 then -x else x
  }

  function Max3(a: int, b: int, c: int): int {
    if a >= b && a >= c then a else if b >= c then b else c
  }

  /** `Hex(q, r, s)`: the triple is accepted exactly when it sums to zero. */
  function MkHex(c: Cube): (h: Option<Hex>)
    ensures h.Some? <==> c.q + c.r + c.s == 0
    ensures h.Some? ==> h.value == c
  {
    if c.q + c.r + c.s == 0 then Some(c) else None
  }

  // ---------------------------------------------------------------------
  // The six directions

  /** HEX_DIRECTION, in the source's order. */
  const HexDirection: seq<Hex> :=
    [Cube(1, 0, -1), Cube(1, -1, 0), Cube(0, -1, 1),
     Cube(-1, 0, 1), Cube(-1, 1, 0), Cube(0, 1, -1)]

  /** The direction table holds six distinct unit steps, and no entry has
      r == s. */
  lemma HexDirectionFacts()
    ensures |HexDirection| == 6
    ensures forall i :: 0 <= i < 6 ==> Length(HexDirection[i]) == 1
    ensures forall i, j :: 0 <= i < j < 6 ==> HexDirection[i] != HexDirection[j]
    ensures forall i :: 0 <= i < 6 ==> HexDirection[i].r != HexDirection[i].s
  {
    var ds := HexDirection;
    forall i | 0 <= i < 6
      ensures Length(ds[i]) == 1
    {
      assert Abs(ds[i].q) + Abs(ds[i].r) + Abs(ds[i].s) == 2;
    }
  }

  /** Direction i + 3 (mod 6) undoes direction i. */
  lemma OppositeDirections(i: int)
    requires 0 <= i < 6
    ensures Plus(HexDirection[i], HexDirection[(i + 3) % 6]) == Origin
  {
    var d, e := HexDirection[i], HexDirection[(i + 3) % 6];
    assert e.q == -d.q && e.r == -d.r && e.s == -d.s;
  }

  // ---------------------------------------------------------------------
  // Length and scaling

  /** `length()`: half the sum of the absolute coordinates, which for a
      valid hex is even, so the division is exact and equals the largest
      absolute coordinate. */
  function Length(h: Hex): (n: nat)
    ensures 2 * n == Abs(h.q) + Abs(h.r) + Abs(h.s)
    ensures n == 0 <==> h == Origin
  {
    (Abs(h.q) + Abs(h.r) + Abs(h.s)) / 2
  }

  /** The length is the largest absolute coordinate. */
  lemma LengthIsMaxAbs(h: Hex)
    ensures Length(h) == Max3(Abs(h.q), Abs(h.r), Abs(h.s))
    ensures Abs(h.q) <= Length(h) && Abs(h.r) <= Length(h) && Abs(h.s) <= Length(h)
  {
  }

  lemma AbsTriangle(x: int, y: int)
    ensures Abs(x + y) <= Abs(x) + Abs(y)
  {
  }

  /** Component-wise multiplication by an integer; never breaks the invariant. */
  function Scaled(h: Hex, k: int): (m: Hex)
    ensures Length(m) == Abs(k) * Length(h)
  {
    ScaledLength(h, k);
    var m: Hex := Cube(h.q * k, h.r * k, h.s * k);
    assert 2 * Length(m) == Abs(k) * (2 * Length(h));
    Halve(Abs(k), Length(h), Length(m));
    m
  }

  lemma ScaledLength(h: Hex, k: int)
    ensures h.q * k + h.r * k + h.s * k == 0
    ensures Abs(h.q * k) + Abs(h.r * k) + Abs(h.s * k) == Abs(k) * (Abs(h.q) + Abs(h.r) + Abs(h.s))
  {
    assert h.q * k + h.r * k + h.s * k == 0 by {
      Distribute(h.q, h.r, h.s, k);
    }
    assert Abs(h.q * k) == Abs(h.q) * Abs(k) by {
      AbsMul(h.q, k);
    }
    assert Abs(h.r * k) == Abs(h.r) * Abs(k) by {
      AbsMul(h.r, k);
    }
    assert Abs(h.s * k) == Abs(h.s) * Abs(k) by {
      AbsMul(h.s, k);
    }
    SumOfProducts(Abs(h.q * k), Abs(h.r * k), Abs(h.s * k), Abs(h.q), Abs(h.r), Abs(h.s), Abs(k));
  }

  lemma SumOfProducts(x: int, y: int, z: int, a: int, b: int, c: int, k: int)
    requires x == a * k && y == b * k && z == c * k
    ensures x + y + z == k * (a + b + c)
  {
    Distribute(a, b, c, k);
  }

  lemma Halve(k: nat, n: nat, m: nat)
    requires 2 * m == k * (2 * n)
    ensures m == k * n
  {
  }

  lemma Distribute(a: int, b: int, c: int, k: int)
    ensures a * k + b * k + c * k == (a + b + c) * k == k * (a + b + c)
  {
  }

  lemma AbsMul(a: int, b: int)
    ensures Abs(a * b) == Abs(a) * Abs(b)
  {
    if a < 0 && b < 0 {
      assert a * b == (-a) * (-b);
    } else if a < 0 {
      assert -(a * b) == (-a) * b;
    } else if b < 0 {
      assert -(a * b) == a * (-b);
    }
  }

  /** The right operand of `*`: Python accepts an int (a bool is one too)
      and the assertion rejects a float. */
  datatype Factor = IntFactor(n: int) | FloatFactor(x: real)

  /** `__mul__`: only an integer factor passes the isinstance assertion. */
  function Mul(h: Hex, factor: Factor): (m: Option<Hex>)
    ensures m.Some? <==> factor.IntFactor?
    ensures m.Some? ==> Length(m.value) == Abs(factor.n) * Length(h)
    ensures m.Some? ==> (m.value == Origin <==> factor.n == 0 || h == Origin)
  {
    match factor
    case FloatFactor(_) => None
    case IntFactor(k) =>
      ScaledOrigin(h, k);
      Some(Scaled(h, k))
  }

  lemma ScaledOrigin(h: Hex, k: int)
    ensures Scaled(h, k) == Origin <==> k == 0 || h == Origin
  {
    if k != 0 && h != Origin {
      assert Length(h) > 0;
      assert Abs(k) * Length(h) >= Length(h);
    }
  }

  // ---------------------------------------------------------------------
  // Arithmetic as written in the source

  /** The triple `__add__` hands to the constructor: the s-component adds other.r. */
  function AddAsWritten(a: Hex, b: Hex): Cube {
    Cube(a.q + b.q, a.r + b.r, a.s + b.r)
  }

  /** The triple `__sub__` hands to the constructor: the s-component subtracts other.r. */
  function SubAsWritten(a: Hex, b: Hex): Cube {
    Cube(a.q - b.q, a.r - b.r, a.s - b.r)
  }

  /** `a + b` as written: it raises unless b's r and s agree, and when it
      does not raise it is the component-wise sum. */
  function Add(a: Hex, b: Hex): (h: Option<Hex>)
    ensures h.Some? <==> b.r == b.s
    ensures h.Some? ==> h.value == Plus(a, b)
  {
    MkHex(AddAsWritten(a, b))
  }

  /** `a - b` as written: it raises unless b's r and s agree, and when it
      does not raise it is the component-wise difference. */
  function Sub(a: Hex, b: Hex): (h: Option<Hex>)
    ensures h.Some? <==> b.r == b.s
    ensures h.Some? ==> h.value == Minus(a, b)
  {
    MkHex(SubAsWritten(a, b))
  }

  /** `a.dist_to(other)` as written: `(other - a).length()`, which raises
      unless a's r and s agree; when it succeeds it is the hex distance. */
  function DistTo(a: Hex, other: Hex): (d: Option<nat>)
    ensures d.Some? <==> a.r == a.s
    ensures d.Some? ==> d.value == Distance(a, other)
  {
    match Sub(other, a)
    case Some(diff) => Some(Length(diff))
    case None => None
  }

  /** `get_neighbor(direction)` as written: the range assertion rejects any
      direction outside 0..5, so the wrap-around branch is dead, and the
      literal `+` then rejects every direction, none of which has r == s. */
  function GetNeighbor(h: Hex, direction: int): (n: Option<Hex>)
    ensures n == None
  {
    if !(0 <= direction < 6) then None
    else
      HexDirectionFacts();
      Add(h, HexDirection[direction % 6])
  }

  // ---------------------------------------------------------------------
  // Component-wise arithmetic (the evidently intended operators)

  /** Component-wise sum; its length is at most the sum of the lengths. */
  function Plus(a: Hex, b: Hex): (p: Hex)
    ensures Length(p) <= Length(a) + Length(b)
  {
    AbsTriangle(a.q, b.q);
    AbsTriangle(a.r, b.r);
    AbsTriangle(a.s, b.s);
    Cube(a.q + b.q, a.r + b.r, a.s + b.s)
  }

  /** Component-wise difference, undone by adding b back. */
  function Minus(a: Hex, b: Hex): (d: Hex)
    ensures Plus(d, b) == a
  {
    Cube(a.q - b.q, a.r - b.r, a.s - b.s)
  }

  /** Hex distance: the length of the component-wise difference. */
  function Distance(a: Hex, b: Hex): nat {
    Length(Minus(b, a))
  }

  /** `get_neighbor` with component-wise addition: defined on 0..5, one step away. */
  function Neighbor(h: Hex, direction: int): (n: Option<Hex>)
    ensures n.Some? <==> 0 <= direction < 6
    ensures n.Some? ==> Distance(h, n.value) == 1
  {
    if !(0 <= direction < 6) then None
    else
      var d := HexDirection[direction];
      HexDirectionFacts();
      assert Minus(Plus(h, d), h) == d;
      Some(Plus(h, d))
  }

  // ---------------------------------------------------------------------
  // Lemmas

  /** The literal `+` rejects the origin plus the first direction, which
      the component-wise sum accepts. */
  lemma AddRejectsUnitStep()
    ensures Add(Origin, HexDirection[0]) == None
  {
  }

  /** `a.dist_to(a)` raises for a = (1, 0, -1), although the distance is 0. */
  lemma DistToRejectsSelf()
    ensures DistTo(Cube(1, 0, -1), Cube(1, 0, -1)) == None
    ensures Distance(Cube(1, 0, -1), Cube(1, 0, -1)) == 0
  {
  }

  /** Where dist_to succeeds on a hex with itself it returns 0. */
  lemma DistToSelf(a: Hex)
    requires a.r == a.s
    ensures DistTo(a, a) == Some(0)
  {
    assert Minus(a, a) == Origin;
  }

  lemma DistanceIdentity(a: Hex, b: Hex)
    ensures Distance(a, b) == 0 <==> a == b
  {
    if Distance(a, b) == 0 {
      assert Minus(b, a) == Origin;
    }
  }

  lemma DistanceSymmetric(a: Hex, b: Hex)
    ensures Distance(a, b) == Distance(b, a)
  {
    assert Minus(a, b) == Scaled(Minus(b, a), -1);
  }

  lemma {:induction false} DistanceTriangle(a: Hex, b: Hex, c: Hex)
    ensures Distance(a, c) <= Distance(a, b) + Distance(b, c)
  {
    assert Minus(c, a) == Plus(Minus(c, b), Minus(b, a));
  }

  /** The six neighbours of a hex are pairwise distinct. */
  lemma NeighborsDistinct(h: Hex, i: int, j: int)
    requires 0 <= i < 6 && 0 <= j < 6 && i != j
    ensures Neighbor(h, i) != Neighbor(h, j)
  {
    HexDirectionFacts();
    var ds := HexDirection;
    assert Minus(Plus(h, ds[i]), h) == ds[i];
    assert Minus(Plus(h, ds[j]), h) == ds[j];
  }

  /** Stepping in direction i and then in the opposite direction returns. */
  lemma NeighborOpposite(h: Hex, i: int)
    requires 0 <= i < 6
    ensures Neighbor(h, i).Some?
    ensures Neighbor(Neighbor(h, i).value, (i + 3) % 6) == Some(h)
  {
    var d, e := HexDirection[i], HexDirection[(i + 3) % 6];
    var n := Plus(h, d);
    assert Neighbor(h, i) == Some(n);
    assert Neighbor(n, (i + 3) % 6) == Some(Plus(n, e));
    assert Plus(n, e) == h by {
      OppositeDirections(i);
      assert d.q + e.q == 0 && d.r + e.r == 0 && d.s + e.s == 0;
    }
  }

  /** A hex is one step away exactly when it is one of the six neighbours. */
  lemma DistanceOneIsNeighbor(h: Hex, n: Hex)
    ensures Distance(h, n) == 1 <==> exists d :: 0 <= d < 6 && Neighbor(h, d) == Some(n)
  {
    var u := Minus(n, h);
    if Distance(h, n) == 1 {
      LengthIsMaxAbs(u);
      HexDirectionFacts();
      var d := UnitDirection(u);
      assert Plus(h, u) == Plus(u, h) == n;
      assert Neighbor(h, d) == Some(n);
    }
  }

  /** The index of a length-1 hex in the direction table. */
  function UnitDirection(u: Hex): (d: int)
    requires Length(u) == 1
    ensures 0 <= d < 6 && HexDirection[d] == u
  {
    LengthIsMaxAbs(u);
    if u == Cube(1, 0, -1) then 0
    else if u == Cube(1, -1, 0) then 1
    else if u == Cube(0, -1, 1) then 2
    else if u == Cube(-1, 0, 1) then 3
    else if u == Cube(-1, 1, 0) then 4
    else 5
  }
}
