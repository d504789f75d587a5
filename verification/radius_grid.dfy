/**
  The radius-bounded enumeration shared by fire_fight/main.py and
  fire_fight/main_cairo.py, and what each script does with the hovered hex:
  main.py outlines it thickly when it is in the list, main_cairo.py flags
  the one drawn hex equal to it.
*/
module RadiusGrid {
  import opened Wrappers
  import opened Hexes

  /** The radius both scripts use. */
  const ScriptRadius := 11

  /** Lexicographic order on (q, r), the order the nested loops visit. */
  predicate LexBefore(a: Hex, b: Hex) {
    a.q < b.q || (a.q == b.q && a.r < b.r)
  }

  /** Whether the loop keeps the hex at (q, r, -q - r). */
  predicate Kept(radius: int, q: int, r: int) {
    Length(Cube(q, r, -q - r)) <= radius
  }

  /** How many of r' in [-radius, r) the inner loop keeps for column q. */
  ghost function RowCount(radius: int, q: int, r: int): nat
    decreases r + radius
  {
    if r <= -radius then 0
    else RowCount(radius, q, r - 1) + (if Kept(radius, q, r - 1) then 1 else 0)
  }

  /** How many hexes the outer loop has kept before column q. */
  ghost function PrefixCount(radius: int, q: int): nat
    decreases q + radius
  {
    if q <= -radius then 0
    else PrefixCount(radius, q - 1) + RowCount(radius, q - 1, radius + 1)
  }

  /** The hexes within the radius that the loops reach before (q, r). */
  ghost predicate VisitedBefore(hexes: seq<Hex>, radius: int, q: int, r: int) {
    forall g: Hex {:trigger g in hexes} :: g in hexes <==> Length(g) <= radius && (g.q < q || (g.q == q && g.r < r))
  }

  /** Sorted strictly by `LexBefore`. */
  ghost predicate Ascending(hexes: seq<Hex>) {
    forall i, j :: 0 <= i < j < |hexes| ==> LexBefore(hexes[i], hexes[j])
  }

  /** Lines 25-31: for q and then r in -radius..radius, build Hex(q, r, -q - r)
      (which never fails) and keep it when its length is at most radius.
      The result holds exactly the hexes within the radius, each once, in
      (q, r) order, and has 3 * radius * (radius + 1) + 1 entries. */
  method HexesWithinRadius(radius: int) returns (hexes: seq<Hex>)
    ensures forall h: Hex :: h in hexes <==> Length(h) <= radius
    ensures forall i, j :: 0 <= i < j < |hexes| ==> LexBefore(hexes[i], hexes[j])
    ensures radius >= 0 ==> |hexes| == 3 * radius * (radius + 1) + 1
  {
    hexes := [];
    var q := -radius;
    while q < radius + 1
      invariant -radius <= q
      invariant radius >= 0 ==> q <= radius + 1
      invariant VisitedBefore(hexes, radius, q, -radius)
      invariant Ascending(hexes)
      invariant |hexes| == PrefixCount(radius, q)
    {
      hexes := ScanColumn(hexes, radius, q);
      ColumnDone(hexes, radius, q);
      q := q + 1;
    }
    AllVisited(hexes, radius, q);
    if radius >= 0 {
      PrefixCountTotal(radius);
    }
  }

  /** The inner loop (lines 26-31) for one q: appends, in r order, the
      hexes of column q that lie within the radius. */
  method ScanColumn(prefix: seq<Hex>, radius: int, q: int) returns (hexes: seq<Hex>)
    requires VisitedBefore(prefix, radius, q, -radius)
    requires Ascending(prefix)
    ensures VisitedBefore(hexes, radius, q, radius + 1)
    ensures Ascending(hexes)
    ensures |hexes| == |prefix| + RowCount(radius, q, radius + 1)
  {
    hexes := prefix;
    var r := -radius;
    while r < radius + 1
      invariant r == -radius || -radius < r <= radius + 1
      invariant VisitedBefore(hexes, radius, q, r)
      invariant Ascending(hexes)
      invariant |hexes| == |prefix| + RowCount(radius, q, r)
    {
      hexes := VisitCell(hexes, radius, q, r);
      RowCountStep(radius, q, r);
      r := r + 1;
    }
    if radius < 0 {
      NothingWithinNegative(hexes, radius, q, r);
      assert RowCount(radius, q, radius + 1) == 0 == RowCount(radius, q, r);
    }
  }

  /** One pass of the inner loop body: build Hex(q, r, -q - r), which never
      fails since its coordinates sum to zero, and append it when its length
      is at most radius. */
  method VisitCell(before: seq<Hex>, radius: int, q: int, r: int) returns (after: seq<Hex>)
    requires VisitedBefore(before, radius, q, r)
    requires Ascending(before)
    ensures VisitedBefore(after, radius, q, r + 1)
    ensures Ascending(after)
    ensures |after| == |before| + if Kept(radius, q, r) then 1 else 0
  {
    var made := MkHex(Cube(q, r, -q - r));
    assert made.Some?;
    var h := made.value;
    after := before;
    if Length(h) <= radius {
      after := before + [h];
    }
    VisitStep(before, after, radius, h);
  }

  lemma RowCountStep(radius: int, q: int, r: int)
    requires r >= -radius
    ensures RowCount(radius, q, r + 1) == RowCount(radius, q, r) + if Kept(radius, q, r) then 1 else 0
  {
  }

  /** A negative radius admits no hex at all. */
  lemma NothingWithinNegative(hexes: seq<Hex>, radius: int, q: int, r: int)
    requires radius < 0
    requires VisitedBefore(hexes, radius, q, r)
    ensures VisitedBefore(hexes, radius, q, radius + 1)
  {
  }

  /** One iteration of the inner loop keeps both invariants. */
  lemma VisitStep(before: seq<Hex>, after: seq<Hex>, radius: int, h: Hex)
    requires VisitedBefore(before, radius, h.q, h.r)
    requires Ascending(before)
    requires after == if Length(h) <= radius then before + [h] else before
    ensures VisitedBefore(after, radius, h.q, h.r + 1)
    ensures Ascending(after)
  {
    forall g: Hex
      ensures g in after <==> Length(g) <= radius && (g.q < h.q || (g.q == h.q && g.r < h.r + 1))
    {
      if g == h {
        assert g in after <==> Length(h) <= radius;
      } else {
        assert g in after <==> g in before;
      }
    }
    if Length(h) <= radius {
      forall i | 0 <= i < |before|
        ensures LexBefore(before[i], h)
      {
        assert before[i] in before;
      }
    }
  }

  /** After r has run past radius, column q is complete. */
  lemma ColumnDone(hexes: seq<Hex>, radius: int, q: int)
    requires VisitedBefore(hexes, radius, q, radius + 1)
    ensures VisitedBefore(hexes, radius, q + 1, -radius)
  {
    forall g: Hex
      ensures g in hexes <==> Length(g) <= radius && (g.q < q + 1 || (g.q == q + 1 && g.r < -radius))
    {
      LengthIsMaxAbs(g);
    }
  }

  /** After q has run past radius, every hex within it has been visited. */
  lemma AllVisited(hexes: seq<Hex>, radius: int, q: int)
    requires VisitedBefore(hexes, radius, q, -radius)
    requires q >= radius + 1
    ensures forall g: Hex :: g in hexes <==> Length(g) <= radius
  {
    forall g: Hex
      ensures g in hexes <==> Length(g) <= radius
    {
      LengthIsMaxAbs(g);
    }
  }

  /** Column q (|q| <= radius) keeps 2 * radius + 1 - |q| hexes. */
  lemma {:induction false} RowCountFull(radius: int, q: int)
    requires radius >= 0 && -radius <= q <= radius
    ensures RowCount(radius, q, radius + 1) == 2 * radius + 1 - Abs(q)
  {
    var lo := if q < 0 then -radius - q else -radius;
    var hi := if q < 0 then radius + 1 else radius - q + 1;
    RowCountPartial(radius, q, radius + 1, lo, hi);
  }

  lemma {:induction false} RowCountPartial(radius: int, q: int, r: int, lo: int, hi: int)
    requires radius >= 0 && -radius <= q <= radius
    requires lo == (if q < 0 then -radius - q else -radius)
    requires hi == (if q < 0 then radius + 1 else radius - q + 1)
    requires -radius <= r <= radius + 1
    ensures RowCount(radius, q, r) == (if r <= lo then 0 else if r >= hi then hi - lo else r - lo)
    decreases r + radius
  {
    if r > -radius {
      RowCountPartial(radius, q, r - 1, lo, hi);
      var h: Hex := Cube(q, r - 1, -q - (r - 1));
      LengthIsMaxAbs(h);
      assert Kept(radius, q, r - 1) <==> lo <= r - 1 < hi;
    }
  }

  /** The total: sum over columns of 2 * radius + 1 - |q|. */
  lemma PrefixCountTotal(radius: int)
    requires radius >= 0
    ensures PrefixCount(radius, radius + 1) == 3 * radius * (radius + 1) + 1
  {
    PrefixCountPositive(radius, radius + 1);
    var total := PrefixCount(radius, radius + 1);
    assert 2 * total == radius * (3 * radius + 1) + (radius + 1) * (4 * radius + 3 - (radius + 1));
    TotalStep(radius);
  }

  lemma TotalStep(radius: int)
    ensures radius * (3 * radius + 1) + (radius + 1) * (4 * radius + 3 - (radius + 1))
         == 2 * (3 * radius * (radius + 1) + 1)
  {
  }

  /** Closed form of the count over the columns q' < q <= 0. */
  lemma {:induction false} PrefixCountNegative(radius: int, q: int)
    requires radius >= 0 && -radius <= q <= 0
    ensures 2 * PrefixCount(radius, q) == (q + radius) * (3 * radius + 1 + q)
    decreases q + radius
  {
    if q > -radius {
      PrefixCountNegative(radius, q - 1);
      PrefixCountStep(radius, q);
      NegativeStep(radius, q, PrefixCount(radius, q - 1), PrefixCount(radius, q));
    }
  }

  /** Closed form of the count over the columns q' < q, for q >= 0. */
  lemma {:induction false} PrefixCountPositive(radius: int, q: int)
    requires radius >= 0 && 0 <= q <= radius + 1
    ensures 2 * PrefixCount(radius, q) == radius * (3 * radius + 1) + q * (4 * radius + 3 - q)
    decreases q
  {
    if q == 0 {
      PrefixCountNegative(radius, 0);
    } else {
      PrefixCountPositive(radius, q - 1);
      PrefixCountStep(radius, q);
      PositiveStep(radius, q, PrefixCount(radius, q - 1), PrefixCount(radius, q));
    }
  }

  /** One more column adds that column's full row count to the prefix. */
  lemma PrefixCountStep(radius: int, q: int)
    requires radius >= 0 && -radius < q <= radius + 1
    ensures PrefixCount(radius, q) == PrefixCount(radius, q - 1) + 2 * radius + 1 - Abs(q - 1)
  {
    RowCountFull(radius, q - 1);
  }

  lemma NegativeStep(radius: int, q: int, before: int, now: int)
    requires 2 * before == (q - 1 + radius) * (3 * radius + 1 + q - 1)
    requires now == before + 2 * radius + 1 - (1 - q)
    ensures 2 * now == (q + radius) * (3 * radius + 1 + q)
  {
  }

  lemma PositiveStep(radius: int, q: int, before: int, now: int)
    requires 2 * before == radius * (3 * radius + 1) + (q - 1) * (4 * radius + 3 - (q - 1))
    requires now == before + 2 * radius + 1 - (q - 1)
    ensures 2 * now == radius * (3 * radius + 1) + q * (4 * radius + 3 - q)
  {
  }

  /** fire_fight/main.py lines 66-75: the thick outline is drawn exactly when
      the hovered hex lies within the script's radius. */
  method ThickOutline(hover: Hex) returns (thick: bool)
    ensures thick <==> Length(hover) <= ScriptRadius
  {
    var hexes := HexesWithinRadius(ScriptRadius);
    thick := hover in hexes;
  }

  /** fire_fight/main_cairo.py lines 18-25 and 84-89: one highlight flag per
      drawn hex (397 of them), true for the hex equal to the hovered one;
      at most one flag is set, and one is exactly when the hovered hex lies
      within the radius. */
  method CairoHighlights(hover: Hex) returns (highlights: seq<bool>)
    ensures |highlights| == 397
    ensures forall i, j :: 0 <= i < |highlights| && 0 <= j < |highlights| && highlights[i] && highlights[j] ==> i == j
    ensures (exists i :: 0 <= i < |highlights| && highlights[i]) <==> Length(hover) <= ScriptRadius
  {
    var hexes := HexesWithinRadius(ScriptRadius);
    highlights := [];
    var k := 0;
    while k < |hexes|
      invariant 0 <= k <= |hexes|
      invariant |highlights| == k
      invariant forall i :: 0 <= i < k ==> (highlights[i] <==> hexes[i] == hover)
    {
      highlights := highlights + [hexes[k] == hover];
      k := k + 1;
    }
    AscendingDistinct(hexes);
    if Length(hover) <= ScriptRadius {
      var i :| 0 <= i < |hexes| && hexes[i] == hover;
      assert highlights[i];
    }
  }

  /** A strictly ascending list holds no hex twice. */
  lemma AscendingDistinct(hexes: seq<Hex>)
    requires Ascending(hexes)
    ensures forall i, j :: 0 <= i < |hexes| && 0 <= j < |hexes| && hexes[i] == hexes[j] ==> i == j
  {
    forall i, j | 0 <= i < |hexes| && 0 <= j < |hexes|
      ensures hexes[i] == hexes[j] ==> i == j
    {
      if i < j {
        assert LexBefore(hexes[i], hexes[j]);
      } else if j < i {
        assert LexBefore(hexes[j], hexes[i]);
      }
    }
  }
}
