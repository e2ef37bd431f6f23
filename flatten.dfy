/**
 * Row-major flattening of section coordinates: x outermost, z innermost
 * (to_flattened_index / from_flattened_index).
 */
module Flatten {
  import opened Wrappers
  import opened PythonOps

  /** An (x, y, z) triple: a coordinate or a size. */
  type Triple = (int, int, int)

  function Volume(size: Triple): int {
    size.0 * size.1 * size.2
  }

  predicate Positive(size: Triple) {
    size.0 > 0 && size.1 > 0 && size.2 > 0
  }

  predicate InBounds(c: Triple, size: Triple) {
    0 <= c.0 < size.0 && 0 <= c.1 < size.1 && 0 <= c.2 < size.2
  }

  /** x * dy * dz + y * dz + z: an in-range coordinate lands inside the grid. */
  function ToFlattenedIndex(x: int, y: int, z: int, size: Triple): (r: int)
    ensures InBounds((x, y, z), size) ==> 0 <= r < Volume(size)
  {
    var i := x * size.1 * size.2 + y * size.2 + z;
    if InBounds((x, y, z), size) then FlattenArith(x, y, z, size.0, size.1, size.2); i
    else i
  }

  /** Floor division by dy * dz and dz; a zero product raises ZeroDivisionError. */
  function FromFlattenedIndex(i: int, size: Triple): (r: Result<Triple>)
    ensures r.Err? <==> size.1 * size.2 == 0
    ensures r.Err? ==> r.error == ZeroDivision
  {
    var dy, dz := size.1, size.2;
    if dy * dz == 0 then Err(ZeroDivision)
    else Ok((FloorDiv(i, dy * dz), FloorMod(FloorDiv(i, dz), dy), FloorMod(i, dz)))
  }

  lemma MulAtLeast(k: int, d: int)
    requires k >= 1 && d > 0
    ensures k * d >= d
  {
    if k > 1 {
      MulAtLeast(k - 1, d);
      assert k * d == (k - 1) * d + d;
    }
  }

  /** Division by a positive d has exactly one quotient and remainder. */
  lemma DivModUnique(a: int, d: int, q: int, r: int)
    requires d > 0 && 0 <= r < d && a == q * d + r
    ensures a / d == q && a % d == r
  {
    var q', r' := a / d, a % d;
    assert a == q' * d + r';
    var k := q - q';
    assert k * d == r' - r;
    if k >= 1 {
      MulAtLeast(k, d);
    } else if k <= -1 {
      MulAtLeast(-k, d);
    }
  }

  /** The row-major offset of (a, b) inside an n-by-m block stays inside the block. */
  lemma RowBound(a: int, b: int, n: int, m: int)
    requires 0 <= a < n && 0 <= b < m
    ensures 0 <= a * m + b < n * m
  {
    MulAtLeast(n - a, m);
    assert (n - a) * m == n * m - a * m;
  }

  lemma MulAssoc(a: int, b: int, c: int)
    ensures a * b * c == a * (b * c)
  {
  }

  lemma MulDistrib(a: int, b: int, c: int)
    ensures (a + b) * c == a * c + b * c
  {
  }

  /** The integer facts behind flattening, stated on plain integers. */
  lemma FlattenArith(x: int, y: int, z: int, dx: int, dy: int, dz: int)
    requires 0 <= x < dx && 0 <= y < dy && 0 <= z < dz
    ensures var i := x * dy * dz + y * dz + z;
      && 0 <= i < dx * dy * dz
      && i / (dy * dz) == x && i / dz == x * dy + y && i % dz == z && (x * dy + y) % dy == y
  {
    var i := x * dy * dz + y * dz + z;
    var n := dy * dz;
    var yz := y * dz + z;
    var xy := x * dy + y;
    MulAssoc(x, dy, dz);
    MulAssoc(dx, dy, dz);
    assert i == x * n + yz;
    RowBound(y, z, dy, dz);
    RowBound(x, yz, dx, n);
    DivModUnique(i, n, x, yz);
    MulDistrib(x * dy, y, dz);
    assert i == xy * dz + z;
    DivModUnique(i, dz, xy, z);
    DivModUnique(xy, dy, x, y);
  }

  /** A coordinate in range flattens into [0, dx*dy*dz) and unflattens back to itself. */
  lemma FlattenRoundTrip(c: Triple, size: Triple)
    requires InBounds(c, size)
    ensures 0 <= ToFlattenedIndex(c.0, c.1, c.2, size) < Volume(size)
    ensures FromFlattenedIndex(ToFlattenedIndex(c.0, c.1, c.2, size), size) == Ok(c)
  {
    var (x, y, z) := c;
    var (dx, dy, dz) := size;
    FlattenArith(x, y, z, dx, dy, dz);
    MulAtLeast(dy, dz);
    var i := ToFlattenedIndex(x, y, z, size);
    var q := i / dz;
    assert FloorDiv(i, dy * dz) == x;
    assert FloorDiv(i, dz) == q;
    assert FloorMod(q, dy) == q % dy by {
      assert FloorDiv(q, dy) == q / dy;
    }
    assert FloorMod(i, dz) == i % dz by {
      assert FloorDiv(i, dz) == i / dz;
    }
  }

  /** The integer facts behind unflattening, stated on plain integers. */
  lemma UnflattenArith(i: int, dx: int, dy: int, dz: int)
    requires dx > 0 && dy > 0 && dz > 0 && 0 <= i < dx * dy * dz
    ensures var x, y, z := i / (dy * dz), (i / dz) % dy, i % dz;
      && 0 <= x < dx && 0 <= y < dy && 0 <= z < dz
      && x * dy * dz + y * dz + z == i
  {
    MulAtLeast(dy, dz);
    var n := dy * dz;
    var q, z := i / dz, i % dz;
    var x, y := q / dy, q % dy;
    assert i == q * dz + z;
    assert q == x * dy + y;
    MulDistrib(x * dy, y, dz);
    MulAssoc(x, dy, dz);
    MulAssoc(dx, dy, dz);
    assert i == x * n + (y * dz + z);
    RowBound(y, z, dy, dz);
    DivModUnique(i, n, x, y * dz + z);
    assert x < dx by {
      if x >= dx {
        MulAtLeast(x - dx + 1, n);
        MulDistrib(x - dx, dx, n);
      }
    }
  }

  /** Every index in [0, dx*dy*dz) unflattens to an in-range coordinate that flattens back. */
  lemma UnflattenRoundTrip(i: int, size: Triple)
    requires Positive(size) && 0 <= i < Volume(size)
    ensures FromFlattenedIndex(i, size).Ok?
    ensures InBounds(FromFlattenedIndex(i, size).value, size)
    ensures var c := FromFlattenedIndex(i, size).value; ToFlattenedIndex(c.0, c.1, c.2, size) == i
  {
    UnflattenArith(i, size.0, size.1, size.2);
    MulAtLeast(size.1, size.2);
  }
}
