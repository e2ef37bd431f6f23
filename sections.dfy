/**
 * Construction sections: a section's coordinates, its block grid (a three-axis numpy
 * array) and its entity lists, and ConstructionSection.__eq__, which compares grids with
 * numpy's broadcasting np.equal.
 */
module Sections {
  import opened Wrappers
  import opened Flatten

  /** An entity or tile-entity compound, kept as an opaque record. */
  datatype Record = Record(payload: seq<int>)

  /** A three-axis numpy array: its shape and its cells in C (row-major) order. */
  datatype NdArray = NdArray(shape: Triple, cells: seq<int>) {

    ghost predicate Valid() {
      shape.0 >= 0 && shape.1 >= 0 && shape.2 >= 0 && |cells| == Volume(shape)
    }

    /** The cell at coordinate c. */
    function At(c: Triple): int
      requires Valid() && InBounds(c, shape)
    {
      FlattenRoundTrip(c, shape);
      cells[ToFlattenedIndex(c.0, c.1, c.2, shape)]
    }
  }

  /** numpy's broadcasting rule for one axis: equal lengths, or one of them is 1. */
  function BroadcastAxis(m: int, n: int): Option<int> {
    if m == n then Some(m) else if m == 1 then Some(n) else if n == 1 then Some(m) else None
  }

  /**
   * The shape two grids broadcast to: on every axis the lengths agree or one of them is
   * 1, and the broadcast length is each grid's own unless that grid's is 1.
   */
  function BroadcastShape(s: Triple, t: Triple): (r: Option<Triple>)
    ensures r.Some? <==> (s.0 == t.0 || s.0 == 1 || t.0 == 1) && (s.1 == t.1 || s.1 == 1 || t.1 == 1)
                         && (s.2 == t.2 || s.2 == 1 || t.2 == 1)
    ensures r.Some? ==> (r.value.0 == s.0 || s.0 == 1) && (r.value.0 == t.0 || t.0 == 1)
                        && (r.value.1 == s.1 || s.1 == 1) && (r.value.1 == t.1 || t.1 == 1)
                        && (r.value.2 == s.2 || s.2 == 1) && (r.value.2 == t.2 || t.2 == 1)
  {
    match (BroadcastAxis(s.0, t.0), BroadcastAxis(s.1, t.1), BroadcastAxis(s.2, t.2))
    case (Some(x), Some(y), Some(z)) => Some((x, y, z))
    case _ => None
  }

  /** The position along an axis of length m that position p of a broadcast axis reads. */
  function Pick(p: int, m: int): int {
    if m == 1 then 0 else p
  }

  function Picked(c: Triple, shape: Triple): Triple {
    (Pick(c.0, shape.0), Pick(c.1, shape.1), Pick(c.2, shape.2))
  }

  /** Every position of the broadcast shape s reads equal cells from a and b. */
  predicate CellsAgree(a: NdArray, b: NdArray, s: Triple)
    requires a.Valid() && b.Valid() && BroadcastShape(a.shape, b.shape) == Some(s)
  {
    forall x, y, z | 0 <= x < s.0 && 0 <= y < s.1 && 0 <= z < s.2 ::
      a.At(Picked((x, y, z), a.shape)) == b.At(Picked((x, y, z), b.shape))
  }

  /** np.equal(a, b).all(): a ValueError when the shapes do not broadcast. */
  function ArraysEqual(a: NdArray, b: NdArray): (r: Result<bool>)
    requires a.Valid() && b.Valid()
    ensures r.Err? <==> BroadcastShape(a.shape, b.shape).None?
    ensures r.Err? ==> r.error == BroadcastFailed
  {
    match BroadcastShape(a.shape, b.shape)
    case None => Err(BroadcastFailed)
    case Some(s) => Ok(CellsAgree(a, b, s))
  }

  /** On grids of the same shape, np.equal(...).all() is equality of the cells. */
  lemma ArraysEqualSameShape(a: NdArray, b: NdArray)
    requires a.Valid() && b.Valid() && a.shape == b.shape
    ensures ArraysEqual(a, b) == Ok(a.cells == b.cells)
  {
    var s := a.shape;
    assert BroadcastShape(s, s) == Some(s);
    assert forall c: Triple :: InBounds(c, s) ==> Picked(c, s) == c;
    if a.cells != b.cells {
      var i :| 0 <= i < |a.cells| && a.cells[i] != b.cells[i];
      UnflattenRoundTrip(i, s);
      var c := FromFlattenedIndex(i, s).value;
      assert a.At(Picked(c, s)) != b.At(Picked(c, s));
    }
  }

  /** A ConstructionSection: its section coordinates, block grid and entity lists. */
  datatype Section = Section(
    sx: int, sy: int, sz: int,
    blocks: NdArray,
    entities: seq<Record>,
    tileEntities: seq<Record>)
  {
    function Coords(): Triple {
      (sx, sy, sz)
    }
  }

  /**
   * ConstructionSection.__eq__. The `and` chain stops at its first false operand, so the
   * grids are compared, and a broadcasting failure raised, only when the coordinates agree.
   */
  function SectionEq(a: Section, b: Section): (r: Result<bool>)
    requires a.blocks.Valid() && b.blocks.Valid()
    ensures r.Err? <==> a.Coords() == b.Coords() && BroadcastShape(a.blocks.shape, b.blocks.shape).None?
    ensures r == Ok(true) <==>
              && a.Coords() == b.Coords() && ArraysEqual(a.blocks, b.blocks) == Ok(true)
              && a.entities == b.entities && a.tileEntities == b.tileEntities
  {
    if a.sx != b.sx || a.sy != b.sy || a.sz != b.sz then Ok(false)
    else match ArraysEqual(a.blocks, b.blocks)
      case Err(e) => Err(e)
      case Ok(false) => Ok(false)
      case Ok(true) => Ok(a.entities == b.entities && a.tileEntities == b.tileEntities)
  }

  /** For grids of one shape, __eq__ never raises and is exactly equality of the sections. */
  lemma SectionEqSameShape(a: Section, b: Section)
    requires a.blocks.Valid() && b.blocks.Valid() && a.blocks.shape == b.blocks.shape
    ensures SectionEq(a, b) == Ok(a == b)
  {
    ArraysEqualSameShape(a.blocks, b.blocks);
  }

  /** Each position of a grid whose cells all hold v reads v, as the 1x1x1 grid [v] does. */
  lemma UniformCell(v: int, b: NdArray, x: int, y: int, z: int)
    requires b.Valid() && forall k | 0 <= k < |b.cells| :: b.cells[k] == v
    requires 0 <= x < b.shape.0 && 0 <= y < b.shape.1 && 0 <= z < b.shape.2
    ensures NdArray((1, 1, 1), [v]).At(Picked((x, y, z), (1, 1, 1))) == b.At(Picked((x, y, z), b.shape))
  {
    FlattenRoundTrip(Picked((x, y, z), b.shape), b.shape);
  }

  /** A 1x1x1 grid broadcasts to the shape of any grid. */
  lemma UnitBroadcasts(v: int, b: NdArray)
    requires b.Valid()
    ensures BroadcastShape((1, 1, 1), b.shape) == Some(b.shape)
  {
  }

  /** Every position of a grid whose cells all hold v agrees with the 1x1x1 grid [v]. */
  lemma UniformAgrees(v: int, b: NdArray)
    requires b.Valid() && forall k | 0 <= k < |b.cells| :: b.cells[k] == v
    requires BroadcastShape((1, 1, 1), b.shape) == Some(b.shape)
    ensures CellsAgree(NdArray((1, 1, 1), [v]), b, b.shape)
  {
    var s := b.shape;
    forall x, y, z | 0 <= x < s.0 && 0 <= y < s.1 && 0 <= z < s.2
      ensures NdArray((1, 1, 1), [v]).At(Picked((x, y, z), (1, 1, 1))) == b.At(Picked((x, y, z), b.shape))
    {
      UniformCell(v, b, x, y, z);
    }
  }

  /** Because of broadcasting, a 1x1x1 grid compares equal to any grid whose cells all hold its value. */
  lemma BroadcastingEquality(v: int, b: NdArray)
    requires b.Valid() && forall k | 0 <= k < |b.cells| :: b.cells[k] == v
    ensures ArraysEqual(NdArray((1, 1, 1), [v]), b) == Ok(true)
  {
    UnitBroadcasts(v, b);
    UniformAgrees(v, b);
  }

  /** So __eq__ holds between two sections that are not equal as values. */
  lemma BroadcastingSectionEquality()
    ensures var one := Section(0, 0, 0, NdArray((1, 1, 1), [5]), [], []);
      var eight := Section(0, 0, 0, NdArray((2, 2, 2), [5, 5, 5, 5, 5, 5, 5, 5]), [], []);
      SectionEq(one, eight) == Ok(true) && one != eight
  {
    BroadcastingEquality(5, NdArray((2, 2, 2), [5, 5, 5, 5, 5, 5, 5, 5]));
  }

  /** Grids whose lengths differ on an axis where neither is 1 make __eq__ raise. */
  lemma BroadcastingFailure()
    ensures var two := Section(0, 0, 0, NdArray((2, 1, 1), [5, 5]), [], []);
      var three := Section(0, 0, 0, NdArray((3, 1, 1), [5, 5, 5]), [], []);
      SectionEq(two, three) == Err(BroadcastFailed)
  {
  }
}
