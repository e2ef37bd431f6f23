/**
 * The construction file as a whole: what create_from builds, what save writes, what load
 * reads back, and Construction.__eq__. Each is a function of its inputs here; the class
 * in the Constructions module performs them step by step and is proved against these.
 *
 * Layout written by save: "constrct", a version byte 0, one gzip NBT blob per section in
 * dict order, the gzip NBT metadata blob (shapes, export stamp, a dense index table of
 * blob offsets, the palette), and the metadata offset as a little-endian u32.
 */
module Container {
  import opened Wrappers
  import opened PythonOps
  import opened Bytes
  import opened Flatten
  import opened ArrayWidth
  import opened Sections
  import opened Palette
  import opened Nbt

  /** The state of a Construction. */
  datatype ConstructionValue = ConstructionValue(
    sections: Dict<Triple, Section>,
    palette: seq<Block>,
    sectionShape: Triple,
    edition: string,
    version: seq<int>)

  /** Sections form a dict whose grids are well-formed numpy arrays. */
  ghost predicate WellFormed(c: ConstructionValue) {
    && c.sections.Valid()
    && forall k :: k in c.sections.values ==> c.sections.values[k].blocks.Valid()
  }

  // ---------------------------------------------------------------------------------
  // create_from

  /**
   * The sections dict create_from builds: each section in turn is keyed by its own
   * coordinates, a later one replacing an earlier one with the same coordinates, and the
   * first section whose grid shape is not section_shape raises.
   */
  function Collect(items: seq<Section>, shape: Triple): (r: Result<Dict<Triple, Section>>)
    ensures r.Ok? ==> r.value.Valid()
  {
    if items == [] then Ok(EmptyDict())
    else
      var s := items[|items| - 1];
      match Collect(items[..|items| - 1], shape)
      case Err(e) => Err(e)
      case Ok(d) =>
        if s.blocks.shape != shape then Err(ShapeMismatch(s.sx, s.sy, s.sz))
        else Ok(d.Set(s.Coords(), s))
  }

  /** create_from succeeds exactly when every section's grid has the section shape. */
  lemma {:induction false} CollectOk(items: seq<Section>, shape: Triple)
    ensures Collect(items, shape).Ok? <==> forall s :: s in items ==> s.blocks.shape == shape
  {
    if items != [] {
      var init := items[..|items| - 1];
      CollectOk(init, shape);
      assert forall x :: x in items ==> x in init || x == items[|items| - 1];
    }
  }

  /** Every stored section is one of the sections given, stored under its own coordinates. */
  lemma {:induction false} CollectValues(items: seq<Section>, shape: Triple)
    requires Collect(items, shape).Ok?
    ensures var d := Collect(items, shape).value;
      forall k :: k in d.values ==> d.values[k] in items && d.values[k].Coords() == k
  {
    if items != [] {
      var init := items[..|items| - 1];
      CollectValues(init, shape);
      assert forall x :: x in init ==> x in items;
    }
  }

  /** The last section is stored on top of what the earlier ones built, unless they raised. */
  lemma CollectLast(items: seq<Section>, shape: Triple)
    requires items != []
    ensures var init := items[..|items| - 1]; var s := items[|items| - 1];
      Collect(items, shape) ==
        if Collect(init, shape).Err? then Collect(init, shape)
        else if s.blocks.shape != shape then Err(ShapeMismatch(s.sx, s.sy, s.sz))
        else Ok(Collect(init, shape).value.Set(s.Coords(), s))
  {
  }

  /** A section of the right shape after sections that raised nothing is stored on top of them. */
  lemma CollectAppend(items: seq<Section>, s: Section, shape: Triple)
    requires Collect(items, shape).Ok? && s.blocks.shape == shape
    ensures Collect(items + [s], shape) == Ok(Collect(items, shape).value.Set(s.Coords(), s))
  {
    assert (items + [s])[..|items|] == items;
  }

  /** The error names the coordinates of the first section with the wrong shape. */
  lemma {:induction false} CollectFirstMismatch(items: seq<Section>, shape: Triple)
    requires Collect(items, shape).Err?
    ensures exists i :: && 0 <= i < |items| && items[i].blocks.shape != shape
                        && (forall j :: 0 <= j < i ==> items[j].blocks.shape == shape)
                        && Collect(items, shape).error == ShapeMismatch(items[i].sx, items[i].sy, items[i].sz)
  {
    var n := |items|;
    var init := items[..n - 1];
    CollectLast(items, shape);
    if Collect(init, shape).Err? {
      CollectFirstMismatch(init, shape);
      var i :| 0 <= i < |init| && init[i].blocks.shape != shape
        && (forall j :: 0 <= j < i ==> init[j].blocks.shape == shape)
        && Collect(init, shape).error == ShapeMismatch(init[i].sx, init[i].sy, init[i].sz);
      assert forall j :: 0 <= j < i ==> items[j] == init[j];
      assert items[i] == init[i];
    } else {
      CollectOk(init, shape);
      assert forall j :: 0 <= j < n - 1 ==> items[j] in init;
      assert Collect(items, shape).error == ShapeMismatch(items[n - 1].sx, items[n - 1].sy, items[n - 1].sz);
    }
  }

  /** The keys are exactly the coordinates of the sections given. */
  lemma {:induction false} CollectKeys(items: seq<Section>, shape: Triple, k: Triple)
    requires Collect(items, shape).Ok?
    ensures k in Collect(items, shape).value.values <==> exists i :: 0 <= i < |items| && items[i].Coords() == k
  {
    if items != [] {
      var init := items[..|items| - 1];
      CollectKeys(init, shape, k);
      if exists i :: 0 <= i < |init| && init[i].Coords() == k {
        var i :| 0 <= i < |init| && init[i].Coords() == k;
        assert items[i] == init[i];
      }
      if exists i :: 0 <= i < |items| && items[i].Coords() == k {
        var i :| 0 <= i < |items| && items[i].Coords() == k;
        if i < |init| {
          assert init[i] == items[i];
        }
      }
    }
  }

  /** One more section is stored under its coordinates on top of what came before. */
  lemma CollectStep(items: seq<Section>, shape: Triple)
    requires items != [] && Collect(items, shape).Ok?
    ensures Collect(items[..|items| - 1], shape).Ok?
    ensures Collect(items, shape).value
              == Collect(items[..|items| - 1], shape).value.Set(items[|items| - 1].Coords(), items[|items| - 1])
  {
  }

  /** The position of the last section with coordinates k, or -1 when there is none. */
  function LastWith(items: seq<Section>, k: Triple): (i: int)
    ensures -1 <= i < |items|
    ensures 0 <= i ==> items[i].Coords() == k
    ensures forall j :: i < j < |items| ==> items[j].Coords() != k
  {
    if items == [] then -1
    else if items[|items| - 1].Coords() == k then |items| - 1
    else
      var i := LastWith(items[..|items| - 1], k);
      assert forall j :: 0 <= j < |items| - 1 ==> items[j] == items[..|items| - 1][j];
      i
  }

  /** The section stored under k is the last section with coordinates k: a later one replaces an earlier one. */
  lemma {:induction false} CollectKeepsLast(items: seq<Section>, shape: Triple, k: Triple)
    requires Collect(items, shape).Ok? && k in Collect(items, shape).value.values
    ensures 0 <= LastWith(items, k) && Collect(items, shape).value.values[k] == items[LastWith(items, k)]
  {
    var n := |items|;
    var init := items[..n - 1];
    CollectStep(items, shape);
    if items[n - 1].Coords() != k {
      assert k in Collect(init, shape).value.values;
      CollectKeepsLast(init, shape, k);
      assert items[LastWith(init, k)] == init[LastWith(init, k)];
    }
  }

  /** Once create_from has raised, later sections change nothing. */
  lemma {:induction false} CollectErrStays(items: seq<Section>, shape: Triple, i: nat)
    requires i <= |items| && Collect(items[..i], shape).Err?
    ensures Collect(items, shape) == Collect(items[..i], shape)
    decreases |items| - i
  {
    if i < |items| {
      assert items[..i + 1][..i] == items[..i];
      CollectErrStays(items, shape, i + 1);
    } else {
      assert items[..i] == items;
    }
  }

  // ---------------------------------------------------------------------------------
  // save

  /** "constrct" followed by the version byte 0. */
  function Header(): (h: seq<byte>)
    ensures |h| == 9 && h[..8] == MAGIC && h[8] == FORMAT_VERSION
  {
    MAGIC + [FORMAT_VERSION]
  }

  /** The NBT compound generate_section_entry builds for a section whose grid has cells. */
  function SectionTagOf(s: Section): (r: SectionTag)
    requires |s.blocks.cells| > 0
    ensures r.blocks == s.blocks.cells
    ensures r.blocksArrayType == 7 || r.blocksArrayType == 11 || r.blocksArrayType == 12
  {
    SectionTag(s.entities, s.tileEntities, s.blocks.cells, TagId(FindFittingArrayType(s.blocks.cells).value))
  }

  /**
   * generate_section_entry and the compressed save: a grid of the wrong shape raises
   * before anything is written, and so does an empty grid, whose max() fails.
   */
  function SectionBlob(codec: Codec, shape: Triple, s: Section): (r: Result<seq<byte>>)
    ensures r.Err? <==> s.blocks.shape != shape || |s.blocks.cells| == 0
    ensures s.blocks.shape != shape ==> r == Err(ShapeMismatch(s.sx, s.sy, s.sz))
    ensures s.blocks.shape == shape && |s.blocks.cells| == 0 ==> r == Err(EmptyArray)
    ensures r.Ok? ==> r.value == codec.encodeSection(SectionTagOf(s))
  {
    if s.blocks.shape != shape then Err(ShapeMismatch(s.sx, s.sy, s.sz))
    else match FindFittingArrayType(s.blocks.cells)
      case Err(e) => Err(e)
      case Ok(t) => Ok(codec.encodeSection(SectionTag(s.entities, s.tileEntities, s.blocks.cells, TagId(t))))
  }

  /** What the section loop has written, the offsets it recorded, and the error that stopped it. */
  datatype Written = Written(bytes: seq<byte>, offsets: map<Triple, int>, err: Option<Error>)

  /**
   * The first n turns of the section loop over keys, writing from stream position start:
   * each key's offset is recorded as the position its blob will start at, then its blob
   * is written.
   */
  function WriteBlobs(codec: Codec, shape: Triple, secs: map<Triple, Section>, keys: seq<Triple>, n: nat, start: int): (w: Written)
    requires n <= |keys| && forall k :: k in keys ==> k in secs
    ensures w.err.Some? ==> w.err.value.ShapeMismatch? || w.err.value == EmptyArray
  {
    if n == 0 then Written([], map[], None)
    else
      var w := WriteBlobs(codec, shape, secs, keys, n - 1, start);
      if w.err.Some? then w
      else
        var k := keys[n - 1];
        var blob := SectionBlob(codec, shape, secs[k]);
        Written(if blob.Ok? then w.bytes + blob.value else w.bytes,
                w.offsets[k := start + |w.bytes|],
                if blob.Ok? then None else Some(blob.error))
  }

  /**
   * Turn n of the loop after turns that raised nothing: the key's offset is recorded
   * whether or not its blob can be built, and the blob is written when it can.
   */
  lemma WriteBlobsStep(codec: Codec, shape: Triple, secs: map<Triple, Section>, keys: seq<Triple>, n: nat, start: int)
    requires 0 < n <= |keys| && forall k :: k in keys ==> k in secs
    requires WriteBlobs(codec, shape, secs, keys, n - 1, start).err.None?
    ensures var w0 := WriteBlobs(codec, shape, secs, keys, n - 1, start);
      var w := WriteBlobs(codec, shape, secs, keys, n, start);
      var blob := SectionBlob(codec, shape, secs[keys[n - 1]]);
      && w.offsets == w0.offsets[keys[n - 1] := start + |w0.bytes|]
      && (blob.Ok? ==> w.err.None? && w.bytes == w0.bytes + blob.value)
      && (blob.Err? ==> w.err == Some(blob.error) && w.bytes == w0.bytes)
  {
  }

  /**
   * Turn n = i + 1 of the loop, from the state the earlier turns left: the blob is
   * written, or the loop raises and the offsets keep the one just recorded.
   */
  lemma WriteBlobsTurn(codec: Codec, shape: Triple, secs: map<Triple, Section>, keys: seq<Triple>, i: nat, start: int,
                       written: seq<byte>, offsets: map<Triple, int>)
    requires i < |keys| && forall k :: k in keys ==> k in secs
    requires WriteBlobs(codec, shape, secs, keys, i, start) == Written(written, offsets, None)
    ensures var blob := SectionBlob(codec, shape, secs[keys[i]]);
      && (blob.Ok? ==>
            WriteBlobs(codec, shape, secs, keys, i + 1, start)
              == Written(written + blob.value, offsets[keys[i] := start + |written|], None))
      && (blob.Err? ==>
            WriteBlobs(codec, shape, secs, keys, |keys|, start)
              == Written(written, offsets[keys[i] := start + |written|], Some(blob.error)))
  {
    WriteBlobsStep(codec, shape, secs, keys, i + 1, start);
    if SectionBlob(codec, shape, secs[keys[i]]).Err? {
      WriteBlobsErrStays(codec, shape, secs, keys, start, i + 1, |keys|);
    }
  }

  /** The loop runs to the end exactly when every section's blob can be built. */
  lemma {:induction false} WriteBlobsOk(codec: Codec, shape: Triple, secs: map<Triple, Section>, keys: seq<Triple>, n: nat, start: int)
    requires n <= |keys| && forall k :: k in keys ==> k in secs
    ensures WriteBlobs(codec, shape, secs, keys, n, start).err.None? <==>
              forall j :: 0 <= j < n ==> SectionBlob(codec, shape, secs[keys[j]]).Ok?
  {
    if n > 0 {
      WriteBlobsOk(codec, shape, secs, keys, n - 1, start);
      var w0 := WriteBlobs(codec, shape, secs, keys, n - 1, start);
      var w := WriteBlobs(codec, shape, secs, keys, n, start);
      var ok := SectionBlob(codec, shape, secs[keys[n - 1]]).Ok?;
      if w0.err.Some? {
        assert w == w0;
      } else {
        assert w.err.None? <==> ok;
      }
    }
  }

  /** A loop that ran to the end has recorded an offset for every key. */
  lemma {:induction false} WriteBlobsRecordsKeys(codec: Codec, shape: Triple, secs: map<Triple, Section>, keys: seq<Triple>, n: nat, start: int)
    requires n <= |keys| && forall k :: k in keys ==> k in secs
    requires WriteBlobs(codec, shape, secs, keys, n, start).err.None?
    ensures forall j :: 0 <= j < n ==> keys[j] in WriteBlobs(codec, shape, secs, keys, n, start).offsets
  {
    if n > 0 {
      assert WriteBlobs(codec, shape, secs, keys, n - 1, start).err.None?;
      WriteBlobsRecordsKeys(codec, shape, secs, keys, n - 1, start);
      WriteBlobsStep(codec, shape, secs, keys, n, start);
    }
  }

  /** Every recorded offset is a key's, and lies within what the loop has written. */
  lemma {:induction false} WriteBlobsOffsets(codec: Codec, shape: Triple, secs: map<Triple, Section>, keys: seq<Triple>, n: nat, start: int)
    requires n <= |keys| && forall k :: k in keys ==> k in secs
    ensures var w := WriteBlobs(codec, shape, secs, keys, n, start);
      forall k :: k in w.offsets ==> k in keys && start <= w.offsets[k] <= start + |w.bytes|
  {
    if n > 0 {
      WriteBlobsOffsets(codec, shape, secs, keys, n - 1, start);
      var w0 := WriteBlobs(codec, shape, secs, keys, n - 1, start);
      var w := WriteBlobs(codec, shape, secs, keys, n, start);
      if w0.err.None? {
        WriteBlobsStep(codec, shape, secs, keys, n, start);
        assert keys[n - 1] in keys;
      }
    }
  }

  /** Once a section has raised, the loop writes nothing more. */
  lemma {:induction false} WriteBlobsErrStays(
    codec: Codec, shape: Triple, secs: map<Triple, Section>, keys: seq<Triple>, start: int, i: nat, n: nat)
    requires i <= n <= |keys| && forall k :: k in keys ==> k in secs
    requires WriteBlobs(codec, shape, secs, keys, i, start).err.Some?
    ensures WriteBlobs(codec, shape, secs, keys, n, start) == WriteBlobs(codec, shape, secs, keys, i, start)
    decreases n - i
  {
    if i < n {
      WriteBlobsErrStays(codec, shape, secs, keys, start, i, n - 1);
    }
  }

  /** The coordinates of key i along one axis. */
  function Axis(keys: seq<Triple>, axis: int): (r: seq<int>)
    requires 0 <= axis < 3
    ensures |r| == |keys|
    ensures forall i :: 0 <= i < |keys| ==> r[i] == if axis == 0 then keys[i].0 else if axis == 1 then keys[i].1 else keys[i].2
  {
    seq(|keys|, i requires 0 <= i < |keys| => if axis == 0 then keys[i].0 else if axis == 1 then keys[i].1 else keys[i].2)
  }

  /**
   * structure_size: one more than the largest coordinate on each axis; max() of no
   * sections raises.
   */
  function StructureSize(keys: seq<Triple>): (r: Result<Triple>)
    ensures r.Err? <==> |keys| == 0
    ensures r.Err? ==> r.error == NoSections
    ensures r.Ok? ==> forall k :: k in keys ==> k.0 < r.value.0 && k.1 < r.value.1 && k.2 < r.value.2
    ensures r.Ok? ==> exists k :: k in keys && k.0 == r.value.0 - 1
    ensures r.Ok? ==> exists k :: k in keys && k.1 == r.value.1 - 1
    ensures r.Ok? ==> exists k :: k in keys && k.2 == r.value.2 - 1
  {
    if |keys| == 0 then Err(NoSections)
    else
      var xs, ys, zs := Axis(keys, 0), Axis(keys, 1), Axis(keys, 2);
      var mx, my, mz := Max(xs), Max(ys), Max(zs);
      assert forall k :: k in keys ==> k.0 in xs && k.1 in ys && k.2 in zs;
      ghost var i :| 0 <= i < |keys| && xs[i] == mx;
      ghost var j :| 0 <= j < |keys| && ys[j] == my;
      ghost var l :| 0 <= l < |keys| && zs[l] == mz;
      assert keys[i] in keys && keys[j] in keys && keys[l] in keys;
      Ok((mx + 1, my + 1, mz + 1))
  }

  /** ceil(log2(v)) for each section length; log2 of a length below 1 is a math domain error. */
  function ShapeExponents(shape: Triple): (r: Result<Triple>)
    ensures r.Ok? <==> Positive(shape)
    ensures r.Err? ==> r.error == MathDomain
    ensures r.Ok? ==> r.value.0 >= 0 && r.value.1 >= 0 && r.value.2 >= 0
    ensures r.Ok? ==> shape.0 <= Pow2(r.value.0) && shape.1 <= Pow2(r.value.1) && shape.2 <= Pow2(r.value.2)
  {
    if !Positive(shape) then Err(MathDomain)
    else Ok((CeilLog2(shape.0), CeilLog2(shape.1), CeilLog2(shape.2)))
  }

  /**
   * The index table: one entry per position of a size.0 by size.1 by size.2 grid of
   * sections, in row-major order, holding the offset recorded for the section there or
   * 0. [0] * n is empty for a negative n, and the coordinate loop is empty unless every
   * axis is positive.
   */
  function IndexTable(offsets: map<Triple, int>, size: Triple): (r: seq<int>)
    ensures |r| == if Volume(size) < 0 then 0 else Volume(size)
    ensures !Positive(size) ==> forall i :: 0 <= i < |r| ==> r[i] == 0
  {
    var n := if Volume(size) < 0 then 0 else Volume(size);
    if Positive(size) then
      seq(n, i requires 0 <= i < n => GetOrZero(offsets, FromFlattenedIndex(i, size).value))
    else seq(n, i => 0)
  }

  /** The entry at a coordinate's flattened index is the offset of the section there, or 0. */
  lemma IndexTableEntry(offsets: map<Triple, int>, size: Triple, c: Triple)
    requires InBounds(c, size)
    ensures 0 <= ToFlattenedIndex(c.0, c.1, c.2, size) < |IndexTable(offsets, size)|
    ensures IndexTable(offsets, size)[ToFlattenedIndex(c.0, c.1, c.2, size)] == GetOrZero(offsets, c)
  {
    FlattenRoundTrip(c, size);
  }

  /** A non-zero entry always belongs to a recorded section, found at the index's coordinates. */
  lemma IndexTableNonZero(offsets: map<Triple, int>, size: Triple, i: int)
    requires 0 <= i < |IndexTable(offsets, size)| && IndexTable(offsets, size)[i] != 0
    ensures Positive(size)
    ensures var c := FromFlattenedIndex(i, size).value;
      InBounds(c, size) && c in offsets && IndexTable(offsets, size)[i] == offsets[c]
  {
    UnflattenRoundTrip(i, size);
  }

  /** Coordinate c comes before (x, y, z) in the order itertools.product visits coordinates. */
  predicate Visited(c: Triple, x: int, y: int, z: int) {
    c.0 < x || (c.0 == x && c.1 < y) || (c.0 == x && c.1 == y && c.2 < z)
  }

  /**
   * The index table part-way through the coordinate loop, just before (x, y, z): the
   * positions already visited hold their offsets, the others are still 0.
   */
  ghost function Filled(offsets: map<Triple, int>, size: Triple, x: int, y: int, z: int): (r: seq<int>)
    requires Positive(size)
    ensures |r| == Volume(size)
  {
    FlattenRoundTrip((0, 0, 0), size);
    seq(Volume(size), i requires 0 <= i < Volume(size) =>
      var c := FromFlattenedIndex(i, size).value;
      if Visited(c, x, y, z) then GetOrZero(offsets, c) else 0)
  }

  /** Before the loop nothing has been visited. */
  lemma FilledStart(offsets: map<Triple, int>, size: Triple)
    requires Positive(size)
    ensures forall i :: 0 <= i < Volume(size) ==> Filled(offsets, size, 0, 0, 0)[i] == 0
  {
    forall i | 0 <= i < Volume(size)
      ensures Filled(offsets, size, 0, 0, 0)[i] == 0
    {
      UnflattenRoundTrip(i, size);
    }
  }

  /** Visiting (x, y, z) writes its offset at its flattened index and nothing else. */
  lemma FilledWrite(offsets: map<Triple, int>, size: Triple, x: int, y: int, z: int)
    requires InBounds((x, y, z), size)
    ensures 0 <= ToFlattenedIndex(x, y, z, size) < Volume(size)
    ensures Filled(offsets, size, x, y, z)[ToFlattenedIndex(x, y, z, size) := GetOrZero(offsets, (x, y, z))]
              == Filled(offsets, size, x, y, z + 1)
  {
    var f := ToFlattenedIndex(x, y, z, size);
    FlattenRoundTrip((x, y, z), size);
    var before, after := Filled(offsets, size, x, y, z), Filled(offsets, size, x, y, z + 1);
    forall i | 0 <= i < Volume(size)
      ensures before[f := GetOrZero(offsets, (x, y, z))][i] == after[i]
    {
      UnflattenRoundTrip(i, size);
    }
  }

  /** The end of a z run is the start of the next y. */
  lemma FilledRow(offsets: map<Triple, int>, size: Triple, x: int, y: int)
    requires Positive(size)
    ensures Filled(offsets, size, x, y, size.2) == Filled(offsets, size, x, y + 1, 0)
  {
    forall i | 0 <= i < Volume(size)
      ensures Filled(offsets, size, x, y, size.2)[i] == Filled(offsets, size, x, y + 1, 0)[i]
    {
      UnflattenRoundTrip(i, size);
    }
  }

  /** The end of a y run is the start of the next x. */
  lemma FilledPlane(offsets: map<Triple, int>, size: Triple, x: int)
    requires Positive(size)
    ensures Filled(offsets, size, x, size.1, 0) == Filled(offsets, size, x + 1, 0, 0)
  {
    forall i | 0 <= i < Volume(size)
      ensures Filled(offsets, size, x, size.1, 0)[i] == Filled(offsets, size, x + 1, 0, 0)[i]
    {
      UnflattenRoundTrip(i, size);
    }
  }

  /** Once every coordinate has been visited, the table is the index table. */
  lemma FilledEnd(offsets: map<Triple, int>, size: Triple)
    requires Positive(size)
    ensures Filled(offsets, size, size.0, 0, 0) == IndexTable(offsets, size)
  {
    forall i | 0 <= i < Volume(size)
      ensures Filled(offsets, size, size.0, 0, 0)[i] == IndexTable(offsets, size)[i]
    {
      UnflattenRoundTrip(i, size);
    }
  }

  /** The metadata compound save writes. */
  function MetadataOf(size: Triple, exps: Triple, edition: string, version: seq<int>, table: seq<int>, entries: seq<PaletteEntry>): (r: Metadata)
    ensures ExportStamp(r) == Ok((edition, version))
  {
    Metadata(size, exps, Some(ExportVersion(Some(edition), Some(version))), table, entries)
  }

  /** What save leaves behind: the bytes written, self.block_palette, and the error raised. */
  datatype SaveOutcome = SaveOutcome(written: seq<byte>, palette: seq<Block>, err: Option<Error>)

  /** The metadata compound save builds, and self.block_palette once it is built. */
  datatype Prepared = Prepared(meta: Result<Metadata>, palette: seq<Block>)

  /**
   * The sizes, the index table and the palette of save. The palette is extended in
   * place before it is encoded, so a palette that cannot be encoded is still left
   * extended; an error in the sizes leaves it as it was.
   */
  function PrepareMetadata(c: ConstructionValue, offsets: map<Triple, int>): (r: Prepared)
    ensures r.palette == c.palette || r.palette == ExtendPalette(c.palette)
    ensures StructureSize(c.sections.keys).Ok? && ShapeExponents(c.sectionShape).Ok? ==> r.palette == ExtendPalette(c.palette)
    ensures StructureSize(c.sections.keys).Err? || ShapeExponents(c.sectionShape).Err? ==> r.palette == c.palette
    ensures r.meta.Err? <==>
              StructureSize(c.sections.keys).Err? || ShapeExponents(c.sectionShape).Err? || EncodePalette(ExtendPalette(c.palette)).Err?
    ensures StructureSize(c.sections.keys).Err? ==> r.meta == Err(NoSections)
    ensures r.meta.Ok? ==> r.palette == ExtendPalette(c.palette)
    ensures r.meta.Ok? ==> r.meta.value.exportVersion == Some(ExportVersion(Some(c.edition), Some(c.version)))
    ensures r.meta.Ok? ==> EncodePalette(r.palette) == Ok(r.meta.value.blockPalette)
  {
    match StructureSize(c.sections.keys)
    case Err(e) => Prepared(Err(e), c.palette)
    case Ok(size) =>
      match ShapeExponents(c.sectionShape)
      case Err(e) => Prepared(Err(e), c.palette)
      case Ok(exps) =>
        var table := IndexTable(offsets, size);
        var pal := ExtendPalette(c.palette);
        match EncodePalette(pal)
        case Err(e) => Prepared(Err(e), pal)
        case Ok(entries) => Prepared(Ok(MetadataOf(size, exps, c.edition, c.version, table, entries)), pal)
  }

  /**
   * The rest of save once every section blob is in the stream (body, from position
   * start) and the metadata is prepared: the metadata blob, then the trailer. The offset
   * is packed only after the blob has been written, so an offset of 2^32 or more leaves
   * the blob in the stream.
   */
  function SaveMetadata(codec: Codec, p: Prepared, body: seq<byte>, start: nat): (r: SaveOutcome)
    ensures |r.written| >= |body| && r.written[..|body|] == body
    ensures r.palette == p.palette
    ensures r.err.None? <==> p.meta.Ok? && start + |body| < U32_BOUND
  {
    match p.meta
    case Err(e) => SaveOutcome(body, p.palette, Some(e))
    case Ok(m) =>
      var meta := codec.encodeMetadata(m);
      match PackU32(start + |body|)
      case Err(e) => SaveOutcome(body + meta, p.palette, Some(e))
      case Ok(trailer) =>
        assert (body + meta + trailer)[..|body|] == body;
        SaveOutcome(body + meta + trailer, p.palette, None)
  }

  /** Construction.save on a stream positioned at start. */
  function SaveImage(codec: Codec, c: ConstructionValue, start: nat): (r: SaveOutcome)
    requires c.sections.Valid()
    ensures |r.written| >= 9 && r.written[..9] == Header()
    ensures |r.palette| >= |c.palette| && r.palette[..|c.palette|] == c.palette
    ensures r.err.None? ==> r.palette == ExtendPalette(c.palette)
  {
    var w := WriteBlobs(codec, c.sectionShape, c.sections.values, c.sections.keys, |c.sections.keys|, start + 9);
    var body := Header() + w.bytes;
    assert body[..9] == Header();
    if w.err.Some? then SaveOutcome(body, c.palette, w.err)
    else
      var r := SaveMetadata(codec, PrepareMetadata(c, w.offsets), body, start);
      assert r.written[..9] == r.written[..|body|][..9];
      r
  }

  /**
   * save of a construction without sections: the header is written, the section loop
   * writes nothing, and max() over the empty key sequence raises.
   */
  lemma SaveWithoutSections(codec: Codec, c: ConstructionValue, start: nat)
    requires c.sections.Valid() && |c.sections.keys| == 0
    ensures SaveImage(codec, c, start).err == Some(NoSections)
    ensures SaveImage(codec, c, start).written == Header()
    ensures SaveImage(codec, c, start).palette == c.palette
  {
  }

  // ---------------------------------------------------------------------------------
  // load

  /** edition and version from export_version; a missing key raises naming that key. */
  function ExportStamp(m: Metadata): (r: Result<(string, seq<int>)>)
    ensures m.exportVersion.None? ==> r == Err(MissingKey("export_version"))
    ensures m.exportVersion.Some? && m.exportVersion.value.edition.None? ==> r == Err(MissingKey("edition"))
    ensures m.exportVersion.Some? && m.exportVersion.value.edition.Some? && m.exportVersion.value.version.None? ==>
              r == Err(MissingKey("version"))
    ensures r.Ok? ==> m.exportVersion.Some? && r.value == (m.exportVersion.value.edition.value, m.exportVersion.value.version.value)
  {
    match m.exportVersion
    case None => Err(MissingKey("export_version"))
    case Some(ev) =>
      match ev.edition
      case None => Err(MissingKey("edition"))
      case Some(edition) =>
        match ev.version
        case None => Err(MissingKey("version"))
        case Some(version) => Ok((edition, version))
  }

  /** section_shape read back as 2 ** t per axis; a negative exponent cannot shape a grid. */
  function SectionShapeOf(exps: Triple): (r: Result<Triple>)
    ensures r.Ok? <==> exps.0 >= 0 && exps.1 >= 0 && exps.2 >= 0
    ensures r.Ok? ==> Positive(r.value)
    ensures r.Err? ==> r.error == ReshapeFailed
  {
    if exps.0 < 0 || exps.1 < 0 || exps.2 < 0 then Err(ReshapeFailed)
    else Ok((Pow2(exps.0), Pow2(exps.1), Pow2(exps.2)))
  }

  /** Storing a power-of-two shape as exponents and reading it back gives the shape itself. */
  lemma ShapeRoundTrip(shape: Triple)
    requires PowerOfTwo(shape.0) && PowerOfTwo(shape.1) && PowerOfTwo(shape.2)
    ensures ShapeExponents(shape).Ok?
    ensures SectionShapeOf(ShapeExponents(shape).value) == Ok(shape)
  {
    ExponentRoundTrip(shape.0);
    ExponentRoundTrip(shape.1);
    ExponentRoundTrip(shape.2);
  }

  /**
   * The blob b[o:end] decoded, placed at the coordinates of table index i, and its cells
   * reshaped to the section shape.
   */
  function ReadSectionUntil(codec: Codec, b: seq<byte>, i: int, o: int, end: int, size: Triple, shape: Triple): (r: Result<Section>)
    requires Positive(shape)
    ensures r.Ok? ==> r.value.blocks.Valid() && r.value.blocks.shape == shape
    ensures r.Ok? ==> FromFlattenedIndex(i, size) == Ok(r.value.Coords())
  {
    match codec.decodeSection(Slice(b, o, end))
    case None => Err(NbtDecodeFailed)
    case Some(t) =>
      match FromFlattenedIndex(i, size)
      case Err(e) => Err(e)
      case Ok(c) =>
        if |t.blocks| != Volume(shape) then Err(ReshapeFailed)
        else Ok(Section(c.0, c.1, c.2, NdArray(shape, t.blocks), t.entities, t.tileEntities))
  }

  /**
   * One step of section_iter: the blob at offset o runs up to the next gzip magic after
   * o; it is decoded, placed at the coordinates of table index i, and its cells reshaped.
   */
  function ReadSection(codec: Codec, b: seq<byte>, i: int, o: int, size: Triple, shape: Triple): (r: Result<Section>)
    requires Positive(shape)
    ensures r.Ok? ==> r.value.blocks.Valid() && r.value.blocks.shape == shape
    ensures r.Ok? ==> FromFlattenedIndex(i, size) == Ok(r.value.Coords())
  {
    match FindGzipMagic(b, o + 1)
    case Err(e) => Err(e)
    case Ok(end) => ReadSectionUntil(codec, b, i, o, end, size, shape)
  }

  /** section_iter over the first n entries of the index table, skipping the 0 entries. */
  function ReadSections(codec: Codec, b: seq<byte>, table: seq<int>, n: nat, size: Triple, shape: Triple): (r: Result<seq<Section>>)
    requires n <= |table| && Positive(shape)
    ensures r.Ok? ==> forall s :: s in r.value ==> s.blocks.Valid() && s.blocks.shape == shape
    ensures r.Ok? ==> |r.value| <= n
  {
    if n == 0 then Ok([])
    else
      match ReadSections(codec, b, table, n - 1, size, shape)
      case Err(e) => Err(e)
      case Ok(items) =>
        if table[n - 1] == 0 then Ok(items)
        else
          match ReadSection(codec, b, n - 1, table[n - 1], size, shape)
          case Err(e) => Err(e)
          case Ok(s) => Ok(items + [s])
  }

  /** Once a section has failed to load, the later entries are never read. */
  lemma {:induction false} ReadSectionsErrStays(
    codec: Codec, b: seq<byte>, table: seq<int>, i: nat, n: nat, size: Triple, shape: Triple)
    requires i <= n <= |table| && Positive(shape)
    requires ReadSections(codec, b, table, i, size, shape).Err?
    ensures ReadSections(codec, b, table, n, size, shape) == ReadSections(codec, b, table, i, size, shape)
    decreases n - i
  {
    if i < n {
      ReadSectionsErrStays(codec, b, table, i, n - 1, size, shape);
    }
  }

  /**
   * Construction.load of the bytes b: the magic, the trailer, the metadata, the export
   * stamp, the palette, the shapes, then every section through create_from.
   */
  function LoadImage(codec: Codec, compose: (Block, Block) -> Block, b: seq<byte>): (r: Result<ConstructionValue>)
    ensures !(|b| >= 8 && b[..8] == MAGIC) ==> r == Err(InvalidMagic)
    ensures r.Ok? ==> WellFormed(r.value) && Positive(r.value.sectionShape)
    ensures r.Ok? ==> forall k :: k in r.value.sections.values ==>
              r.value.sections.values[k].Coords() == k && r.value.sections.values[k].blocks.shape == r.value.sectionShape
  {
    if !(|b| >= 8 && b[..8] == MAGIC) then Err(InvalidMagic)
    else
      var pos := UnpackU32(b[|b| - 4..]);
      match codec.decodeMetadata(Slice(b, pos, |b| - 4))
      case None => Err(NbtDecodeFailed)
      case Some(m) =>
        match ExportStamp(m)
        case Err(e) => Err(e)
        case Ok(stamp) =>
          match DecodePalette(compose, m.blockPalette)
          case Err(e) => Err(e)
          case Ok(palette) =>
            match SectionShapeOf(m.sectionShape)
            case Err(e) => Err(e)
            case Ok(shape) =>
              match ReadSections(codec, b, m.indexTable, |m.indexTable|, m.constructionShape, shape)
              case Err(e) => Err(e)
              case Ok(items) =>
                match Collect(items, shape)
                case Err(e) => Err(e)
                case Ok(sections) =>
                  CollectValues(items, shape);
                  Ok(ConstructionValue(sections, palette, shape, stamp.0, stamp.1))
  }

  // ---------------------------------------------------------------------------------
  // Construction.__eq__

  /**
   * Python's dict ==, after the lengths agree: a's keys in order, each looked up in b and
   * compared with ConstructionSection.__eq__, stopping at the first difference.
   */
  function SectionsEq(a: Dict<Triple, Section>, b: Dict<Triple, Section>, keys: seq<Triple>): (r: Result<bool>)
    requires forall k :: k in keys ==> k in a.values && a.values[k].blocks.Valid()
    requires forall k :: k in b.values ==> b.values[k].blocks.Valid()
    ensures r == Ok(true) ==> forall k :: k in keys ==> k in b.values && SectionEq(a.values[k], b.values[k]) == Ok(true)
    ensures (forall k :: k in keys ==> k in b.values && SectionEq(a.values[k], b.values[k]) == Ok(true)) ==> r == Ok(true)
  {
    if keys == [] then Ok(true)
    else
      var k := keys[0];
      assert forall x :: x in keys ==> x == k || x in keys[1..];
      if k !in b.values then Ok(false)
      else
        match SectionEq(a.values[k], b.values[k])
        case Err(e) => Err(e)
        case Ok(same) => if !same then Ok(false) else SectionsEq(a, b, keys[1..])
  }

  /** Construction.__eq__: the sections dicts, then the palettes; the export stamp is not compared. */
  function ConstructionEq(a: ConstructionValue, b: ConstructionValue): (r: Result<bool>)
    requires WellFormed(a) && WellFormed(b)
    ensures r == Ok(true) ==> a.palette == b.palette && |a.sections.keys| == |b.sections.keys|
    ensures r == Ok(true) ==> forall k :: k in a.sections.values ==>
              k in b.sections.values && SectionEq(a.sections.values[k], b.sections.values[k]) == Ok(true)
    ensures a.palette == b.palette && |a.sections.keys| == |b.sections.keys|
            && (forall k :: k in a.sections.values ==>
                  k in b.sections.values && SectionEq(a.sections.values[k], b.sections.values[k]) == Ok(true))
            ==> r == Ok(true)
  {
    if |a.sections.keys| != |b.sections.keys| then Ok(false)
    else
      match SectionsEq(a.sections, b.sections, a.sections.keys)
      case Err(e) => Err(e)
      case Ok(same) => if !same then Ok(false) else Ok(a.palette == b.palette)
  }

  /** A sequence of distinct elements has as many elements as its set. */
  lemma {:induction false} DistinctCard<T>(s: seq<T>)
    requires forall i, j :: 0 <= i < j < |s| ==> s[i] != s[j]
    ensures |set x | x in s| == |s|
  {
    if s != [] {
      var init := s[..|s| - 1];
      DistinctCard(init);
      assert (set x | x in s) == (set x | x in init) + {s[|s| - 1]};
    }
  }

  /** Over keys whose grids all have one shape, the loop never raises and compares sections as values. */
  lemma {:induction false} SectionsEqSameShape(a: Dict<Triple, Section>, b: Dict<Triple, Section>, keys: seq<Triple>, shape: Triple)
    requires forall k :: k in keys ==> k in a.values
    requires forall k :: k in a.values ==> a.values[k].blocks.Valid() && a.values[k].blocks.shape == shape
    requires forall k :: k in b.values ==> b.values[k].blocks.Valid() && b.values[k].blocks.shape == shape
    ensures SectionsEq(a, b, keys) == Ok(forall k :: k in keys ==> k in b.values && a.values[k] == b.values[k])
  {
    if keys != [] {
      var k := keys[0];
      assert forall x :: x in keys ==> x == k || x in keys[1..];
      SectionsEqSameShape(a, b, keys[1..], shape);
      if k in b.values {
        SectionEqSameShape(a.values[k], b.values[k]);
      }
    }
  }

  lemma SubsetCard<T>(a: set<T>, b: set<T>)
    requires a <= b
    ensures |a| <= |b|
    decreases a
  {
    if a != {} {
      var x :| x in a;
      SubsetCard(a - {x}, b - {x});
    }
  }

  /** Two dicts with as many keys, the keys of one among the other's, have the same keys. */
  lemma SameKeys(a: Dict<Triple, Section>, b: Dict<Triple, Section>)
    requires a.Valid() && b.Valid() && |a.keys| == |b.keys| && a.values.Keys <= b.values.Keys
    ensures a.values.Keys == b.values.Keys
  {
    DistinctCard(a.keys);
    DistinctCard(b.keys);
    a.KeySet();
    b.KeySet();
    if a.values.Keys != b.values.Keys {
      var x :| x in b.values.Keys && x !in a.values.Keys;
      SubsetCard(a.values.Keys, b.values.Keys - {x});
    }
  }

  /**
   * When every grid has one shape, __eq__ never raises and holds exactly when the
   * sections (as a mapping, whatever their order) and the palettes are equal.
   */
  lemma ConstructionEqSameShape(a: ConstructionValue, b: ConstructionValue, shape: Triple)
    requires WellFormed(a) && WellFormed(b)
    requires forall k :: k in a.sections.values ==> a.sections.values[k].blocks.shape == shape
    requires forall k :: k in b.sections.values ==> b.sections.values[k].blocks.shape == shape
    ensures ConstructionEq(a, b) == Ok(a.sections.values == b.sections.values && a.palette == b.palette)
  {
    var ma, mb := a.sections.values, b.sections.values;
    SectionsEqSameShape(a.sections, b.sections, a.sections.keys, shape);
    if |a.sections.keys| == |b.sections.keys| {
      if forall k :: k in a.sections.keys ==> k in mb && ma[k] == mb[k] {
        SameKeys(a.sections, b.sections);
        assert ma == mb;
      }
    } else {
      DistinctCard(a.sections.keys);
      DistinctCard(b.sections.keys);
      a.sections.KeySet();
      b.sections.KeySet();
      assert ma.Keys != mb.Keys;
    }
  }
}
