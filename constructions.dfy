/**
 * The Construction class: create_from, save and load performed step by step, as the
 * source does, each proved to do what the corresponding function of the Container
 * module describes.
 */
module Constructions {
  import opened Wrappers
  import opened PythonOps
  import opened Bytes
  import opened Flatten
  import opened ArrayWidth
  import opened Sections
  import opened Palette
  import opened Nbt
  import opened Container

  /** Appending in two steps appends the concatenation. */
  lemma AppendAssoc<T>(a: seq<T>, b: seq<T>, c: seq<T>)
    ensures a + b + c == a + (b + c)
  {
  }

  /** A binary stream open for writing: everything written to it so far. */
  class ByteSink {
    var data: seq<byte>

    constructor(initial: seq<byte>)
      ensures data == initial
    {
      data := initial;
    }

    method Write(b: seq<byte>)
      modifies this
      ensures data == old(data) + b
    {
      data := data + b;
    }
  }

  // ---------------------------------------------------------------------------------
  // create_from

  /** The loop of create_from: each section in turn is stored under its coordinates. */
  method CollectSections(items: seq<Section>, shape: Triple) returns (r: Result<Dict<Triple, Section>>)
    ensures r == Collect(items, shape)
  {
    var sections: Dict<Triple, Section> := EmptyDict();
    var i := 0;
    while i < |items|
      invariant 0 <= i <= |items|
      invariant Collect(items[..i], shape) == Ok(sections)
    {
      var section := items[i];
      assert items[..i + 1][..i] == items[..i];
      if section.blocks.shape != shape {
        CollectErrStays(items, shape, i + 1);
        return Err(ShapeMismatch(section.sx, section.sy, section.sz));
      }
      sections := sections.Set(section.Coords(), section);
      i := i + 1;
    }
    assert items[..i] == items;
    return Ok(sections);
  }

  // ---------------------------------------------------------------------------------
  // save

  /**
   * index_table = [0] * n, then every coordinate of the structure, in itertools.product
   * order, writes the offset of the section there (or 0) at its flattened index.
   */
  method FillIndexTable(offsets: map<Triple, int>, size: Triple) returns (table: seq<int>)
    ensures table == IndexTable(offsets, size)
  {
    var n := if Volume(size) < 0 then 0 else Volume(size);
    var a := new int[n](_ => 0);
    ghost var zeros := a[..];
    if Positive(size) {
      FilledStart(offsets, size);
      assert a[..] == Filled(offsets, size, 0, 0, 0);
    }
    var x := 0;
    while x < size.0
      invariant 0 <= x && (Positive(size) ==> x <= size.0 && a[..] == Filled(offsets, size, x, 0, 0))
      invariant !Positive(size) ==> a[..] == zeros
    {
      var y := 0;
      while y < size.1
        invariant 0 <= x < size.0 && 0 <= y
        invariant Positive(size) ==> y <= size.1 && a[..] == Filled(offsets, size, x, y, 0)
        invariant !Positive(size) ==> a[..] == zeros
      {
        var z := 0;
        while z < size.2
          invariant 0 <= x < size.0 && 0 <= y < size.1 && 0 <= z
          invariant Positive(size) ==> z <= size.2 && a[..] == Filled(offsets, size, x, y, z)
          invariant !Positive(size) ==> a[..] == zeros
        {
          FilledWrite(offsets, size, x, y, z);
          a[ToFlattenedIndex(x, y, z, size)] := GetOrZero(offsets, (x, y, z));
          z := z + 1;
        }
        if Positive(size) {
          FilledRow(offsets, size, x, y);
        }
        y := y + 1;
      }
      if Positive(size) {
        FilledPlane(offsets, size, x);
      }
      x := x + 1;
    }
    table := a[..];
    if Positive(size) {
      FilledEnd(offsets, size);
    } else {
      assert forall i :: 0 <= i < n ==> table[i] == IndexTable(offsets, size)[i];
    }
  }

  /**
   * The palette loop of save: for each block, when some of its extra blocks are not in
   * the palette (as it was before the loop), append those, in order.
   */
  method CollectMissingExtras(p: seq<Block>) returns (extras: seq<Block>)
    ensures extras == MissingExtras(p, p)
  {
    extras := [];
    var i := 0;
    while i < |p|
      invariant 0 <= i <= |p|
      invariant extras == MissingExtras(p, p[..i])
    {
      var block := p[i];
      MissingExtrasStep(p, p, i);
      if !(forall eb :: eb in block.extraBlocks ==> eb in p) {
        ghost var prefix := extras;
        var j := 0;
        while j < |block.extraBlocks|
          invariant 0 <= j <= |block.extraBlocks|
          invariant extras == prefix + MissingIn(p, block.extraBlocks[..j])
        {
          var eb := block.extraBlocks[j];
          ghost var missing := MissingIn(p, block.extraBlocks[..j]);
          MissingInStep(p, block.extraBlocks, j);
          if eb !in p {
            AppendAssoc(prefix, missing, [eb]);
            extras := extras + [eb];
          } else {
            assert missing + [] == missing;
          }
          j := j + 1;
        }
        assert block.extraBlocks[..j] == block.extraBlocks;
      } else {
        MissingInNone(p, block.extraBlocks);
        assert extras + MissingIn(p, block.extraBlocks) == extras;
      }
      i := i + 1;
    }
    assert p[..i] == p;
  }

  /** The loop building block_palette_nbt: one compound per palette block, in order. */
  method EncodePaletteEntries(pal: seq<Block>) returns (r: Result<seq<PaletteEntry>>)
    ensures r == EncodePalette(pal)
  {
    var entries: seq<PaletteEntry> := [];
    var i := 0;
    while i < |pal|
      invariant 0 <= i <= |pal|
      invariant EncodeEntries(pal, pal[..i]) == Ok(entries)
    {
      assert pal[..i + 1][..i] == pal[..i];
      var entry := EncodeEntry(pal, pal[i]);
      if entry.Err? {
        assert pal[i] in pal;
        return Err(entry.error);
      }
      entries := entries + [entry.value];
      i := i + 1;
    }
    assert pal[..i] == pal;
    return Ok(entries);
  }

  // ---------------------------------------------------------------------------------
  // load

  /** The reference map after the first i entries: the keys in order, each with its references. */
  ghost predicate RefMap(entries: seq<PaletteEntry>, i: nat, extraMap: Dict<nat, seq<int>>)
    requires i <= |entries|
  {
    && extraMap.Valid() && extraMap.keys == Referencing(entries, i)
    && forall k :: k in extraMap.values ==> k < i && extraMap.values[k] == entries[k].extraBlocks
  }

  /** Entry i adds its index to the map exactly when it has references. */
  lemma RefMapStep(entries: seq<PaletteEntry>, i: nat, extraMap: Dict<nat, seq<int>>)
    requires i < |entries| && RefMap(entries, i, extraMap)
    ensures entries[i].extraBlocks != [] ==> i !in extraMap.values
    ensures entries[i].extraBlocks != [] ==> RefMap(entries, i + 1, extraMap.Set(i, entries[i].extraBlocks))
    ensures entries[i].extraBlocks == [] ==> RefMap(entries, i + 1, extraMap)
  {
  }

  /**
   * The first loop of the palette part of load: the bare block of every entry, and the
   * map from the index of each entry that has references to those references.
   */
  method BaseEntries(entries: seq<PaletteEntry>) returns (palette: seq<Block>, extraMap: Dict<nat, seq<int>>)
    ensures palette == BaseBlocks(entries)
    ensures extraMap.Valid() && extraMap.keys == Referencing(entries, |entries|)
    ensures forall k :: k in extraMap.values ==> k < |entries| && extraMap.values[k] == entries[k].extraBlocks
  {
    palette := [];
    extraMap := EmptyDict();
    var i := 0;
    while i < |entries|
      invariant 0 <= i <= |entries|
      invariant |palette| == i && forall m :: 0 <= m < i ==> palette[m] == BaseOf(entries[m])
      invariant RefMap(entries, i, extraMap)
    {
      var entry := entries[i];
      RefMapStep(entries, i, extraMap);
      if entry.extraBlocks != [] {
        extraMap := extraMap.Set(i, entry.extraBlocks);
      }
      palette := palette + [BaseOf(entry)];
      i := i + 1;
    }
  }

  /** resulting_block = resulting_block + extra_block over the blocks objs, in order. */
  method FoldBlocks(compose: (Block, Block) -> Block, block: Block, objs: seq<Block>) returns (resulting: Block)
    ensures resulting == Fold(compose, block, objs)
  {
    resulting := block;
    var t := 0;
    while t < |objs|
      invariant 0 <= t <= |objs|
      invariant resulting == Fold(compose, block, objs[..t])
    {
      assert objs[..t + 1][..t] == objs[..t];
      resulting := compose(resulting, objs[t]);
      t := t + 1;
    }
    assert objs[..t] == objs;
  }

  /**
   * The palette part of load: the bare blocks and the reference map are built first;
   * then, over that map in insertion order, each such entry is folded with `+` over the
   * blocks its references name in the list as it stands, and stored in place.
   */
  method DecodePaletteEntries(compose: (Block, Block) -> Block, entries: seq<PaletteEntry>) returns (r: Result<seq<Block>>)
    ensures r == DecodePalette(compose, entries)
  {
    var palette, extraMap := BaseEntries(entries);
    var keys := extraMap.keys;
    var j := 0;
    while j < |keys|
      invariant 0 <= j <= |keys|
      invariant Resolve(compose, entries, Resume(keys, j)) == Ok(palette)
    {
      var index := keys[j];
      DecodeKeyStep(compose, entries, j, palette);
      assert index in extraMap.values;
      var objs := Lookup(palette, extraMap.values[index]);
      if objs.Err? {
        return Err(objs.error);
      }
      var resulting := FoldBlocks(compose, palette[index], objs.value);
      palette := palette[index := resulting];
      j := j + 1;
    }
    ReferencingGaps(entries, |keys|);
    ResolveSkip(compose, entries, Resume(keys, |keys|), |entries|);
    return Ok(palette);
  }

  /** section_iter, run to the end: every non-zero index table entry in order becomes a section. */
  method ReadAllSections(codec: Codec, b: seq<byte>, table: seq<int>, size: Triple, shape: Triple)
    returns (r: Result<seq<Section>>)
    requires Positive(shape)
    ensures r == ReadSections(codec, b, table, |table|, size, shape)
  {
    var items: seq<Section> := [];
    var i := 0;
    while i < |table|
      invariant 0 <= i <= |table|
      invariant ReadSections(codec, b, table, i, size, shape) == Ok(items)
    {
      var indexValue := table[i];
      if indexValue != 0 {
        var section := ReadSection(codec, b, i, indexValue, size, shape);
        if section.Err? {
          ReadSectionsErrStays(codec, b, table, i + 1, |table|, size, shape);
          return Err(section.error);
        }
        items := items + [section.value];
      }
      i := i + 1;
    }
    return Ok(items);
  }

  // ---------------------------------------------------------------------------------
  // The class

  class Construction {
    var sections: Dict<Triple, Section>
    var blockPalette: seq<Block>
    var sectionShape: Triple
    var sourceEdition: string
    var sourceVersion: seq<int>

    /** The construction's state as a value. */
    function Value(): ConstructionValue
      reads this
    {
      ConstructionValue(sections, blockPalette, sectionShape, sourceEdition, sourceVersion)
    }

    constructor(sections: Dict<Triple, Section>, blockPalette: seq<Block>, sectionShape: Triple,
                sourceEdition: string, sourceVersion: seq<int>)
      ensures Value() == ConstructionValue(sections, blockPalette, sectionShape, sourceEdition, sourceVersion)
    {
      this.sections := sections;
      this.blockPalette := blockPalette;
      this.sectionShape := sectionShape;
      this.sourceEdition := sourceEdition;
      this.sourceVersion := sourceVersion;
    }

    /** Construction.create_from: the palette, edition and version are passed through as given. */
    static method CreateFrom(items: seq<Section>, palette: seq<Block>, edition: string, version: seq<int>,
                             shape: Triple) returns (r: Result<Construction>)
      ensures r.Err? ==> Collect(items, shape) == Err(r.error)
      ensures r.Ok? ==> Collect(items, shape).Ok? && fresh(r.value)
      ensures r.Ok? ==> r.value.Value() == ConstructionValue(Collect(items, shape).value, palette, shape, edition, version)
    {
      var sections := CollectSections(items, shape);
      if sections.Err? {
        return Err(sections.error);
      }
      var c := new Construction(sections.value, palette, shape, edition, version);
      return Ok(c);
    }

    /** The palette step of save: missing extra blocks are appended to self.block_palette. */
    method ExtendBlockPalette()
      modifies this
      ensures blockPalette == ExtendPalette(old(blockPalette))
      ensures sections == old(sections) && sectionShape == old(sectionShape)
      ensures sourceEdition == old(sourceEdition) && sourceVersion == old(sourceVersion)
    {
      var extras := CollectMissingExtras(blockPalette);
      blockPalette := blockPalette + extras;
    }

    /**
     * The section loop of save, on a stream positioned at start: each section's offset
     * is recorded as the stream position, then its blob is written.
     */
    method WriteSections(codec: Codec, sink: ByteSink, start: int) returns (offsets: map<Triple, int>, err: Option<Error>)
      requires sections.Valid() && |sink.data| == start
      modifies sink
      ensures var w := WriteBlobs(codec, sectionShape, sections.values, sections.keys, |sections.keys|, start);
        sink.data == old(sink.data) + w.bytes && offsets == w.offsets && err == w.err
    {
      var keys, secs, shape := sections.keys, sections.values, sectionShape;
      offsets := map[];
      ghost var written: seq<byte> := [];
      var i := 0;
      while i < |keys|
        invariant 0 <= i <= |keys|
        invariant sink.data == old(sink.data) + written
        invariant WriteBlobs(codec, shape, secs, keys, i, start) == Written(written, offsets, None)
      {
        var k := keys[i];
        WriteBlobsTurn(codec, shape, secs, keys, i, start, written, offsets);
        offsets := offsets[k := |sink.data|];
        var blob := SectionBlob(codec, shape, secs[k]);
        if blob.Err? {
          return offsets, Some(blob.error);
        }
        sink.Write(blob.value);
        written := written + blob.value;
        i := i + 1;
      }
      return offsets, None;
    }

    /** The sizes, the index table and the palette of save; the palette is extended in place. */
    method BuildMetadata(offsets: map<Triple, int>) returns (m: Result<Metadata>)
      modifies this
      ensures var p := PrepareMetadata(old(Value()), offsets);
        m == p.meta && blockPalette == p.palette
      ensures sections == old(sections) && sectionShape == old(sectionShape)
      ensures sourceEdition == old(sourceEdition) && sourceVersion == old(sourceVersion)
    {
      var size := StructureSize(sections.keys);
      if size.Err? {
        return Err(size.error);
      }
      var exps := ShapeExponents(sectionShape);
      if exps.Err? {
        return Err(exps.error);
      }
      var table := FillIndexTable(offsets, size.value);
      ExtendBlockPalette();
      var entries := EncodePaletteEntries(blockPalette);
      if entries.Err? {
        return Err(entries.error);
      }
      return Ok(MetadataOf(size.value, exps.value, sourceEdition, sourceVersion, table, entries.value));
    }

    /**
     * The rest of save once the header and the section blobs (body, written after
     * prefix) are in the stream and the metadata m is built: the metadata blob, then
     * the trailer that points at it.
     */
    method WriteMetadata(codec: Codec, sink: ByteSink, m: Result<Metadata>, ghost prefix: seq<byte>, ghost body: seq<byte>)
      returns (err: Option<Error>)
      requires sink.data == prefix + body
      modifies sink
      ensures var out := SaveMetadata(codec, Prepared(m, blockPalette), body, |prefix|);
        sink.data == prefix + out.written && err == out.err
    {
      if m.Err? {
        return Some(m.error);
      }
      var meta := codec.encodeMetadata(m.value);
      var position := |sink.data|;
      sink.Write(meta);
      AppendAssoc(prefix, body, meta);
      var trailer := PackU32(position);
      if trailer.Err? {
        return Some(trailer.error);
      }
      sink.Write(trailer.value);
      AppendAssoc(prefix, body + meta, trailer.value);
      return None;
    }

    /**
     * Construction.save to the stream sink: exactly the bytes SaveImage describes are
     * appended, self.block_palette is left as it describes, and the same error is raised.
     */
    method Save(codec: Codec, sink: ByteSink) returns (err: Option<Error>)
      requires sections.Valid()
      modifies this, sink
      ensures var out := SaveImage(codec, old(Value()), old(|sink.data|));
        && sink.data == old(sink.data) + out.written
        && blockPalette == out.palette
        && err == out.err
      ensures sections == old(sections) && sectionShape == old(sectionShape)
      ensures sourceEdition == old(sourceEdition) && sourceVersion == old(sourceVersion)
    {
      var start := |sink.data|;
      sink.Write(MAGIC);
      sink.Write([FORMAT_VERSION]);
      assert sink.data == old(sink.data) + Header();
      var offsets, sectionErr := WriteSections(codec, sink, start + 9);
      ghost var w := WriteBlobs(codec, sectionShape, sections.values, sections.keys, |sections.keys|, start + 9);
      ghost var body := Header() + w.bytes;
      assert sink.data == old(sink.data) + body;
      if sectionErr.Some? {
        return sectionErr;
      }
      var m := BuildMetadata(offsets);
      err := WriteMetadata(codec, sink, m, old(sink.data), body);
    }

    /** Construction.load from the bytes b: the construction LoadImage describes, or its error. */
    static method Load(codec: Codec, compose: (Block, Block) -> Block, b: seq<byte>) returns (r: Result<Construction>)
      ensures r.Err? ==> LoadImage(codec, compose, b) == Err(r.error)
      ensures r.Ok? ==> LoadImage(codec, compose, b).Ok? && fresh(r.value)
      ensures r.Ok? ==> r.value.Value() == LoadImage(codec, compose, b).value
    {
      if !(|b| >= 8 && b[..8] == MAGIC) {
        return Err(InvalidMagic);
      }
      var position := UnpackU32(b[|b| - 4..]);
      var metadata := codec.decodeMetadata(Slice(b, position, |b| - 4));
      if metadata.None? {
        return Err(NbtDecodeFailed);
      }
      var m := metadata.value;
      var stamp := ExportStamp(m);
      if stamp.Err? {
        return Err(stamp.error);
      }
      var palette := DecodePaletteEntries(compose, m.blockPalette);
      if palette.Err? {
        return Err(palette.error);
      }
      var shape := SectionShapeOf(m.sectionShape);
      if shape.Err? {
        return Err(shape.error);
      }
      var items := ReadAllSections(codec, b, m.indexTable, m.constructionShape, shape.value);
      if items.Err? {
        return Err(items.error);
      }
      r := CreateFrom(items.value, palette.value, stamp.value.0, stamp.value.1, shape.value);
    }
  }
}
