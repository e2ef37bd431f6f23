/**
 * Saving and loading again. A construction that save writes without raising is read
 * back by load with the same sections, the same section shape and export stamp, and
 * each palette entry rebuilt from its bare block and its extra blocks; with Amulet's
 * Block `+`, which appends a block without extra blocks as one more extra block, load
 * gives back a construction equal to the one saved.
 */
module RoundTrip {
  import opened Wrappers
  import opened PythonOps
  import opened Bytes
  import opened Flatten
  import opened Sections
  import opened Palette
  import opened Nbt
  import opened Container

  // ---------------------------------------------------------------------------------
  // Where save puts the section blobs

  /**
   * blob lies at position o of bytes and is followed either by the end of bytes or by
   * the gzip magic.
   */
  predicate Placed(bytes: seq<byte>, o: int, blob: seq<byte>) {
    && 0 <= o && o + |blob| <= |bytes| && bytes[o..o + |blob|] == blob
    && (o + |blob| == |bytes| || (o + |blob| + 2 <= |bytes| && bytes[o + |blob|..o + |blob| + 2] == GZIP_MAGIC))
  }

  /** Writing another gzip stream after a placed blob keeps it placed. */
  lemma PlacedExtend(bytes: seq<byte>, o: int, blob: seq<byte>, more: seq<byte>, after: seq<byte>)
    requires Placed(bytes, o, blob) && GzipStream(more) && after == bytes + more
    ensures Placed(after, o, blob)
    ensures o + |blob| + 2 <= |after|
  {
    var e := o + |blob|;
    assert after[o..e] == bytes[o..e];
    if e == |bytes| {
      assert after[e..e + 2] == more[..2];
    } else {
      assert after[e..e + 2] == bytes[e..e + 2];
    }
  }

  /** A blob written at the end of the bytes is placed there. */
  lemma PlacedNew(bytes: seq<byte>, blob: seq<byte>, after: seq<byte>)
    requires after == bytes + blob
    ensures Placed(after, |bytes|, blob)
  {
    assert after[|bytes|..|bytes| + |blob|] == blob;
  }

  /** after is m with k mapped to v. */
  predicate Updated(m: map<Triple, int>, k: Triple, v: int, after: map<Triple, int>) {
    after == m[k := v]
  }

  /** The blob of every recorded key is placed at its offset, counted from start. */
  predicate AllPlaced(blobs: map<Triple, seq<byte>>, start: int, bytes: seq<byte>, offsets: map<Triple, int>) {
    forall k :: k in offsets ==> k in blobs && Placed(bytes, offsets[k] - start, blobs[k])
  }

  /** Writing the blob of one more key at the end keeps every earlier blob placed, and places the new one. */
  lemma PlacedStep(blobs: map<Triple, seq<byte>>, start: int, bytes: seq<byte>, offsets: map<Triple, int>, k: Triple,
                   bytes': seq<byte>, offsets': map<Triple, int>)
    requires AllPlaced(blobs, start, bytes, offsets)
    requires k in blobs && GzipStream(blobs[k])
    requires bytes' == bytes + blobs[k] && Updated(offsets, k, start + |bytes|, offsets')
    ensures AllPlaced(blobs, start, bytes', offsets')
  {
    forall x | x in offsets'
      ensures x in blobs && Placed(bytes', offsets'[x] - start, blobs[x])
    {
      if x == k {
        PlacedNew(bytes, blobs[k], bytes');
      } else {
        PlacedExtend(bytes, offsets[x] - start, blobs[x], blobs[k], bytes');
      }
    }
  }

  /** One more turn of the section loop keeps every blob written so far placed, and places the next. */
  lemma BlobsPlacedStep(codec: Codec, shape: Triple, secs: map<Triple, Section>, keys: seq<Triple>, start: int,
                        blobs: map<Triple, seq<byte>>, n: nat)
    requires 0 < n <= |keys| && forall k :: k in keys ==> k in secs
    requires keys[n - 1] in blobs && GzipStream(blobs[keys[n - 1]])
    requires SectionBlob(codec, shape, secs[keys[n - 1]]) == Ok(blobs[keys[n - 1]])
    requires WriteBlobs(codec, shape, secs, keys, n - 1, start).err.None?
    requires AllPlaced(blobs, start, WriteBlobs(codec, shape, secs, keys, n - 1, start).bytes,
                       WriteBlobs(codec, shape, secs, keys, n - 1, start).offsets)
    ensures WriteBlobs(codec, shape, secs, keys, n, start).err.None?
    ensures AllPlaced(blobs, start, WriteBlobs(codec, shape, secs, keys, n, start).bytes,
                      WriteBlobs(codec, shape, secs, keys, n, start).offsets)
  {
    var w0 := WriteBlobs(codec, shape, secs, keys, n - 1, start);
    var w := WriteBlobs(codec, shape, secs, keys, n, start);
    WriteBlobsStep(codec, shape, secs, keys, n, start);
    PlacedStep(blobs, start, w0.bytes, w0.offsets, keys[n - 1], w.bytes, w.offsets);
  }

  /**
   * After the first n turns of the section loop, every section's blob lies at the offset
   * recorded for it (counted from start), and is followed by the next blob or by the end
   * of the loop's output.
   */
  lemma {:induction false} BlobsPlaced(codec: Codec, shape: Triple, secs: map<Triple, Section>, keys: seq<Triple>, start: int,
                                       blobs: map<Triple, seq<byte>>, n: nat)
    requires n <= |keys| && forall k :: k in keys ==> k in secs && k in blobs
    requires forall j {:trigger SectionBlob(codec, shape, secs[keys[j]])} ::
      0 <= j < |keys| ==> SectionBlob(codec, shape, secs[keys[j]]) == Ok(blobs[keys[j]])
    requires forall j {:trigger blobs[keys[j]]} :: 0 <= j < |keys| ==> GzipStream(blobs[keys[j]])
    ensures WriteBlobs(codec, shape, secs, keys, n, start).err.None?
    ensures AllPlaced(blobs, start, WriteBlobs(codec, shape, secs, keys, n, start).bytes,
                      WriteBlobs(codec, shape, secs, keys, n, start).offsets)
  {
    if n > 0 {
      BlobsPlaced(codec, shape, secs, keys, start, blobs, n - 1);
      assert keys[n - 1] in keys && GzipStream(blobs[keys[n - 1]]);
      assert SectionBlob(codec, shape, secs[keys[n - 1]]) == Ok(blobs[keys[n - 1]]);
      BlobsPlacedStep(codec, shape, secs, keys, start, blobs, n);
    }
  }

  /** A slice of the middle part of a concatenation is a slice of that part. */
  lemma SliceOfMiddle(pre: seq<byte>, mid: seq<byte>, post: seq<byte>, lo: int, hi: int)
    requires 0 <= lo <= hi <= |mid|
    ensures (pre + mid + post)[|pre| + lo..|pre| + hi] == mid[lo..hi]
  {
    var s := pre + mid + post;
    assert forall j :: |pre| + lo <= j < |pre| + hi ==> s[j] == mid[j - |pre|];
  }

  /**
   * In the whole file, a blob placed in the section bytes is followed by the gzip magic:
   * the next blob's or the metadata's.
   */
  lemma PlacedInFile(bytes: seq<byte>, meta: seq<byte>, trailer: seq<byte>, o: int, blob: seq<byte>)
    requires Placed(bytes, o, blob) && GzipStream(meta)
    ensures var b := Header() + bytes + meta + trailer; var p := 9 + o;
      && 0 <= p && p + |blob| + 2 <= |b|
      && b[p..p + |blob|] == blob
      && b[p + |blob|..p + |blob| + 2] == GZIP_MAGIC
  {
    var body := bytes + meta;
    PlacedExtend(bytes, o, blob, meta, body);
    assert Header() + bytes + meta + trailer == Header() + body + trailer;
    SliceOfMiddle(Header(), body, trailer, o, o + |blob|);
    SliceOfMiddle(Header(), body, trailer, o + |blob|, o + |blob| + 2);
  }

  // ---------------------------------------------------------------------------------
  // Reading one section back

  /** A grid of a positive shape has cells. */
  lemma PositiveVolume(shape: Triple)
    requires Positive(shape)
    ensures Volume(shape) > 0
  {
    MulAtLeast(shape.0, shape.1);
    MulAtLeast(shape.0 * shape.1, shape.2);
  }

  /** What save asks of a section for load to read it back: its cells fit a signed 64-bit array. */
  predicate StorableCells(s: Section) {
    forall x :: x in s.blocks.cells ==> 0 <= x < 0x8000_0000_0000_0000
  }

  /**
   * The blob of section s, written at position o and followed by another gzip stream, is
   * read back as s itself from its own table index.
   */
  lemma ReadBackSection(codec: Codec, b: seq<byte>, o: nat, size: Triple, shape: Triple, s: Section)
    requires Lawful(codec) && SingleMagicCodec(codec) && Positive(shape)
    requires s.blocks.Valid() && s.blocks.shape == shape && StorableCells(s) && InBounds(s.Coords(), size)
    requires |s.blocks.cells| > 0
    requires var blob := codec.encodeSection(SectionTagOf(s));
      && o + |blob| + 2 <= |b| && b[o..o + |blob|] == blob && b[o + |blob|..o + |blob| + 2] == GZIP_MAGIC
    ensures ReadSection(codec, b, ToFlattenedIndex(s.sx, s.sy, s.sz, size), o, size, shape) == Ok(s)
  {
    var t := SectionTagOf(s);
    var blob := codec.encodeSection(t);
    assert SingleMagic(blob) && GzipStream(blob);
    SearchStopsAtNextStream(b, o, blob);
    ChosenTagFits(s.blocks.cells);
    assert codec.decodeSection(Slice(b, o, o + |blob|)) == Some(t);
    FlattenRoundTrip(s.Coords(), size);
  }
  /**
   * section_iter ends a blob at the first gzip magic after its offset. A section blob
   * that holds the magic inside it, as deflate data, the gzip header's MTIME or its
   * CRC32 can, is cut there: the decoder is handed a strict prefix of the blob.
   */
  lemma InnerMagicTruncates(b: seq<byte>, o: nat, blob: seq<byte>, q: nat)
    requires o + |blob| <= |b| && b[o..o + |blob|] == blob
    requires 0 < q && MagicAt(blob, q)
    ensures FindGzipMagic(b, o + 1).Ok?
    ensures var e := FindGzipMagic(b, o + 1).value;
      o < e <= o + q && Slice(b, o, e) == blob[..e - o] && |Slice(b, o, e)| < |blob|
  {
    assert b[o + q] == blob[q] && b[o + q + 1] == blob[q + 1];
    assert MagicAt(b, o + q);
    var e := FindGzipMagic(b, o + 1).value;
    assert blob[..e - o] == b[o..e];
  }

  /**
   * A read that ends each blob where it really ends, at the start of the next blob or of
   * the metadata, gives the section back for any lawful codec, whatever bytes the blob
   * holds.
   */
  lemma ReadUntilBlobEnd(codec: Codec, b: seq<byte>, o: nat, size: Triple, shape: Triple, s: Section)
    requires Lawful(codec) && Positive(shape)
    requires s.blocks.Valid() && s.blocks.shape == shape && StorableCells(s) && InBounds(s.Coords(), size)
    requires |s.blocks.cells| > 0
    requires var blob := codec.encodeSection(SectionTagOf(s)); o + |blob| <= |b| && b[o..o + |blob|] == blob
    ensures var blob := codec.encodeSection(SectionTagOf(s));
      ReadSectionUntil(codec, b, ToFlattenedIndex(s.sx, s.sy, s.sz, size), o, o + |blob|, size, shape) == Ok(s)
  {
    var t := SectionTagOf(s);
    var blob := codec.encodeSection(t);
    assert Slice(b, o, o + |blob|) == blob;
    assert codec.decodeSection(blob) == Some(t);
    FlattenRoundTrip(s.Coords(), size);
  }

  // ---------------------------------------------------------------------------------
  // Reading every section back through the index table

  /** The blob of section s lies at position o of b, followed by another gzip stream. */
  predicate BlobAt(codec: Codec, b: seq<byte>, o: int, s: Section) {
    && |s.blocks.cells| > 0
    && var blob := codec.encodeSection(SectionTagOf(s));
       && 0 <= o && o + |blob| + 2 <= |b|
       && b[o..o + |blob|] == blob && b[o + |blob|..o + |blob| + 2] == GZIP_MAGIC
  }

  /** What save asks of a section stored under key k for load to read it back there. */
  ghost predicate SectionSaveable(s: Section, k: Triple, shape: Triple) {
    && s.Coords() == k && s.blocks.Valid() && s.blocks.shape == shape && StorableCells(s)
    && 0 <= k.0 && 0 <= k.1 && 0 <= k.2
  }

  /**
   * Index table entry i reads back as the section at its coordinates: it is 0 exactly
   * when there is none, and otherwise section_iter rebuilds that section from it.
   */
  ghost predicate EntryReadsBack(codec: Codec, b: seq<byte>, table: seq<int>, i: int, size: Triple, shape: Triple,
                                 secs: map<Triple, Section>)
    requires 0 <= i < |table| && Positive(shape)
  {
    && FromFlattenedIndex(i, size).Ok?
    && var u := FromFlattenedIndex(i, size).value;
       && (table[i] != 0 <==> u in secs)
       && (u in secs ==> ReadSection(codec, b, i, table[i], size, shape) == Ok(secs[u]))
  }

  ghost predicate ReadsBack(codec: Codec, b: seq<byte>, table: seq<int>, size: Triple, shape: Triple,
                            secs: map<Triple, Section>)
    requires Positive(shape)
  {
    forall i :: 0 <= i < |table| ==> EntryReadsBack(codec, b, table, i, size, shape, secs)
  }

  /**
   * The index table of sections placed in b: every entry reads back the section at its
   * coordinates, because each offset is non-zero and points at that section's blob.
   */
  lemma TableReadsBack(codec: Codec, b: seq<byte>, offsets: map<Triple, int>, size: Triple, shape: Triple,
                       secs: map<Triple, Section>)
    requires Lawful(codec) && SingleMagicCodec(codec) && Positive(size) && Positive(shape)
    requires forall k :: k in offsets <==> k in secs
    requires forall k :: k in secs ==>
      && InBounds(k, size) && SectionSaveable(secs[k], k, shape)
      && offsets[k] != 0 && BlobAt(codec, b, offsets[k], secs[k])
    ensures ReadsBack(codec, b, IndexTable(offsets, size), size, shape, secs)
  {
    var table := IndexTable(offsets, size);
    PositiveVolume(size);
    forall i | 0 <= i < |table|
      ensures EntryReadsBack(codec, b, table, i, size, shape, secs)
    {
      UnflattenRoundTrip(i, size);
      var u := FromFlattenedIndex(i, size).value;
      assert table[i] == GetOrZero(offsets, u);
      if u in secs {
        var s := secs[u];
        ReadBackSection(codec, b, offsets[u], size, shape, s);
        assert ToFlattenedIndex(s.sx, s.sy, s.sz, size) == i;
      }
    }
  }

  /** The sections at the first n positions of the table, in table order. */
  ghost function Present(secs: map<Triple, Section>, size: Triple, n: nat): seq<Section> {
    if n == 0 then []
    else
      var u := FromFlattenedIndex(n - 1, size);
      Present(secs, size, n - 1) + if u.Ok? && u.value in secs then [secs[u.value]] else []
  }

  /** section_iter over the first n entries yields exactly the sections present there, in table order. */
  lemma {:induction false} ReadSectionsPresent(codec: Codec, b: seq<byte>, table: seq<int>, n: nat, size: Triple,
                                               shape: Triple, secs: map<Triple, Section>)
    requires n <= |table| && Positive(shape) && ReadsBack(codec, b, table, size, shape, secs)
    ensures ReadSections(codec, b, table, n, size, shape) == Ok(Present(secs, size, n))
  {
    if n > 0 {
      ReadSectionsPresent(codec, b, table, n - 1, size, shape, secs);
      assert EntryReadsBack(codec, b, table, n - 1, size, shape, secs);
      var items := Present(secs, size, n - 1);
      var u := FromFlattenedIndex(n - 1, size).value;
      if table[n - 1] == 0 {
        assert Present(secs, size, n) == items;
      } else {
        assert Present(secs, size, n) == items + [secs[u]];
      }
    }
  }

  /** d holds sections of secs, each under its key, and the section of every item. */
  ghost predicate Gathered(d: Dict<Triple, Section>, secs: map<Triple, Section>, items: seq<Section>) {
    && (forall k :: k in d.values ==> k in secs && d.values[k] == secs[k])
    && (forall s :: s in items ==> s.Coords() in d.values)
  }

  /** The facts create_from needs of the sections: each has its own key and the section shape. */
  ghost predicate Keyed(secs: map<Triple, Section>, shape: Triple) {
    forall k :: k in secs ==> secs[k].Coords() == k && secs[k].blocks.shape == shape
  }

  /** create_from over the sections present at the first n positions has gathered them. */
  ghost predicate GatheredAt(secs: map<Triple, Section>, size: Triple, shape: Triple, n: nat) {
    && Collect(Present(secs, size, n), shape).Ok?
    && Gathered(Collect(Present(secs, size, n), shape).value, secs, Present(secs, size, n))
  }

  /** Adding a section of secs to what create_from gathered keeps it gathered. */
  lemma GatheredAdd(d: Dict<Triple, Section>, secs: map<Triple, Section>, items: seq<Section>, u: Triple)
    requires d.Valid() && Gathered(d, secs, items) && u in secs && secs[u].Coords() == u
    ensures Gathered(d.Set(u, secs[u]), secs, items + [secs[u]])
  {
  }

  /** Position n - 1 adds the section there, if any, under its own coordinates. */
  lemma CollectPresentStep(secs: map<Triple, Section>, size: Triple, shape: Triple, n: nat)
    requires 0 < n && Keyed(secs, shape)
    ensures GatheredAt(secs, size, shape, n - 1) ==> GatheredAt(secs, size, shape, n)
  {
    if GatheredAt(secs, size, shape, n - 1) {
      var items := Present(secs, size, n - 1);
      var u := FromFlattenedIndex(n - 1, size);
      if u.Ok? && u.value in secs {
        assert Present(secs, size, n) == items + [secs[u.value]];
        CollectAppend(items, secs[u.value], shape);
        GatheredAdd(Collect(items, shape).value, secs, items, u.value);
      } else {
        assert Present(secs, size, n) == items;
      }
    }
  }

  /**
   * create_from over the sections present at the first n positions keeps each under its
   * own coordinates.
   */
  lemma {:induction false} CollectPresent(secs: map<Triple, Section>, size: Triple, shape: Triple, n: nat)
    requires Keyed(secs, shape)
    ensures GatheredAt(secs, size, shape, n)
  {
    if n > 0 {
      CollectPresent(secs, size, shape, n - 1);
      CollectPresentStep(secs, size, shape, n);
    }
  }

  /** The section at position i of the table is among those present at the first n positions. */
  lemma {:induction false} PresentHas(secs: map<Triple, Section>, size: Triple, n: nat, i: nat, k: Triple)
    requires i < n && FromFlattenedIndex(i, size) == Ok(k) && k in secs
    ensures secs[k] in Present(secs, size, n)
  {
    if i < n - 1 {
      PresentHas(secs, size, n - 1, i, k);
    }
  }

  /** Over the whole table, create_from gives back every section, each under its own coordinates. */
  lemma CollectAllPresent(secs: map<Triple, Section>, size: Triple, shape: Triple)
    requires Positive(size) && Keyed(secs, shape) && forall k :: k in secs ==> InBounds(k, size)
    ensures Volume(size) >= 0
    ensures Collect(Present(secs, size, Volume(size)), shape).Ok?
    ensures Collect(Present(secs, size, Volume(size)), shape).value.values == secs
  {
    PositiveVolume(size);
    var n := Volume(size);
    CollectPresent(secs, size, shape, n);
    var d := Collect(Present(secs, size, n), shape).value;
    forall k | k in secs
      ensures k in d.values
    {
      FlattenRoundTrip(k, size);
      PresentHas(secs, size, n, ToFlattenedIndex(k.0, k.1, k.2, size), k);
    }
  }

  /**
   * The coordinate loop of save only visits non-negative coordinates, so the offset of a
   * section at a negative coordinate never reaches the index table, and load cannot find
   * that section again.
   */
  lemma NegativeSectionNotIndexed(offsets: map<Triple, int>, size: Triple, k: Triple)
    requires k.0 < 0 || k.1 < 0 || k.2 < 0
    ensures forall i :: 0 <= i < |IndexTable(offsets, size)| && IndexTable(offsets, size)[i] != 0 ==>
              FromFlattenedIndex(i, size) != Ok(k)
  {
    forall i | 0 <= i < |IndexTable(offsets, size)| && IndexTable(offsets, size)[i] != 0
      ensures FromFlattenedIndex(i, size) != Ok(k)
    {
      IndexTableNonZero(offsets, size, i);
    }
  }

  // ---------------------------------------------------------------------------------
  // The whole file

  /**
   * What save asks of a construction for load to give it back: power-of-two section
   * lengths, which log2 stores exactly; sections under their own non-negative
   * coordinates with cells that fit a signed 64-bit array; and extra blocks that carry
   * no extra blocks of their own.
   */
  ghost predicate Saveable(c: ConstructionValue) {
    && WellFormed(c)
    && PowerOfTwo(c.sectionShape.0) && PowerOfTwo(c.sectionShape.1) && PowerOfTwo(c.sectionShape.2)
    && PlainExtras(c.palette)
    && forall k :: k in c.sections.values ==> SectionSaveable(c.sections.values[k], k, c.sectionShape)
  }

  /**
   * save of a saveable construction with at least one section raises only when the
   * metadata offset does not fit the four-byte trailer: every blob can be built, the
   * sizes and exponents exist, and the extended palette encodes.
   */
  lemma SaveableSaves(codec: Codec, c: ConstructionValue)
    requires Saveable(c) && |c.sections.keys| > 0
    ensures SaveImage(codec, c, 0).err.None? <==> 9 + |SavedBlobs(codec, c).bytes| < U32_BOUND
    ensures SaveImage(codec, c, 0).err.None? || SaveImage(codec, c, 0).err == Some(U32Overflow)
  {
    var secs, keys, shape := c.sections.values, c.sections.keys, c.sectionShape;
    assert Positive(shape);
    PositiveVolume(shape);
    forall j | 0 <= j < |keys|
      ensures SectionBlob(codec, shape, secs[keys[j]]).Ok?
    {
      assert SectionSaveable(secs[keys[j]], keys[j], shape);
    }
    WriteBlobsOk(codec, shape, secs, keys, |keys|, 9);
    ExtendedEncodes(c.palette);
  }

  /** The section loop of save on a fresh stream: the first blob starts after the 9 header bytes. */
  function SavedBlobs(codec: Codec, c: ConstructionValue): Written
    requires c.sections.Valid()
  {
    WriteBlobs(codec, c.sectionShape, c.sections.values, c.sections.keys, |c.sections.keys|, 9)
  }

  /**
   * A save that raises nothing has written the header, every section blob, the metadata
   * blob and the trailer holding the metadata offset, and leaves the extended palette.
   */
  lemma SavedLayout(codec: Codec, c: ConstructionValue)
    requires c.sections.Valid() && SaveImage(codec, c, 0).err.None?
    ensures var w := SavedBlobs(codec, c); var p := PrepareMetadata(c, w.offsets);
      && w.err.None? && p.meta.Ok? && 9 + |w.bytes| < U32_BOUND
      && SaveImage(codec, c, 0).written
           == Header() + w.bytes + codec.encodeMetadata(p.meta.value) + PackU32(9 + |w.bytes|).value
      && SaveImage(codec, c, 0).palette == p.palette
  {
  }

  /** The trailer of a saved file points load at the metadata blob, which decodes to what was written. */
  lemma TrailerFindsMetadata(codec: Codec, bytes: seq<byte>, m: Metadata)
    requires Lawful(codec) && 9 + |bytes| < U32_BOUND
    ensures var b := Header() + bytes + codec.encodeMetadata(m) + PackU32(9 + |bytes|).value;
      && |b| >= 8 && b[..8] == MAGIC
      && UnpackU32(b[|b| - 4..]) == 9 + |bytes|
      && codec.decodeMetadata(Slice(b, 9 + |bytes|, |b| - 4)) == Some(m)
  {
    var meta := codec.encodeMetadata(m);
    var trailer := PackU32(9 + |bytes|).value;
    var b := Header() + bytes + meta + trailer;
    assert b[..8] == Header()[..8];
    assert b[|b| - 4..] == trailer;
    assert b[9 + |bytes|..|b| - 4] == meta;
  }

  /** The structure size save computes has no empty axis and covers every section key. */
  lemma SavedSize(c: ConstructionValue, size: Triple)
    requires Saveable(c) && StructureSize(c.sections.keys) == Ok(size)
    ensures Positive(size)
    ensures forall k :: k in c.sections.values ==> InBounds(k, size)
  {
    var secs := c.sections.values;
    var kx :| kx in c.sections.keys && kx.0 == size.0 - 1;
    var ky :| ky in c.sections.keys && ky.1 == size.1 - 1;
    var kz :| kz in c.sections.keys && kz.2 == size.2 - 1;
    assert SectionSaveable(secs[kx], kx, c.sectionShape);
    assert SectionSaveable(secs[ky], ky, c.sectionShape);
    assert SectionSaveable(secs[kz], kz, c.sectionShape);
    forall k | k in secs
      ensures InBounds(k, size)
    {
      assert k in c.sections.keys;
      assert SectionSaveable(secs[k], k, c.sectionShape);
    }
  }

  /** The section loop records a positive offset, past the header, for exactly the saved keys. */
  lemma SavedOffsets(codec: Codec, c: ConstructionValue)
    requires c.sections.Valid() && SavedBlobs(codec, c).err.None?
    ensures forall k :: k in SavedBlobs(codec, c).offsets <==> k in c.sections.values
    ensures forall k :: k in SavedBlobs(codec, c).offsets ==> SavedBlobs(codec, c).offsets[k] >= 9
  {
    var keys := c.sections.keys;
    WriteBlobsRecordsKeys(codec, c.sectionShape, c.sections.values, keys, |keys|, 9);
    WriteBlobsOffsets(codec, c.sectionShape, c.sections.values, keys, |keys|, 9);
    forall k | k in c.sections.values
      ensures k in SavedBlobs(codec, c).offsets
    {
      var j :| 0 <= j < |keys| && keys[j] == k;
    }
  }

  /**
   * In the saved file, the offset recorded for each section points at that section's
   * blob, followed by the gzip magic of the next blob or of the metadata.
   */
  lemma SavedBlobsAt(codec: Codec, c: ConstructionValue, meta: seq<byte>, trailer: seq<byte>)
    requires Lawful(codec) && c.sections.Valid() && SavedBlobs(codec, c).err.None? && GzipStream(meta)
    ensures var w := SavedBlobs(codec, c); var b := Header() + w.bytes + meta + trailer;
      forall k :: k in w.offsets ==> k in c.sections.values && BlobAt(codec, b, w.offsets[k], c.sections.values[k])
  {
    var secs, keys, shape := c.sections.values, c.sections.keys, c.sectionShape;
    var w := SavedBlobs(codec, c);
    var b := Header() + w.bytes + meta + trailer;
    WriteBlobsOk(codec, shape, secs, keys, |keys|, 9);
    var blobs := map k | k in secs && |secs[k].blocks.cells| > 0 :: codec.encodeSection(SectionTagOf(secs[k]));
    forall j | 0 <= j < |keys|
      ensures keys[j] in blobs && SectionBlob(codec, shape, secs[keys[j]]) == Ok(blobs[keys[j]])
    {
      assert SectionBlob(codec, shape, secs[keys[j]]).Ok?;
    }
    BlobsPlaced(codec, shape, secs, keys, 9, blobs, |keys|);
    forall k | k in w.offsets
      ensures k in secs && BlobAt(codec, b, w.offsets[k], secs[k])
    {
      BlobInFile(codec, w.bytes, meta, trailer, w.offsets[k], secs[k]);
    }
  }

  /** A section blob placed in the section bytes, counted from the header's end, is at its offset in the file. */
  lemma BlobInFile(codec: Codec, bytes: seq<byte>, meta: seq<byte>, trailer: seq<byte>, o: int, s: Section)
    requires |s.blocks.cells| > 0 && GzipStream(meta)
    requires Placed(bytes, o - 9, codec.encodeSection(SectionTagOf(s)))
    ensures BlobAt(codec, Header() + bytes + meta + trailer, o, s)
  {
    PlacedInFile(bytes, meta, trailer, o - 9, codec.encodeSection(SectionTagOf(s)));
  }

  /**
   * In a file holding the saved blobs, section_iter over the whole index table and then
   * create_from give back exactly the saved sections, each under its own key.
   */
  lemma SectionsReadBack(codec: Codec, c: ConstructionValue, b: seq<byte>, offsets: map<Triple, int>, size: Triple)
    requires Lawful(codec) && SingleMagicCodec(codec) && Saveable(c)
    requires Positive(size) && forall k :: k in c.sections.values ==> InBounds(k, size)
    requires forall k :: k in offsets <==> k in c.sections.values
    requires forall k :: k in offsets ==> offsets[k] >= 9 && BlobAt(codec, b, offsets[k], c.sections.values[k])
    ensures Positive(c.sectionShape)
    ensures var table := IndexTable(offsets, size);
      && ReadSections(codec, b, table, |table|, size, c.sectionShape).Ok?
      && Collect(ReadSections(codec, b, table, |table|, size, c.sectionShape).value, c.sectionShape).Ok?
      && Collect(ReadSections(codec, b, table, |table|, size, c.sectionShape).value, c.sectionShape).value.values
           == c.sections.values
  {
    var secs, shape := c.sections.values, c.sectionShape;
    var table := IndexTable(offsets, size);
    TableReadsBack(codec, b, offsets, size, shape, secs);
    ReadSectionsPresent(codec, b, table, |table|, size, shape, secs);
    CollectAllPresent(secs, size, shape);
  }

  /** load of a file whose every part reads back: the construction create_from builds from them. */
  lemma LoadImageOk(codec: Codec, compose: (Block, Block) -> Block, b: seq<byte>, m: Metadata)
    requires |b| >= 8 && b[..8] == MAGIC
    requires codec.decodeMetadata(Slice(b, UnpackU32(b[|b| - 4..]), |b| - 4)) == Some(m)
    requires ExportStamp(m).Ok? && DecodePalette(compose, m.blockPalette).Ok? && SectionShapeOf(m.sectionShape).Ok?
    requires var shape := SectionShapeOf(m.sectionShape).value;
      var items := ReadSections(codec, b, m.indexTable, |m.indexTable|, m.constructionShape, shape);
      items.Ok? && Collect(items.value, shape).Ok?
    ensures var shape := SectionShapeOf(m.sectionShape).value;
      var items := ReadSections(codec, b, m.indexTable, |m.indexTable|, m.constructionShape, shape);
      LoadImage(codec, compose, b)
        == Ok(ConstructionValue(Collect(items.value, shape).value, DecodePalette(compose, m.blockPalette).value,
                                shape, ExportStamp(m).value.0, ExportStamp(m).value.1))
  {
  }

  /**
   * A save that raises nothing writes a file load can open: the magic, then a trailer
   * pointing at the metadata save prepared.
   */
  lemma SavedFile(codec: Codec, c: ConstructionValue)
    requires Lawful(codec) && c.sections.Valid() && SaveImage(codec, c, 0).err.None?
    ensures var w := SavedBlobs(codec, c); var p := PrepareMetadata(c, w.offsets); var b := SaveImage(codec, c, 0).written;
      && w.err.None? && p.meta.Ok? && SaveImage(codec, c, 0).palette == p.palette
      && b == Header() + w.bytes + codec.encodeMetadata(p.meta.value) + PackU32(9 + |w.bytes|).value
      && |b| >= 8 && b[..8] == MAGIC
      && codec.decodeMetadata(Slice(b, UnpackU32(b[|b| - 4..]), |b| - 4)) == Some(p.meta.value)
  {
    var w := SavedBlobs(codec, c);
    SavedLayout(codec, c);
    TrailerFindsMetadata(codec, w.bytes, PrepareMetadata(c, w.offsets).meta.value);
  }

  /**
   * Saving and loading again: load reads back the sections, the section shape and the
   * export stamp that were saved, and rebuilds each palette block save left from its
   * bare block and its extra blocks, in order.
   */
  lemma SaveLoadRoundTrip(codec: Codec, compose: (Block, Block) -> Block, c: ConstructionValue)
    requires Lawful(codec) && SingleMagicCodec(codec) && Saveable(c)
    requires SaveImage(codec, c, 0).err.None?
    ensures var out := SaveImage(codec, c, 0); var r := LoadImage(codec, compose, out.written);
      && r.Ok?
      && r.value.sections.values == c.sections.values
      && r.value.sectionShape == c.sectionShape
      && r.value.edition == c.edition && r.value.version == c.version
      && |r.value.palette| == |out.palette|
      && forall k :: 0 <= k < |out.palette| ==>
           r.value.palette[k] == Fold(compose, Base(out.palette[k]), out.palette[k].extraBlocks)
  {
    var out := SaveImage(codec, c, 0);
    var w := SavedBlobs(codec, c);
    var p := PrepareMetadata(c, w.offsets);
    SavedFile(codec, c);
    var m := p.meta.value;
    var meta := codec.encodeMetadata(m);
    var trailer := PackU32(9 + |w.bytes|).value;
    var size := StructureSize(c.sections.keys).value;
    assert m.constructionShape == size && m.indexTable == IndexTable(w.offsets, size);
    assert m.sectionShape == ShapeExponents(c.sectionShape).value;
    SavedSize(c, size);
    ShapeRoundTrip(c.sectionShape);
    SavedOffsets(codec, c);
    assert GzipStream(meta);
    SavedBlobsAt(codec, c, meta, trailer);
    SectionsReadBack(codec, c, out.written, w.offsets, size);
    ExtendPreservesPlain(c.palette);
    PaletteRoundTrip(compose, p.palette);
    LoadImageOk(codec, compose, out.written, m);
  }

  /**
   * With Amulet's Block `+`, which appends a block without extra blocks as one more extra
   * block, the palette rebuilt from plain extra blocks is the palette itself.
   */
  lemma {:induction false} RebuiltByAppending(compose: (Block, Block) -> Block, pal: seq<Block>, loaded: seq<Block>)
    requires forall a, e :: Plain(e) ==> compose(a, e) == Block(a.namespace, a.baseName, a.properties, a.extraBlocks + [e])
    requires PlainExtras(pal) && |loaded| == |pal|
    requires forall k :: 0 <= k < |pal| ==> loaded[k] == Fold(compose, Base(pal[k]), pal[k].extraBlocks)
    ensures loaded == pal
  {
    forall k | 0 <= k < |pal|
      ensures loaded[k] == pal[k]
    {
      assert pal[k] in pal;
      FoldAppends(compose, pal[k], pal[k].extraBlocks);
    }
  }

  /**
   * With Amulet's Block `+` on blocks without extra blocks, load gives back exactly the
   * palette save left, and
   * Construction.__eq__ finds the loaded construction equal to the saved one.
   */
  lemma SaveLoadEqual(codec: Codec, compose: (Block, Block) -> Block, c: ConstructionValue)
    requires Lawful(codec) && SingleMagicCodec(codec) && Saveable(c)
    requires SaveImage(codec, c, 0).err.None?
    requires forall a, e :: Plain(e) ==> compose(a, e) == Block(a.namespace, a.baseName, a.properties, a.extraBlocks + [e])
    ensures var out := SaveImage(codec, c, 0); var r := LoadImage(codec, compose, out.written);
      && r.Ok? && r.value.palette == out.palette
      && WellFormed(c.(palette := out.palette))
      && ConstructionEq(r.value, c.(palette := out.palette)) == Ok(true)
  {
    var out := SaveImage(codec, c, 0);
    SaveLoadRoundTrip(codec, compose, c);
    var r := LoadImage(codec, compose, out.written).value;
    ExtendPreservesPlain(c.palette);
    RebuiltByAppending(compose, out.palette, r.palette);
    var saved := c.(palette := out.palette);
    assert forall k :: k in saved.sections.values ==> saved.sections.values[k].blocks.shape == c.sectionShape by {
      assert Saveable(c);
    }
    ConstructionEqSameShape(r, saved, c.sectionShape);
  }
}
