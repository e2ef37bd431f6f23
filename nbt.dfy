/**
 * The NBT compounds the container stores, and the gzip-compressed NBT codec that turns
 * them into byte blobs. The codec itself belongs to an external library, so it is a
 * parameter: four functions, and the laws the container relies on.
 */
module Nbt {
  import opened Wrappers
  import opened Bytes
  import opened Flatten
  import opened Sections
  import opened Palette
  import opened ArrayWidth

  /** The compound written for one section. */
  datatype SectionTag = SectionTag(
    entities: seq<Record>,
    tileEntities: seq<Record>,
    blocks: seq<int>,
    blocksArrayType: int)

  /** The export_version compound; either key may be absent from a file. */
  datatype ExportVersion = ExportVersion(edition: Option<string>, version: Option<seq<int>>)

  /** The metadata compound; export_version may be absent from a file. */
  datatype Metadata = Metadata(
    constructionShape: Triple,
    sectionShape: Triple,
    exportVersion: Option<ExportVersion>,
    indexTable: seq<int>,
    blockPalette: seq<PaletteEntry>)

  /** NBTFile(...).save_to(compressed=True) and nbt.load(compressed=True); None is a failed load. */
  datatype Codec = Codec(
    encodeSection: SectionTag -> seq<byte>,
    decodeSection: seq<byte> -> Option<SectionTag>,
    encodeMetadata: Metadata -> seq<byte>,
    decodeMetadata: seq<byte> -> Option<Metadata>)

  /** The signed range of the array tag with the given id, which the stored cells must fit. */
  predicate Fits(cells: seq<int>, tagId: int) {
    var bound := if tagId == 7 then 0x80 else if tagId == 11 then 0x8000_0000 else 0x8000_0000_0000_0000;
    (tagId == 7 || tagId == 11 || tagId == 12) && forall x :: x in cells ==> -bound <= x < bound
  }

  /**
   * A codec the container can rely on: what it writes it reads back, a section whose
   * cells fit its array tag included, and every blob starts like a gzip stream.
   */
  ghost predicate Lawful(c: Codec) {
    && (forall t: SectionTag :: Fits(t.blocks, t.blocksArrayType) ==> c.decodeSection(c.encodeSection(t)) == Some(t))
    && (forall m: Metadata :: c.decodeMetadata(c.encodeMetadata(m)) == Some(m))
    && (forall t: SectionTag :: GzipStream(c.encodeSection(t)))
    && (forall m: Metadata :: GzipStream(c.encodeMetadata(m)))
  }

  /** No section blob holds the gzip magic anywhere but at its start. */
  ghost predicate SingleMagicCodec(c: Codec) {
    forall t: SectionTag :: SingleMagic(c.encodeSection(t))
  }

  /** Cells in [0, 2^63) always fit the array tag chosen for them. */
  lemma ChosenTagFits(cells: seq<int>)
    requires |cells| > 0 && forall x :: x in cells ==> 0 <= x < 0x8000_0000_0000_0000
    ensures FindFittingArrayType(cells).Ok?
    ensures Fits(cells, TagId(FindFittingArrayType(cells).value))
  {
    FittingArrayTypeChoice(cells);
  }

  /**
   * The tag is chosen from the maximum alone, so a negative cell below -128 can be given
   * a byte array that cannot hold it: for example, when every other cell is at most 127.
   */
  lemma NegativeCellDoesNotFit()
    ensures FindFittingArrayType([-200, 0]) == Ok(ByteArray)
    ensures !Fits([-200, 0], TagId(ByteArray))
  {
    FittingArrayTypeChoice([-200, 0]);
    assert -200 in [-200, 0];
  }
}
