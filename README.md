# Construction file format, modelled in Dafny

This project models the core of Amulet's `.construction` file format, which lives in
`python/construction.py`. The pieces it covers are:

- the `Construction` class and its `ConstructionSection` records;
- `create_from`, `save` and `load`;
- both `__eq__` methods;
- the helpers `find_fitting_array_type`, `to_flattened_index` and `from_flattened_index`.

A saved file has this layout:

1. the magic `constrct` and a version byte 0;
2. one gzip-compressed NBT blob per section, in dict order;
3. a gzip-compressed NBT metadata blob: the structure size, the section-shape exponents,
   the export stamp, a dense index table of section offsets, and the block palette;
4. the metadata offset as a little-endian u32.

`load` finds the metadata through that trailer. It rebuilds the palette by composing every
block with its extra blocks. It cuts each section blob at the next gzip magic and rebuilds
the construction through `create_from`.

Modules, one per file:

- `Wrappers`: Option, Result, and the exceptions raised.
- `PythonOps`: floor `//` and `%`, slicing and negative indexing, `max`, `list.index`, and
  an insertion-ordered dict.
- `Bytes`: the magic, the u32 trailer, the gzip-magic search, and integer `ceil(log2)`.
- `Flatten`: the two index functions.
- `ArrayWidth`: `find_fitting_array_type`.
- `Sections`: numpy grids, with broadcasting `np.equal`, and `ConstructionSection.__eq__`.
- `Palette`: palette extension, encoding and decoding.
- `Nbt`: the compounds and the NBT/gzip codec as a parameter.
- `Container`: `create_from`, `save`, `load` and `Construction.__eq__`, each as a function
  of its inputs.
- `Constructions`: the `Construction` class. Its methods perform the same steps with loops
  over a byte stream, a dict and an array. Each is proved equal to the corresponding
  `Container` function.
- `RoundTrip`: the theorem that `load` reads back what `save` wrote.

Where the repository's format description and this code disagree, the model follows the
code:

- The index table is a dense little-endian table indexed by `to_flattened_index`.
- When `load` composes palette blocks, the extra blocks are read from the palette list as
  it has been updated so far. They are not read from the blocks as stored.
- The format description expects an empty construction to save and load back as an
  empty one. The code raises `ValueError` from `max()` over the empty offset map after
  writing only the 9 header bytes (Container.SaveWithoutSections).

## Model

| member | source | states |
|---|---|---|
| ArrayWidth.FindFittingArrayType | python/construction.py:20-30 | raises exactly for an empty array (`max` of nothing) |
| ArrayWidth.FittingArrayTypeChoice | python/construction.py:23-30 | byte array iff every element is at most 127; int array iff some element exceeds 127 and none exceeds 2^31-1; long array iff some element exceeds 2^31-1 |
| ArrayWidth.ByteBoundary | python/construction.py:25-28 | 127 and 128 fall on either side of the byte/int boundary, so 255 already needs an int array; 2^31-1 and 2^31 fall on either side of the int/long boundary |
| Nbt.ChosenTagFits | python/construction.py:133-140 | cells in [0, 2^63) always fit the signed range of the tag chosen for them |
| Nbt.NegativeCellDoesNotFit | python/construction.py:23-26 | the choice looks only at the maximum, so a cell below -128 can be given a byte array that cannot hold it: for example [-200, 0] |
| PythonOps.FloorDiv | python/construction.py:44-45 | Python `//`: the quotient rounded toward minus infinity, for either sign of divisor |
| PythonOps.FloorMod | python/construction.py:45-46 | Python `%`: a == b*(a//b) + r with r taking the divisor's sign |
| Flatten.ToFlattenedIndex | python/construction.py:33-37 | an in-range coordinate lands inside [0, dx*dy*dz) |
| Flatten.FromFlattenedIndex | python/construction.py:40-48 | raises ZeroDivisionError exactly when dy*dz is 0 |
| Flatten.FlattenRoundTrip | python/construction.py:33-48 | an in-range coordinate flattens into [0, dx*dy*dz) and unflattens back to itself |
| Flatten.UnflattenRoundTrip | python/construction.py:33-48 | every index in [0, dx*dy*dz) unflattens to an in-range coordinate that flattens back to the index |
| PythonOps.Max | python/construction.py:159-161 | `max` returns an element that is at least every element |
| PythonOps.Dict.Set | python/construction.py:109 | `d[k] = v` updates the mapping; a new key is appended to the order, an existing key keeps its place |
| PythonOps.GetOrZero | python/construction.py:185-187 | `section_map.get(k, 0)` |
| PythonOps.Slice | python/construction.py:252-255 | `s[lo:hi]` with Python's clamping of bounds; an empty slice is not an error |
| PythonOps.Index | python/construction.py:282 | `list[i]`: a negative index counts from the end; out of range raises IndexError |
| PythonOps.IndexOf | python/construction.py:213 | `list.index`: the position holds the element; a missing element raises ValueError |
| PythonOps.IndexOfFirst | python/construction.py:213 | `list.index` gives the first position that holds the element |
| Sections.ArraysEqual | python/construction.py:78 | `np.equal(a, b).all()` raises exactly when the shapes do not broadcast |
| Sections.ArraysEqualSameShape | python/construction.py:78 | on grids of one shape, the result is equality of the cells |
| Sections.BroadcastShape | python/construction.py:78 | numpy's rule: the shapes broadcast iff on every axis the lengths agree or one is 1; the broadcast length is each grid's own unless that grid's is 1 |
| Sections.SectionEq | python/construction.py:71-81 | `ConstructionSection.__eq__`: raises iff the coordinates agree and the grids do not broadcast; true iff the coordinates agree, `np.equal` holds everywhere, and both entity lists are equal |
| Sections.SectionEqSameShape | python/construction.py:71-81 | on grids of one shape, `__eq__` never raises and is exactly equality of the sections |
| Sections.BroadcastingEquality | python/construction.py:78 | a 1x1x1 grid equals any grid whose cells all hold its value |
| Sections.BroadcastingSectionEquality | python/construction.py:74-81 | two sections that differ as values can compare equal |
| Sections.BroadcastingFailure | python/construction.py:74-78 | for example, two sections at the same coordinates whose grids have lengths 2 and 3 on one axis make `__eq__` raise |
| Container.SectionsEq | python/construction.py:94 | dict `==` after equal lengths: true iff every key of a is in b with a section `__eq__` to its own |
| Container.ConstructionEq | python/construction.py:90-96 | `Construction.__eq__` compares sections and palettes, not the export stamp; true iff the palettes are equal, the key counts are equal, and every section is `__eq__` to the one under its key in the other |
| Container.SectionsEqSameShape | python/construction.py:94 | with one grid shape, the dict comparison never raises and is key-by-key equality |
| Container.SameKeys | python/construction.py:94 | two dicts with as many keys, one's keys among the other's, have the same keys |
| Container.ConstructionEqSameShape | python/construction.py:90-96 | with one grid shape, `__eq__` never raises and is exactly equality of the section mappings (whatever their order) and of the palettes |
| Container.Collect | python/construction.py:102-119 | the dict create_from builds is a well-formed ordered dict |
| Container.CollectOk | python/construction.py:103-115 | create_from succeeds iff every section's grid has the section shape |
| Container.CollectFirstMismatch | python/construction.py:103-115 | a failure names the coordinates of the first section of the wrong shape |
| Container.CollectValues | python/construction.py:109 | every stored section is one of the inputs, stored under its own coordinates |
| Container.CollectKeys | python/construction.py:109 | the keys are exactly the coordinates of the input sections |
| Container.CollectKeepsLast | python/construction.py:109 | when coordinates repeat, the last section with them wins |
| Container.CollectErrStays | python/construction.py:103-108 | once a section has raised, later sections do not matter |
| Container.CollectStep | python/construction.py:103-109 | a successful create_from over n sections is the one over n-1 with the last section stored |
| Container.CollectAppend | python/construction.py:103-109 | appending a section of the right shape stores it under its coordinates |
| Constructions.CollectSections | python/construction.py:102-118 | the loop of create_from computes `Collect` |
| Constructions.Construction.CreateFrom | python/construction.py:98-119 | a new Construction holding `Collect` of the sections and the palette, edition and version as given, or the error |
| Container.Header | python/construction.py:145-147 | the 9 header bytes are the magic and version byte 0 |
| Container.SectionTagOf | python/construction.py:133-142 | the compound holds the raveled cells and one of the three array tag ids: byte 7, int 11, long 12 |
| Container.SectionBlob | python/construction.py:128-143 | generate_section_entry raises exactly for a grid of the wrong shape (naming it) or an empty grid; otherwise gives the encoded section compound |
| Container.WriteBlobs | python/construction.py:149-157 | the section loop raises only generate_section_entry's errors: a wrong shape or an empty grid |
| Container.WriteBlobsOk | python/construction.py:149-157 | the section loop raises nothing iff every section's blob can be built |
| Container.WriteBlobsRecordsKeys | python/construction.py:149-152 | a loop that ran to the end recorded an offset for every key |
| Container.WriteBlobsOffsets | python/construction.py:149-152 | every recorded offset is a key's and lies within what the loop wrote |
| Container.WriteBlobsErrStays | python/construction.py:149-157 | after a section raises, nothing more is written |
| Container.WriteBlobsStep | python/construction.py:150-157 | one turn records the key's offset, then appends its blob or raises its error |
| Container.WriteBlobsTurn | python/construction.py:150-157 | the turn a loop method performs: continue with the blob appended, or stop with the error |
| Constructions.Construction.WriteSections | python/construction.py:149-157 | the stream gains exactly the loop's blobs; the offsets and the error are the loop's |
| Container.StructureSize | python/construction.py:159-163 | one more than the largest coordinate on each axis (an upper bound that some key attains); no sections raises |
| Container.ShapeExponents | python/construction.py:171-173 | exponents exist iff every section length is positive; each 2**t covers its length |
| Bytes.CeilLog2 | python/construction.py:172 | the least t with v <= 2**t |
| Bytes.ExponentRoundTrip | python/construction.py:172 | 2**ceil(log2 v) == v iff v is a power of two; otherwise it is larger |
| Container.IndexTable | python/construction.py:183-189 | one entry per position of the structure grid; all 0 when some axis is not positive |
| Container.IndexTableEntry | python/construction.py:183-187 | the entry at a coordinate's flattened index is that section's offset, or 0 |
| Container.IndexTableNonZero | python/construction.py:183-187 | a non-zero entry belongs to a recorded section at the index's coordinates |
| Container.FilledWrite | python/construction.py:184-187 | visiting (x, y, z) writes only its own flattened position |
| Constructions.FillIndexTable | python/construction.py:183-189 | the array filled by the coordinate loop is the index table |
| RoundTrip.NegativeSectionNotIndexed | python/construction.py:165-187 | a section at a negative coordinate has no entry in the index table |
| Palette.ExtendPalette | python/construction.py:191-197 | the original palette is kept as a prefix; every extra block is then in the palette; only blocks missing before are appended |
| Palette.MissingExtras | python/construction.py:191-196 | nothing collected is already in the palette |
| Palette.MissingExtrasMembers | python/construction.py:191-196 | every extra block missing from the original palette is collected, and nothing already in it |
| Palette.AppendedAreExtras | python/construction.py:194-197 | every appended block is an extra block of an original member |
| Palette.MissingInCount | python/construction.py:195-196 | the filter keeps every occurrence of a block that is not in the palette |
| Palette.MissingExtrasCount | python/construction.py:192-196 | the loop collects a missing block once for every place it occurs among the members' extra blocks |
| Palette.AppendedPerOccurrence | python/construction.py:191-197 | extension appends a missing block once for every place it occurs among the members' extra blocks, duplicates included |
| Palette.DuplicateAppend | python/construction.py:191-197 | for example, a missing block named by two members is appended twice |
| Palette.ExtendPreservesPlain | python/construction.py:191-197 | extension keeps extra blocks plain and puts them all in the palette |
| Constructions.CollectMissingExtras | python/construction.py:191-196 | the loop computes the missing extra blocks, in order |
| Constructions.Construction.ExtendBlockPalette | python/construction.py:191-197 | self.block_palette becomes its extension; nothing else changes |
| Palette.ExtraIndices | python/construction.py:210-215 | the indices exist iff every extra block is in the palette, one per extra block |
| Palette.EncodeEntry | python/construction.py:201-218 | a palette compound holds the names, properties and `list.index` of each extra block; raises iff some extra block is not in the palette |
| Palette.EncodePalette | python/construction.py:199-219 | succeeds iff every extra block is in the palette; one entry per block |
| Palette.EncodedReferences | python/construction.py:213 | each stored index is in range, names the extra block, and is its first position |
| Palette.ExtendedEncodes | python/construction.py:191-219 | the extended palette always encodes when extra blocks are plain |
| Palette.NestedExtraNotIndexed | python/construction.py:191-219 | for example, an extra block of an appended extra block is not added, and when it is not in the palette, encoding raises ValueError |
| Constructions.EncodePaletteEntries | python/construction.py:199-219 | the loop computes `EncodePalette` |
| Container.MetadataOf | python/construction.py:168-181 | the export stamp written reads back as the edition and version |
| Container.PrepareMetadata | python/construction.py:159-221 | the palette ends extended iff the size and the exponents succeed, and is left as it was otherwise; no sections raises ValueError; the metadata exists iff the sizes, the exponents and the palette encoding all succeed, and it carries the export stamp and the encoded extended palette |
| Constructions.Construction.BuildMetadata | python/construction.py:159-221 | computes `PrepareMetadata`, with the palette extended in place |
| Container.SaveMetadata | python/construction.py:223-229 | metadata and trailer follow the body; it succeeds iff the metadata is built and its offset fits a u32 |
| Constructions.Construction.WriteMetadata | python/construction.py:223-229 | the stream gains exactly what `SaveMetadata` describes |
| Container.SaveImage | python/construction.py:121-229 | the file starts with the header; the old palette is a prefix of the palette left; a save that succeeds leaves the extended palette |
| Container.SaveWithoutSections | python/construction.py:145-161 | with no sections, save writes only the header and raises ValueError from `max()` |
| RoundTrip.SaveableSaves | python/construction.py:121-229 | a saveable construction with a section saves without raising iff the metadata offset fits the u32 trailer; otherwise it raises only struct.error |
| Constructions.Construction.Save | python/construction.py:121-231 | the stream gains exactly `SaveImage`'s bytes; the palette and the error are `SaveImage`'s; the other fields are unchanged |
| Bytes.PackU32 | python/construction.py:229 | `<I` packs exactly the values in [0, 2^32), as four bytes that unpack back |
| Bytes.PackOfUnpack | python/construction.py:248-250 | any four bytes are the packing of the value they unpack to |
| Bytes.UnpackU32 | python/construction.py:248-250 | the value read is in [0, 2^32) |
| Container.ExportStamp | python/construction.py:257-261 | edition and version, or AssertionError naming the first missing key |
| Palette.BaseBlocks | python/construction.py:264-279 | one bare block per entry, in order |
| Constructions.BaseEntries | python/construction.py:264-279 | the first load loop: the bare blocks, and the ordered map of the entries that have references |
| Palette.ReferencingOrdered | python/construction.py:276-281 | the map's keys are increasing and include every entry with references |
| Palette.LookupBlocks | python/construction.py:282 | the reference lookup succeeds iff every index is in range, and reads the list at Python's position |
| Palette.Lookup | python/construction.py:282 | one block per reference; an out-of-range reference raises IndexError |
| Palette.Resolve | python/construction.py:281-288 | the palette list after the first k entries are composed keeps its length; a failure is IndexError |
| Palette.DecodePalette | python/construction.py:264-288 | the rebuilt palette has one block per stored entry; a failure is IndexError |
| Palette.DecodeOkIff | python/construction.py:264-288 | load's palette step succeeds iff every stored reference is in range |
| Palette.DecodedEntry | python/construction.py:281-288 | each entry is its bare block folded with `+` over the blocks its references name in the list as updated so far |
| Palette.FoldAppends | python/construction.py:285-286 | when `+` appends a block without extra blocks as one more extra block, folding such blocks rebuilds the block |
| Constructions.FoldBlocks | python/construction.py:284-286 | the loop computes the fold |
| Constructions.DecodePaletteEntries | python/construction.py:264-288 | the palette part of load computes `DecodePalette` |
| Palette.PaletteRoundTrip | python/construction.py:199-288 | when extra blocks are plain and in the palette, load rebuilds entry k as its bare block folded over its extra blocks |
| Container.SectionShapeOf | python/construction.py:291 | 2**t per axis, defined iff every exponent is non-negative |
| Container.ShapeRoundTrip | python/construction.py:291 | a power-of-two section shape stored as exponents reads back as itself |
| Bytes.FindMagicFrom | python/construction.py:299-301 | the first gzip magic at or after a position |
| Bytes.FindGzipMagic | python/construction.py:299-301 | `bytes.index(b"\x1f\x8b", start)`: the first magic at or after the normalised start, or ValueError iff there is none |
| Bytes.SearchStopsAtNextStream | python/construction.py:297-302 | after a blob with no inner magic, the search stops at the next stream |
| Container.ReadSectionUntil | python/construction.py:297-314 | a blob decoded from a given end has the section shape and sits at the coordinates of its table index |
| Container.ReadSection | python/construction.py:297-314 | a section read back has the section shape and sits at the coordinates of its table index |
| Container.ReadSections | python/construction.py:293-314 | section_iter yields well-shaped sections, at most one per entry |
| Container.ReadSectionsErrStays | python/construction.py:293-314 | after a failure the later entries are never read |
| Constructions.ReadAllSections | python/construction.py:293-314 | the loop computes `ReadSections` over the whole table |
| Container.LoadImage | python/construction.py:233-318 | a wrong magic raises; a loaded construction is well-formed, with each section under its own coordinates and of the section shape |
| Constructions.Construction.Load | python/construction.py:233-318 | a new Construction holding `LoadImage`'s value, or its error |
| RoundTrip.ReadBackSection | python/construction.py:297-314 | a section blob followed by another stream is read back as that section from its own index |
| RoundTrip.InnerMagicTruncates | python/construction.py:297-302 | a blob holding the gzip magic past its start is cut there: the decoder is handed a strict prefix of it |
| RoundTrip.ReadUntilBlobEnd | python/construction.py:297-314 | a read that ends the blob where it really ends gives the section back for any lawful codec, with no assumption on the blob's bytes |
| RoundTrip.BlobsPlaced | python/construction.py:149-157 | after the loop, each blob lies at its recorded offset, followed by the next blob or the end |
| RoundTrip.TableReadsBack | python/construction.py:183-187 | each table entry is 0 iff no section is there, and otherwise reads that section back |
| RoundTrip.ReadSectionsPresent | python/construction.py:293-314 | section_iter yields exactly the saved sections, in table order |
| RoundTrip.CollectAllPresent | python/construction.py:316-318 | create_from over them gives back every section under its own key |
| RoundTrip.TrailerFindsMetadata | python/construction.py:248-255 | the trailer points at the metadata blob, which decodes to what was written |
| RoundTrip.SavedSize | python/construction.py:159-163 | for sections at non-negative coordinates the size is positive and covers every key |
| RoundTrip.SavedOffsets | python/construction.py:149-152 | offsets are recorded for exactly the saved keys, all past the header |
| RoundTrip.SavedBlobsAt | python/construction.py:149-157 | in the whole file, every recorded offset points at its section's blob followed by a gzip magic |
| RoundTrip.SectionsReadBack | python/construction.py:293-318 | loading the sections of a saved file gives back exactly the saved mapping |
| RoundTrip.SaveLoadRoundTrip | python/construction.py:121-318 | load of what save wrote succeeds, with the same sections, section shape, edition and version, and each palette block rebuilt from its bare block and extra blocks |
| RoundTrip.RebuiltByAppending | python/construction.py:285-286 | when `+` appends a block without extra blocks as one more extra block, a palette whose extra blocks are plain is rebuilt as itself |
| RoundTrip.SaveLoadEqual | python/construction.py:90-318 | when `+` appends a block without extra blocks as one more extra block, the loaded palette is the saved one, and `__eq__` finds the loaded construction equal to the saved one |

## Left out

- NBT and gzip are a `Codec` parameter (four functions) with stated laws. These laws are that what it encodes decodes back and that every blob starts with the gzip magic. The NBT library itself is not part of this model.
- `SingleMagicCodec` assumes that a compressed section blob never contains `1f 8b` after its start. Real gzip output can contain it, and then `load` cuts the blob short (see Findings). The round trip holds only for codecs without it. That the gzip decoder then rejects the cut stream is not modelled, because the codec is a parameter.
- Block `+` is a `compose` parameter, because Amulet's `Block` is not part of this model. The equality corollary assumes only that `+` appends a block without extra blocks of its own as one more extra block. It says nothing about `+` on a block that has extra blocks, so an associative `+` that flattens chains also meets it.
- File I/O is modelled as an append-only byte stream. This covers `open`, `buffer.tell`, `close`, and the `filename`/`buffer` arguments, including the bare `Exception` when both are missing. Reading a whole file is a byte sequence.
- `lazy_load` is ignored, and `section_iter` is consumed eagerly, as `create_from` does.
- The `isinstance` branches are not modelled: sections are always `ConstructionSection` values, and `__eq__` against other types is not modelled.
- Container.ShapeExponents: `ceil(log2(v))` is computed exactly on integers. Floating-point rounding of `log2` is not modelled.
- The single byte that holds each exponent is not modelled. Nor is the 32-bit `TAG_Int` range of any of the fields stored as `TAG_Int`:
  - the structure size;
  - the index table;
  - the export version components;
  - the extra-block indices of the palette entries.

  The codec's metadata law reads back any integer. So RoundTrip.SaveLoadRoundTrip also covers a version component of 2^31 or more, or a palette of more than 2^31 blocks, where the NBT library would fail while saving.
- Container.SectionShapeOf: a negative stored exponent makes the load fail at once. The source builds a float shape and fails only when a section is reshaped.
- Container.LoadImage: a magic that is not valid UTF-8 raises `InvalidMagic` here, not `UnicodeDecodeError`. Metadata keys other than `export_version` and its entries are assumed present.
- Constructions.Construction.CreateFrom: the default `section_shape=(16, 16, 16)` is not modelled; every caller passes the section shape.
- Palette aliasing is not modelled: the list that `save` extends in place is the same object the caller passed to `create_from`.
- Dict identity and Python object identity are not modelled. Sections are compared by value.
- RoundTrip.SaveLoadRoundTrip: proved only for saves to an empty stream (start 0). It also assumes:
  - power-of-two section lengths;
  - sections at non-negative coordinates with cells in [0, 2^63);
  - extra blocks without extra blocks of their own.

  Without these hypotheses the source does not give back what it saved. RoundTrip.NegativeSectionNotIndexed, Bytes.ExponentRoundTrip, Nbt.NegativeCellDoesNotFit and Palette.NestedExtraNotIndexed show why.

## Findings

| source | as written | input that shows it | evidently intended | confidence | as-written member | corrected member |
|---|---|---|---|---|---|---|
| python/construction.py:297-302 | a section blob ends at the first `1f 8b` after its offset | a section whose compressed blob contains `1f 8b` past its start, in deflate data, the gzip MTIME or the CRC32 | a blob ends where the next recorded blob or the metadata starts, so every section reads back | not executed; likely for large saves, since each blob byte pair is `1f 8b` with probability about 1/65536 | RoundTrip.InnerMagicTruncates | RoundTrip.ReadUntilBlobEnd |
