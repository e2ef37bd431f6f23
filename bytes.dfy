/**
 * Byte-level pieces of the container: the header magic, the little-endian u32 trailer,
 * the gzip-magic search that load uses to find where a section blob ends, and the
 * integer ceil(log2) that save uses to store section sizes.
 */
module Bytes {
  import opened Wrappers
  import opened PythonOps

  type byte = x: int | 0 <= x < 256

  /** "constrct" in UTF-8: the first eight bytes of every construction file. */
  const MAGIC: seq<byte> := [0x63, 0x6f, 0x6e, 0x73, 0x74, 0x72, 0x63, 0x74]
  /** The version byte written after the magic. */
  const FORMAT_VERSION: byte := 0
  /** Every gzip stream, and so every NBT blob save writes, starts with these two bytes. */
  const GZIP_MAGIC: seq<byte> := [0x1f, 0x8b]
  const U32_BOUND: int := 0x1_0000_0000

  /** struct.unpack("<I", b): four bytes, least significant first. */
  function UnpackU32(b: seq<byte>): (v: int)
    requires |b| == 4
    ensures 0 <= v < U32_BOUND
  {
    var b0, b1, b2, b3: int := b[0], b[1], b[2], b[3];
    b0 + 256 * b1 + 65536 * b2 + 16777216 * b3
  }

  /** The n low bytes of v, least significant first. */
  function LittleEndian(v: nat, n: nat): (r: seq<byte>)
    ensures |r| == n
  {
    if n == 0 then [] else [v % 256] + LittleEndian(v / 256, n - 1)
  }

  /** Four little-endian bytes of a value below 2^32 unpack to that value. */
  lemma LittleEndianU32(v: int)
    requires 0 <= v < U32_BOUND
    ensures UnpackU32(LittleEndian(v, 4)) == v
  {
    var q1 := v / 256;
    var q2 := q1 / 256;
    var q3 := q2 / 256;
    assert LittleEndian(q3, 1) == [q3 % 256] + LittleEndian(q3 / 256, 0) == [q3 % 256];
    assert LittleEndian(q2, 2) == [q2 % 256] + LittleEndian(q3, 1);
    assert LittleEndian(q1, 3) == [q1 % 256] + LittleEndian(q2, 2);
    assert LittleEndian(v, 4) == [v % 256] + LittleEndian(q1, 3);
    assert q3 < 256;
  }

  /** struct.pack("<I", v), which raises struct.error outside [0, 2^32). */
  function PackU32(v: int): (r: Result<seq<byte>>)
    ensures r.Ok? <==> 0 <= v < U32_BOUND
    ensures r.Ok? ==> |r.value| == 4 && UnpackU32(r.value) == v
    ensures r.Err? ==> r.error == U32Overflow
  {
    if 0 <= v < U32_BOUND then
      LittleEndianU32(v);
      Ok(LittleEndian(v, 4))
    else Err(U32Overflow)
  }

  /** The other direction: any four bytes are the packing of the value they unpack to. */
  lemma PackOfUnpack(b: seq<byte>)
    requires |b| == 4
    ensures PackU32(UnpackU32(b)) == Ok(b)
  {
    var v := UnpackU32(b);
    var b0, b1, b2, b3: int := b[0], b[1], b[2], b[3];
    var hi2 := b2 + 256 * b3;
    var hi := b1 + 256 * hi2;
    assert v == b0 + 256 * hi;
    assert v % 256 == b0 && v / 256 == hi;
    assert hi % 256 == b1 && hi / 256 == hi2;
    assert hi2 % 256 == b2 && hi2 / 256 == b3;
    assert b3 % 256 == b3 && b3 / 256 == 0;
    assert LittleEndian(b3, 1) == [b3] + LittleEndian(0, 0) == [b3];
    assert LittleEndian(hi2, 2) == [b2] + LittleEndian(b3, 1);
    assert LittleEndian(hi, 3) == [b1] + LittleEndian(hi2, 2);
    assert LittleEndian(v, 4) == [b0] + LittleEndian(hi, 3);
    assert LittleEndian(v, 4) == [b0, b1, b2, b3] == b;
  }

  /** The gzip magic starts at position q of b. */
  predicate MagicAt(b: seq<byte>, q: int) {
    0 <= q && q + 1 < |b| && b[q] == 0x1f && b[q + 1] == 0x8b
  }

  /** The blob begins like a gzip stream. */
  predicate GzipStream(b: seq<byte>) {
    |b| >= 2 && b[..2] == GZIP_MAGIC
  }

  /** No gzip magic occurs in b except at its start. */
  ghost predicate SingleMagic(b: seq<byte>) {
    forall q :: 1 <= q ==> !MagicAt(b, q)
  }

  /** The first occurrence of the gzip magic at or after position p. */
  function FindMagicFrom(b: seq<byte>, p: nat): (r: Option<nat>)
    decreases |b| - p
    ensures r.Some? ==> p <= r.value && MagicAt(b, r.value)
    ensures r.Some? ==> forall q :: p <= q < r.value ==> !MagicAt(b, q)
    ensures r.None? ==> forall q :: p <= q ==> !MagicAt(b, q)
  {
    if p + 1 >= |b| then None
    else if b[p] == 0x1f && b[p + 1] == 0x8b then Some(p)
    else FindMagicFrom(b, p + 1)
  }

  /** bytes.index(b"\x1f\x8b", start): a ValueError when there is none. */
  function FindGzipMagic(b: seq<byte>, start: int): (r: Result<nat>)
    ensures r.Err? ==> r.error == MagicNotFound
    ensures r.Err? <==> forall q :: Norm(start, |b|) <= q ==> !MagicAt(b, q)
    ensures r.Ok? ==> Norm(start, |b|) <= r.value && MagicAt(b, r.value)
    ensures r.Ok? ==> forall q :: Norm(start, |b|) <= q < r.value ==> !MagicAt(b, q)
  {
    match FindMagicFrom(b, Norm(start, |b|))
    case Some(p) => Ok(p)
    case None => Err(MagicNotFound)
  }

  /**
   * When a blob that starts with the gzip magic and has no other occurrence of it lies at
   * offset o, and another gzip stream follows it immediately, the search from o + 1 stops
   * exactly at the end of the blob.
   */
  lemma SearchStopsAtNextStream(b: seq<byte>, o: nat, blob: seq<byte>)
    requires GzipStream(blob) && SingleMagic(blob)
    requires o + |blob| + 2 <= |b| && b[o..o + |blob|] == blob
    requires b[o + |blob|..o + |blob| + 2] == GZIP_MAGIC
    ensures FindGzipMagic(b, o + 1) == Ok(o + |blob|)
  {
    var e := o + |blob|;
    assert MagicAt(b, e) by {
      assert b[e] == b[o + |blob|..o + |blob| + 2][0];
      assert b[e + 1] == b[o + |blob|..o + |blob| + 2][1];
    }
    forall q | o + 1 <= q < e
      ensures !MagicAt(b, q)
    {
      if q + 1 < e {
        assert b[q] == blob[q - o] && b[q + 1] == blob[q + 1 - o];
        assert !MagicAt(blob, q - o);
      } else {
        assert b[q + 1] == b[o + |blob|..o + |blob| + 2][0] == 0x1f;
      }
    }
    var r := FindMagicFrom(b, o + 1);
    assert Norm(o + 1, |b|) == o + 1;
    assert r.Some? && r.value == e;
  }

  /** 2 ** t */
  function Pow2(t: nat): (r: nat)
    ensures r >= 1
  {
    if t == 0 then 1 else 2 * Pow2(t - 1)
  }

  /** ceil(log2(v)) on integers: the least t with v <= 2 ** t. */
  function CeilLog2(v: int): (t: nat)
    requires v >= 1
    ensures v <= Pow2(t)
    ensures t > 0 ==> Pow2(t - 1) < v
  {
    if v == 1 then 0 else 1 + CeilLog2((v + 1) / 2)
  }

  predicate PowerOfTwo(v: int)
    decreases if v > 0 then v else 0
  {
    v == 1 || (v > 1 && v % 2 == 0 && PowerOfTwo(v / 2))
  }

  /**
   * Storing ceil(log2 v) and reading back 2 ** t gives v exactly when v is a power of two;
   * any other size comes back rounded up.
   */
  lemma {:induction false} ExponentRoundTrip(v: int)
    requires v >= 1
    ensures Pow2(CeilLog2(v)) == v <==> PowerOfTwo(v)
    ensures !PowerOfTwo(v) ==> Pow2(CeilLog2(v)) > v
  {
    if v > 1 {
      var w := (v + 1) / 2;
      ExponentRoundTrip(w);
      assert Pow2(CeilLog2(v)) == 2 * Pow2(CeilLog2(w));
      if v % 2 == 0 {
        assert w == v / 2;
      } else {
        assert 2 * Pow2(CeilLog2(w)) >= 2 * w > v;
      }
    }
  }
}
