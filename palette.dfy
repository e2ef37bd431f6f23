/**
 * The block palette of a construction file. On save, extra blocks that no palette entry
 * holds are appended to the palette, and every entry is written with its extra blocks
 * replaced by their list.index in the palette. On load, each entry is first rebuilt
 * bare, and then every entry with references is folded with Block `+` over the blocks
 * those references name, in ascending entry order, reading the list as already updated.
 */
module Palette {
  import opened Wrappers
  import opened PythonOps

  /** A block: namespace, base name, properties, and the extra blocks layered on it. */
  datatype Block = Block(
    namespace: string,
    baseName: string,
    properties: map<string, string>,
    extraBlocks: seq<Block>)

  /** The block rebuilt from its name and properties alone, without extra blocks. */
  function Base(b: Block): Block {
    Block(b.namespace, b.baseName, b.properties, [])
  }

  predicate Plain(b: Block) {
    b.extraBlocks == []
  }

  /** Every extra block of every palette member is itself a block without extra blocks. */
  predicate PlainExtras(p: seq<Block>) {
    forall b :: b in p ==> forall x :: x in b.extraBlocks ==> Plain(x)
  }

  /** Every extra block of every member of blocks is in pal. */
  predicate ExtrasWithin(blocks: seq<Block>, pal: seq<Block>) {
    forall b {:trigger b in blocks} :: b in blocks ==> forall x {:trigger x in b.extraBlocks} :: x in b.extraBlocks ==> x in pal
  }

  /** Every extra block of every palette member is in the palette. */
  predicate ExtrasIn(p: seq<Block>) {
    ExtrasWithin(p, p)
  }

  // ---------------------------------------------------------------------------------
  // Save: extending the palette

  /** filter(lambda eb: eb not in palette, extras), in order. */
  function MissingIn(pal: seq<Block>, extras: seq<Block>): seq<Block> {
    if extras == [] then []
    else
      var last := extras[|extras| - 1];
      MissingIn(pal, extras[..|extras| - 1]) + (if last in pal then [] else [last])
  }

  /** The filter keeps exactly the extra blocks that are not in pal. */
  lemma {:induction false} MissingInMembers(pal: seq<Block>, extras: seq<Block>)
    ensures forall x :: x in MissingIn(pal, extras) <==> x in extras && x !in pal
  {
    if extras != [] {
      var init := extras[..|extras| - 1];
      MissingInMembers(pal, init);
      assert forall x :: x in extras <==> x in init || x == extras[|extras| - 1];
    }
  }

  /** Taking one more extra block appends it when it is missing. */
  lemma MissingInStep(pal: seq<Block>, extras: seq<Block>, j: nat)
    requires j < |extras|
    ensures MissingIn(pal, extras[..j + 1]) == MissingIn(pal, extras[..j]) + (if extras[j] in pal then [] else [extras[j]])
  {
    assert extras[..j + 1][..j] == extras[..j];
  }

  /** When every extra block is already in pal, there is nothing to append. */
  lemma {:induction false} MissingInNone(pal: seq<Block>, extras: seq<Block>)
    requires forall x {:trigger x in extras} :: x in extras ==> x in pal
    ensures MissingIn(pal, extras) == []
  {
    if extras != [] {
      InitMembers(extras, extras[..|extras| - 1]);
      MissingInNone(pal, extras[..|extras| - 1]);
    }
  }

  /**
   * What the save loop collects, member by member: each member's extra blocks that are
   * not in pal. The membership set is taken before the loop and never updated, so a
   * missing block is collected once for every place it occurs.
   */
  function MissingExtras(pal: seq<Block>, members: seq<Block>): (r: seq<Block>)
    ensures forall x :: x in r ==> x !in pal
  {
    if members == [] then []
    else
      var extras := members[|members| - 1].extraBlocks;
      MissingInMembers(pal, extras);
      MissingExtras(pal, members[..|members| - 1]) + MissingIn(pal, extras)
  }

  /** Nothing collected is in pal, and every extra block of a member that is not in pal is collected. */
  lemma {:induction false} MissingExtrasMembers(pal: seq<Block>, members: seq<Block>)
    ensures forall x :: x in MissingExtras(pal, members) ==> x !in pal
    ensures forall b, x :: b in members && x in b.extraBlocks && x !in pal ==> x in MissingExtras(pal, members)
  {
    if members != [] {
      var last := members[|members| - 1];
      var init := members[..|members| - 1];
      MissingExtrasMembers(pal, init);
      MissingInMembers(pal, last.extraBlocks);
      assert forall b :: b in members ==> b in init || b == last;
    }
  }

  /** Taking one more member appends its missing extra blocks. */
  lemma MissingExtrasStep(pal: seq<Block>, members: seq<Block>, i: nat)
    requires i < |members|
    ensures MissingExtras(pal, members[..i + 1]) == MissingExtras(pal, members[..i]) + MissingIn(pal, members[i].extraBlocks)
  {
    assert members[..i + 1][..i] == members[..i];
  }

  /** Every collected block is an extra block of one of the members. */
  lemma {:induction false} MissingAreExtras(pal: seq<Block>, members: seq<Block>, x: Block)
    requires x in MissingExtras(pal, members)
    ensures exists b :: b in members && x in b.extraBlocks
  {
    var last := members[|members| - 1];
    var init := members[..|members| - 1];
    if x in MissingExtras(pal, init) {
      MissingAreExtras(pal, init, x);
      var b :| b in init && x in b.extraBlocks;
      assert b in members;
    } else {
      assert x in MissingIn(pal, last.extraBlocks);
      MissingInMembers(pal, last.extraBlocks);
      assert last in members;
    }
  }

  /** self.block_palette after the save loop and extend(). */
  function ExtendPalette(p: seq<Block>): (r: seq<Block>)
    ensures |r| >= |p| && r[..|p|] == p
    ensures ExtrasWithin(p, r)
    ensures forall k :: |p| <= k < |r| ==> r[k] !in p
  {
    MissingExtrasMembers(p, p);
    p + MissingExtras(p, p)
  }

  /** Only extra blocks of the original members are appended. */
  lemma AppendedAreExtras(p: seq<Block>, k: int)
    requires |p| <= k < |ExtendPalette(p)|
    ensures exists b :: b in p && ExtendPalette(p)[k] in b.extraBlocks
  {
    MissingAreExtras(p, p, ExtendPalette(p)[k]);
  }

  /** The palette that save writes still meets PlainExtras, and now also ExtrasIn. */
  lemma ExtendPreservesPlain(p: seq<Block>)
    requires PlainExtras(p)
    ensures PlainExtras(ExtendPalette(p)) && ExtrasIn(ExtendPalette(p))
  {
    var r := ExtendPalette(p);
    forall b | b in r
      ensures forall x :: x in b.extraBlocks ==> Plain(x) && x in r
    {
      var k :| 0 <= k < |r| && r[k] == b;
      if k >= |p| {
        AppendedAreExtras(p, k);
        assert Plain(b);
      } else {
        assert b == r[..|p|][k];
      }
    }
  }

  /** For example, a block missing from the palette and named by two members is appended twice. */
  lemma DuplicateAppend()
    ensures var water := Block("minecraft", "water", map[], []);
      var stairs := Block("minecraft", "oak_stairs", map[], [water]);
      var slab := Block("minecraft", "oak_slab", map[], [water]);
      ExtendPalette([stairs, slab]) == [stairs, slab, water, water]
  {
    var water := Block("minecraft", "water", map[], []);
    var stairs := Block("minecraft", "oak_stairs", map[], [water]);
    var slab := Block("minecraft", "oak_slab", map[], [water]);
    assert water != stairs && water != slab;
    assert MissingIn([stairs, slab], [water]) == [water];
    assert [stairs, slab][..1] == [stairs];
    assert MissingExtras([stairs, slab], [stairs]) == [water];
  }

  /** How many times x occurs among the extra blocks of the members. */
  function Occurrences(x: Block, members: seq<Block>): nat {
    if members == [] then 0
    else Occurrences(x, members[..|members| - 1]) + multiset(members[|members| - 1].extraBlocks)[x]
  }

  /** The filter keeps every occurrence of a block that is not in pal. */
  lemma {:induction false} MissingInCount(pal: seq<Block>, extras: seq<Block>, x: Block)
    requires x !in pal
    ensures multiset(MissingIn(pal, extras))[x] == multiset(extras)[x]
  {
    if extras != [] {
      var init := extras[..|extras| - 1];
      MissingInCount(pal, init, x);
      assert extras == init + [extras[|extras| - 1]];
    }
  }

  /** The loop collects a block that is not in pal once for every place it occurs among the members' extras. */
  lemma {:induction false} MissingExtrasCount(pal: seq<Block>, members: seq<Block>, x: Block)
    requires x !in pal
    ensures multiset(MissingExtras(pal, members))[x] == Occurrences(x, members)
  {
    if members != [] {
      MissingExtrasCount(pal, members[..|members| - 1], x);
      MissingInCount(pal, members[|members| - 1].extraBlocks, x);
    }
  }

  /**
   * Extension appends a block missing from the palette once for every place it occurs
   * among the members' extra blocks, duplicates included.
   */
  lemma AppendedPerOccurrence(p: seq<Block>, x: Block)
    requires x !in p
    ensures multiset(ExtendPalette(p)[|p|..])[x] == Occurrences(x, p)
  {
    MissingExtrasCount(p, p, x);
    assert ExtendPalette(p)[|p|..] == MissingExtras(p, p);
  }

  // ---------------------------------------------------------------------------------
  // Save: writing the palette

  /** A palette entry as stored: names, properties, and extra blocks as palette indices. */
  datatype PaletteEntry = PaletteEntry(
    namespace: string,
    blockname: string,
    properties: map<string, string>,
    extraBlocks: seq<int>)

  /** [self.block_palette.index(eb) for eb in extras]: a ValueError at the first missing one. */
  function ExtraIndices(pal: seq<Block>, extras: seq<Block>): (r: Result<seq<int>>)
    ensures r.Ok? <==> forall x {:trigger x in extras} :: x in extras ==> x in pal
    ensures r.Ok? ==> |r.value| == |extras|
    ensures r.Err? ==> r.error == NotInList
  {
    if extras == [] then Ok([])
    else
      InitMembers(extras, extras[..|extras| - 1]);
      match ExtraIndices(pal, extras[..|extras| - 1])
      case Err(e) => Err(e)
      case Ok(init) =>
        match IndexOf(pal, extras[|extras| - 1])
        case Err(e) => Err(e)
        case Ok(i) => Ok(init + [i])
  }

  /** Each index written is where list.index finds that extra block. */
  lemma {:induction false} ExtraIndicesAt(pal: seq<Block>, extras: seq<Block>)
    requires ExtraIndices(pal, extras).Ok?
    ensures forall j :: 0 <= j < |extras| ==> Ok(ExtraIndices(pal, extras).value[j]) == IndexOf(pal, extras[j])
  {
    if extras != [] {
      ExtraIndicesAt(pal, extras[..|extras| - 1]);
    }
  }

  /** The compound written for one palette block. */
  function EncodeEntry(pal: seq<Block>, b: Block): (r: Result<PaletteEntry>)
    ensures r.Ok? <==> forall x {:trigger x in b.extraBlocks} :: x in b.extraBlocks ==> x in pal
    ensures r.Ok? ==> r.value.namespace == b.namespace && r.value.blockname == b.baseName
    ensures r.Ok? ==> r.value.properties == b.properties
    ensures r.Ok? ==> r.value.extraBlocks == ExtraIndices(pal, b.extraBlocks).value
    ensures r.Err? ==> r.error == NotInList
  {
    match ExtraIndices(pal, b.extraBlocks)
    case Err(e) => Err(e)
    case Ok(refs) => Ok(PaletteEntry(b.namespace, b.baseName, b.properties, refs))
  }

  /** The entries written for blocks, one after another, against the palette pal. */
  function EncodeEntries(pal: seq<Block>, blocks: seq<Block>): (r: Result<seq<PaletteEntry>>)
    ensures r.Ok? <==> ExtrasWithin(blocks, pal)
    ensures r.Ok? ==> |r.value| == |blocks|
    ensures r.Ok? ==> forall k :: 0 <= k < |blocks| ==> |r.value[k].extraBlocks| == |blocks[k].extraBlocks|
    ensures r.Err? ==> r.error == NotInList
  {
    if blocks == [] then Ok([])
    else
      var last := blocks[|blocks| - 1];
      InitMembers(blocks, blocks[..|blocks| - 1]);
      match EncodeEntries(pal, blocks[..|blocks| - 1])
      case Err(e) => Err(e)
      case Ok(init) =>
        match EncodeEntry(pal, last)
        case Err(e) => Err(e)
        case Ok(entry) => Ok(init + [entry])
  }

  /** Entry k of the written list is the compound for block k. */
  lemma {:induction false} EncodeEntriesAt(pal: seq<Block>, blocks: seq<Block>)
    requires EncodeEntries(pal, blocks).Ok?
    ensures forall k :: 0 <= k < |blocks| ==> Ok(EncodeEntries(pal, blocks).value[k]) == EncodeEntry(pal, blocks[k])
  {
    if blocks != [] {
      EncodeEntriesAt(pal, blocks[..|blocks| - 1]);
    }
  }

  /** block_palette_nbt: every entry of the palette, encoded against the palette itself. */
  function EncodePalette(pal: seq<Block>): (r: Result<seq<PaletteEntry>>)
    ensures r.Ok? <==> ExtrasIn(pal)
    ensures r.Err? ==> r.error == NotInList
    ensures r.Ok? ==> |r.value| == |pal|
  {
    EncodeEntries(pal, pal)
  }

  /**
   * Every index written names the first palette position holding that extra block, so
   * it is in range and reads back the block it stands for.
   */
  lemma EncodedReferences(pal: seq<Block>, k: int, j: int)
    requires EncodePalette(pal).Ok? && 0 <= k < |pal| && 0 <= j < |pal[k].extraBlocks|
    ensures var i := EncodePalette(pal).value[k].extraBlocks[j];
      && 0 <= i < |pal| && pal[i] == pal[k].extraBlocks[j]
      && forall m :: 0 <= m < i ==> pal[m] != pal[k].extraBlocks[j]
  {
    assert pal[k] in pal && pal[k].extraBlocks[j] in pal[k].extraBlocks;
    EncodeEntriesAt(pal, pal);
    ExtraIndicesAt(pal, pal[k].extraBlocks);
    IndexOfFirst(pal, pal[k].extraBlocks[j]);
  }

  /** The palette save writes can always be encoded when extra blocks carry no extras. */
  lemma ExtendedEncodes(p: seq<Block>)
    requires PlainExtras(p)
    ensures EncodePalette(ExtendPalette(p)).Ok?
  {
    ExtendPreservesPlain(p);
  }

  /**
   * Extension looks only at the extras of the original members, so an appended extra
   * block that has extras of its own can leave them unindexed, and then save raises.
   */
  lemma NestedExtraNotIndexed()
    ensures var inner := Block("minecraft", "snow", map[], []);
      var outer := Block("minecraft", "water", map[], [inner]);
      var top := Block("minecraft", "stone", map[], [outer]);
      && ExtendPalette([top]) == [top, outer]
      && EncodePalette(ExtendPalette([top])) == Err(NotInList)
  {
    var inner := Block("minecraft", "snow", map[], []);
    var outer := Block("minecraft", "water", map[], [inner]);
    var top := Block("minecraft", "stone", map[], [outer]);
    assert MissingIn([top], [outer]) == [outer];
    assert outer in [top, outer] && inner in outer.extraBlocks && inner !in [top, outer];
  }

  // ---------------------------------------------------------------------------------
  // Load: rebuilding the palette

  /** Block(namespace, base_name, properties) built from an entry. */
  function BaseOf(e: PaletteEntry): Block {
    Block(e.namespace, e.blockname, e.properties, [])
  }

  /** The flat list load builds before any composition. */
  function BaseBlocks(entries: seq<PaletteEntry>): (r: seq<Block>)
    ensures |r| == |entries|
    ensures forall k :: 0 <= k < |entries| ==> r[k] == BaseOf(entries[k])
  {
    seq(|entries|, k requires 0 <= k < |entries| => BaseOf(entries[k]))
  }

  /** resulting_block = resulting_block + extra_block, for each extra block in order. */
  function Fold(compose: (Block, Block) -> Block, acc: Block, objs: seq<Block>): Block
    decreases |objs|
  {
    if objs == [] then acc
    else compose(Fold(compose, acc, objs[..|objs| - 1]), objs[|objs| - 1])
  }

  /** [block_palette[i] for i in refs]: negative indices count from the end. */
  function Lookup(pal: seq<Block>, refs: seq<int>): (r: Result<seq<Block>>)
    ensures r.Ok? ==> |r.value| == |refs|
    ensures r.Err? ==> r.error == IndexOutOfRange
  {
    if refs == [] then Ok([])
    else
      match Lookup(pal, refs[..|refs| - 1])
      case Err(e) => Err(e)
      case Ok(init) =>
        match Index(pal, refs[|refs| - 1])
        case Err(e) => Err(e)
        case Ok(b) => Ok(init + [b])
  }

  /** The lookup succeeds exactly when every reference is in range, and then reads the block each names. */
  lemma {:induction false} LookupBlocks(pal: seq<Block>, refs: seq<int>)
    ensures Lookup(pal, refs).Ok? <==> RefsWithin(refs, |pal|)
    ensures Lookup(pal, refs).Ok? ==>
              forall j :: 0 <= j < |refs| ==> Lookup(pal, refs).value[j] == pal[Position(refs[j], |pal|)]
  {
    if refs != [] {
      LookupBlocks(pal, refs[..|refs| - 1]);
    }
  }

  /**
   * The palette list once the entries before k have been processed in ascending order:
   * an entry with references is replaced by the fold of its current block over the
   * blocks its references name in the list as it stands.
   */
  function Resolve(compose: (Block, Block) -> Block, entries: seq<PaletteEntry>, k: nat): (r: Result<seq<Block>>)
    requires k <= |entries|
    ensures r.Ok? ==> |r.value| == |entries|
    ensures r.Err? ==> r.error == IndexOutOfRange
  {
    if k == 0 then Ok(BaseBlocks(entries))
    else
      match Resolve(compose, entries, k - 1)
      case Err(e) => Err(e)
      case Ok(pal) =>
        var refs := entries[k - 1].extraBlocks;
        if refs == [] then Ok(pal)
        else
          match Lookup(pal, refs)
          case Err(e) => Err(e)
          case Ok(objs) => Ok(pal[k - 1 := Fold(compose, pal[k - 1], objs)])
  }

  /** The palette load rebuilds from the stored entries. */
  function DecodePalette(compose: (Block, Block) -> Block, entries: seq<PaletteEntry>): (r: Result<seq<Block>>)
    ensures r.Ok? ==> |r.value| == |entries|
    ensures r.Err? ==> r.error == IndexOutOfRange
  {
    Resolve(compose, entries, |entries|)
  }

  /** The entries from k on are still their bare blocks. */
  lemma {:induction false} ResolveUntouched(compose: (Block, Block) -> Block, entries: seq<PaletteEntry>, k: nat)
    requires k <= |entries| && Resolve(compose, entries, k).Ok?
    ensures forall m :: k <= m < |entries| ==> Resolve(compose, entries, k).value[m] == BaseOf(entries[m])
  {
    if k > 0 {
      ResolveUntouched(compose, entries, k - 1);
    }
  }

  /** Every reference is a valid Python index into a list of length n. */
  predicate RefsWithin(refs: seq<int>, n: int) {
    forall j :: 0 <= j < |refs| ==> -n <= refs[j] < n
  }

  /** A reference is in range of the palette list. */
  predicate RefsInRange(entries: seq<PaletteEntry>) {
    forall k, j :: 0 <= k < |entries| && 0 <= j < |entries[k].extraBlocks| ==>
      -|entries| <= entries[k].extraBlocks[j] < |entries|
  }

  /** One step of the composition loop: entry k - 1 is folded over the blocks its references read. */
  lemma ResolveStep(compose: (Block, Block) -> Block, entries: seq<PaletteEntry>, k: nat)
    requires 0 < k <= |entries| && Resolve(compose, entries, k - 1).Ok?
    requires RefsWithin(entries[k - 1].extraBlocks, |entries|)
    ensures var before := Resolve(compose, entries, k - 1).value;
      var objs := Lookup(before, entries[k - 1].extraBlocks);
      && objs.Ok?
      && Resolve(compose, entries, k) == Ok(before[k - 1 := Fold(compose, before[k - 1], objs.value)])
  {
    var before := Resolve(compose, entries, k - 1).value;
    LookupBlocks(before, entries[k - 1].extraBlocks);
    if entries[k - 1].extraBlocks == [] {
      assert before[k - 1 := before[k - 1]] == before;
    }
  }

  /**
   * The entries below n that have references, in ascending order: the keys of the map
   * load builds from entry index to its references.
   */
  function Referencing(entries: seq<PaletteEntry>, n: nat): (r: seq<nat>)
    requires n <= |entries|
    ensures forall j :: 0 <= j < |r| ==> r[j] < n && entries[r[j]].extraBlocks != []
  {
    if n == 0 then []
    else Referencing(entries, n - 1) + (if entries[n - 1].extraBlocks != [] then [n - 1] else [])
  }

  /** The keys are strictly ascending, and every entry below n that has references is one. */
  lemma {:induction false} ReferencingOrdered(entries: seq<PaletteEntry>, n: nat)
    requires n <= |entries|
    ensures var r := Referencing(entries, n);
      && (forall j, j' :: 0 <= j < j' < |r| ==> r[j] < r[j'])
      && (forall m :: 0 <= m < n && entries[m].extraBlocks != [] ==> m in r)
  {
    if n > 0 {
      ReferencingOrdered(entries, n - 1);
    }
  }

  /** Where the composition loop resumes after j keys: just past the last key processed. */
  function Resume(keys: seq<nat>, j: int): nat
    requires 0 <= j <= |keys|
  {
    if j == 0 then 0 else keys[j - 1] + 1
  }

  /** Between two keys, and after the last one, no entry has references. */
  lemma ReferencingGaps(entries: seq<PaletteEntry>, j: int)
    requires 0 <= j <= |Referencing(entries, |entries|)|
    ensures var keys := Referencing(entries, |entries|);
      var next := if j < |keys| then keys[j] else |entries|;
      && Resume(keys, j) <= next
      && forall m :: Resume(keys, j) <= m < next ==> entries[m].extraBlocks == []
  {
    var keys := Referencing(entries, |entries|);
    var next := if j < |keys| then keys[j] else |entries|;
    ReferencingOrdered(entries, |entries|);
    forall t | 0 <= t < |keys|
      ensures keys[t] < Resume(keys, j) || next <= keys[t]
    {
      if t < j {
        assert keys[t] <= keys[j - 1];
      } else {
        assert keys[j] <= keys[t];
      }
    }
  }

  /** Entries without references leave the list as it is. */
  lemma {:induction false} ResolveSkip(compose: (Block, Block) -> Block, entries: seq<PaletteEntry>, lo: nat, k: nat)
    requires lo <= k <= |entries|
    requires forall m :: lo <= m < k ==> entries[m].extraBlocks == []
    ensures Resolve(compose, entries, k) == Resolve(compose, entries, lo)
  {
    if lo < k {
      ResolveSkip(compose, entries, lo, k - 1);
    }
  }

  /** Processing more entries only changes the later ones, and fails only on a bad reference. */
  lemma {:induction false} ResolveStable(compose: (Block, Block) -> Block, entries: seq<PaletteEntry>, k: nat, k': nat)
    requires k <= k' <= |entries|
    requires Resolve(compose, entries, k').Ok?
    ensures Resolve(compose, entries, k).Ok?
    ensures forall m :: 0 <= m < k ==> Resolve(compose, entries, k').value[m] == Resolve(compose, entries, k).value[m]
  {
    if k < k' {
      ResolveStable(compose, entries, k, k' - 1);
    }
  }

  /** Once an entry's references fail, every later stage of the loop fails too. */
  lemma {:induction false} ResolveErrStays(compose: (Block, Block) -> Block, entries: seq<PaletteEntry>, k: nat, k': nat)
    requires k <= k' <= |entries|
    requires Resolve(compose, entries, k).Err?
    ensures Resolve(compose, entries, k').Err?
  {
    if k < k' {
      ResolveErrStays(compose, entries, k, k' - 1);
    }
  }

  /**
   * One pass of the loop over the keys of the reference map: from just past key j - 1
   * the list is unchanged up to key j, and folding that entry either fails, and then so
   * does decoding, or gives the list just past key j.
   */
  lemma DecodeKeyStep(compose: (Block, Block) -> Block, entries: seq<PaletteEntry>, j: nat, pal: seq<Block>)
    requires j < |Referencing(entries, |entries|)|
    requires Resolve(compose, entries, Resume(Referencing(entries, |entries|), j)) == Ok(pal)
    ensures var keys := Referencing(entries, |entries|);
      var index := keys[j];
      var objs := Lookup(pal, entries[index].extraBlocks);
      && index < |pal| == |entries|
      && Resume(keys, j + 1) == index + 1
      && (objs.Err? ==> DecodePalette(compose, entries) == Err(IndexOutOfRange))
      && (objs.Ok? ==> Resolve(compose, entries, index + 1) == Ok(pal[index := Fold(compose, pal[index], objs.value)]))
  {
    var keys := Referencing(entries, |entries|);
    var index := keys[j];
    assert index < |entries| && entries[index].extraBlocks != [];
    assert Resume(keys, j + 1) == index + 1;
    assert Resolve(compose, entries, index) == Ok(pal) by {
      ReferencingGaps(entries, j);
      ResolveSkip(compose, entries, Resume(keys, j), index);
    }
    FoldEntry(compose, entries, index, pal);
    var objs := Lookup(pal, entries[index].extraBlocks);
    assert objs.Ok? ==> Resolve(compose, entries, index + 1) == Ok(pal[index := Fold(compose, pal[index], objs.value)]);
  }

  /** Folding entry k over the list its predecessors left: either decoding fails, or this is stage k + 1. */
  lemma FoldEntry(compose: (Block, Block) -> Block, entries: seq<PaletteEntry>, k: nat, pal: seq<Block>)
    requires k < |entries| && entries[k].extraBlocks != []
    requires Resolve(compose, entries, k) == Ok(pal)
    ensures var objs := Lookup(pal, entries[k].extraBlocks);
      && (objs.Err? ==> DecodePalette(compose, entries) == Err(IndexOutOfRange))
      && (objs.Ok? ==> Resolve(compose, entries, k + 1) == Ok(pal[k := Fold(compose, pal[k], objs.value)]))
  {
    if Lookup(pal, entries[k].extraBlocks).Err? {
      ResolveErrStays(compose, entries, k + 1, |entries|);
    }
  }

  /** The references of the entries before k are in range exactly when those before k - 1 and entry k - 1's are. */
  lemma RefsBeforeStep(entries: seq<PaletteEntry>, k: nat)
    requires 0 < k <= |entries|
    ensures (forall m, j :: 0 <= m < k && 0 <= j < |entries[m].extraBlocks| ==>
               -|entries| <= entries[m].extraBlocks[j] < |entries|)
            <==> (forall m, j :: 0 <= m < k - 1 && 0 <= j < |entries[m].extraBlocks| ==>
                    -|entries| <= entries[m].extraBlocks[j] < |entries|)
                 && RefsWithin(entries[k - 1].extraBlocks, |entries|)
  {
  }

  /** Decoding fails exactly when some reference is outside the palette list. */
  lemma {:induction false} ResolveOkIff(compose: (Block, Block) -> Block, entries: seq<PaletteEntry>, k: nat)
    requires k <= |entries|
    ensures Resolve(compose, entries, k).Ok? <==>
              forall m, j :: 0 <= m < k && 0 <= j < |entries[m].extraBlocks| ==>
                -|entries| <= entries[m].extraBlocks[j] < |entries|
  {
    if k > 0 {
      ResolveOkIff(compose, entries, k - 1);
      RefsBeforeStep(entries, k);
      var before := Resolve(compose, entries, k - 1);
      if before.Ok? {
        LookupBlocks(before.value, entries[k - 1].extraBlocks);
      }
    }
  }

  lemma DecodeOkIff(compose: (Block, Block) -> Block, entries: seq<PaletteEntry>)
    ensures DecodePalette(compose, entries).Ok? <==> RefsInRange(entries)
  {
    ResolveOkIff(compose, entries, |entries|);
  }

  /** The block that entry k's reference to position m reads: updated if m < k, bare otherwise. */
  function Seen(entries: seq<PaletteEntry>, result: seq<Block>, k: int, m: int): Block
    requires 0 <= m < |entries| == |result|
  {
    if m < k then result[m] else BaseOf(entries[m])
  }

  /** The blocks entry k's references read, in listed order. */
  function SeenAll(entries: seq<PaletteEntry>, result: seq<Block>, k: int, refs: seq<int>): seq<Block>
    requires |entries| == |result|
    requires forall j :: 0 <= j < |refs| ==> -|entries| <= refs[j] < |entries|
  {
    seq(|refs|, j requires 0 <= j < |refs| => Seen(entries, result, k, Position(refs[j], |entries|)))
  }

  /** Before entry k is processed, each position of the list holds what entry k sees there. */
  lemma BeforeIsSeen(compose: (Block, Block) -> Block, entries: seq<PaletteEntry>, k: nat)
    requires k < |entries| && DecodePalette(compose, entries).Ok?
    ensures Resolve(compose, entries, k).Ok?
    ensures forall m :: 0 <= m < |entries| ==>
              Resolve(compose, entries, k).value[m] == Seen(entries, DecodePalette(compose, entries).value, k, m)
  {
    ResolveStable(compose, entries, k, |entries|);
  }

  /** The lookups entry k makes against the list as it stands after the earlier entries. */
  lemma LookupSeen(compose: (Block, Block) -> Block, entries: seq<PaletteEntry>, k: nat)
    requires k < |entries| && DecodePalette(compose, entries).Ok?
    ensures Resolve(compose, entries, k).Ok?
    ensures RefsWithin(entries[k].extraBlocks, |entries|)
    ensures Lookup(Resolve(compose, entries, k).value, entries[k].extraBlocks)
              == Ok(SeenAll(entries, DecodePalette(compose, entries).value, k, entries[k].extraBlocks))
  {
    var n := |entries|;
    ResolveOkIff(compose, entries, n);
    var refs := entries[k].extraBlocks;
    assert RefsWithin(refs, n) by {
      forall j | 0 <= j < |refs|
        ensures -n <= refs[j] < n
      {
        assert -n <= entries[k].extraBlocks[j] < n;
      }
    }
    BeforeIsSeen(compose, entries, k);
    var before := Resolve(compose, entries, k).value;
    var result := DecodePalette(compose, entries).value;
    LookupBlocks(before, refs);
    assert Lookup(before, refs).value == SeenAll(entries, result, k, refs);
  }

  /**
   * What load builds: an entry without references is its bare block; an entry with
   * references is its bare block folded with `+` over the blocks they name, where a
   * reference to an earlier entry sees that entry already composed.
   */
  lemma DecodedEntry(compose: (Block, Block) -> Block, entries: seq<PaletteEntry>, k: nat)
    requires DecodePalette(compose, entries).Ok? && k < |entries|
    ensures var result := DecodePalette(compose, entries).value;
      var refs := entries[k].extraBlocks;
      && (forall j :: 0 <= j < |refs| ==> -|entries| <= refs[j] < |entries|)
      && (refs == [] ==> result[k] == BaseOf(entries[k]))
      && (refs != [] ==> result[k] == Fold(compose, BaseOf(entries[k]), SeenAll(entries, result, k, refs)))
  {
    ResolveStable(compose, entries, k + 1, |entries|);
    LookupSeen(compose, entries, k);
    ResolveStep(compose, entries, k + 1);
    ResolveUntouched(compose, entries, k);
    var before := Resolve(compose, entries, k).value;
    assert DecodePalette(compose, entries).value[k] == Resolve(compose, entries, k + 1).value[k]
      == Fold(compose, BaseOf(entries[k]), Lookup(before, entries[k].extraBlocks).value);
  }

  /**
   * With Amulet's `+`, which appends a block without extra blocks of its own as one more
   * extra block, folding plain blocks rebuilds the block.
   */
  lemma {:induction false} FoldAppends(compose: (Block, Block) -> Block, b: Block, objs: seq<Block>)
    requires forall a, e :: Plain(e) ==> compose(a, e) == Block(a.namespace, a.baseName, a.properties, a.extraBlocks + [e])
    requires forall x :: x in objs ==> Plain(x)
    ensures Fold(compose, Base(b), objs) == Block(b.namespace, b.baseName, b.properties, objs)
    decreases |objs|
  {
    if objs != [] {
      assert objs[|objs| - 1] in objs;
      FoldAppends(compose, b, objs[..|objs| - 1]);
      assert objs[..|objs| - 1] + [objs[|objs| - 1]] == objs;
    }
  }

  /** The entry written for palette block k: its names, and indices reading back its extras. */
  lemma EncodedEntry(pal: seq<Block>, k: int)
    requires EncodePalette(pal).Ok? && 0 <= k < |pal|
    ensures var e := EncodePalette(pal).value[k];
      && BaseOf(e) == Base(pal[k])
      && |e.extraBlocks| == |pal[k].extraBlocks|
      && forall j :: 0 <= j < |e.extraBlocks| ==>
           0 <= e.extraBlocks[j] < |pal| && pal[e.extraBlocks[j]] == pal[k].extraBlocks[j]
  {
    assert pal[k] in pal;
    EncodeEntriesAt(pal, pal);
    ExtraIndicesAt(pal, pal[k].extraBlocks);
  }

  /** The block that a written reference of entry k reads back is the extra block itself. */
  lemma ReadBack(compose: (Block, Block) -> Block, pal: seq<Block>, before: seq<Block>, k: int, i: int, x: Block)
    requires PlainExtras(pal) && 0 <= k < |pal| && x in pal[k].extraBlocks
    requires 0 <= i < |pal| == |before| && pal[i] == x
    requires before[i] == Fold(compose, Base(pal[i]), pal[i].extraBlocks) || before[i] == Base(pal[i])
    ensures before[i] == x
  {
    assert pal[k] in pal;
    assert Plain(x);
  }

  /** The list after k entries: entries before k rebuilt, the rest still bare. */
  predicate Stage(compose: (Block, Block) -> Block, pal: seq<Block>, list: seq<Block>, k: nat) {
    && |list| == |pal|
    && forall m :: 0 <= m < |pal| ==>
         list[m] == if m < k then Fold(compose, Base(pal[m]), pal[m].extraBlocks) else Base(pal[m])
  }

  /** Rebuilding entry k - 1 advances the list from stage k - 1 to stage k. */
  lemma StageStep(compose: (Block, Block) -> Block, pal: seq<Block>, before: seq<Block>, k: nat)
    requires 0 < k <= |pal| && Stage(compose, pal, before, k - 1)
    ensures Stage(compose, pal, before[k - 1 := Fold(compose, Base(pal[k - 1]), pal[k - 1].extraBlocks)], k)
  {
  }

  /** The bare list load starts from is stage 0. */
  lemma EncodedStart(compose: (Block, Block) -> Block, pal: seq<Block>, entries: seq<PaletteEntry>)
    requires EncodePalette(pal) == Ok(entries)
    ensures Resolve(compose, entries, 0) == Ok(BaseBlocks(entries))
    ensures Stage(compose, pal, BaseBlocks(entries), 0)
    ensures Rebuilt(compose, pal, entries, 0)
  {
    forall m | 0 <= m < |pal|
      ensures BaseOf(entries[m]) == Base(pal[m])
    {
      EncodedEntry(pal, m);
    }
  }

  /** Reference j of entry k - 1 names the palette position of extra block j, which is still itself. */
  lemma EncodedRef(pal: seq<Block>, entries: seq<PaletteEntry>, before: seq<Block>, k: nat, j: nat)
    requires PlainExtras(pal) && EncodePalette(pal) == Ok(entries) && 0 < k <= |pal|
    requires |before| == |pal|
    requires forall m :: 0 <= m < |pal| && Plain(pal[m]) ==> before[m] == pal[m]
    requires j < |entries[k - 1].extraBlocks|
    ensures 0 <= entries[k - 1].extraBlocks[j] < |entries|
    ensures before[entries[k - 1].extraBlocks[j]] == pal[k - 1].extraBlocks[j]
  {
    EncodedEntry(pal, k - 1);
    var x := pal[k - 1].extraBlocks[j];
    assert pal[k - 1] in pal && x in pal[k - 1].extraBlocks;
    assert Plain(x);
  }

  /** Entry k - 1's written references read back exactly its extra blocks. */
  lemma EncodedLookup(pal: seq<Block>, entries: seq<PaletteEntry>, before: seq<Block>, k: nat)
    requires PlainExtras(pal) && EncodePalette(pal) == Ok(entries) && 0 < k <= |pal|
    requires |before| == |pal|
    requires forall m :: 0 <= m < |pal| && Plain(pal[m]) ==> before[m] == pal[m]
    ensures RefsWithin(entries[k - 1].extraBlocks, |entries|)
    ensures Lookup(before, entries[k - 1].extraBlocks) == Ok(pal[k - 1].extraBlocks)
  {
    EncodedEntry(pal, k - 1);
    var refs := entries[k - 1].extraBlocks;
    var extras := pal[k - 1].extraBlocks;
    forall j | 0 <= j < |refs|
      ensures 0 <= refs[j] < |entries| && before[Position(refs[j], |entries|)] == extras[j]
    {
      EncodedRef(pal, entries, before, k, j);
    }
    LookupBlocks(before, refs);
    assert Lookup(before, refs).value == extras;
  }

  /** At every stage, a palette block without extras is still itself. */
  lemma StagePlain(compose: (Block, Block) -> Block, pal: seq<Block>, list: seq<Block>, k: nat)
    requires Stage(compose, pal, list, k)
    ensures forall m :: 0 <= m < |pal| && Plain(pal[m]) ==> list[m] == pal[m]
  {
  }

  /** entries is what save writes for pal, whose extra blocks are plain blocks. */
  predicate PlainEncoding(pal: seq<Block>, entries: seq<PaletteEntry>) {
    PlainExtras(pal) && EncodePalette(pal) == Ok(entries)
  }

  /** Rebuilding entry k - 1 of an encoded palette folds its bare block over exactly its extra blocks. */
  lemma EncodedStep(compose: (Block, Block) -> Block, pal: seq<Block>, entries: seq<PaletteEntry>, k: nat)
    requires PlainEncoding(pal, entries) && 0 < k <= |pal|
    requires Resolve(compose, entries, k - 1).Ok? && Stage(compose, pal, Resolve(compose, entries, k - 1).value, k - 1)
    ensures Resolve(compose, entries, k)
              == Ok(Resolve(compose, entries, k - 1).value[k - 1 := Fold(compose, Base(pal[k - 1]), pal[k - 1].extraBlocks)])
  {
    var before := Resolve(compose, entries, k - 1).value;
    StagePlain(compose, pal, before, k - 1);
    EncodedLookup(pal, entries, before, k);
    ResolveStep(compose, entries, k);
    assert before[k - 1] == Base(pal[k - 1]);
  }

  /** After k entries the list is at stage k. */
  predicate Rebuilt(compose: (Block, Block) -> Block, pal: seq<Block>, entries: seq<PaletteEntry>, k: nat) {
    && k <= |entries|
    && Resolve(compose, entries, k).Ok?
    && Stage(compose, pal, Resolve(compose, entries, k).value, k)
  }

  /** Rebuilding entry k - 1 of an encoded palette advances the list from stage k - 1 to stage k. */
  lemma EncodedStageStep(compose: (Block, Block) -> Block, pal: seq<Block>, entries: seq<PaletteEntry>, k: nat)
    requires PlainEncoding(pal, entries) && 0 < k <= |pal|
    ensures Rebuilt(compose, pal, entries, k - 1) ==> Rebuilt(compose, pal, entries, k)
  {
    if Rebuilt(compose, pal, entries, k - 1) {
      EncodedStep(compose, pal, entries, k);
      StageStep(compose, pal, Resolve(compose, entries, k - 1).value, k);
    }
  }

  /** The state of the list after k entries, when every extra block is a plain palette block. */
  lemma {:induction false} ResolveEncoded(
    compose: (Block, Block) -> Block, pal: seq<Block>, entries: seq<PaletteEntry>, k: nat)
    requires PlainEncoding(pal, entries) && k <= |pal|
    ensures Rebuilt(compose, pal, entries, k)
  {
    if k == 0 {
      EncodedStart(compose, pal, entries);
    } else {
      ResolveEncoded(compose, pal, entries, k - 1);
      EncodedStageStep(compose, pal, entries, k);
    }
  }

  /**
   * The palette round trip: when every extra block is a plain block of the palette,
   * load rebuilds entry k as its bare block folded over its extra blocks in order.
   */
  lemma PaletteRoundTrip(compose: (Block, Block) -> Block, pal: seq<Block>)
    requires PlainExtras(pal) && ExtrasIn(pal)
    ensures EncodePalette(pal).Ok?
    ensures DecodePalette(compose, EncodePalette(pal).value).Ok?
    ensures forall k :: 0 <= k < |pal| ==>
              DecodePalette(compose, EncodePalette(pal).value).value[k]
                == Fold(compose, Base(pal[k]), pal[k].extraBlocks)
  {
    ResolveEncoded(compose, pal, EncodePalette(pal).value, |pal|);
  }
}
