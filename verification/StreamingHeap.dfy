/** The streaming heap: blocks go to the NDB writer as soon as they are full, block 0
    last of all but first in the data tree. It refines the in-memory heap. */
module StreamingHeap {
  import Ownership
  import opened Bytes
  import opened Wrappers
  import opened HeapFormat
  import opened HeapNode
  import opened DataTree
  import opened Ndb
  import Space
  import NdbFile

  /** rgbFillLevel as the streaming heap writes it: it knows block 0 only. */
  function StreamFill(items: Items, last: bool): (fill: Buf)
    ensures |fill| == 4
  {
    [0xF0 + FillLevelCode(FreeBytes(0, items, last)), 0xFF, 0xFF, 0xFF]
  }

  /** A block after the first does not depend on what the heap header says. */
  lemma LaterBlock(i: nat, items: Items, last: bool, sig: byte, root: nat, fill: Buf)
    requires i >= 1 && |fill| == 4 && BlockFits(i, items)
    ensures RenderBlock(i, items, last, sig, root, fill) == RenderBlock(i, items, last, 0, 0, Zeros(4))
  {
    hide Concat, PageMap, Put16;
    assert BlockHeader(i, MapPos(i, items, last), sig, root, fill)
           == BlockHeader(i, MapPos(i, items, last), 0, 0, Zeros(4));
  }

  /** The store holds the flushed block `k` + 1 under its leaf. */
  ghost predicate FlushedBlock(blocks: Store, flushed: seq<Items>, leaves: seq<nat>, k: nat)
    requires |leaves| == |flushed| + 1 && k < |flushed|
  {
    && BlockFits(k + 1, flushed[k]) && leaves[k + 1] in blocks && !IsInternal(leaves[k + 1])
    && blocks[leaves[k + 1]] == RenderBlock(k + 1, flushed[k], false, 0, 0, Zeros(4))
  }

  ghost predicate Flushed(blocks: Store, flushed: seq<Items>, leaves: seq<nat>) {
    |leaves| == |flushed| + 1 && forall k :: 0 <= k < |flushed| ==> FlushedBlock(blocks, flushed, leaves, k)
  }

  lemma FlushedGrow(a: Store, b: Store, flushed: seq<Items>, leaves: seq<nat>)
    requires Extends(a, b) && Flushed(a, flushed, leaves)
    ensures Flushed(b, flushed, leaves)
  {
    hide RenderBlock, BlockFits;
    forall k | 0 <= k < |flushed| ensures FlushedBlock(b, flushed, leaves, k) {
      assert FlushedBlock(a, flushed, leaves, k);
    }
  }

  lemma FlushedSnoc(blocks: Store, flushed: seq<Items>, leaves: seq<nat>, items: Items, leaf: nat)
    requires Flushed(blocks, flushed, leaves) && BlockFits(|leaves|, items)
    requires leaf in blocks && !IsInternal(leaf)
    requires blocks[leaf] == RenderBlock(|leaves|, items, false, 0, 0, Zeros(4))
    ensures Flushed(blocks, flushed + [items], leaves + [leaf])
  {
    hide RenderBlock, BlockFits;
    forall k | 0 <= k <= |flushed| ensures FlushedBlock(blocks, flushed + [items], leaves + [leaf], k) {
      if k < |flushed| { assert FlushedBlock(blocks, flushed, leaves, k); }
    }
  }

  // ------------------------------------------------ the heap's own state

  /** The heap written so far: block 0, the flushed blocks, the block being filled. */
  ghost function Whole(block0: HeapBlock, flushed: seq<Items>, current: HeapBlock, index: nat): (h: Heap)
    ensures |h| >= 1
  {
    if index == 0 then [block0.items] else [block0.items] + flushed + [current.items]
  }

  ghost predicate Tracks(block0: HeapBlock, flushed: seq<Items>, current: HeapBlock, index: nat) {
    && HeapOk(Whole(block0, flushed, current, index))
    && block0.used == Total(block0.items) && current.used == Total(current.items)
    && (index == 0 ==> flushed == [] && current == HeapBlock([], 0))
    && (index > 0 ==> index == |flushed| + 1)
  }

  function Push(b: HeapBlock, data: Buf): HeapBlock { HeapBlock(b.items + [data], b.used + |data|) }

  predicate FitsBlock(i: nat, b: HeapBlock, len: nat) {
    HeaderSize(i) + b.used + len + PageMapSize(|b.items| + 1) + 1 <= BLOCK
  }

  lemma FitsSame(i: nat, b: HeapBlock, len: nat)
    requires b.used == Total(b.items)
    ensures FitsBlock(i, b, len) == FitsIn(i, b.items, len)
  {
  }

  lemma TooLarge(h: Heap, data: Buf)
    requires |h| >= 1 && |data| > MAX_ALLOC
    ensures AllocStep(h, data) == (h, None)
  {
  }

  /** While block 0 has room. */
  lemma FirstStep(block0: HeapBlock, data: Buf)
    requires Tracks(block0, [], HeapBlock([], 0), 0) && |data| <= MAX_ALLOC
    requires FitsBlock(0, block0, |data|) && |block0.items| < MAX_ITEMS
    ensures var b := Push(block0, data);
            && Tracks(b, [], HeapBlock([], 0), 0)
            && AllocStep([block0.items], data) == ([b.items], Some(MakeHid(0, |b.items|)))
  {
    hide HeapOk, FitsIn, FitsBlock, PageMapSize, HeaderSize, MakeHid, ItemAt, IsHid, Total;
    FitsSame(0, block0, |data|);
    var h := [block0.items];
    NotEmpty(h);
    TotalSnoc(block0.items, data);
    StepOk(h, data);
    assert h[0 := h[0] + [data]] == [Push(block0, data).items];
  }

  /** While the block being filled has room. */
  lemma CurrentStep(block0: HeapBlock, flushed: seq<Items>, current: HeapBlock, index: nat, data: Buf)
    requires Tracks(block0, flushed, current, index) && index > 0 && |data| <= MAX_ALLOC
    requires FitsBlock(index, current, |data|) && |current.items| < MAX_ITEMS
    ensures var c := Push(current, data);
            && Tracks(block0, flushed, c, index)
            && AllocStep(Whole(block0, flushed, current, index), data)
               == (Whole(block0, flushed, c, index), Some(MakeHid(index % MAX_BLOCKS, |c.items|)))
  {
    hide HeapOk, FitsIn, FitsBlock, PageMapSize, HeaderSize, MakeHid, ItemAt, IsHid, Total;
    FitsSame(index, current, |data|);
    var h := Whole(block0, flushed, current, index);
    TotalSnoc(current.items, data);
    StepOk(h, data);
    assert h[index := h[index] + [data]] == Whole(block0, flushed, Push(current, data), index);
  }

  /** When it has not, the next block is opened; the allocation goes there unless no handle
      can name it. */
  lemma NextStep(block0: HeapBlock, flushed: seq<Items>, current: HeapBlock, index: nat, data: Buf)
    requires Tracks(block0, flushed, current, index) && |data| <= MAX_ALLOC
    requires var b := if index == 0 then block0 else current;
             !FitsBlock(index, b, |data|) || |b.items| >= MAX_ITEMS
    ensures var f, c := if index == 0 then [] else flushed + [current.items], Push(HeapBlock([], 0), data);
            var r, e := AllocStep(Whole(block0, flushed, current, index), data), HeapBlock([], 0);
            if index + 1 >= MAX_BLOCKS then Tracks(block0, f, e, index + 1) && r == (Whole(block0, f, e, index + 1), None)
            else Tracks(block0, f, c, index + 1)
                 && r == (Whole(block0, f, c, index + 1), Some(MakeHid(index + 1, |c.items|)))
  {
    hide HeapOk, FitsIn, FitsBlock, PageMapSize, HeaderSize, MakeHid, ItemAt, IsHid, Total;
    var h := Whole(block0, flushed, current, index);
    var f, c := if index == 0 then [] else flushed + [current.items], Push(HeapBlock([], 0), data);
    assert [] + [data] == [data];
    EmptyConcat();
    TotalOne(data);
    FitsSame(index, if index == 0 then block0 else current, |data|);
    StepOk(h, data);
    assert h + [[data]] == Whole(block0, f, c, index + 1);
    assert h + [[]] == Whole(block0, f, HeapBlock([], 0), index + 1);
  }

  lemma TracksStart()
    ensures Tracks(HeapBlock([], 0), [], HeapBlock([], 0), 0)
    ensures Whole(HeapBlock([], 0), [], HeapBlock([], 0), 0) == [[]]
  {
    EmptyConcat();
  }

  lemma TracksFits(block0: HeapBlock, flushed: seq<Items>, current: HeapBlock, index: nat)
    requires Tracks(block0, flushed, current, index)
    ensures HeapOk(Whole(block0, flushed, current, index)) && BlockFits(0, block0.items) && BlockFits(index, current.items)
    ensures index == 0 ==> flushed == [] && current == HeapBlock([], 0)
    ensures index > 0 ==> index == |flushed| + 1
    ensures |Whole(block0, flushed, current, index)| == index + 1
  {
    var h := Whole(block0, flushed, current, index);
    HeapBlockFits(h, 0);
    EmptyConcat();
    if index > 0 { HeapBlockFits(h, index); }
  }

  class StreamingHeap {
    const ndb: NdbWriter
    const clientSig: byte
    var userRoot: nat
    var block0: HeapBlock
    var current: HeapBlock
    var currentIndex: nat
    var leaves: seq<nat>
    var totalBytes: nat
    var finished: bool

    /** The allocations of the blocks already handed over. */
    ghost var flushed: seq<Items>

    ghost function Contents(): (h: Heap)
      reads this
    {
      Whole(block0, flushed, current, currentIndex)
    }

    /** The blocks handed over so far; no block refers to them before Finish. */
    ghost function Loose(): multiset<nat>
      reads `leaves
    {
      if leaves == [] then multiset{} else multiset(leaves[1..])
    }

    ghost function Held(): Ownership.Holding
      reads `leaves, ndb
    {
      Ownership.Holding(ndb.blocks, BidsOf(ndb.bbt), Loose())
    }

    /** All leaves are held once block 0 has its slot. */
    ghost function HeldAll(): Ownership.Holding
      reads `leaves, ndb
    {
      Ownership.Holding(ndb.blocks, BidsOf(ndb.bbt), multiset(leaves))
    }

    /** Blocks in order, perhaps more of them than handles can name. */
    ghost predicate Orderly()
      reads this, ndb
    {
      && !finished && ndb.Valid() && Tracks(block0, flushed, current, currentIndex)
      && totalBytes == BLOCK * |flushed|
      && Flushed(ndb.blocks, flushed, leaves)
    }

    ghost predicate Valid()
      reads this, ndb
    {
      Orderly() && currentIndex < MAX_BLOCKS
    }

    constructor (ndb: NdbWriter, sig: byte)
      requires ndb.Valid()
      ensures Valid() && Contents() == [[]] && this.ndb == ndb && clientSig == sig && Loose() == multiset{}
    {
      hide ndb.Valid;
      TracksStart();
      this.ndb := ndb;
      clientSig := sig;
      userRoot := 0;
      block0, current, currentIndex := HeapBlock([], 0), HeapBlock([], 0), 0;
      leaves, totalBytes, finished, flushed := [0], 0, false, [];
    }

    predicate Fits(i: nat, len: nat)
      reads this
    {
      FitsBlock(i, if i == 0 then block0 else current, len)
    }

    /** Hands the block being filled to the NDB writer. */
    method FlushCurrent(last: bool) returns (size: nat)
      requires ndb.Valid() && currentIndex > 0 && BlockFits(currentIndex, current.items)
      modifies `leaves, `totalBytes, `current, ndb
      ensures ndb.Valid() && ndb.Grown() && ndb.nbt == old(ndb.nbt)
      ensures current == HeapBlock([], 0)
      ensures |leaves| == |old(leaves)| + 1 && leaves[..|old(leaves)|] == old(leaves)
      ensures var leaf := leaves[|old(leaves)|];
              && leaf in ndb.blocks && !IsInternal(leaf)
              && ndb.blocks[leaf] == RenderBlock(currentIndex, old(current.items), last, 0, 0, Zeros(4))
              && totalBytes == old(totalBytes) + |ndb.blocks[leaf]|
      ensures old(leaves) != [] ==> Ownership.Passes(old(Held()), Held())
    {
      hide Space.SpaceOk, NdbFile.BlocksOk, NdbFile.BlockExtents, RenderBlock, Flushed, HeapOk, BlockFits, ndb.Valid, BidsOf, Ownership.Law;
      ndb.OrderPresent();
      var blk := FillBlock(currentIndex, current.items, last, clientSig, userRoot, Zeros(4));
      LaterBlock(currentIndex, current.items, last, clientSig, userRoot, Zeros(4));
      RenderBlockSize(currentIndex, current.items, last, clientSig, userRoot, Zeros(4));
      var leaf := ndb.WriteLeafChunk(blk);
      Ownership.PassesLeaf(old(ndb.blocks), old(BidsOf(ndb.bbt)), leaf.value, blk, Loose());
      if leaves != [] { LooseMore(leaves, leaf.value); }
      leaves := leaves + [leaf.value];
      totalBytes := totalBytes + |blk|;
      current := HeapBlock([], 0);
      size := |blk|;
    }

    /** Flushes the block being filled and starts the next one. */
    method Advance()
      requires ndb.Valid() && Flushed(ndb.blocks, flushed, leaves)
      requires currentIndex == |flushed| + 1 && BlockFits(currentIndex, current.items) && totalBytes == BLOCK * |flushed|
      modifies `leaves, `totalBytes, `current, `currentIndex, `flushed, ndb
      ensures ndb.Valid() && ndb.Grown() && ndb.nbt == old(ndb.nbt)
      ensures Flushed(ndb.blocks, flushed, leaves) && flushed == old(flushed) + [old(current.items)]
      ensures currentIndex == old(currentIndex) + 1 && current == HeapBlock([], 0) && totalBytes == BLOCK * |flushed|
      ensures Ownership.Passes(old(Held()), Held())
    {
      hide Space.SpaceOk, NdbFile.BlocksOk, NdbFile.BlockExtents, Flushed, RenderBlock, BlockFits, Ownership.Law, BidsOf;
      ghost var before, items := ndb.blocks, current.items;
      FlushedLength(before, flushed, leaves);
      var size := FlushCurrent(false);
      RenderBlockSize(currentIndex, items, false, 0, 0, Zeros(4));
      FlushedGrow(before, ndb.blocks, flushed, old(leaves));
      FlushedSnoc(ndb.blocks, flushed, old(leaves), items, leaves[|old(leaves)|]);
      assert leaves == old(leaves) + [leaves[|old(leaves)|]];
      flushed := flushed + [items];
      currentIndex := currentIndex + 1;
    }

    /** The same handles as the in-memory heap gives, for the same data in the same order,
        also when handles can name no more blocks. */
    method Alloc(data: Buf) returns (r: Result<nat>)
      requires Orderly()
      modifies this, ndb
      ensures Orderly() && ndb.Grown() && ndb.nbt == old(ndb.nbt) && userRoot == old(userRoot)
      ensures AllocStep(old(Contents()), data) == (Contents(), if r.Ok? then Some(r.value) else None)
      ensures old(Valid()) ==> (r.Ok? <==> AllocIn(old(Contents()), data).Some?)
      ensures old(Valid()) && r.Ok? ==> Valid() && AllocIn(old(Contents()), data) == Some((Contents(), r.value))
      ensures r.Err? && |data| > MAX_ALLOC ==> unchanged(this) && unchanged(ndb)
      ensures r.Ok? ==> Ownership.Passes(old(Held()), Held())
    {
      hide Space.SpaceOk, NdbFile.BlocksOk, NdbFile.BlockExtents, Flushed, RenderBlock, BlockFits, ndb.Valid, AllocIn, Tracks,
           FitsBlock, Whole, MakeHid, Ownership.Law, BidsOf, AllocStep;
      HeldPresent();
      TracksFits(block0, flushed, current, currentIndex);
      if currentIndex < MAX_BLOCKS { StepIsAlloc(Contents(), data); }
      if |data| > MAX_ALLOC {
        TooLarge(Contents(), data);
        return Err("heap allocation exceeds the HN block capacity");
      }
      if currentIndex == 0 {
        if Fits(0, |data|) && |block0.items| < MAX_ITEMS {
          AllocFirst(data);
          return Ok(MakeHid(0, |block0.items|));
        }
        NextStep(block0, flushed, current, currentIndex, data);
        currentIndex := 1;
      } else if !Fits(currentIndex, |data|) || |current.items| >= MAX_ITEMS {
        NextStep(block0, flushed, current, currentIndex, data);
        Advance();
        if currentIndex > 0xFFFF {
          return Err("heap grew beyond 65535 blocks");
        }
      } else {
        CurrentStep(block0, flushed, current, currentIndex, data);
      }
      current := Push(current, data);
      return Ok(MakeHid(currentIndex % 0x1_0000, |current.items|));
    }

    lemma HeldPresent()
      requires ndb.Valid()
      ensures Ownership.Passes(Held(), Held())
    {
      hide ndb.Valid, Ownership.Law;
      ndb.OrderPresent();
      Ownership.PassesSame(Held());
    }

    method AllocFirst(data: Buf)
      requires Tracks(block0, flushed, current, 0) && currentIndex == 0 && |data| <= MAX_ALLOC
      requires FitsBlock(0, block0, |data|) && |block0.items| < MAX_ITEMS
      modifies `block0
      ensures block0 == Push(old(block0), data) && Tracks(block0, flushed, current, 0)
      ensures AllocStep(old(Contents()), data) == (Contents(), Some(MakeHid(0, |block0.items|)))
    {
      FirstStep(block0, data);
      block0 := Push(block0, data);
    }

    method SetUserRoot(hid: nat)
      requires Valid()
      modifies `userRoot
      ensures userRoot == hid && Valid() && Contents() == old(Contents())
    {
      hide ndb.Valid, Flushed, HeapOk;
      userRoot := hid;
    }

    /** Block 0 goes out last and takes the slot kept for it. */
    method EmitBlock0(last: bool)
      requires ndb.Valid() && BlockFits(0, block0.items) && leaves != []
      modifies `leaves, `totalBytes, ndb
      ensures ndb.Valid() && ndb.Grown() && ndb.nbt == old(ndb.nbt)
      ensures |leaves| == |old(leaves)| && leaves[1..] == old(leaves)[1..]
      ensures leaves[0] in ndb.blocks && !IsInternal(leaves[0])
      ensures ndb.blocks[leaves[0]] == RenderBlock(0, block0.items, last, clientSig, userRoot, StreamFill(block0.items, last))
      ensures totalBytes == old(totalBytes) + |ndb.blocks[leaves[0]]|
      ensures Ownership.Passes(old(Held()), HeldAll())
    {
      hide Space.SpaceOk, NdbFile.BlocksOk, NdbFile.BlockExtents, RenderBlock, BlockFits, ndb.Valid, StreamFill, BidsOf, Ownership.Law;
      ndb.OrderPresent();
      var fill := StreamFill(block0.items, last);
      var blk0 := FillBlock(0, block0.items, last, clientSig, userRoot, fill);
      RenderBlockSize(0, block0.items, last, clientSig, userRoot, fill);
      var leaf0 := ndb.WriteLeafChunk(blk0);
      Ownership.PassesLeaf(old(ndb.blocks), old(BidsOf(ndb.bbt)), leaf0.value, blk0, Loose());
      LooseFirst(leaves, leaf0.value);
      leaves := leaves[0 := leaf0.value];
      totalBytes := totalBytes + |blk0|;
    }

    /** The blocks not handed over yet: the one being filled, then block 0. */
    method EmitLast()
      requires Valid()
      modifies `leaves, `totalBytes, `current, ndb
      ensures ndb.Valid() && ndb.Grown() && ndb.nbt == old(ndb.nbt)
      ensures Leaves(ndb.blocks, leaves) && totalBytes == |Stream(ndb.blocks, leaves)| && totalBytes < U32
      ensures Stream(ndb.blocks, leaves)
              == Render(old(Contents()), clientSig, userRoot, StreamFill(block0.items, currentIndex == 0))
      ensures Ownership.Passes(old(Held()), HeldAll())
    {
      hide Space.SpaceOk, NdbFile.BlocksOk, NdbFile.BlockExtents, Flushed, HeapOk, RenderBlock, Render, Leaves, Stream, StreamFill,
           ReadTree, ndb.Valid, Tracks, BlockFits, Ownership.Law, BidsOf, Ownership.Passes;
      ghost var h := Contents();
      TracksFits(block0, flushed, current, currentIndex);
      var onlyBlock0 := currentIndex == 0;
      FlushedLength(ndb.blocks, flushed, leaves);
      HeldPresent();
      if !onlyBlock0 {
        ghost var before := ndb.blocks;
        var size := FlushCurrent(true);
        FlushedGrow(before, ndb.blocks, flushed, old(leaves));
        assert old(current.items) == h[currentIndex];
      }
      assert leaves[..|flushed| + 1] == old(leaves);
      ghost var before, held := ndb.blocks, Held();
      EmitBlock0(onlyBlock0);
      Ownership.PassesThen(old(Held()), held, HeldAll());
      RenderBlockSize(0, block0.items, onlyBlock0, clientSig, userRoot, StreamFill(block0.items, onlyBlock0));
      FlushedGrow(before, ndb.blocks, flushed, old(leaves));
      ghost var fill := StreamFill(block0.items, onlyBlock0);
      StreamIsHeap(ndb.blocks, leaves, h, flushed, old(leaves), clientSig, userRoot, fill);
      StreamTotal(ndb.blocks, leaves, h, clientSig, userRoot, fill);
    }

    /** Flushes what is left and builds the data tree. Its stream is the serialized heap,
        with the fill levels the streaming form knows; the tree owns every block of it. */
    method Finish() returns (r: Result<nat>)
      requires finished || Valid()
      modifies this, ndb
      ensures finished && (r.Ok? <==> !old(finished)) && (r.Err? ==> unchanged(this) && unchanged(ndb))
      ensures r.Ok? ==> ndb.Valid() && ndb.Grown() && ndb.nbt == old(ndb.nbt) && r.value in ndb.blocks
      ensures r.Ok? && ndb.Fits64() ==>
                ReadTree(ndb.blocks, r.value)
                == Some(Render(old(Contents()), clientSig, old(userRoot), StreamFill(old(block0.items), old(currentIndex) == 0)))
      ensures r.Ok? && ndb.Fits64() ==> Ownership.Passes(old(Held()), Ownership.Holding(ndb.blocks, BidsOf(ndb.bbt), multiset{r.value}))
    {
      hide Space.SpaceOk, NdbFile.BlocksOk, NdbFile.BlockExtents, Flushed, HeapOk, Render, Leaves, Stream, StreamFill, ReadTree, ndb.Valid,
           Tracks, BlockFits, Ownership.Law, BidsOf;
      if finished {
        return Err("StreamingHeap::finish called twice");
      }
      EmitLast();
      finished := true;
      ghost var held := HeldAll();
      r := ndb.AssembleDataTree(leaves, totalBytes);
      if ndb.Fits64() {
        Ownership.PassesThen(old(Held()), held, Ownership.Holding(ndb.blocks, BidsOf(ndb.bbt), multiset{r.value}));
      }
    }
  }

  lemma LooseFirst(leaves: seq<nat>, leaf: nat)
    requires leaves != []
    ensures multiset(leaves[0 := leaf]) == multiset(leaves[1..]) + multiset{leaf}
  {
    assert leaves[0 := leaf] == [leaf] + leaves[1..];
  }

  lemma LooseMore(leaves: seq<nat>, leaf: nat)
    requires leaves != []
    ensures multiset((leaves + [leaf])[1..]) == multiset(leaves[1..]) + multiset{leaf}
  {
    assert (leaves + [leaf])[1..] == leaves[1..] + [leaf];
  }

  lemma FlushedLength(blocks: Store, flushed: seq<Items>, leaves: seq<nat>)
    requires Flushed(blocks, flushed, leaves)
    ensures |leaves| == |flushed| + 1
  {
  }

  /** Leaf `i` holds block `i` of the heap. */
  ghost predicate LeafHolds(blocks: Store, leaf: nat, h: Heap, i: nat, sig: byte, root: nat, fill: Buf)
    requires |fill| == 4
  {
    && i < |h| && BlockFits(i, h[i]) && leaf in blocks && !IsInternal(leaf)
    && blocks[leaf] == RenderBlock(i, h[i], i + 1 == |h|, sig, root, fill)
  }

  /** The leaves in stream order hold the heap block by block. */
  lemma {:induction false} StreamFrom(blocks: Store, leaves: seq<nat>, h: Heap, i: nat, sig: byte, root: nat, fill: Buf)
    requires HeapOk(h) && |fill| == 4 && i + |leaves| == |h|
    requires forall k :: 0 <= k < |leaves| ==> leaves[k] in blocks
    requires forall k :: 0 <= k < |leaves| ==> LeafHolds(blocks, leaves[k], h, i + k, sig, root, fill)
    ensures Stream(blocks, leaves) == RenderFrom(h, i, sig, root, fill)
    decreases |leaves|
  {
    hide HeapOk, RenderBlock, BlockFits;
    if leaves != [] {
      assert LeafHolds(blocks, leaves[0], h, i, sig, root, fill);
      forall k | 0 <= k < |leaves| - 1 ensures LeafHolds(blocks, leaves[1..][k], h, i + 1 + k, sig, root, fill) {
        assert LeafHolds(blocks, leaves[k + 1], h, i + (k + 1), sig, root, fill);
      }
      StreamFrom(blocks, leaves[1..], h, i + 1, sig, root, fill);
    }
  }

  lemma LeavesOfHeap(blocks: Store, leaves: seq<nat>, h: Heap, sig: byte, root: nat, fill: Buf)
    requires HeapOk(h) && |fill| == 4 && |leaves| == |h|
    requires forall k :: 0 <= k < |leaves| ==> LeafHolds(blocks, leaves[k], h, k, sig, root, fill)
    ensures Leaves(blocks, leaves) && Stream(blocks, leaves) == Render(h, sig, root, fill)
  {
    hide HeapOk, RenderBlock, BlockFits;
    forall k | 0 <= k < |leaves|
      ensures leaves[k] in blocks && !IsInternal(leaves[k]) && |blocks[leaves[k]]| <= MAX_DATA
      ensures k < |leaves| - 1 ==> |blocks[leaves[k]]| == MAX_DATA
    {
      assert LeafHolds(blocks, leaves[k], h, k, sig, root, fill);
      RenderBlockSize(k, h[k], k + 1 == |h|, sig, root, fill);
    }
    StreamFrom(blocks, leaves, h, 0, sig, root, fill);
  }

  lemma StreamTotal(blocks: Store, leaves: seq<nat>, h: Heap, sig: byte, root: nat, fill: Buf)
    requires Leaves(blocks, leaves) && leaves != [] && |leaves| <= MAX_BLOCKS
    ensures |Stream(blocks, leaves)| == (|leaves| - 1) * BLOCK + |blocks[leaves[|leaves| - 1]]|
    ensures |Stream(blocks, leaves)| < U32
  {
    StreamLength(blocks, leaves);
  }

  lemma StreamIsHeap(blocks: Store, leaves: seq<nat>, h: Heap, flushed: seq<Items>, old0: seq<nat>, sig: byte, root: nat, fill: Buf)
    requires HeapOk(h) && |fill| == 4 && |leaves| == |h| && Flushed(blocks, flushed, old0)
    requires |h| == 1 ==> flushed == []
    requires |h| > 1 ==> |h| == |flushed| + 2 && h[1..|h| - 1] == flushed
                         && LeafHolds(blocks, leaves[|h| - 1], h, |h| - 1, 0, 0, Zeros(4))
    requires LeafHolds(blocks, leaves[0], h, 0, sig, root, fill)
    requires forall k :: 1 <= k <= |flushed| ==> leaves[k] == old0[k]
    ensures Leaves(blocks, leaves) && Stream(blocks, leaves) == Render(h, sig, root, fill)
  {
    hide HeapOk, RenderBlock, BlockFits, Leaves, Stream, Render;
    forall k | 0 <= k < |leaves| ensures LeafHolds(blocks, leaves[k], h, k, sig, root, fill) {
      if k > 0 {
        if k < |h| - 1 {
          assert h[k] == h[1..|h| - 1][k - 1];
          assert FlushedBlock(blocks, flushed, old0, k - 1);
        }
        LaterBlock(k, h[k], k + 1 == |h|, sig, root, fill);
      }
    }
    LeavesOfHeap(blocks, leaves, h, sig, root, fill);
  }
}
