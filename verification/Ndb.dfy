/** The NDB writer: an append-only block store with a bump allocator, allocation maps
    that mirror it, and two page B-trees written by Finish. */
module Ndb {
  import opened Bytes
  import opened Wrappers
  import opened SearchTree
  import opened PageTree
  import opened DataTree
  import opened SubnodeTree
  import opened NdbFile
  import opened NdbHeader
  import opened NodeId
  import opened Sorting
  import opened Space
  import Ownership

  /** File offsets and block ids still fit the 64-bit fields they are stored in. */
  predicate Small(nextBid: nat, maps: nat) {
    4 * nextBid < U64 && AMapPos(maps) < U64
  }

  class NdbWriter {
    const sums: Sums

    var file: Buf
    var cursor: nat
    var nextBid: nat
    var finished: bool
    var bbt: seq<BbtEntry>
    var nbt: seq<NbtEntry>
    var amaps: seq<Buf>
    var lastAMap: nat

    /** Every allocation so far, and the data of every block by id. */
    ghost var extents: seq<Extent>
    ghost var blocks: Store

    ghost predicate SpaceValid()
      reads this
    {
      SpaceOk(cursor, amaps, extents) && lastAMap == AMapPos(|amaps| - 1) && |amaps| >= 1
    }

    ghost predicate BlocksValid()
      reads this
    {
      && nextBid == |extents| + 1 && FIRST_DATA <= |file| <= cursor
      && BlocksOk(sums, file, bbt, blocks, nextBid)
    }

    ghost predicate Valid()
      reads this
    {
      !finished && SpaceValid() && BlocksValid() && extents == BlockExtents(bbt)
    }

    constructor (sums: Sums)
      ensures Valid() && blocks == map[] && nbt == [] && bbt == [] && this.sums == sums
      ensures nextBid == 1
    {
      hide SpaceOk, BlocksOk, BlockExtents, Extended, FreshMap, Zeros;
      this.sums := sums;
      file := Zeros(FIRST_DATA);
      cursor := FIRST_DATA;
      nextBid := 1;
      finished := false;
      bbt, nbt, amaps := [], [], [];
      lastAMap := FIRST_AMAP;
      extents, blocks := [], map[];
      new;
      EnsureAMapCount(1);
      InitialSpace();
      NoBlocks(sums, file);
    }

    // ------------------------------------------------------ space management

    method EnsureAMapCount(n: nat)
      modifies `amaps, `lastAMap
      ensures amaps == Extended(old(amaps), n)
      ensures lastAMap == if n > |old(amaps)| then AMapPos(n - 1) else old(lastAMap)
      decreases if n > |amaps| then n - |amaps| else 0, 0
    {
      hide MarkedMaps, Marked, Extended;
      ghost var before := amaps;
      ExtendedIdempotent(before, n);
      while |amaps| < n
        invariant |amaps| == |before| || |before| <= |amaps| <= n
        invariant amaps == Extended(before, |amaps|)
        invariant lastAMap == if |amaps| > |before| then AMapPos(|amaps| - 1) else old(lastAMap)
      {
        var index := |amaps|;
        ghost var done := amaps;
        amaps := amaps + [Zeros(MAP_BYTES)];
        var amapIb := AMapPos(index);
        lastAMap := amapIb;
        MarkAllocated(amapIb, PAGE);
        MarkOwn(done, index);
        ghost var own := Marked(Zeros(MAP_BYTES), 0, 8);
        if index == 0 {
          MarkAllocated(FIRST_PMAP, PAGE);
          MarkPMap(done, own, 0);
        } else {
          var spanEnd := amapIb + AMAP_SPAN;
          var p := FIRST_PMAP;
          ghost var k := 0;
          while p < spanEnd
            invariant p == PMapPos(k) && k <= index / 8 + 1
            invariant amaps == done + [if k > index / 8 && index % 8 == 0 then Marked(own, 8, 8) else own]
            invariant lastAMap == amapIb
            decreases index / 8 + 1 - k
          {
            PMapInSpan(index, k);
            if p >= amapIb {
              MarkAllocated(p, PAGE);
              MarkPMap(done, own, k);
            }
            p := p + PMAP_SPAN;
            k := k + 1;
          }
          PMapPastSpan(index, k);
        }
        ExtendOne(before, index);
      }
    }

    method MarkAllocated(ib: nat, cb: nat)
      modifies `amaps, `lastAMap
      ensures amaps == MarkedMaps(old(amaps), ib, cb)
      ensures lastAMap == if |amaps| > |old(amaps)| then AMapPos(|amaps| - 1) else old(lastAMap)
      decreases if ib >= FIRST_AMAP && (ib - FIRST_AMAP) / AMAP_SPAN + 1 > |amaps|
                then (ib - FIRST_AMAP) / AMAP_SPAN + 1 - |amaps| else 0, 1
    {
      if ib < FIRST_AMAP {
        return;
      }
      var m := (ib - FIRST_AMAP) / AMAP_SPAN;
      EnsureAMapCount(m + 1);
      var base := AMapPos(m);
      var first := (ib - base) / ALIGN;
      var nbits := AlignUp(cb, ALIGN) / ALIGN;
      var bits := MarkBits(amaps[m], first, nbits);
      amaps := amaps[m := bits];
    }

    /** The bump allocator: the first position at or after the cursor that keeps clear
        of the fixed pages. It is recorded in the maps. */
    method Allocate(size: nat) returns (ib: nat)
      requires SpaceValid() && 0 < size <= MAX_BLOCK
      modifies `cursor, `amaps, `lastAMap, `extents
      ensures SpaceValid()
      ensures var cb := AlignUp(size, ALIGN);
              && extents == old(extents) + [Extent(ib, cb)] && cursor == ib + cb
              && old(cursor) <= ib < old(cursor) + cb + 2 * PAGE && Clear(ib, cb)
              && forall x :: old(cursor) <= x < ib ==> !Clear(x, cb)
      ensures old(cursor) % PAGE == 0 ==> ib % PAGE == 0
      ensures |old(amaps)| <= |amaps|
    {
      hide IsReservedPage, Clear, MapsExact, ExtentsOk, Conserved, AlignUp, MarkedMaps;
      AlignUpBounds(size, ALIGN);
      var cb := AlignUp(size, ALIGN);
      ghost var skips := SkipFixedPages(cb);
      ib := cursor;
      cursor := cursor + cb;
      MarkExact(old(cursor), amaps, extents, ib, cb);
      MarkAllocated(ib, cb);
      extents := extents + [Extent(ib, cb)];
    }

    /** The retry loop of `allocate`: move the cursor past every fixed page that the
        `cb` bytes at it would overlap. */
    method SkipFixedPages(cb: nat) returns (ghost skips: nat)
      requires FIRST_DATA <= cursor && cursor % ALIGN == 0 && 0 < cb <= MAX_BLOCK
      modifies `cursor
      ensures old(cursor) <= cursor < old(cursor) + cb + 2 * PAGE && cursor % ALIGN == 0 && Clear(cursor, cb)
      ensures forall x :: old(cursor) <= x < cursor ==> !Clear(x, cb)
      ensures old(cursor) % PAGE == 0 ==> cursor % PAGE == 0
      ensures skips <= 2
    {
      ghost var target := Place(cursor, cb);
      PlaceIsClear(cursor, cb);
      skips := 0;
      hide Place, IsReservedPage, Clear;
      while true
        invariant old(cursor) <= cursor <= target && cursor % ALIGN == 0
        invariant old(cursor) % PAGE == 0 ==> cursor % PAGE == 0
        invariant forall x :: old(cursor) <= x < cursor ==> !Clear(x, cb)
        invariant Skipped(cursor, skips)
        decreases target - cursor
      {
        var clash := FindClash(cursor, cb);
        if clash == None {
          break;
        }
        var p := clash.value;
        OverlapSkip(cursor, cb, p, target);
        SkipAgain(cursor, cb, p, skips);
        ClashAligned(p);
        hide Skipped;
        cursor := p + PAGE;
        skips := skips + 1;
      }
    }

    /** The scan of `allocate`: the first fixed page that overlaps `cb` bytes at `cursor`. */
    static method FindClash(cursor: nat, cb: nat) returns (clash: Option<nat>)
      ensures clash.Some? ==> var p := clash.value;
                IsReservedPage(p) && p % PAGE == 0 && cursor < p + PAGE && p < cursor + cb
      ensures clash.None? <==> Clear(cursor, cb)
    {
      var p := cursor - cursor % PAGE;
      PageStart(cursor);
      while p < cursor + cb
        invariant p % PAGE == 0
        invariant forall q: nat :: IsReservedPage(q) && q < p ==> q + PAGE <= cursor
      {
        hide IsReservedPage;
        PagesApart(p);
        if p + PAGE <= cursor {
          p := p + PAGE;
          continue;
        }
        if IsReservedPage(p) {
          assert !(p + PAGE <= cursor || cursor + cb <= p);
          return Some(p);
        }
        p := p + PAGE;
      }
      return None;
    }

    method AllocatePage() returns (ib: nat)
      requires SpaceValid()
      modifies `cursor, `amaps, `lastAMap, `extents
      ensures SpaceValid()
      ensures extents == old(extents) + [Extent(ib, PAGE)] && cursor == ib + PAGE
      ensures old(cursor) <= ib && ib % PAGE == 0 && FIRST_DATA <= ib && !IsReservedPage(ib)
      ensures |old(amaps)| <= |amaps|
    {
      AlignCursor(cursor, amaps, extents);
      AlignUpBounds(cursor, PAGE);
      cursor := AlignUp(cursor, PAGE);
      ib := Allocate(PAGE);
    }

    // --------------------------------------------------------------- blocks

    /** Nothing stored is lost or changed, and nothing shrinks. */
    twostate predicate Grown()
      reads this
    {
      Extends(old(blocks), blocks) && old(nextBid) <= nextBid && |old(amaps)| <= |amaps|
    }

    ghost predicate Fits64()
      reads this
    {
      Small(nextBid, |amaps|)
    }

    method WriteAt(ib: nat, d: Buf)
      modifies `file
      ensures file == Splice(old(file), ib, d)
    {
      file := Splice(file, ib, d);
    }

    method EmitBlock(data: Buf, internal: bool) returns (r: Result<nat>)
      requires Valid()
      modifies `file, `cursor, `nextBid, `bbt, `amaps, `lastAMap, `extents, `blocks
      ensures Valid() && Grown()
      ensures r.Err? <==> |data| > MAX_DATA
      ensures r.Err? ==> unchanged(this)
      ensures r.Ok? ==>
                && r.value == MakeBid(old(nextBid), internal) && nextBid == old(nextBid) + 1
                && r.value !in old(blocks) && blocks == old(blocks)[r.value := data]
      ensures r.Ok? ==> BidsOf(bbt) == old(BidsOf(bbt)) + [r.value]
    {
      hide SpaceOk, BlocksOk, Splice, BlockImage, BlockExtents, IsReservedPage, Clear, AlignUp;
      if |data| > MAX_DATA {
        return Err("block payload exceeds 8176 bytes");
      }
      BlockTotalBounds(|data|);
      AlignUpAligned(BlockTotal(|data|), ALIGN);
      var total := AlignUp(|data| + 16, ALIGN);
      var ib := Allocate(total);
      var bid := MakeBid(nextBid, internal);
      nextBid := nextBid + 1;

      var buf := BlockBuffer(sums, ib, bid, data, total);
      BlocksAppend(sums, file, bbt, blocks, old(nextBid), ib, bid, data);
      ExtentsOfBlocks(bbt, BbtEntry(bid, ib, |data|));
      SpliceLength(file, ib, buf);
      WriteAt(ib, buf);
      bbt := bbt + [BbtEntry(bid, ib, |data|)];
      blocks := blocks[bid := data];
      return Ok(bid);
    }

    method EmitXBlock(children: seq<nat>, level: byte, total: nat) returns (bid: nat)
      requires Valid() && |children| <= X_FANOUT
      modifies `file, `cursor, `nextBid, `bbt, `amaps, `lastAMap, `extents, `blocks
      ensures Valid() && Grown()
      ensures bid !in old(blocks) && IsInternal(bid) && blocks == old(blocks)[bid := XBlock(level, children, total)]
      ensures BidsOf(bbt) == old(BidsOf(bbt)) + [bid]
    {
      hide SpaceOk, BlocksOk, BlockExtents, XBlock;
      var r := EmitBlock(XBlock(level, children, total), true);
      InternalBid(old(nextBid), true);
      bid := r.value;
    }

    method WriteLeafChunk(data: Buf) returns (r: Result<nat>)
      requires Valid()
      modifies `file, `cursor, `nextBid, `bbt, `amaps, `lastAMap, `extents, `blocks
      ensures Valid() && Grown()
      ensures r.Err? <==> |data| > MAX_DATA
      ensures r.Err? ==> unchanged(this)
      ensures r.Ok? ==> r.value !in old(blocks) && !IsInternal(r.value) && blocks == old(blocks)[r.value := data]
      ensures r.Ok? ==> BidsOf(bbt) == old(BidsOf(bbt)) + [r.value]
    {
      hide SpaceOk, BlocksOk, BlockExtents;
      r := EmitBlock(data, false);
      InternalBid(old(nextBid), false);
    }

    lemma OrderPresent()
      requires Valid()
      ensures Ownership.Present(blocks, BidsOf(bbt))
    {
      hide SpaceOk, BlockExtents, Listed;
    }

    /** The first level of XBLOCKs: a full one for every 1021 leaves, and one for the rest. */
    method EmitXBlocks(leaves: seq<nat>, total: nat) returns (xblocks: seq<nat>)
      requires Valid() && Leaves(blocks, leaves) && |leaves| > 1 && total == |Stream(blocks, leaves)| < U32
      modifies `file, `cursor, `nextBid, `bbt, `amaps, `lastAMap, `extents, `blocks
      ensures Valid() && Grown()
      ensures |xblocks| == CeilDiv(|leaves|, X_FANOUT) && forall i :: 0 <= i < |xblocks| ==> xblocks[i] in blocks
      ensures Fits64() ==> CatTrees(blocks, xblocks, 1) == Some(old(Stream(blocks, leaves)))
      ensures Fits64() ==> Ownership.Law(old(blocks), old(BidsOf(bbt)), blocks, BidsOf(bbt), multiset(leaves), multiset(xblocks))
    {
      hide SpaceOk, BlocksOk, BlockExtents, XBlock, CatTrees, Stream, CeilDiv, Covers, Ownership.Law, Ownership.Present;
      xblocks := [];
      CoversNone(blocks, leaves);
      StreamLength(blocks, leaves);
      CutCount(|leaves|, X_FANOUT, 0);
      OrderPresent();
      Ownership.NothingDone(blocks, BidsOf(bbt));
      Ownership.SliceBags(leaves, 0, 0);
      while |xblocks| * X_FANOUT < |leaves|
        invariant Valid() && Grown()
        invariant |xblocks| <= CeilDiv(|leaves|, X_FANOUT)
        invariant forall i :: 0 <= i < |xblocks| ==> xblocks[i] in blocks
        invariant Fits64() ==> Covers(old(blocks), blocks, leaves, xblocks)
        invariant Fits64() ==> Ownership.Law(old(blocks), old(BidsOf(bbt)), blocks, BidsOf(bbt),
                                             multiset(leaves[..Min(|xblocks| * X_FANOUT, |leaves|)]), multiset(xblocks))
        decreases |leaves| - |xblocks| * X_FANOUT
      {
        var i := |xblocks| * X_FANOUT;
        var n := Min(X_FANOUT, |leaves| - i);
        var slice := leaves[i..i + n];
        var covered := Min(n * MAX_DATA, total - i * MAX_DATA);
        SliceLength(old(blocks), leaves, i, n);
        ghost var before, order := blocks, BidsOf(bbt);
        OrderPresent();
        var bid := EmitXBlock(slice, 1, covered);
        if Fits64() {
          BidsFit(sums, file, bbt, blocks, nextBid, slice);
          XBlockStep(old(blocks), before, blocks, leaves, xblocks, bid, slice);
          Ownership.LawX(before, order, bid, 1, slice, covered);
          Ownership.LawCollect(old(blocks), old(BidsOf(bbt)), before, order, blocks, BidsOf(bbt), multiset(leaves[..i]), xblocks,
                               multiset(slice), bid);
          Ownership.SliceBags(leaves, i, n);
        }
        xblocks := xblocks + [bid];
        CutCount(|leaves|, X_FANOUT, |xblocks| - 1);
      }
      CutCount(|leaves|, X_FANOUT, |xblocks|);
      assert leaves[..|leaves|] == leaves;
      CoversAll(old(blocks), blocks, leaves, xblocks);
    }

    /** The root over leaves given in stream order. It reads as the stream; the leaves, and
        whatever blocks are added over them, have one owner each, below the root. */
    method AssembleDataTree(leaves: seq<nat>, total: nat) returns (r: Result<nat>)
      requires Valid() && Leaves(blocks, leaves) && total == |Stream(blocks, leaves)|
      modifies `file, `cursor, `nextBid, `bbt, `amaps, `lastAMap, `extents, `blocks
      ensures Valid() && Grown()
      ensures r.Err? <==> |leaves| >= 2 && total >= U32
      ensures r.Err? ==> unchanged(this)
      ensures r.Ok? ==> r.value in blocks
      ensures r.Ok? && Fits64() ==> ReadTree(blocks, r.value) == Some(old(Stream(blocks, leaves)))
      ensures r.Ok? && Fits64() ==> Ownership.Law(old(blocks), old(BidsOf(bbt)), blocks, BidsOf(bbt), multiset(leaves), multiset{r.value})
    {
      hide SpaceOk, BlocksOk, BlockExtents, XBlock, CatTrees, Stream, CeilDiv, Covers, Ownership.Law, Ownership.Present;
      ghost var data, order := Stream(blocks, leaves), BidsOf(bbt);
      OrderPresent();
      if leaves == [] {
        r := WriteLeafChunk([]);
        EmptyStream(old(blocks));
        Ownership.LawLeaf(old(blocks), order, r.value, []);
        return;
      }
      if |leaves| == 1 {
        SingleStream(blocks, leaves);
        Ownership.LawPass(blocks, order, multiset(leaves));
        assert leaves == [leaves[0]];
        return Ok(leaves[0]);
      }
      if total > 0xFFFF_FFFF {
        return Err("data tree larger than 4 GiB");
      }
      if |leaves| <= X_FANOUT {
        var bid := EmitXBlock(leaves, 1, total);
        if Fits64() {
          BidsFit(sums, file, bbt, blocks, nextBid, leaves);
          LeafRoot(old(blocks), blocks, bid, leaves);
          Ownership.LawX(old(blocks), order, bid, 1, leaves, total);
        }
        return Ok(bid);
      }
      var xblocks := EmitXBlocks(leaves, total);
      TwoLevelsSuffice(old(blocks), leaves);
      CutCount(|leaves|, X_FANOUT, X_FANOUT);
      // The throw for a tree of more than two levels is never reached.
      assert |xblocks| <= X_FANOUT;
      ghost var before, mid := blocks, BidsOf(bbt);
      OrderPresent();
      var bid := EmitXBlock(xblocks, 2, total);
      if Fits64() {
        BidsFit(sums, file, bbt, blocks, nextBid, xblocks);
        CatTreesGrow(before, blocks, xblocks, 1);
        XBlockTree(blocks, bid, 2, xblocks, data);
        XBlockReads(2, xblocks, |data|);
        Ownership.LawX(before, mid, bid, 2, xblocks, total);
        Ownership.LawFinish(old(blocks), order, before, mid, blocks, BidsOf(bbt), multiset(leaves), multiset(xblocks), multiset{bid});
      }
      return Ok(bid);
    }

    /** A data stream stored as a data tree. */
    method WriteData(data: Buf) returns (r: Result<nat>)
      requires Valid()
      modifies `file, `cursor, `nextBid, `bbt, `amaps, `lastAMap, `extents, `blocks
      ensures Valid() && Grown()
      ensures r.Err? <==> |data| >= U32
      ensures r.Ok? ==> r.value in blocks
      ensures r.Ok? && Fits64() ==> ReadTree(blocks, r.value) == Some(data)
      ensures r.Ok? && Fits64() ==> Ownership.Law(old(blocks), old(BidsOf(bbt)), blocks, BidsOf(bbt), multiset{}, multiset{r.value})
    {
      hide SpaceOk, BlocksOk, BlockExtents, XBlock, CatTrees, Stream, Ownership.Law, Ownership.Present;
      OrderPresent();
      if |data| <= MAX_DATA {
        r := WriteLeafChunk(data);
        Ownership.LawLeaf(old(blocks), old(BidsOf(bbt)), r.value, data);
        return;
      }
      var leaves: seq<nat> := [];
      Ownership.NothingDone(blocks, BidsOf(bbt));
      var off := 0;
      EmptyStream(blocks);
      while off < |data|
        invariant Valid() && Grown()
        invariant Leaves(blocks, leaves) && Stream(blocks, leaves) == data[..Min(off, |data|)]
        invariant off == |leaves| * MAX_DATA && off < |data| + MAX_DATA
        invariant Ownership.Law(old(blocks), old(BidsOf(bbt)), blocks, BidsOf(bbt), multiset{}, multiset(leaves))
        invariant off <= |data| ==> forall i :: 0 <= i < |leaves| ==> |blocks[leaves[i]]| == MAX_DATA
        decreases |data| - off
      {
        var n := Min(MAX_DATA, |data| - off);
        ghost var before, order := blocks, BidsOf(bbt);
        OrderPresent();
        var leaf := WriteLeafChunk(data[off..off + n]);
        LeafStep(before, blocks, leaves, leaf.value, data, off, n);
        Ownership.LawLeaf(before, order, leaf.value, data[off..off + n]);
        Ownership.LawAnother(old(blocks), old(BidsOf(bbt)), before, order, blocks, BidsOf(bbt), multiset{}, leaves, leaf.value);
        leaves := leaves + [leaf.value];
        off := off + MAX_DATA;
      }
      assert data[..|data|] == data;
      ghost var before, order := blocks, BidsOf(bbt);
      r := AssembleDataTree(leaves, |data|);
      if r.Ok? && Fits64() {
        Ownership.LawFinish(old(blocks), old(BidsOf(bbt)), before, order, blocks, BidsOf(bbt), multiset{}, multiset(leaves),
                            multiset{r.value});
      }
    }

    // ------------------------------------------------------- subnodes, nodes

    method EmitSl(entries: seq<SubEntry>) returns (bid: nat)
      requires Valid() && |entries| <= SL_FANOUT
      modifies `file, `cursor, `nextBid, `bbt, `amaps, `lastAMap, `extents, `blocks
      ensures Valid() && Grown()
      ensures bid !in old(blocks) && IsInternal(bid) && bid > 0 && blocks == old(blocks)[bid := SlBlock(entries)]
      ensures BidsOf(bbt) == old(BidsOf(bbt)) + [bid]
    {
      hide SpaceOk, BlocksOk, BlockExtents, SlBlock;
      var r := EmitBlock(SlBlock(entries), true);
      InternalBid(old(nextBid), true);
      bid := r.value;
    }

    /** The leaves of a subnode tree over sorted entries. */
    method EmitSls(sorted: seq<SubEntry>) returns (children: seq<Child>)
      requires Valid() && sorted != []
      modifies `file, `cursor, `nextBid, `bbt, `amaps, `lastAMap, `extents, `blocks
      ensures Valid() && Grown()
      ensures |children| == CeilDiv(|sorted|, SL_FANOUT) && forall i :: 0 <= i < |children| ==> children[i].bid in blocks
      ensures AllFit(sorted) ==> ChildrenHold(blocks, children, sorted) && forall i :: 0 <= i < |children| ==> children[i].key < U64
      ensures AllFit(sorted) ==> Ownership.Law(old(blocks), old(BidsOf(bbt)), blocks, BidsOf(bbt), Ownership.EntriesRefs(sorted),
                                               multiset(Ownership.Bids(children)))
    {
      hide SpaceOk, BlocksOk, BlockExtents, SlBlock, ChildrenHold, CeilDiv, Ownership.Law, Ownership.Present, Ownership.EntriesRefs,
           Ownership.Bids, AllFit;
      children := [];
      NoChildren(blocks, sorted);
      CutCount(|sorted|, SL_FANOUT, 0);
      OrderPresent();
      Ownership.NothingDone(blocks, BidsOf(bbt));
      Ownership.SliceEntries(sorted, 0, 0);
      Ownership.BidsSnoc([], Child(0, 0));
      while |children| * SL_FANOUT < |sorted|
        invariant Valid() && Grown()
        invariant |children| <= CeilDiv(|sorted|, SL_FANOUT)
        invariant forall i :: 0 <= i < |children| ==> children[i].bid in blocks
        invariant AllFit(sorted) ==> forall i :: 0 <= i < |children| ==> children[i].key < U64
        invariant AllFit(sorted) ==> ChildrenHold(blocks, children, sorted)
        invariant AllFit(sorted) ==> Ownership.Law(old(blocks), old(BidsOf(bbt)), blocks, BidsOf(bbt),
                                                   Ownership.EntriesRefs(sorted[..Min(|children| * SL_FANOUT, |sorted|)]),
                                                   multiset(Ownership.Bids(children)))
        decreases |sorted| - |children| * SL_FANOUT
      {
        var i := |children| * SL_FANOUT;
        var n := Min(SL_FANOUT, |sorted| - i);
        ghost var before, order := blocks, BidsOf(bbt);
        OrderPresent();
        var bid := EmitSl(sorted[i..i + n]);
        if AllFit(sorted) {
          ChildStep(before, blocks, children, sorted, bid);
          KeyFits(sorted, i);
          SliceFits(sorted, i, n);
          Ownership.LawSl(before, order, bid, sorted[i..i + n]);
          Ownership.LawCollect(old(blocks), old(BidsOf(bbt)), before, order, blocks, BidsOf(bbt), Ownership.EntriesRefs(sorted[..i]),
                               Ownership.Bids(children), Ownership.EntriesRefs(sorted[i..i + n]), bid);
          Ownership.SliceEntries(sorted, i, n);
          Ownership.BidsSnoc(children, Child(sorted[i].nid, bid));
        }
        children := children + [Child(sorted[i].nid, bid)];
        CutCount(|sorted|, SL_FANOUT, |children| - 1);
      }
      CutCount(|sorted|, SL_FANOUT, |children|);
      assert sorted[..|sorted|] == sorted;
    }

    /** The subnode B-tree over a list of entries; zero for an empty list. It owns what the
        entries refer to. */
    method WriteSubnodes(entries: seq<SubEntry>) returns (r: Result<nat>)
      requires Valid()
      modifies `file, `cursor, `nextBid, `bbt, `amaps, `lastAMap, `extents, `blocks
      ensures Valid() && Grown()
      ensures r.Err? <==> |entries| > SL_FANOUT * SI_FANOUT
      ensures r.Ok? ==> (r.value == 0 <==> entries == []) && (r.value != 0 ==> r.value in blocks)
      ensures r.Ok? && Fits64() && DistinctKeys(entries, NidKey()) && AllFit(entries)
              ==> SubnodesRead(blocks, r.value, entries)
      ensures r.Ok? && Fits64() && AllFit(entries)
              ==> Ownership.Law(old(blocks), old(BidsOf(bbt)), blocks, BidsOf(bbt), Ownership.EntriesRefs(entries), Ownership.Ref(r.value))
    {
      hide SpaceOk, BlocksOk, BlockExtents, SlBlock, SiBlock, ChildrenHold, SubnodesRead, SortBy, AllFit, DistinctKeys, CeilDiv,
           Ownership.Law, Ownership.Present, Ownership.EntriesRefs, Ownership.Bids;
      OrderPresent();
      if entries == [] {
        NoSubnodes(blocks);
        Ownership.NothingDone(blocks, BidsOf(bbt));
        Ownership.SliceEntries([], 0, 0);
        return Ok(0);
      }
      var sorted := SortBy(entries, NidKey());
      ghost var fit := AllFit(entries);
      if fit { SortedFit(entries); }
      Ownership.SortedRefs(entries);
      if |sorted| <= SL_FANOUT {
        var bid := EmitSl(sorted);
        if fit && DistinctKeys(entries, NidKey()) { OneLeafReads(blocks, bid, entries); }
        if fit { Ownership.LawSl(old(blocks), old(BidsOf(bbt)), bid, sorted); }
        return Ok(bid);
      }
      var children := EmitSls(sorted);
      CutCount(|sorted|, SL_FANOUT, SI_FANOUT);
      CutCount(|sorted|, SL_FANOUT, |children|);
      if |children| > SI_FANOUT {
        return Err("subnode tree needs more than two levels; not supported");
      }
      ghost var before, order := blocks, BidsOf(bbt);
      OrderPresent();
      var root := EmitBlock(SiBlock(children), true);
      InternalBid(nextBid - 1, true);
      if fit && Fits64() {
        ChildBidsFit(sums, file, bbt, blocks, nextBid, children);
        if DistinctKeys(entries, NidKey()) { TwoLevelsRead(before, blocks, root.value, children, entries); }
        Ownership.LawSi(before, order, root.value, children);
        Ownership.LawFinish(old(blocks), old(BidsOf(bbt)), before, order, blocks, BidsOf(bbt), Ownership.EntriesRefs(sorted),
                            multiset(Ownership.Bids(children)), Ownership.Ref(root.value));
      }
      return root;
    }

    /** Registers a node; `sub` and `parent` may be zero. */
    method AddNode(nid: nat, data: nat, sub: nat, parent: nat)
      requires Valid()
      modifies `nbt
      ensures Valid()
      ensures nbt == old(nbt) + [NbtEntry(nid, data, sub, parent)]
    {
      hide SpaceOk, BlocksOk, BlockExtents;
      nbt := nbt + [NbtEntry(nid, data, sub, parent)];
    }

    // -------------------------------------------------------------- b-trees

    ghost predicate Core()
      reads this
    {
      SpaceValid() && BlocksValid()
    }

    lemma CursorBound()
      requires Core()
      ensures cursor <= AMapPos(|amaps|)
    {
    }

    /** Only pages were added: everything written so far stays as it is. */
    twostate predicate PagesAdded()
      reads this
    {
      && Keeps(old(file), file) && old(nextBid) <= nextBid && old(cursor) <= cursor && |old(amaps)| <= |amaps|
      && old(extents) <= extents
      && forall i :: |old(extents)| <= i < |extents| ==> extents[i].cb == PAGE
    }

    method FinishPage(page: Buf, ptype: byte, size: byte, count: byte, level: byte, ghost key: nat) returns (b: Bref)
      requires Core() && |page| == PAGE && size >= 2
      modifies `file, `cursor, `nextBid, `amaps, `lastAMap, `extents
      ensures Core() && PagesAdded()
      ensures Written(sums, file, ptype, Branch(key, b.bid, b.ib), page, size, count, level)
      ensures b.bid < 4 * nextBid && b.ib < cursor && |file| == cursor
    {
      hide SpaceOk, BlocksOk, Splice, IsReservedPage, Keeps, Trailer;
      var ib := AllocatePage();
      var bid := MakeBid(nextBid, false);
      nextBid := nextBid + 1;
      var p := Poke(page, 488, [count, PAGE_DATA / size, size, level]);
      p := Poke(p, 496, Trailer(sums, ptype, ib, bid, p[..496]));
      SpliceLength(file, ib, p);
      SpliceKeeps(file, ib, p);
      SpliceAt(file, ib, p);
      BlocksKeep(sums, file, Splice(file, ib, p), bbt, blocks, old(nextBid), nextBid);
      WriteAt(ib, p);
      return Bref(bid, ib);
    }

    /** The loop that serializes entries into a zeroed page. */
    static method FillPage(es: seq<Buf>, size: nat) returns (page: Buf)
      requires |es| * size <= 480 && forall i :: 0 <= i < |es| ==> |es[i]| == size
      ensures Holds(page, es, size)
    {
      hide Holds;
      page := Zeros(PAGE);
      EmptyPage(size);
      for i := 0 to |es|
        invariant Holds(page, es[..i], size)
      {
        HoldsLength(page, es[..i], size);
        RunFits(i, |es|, size);
        PokeEntry(page, es[..i], size, es[i]);
        assert es[..i + 1] == es[..i] + [es[i]];
        page := Poke(page, i * size, es[i]);
      }
      assert es[..|es|] == es;
    }

    method EmitLeafPage(ptype: byte, size: byte, entries: seq<Buf>, first: nat, count: nat, ghost key: nat) returns (b: Bref)
      requires Core() && (size == 24 || size == 32) && first + count <= |entries| && count * size <= 480
      requires forall i :: 0 <= i < |entries| ==> |entries[i]| == size
      modifies `file, `cursor, `nextBid, `amaps, `lastAMap, `extents
      ensures Core() && PagesAdded()
      ensures ParsePage(sums, file, ptype, 0, Branch(key, b.bid, b.ib))
              == Some(Leaf(key, LeafRecs(entries[first..first + count])))
      ensures b.bid < 4 * nextBid && b.ib < cursor && |file| == cursor
    {
      hide SpaceOk, BlocksOk, Keeps, Written, ParsePage, LeafRecs;
      var page := FillPage(entries[first..first + count], size);
      b := FinishPage(page, ptype, size, count, 0, key);
      LeafPageParses(sums, file, ptype, Branch(key, b.bid, b.ib), page, size, entries[first..first + count]);
    }

    method EmitBranchPage(ptype: byte, entries: seq<Branch>, first: nat, count: nat, level: byte, ghost key: nat) returns (b: Bref)
      requires Core() && first + count <= |entries| && count <= 20 && level >= 1
      modifies `file, `cursor, `nextBid, `amaps, `lastAMap, `extents
      ensures Core() && PagesAdded()
      ensures (forall i :: 0 <= i < |entries| ==> BranchFits(entries[i])) &&
              ParseKids(sums, old(file), ptype, level - 1, entries).Some?
              ==> ParsePage(sums, file, ptype, level, Branch(key, b.bid, b.ib))
                  == Some(Node(key, ParseKids(sums, old(file), ptype, level - 1, entries).value[first..first + count]))
      ensures b.bid < 4 * nextBid && b.ib < cursor && |file| == cursor
    {
      hide SpaceOk, BlocksOk, Keeps, Written, ParsePage, ParseKids, BranchEntry, BranchFits;
      var slice := entries[first..first + count];
      var page := FillPage(BranchEntries(slice), 24);
      b := FinishPage(page, ptype, 24, count, level, key);
      if (forall i :: 0 <= i < |entries| ==> BranchFits(entries[i])) && ParseKids(sums, old(file), ptype, level - 1, entries).Some? {
        ParseKidsTake(sums, old(file), ptype, level - 1, entries, first, first + count);
        ParseKidsKeeps(sums, old(file), file, ptype, level - 1, slice);
        BranchPageParses(sums, file, ptype, Branch(key, b.bid, b.ib), page, level, slice);
      }
    }

    /** The leaf pages of a B-tree, and the references to them. */
    method BuildLeaves(ptype: byte, size: byte, keys: seq<nat>, entries: seq<Buf>) returns (level: seq<Branch>)
      requires Core() && (size == 24 || size == 32) && |keys| == |entries|
      requires forall i :: 0 <= i < |entries| ==> |entries[i]| == size
      modifies `file, `cursor, `nextBid, `amaps, `lastAMap, `extents
      ensures Core() && PagesAdded()
      ensures |level| == CeilDiv(|entries|, EntriesPerPage(size)) && BranchesBelow(level, keys, nextBid, cursor)
      ensures level != [] ==> |file| == cursor
      ensures KeysOf(keys, entries) ==> ParseKids(sums, file, ptype, 0, level)
                                        == Some(LeafKids(LeafRecs(entries), EntriesPerPage(size)))
    {
      hide Core, Keeps, ParsePage, ParseKids, LeafRecs, LeavesHold, LeafKids, KeysOf, BranchesBelow, CeilDiv;
      var per := EntriesPerPage(size);
      level := [];
      NoBranches(keys, nextBid, cursor);
      NoneHeld(sums, file, ptype, 0, LeafRecs(entries), [], per);
      KeepsItself(file);
      CutCount(|entries|, per, 0);
      while |level| * per < |entries|
        invariant Core() && PagesAdded() && BranchesBelow(level, keys, nextBid, cursor)
        invariant |level| <= CeilDiv(|entries|, per) && (level != [] ==> |file| == cursor)
        invariant KeysOf(keys, entries) ==> LeavesHold(sums, file, ptype, level, LeafRecs(entries), per)
        decreases |entries| - |level| * per
      {
        label Start:
        var i := |level| * per;
        var n := Min(per, |entries| - i);
        var b := EmitLeafPage(ptype, size, entries, i, n, keys[i]);
        ghost var was := old@Start(file);
        KeepsTransitive(old(file), was, file);
        if KeysOf(keys, entries) {
          LeafRecsSlice(keys, entries, i, n);
          LeavesStep(sums, was, file, ptype, level, LeafRecs(entries), per, Branch(keys[i], b.bid, b.ib));
        }
        CutCount(|entries|, per, |level|);
        BelowLater(level, keys, old@Start(nextBid), old@Start(cursor), nextBid, cursor);
        BelowSnoc(level, keys, nextBid, cursor, Branch(keys[i], b.bid, b.ib));
        level := level + [Branch(keys[i], b.bid, b.ib)];
      }
      CutCount(|entries|, per, |level|);
      if KeysOf(keys, entries) { AllLeavesHeld(sums, file, ptype, level, LeafRecs(entries), per); }
    }

    /** One branch level over the level below it. */
    method BuildLevel(ptype: byte, level: seq<Branch>, height: byte, keys: seq<nat>) returns (next: seq<Branch>)
      requires Core() && height >= 1 && BranchesBelow(level, keys, nextBid, cursor)
      modifies `file, `cursor, `nextBid, `amaps, `lastAMap, `extents
      ensures Core() && PagesAdded()
      ensures |next| == CeilDiv(|level|, 20) && BranchesBelow(next, keys, nextBid, cursor)
      ensures next != [] ==> |file| == cursor
      ensures AllBranchesFit(level) && ParseKids(sums, old(file), ptype, height - 1, level).Some?
              ==> ParseKids(sums, file, ptype, height, next)
                  == Some(GroupKids(ParseKids(sums, old(file), ptype, height - 1, level).value, 20))
    {
      hide Core, Keeps, ParsePage, ParseKids, GroupsHold, GroupKids, AllBranchesFit, BranchesBelow, CeilDiv;
      next := [];
      NoBranches(keys, nextBid, cursor);
      ghost var fit := AllBranchesFit(level) && ParseKids(sums, file, ptype, height - 1, level).Some?;
      ghost var kids := if fit then ParseKids(sums, file, ptype, height - 1, level).value else [];
      NoneHeld(sums, file, ptype, height, [], kids, 20);
      KeepsItself(file);
      CutCount(|level|, 20, 0);
      while |next| * 20 < |level|
        invariant Core() && PagesAdded() && BranchesBelow(next, keys, nextBid, cursor)
        invariant |next| <= CeilDiv(|level|, 20) && (next != [] ==> |file| == cursor)
        invariant fit ==> ParseKids(sums, file, ptype, height - 1, level) == Some(kids)
        invariant fit ==> GroupsHold(sums, file, ptype, height, next, kids, 20)
        decreases |level| - |next| * 20
      {
        label Start:
        var i := |next| * 20;
        var n := Min(20, |level| - i);
        var b := EmitBranchPage(ptype, level, i, n, height, level[i].key);
        ghost var was := old@Start(file);
        KeepsTransitive(old(file), was, file);
        if fit {
          ParseKidsKeeps(sums, was, file, ptype, height - 1, level);
          ParseKidsKeys(sums, was, ptype, height - 1, level, i);
          AllFitUnfold(level);
          GroupsStep(sums, was, file, ptype, height, next, kids, 20, Branch(level[i].key, b.bid, b.ib));
        }
        CutCount(|level|, 20, |next|);
        BelowLater(next, keys, old@Start(nextBid), old@Start(cursor), nextBid, cursor);
        BelowKey(level, keys, old(nextBid), old(cursor), i);
        BelowSnoc(next, keys, nextBid, cursor, Branch(level[i].key, b.bid, b.ib));
        next := next + [Branch(level[i].key, b.bid, b.ib)];
      }
      CutCount(|level|, 20, |next|);
      if fit { AllGroupsHeld(sums, file, ptype, height, next, kids, 20); }
    }

    /** A B-tree over entries in key order, built bottom-up. An empty tree is one empty
        leaf. Fails exactly when the leaves outnumber what seven branch levels reach. */
    method BuildBTree(ptype: byte, size: byte, keys: seq<nat>, entries: seq<Buf>) returns (r: Result<Bref>)
      requires Core() && (size == 24 || size == 32) && |keys| == |entries|
      requires forall i :: 0 <= i < |entries| ==> |entries[i]| == size
      modifies `file, `cursor, `nextBid, `amaps, `lastAMap, `extents
      ensures Core() && PagesAdded()
      ensures r.Err? <==> CeilDiv(|entries|, EntriesPerPage(size)) > Pow20(7)
      ensures r.Ok? ==> r.value.bid < 4 * nextBid && r.value.ib < cursor && |file| == cursor
      ensures r.Ok? && Fits64() && KeysOf(keys, entries)
              ==> TreeHolds(sums, file, ptype, r.value.bid, r.value.ib, LeafRecs(entries), EntriesPerPage(size))
    {
      hide Core, Keeps, ParsePage, ParseKids, TreeHolds, LeafRecs, LeavesHold, GroupsHold, LeafKids, GroupKids, BranchesBelow,
           CeilDiv, Pow20, OrderedKids, WithinKids, FlattenKids, KeysOf;
      var perLeaf := EntriesPerPage(size);
      ghost var recs := LeafRecs(entries);
      if |entries| == 0 {
        var b := EmitLeafPage(ptype, size, entries, 0, 0, 0);
        EmptyRoot(sums, file, ptype, b, entries, perLeaf);
        NoLeaves(perLeaf);
        return Ok(b);
      }

      var level := BuildLeaves(ptype, size, keys, entries);
      ghost var kids := LeafKids(recs, perLeaf);
      LeafKidsCorrect(recs, perLeaf, 20);
      var height: nat := 1;
      ghost var leaves := |level|;
      CeilDivOne(leaves);
      CutCount(|entries|, perLeaf, 0);
      while |level| > 1
        invariant 1 <= height <= 8 && Core() && PagesAdded() && |level| >= 1 && |file| == cursor
        invariant |level| == CeilDiv(leaves, Pow20(height - 1))
        invariant BranchesBelow(level, keys, nextBid, cursor)
        invariant |kids| == |level| && OrderedKids(kids) && WithinKids(kids, perLeaf, 20) && FlattenKids(kids) == recs
        invariant Fits64() && KeysOf(keys, entries) ==> ParseKids(sums, file, ptype, height - 1, level) == Some(kids)
        decreases |level|
      {
        label Start:
        var next := BuildLevel(ptype, level, height, keys);
        CursorBound();
        BelowLater(level, keys, old@Start(nextBid), old@Start(cursor), nextBid, cursor);
        if Fits64() && KeysOf(keys, entries) { LevelFits(level, keys, entries, nextBid, cursor); }
        KeepsTransitive(old(file), old@Start(file), file);
        ghost var width := |level|;
        GroupKidsCorrect(kids, perLeaf, 20);
        CeilDivTwice(leaves, Pow20(height - 1), 20);
        Pow20Step(height - 1);
        CeilDivShrinks(|level|);
        kids := GroupKids(kids, 20);
        level := next;
        height := height + 1;
        if height > 8 {
          TooTall(leaves, width);
          return Err("B-tree grew beyond 8 levels");
        }
      }
      TallEnough(leaves, height - 1);
      var top := level[0];
      BelowKey(level, keys, nextBid, cursor, 0);
      if Fits64() && KeysOf(keys, entries) {
        OneKid(sums, file, ptype, height - 1, level, kids);
        SingleKid(kids, recs, perLeaf);
        RootHolds(sums, file, ptype, height - 1, top, kids[0], recs, perLeaf);
      }
      return Ok(Bref(top.bid, top.ib));
    }

    // ----------------------------------------------------------- finishing

    method WriteFixed(ib: nat, page: Buf)
      requires BlocksOnFile() && IsReservedPage(ib) && |page| == PAGE && ib + PAGE <= |file|
      modifies `file
      ensures file == Splice(old(file), ib, page) && |file| == |old(file)| && Keeps(old(file), file)
    {
      FixedWriteKeeps(file, ib, page);
      WriteAt(ib, page);
    }

    predicate BlocksOnFile()
      reads this
    {
      |file| >= FIRST_DATA
    }

    /** The counting part of emitFixedPages. */
    method CountFreeSlots() returns (free: nat)
      ensures free == ALIGN * FreeTotal(amaps)
    {
      free := 0;
      for i := 0 to |amaps|
        invariant free == ALIGN * FreeTotal(amaps[..i])
      {
        assert amaps[..i + 1][..i] == amaps[..i];
        var n := CountFree(amaps[i]);
        free := free + n * ALIGN;
      }
      assert amaps[..|amaps|] == amaps;
    }

    /** The density list, every allocation map and every page map, at their positions. */
    method EmitFixedPages(fileEnd: nat)
      requires fileEnd == |file| == AMapPos(|amaps|) && |amaps| >= 1
      requires forall m :: 0 <= m < |amaps| ==> |amaps[m]| == MAP_BYTES
      modifies `file, `nextBid
      ensures |file| == fileEnd && nextBid == old(nextBid) + 1 && Keeps(old(file), file)
      ensures MapsOnFile(sums, file, amaps) && PMapsOnFile(sums, file)
    {
      hide Splice, Keeps, IsReservedPage, MapPage, FixedPage;
      var bid := MakeBid(nextBid, false);
      nextBid := nextBid + 1;
      DListReserved();
      WriteFixed(DLIST_POS, FixedPage(sums, DLIST_POS, PTYPE_DLIST, Zeros(MAP_BYTES), sums.sig(DLIST_POS, bid), bid));
      var i := 0;
      while i < |amaps|
        invariant 0 <= i <= |amaps| && |file| == fileEnd && nextBid == old(nextBid) + 1 && Keeps(old(file), file)
        invariant MapsOnFile(sums, file, amaps[..i])
      {
        ghost var was := file;
        AMapReserved(i);
        WriteFixed(AMapPos(i), MapPage(sums, AMapPos(i), PTYPE_AMAP, amaps[i]));
        KeepsTransitive(old(file), was, file);
        MapsStep(sums, was, amaps, i);
        i := i + 1;
      }
      assert amaps[..|amaps|] == amaps;
      var ib := FIRST_PMAP;
      ghost var k := 0;
      while ib < fileEnd
        invariant ib == PMapPos(k) && |file| == fileEnd && nextBid == old(nextBid) + 1 && Keeps(old(file), file)
        invariant MapsOnFile(sums, file, amaps)
        invariant forall j :: 0 <= j < k ==> PMapOnFile(sums, file, j)
        decreases fileEnd - ib
      {
        ghost var was := file;
        PMapFits(k, |amaps|);
        AMapReserved(k);
        WriteFixed(ib, MapPage(sums, ib, PTYPE_PMAP, Fill(0xFF, MAP_BYTES)));
        KeepsTransitive(old(file), was, file);
        PMapStep(sums, was, amaps, k);
        ib := ib + PMAP_SPAN;
        k := k + 1;
      }
      PMapsDone(sums, file, k);
    }

    method WriteHeader(nbtRoot: Bref, bbtRoot: Bref, fileEnd: nat, free: nat)
      requires |file| >= FIRST_DATA
      modifies `file
      ensures |file| == |old(file)| && Keeps(old(file), file)
      ensures forall a: nat, n: nat :: HEADER_SIZE <= a && a + n <= |file| ==> Sub(file, a, n) == Sub(old(file), a, n)
      ensures fileEnd < U64 && lastAMap < U64 && free < U64 && nbtRoot.bid < U64 && nbtRoot.ib < U64
              && bbtRoot.bid < U64 && bbtRoot.ib < U64
              ==> RootReads(file, fileEnd, lastAMap, free, nbtRoot, bbtRoot)
      ensures 4 * nextBid < U64 && (forall e :: e in nbt ==> e.nid < U32)
              ==> CountersRead(file, 4 * nextBid, MarksOf(nbt))
    {
      hide Splice, Header, Root, Opening, Closing, RootReads, CountersRead, Mark;
      var marks := ComputeMarks(nbt);
      assert marks == MarksOf(nbt);
      var root := Root(fileEnd, lastAMap, free, nbtRoot, bbtRoot);
      var h := Header(sums, MakeBid(nextBid, false), marks, root);
      HeaderWriteKeeps(file, h);
      HeaderElsewhere(file, h);
      HeaderParts(sums, MakeBid(nextBid, false), marks, root);
      HeaderOnFile(file, h);
      WriteAt(0, h);
      if fileEnd < U64 && lastAMap < U64 && free < U64 && nbtRoot.bid < U64 && nbtRoot.ib < U64
         && bbtRoot.bid < U64 && bbtRoot.ib < U64 {
        RootRoundTrip(file, fileEnd, lastAMap, free, nbtRoot, bbtRoot);
      }
      if 4 * nextBid < U64 && (forall e :: e in nbt ==> e.nid < U32) {
        MarksFit(nbt);
        CountersRoundTrip(file, 4 * nextBid, marks);
      }
    }

    /** What the finished file says, for the nodes that were registered. */
    ghost predicate Image(nodes: seq<NbtEntry>)
      reads this
    {
      // whole spans, exact maps, nothing but blocks and tree pages allocated
      && |file| == AMapPos(|amaps|) && SpaceOk(cursor, amaps, extents)
      && BlockExtents(bbt) <= extents && (forall i :: |bbt| <= i < |extents| ==> extents[i].cb == PAGE)
      && MapsOnFile(sums, file, amaps) && PMapsOnFile(sums, file) && BitsOnFile(file, |amaps|, extents)
      && (|file| < U64 ==>
            && Fits64()
            // the header, the blocks and the nodes as a reader finds them
            && Peek64At(file, ROOT + 4) == |file| && Peek64At(file, ROOT + 12) == AMapPos(|amaps| - 1)
            && Peek64At(file, ROOT + 20) == ALIGN * FreeTotal(amaps)
            // the free space published is what is neither allocated nor a fixed page
            && Peek64At(file, ROOT + 20) + SumCb(extents) + PAGE * FixedPages(|amaps|) == |file| - FIRST_AMAP
            && StoreOf(sums, file) == blocks
            && (DistinctKeys(nodes, NodeKey()) && AllNodesFit(nodes) ==>
                  && (forall nid: nat :: ReadNode(sums, file, nid) == FindNode(nodes, nid))
                  && (forall e :: e in nodes ==> NidIndex(e.nid) < Peek32At(file, 44 + 4 * NidType(e.nid)))))
    }

    /** Writes both trees, pads the file to whole spans, and writes the fixed pages and
        the header. What a reader then finds, starting from the header, is exactly what
        was stored. */
    method Finish() returns (r: Result<()>)
      requires finished || Valid()
      modifies this
      ensures finished
      ensures old(finished) ==> r.Ok? && unchanged(this)
      ensures !old(finished) ==>
                && blocks == old(blocks) && old(nextBid) <= nextBid && |old(amaps)| <= |amaps|
                && (r.Err? <==> CeilDiv(|old(nbt)|, 15) > Pow20(7) || CeilDiv(|old(bbt)|, 20) > Pow20(7))
                && (r.Ok? ==> Image(old(nbt)))
    {
      hide SpaceOk, BlocksOk, Image, SortBy, CeilDiv, Pow20, BlockExtents, TreeHolds, Keeps, MapsOnFile, PMapsOnFile, RootReads,
           CountersRead, AllNodesFit, DistinctKeys;
      if finished {
        return Ok(());
      }
      finished := true;
      BbtSorted(sums, file, bbt, blocks, nextBid);
      bbt := SortBy(bbt, BidKey());
      nbt := SortBy(nbt, NodeKey());
      var roots := BuildTrees();
      if roots.Err? {
        return Err(roots.reason);
      }
      ghost var was, wasNext := file, nextBid;
      CloseFile(roots.value.0, roots.value.1);
      ImageFor(old(nbt), was, wasNext, roots.value.0, roots.value.1);
      return Ok(());
    }

    /** The NBT first, then the BBT; neither indexes pages. */
    method BuildTrees() returns (r: Result<(Bref, Bref)>)
      requires Core() && extents == BlockExtents(bbt)
      modifies `file, `cursor, `nextBid, `amaps, `lastAMap, `extents
      ensures Core() && PagesAdded()
      ensures r.Err? <==> CeilDiv(|nbt|, 15) > Pow20(7) || CeilDiv(|bbt|, 20) > Pow20(7)
      ensures r.Ok? ==> TreesBuilt(r.value.0, r.value.1) && |file| == cursor
    {
      hide Core, Keeps, TreeHolds, CeilDiv, Pow20, LeafRecs, KeysOf, BlockExtents;
      var nr := BuildBTree(PTYPE_NBT, 32, NidsOf(nbt), NbtEntries(nbt));
      if nr.Err? {
        return Err(nr.reason);
      }
      ghost var was := file;
      label NbtBuilt:
      var br := BuildBTree(PTYPE_BBT, 24, BidsOf(bbt), BbtEntries(bbt));
      KeepsTransitive(old(file), was, file);
      if br.Err? {
        return Err(br.reason);
      }
      if Fits64() {
        BbtKeysOf();
        if AllNodesFit(nbt) {
          NbtKeysOf(nbt);
          TreeHoldsKeeps(sums, was, file, PTYPE_NBT, nr.value.bid, nr.value.ib, LeafRecs(NbtEntries(nbt)), 15);
        }
      }
      return Ok((nr.value, br.value));
    }

    ghost predicate TreesBuilt(n: Bref, b: Bref)
      reads this
    {
      && n.bid < 4 * nextBid && n.ib < cursor && b.bid < 4 * nextBid && b.ib < cursor
      && (Fits64() ==> TreeHolds(sums, file, PTYPE_BBT, b.bid, b.ib, LeafRecs(BbtEntries(bbt)), 20))
      && (Fits64() && AllNodesFit(nbt) ==> TreeHolds(sums, file, PTYPE_NBT, n.bid, n.ib, LeafRecs(NbtEntries(nbt)), 15))
    }

    lemma BbtKeysOf()
      requires Core() && Fits64()
      ensures KeysOf(BidsOf(bbt), BbtEntries(bbt))
    {
      BidKeys(sums, file, bbt, blocks, nextBid);
    }

    lemma ImageFor(nodes: seq<NbtEntry>, was: Buf, wasNext: nat, n: Bref, b: Bref)
      requires SpaceValid() && BlocksOk(sums, was, bbt, blocks, wasNext) && wasNext <= nextBid == |extents| + 2
      requires Keeps(was, file)
      requires |file| == AMapPos(|amaps|) && BlockExtents(bbt) <= extents && nbt == SortBy(nodes, NodeKey())
      requires forall i :: |bbt| <= i < |extents| ==> extents[i].cb == PAGE
      requires MapsOnFile(sums, file, amaps) && PMapsOnFile(sums, file)
      requires Fits64() ==> TreeHolds(sums, was, PTYPE_BBT, b.bid, b.ib, LeafRecs(BbtEntries(bbt)), 20)
      requires Fits64() && AllNodesFit(nbt) ==> TreeHolds(sums, was, PTYPE_NBT, n.bid, n.ib, LeafRecs(NbtEntries(nbt)), 15)
      requires Fits64() ==> RootReads(file, |file|, lastAMap, ALIGN * FreeTotal(amaps), n, b)
      requires Fits64() && AllNodesFit(nbt) ==> CountersRead(file, 4 * nextBid, MarksOf(nbt))
      ensures Image(nodes)
    {
      hide SpaceOk, BlocksOk, SortBy, BlockExtents, Keeps, MapsOnFile, PMapsOnFile, TreeHolds, LeafRecs, BbtEntries, NbtEntries,
           CountersRead, MarksOf, DistinctKeys, AllNodesFit, StoreOf, ReadNode, FindNode, FreeTotal, BitsOnFile, SumCb, FixedPages;
      BlocksKeep(sums, was, file, bbt, blocks, wasNext, nextBid);
      FreeSpaceAddsUp(cursor, amaps, extents);
      BitsRead(sums, file, cursor, amaps, extents);
      if |file| < U64 {
        CountExtents(cursor, amaps, extents);
        TreeHoldsKeeps(sums, was, file, PTYPE_BBT, b.bid, b.ib, LeafRecs(BbtEntries(bbt)), 20);
        StoreRead(sums, file, bbt, blocks, nextBid, b);
        if DistinctKeys(nodes, NodeKey()) && AllNodesFit(nodes) {
          SortedNodesFit(nodes);
          TreeHoldsKeeps(sums, was, file, PTYPE_NBT, n.bid, n.ib, LeafRecs(NbtEntries(nbt)), 15);
          NodesRead(sums, file, nodes, n);
          MarksRead(file, 4 * nextBid, nodes);
        }
      }
    }

    /** Padding, fixed pages and header. */
    method CloseFile(nbtRoot: Bref, bbtRoot: Bref)
      requires Core() && |file| == cursor && TreesBuilt(nbtRoot, bbtRoot)
      modifies `file, `nextBid
      ensures |file| == AMapPos(|amaps|) && Keeps(old(file), file) && nextBid == old(nextBid) + 1
      ensures MapsOnFile(sums, file, amaps) && PMapsOnFile(sums, file)
      ensures Fits64() ==> RootReads(file, |file|, lastAMap, ALIGN * FreeTotal(amaps), nbtRoot, bbtRoot)
      ensures Fits64() && AllNodesFit(nbt) ==> CountersRead(file, 4 * nextBid, MarksOf(nbt))
    {
      hide SpaceOk, BlocksOk, Keeps, TreeHolds, MapsOnFile, PMapsOnFile, RootReads, CountersRead, Splice, AllNodesFit;
      MapLengths(cursor, amaps, extents);
      var fileEnd := AMapPos(|amaps|);
      if fileEnd < cursor {
        fileEnd := cursor;
      }
      KeepsItself(file);
      if fileEnd > cursor {
        var pad := Zeros(fileEnd - cursor);
        SpliceKeeps(file, cursor, pad);
        SpliceLength(file, cursor, pad);
        WriteAt(cursor, pad);
      }
      ghost var padded := file;
      var free := CountFreeSlots();
      EmitFixedPages(fileEnd);
      ghost var fixed := file;
      WriteHeader(nbtRoot, bbtRoot, fileEnd, free);
      KeepsTransitive(old(file), padded, fixed);
      KeepsTransitive(old(file), fixed, file);
      MapsAfterHeader(sums, fixed, file, amaps);
      if AllNodesFit(nbt) { NidsFit(nbt); }
      FreeFits(cursor, amaps, extents);
    }
  }

  // ------------------------------------------------ arithmetic of the spans

  /** No more than two fixed pages are ever skipped by one allocation: an AMap page
      and the PMap page behind it. */
  predicate Skipped(cursor: nat, skips: nat) {
    && skips <= 2 && FIRST_DATA <= cursor
    && (skips >= 1 ==> cursor >= FIRST_DATA + PAGE && IsReservedPage(cursor - PAGE))
    && (skips == 2 ==> cursor >= FIRST_DATA + 2 * PAGE && IsReservedPage(cursor - 2 * PAGE))
  }

  lemma SkipAgain(cursor: nat, cb: nat, p: nat, skips: nat)
    requires Skipped(cursor, skips) && 0 < cb <= MAX_BLOCK
    requires IsReservedPage(p) && cursor < p + PAGE && p < cursor + cb && p % PAGE == 0
    ensures Skipped(p + PAGE, skips + 1)
  {
    assert p >= FIRST_DATA by { assert p == 512 * (p / 512); }
    if skips >= 1 {
      ReservedCases(cursor - PAGE);
      ReservedGap(cursor - PAGE, p);
      assert p == cursor;
    }
    if skips == 2 {
      ReservedGap(cursor - 2 * PAGE, cursor - PAGE);
    }
  }

  lemma NoBlocks(s: Sums, file: Buf)
    ensures BlocksOk(s, file, [], map[], 1) && BlockExtents([]) == []
  {
  }

  lemma PageStart(cursor: nat)
    ensures (cursor - cursor % PAGE) % PAGE == 0
    ensures forall q: nat :: IsReservedPage(q) && q < cursor - cursor % PAGE ==> q + PAGE <= cursor
  {
    ModUnique(cursor - cursor % PAGE, PAGE, cursor / PAGE, 0);
    forall q: nat | IsReservedPage(q) && q < cursor - cursor % PAGE ensures q + PAGE <= cursor {
      ReservedCases(q);
      assert q == 512 * (q / 512) && cursor == 512 * (cursor / 512) + cursor % 512;
    }
  }

  lemma ClashAligned(p: nat)
    requires p % PAGE == 0
    ensures (p + PAGE) % PAGE == 0 && (p + PAGE) % ALIGN == 0
  {
    ModUnique(p + PAGE, PAGE, p / PAGE + 1, 0);
    ModUnique(p + PAGE, ALIGN, 8 * (p / PAGE) + 8, 0);
  }

  lemma PagesApart(p: nat)
    requires p % PAGE == 0
    ensures forall q: nat :: IsReservedPage(q) && q < p + PAGE ==> q <= p && (q < p ==> q + PAGE <= p)
  {
    forall q: nat | IsReservedPage(q) && q < p + PAGE ensures q <= p && (q < p ==> q + PAGE <= p) {
      ReservedCases(q);
      if q < p { PagesOff(q, p); }
      if p < q { PagesOff(p, q); }
    }
  }

  /** Skipping a fixed page skips no position that would do. */
  lemma OverlapSkip(cursor: nat, cb: nat, p: nat, target: nat)
    requires IsReservedPage(p) && cursor < p + PAGE && p < cursor + cb
    requires cursor <= target && Clear(target, cb)
    ensures p + PAGE <= target
    ensures forall x :: cursor <= x < p + PAGE ==> !Clear(x, cb)
  {
    forall x | cursor <= x < p + PAGE ensures !Clear(x, cb) {
      assert !(p + PAGE <= x || x + cb <= p);
    }
  }

  lemma MarkOwn(done: seq<Buf>, index: nat)
    requires |done| == index
    ensures MarkedMaps(done + [Zeros(MAP_BYTES)], AMapPos(index), PAGE)
            == done + [Marked(Zeros(MAP_BYTES), 0, 8)]
  {
    ModUnique(AMapPos(index) - FIRST_AMAP, AMAP_SPAN, index, 0);
    AlignUpAligned(PAGE, ALIGN);
  }

  lemma MarkPMap(done: seq<Buf>, own: Buf, k: nat)
    requires |done| == 8 * k
    ensures MarkedMaps(done + [own], PMapPos(k), PAGE) == done + [Marked(own, 8, 8)]
  {
    AMapReserved(k);
    ModUnique(PMapPos(k) - FIRST_AMAP, AMAP_SPAN, 8 * k, PAGE);
    AlignUpAligned(PAGE, ALIGN);
  }

  /** PMap page `k`, looked at from the span of AMap `index`. */
  lemma PMapInSpan(index: nat, k: nat)
    requires k <= index / 8 + 1 && PMapPos(k) < AMapPos(index + 1)
    ensures k <= index / 8
    ensures PMapPos(k) >= AMapPos(index) <==> k == index / 8 && index % 8 == 0
    ensures PMapPos(k) >= AMapPos(index) ==> index == 8 * k
  {
    assert index == 8 * (index / 8) + index % 8;
    AMapReserved(k);
  }

  lemma PMapPastSpan(index: nat, k: nat)
    requires k <= index / 8 + 1 && PMapPos(k) >= AMapPos(index + 1)
    ensures k > index / 8
  {
    assert index == 8 * (index / 8) + index % 8;
    AMapReserved(k);
  }

  lemma ExtendOne(maps: seq<Buf>, n: nat)
    requires n >= |maps|
    ensures Extended(maps, n + 1) == Extended(maps, n) + [FreshMap(n)]
  {
  }

  lemma {:induction false} ExtendedIdempotent(maps: seq<Buf>, n: nat)
    ensures n <= |maps| ==> Extended(maps, n) == maps
    ensures Extended(maps, |maps|) == maps
  {
  }

  // ---------------------------------------------------- blocks and streams

  /** emitBlock fills a zeroed buffer in place; what results is the block image. */
  method BlockBuffer(s: Sums, ib: nat, bid: nat, data: Buf, total: nat) returns (buf: Buf)
    requires total == BlockTotal(|data|)
    ensures buf == BlockImage(s, ib, bid, data)
  {
    BlockTotalBounds(|data|);
    buf := Zeros(total);
    buf := Poke(buf, 0, data);
    var t := total - 16;
    buf := Poke(buf, t, Put16(|data|));
    buf := Poke(buf, t + 2, Put16(s.sig(ib, bid)));
    buf := Poke(buf, t + 4, Put32(s.crc(data)));
    buf := Poke(buf, t + 8, Put64(bid));
    assert buf[t..] == BlockTrailer(s, ib, bid, data);
  }

  lemma SpliceLength(file: Buf, ib: nat, d: Buf)
    requires |file| <= ib
    ensures |Splice(file, ib, d)| == ib + |d|
  {
  }

  lemma ExtentsOfBlocks(bbt: seq<BbtEntry>, e: BbtEntry)
    ensures BlockExtents(bbt + [e]) == BlockExtents(bbt) + [Extent(e.ib, BlockTotal(e.cb))]
  {
  }

  lemma InternalBid(index: nat, internal: bool)
    ensures IsInternal(MakeBid(index, internal)) == internal
  {
  }

  lemma BidsFit(s: Sums, file: Buf, bbt: seq<BbtEntry>, blocks: Store, nextBid: nat, ids: seq<nat>)
    requires BlocksOk(s, file, bbt, blocks, nextBid) && 4 * nextBid <= U64
    requires forall i :: 0 <= i < |ids| ==> ids[i] in blocks
    ensures forall i :: 0 <= i < |ids| ==> 0 < ids[i] < U64
  {
    hide BlockOk;
    forall i | 0 <= i < |ids| ensures 0 < ids[i] < U64 {
      var j :| 0 <= j < |bbt| && bbt[j].bid == ids[i];
    }
  }

  lemma EmptyStream(blocks: Store)
    ensures Stream(blocks, []) == []
  {
  }

  lemma SingleStream(blocks: Store, leaves: seq<nat>)
    requires Leaves(blocks, leaves) && |leaves| == 1
    ensures ReadTree(blocks, leaves[0]) == Some(Stream(blocks, leaves))
  {
    assert leaves[1..] == [];
    assert blocks[leaves[0]] + [] == blocks[leaves[0]];
  }

  /** One XBLOCK over all the leaves. */
  lemma LeafRoot(before: Store, after: Store, bid: nat, leaves: seq<nat>)
    requires Leaves(before, leaves) && |leaves| <= X_FANOUT && |Stream(before, leaves)| < U32
    requires bid !in before && IsInternal(bid)
    requires after == before[bid := XBlock(1, leaves, |Stream(before, leaves)|)]
    requires forall i :: 0 <= i < |leaves| ==> leaves[i] < U64
    ensures TreeBytes(after, bid, 1) == Some(Stream(before, leaves))
    ensures ReadTree(after, bid) == Some(Stream(before, leaves))
  {
    StreamIsCat(before, leaves);
    CatTreesGrow(before, after, leaves, 0);
    hide CatTrees, Stream;
    XBlockTree(after, bid, 1, leaves, Stream(before, leaves));
  }

  /** The XBLOCKs so far hold a prefix of the stream, 1021 leaves each. */
  ghost predicate Covers(start: Store, blocks: Store, leaves: seq<nat>, xblocks: seq<nat>)
    requires forall i :: 0 <= i < |leaves| ==> leaves[i] in start
  {
    CatTrees(blocks, xblocks, 1) == Some(Stream(start, leaves[..Min(|xblocks| * X_FANOUT, |leaves|)]))
  }

  lemma CoversAll(start: Store, blocks: Store, leaves: seq<nat>, xblocks: seq<nat>)
    requires forall i :: 0 <= i < |leaves| ==> leaves[i] in start
    requires |leaves| <= |xblocks| * X_FANOUT
    ensures Covers(start, blocks, leaves, xblocks) ==> CatTrees(blocks, xblocks, 1) == Some(Stream(start, leaves))
  {
    hide CatTrees, Stream;
    assert leaves[..|leaves|] == leaves;
  }

  lemma CoversNone(blocks: Store, leaves: seq<nat>)
    requires forall i :: 0 <= i < |leaves| ==> leaves[i] in blocks
    ensures Covers(blocks, blocks, leaves, [])
  {
    assert leaves[..0] == [];
  }

  /** One more XBLOCK under the XXBLOCK. */
  lemma XBlockStep(start: Store, before: Store, after: Store, leaves: seq<nat>, xblocks: seq<nat>, bid: nat, slice: seq<nat>)
    requires Leaves(start, leaves) && Extends(start, before) && |xblocks| * X_FANOUT < |leaves|
    requires slice == leaves[|xblocks| * X_FANOUT..Min((|xblocks| + 1) * X_FANOUT, |leaves|)]
    requires Leaves(start, slice) && |Stream(start, slice)| < U32
    requires bid !in before && IsInternal(bid)
    requires after == before[bid := XBlock(1, slice, |Stream(start, slice)|)]
    requires forall k :: 0 <= k < |slice| ==> slice[k] < U64
    requires Covers(start, before, leaves, xblocks)
    ensures Covers(start, after, leaves, xblocks + [bid])
  {
    hide CatTrees, Stream, XBlock;
    var i := |xblocks| * X_FANOUT;
    StreamGrow(start, before, slice);
    LeafRoot(before, after, bid, slice);
    CatTreesGrow(before, after, xblocks, 1);
    CatOne(after, bid, 1);
    CatTreesConcat(after, xblocks, [bid], 1);
    StreamConcat(start, leaves[..i], slice);
    assert leaves[..i] + slice == leaves[..i + |slice|];
  }

  lemma CatOne(blocks: Store, bid: nat, level: nat)
    requires TreeBytes(blocks, bid, level).Some?
    ensures CatTrees(blocks, [bid], level) == TreeBytes(blocks, bid, level)
  {
    assert [bid][1..] == [];
    var x := TreeBytes(blocks, bid, level).value;
    assert x + [] == x;
  }

  /** One more chunk of a stream. */
  lemma LeafStep(before: Store, after: Store, leaves: seq<nat>, bid: nat, data: Buf, off: nat, n: nat)
    requires Leaves(before, leaves) && bid !in before && !IsInternal(bid)
    requires off < |data| && n == Min(MAX_DATA, |data| - off)
    requires after == before[bid := data[off..off + n]]
    requires forall i :: 0 <= i < |leaves| ==> |before[leaves[i]]| == MAX_DATA
    requires Stream(before, leaves) == data[..off]
    ensures Leaves(after, leaves + [bid]) && Stream(after, leaves + [bid]) == data[..off + n]
    ensures n == MAX_DATA ==> |after[bid]| == MAX_DATA
  {
    StreamGrow(before, after, leaves);
    StreamConcat(after, leaves, [bid]);
    assert [bid][1..] == [];
    assert Stream(after, [bid]) == data[off..off + n] + [];
    assert data[..off] + data[off..off + n] == data[..off + n];
  }

  lemma KeyFits(es: seq<SubEntry>, i: nat)
    requires AllFit(es) && i < |es|
    ensures es[i].nid < U64
  {
  }

  lemma ChildBidsFit(s: Sums, file: Buf, bbt: seq<BbtEntry>, blocks: Store, nextBid: nat, cs: seq<Child>)
    requires BlocksOk(s, file, bbt, blocks, nextBid) && 4 * nextBid <= U64
    requires forall i :: 0 <= i < |cs| ==> cs[i].bid in blocks
    ensures forall i :: 0 <= i < |cs| ==> cs[i].bid < U64
  {
    hide BlocksOk;
    var ids := seq(|cs|, i requires 0 <= i < |cs| => cs[i].bid);
    BidsFit(s, file, bbt, blocks, nextBid, ids);
    forall i | 0 <= i < |cs| ensures cs[i].bid < U64 { assert ids[i] == cs[i].bid; }
  }

  // -------------------------------------------------------------- b-trees

  function EntriesPerPage(size: byte): (n: nat)
    requires size == 24 || size == 32
    ensures n == if size == 24 then 20 else 15
  {
    PAGE_DATA / size
  }

  function Pow20(n: nat): (p: nat)
    ensures p > 0
  {
    if n == 0 then 1 else 20 * Pow20(n - 1)
  }

  /** Each entry starts with its key. */
  predicate KeysOf(keys: seq<nat>, entries: seq<Buf>)
    requires |keys| == |entries|
  {
    forall i :: 0 <= i < |entries| ==> Peek64At(entries[i], 0) == keys[i] && keys[i] < U64
  }

  predicate BranchesBelow(level: seq<Branch>, keys: seq<nat>, nextBid: nat, cursor: nat) {
    forall i :: 0 <= i < |level| ==> level[i].key in keys && level[i].bid < 4 * nextBid && level[i].ib < cursor
  }

  lemma NoBranches(keys: seq<nat>, nextBid: nat, cursor: nat)
    ensures BranchesBelow([], keys, nextBid, cursor)
  {
  }

  lemma BelowLater(level: seq<Branch>, keys: seq<nat>, nextBid: nat, cursor: nat, laterBid: nat, laterCursor: nat)
    requires BranchesBelow(level, keys, nextBid, cursor) && nextBid <= laterBid && cursor <= laterCursor
    ensures BranchesBelow(level, keys, laterBid, laterCursor)
  {
  }

  lemma BelowSnoc(level: seq<Branch>, keys: seq<nat>, nextBid: nat, cursor: nat, b: Branch)
    requires BranchesBelow(level, keys, nextBid, cursor) && b.key in keys && b.bid < 4 * nextBid && b.ib < cursor
    ensures BranchesBelow(level + [b], keys, nextBid, cursor)
  {
  }

  lemma BelowKey(level: seq<Branch>, keys: seq<nat>, nextBid: nat, cursor: nat, i: nat)
    requires BranchesBelow(level, keys, nextBid, cursor) && i < |level|
    ensures level[i].key in keys && level[i].bid < 4 * nextBid && level[i].ib < cursor
  {
  }

  predicate AllBranchesFit(level: seq<Branch>) {
    forall i :: 0 <= i < |level| ==> BranchFits(level[i])
  }

  lemma AllFitUnfold(level: seq<Branch>)
    requires AllBranchesFit(level)
    ensures forall i :: 0 <= i < |level| ==> BranchFits(level[i])
  {
  }

  lemma LevelFits(level: seq<Branch>, keys: seq<nat>, entries: seq<Buf>, nextBid: nat, cursor: nat)
    requires BranchesBelow(level, keys, nextBid, cursor) && 4 * nextBid <= U64 && cursor <= U64
    requires |keys| == |entries| && KeysOf(keys, entries)
    ensures AllBranchesFit(level)
  {
    forall i | 0 <= i < |level| ensures BranchFits(level[i]) {
      var j :| 0 <= j < |keys| && keys[j] == level[i].key;
    }
  }

  lemma {:induction false} ParseKidsKeys(s: Sums, file: Buf, ptype: byte, level: nat, bs: seq<Branch>, i: nat)
    requires i < |bs| && ParseKids(s, file, ptype, level, bs).Some?
    ensures ParseKids(s, file, ptype, level, bs).value[i].key == bs[i].key
  {
    if i > 0 { ParseKidsKeys(s, file, ptype, level, bs[1..], i - 1); }
  }

  lemma SpliceAt(file: Buf, ib: nat, d: Buf)
    ensures Splice(file, ib, d)[ib..ib + |d|] == d
  {
  }

  lemma KeepsItself(file: Buf)
    ensures Keeps(file, file)
  {
  }

  lemma PokeEntry(page: Buf, es: seq<Buf>, size: nat, e: Buf)
    requires Holds(page, es, size) && |e| == size && |es| * size + size <= PAGE_DATA
    ensures Holds(Poke(page, |es| * size, e), es + [e], size)
  {
    var r := Poke(page, |es| * size, e);
    assert |es + [e]| * size == |es| * size + size;
    forall i | 0 <= i < |es| + 1 ensures Sub(r, i * size, size) == (es + [e])[i] {
      if i < |es| {
        RunFits(i, |es|, size);
        assert r[i * size..i * size + size] == page[i * size..i * size + size];
      }
    }
  }

  lemma EmptyPage(size: nat)
    ensures Holds(Zeros(PAGE), [], size)
  {
  }

  lemma HoldsLength(page: Buf, es: seq<Buf>, size: nat)
    requires Holds(page, es, size)
    ensures |page| == PAGE
  {
  }

  lemma LeafRecsSlice(keys: seq<nat>, entries: seq<Buf>, i: nat, n: nat)
    requires |keys| == |entries| && KeysOf(keys, entries) && i + n <= |entries| && n > 0
    ensures LeafRecs(entries[i..i + n]) == LeafRecs(entries)[i..i + n]
    ensures LeafRecs(entries)[i].key == keys[i]
  {
  }

  lemma NoLeaves(per: nat)
    requires per > 0
    ensures CeilDiv(0, per) <= Pow20(7)
  {
    CeilDivBounds(0, per, 0);
  }

  lemma EmptyRoot(s: Sums, file: Buf, ptype: byte, b: Bref, entries: seq<Buf>, perLeaf: nat)
    requires entries == [] && ParsePage(s, file, ptype, 0, Branch(0, b.bid, b.ib)) == Some(Leaf(0, LeafRecs(entries[0..0])))
    ensures TreeHolds(s, file, ptype, b.bid, b.ib, LeafRecs(entries), perLeaf)
  {
    hide ParsePage;
    assert entries[0..0] == [];
    RootHolds(s, file, ptype, 0, Branch(0, b.bid, b.ib), Leaf(0, []), [], perLeaf);
  }

  lemma SingleKid(kids: seq<Tree>, recs: seq<Rec>, perLeaf: nat)
    requires |kids| == 1 && OrderedKids(kids) && WithinKids(kids, perLeaf, 20) && FlattenKids(kids) == recs
    ensures Flatten(kids[0]) == recs && Ordered(kids[0]) && Within(kids[0], perLeaf, 20)
  {
    assert kids[1..] == [];
    assert Flatten(kids[0]) + [] == Flatten(kids[0]);
  }

  lemma CeilDivOne(n: nat)
    ensures CeilDiv(n, 1) == n && Pow20(0) == 1
  {
  }

  lemma CeilDivShrinks(n: nat)
    requires n > 1
    ensures 1 <= CeilDiv(n, 20) < n
  {
    CeilDivBounds(n, 20, 0);
    CeilDivBounds(n, 20, n - 1);
  }

  lemma Pow20Step(n: nat)
    ensures Pow20(n + 1) == Pow20(n) * 20
  {
  }

  lemma TooTall(leaves: nat, width: nat)
    requires width > 1 && width == CeilDiv(leaves, Pow20(7))
    ensures leaves > Pow20(7)
  {
    CeilDivBounds(leaves, Pow20(7), 1);
  }

  lemma {:induction false} Pow20Grows(m: nat, n: nat)
    requires m <= n
    ensures Pow20(m) <= Pow20(n)
    decreases n - m
  {
    if m < n { Pow20Grows(m + 1, n); }
  }

  lemma TallEnough(leaves: nat, h: nat)
    requires h <= 7 && CeilDiv(leaves, Pow20(h)) <= 1
    ensures leaves <= Pow20(7)
  {
    CeilDivBounds(leaves, Pow20(h), 1);
    Pow20Grows(h, 7);
  }

  // ---------------------------------------------------------- fixed pages

  /** The file holds each allocation map in its page, with the page trailer. */
  ghost predicate MapsOnFile(s: Sums, file: Buf, maps: seq<Buf>) {
    forall m :: 0 <= m < |maps| ==>
      && |maps[m]| == MAP_BYTES && AMapPos(m) + PAGE <= |file|
      && Sub(file, AMapPos(m), PAGE) == MapPage(s, AMapPos(m), PTYPE_AMAP, maps[m])
  }

  ghost predicate PMapOnFile(s: Sums, file: Buf, k: nat) {
    && PMapPos(k) + PAGE <= |file|
    && Sub(file, PMapPos(k), PAGE) == MapPage(s, PMapPos(k), PTYPE_PMAP, Fill(0xFF, MAP_BYTES))
  }

  ghost predicate PMapsOnFile(s: Sums, file: Buf) {
    forall k: nat :: PMapPos(k) < |file| ==> PMapOnFile(s, file, k)
  }

  lemma DListReserved()
    ensures IsReservedPage(DLIST_POS) && DLIST_POS + PAGE <= AMapPos(0)
  {
  }

  lemma SubWritten(file: Buf, ib: nat, page: Buf)
    requires ib + |page| <= |file|
    ensures Sub(Splice(file, ib, page), ib, |page|) == page
  {
  }

  lemma MapsStep(s: Sums, file: Buf, maps: seq<Buf>, i: nat)
    requires i < |maps| && |maps[i]| == MAP_BYTES && AMapPos(|maps|) <= |file| && MapsOnFile(s, file, maps[..i])
    ensures MapsOnFile(s, Splice(file, AMapPos(i), MapPage(s, AMapPos(i), PTYPE_AMAP, maps[i])), maps[..i + 1])
  {
    hide MapPage, Sub;
    var page := MapPage(s, AMapPos(i), PTYPE_AMAP, maps[i]);
    SubWritten(file, AMapPos(i), page);
    forall m | 0 <= m < i ensures Sub(Splice(file, AMapPos(i), page), AMapPos(m), PAGE) == Sub(file, AMapPos(m), PAGE) {
      SpliceElsewhere(file, AMapPos(i), page, AMapPos(m), PAGE);
    }
    hide Splice;
    assert forall m :: 0 <= m < i ==> maps[..i + 1][m] == maps[..i][m];
  }

  lemma PMapFits(k: nat, n: nat)
    requires PMapPos(k) < AMapPos(n)
    ensures PMapPos(k) + PAGE <= AMapPos(n)
  {
    AMapReserved(k);
    assert 8 * k < n;
  }

  lemma PMapApart(k: nat, m: nat)
    ensures PMapPos(k) + PAGE <= AMapPos(m) || AMapPos(m) + PAGE <= PMapPos(k)
  {
    AMapReserved(k);
    assert m <= 8 * k || m >= 8 * k + 1;
  }

  lemma PMapStep(s: Sums, file: Buf, maps: seq<Buf>, k: nat)
    requires MapsOnFile(s, file, maps) && PMapPos(k) + PAGE <= |file|
    requires forall j :: 0 <= j < k ==> PMapOnFile(s, file, j)
    ensures var g := Splice(file, PMapPos(k), MapPage(s, PMapPos(k), PTYPE_PMAP, Fill(0xFF, MAP_BYTES)));
            MapsOnFile(s, g, maps) && forall j :: 0 <= j < k + 1 ==> PMapOnFile(s, g, j)
  {
    hide MapPage, Sub;
    var page := MapPage(s, PMapPos(k), PTYPE_PMAP, Fill(0xFF, MAP_BYTES));
    var g := Splice(file, PMapPos(k), page);
    SubWritten(file, PMapPos(k), page);
    forall m | 0 <= m < |maps| ensures Sub(g, AMapPos(m), PAGE) == Sub(file, AMapPos(m), PAGE) {
      PMapApart(k, m);
      SpliceElsewhere(file, PMapPos(k), page, AMapPos(m), PAGE);
    }
    forall j | 0 <= j < k ensures Sub(g, PMapPos(j), PAGE) == Sub(file, PMapPos(j), PAGE) {
      SpliceElsewhere(file, PMapPos(k), page, PMapPos(j), PAGE);
    }
    hide Splice;
    forall j | 0 <= j < k + 1 ensures PMapOnFile(s, g, j) {
      if j < k { assert PMapOnFile(s, file, j); }
    }
  }

  lemma PMapsDone(s: Sums, file: Buf, k: nat)
    requires PMapPos(k) >= |file| && forall j :: 0 <= j < k ==> PMapOnFile(s, file, j)
    ensures PMapsOnFile(s, file)
  {
    hide PMapOnFile;
    forall j: nat | PMapPos(j) < |file| ensures PMapOnFile(s, file, j) {
      assert j < k;
    }
  }

  lemma HeaderElsewhere(file: Buf, h: Buf)
    requires |h| == HEADER_SIZE && |file| >= FIRST_DATA
    ensures forall a: nat, n: nat :: HEADER_SIZE <= a && a + n <= |file| ==> Sub(Splice(file, 0, h), a, n) == Sub(file, a, n)
  {
    forall a: nat, n: nat | HEADER_SIZE <= a && a + n <= |file|
      ensures Sub(Splice(file, 0, h), a, n) == Sub(file, a, n)
    {
      SpliceElsewhere(file, 0, h, a, n);
    }
  }

  lemma HeaderOnFile(file: Buf, h: Buf)
    requires |h| == HEADER_SIZE && |file| >= FIRST_DATA
    ensures var g := Splice(file, 0, h);
            g[8..180] == h[8..180] && g[180..252] == h[180..252] && g[252..524] == h[252..524]
  {
    var g := Splice(file, 0, h);
    assert g[0..HEADER_SIZE] == h;
    SliceOfSlice(g, 0, HEADER_SIZE, 8, 180);
    SliceOfSlice(g, 0, HEADER_SIZE, 180, 252);
    SliceOfSlice(g, 0, HEADER_SIZE, 252, 524);
  }

  function MarksOf(nbt: seq<NbtEntry>): (marks: seq<nat>)
    ensures |marks| == 32
  {
    seq(32, t requires 0 <= t => Mark(nbt, t))
  }

  lemma MarksFit(nbt: seq<NbtEntry>)
    requires forall e :: e in nbt ==> e.nid < U32
    ensures forall t :: 0 <= t < 32 ==> MarksOf(nbt)[t] < U32
  {
    forall t: nat | t < 32 ensures MarksOf(nbt)[t] < U32 {
      MarkExceeds(nbt, t);
    }
  }

  // ------------------------------------------------------- the final image

  function NidsOf(nbt: seq<NbtEntry>): (keys: seq<nat>)
    ensures |keys| == |nbt|
  {
    seq(|nbt|, i requires 0 <= i < |nbt| => nbt[i].nid)
  }

  lemma SliceFits(es: seq<SubEntry>, i: nat, n: nat)
    requires AllFit(es) && i + n <= |es|
    ensures AllFit(es[i..i + n])
  {
  }

  function BidsOf(bbt: seq<BbtEntry>): (keys: seq<nat>)
    ensures |keys| == |bbt|
  {
    seq(|bbt|, i requires 0 <= i < |bbt| => bbt[i].bid)
  }

  predicate AllNodesFit(nbt: seq<NbtEntry>) {
    forall i :: 0 <= i < |nbt| ==> NodeFits(nbt[i])
  }

  function BidKey(): BbtEntry -> nat { (e: BbtEntry) => e.bid }

  lemma BbtSorted(s: Sums, file: Buf, bbt: seq<BbtEntry>, blocks: Store, nextBid: nat)
    requires BlocksOk(s, file, bbt, blocks, nextBid)
    ensures SortBy(bbt, BidKey()) == bbt
  {
    hide BlockOk, Listed;
    SortByIdentity(bbt, BidKey());
  }

  lemma BidKeys(s: Sums, file: Buf, bbt: seq<BbtEntry>, blocks: Store, nextBid: nat)
    requires BlocksOk(s, file, bbt, blocks, nextBid) && 4 * nextBid <= U64 && |file| <= U64
    ensures KeysOf(BidsOf(bbt), BbtEntries(bbt))
  {
    hide BlockOk, Listed, Sorted, BbtBytes;
    BbtRecords(s, file, bbt, blocks, nextBid);
    forall i | 0 <= i < |bbt| ensures Peek64At(BbtBytes(bbt[i]), 0) == bbt[i].bid && bbt[i].bid < U64 {
      assert LeafRecs(BbtEntries(bbt))[i] == Rec(bbt[i].bid, BbtBytes(bbt[i]));
    }
  }

  lemma NidsFit(nbt: seq<NbtEntry>)
    requires AllNodesFit(nbt)
    ensures forall e :: e in nbt ==> e.nid < U32
  {
  }

  lemma NbtKeysOf(nbt: seq<NbtEntry>)
    requires AllNodesFit(nbt)
    ensures KeysOf(NidsOf(nbt), NbtEntries(nbt))
  {
    forall i | 0 <= i < |nbt| ensures Peek64At(NbtBytes(nbt[i]), 0) == nbt[i].nid {
      NbtReads(nbt[i]);
    }
  }

  lemma SortedNodesFit(nodes: seq<NbtEntry>)
    requires AllNodesFit(nodes)
    ensures AllNodesFit(SortBy(nodes, NodeKey()))
  {
    var sorted := SortBy(nodes, NodeKey());
    forall i | 0 <= i < |sorted| ensures NodeFits(sorted[i]) { SameMember(sorted, nodes, sorted[i]); }
  }

  lemma StoreRead(s: Sums, file: Buf, bbt: seq<BbtEntry>, blocks: Store, nextBid: nat, b: Bref)
    requires BlocksOk(s, file, bbt, blocks, nextBid) && 4 * nextBid <= U64 && |file| <= U64
    requires Peek64At(file, 232) == b.bid && Peek64At(file, 240) == b.ib
    requires TreeHolds(s, file, PTYPE_BBT, b.bid, b.ib, LeafRecs(BbtEntries(bbt)), 20)
    ensures StoreOf(s, file) == blocks
  {
    hide BlocksOk, ParseRoot, Flatten, Ordered, Within, LeafRecs, BbtEntries, StoreOf;
    StoreOfCorrect(s, file, bbt, blocks, nextBid, ParseRoot(s, file, PTYPE_BBT, b.bid, b.ib).value);
  }

  lemma NodesRead(s: Sums, file: Buf, nodes: seq<NbtEntry>, n: Bref)
    requires DistinctKeys(nodes, NodeKey()) && AllNodesFit(nodes)
    requires Peek64At(file, 216) == n.bid && Peek64At(file, 224) == n.ib
    requires TreeHolds(s, file, PTYPE_NBT, n.bid, n.ib, LeafRecs(NbtEntries(SortBy(nodes, NodeKey()))), 15)
    ensures forall nid: nat :: ReadNode(s, file, nid) == FindNode(nodes, nid)
  {
    hide ParseRoot, Flatten, Ordered, Within, LeafRecs, NbtEntries, ReadNode, FindNode, SortBy, DistinctKeys;
    forall nid: nat ensures ReadNode(s, file, nid) == FindNode(nodes, nid) {
      ReadNodeCorrect(s, file, nodes, ParseRoot(s, file, PTYPE_NBT, n.bid, n.ib).value, nid);
    }
  }

  lemma MarksRead(file: Buf, next: nat, nodes: seq<NbtEntry>)
    requires CountersRead(file, next, MarksOf(SortBy(nodes, NodeKey())))
    ensures forall e :: e in nodes ==> NidIndex(e.nid) < Peek32At(file, 44 + 4 * NidType(e.nid))
  {
    hide Peek32At, Mark;
    var sorted := SortBy(nodes, NodeKey());
    forall e | e in nodes ensures NidIndex(e.nid) < Peek32At(file, 44 + 4 * NidType(e.nid)) {
      SameMember(nodes, sorted, e);
      MarkExceeds(sorted, NidType(e.nid));
      var i :| 0 <= i < |sorted| && sorted[i] == e;
      assert MarksOf(sorted)[NidType(e.nid)] == Mark(sorted, NidType(e.nid));
    }
  }

  /** The guard for a cursor past the last span never fires, and maps have full size. */
  lemma MapLengths(cursor: nat, maps: seq<Buf>, extents: seq<Extent>)
    requires SpaceOk(cursor, maps, extents)
    ensures cursor <= AMapPos(|maps|) && forall m :: 0 <= m < |maps| ==> |maps[m]| == MAP_BYTES
  {
  }

  lemma MapsAfterHeader(s: Sums, f: Buf, g: Buf, maps: seq<Buf>)
    requires |f| == |g| && MapsOnFile(s, f, maps) && PMapsOnFile(s, f)
    requires forall a: nat, n: nat :: HEADER_SIZE <= a && a + n <= |g| ==> Sub(g, a, n) == Sub(f, a, n)
    ensures MapsOnFile(s, g, maps) && PMapsOnFile(s, g)
  {
    hide Sub, MapPage;
    forall k: nat | PMapPos(k) < |g| ensures PMapOnFile(s, g, k) {
      assert PMapOnFile(s, f, k);
    }
  }

  /** Published free space, allocated space and fixed pages add up to the mapped file. */
  lemma FreeSpaceAddsUp(cursor: nat, maps: seq<Buf>, extents: seq<Extent>)
    requires SpaceOk(cursor, maps, extents)
    ensures ALIGN * FreeTotal(maps) + SumCb(extents) + PAGE * FixedPages(|maps|) == AMapPos(|maps|) - FIRST_AMAP
  {
  }

  lemma FreeFits(cursor: nat, maps: seq<Buf>, extents: seq<Extent>)
    requires SpaceOk(cursor, maps, extents)
    ensures ALIGN * FreeTotal(maps) <= AMapPos(|maps|)
  {
    hide MapsExact, ExtentsOk;
  }

  /** Every allocation takes a slot, so ids run out long after file offsets do. */
  lemma CountExtents(cursor: nat, maps: seq<Buf>, extents: seq<Extent>)
    requires SpaceOk(cursor, maps, extents)
    ensures ALIGN * |extents| <= cursor <= AMapPos(|maps|)
  {
    hide MapsExact, Clear;
    if extents != [] {
      ExtentStart(extents, cursor, |extents| - 1);
    }
  }

  lemma {:induction false} ExtentStart(extents: seq<Extent>, cursor: nat, i: nat)
    requires ExtentsOk(extents, cursor) && i < |extents|
    ensures ALIGN * i + FIRST_DATA <= extents[i].ib
  {
    hide Clear;
    if i > 0 {
      ExtentStart(extents, cursor, i - 1);
      assert extents[i - 1].cb >= ALIGN;
    }
  }

  /** The bits of the AMap pages in the file are set exactly for the slots taken. */
  ghost predicate BitsOnFile(file: Buf, maps: nat, extents: seq<Extent>) {
    forall m: nat, j: nat :: m < maps && j < MAP_BITS ==> BitOnFile(file, extents, m, j)
  }

  ghost predicate BitOnFile(file: Buf, extents: seq<Extent>, m: nat, j: nat) {
    |Sub(file, AMapPos(m), MAP_BYTES)| == MAP_BYTES && j < MAP_BITS && (Bit(Sub(file, AMapPos(m), MAP_BYTES), j) <==> Taken(extents, SlotPos(m, j)))
  }

  lemma BitsRead(s: Sums, file: Buf, cursor: nat, maps: seq<Buf>, extents: seq<Extent>)
    requires MapsOnFile(s, file, maps) && SpaceOk(cursor, maps, extents)
    ensures BitsOnFile(file, |maps|, extents)
  {
    hide Bit, Taken, FixedPage, MapsOnFile, MapsExact;
    forall m: nat, j: nat | m < |maps| && j < MAP_BITS ensures BitOnFile(file, extents, m, j) {
      MapBitRead(s, file, maps, extents, m, j);
    }
  }

  /** The bit for a slot, read from the AMap page in the file, tells whether the slot is
      taken. */
  lemma MapBitRead(s: Sums, file: Buf, maps: seq<Buf>, extents: seq<Extent>, m: nat, j: nat)
    requires MapsOnFile(s, file, maps) && MapsExact(maps, extents) && m < |maps| && j < MAP_BITS
    ensures |Sub(file, AMapPos(m), MAP_BYTES)| == MAP_BYTES
    ensures Bit(Sub(file, AMapPos(m), MAP_BYTES), j) <==> Taken(extents, SlotPos(m, j))
  {
    hide Bit, Taken, FixedPage;
    var page := file[AMapPos(m)..AMapPos(m) + PAGE];
    assert page == MapPage(s, AMapPos(m), PTYPE_AMAP, maps[m]);
    SliceOfSlice(file, AMapPos(m), AMapPos(m) + PAGE, 0, MAP_BYTES);
    assert page[..MAP_BYTES] == maps[m];
    assert Bit(maps[m], j) <==> Taken(extents, SlotPos(m, j));
  }
}
