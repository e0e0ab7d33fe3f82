/** The streaming heap refines the in-memory one: the same handles for the same run of
    allocations, and the same stream but for the advisory fill levels. */
module HeapRefinement {
  import opened Bytes
  import opened Wrappers
  import opened HeapFormat
  import opened DataTree
  import HeapNode
  import StreamingHeap
  import Ndb
  import Space
  import NdbFile
  import Ownership

  /** Equal outside rgbFillLevel of block 0. */
  predicate SameButFill(a: Buf, b: Buf) {
    |a| == |b| && forall i :: 0 <= i < |a| && !(8 <= i < 12) ==> a[i] == b[i]
  }

  lemma {:induction false} LaterBlocksSame(h: Heap, i: nat, sig: byte, root: nat, f: Buf, g: Buf)
    requires HeapOk(h) && |f| == 4 && |g| == 4 && 1 <= i <= |h|
    ensures RenderFrom(h, i, sig, root, f) == RenderFrom(h, i, sig, root, g)
    decreases |h| - i
  {
    hide RenderBlock, HeapOk, BlockFits;
    if i < |h| {
      HeapBlockFits(h, i);
      StreamingHeap.LaterBlock(i, h[i], i + 1 == |h|, sig, root, f);
      StreamingHeap.LaterBlock(i, h[i], i + 1 == |h|, sig, root, g);
      LaterBlocksSame(h, i + 1, sig, root, f, g);
    }
  }

  lemma FirstBlockSame(items: Items, last: bool, sig: byte, root: nat, f: Buf, g: Buf)
    requires |f| == 4 && |g| == 4 && BlockFits(0, items)
    ensures SameButFill(RenderBlock(0, items, last, sig, root, f), RenderBlock(0, items, last, sig, root, g))
  {
    hide Concat, PageMap, Put16, Put32;
    var m := MapPos(0, items, last);
    BlockRoom(0, items, last);
    var rest := Concat(items) + Zeros(m - (HeaderSize(0) + Total(items))) + PageMap(0, items);
    var front := Put16(m) + [HN_SIGNATURE, sig] + Put32(root);
    assert RenderBlock(0, items, last, sig, root, f) == front + f + rest;
    assert RenderBlock(0, items, last, sig, root, g) == front + g + rest;
  }

  /** Two renderings of a heap differ at most where the fill levels are. */
  lemma FillOnly(h: Heap, sig: byte, root: nat, f: Buf, g: Buf)
    requires HeapOk(h) && |f| == 4 && |g| == 4
    ensures SameButFill(Render(h, sig, root, f), Render(h, sig, root, g))
  {
    hide RenderBlock, HeapOk, BlockFits;
    HeapNode.NotEmpty(h);
    HeapBlockFits(h, 0);
    LaterBlocksSame(h, 1, sig, root, f, g);
    FirstBlockSame(h[0], 1 == |h|, sig, root, f, g);
  }

  /** The user root comes back from the header of either stream. */
  lemma UserRootReads(h: Heap, sig: byte, root: nat, fill: Buf)
    requires HeapOk(h) && |fill| == 4 && root < U32
    ensures UserRoot(Render(h, sig, root, fill)) == root
  {
    hide Put32, Peek, HeapOk, RenderFrom, RenderBlock, BlockFits;
    HeapNode.NotEmpty(h);
    HeapBlockFits(h, 0);
    BlockAt(h, 0, 0, sig, root, fill);
    RootInBlock(h[0], 1 == |h|, sig, root, fill);
    SliceOfSlice(Render(h, sig, root, fill), 0, |RenderBlock(0, h[0], 1 == |h|, sig, root, fill)|, 4, 8);
    PeekPut32(root);
  }

  lemma RootInBlock(items: Items, last: bool, sig: byte, root: nat, fill: Buf)
    requires BlockFits(0, items) && |fill| == 4
    ensures var blk := RenderBlock(0, items, last, sig, root, fill); |blk| >= 8 && blk[4..8] == Put32(root)
  {
    hide Concat, PageMap, Put16, Put32, MapPos;
    BlockRoom(0, items, last);
    var m := MapPos(0, items, last);
    var rest := fill + Concat(items) + Zeros(m - (HeaderSize(0) + Total(items))) + PageMap(0, items);
    var front := Put16(m) + [HN_SIGNATURE, sig];
    assert RenderBlock(0, items, last, sig, root, fill) == front + (Put32(root) + rest);
    SliceRight(front, Put32(root) + rest, 0, 4);
    assert (Put32(root) + rest)[0..4] == Put32(root);
  }

  /** Handles given out stay good as the heap grows. */
  lemma KeepItems(h: Heap, d: Buf, hids: seq<nat>, data: seq<Buf>)
    requires HeapOk(h) && |h| <= MAX_BLOCKS && AllocIn(h, d).Some? && |hids| == |data|
    requires forall k :: 0 <= k < |hids| ==> ItemAt(h, hids[k]) == Some(data[k])
    ensures var (g, hid) := AllocIn(h, d).value;
            && |g| <= |h| + 1 && hid !in hids
            && forall k :: 0 <= k <= |hids| ==> ItemAt(g, (hids + [hid])[k]) == Some((data + [d])[k])
  {
    hide ItemAt, HeapOk;
    HeapNode.NotEmpty(h);
    AllocInCorrect(h, d);
    var (g, hid) := AllocIn(h, d).value;
    assert forall k :: 0 <= k < |hids| ==> ItemAt(h, hids[k]) != None && hids[k] != hid;
  }

  /** Both heaps driven through one run of allocations: they fail at the same one, if at
      all, hand out the same handles, all different, and the data tree of the streaming one
      reads as the in-memory stream but for the fill levels. */
  method RunBoth(ndb: Ndb.NdbWriter, sig: byte, data: seq<Buf>, root: nat)
    returns (ok: bool, hids: seq<nat>, streamedHids: seq<nat>, simple: Buf, streamed: nat)
    requires ndb.Valid()
    modifies ndb
    ensures ndb.Valid() && hids == streamedHids
    ensures |data| < MAX_BLOCKS && (forall k :: 0 <= k < |data| ==> |data[k]| <= MAX_ALLOC) ==> ok
    ensures ok ==> |hids| == |data| && streamed in ndb.blocks
    ensures ok ==> forall k :: 0 <= k < |hids| ==> HeapItem(simple, hids[k]) == Some(data[k]) && hids[k] !in hids[..k]
    ensures ok && root < U32 ==> UserRoot(simple) == root
    ensures ok && ndb.Fits64() ==>
              (ReadTree(ndb.blocks, streamed).Some? && SameButFill(ReadTree(ndb.blocks, streamed).value, simple))
  {
    hide Space.SpaceOk, NdbFile.BlocksOk, NdbFile.BlockExtents, StreamingHeap.Flushed, HeapOk, Render, RenderBlock,
         HeapItem, ReadTree, ItemAt, HeapNode.FillLevels, StreamingHeap.StreamFill, UserRoot, SameButFill, AllocIn, AllocStep, Ownership.Passes,
         ndb.Valid, Ndb.BidsOf, StreamingHeap.Tracks;
    var a := new HeapNode.HeapNode(sig);
    var b := new StreamingHeap.StreamingHeap(ndb, sig);
    ok, hids, streamedHids, simple, streamed := false, [], [], [], 0;
    for i := 0 to |data|
      invariant ndb.Valid() && a.Valid() && b.Valid() && fresh(a) && fresh(b) && b.ndb == ndb
      invariant a.clientSig == b.clientSig == sig
      invariant a.Contents() == b.Contents() && |a.Contents()| <= i + 1 && hids == streamedHids && |hids| == i
      invariant forall k :: 0 <= k < |hids| ==> ItemAt(a.Contents(), hids[k]) == Some(data[k]) && hids[k] !in hids[..k]
    {
      ghost var h := a.Contents();
      AllocFails(h, data[i]);
      var x := a.Alloc(data[i]);
      var y := b.Alloc(data[i]);
      if x.Err? { return; }
      KeepItems(h, data[i], hids, data[..i]);
      hids, streamedHids := hids + [x.value], streamedHids + [y.value];
    }
    a.SetUserRoot(root);
    b.SetUserRoot(root);
    ghost var h := a.Contents();
    simple := a.Serialize();
    var r := b.Finish();
    ok, streamed := true, r.value;
    StreamsAgree(h, sig, root, hids, data, HeapNode.FillLevels(h), StreamingHeap.StreamFill(h[0], |h| == 1));
  }

  /** Two streams of one heap: the first reads as the heap, the second is the first but for
      the fill levels. */
  lemma StreamsAgree(h: Heap, sig: byte, root: nat, hids: seq<nat>, data: seq<Buf>, f: Buf, g: Buf)
    requires HeapOk(h) && |f| == 4 && |g| == 4 && |hids| == |data|
    requires forall k :: 0 <= k < |hids| ==> ItemAt(h, hids[k]) == Some(data[k])
    ensures forall k :: 0 <= k < |hids| ==> HeapItem(Render(h, sig, root, f), hids[k]) == Some(data[k])
    ensures root < U32 ==> UserRoot(Render(h, sig, root, f)) == root
    ensures SameButFill(Render(h, sig, root, g), Render(h, sig, root, f))
  {
    hide HeapOk, Render, HeapItem, ItemAt, UserRoot, SameButFill;
    forall k | 0 <= k < |hids| ensures HeapItem(Render(h, sig, root, f), hids[k]) == Some(data[k]) {
      HeapRoundTrip(h, sig, root, f, hids[k]);
    }
    if root < U32 { UserRootReads(h, sig, root, f); }
    FillOnly(h, sig, root, f, g);
    SameButFillSymmetric(Render(h, sig, root, f), Render(h, sig, root, g));
  }

  lemma SameButFillSymmetric(a: Buf, b: Buf)
    requires SameButFill(a, b)
    ensures SameButFill(b, a)
  {
  }

  lemma AllocFails(h: Heap, data: Buf)
    requires HeapOk(h)
    ensures |h| >= 1
    ensures AllocIn(h, data).None? ==> |data| > MAX_ALLOC || |h| >= MAX_BLOCKS
  {
  }
}
