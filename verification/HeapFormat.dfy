/** The heap-on-node: an allocator inside a data stream ([MS-PST] section 2.3.1). A heap
    is a list of blocks, each a list of allocations; a handle names a block and an
    allocation in it. */
module HeapFormat {
  import opened Bytes
  import opened Wrappers

  type Items = seq<Buf>
  type Heap = seq<Items>

  const BLOCK: nat := 8176
  const HN_SIGNATURE: byte := 0xEC
  const MAX_ITEMS: nat := 2047
  const MAX_BLOCKS: nat := 0x1_0000
  /** The most a single allocation can hold: it must fit alone in a bitmap block. */
  const MAX_ALLOC: nat := 8101

  // ------------------------------------------------------------- geometry

  /** Blocks 8, 136, 264, ... carry an HNBITMAPHDR. */
  predicate IsBitmapBlock(i: nat) { i >= 8 && (i - 8) % 128 == 0 }

  function HeaderSize(i: nat): (n: nat)
    ensures n <= 66
  {
    if i == 0 then 12 else if IsBitmapBlock(i) then 66 else 2
  }

  function PageMapSize(n: nat): nat { 4 + 2 * (n + 1) }

  function Total(items: Items): nat {
    if items == [] then 0 else Total(items[..|items| - 1]) + |items[|items| - 1]|
  }

  /** One more allocation of `len` bytes goes into block `i`. */
  predicate FitsIn(i: nat, items: Items, len: nat) {
    HeaderSize(i) + Total(items) + len + PageMapSize(|items| + 1) + 1 <= BLOCK
  }

  // -------------------------------------------------------------- handles

  /** Five zero type bits, eleven bits of 1-based allocation index, the block index. */
  function MakeHid(block: nat, alloc: nat): nat { 65536 * block + 32 * alloc }

  function HidBlock(hid: nat): nat { hid / 65536 }
  function HidAlloc(hid: nat): nat { hid / 32 % 2048 }

  /** A handle is told from a node id by its low five bits. */
  predicate IsHid(hnid: nat) { hnid % 32 == 0 }

  lemma HidRoundTrip(block: nat, alloc: nat)
    requires alloc <= MAX_ITEMS
    ensures HidBlock(MakeHid(block, alloc)) == block && HidAlloc(MakeHid(block, alloc)) == alloc
    ensures IsHid(MakeHid(block, alloc)) && (alloc > 0 ==> MakeHid(block, alloc) > 0)
  {
    var h := MakeHid(block, alloc);
    ModUnique(h, 65536, block, 32 * alloc);
    ModUnique(h, 32, 2048 * block + alloc, 0);
    ModUnique(2048 * block + alloc, 2048, block, alloc);
  }

  // ----------------------------------------------------------- allocating

  /** Every block leaves room for its page map, and no index outgrows its bits. */
  predicate HeapOk(h: Heap) {
    && 1 <= |h|
    && forall i :: 0 <= i < |h| ==>
         |h[i]| <= MAX_ITEMS && HeaderSize(i) + Total(h[i]) + PageMapSize(|h[i]|) + 1 <= BLOCK
  }

  /** `hid` names allocation `a` of block `b`. */
  predicate Names(h: Heap, hid: nat, b: nat, a: nat) {
    b < |h| && a < |h[b]| && hid == MakeHid(b, a + 1)
  }

  /** What a handle leads to. */
  function ItemAt(h: Heap, hid: nat): Option<Buf> {
    var b, a := HidBlock(hid), HidAlloc(hid);
    if IsHid(hid) && a > 0 && b < |h| && a <= |h[b]| then Some(h[b][a - 1]) else None
  }

  /** The allocator: the last block while it has room, otherwise a new one. */
  function AllocIn(h: Heap, data: Buf): (r: Option<(Heap, nat)>)
    requires |h| >= 1
  {
    var i := |h| - 1;
    if |data| > MAX_ALLOC then None
    else if FitsIn(i, h[i], |data|) && |h[i]| < MAX_ITEMS then
      Some((h[i := h[i] + [data]], MakeHid(i, |h[i]| + 1)))
    else if |h| >= MAX_BLOCKS then None
    else Some((h + [[data]], MakeHid(|h|, 1)))
  }

  /** The allocator on a heap of any size: when the last block that a handle can name is full
      a block is opened all the same before the allocation fails, and from then on handles
      keep sixteen bits of the block's index. */
  function AllocStep(h: Heap, data: Buf): (r: (Heap, Option<nat>))
    requires |h| >= 1
  {
    var i := |h| - 1;
    if |data| > MAX_ALLOC then (h, None)
    else if FitsIn(i, h[i], |data|) && |h[i]| < MAX_ITEMS then
      (h[i := h[i] + [data]], Some(MakeHid(i % MAX_BLOCKS, |h[i]| + 1)))
    else if |h| >= MAX_BLOCKS then (h + [[]], None)
    else (h + [[data]], Some(MakeHid(|h|, 1)))
  }

  /** Up to 65536 blocks this is the allocator. */
  lemma StepIsAlloc(h: Heap, data: Buf)
    requires 1 <= |h| <= MAX_BLOCKS
    ensures AllocIn(h, data) == match AllocStep(h, data).1 case None => None case Some(hid) => Some((AllocStep(h, data).0, hid))
  {
    hide FitsIn, MakeHid;
  }

  lemma StepOk(h: Heap, data: Buf)
    requires HeapOk(h)
    ensures HeapOk(AllocStep(h, data).0)
  {
    hide MakeHid;
    TotalOne(data);
    TotalSnoc(h[|h| - 1], data);
    FirstFits(|h|, []);
  }

  lemma FirstFits(i: nat, data: Buf)
    requires |data| <= MAX_ALLOC
    ensures FitsIn(i, [], |data|)
  {
  }

  /** Exactly when an allocation hands out a handle that is in use: in a heap of more than
      65536 blocks, when the block of that number modulo 65536 has an item of that number. The
      handle then leads to that item, as before. */
  lemma HandleTaken(h: Heap, data: Buf)
    requires HeapOk(h) && AllocStep(h, data).1.Some?
    ensures var (g, hid) := AllocStep(h, data); var i := |g| - 1;
            ItemAt(h, hid.value).Some? <==> i >= MAX_BLOCKS && |g[i]| <= |h[i % MAX_BLOCKS]|
    ensures var (g, hid) := AllocStep(h, data); ItemAt(h, hid.value).Some? ==> ItemAt(g, hid.value) == ItemAt(h, hid.value)
  {
    hide FitsIn, MakeHid, HidBlock, HidAlloc, IsHid, Total;
    var i := |h| - 1;
    if |h[i]| < MAX_ITEMS { HidRoundTrip(i % MAX_BLOCKS, |h[i]| + 1); }
    HidRoundTrip(|h|, 1);
  }

  /** After the failure the next allocation hands out the first handle of block 0 again. */
  lemma AfterFailure(h: Heap, data: Buf, next: Buf)
    requires HeapOk(h) && |h| <= MAX_BLOCKS && |data| <= MAX_ALLOC && AllocStep(h, data).1 == None
    requires |next| <= MAX_ALLOC && h[0] != []
    ensures |h| == MAX_BLOCKS && AllocStep(h, data).0 == h + [[]]
    ensures var (g, hid) := AllocStep(h + [[]], next);
            hid == Some(MakeHid(0, 1)) && ItemAt(h, hid.value) == Some(h[0][0]) && ItemAt(g, hid.value) == Some(h[0][0])
  {
    hide FitsIn, MakeHid, HidBlock, HidAlloc, IsHid, Total;
    FirstFits(MAX_BLOCKS, next);
    HidRoundTrip(0, 1);
  }

  lemma TotalOne(data: Buf)
    ensures Total([data]) == |data|
  {
    assert [data][..0] == [];
  }

  lemma TotalSnoc(items: Items, data: Buf)
    ensures Total(items + [data]) == Total(items) + |data|
  {
    assert (items + [data])[..|items|] == items;
  }

  /** An allocation gets a new handle that leads to its bytes; every other handle leads
      where it led before. */
  lemma AllocInCorrect(h: Heap, data: Buf)
    requires HeapOk(h) && |h| <= MAX_BLOCKS && AllocIn(h, data).Some?
    ensures var (g, hid) := AllocIn(h, data).value;
            && HeapOk(g) && 0 < hid < U32 && IsHid(hid) && |h| <= |g|
            && (|h| <= MAX_BLOCKS ==> |g| <= MAX_BLOCKS)
            && ItemAt(h, hid) == None && ItemAt(g, hid) == Some(data)
            && forall other :: other != hid ==> ItemAt(g, other) == ItemAt(h, other)
  {
    hide HidBlock, HidAlloc, IsHid, MakeHid, HeapOk, AllocIn;
    AllocPlaces(h, data);
    var (g, hid) := AllocIn(h, data).value;
    forall other: nat | other != hid ensures ItemAt(g, other) == ItemAt(h, other) {
      if IsHid(other) && HidBlock(other) == HidBlock(hid) && HidAlloc(other) == HidAlloc(hid) {
        HidInjective(other, hid);
      }
    }
  }

  /** The allocation is the last item of the last block. */
  lemma AllocPlaces(h: Heap, data: Buf)
    requires HeapOk(h) && |h| <= MAX_BLOCKS && AllocIn(h, data).Some?
    ensures var (g, hid) := AllocIn(h, data).value; var i := |g| - 1;
            && |h| >= 1 && HeapOk(g) && |h| <= |g| && 0 <= i < |g|
            && ((|g| == |h| && g == h[i := h[i] + [data]]) || (g == h + [[data]] && |h| < MAX_BLOCKS))
            && 0 < hid < U32 && IsHid(hid) && HidBlock(hid) == i && HidAlloc(hid) == |g[i]|
  {
    hide HidBlock, HidAlloc, IsHid, Total;
    var i := |h| - 1;
    TotalOne(data);
    TotalSnoc(h[i], data);
    if |AllocIn(h, data).value.0| == |h| {
      HidRoundTrip(i, |h[i]| + 1);
    } else {
      HidRoundTrip(|h|, 1);
    }
  }

  lemma HidInjective(x: nat, y: nat)
    requires IsHid(x) && IsHid(y) && HidBlock(x) == HidBlock(y) && HidAlloc(x) == HidAlloc(y)
    ensures x == y
  {
    assert x / 32 == 2048 * (x / 65536) + x / 32 % 2048 by { HidParts(x); }
    assert y / 32 == 2048 * (y / 65536) + y / 32 % 2048 by { HidParts(y); }
  }

  lemma HidParts(x: nat)
    ensures x / 32 == 2048 * (x / 65536) + x / 32 % 2048
  {
    var q := x / 32;
    ModUnique(x, 65536, q / 2048, 32 * (q % 2048) + x % 32);
  }

  /** Rewriting an allocation in place, at the same size. */
  function PatchIn(h: Heap, hid: nat, data: Buf): (r: Option<Heap>) {
    match ItemAt(h, hid)
    case None => None
    case Some(item) =>
      if |item| != |data| then None
      else var b, a := HidBlock(hid), HidAlloc(hid); Some(h[b := h[b][a - 1 := data]])
  }

  lemma {:induction false} TotalUpdate(items: Items, a: nat, data: Buf)
    requires a < |items| && |items[a]| == |data|
    ensures Total(items[a := data]) == Total(items)
  {
    var n := |items| - 1;
    if a < n {
      assert items[a := data][..n] == items[..n][a := data];
      TotalUpdate(items[..n], a, data);
    } else {
      assert items[a := data][..n] == items[..n];
    }
  }

  lemma PatchInCorrect(h: Heap, hid: nat, data: Buf)
    requires HeapOk(h) && PatchIn(h, hid, data).Some?
    ensures var g := PatchIn(h, hid, data).value;
            && HeapOk(g) && |g| == |h| && ItemAt(g, hid) == Some(data)
            && forall other :: other != hid ==> ItemAt(g, other) == ItemAt(h, other)
  {
    var b, a := HidBlock(hid), HidAlloc(hid);
    TotalUpdate(h[b], a - 1, data);
    forall other: nat | other != hid ensures ItemAt(PatchIn(h, hid, data).value, other) == ItemAt(h, other) {
      if IsHid(other) && HidBlock(other) == b && HidAlloc(other) == a {
        HidInjective(other, hid);
      }
    }
  }

  // ------------------------------------------------------------ rendering

  function Concat(items: Items): (s: Buf)
    ensures |s| == Total(items)
  {
    if items == [] then [] else Concat(items[..|items| - 1]) + items[|items| - 1]
  }

  /** Offset of allocation `k` from the start of the block; the last one ends the data. */
  function Offset(i: nat, items: Items, k: nat): nat
    requires k <= |items|
  {
    HeaderSize(i) + Total(items[..k])
  }

  function Freed(items: Items): nat {
    if items == [] then 0 else Freed(items[..|items| - 1]) + if items[|items| - 1] == [] then 1 else 0
  }

  function Offsets(i: nat, items: Items, n: nat): (s: Buf)
    requires n <= |items| + 1
    ensures |s| == 2 * n
  {
    if n == 0 then [] else Offsets(i, items, n - 1) + Put16(Offset(i, items, n - 1))
  }

  function PageMap(i: nat, items: Items): (s: Buf)
    ensures |s| == PageMapSize(|items|)
  {
    Put16(|items|) + Put16(Freed(items)) + Offsets(i, items, |items| + 1)
  }

  /** Where the page map starts: behind the data, 2-aligned, or at the very end of a
      block that is not the last one. */
  function MapPos(i: nat, items: Items, last: bool): nat {
    if last then AlignUp(HeaderSize(i) + Total(items), 2)
    else if PageMapSize(|items|) <= BLOCK then BLOCK - PageMapSize(|items|) else 0
  }

  /** HNHDR, HNBITMAPHDR or HNPAGEHDR. */
  function BlockHeader(i: nat, mapPos: nat, sig: byte, root: nat, fill: Buf): (s: Buf)
    requires |fill| == 4
    ensures |s| == HeaderSize(i)
  {
    if i == 0 then Put16(mapPos) + [HN_SIGNATURE, sig] + Put32(root) + fill
    else if IsBitmapBlock(i) then Put16(mapPos) + Fill(0xFF, 64)
    else Put16(mapPos)
  }

  predicate BlockFits(i: nat, items: Items) {
    |items| <= MAX_ITEMS && HeaderSize(i) + Total(items) + PageMapSize(|items|) + 1 <= BLOCK
  }

  /** A heap block as it stands in the stream. */
  function RenderBlock(i: nat, items: Items, last: bool, sig: byte, root: nat, fill: Buf): (s: Buf)
    requires |fill| == 4 && BlockFits(i, items)
  {
    var m := MapPos(i, items, last);
    BlockRoom(i, items, last);
    BlockHeader(i, m, sig, root, fill) + Concat(items) + Zeros(m - (HeaderSize(i) + Total(items))) + PageMap(i, items)
  }

  lemma BlockRoom(i: nat, items: Items, last: bool)
    requires BlockFits(i, items)
    ensures var m := MapPos(i, items, last);
            HeaderSize(i) + Total(items) <= m && m + PageMapSize(|items|) <= BLOCK
            && (!last ==> m + PageMapSize(|items|) == BLOCK)
  {
  }

  /** Every block but the last is exactly one data block long. */
  lemma RenderBlockSize(i: nat, items: Items, last: bool, sig: byte, root: nat, fill: Buf)
    requires |fill| == 4 && BlockFits(i, items)
    ensures |RenderBlock(i, items, last, sig, root, fill)| == MapPos(i, items, last) + PageMapSize(|items|) <= BLOCK
    ensures !last ==> |RenderBlock(i, items, last, sig, root, fill)| == BLOCK
  {
    BlockRoom(i, items, last);
  }

  /** The heap's stream from block `i` on. */
  function RenderFrom(h: Heap, i: nat, sig: byte, root: nat, fill: Buf): (s: Buf)
    requires HeapOk(h) && |fill| == 4 && i <= |h|
    decreases |h| - i
  {
    if i == |h| then []
    else RenderBlock(i, h[i], i + 1 == |h|, sig, root, fill) + RenderFrom(h, i + 1, sig, root, fill)
  }

  function Render(h: Heap, sig: byte, root: nat, fill: Buf): (s: Buf)
    requires HeapOk(h) && |fill| == 4
  {
    RenderFrom(h, 0, sig, root, fill)
  }

  lemma {:induction false} RenderFromSize(h: Heap, i: nat, sig: byte, root: nat, fill: Buf)
    requires HeapOk(h) && |fill| == 4 && i <= |h|
    ensures |RenderFrom(h, i, sig, root, fill)| <= (|h| - i) * BLOCK
    decreases |h| - i
  {
    hide RenderBlock, HeapOk, BlockFits;
    if i < |h| {
      HeapBlockFits(h, i);
      RenderBlockSize(i, h[i], i + 1 == |h|, sig, root, fill);
      RenderFromSize(h, i + 1, sig, root, fill);
    }
  }

  /** A heap whose blocks handles can name is shorter than 4 GiB. */
  lemma RenderFits(h: Heap, sig: byte, root: nat, fill: Buf)
    requires HeapOk(h) && |fill| == 4 && |h| <= MAX_BLOCKS
    ensures |Render(h, sig, root, fill)| < U32
  {
    hide RenderFrom, HeapOk;
    RenderFromSize(h, 0, sig, root, fill);
  }

  // ------------------------------------------------------------ the reader

  /** One allocation out of a heap's stream, through the page map of its block. */
  function HeapItem(stream: Buf, hid: nat): Option<Buf> {
    var index, base := HidAlloc(hid), HidBlock(hid) * BLOCK;
    if index == 0 || !IsHid(hid) || base + 2 > |stream| then None
    else
      var pm := base + Peek16At(stream, base);
      if pm + 4 > |stream| || index > Peek16At(stream, pm) then None
      else
        var start := base + Peek16At(stream, pm + 4 + 2 * (index - 1));
        var end := base + Peek16At(stream, pm + 6 + 2 * (index - 1));
        if start <= end <= |stream| then Some(stream[start..end]) else None
  }

  /** The user root, from the heap header. */
  function UserRoot(stream: Buf): nat { Peek32At(stream, 4) }

  // ------------------------------------------------------------ round trip

  lemma {:induction false} TotalPrefix(items: Items, k: nat)
    requires k <= |items|
    ensures Total(items[..k]) <= Total(items)
    ensures k < |items| ==> Total(items[..k]) + |items[k]| == Total(items[..k + 1]) <= Total(items)
  {
    var n := |items| - 1;
    if k < n {
      TotalPrefix(items[..n], k);
      assert items[..n][..k] == items[..k] && items[..n][..k + 1] == items[..k + 1];
    } else {
      assert items[..|items|] == items;
    }
  }

  lemma {:induction false} ConcatAt(items: Items, k: nat)
    requires k < |items|
    ensures Total(items[..k]) + |items[k]| <= Total(items)
    ensures Concat(items)[Total(items[..k])..Total(items[..k]) + |items[k]|] == items[k]
  {
    var n := |items| - 1;
    if k < n {
      ConcatAt(items[..n], k);
      assert items[..n][..k] == items[..k];
      var a, b := Total(items[..k]), Total(items[..k]) + |items[k]|;
      assert Concat(items)[a..b] == Concat(items[..n])[a..b];
    }
  }

  lemma {:induction false} OffsetsAt(i: nat, items: Items, n: nat, k: nat)
    requires k < n <= |items| + 1
    ensures Offsets(i, items, n)[2 * k..2 * k + 2] == Put16(Offset(i, items, k))
  {
    if k < n - 1 {
      OffsetsAt(i, items, n - 1, k);
      assert Offsets(i, items, n)[2 * k..2 * k + 2] == Offsets(i, items, n - 1)[2 * k..2 * k + 2];
    }
  }

  /** Block `b` of the stream sits at b * 8176. */
  lemma {:induction false} BlockAt(h: Heap, i: nat, b: nat, sig: byte, root: nat, fill: Buf)
    requires HeapOk(h) && |fill| == 4 && i <= b < |h|
    ensures var s := RenderFrom(h, i, sig, root, fill);
            var blk := RenderBlock(b, h[b], b + 1 == |h|, sig, root, fill);
            var at := (b - i) * BLOCK;
            at + |blk| <= |s| && s[at..at + |blk|] == blk
    decreases b - i
  {
    hide RenderBlock, HeapOk;
    assert BlockFits(i, h[i]) by { HeapBlockFits(h, i); }
    HeapBlockFits(h, b);
    RenderBlockSize(i, h[i], i + 1 == |h|, sig, root, fill);
    if i < b {
      BlockAt(h, i + 1, b, sig, root, fill);
      var n := |RenderBlock(b, h[b], b + 1 == |h|, sig, root, fill)|;
      var at := (b - i - 1) * BLOCK;
      SliceRight(RenderBlock(i, h[i], false, sig, root, fill), RenderFrom(h, i + 1, sig, root, fill), at, at + n);
    }
  }

  lemma HeapBlockFits(h: Heap, i: nat)
    requires HeapOk(h) && i < |h|
    ensures BlockFits(i, h[i])
  {
  }

  // -- reading one block

  /** The fields of a rendered block that a reader follows. */
  lemma BlockFields(i: nat, items: Items, last: bool, sig: byte, root: nat, fill: Buf, k: nat)
    requires |fill| == 4 && BlockFits(i, items) && k < |items|
    ensures var blk, m := RenderBlock(i, items, last, sig, root, fill), MapPos(i, items, last);
            && |blk| == m + PageMapSize(|items|)
            && blk[0..2] == Put16(m) && blk[m..m + 2] == Put16(|items|)
            && blk[m + 4 + 2 * k..m + 6 + 2 * k] == Put16(Offset(i, items, k))
            && blk[m + 6 + 2 * k..m + 8 + 2 * k] == Put16(Offset(i, items, k + 1))
  {
    hide BlockHeader, Concat, PageMapSize, MapPos, Put16, Total;
    var m := MapPos(i, items, last);
    BlockRoom(i, items, last);
    var header := BlockHeader(i, m, sig, root, fill);
    var front := header + Concat(items) + Zeros(m - (HeaderSize(i) + Total(items)));
    HeaderStart(i, m, sig, root, fill);
    MapFields(i, items, k);
    var pm := PageMap(i, items);
    hide PageMap;
    assert RenderBlock(i, items, last, sig, root, fill) == front + pm;
    assert (front + pm)[0..2] == header[0..2];
    SliceRight(front, pm, 0, 2);
    SliceRight(front, pm, 4 + 2 * k, 6 + 2 * k);
    SliceRight(front, pm, 6 + 2 * k, 8 + 2 * k);
  }

  lemma HeaderStart(i: nat, m: nat, sig: byte, root: nat, fill: Buf)
    requires |fill| == 4
    ensures BlockHeader(i, m, sig, root, fill)[0..2] == Put16(m)
  {
  }

  lemma MapFields(i: nat, items: Items, k: nat)
    requires k < |items|
    ensures var pm := PageMap(i, items);
            && |pm| == 6 + 2 * |items| && pm[0..2] == Put16(|items|)
            && pm[4 + 2 * k..6 + 2 * k] == Put16(Offset(i, items, k))
            && pm[6 + 2 * k..8 + 2 * k] == Put16(Offset(i, items, k + 1))
  {
    hide Offsets, Put16, Offset;
    OffsetsAt(i, items, |items| + 1, k);
    OffsetsAt(i, items, |items| + 1, k + 1);
    var front, os := Put16(|items|) + Put16(Freed(items)), Offsets(i, items, |items| + 1);
    SliceRight(front, os, 2 * k, 2 * k + 2);
    SliceRight(front, os, 2 * k + 2, 2 * k + 4);
  }

  /** The bytes between two neighbouring offsets are the allocation. */
  lemma BlockItem(i: nat, items: Items, last: bool, sig: byte, root: nat, fill: Buf, k: nat)
    requires |fill| == 4 && BlockFits(i, items) && k < |items|
    ensures var blk := RenderBlock(i, items, last, sig, root, fill);
            Offset(i, items, k) <= Offset(i, items, k + 1) <= |blk| && Offset(i, items, k + 1) < U16
            && blk[Offset(i, items, k)..Offset(i, items, k + 1)] == items[k]
  {
    hide BlockHeader, Concat, PageMap, Total;
    var m := MapPos(i, items, last);
    BlockRoom(i, items, last);
    TotalPrefix(items, k);
    ConcatAt(items, k);
    var header, data := BlockHeader(i, m, sig, root, fill), Concat(items);
    var rest := Zeros(m - (HeaderSize(i) + Total(items))) + PageMap(i, items);
    assert RenderBlock(i, items, last, sig, root, fill) == header + (data + rest);
    SliceRight(header, data + rest, Total(items[..k]), Total(items[..k + 1]));
    assert (data + rest)[Total(items[..k])..Total(items[..k + 1])] == data[Total(items[..k])..Total(items[..k + 1])];
  }

  /** Every handle read back from the serialized stream gives the bytes it stands for. */
  lemma HeapRoundTrip(h: Heap, sig: byte, root: nat, fill: Buf, hid: nat)
    requires HeapOk(h) && |fill| == 4 && ItemAt(h, hid).Some?
    ensures HeapItem(Render(h, sig, root, fill), hid) == ItemAt(h, hid)
  {
    hide RenderBlock, HeapOk, MapPos, Put16, Peek, Offset, RenderFrom, HeapItem;
    var b, k := HidBlock(hid), HidAlloc(hid) - 1;
    var last := b + 1 == |h|;
    HeapBlockFits(h, b);
    BlockAt(h, 0, b, sig, root, fill);
    BlockRoom(b, h[b], last);
    BlockFields(b, h[b], last, sig, root, fill, k);
    BlockItem(b, h[b], last, sig, root, fill, k);
    ItemStands(Render(h, sig, root, fill), RenderBlock(b, h[b], last, sig, root, fill), MapPos(b, h[b], last), |h[b]|,
               Offset(b, h[b], k), Offset(b, h[b], k + 1), hid);
  }

  /** An allocation read through the page map of a block standing in the stream. */
  lemma ItemStands(s: Buf, blk: Buf, m: nat, n: nat, from: nat, to: nat, hid: nat)
    requires IsHid(hid) && 0 < HidAlloc(hid) <= n && m < U16 && n < U16 && from <= to <= |blk| && to < U16
    requires var base := HidBlock(hid) * BLOCK; base + |blk| <= |s| && s[base..base + |blk|] == blk
    requires |blk| == m + PageMapSize(n) && blk[0..2] == Put16(m) && blk[m..m + 2] == Put16(n)
    requires var k := HidAlloc(hid) - 1; m + 8 + 2 * k <= |blk|
    requires var k := HidAlloc(hid) - 1;
             blk[m + 4 + 2 * k..m + 6 + 2 * k] == Put16(from) && blk[m + 6 + 2 * k..m + 8 + 2 * k] == Put16(to)
    ensures HeapItem(s, hid) == Some(blk[from..to])
  {
    hide Put16, Peek;
    var base, k := HidBlock(hid) * BLOCK, HidAlloc(hid) - 1;
    BlockNumber(s, base, blk, 0, m);
    BlockNumber(s, base, blk, m, n);
    BlockNumber(s, base, blk, m + 4 + 2 * k, from);
    BlockNumber(s, base, blk, m + 6 + 2 * k, to);
    SliceOfSlice(s, base, base + |blk|, from, to);
  }

  /** A 16-bit field of a block, read at its place in the stream. */
  lemma BlockNumber(s: Buf, base: nat, blk: Buf, off: nat, v: nat)
    requires base + |blk| <= |s| && s[base..base + |blk|] == blk && off + 2 <= |blk|
    requires blk[off..off + 2] == Put16(v) && v < U16
    ensures Peek16At(s, base + off) == v
  {
    PeekPut16(v);
    SliceOfSlice(s, base, base + |blk|, off, off + 2);
  }
}
