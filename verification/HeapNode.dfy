/** The in-memory heap, which keeps every block until Serialize. */
module HeapNode {
  import opened Bytes
  import opened Wrappers
  import opened HeapFormat

  /** Fill-level code of a block with this many free bytes. Advisory for readers. */
  function FillLevelCode(free: nat): (c: nat)
    ensures c < 16
  {
    if free >= 3584 then 0x0 else if free >= 2560 then 0x1 else if free >= 2048 then 0x2
    else if free >= 1792 then 0x3 else if free >= 1536 then 0x4 else if free >= 1280 then 0x5
    else if free >= 1024 then 0x6 else if free >= 768 then 0x7 else if free >= 512 then 0x8
    else if free >= 256 then 0x9 else 0xF
  }

  function FreeBytes(i: nat, items: Items, last: bool): nat {
    if HeaderSize(i) + Total(items) <= MapPos(i, items, last)
    then MapPos(i, items, last) - (HeaderSize(i) + Total(items)) else 0
  }

  /** rgbFillLevel as HeapNode writes it: a nibble for each of the first eight blocks. */
  function FillLevels(h: Heap): (fill: Buf)
    requires |h| >= 1
    ensures |fill| == 4
  {
    var nib := (k: nat) => if k >= |h| then 0xF else if k == 0 then FillLevelCode(FreeBytes(0, h[0], |h| == 1)) else 0;
    [nib(0) + 16 * nib(1), nib(2) + 16 * nib(3), nib(4) + 16 * nib(5), nib(6) + 16 * nib(7)]
  }

  // --------------------------------------------- filling a block in place

  lemma PokeZeros(a: Buf, n: nat, d: Buf)
    requires |d| <= n
    ensures Poke(a + Zeros(n), |a|, d) == a + d + Zeros(n - |d|)
  {
  }

  lemma NotEmpty(h: Heap)
    requires HeapOk(h)
    ensures |h| >= 1
  {
  }

  /** Poking `d` behind what is already in place. */
  lemma PokeStep(front: Buf, done: Buf, n: nat, d: Buf)
    requires |done| + |d| <= n
    ensures Poke(front + done + Zeros(n - |done|), |front| + |done|, d)
            == front + (done + d) + Zeros(n - |done + d|)
  {
    PokeZeros(front + done, n - |done|, d);
    Associate(front, done, d);
  }

  lemma ZerosSplit(a: Buf, m: nat, n: nat)
    ensures a + Zeros(m + n) == a + Zeros(m) + Zeros(n)
  {
  }

  /** Offsets of the allocations, and where the data ends: the first loop of the block. */
  method ComputeOffsets(i: nat, items: Items) returns (offsets: seq<nat>)
    ensures |offsets| == |items| + 1
    ensures forall k :: 0 <= k <= |items| ==> offsets[k] == Offset(i, items, k)
  {
    offsets := [];
    var off := HeaderSize(i);
    for k := 0 to |items|
      invariant |offsets| == k && off == Offset(i, items, k)
      invariant forall j :: 0 <= j < k ==> offsets[j] == Offset(i, items, j)
    {
      TotalPrefix(items, k);
      offsets := offsets + [off];
      off := off + |items[k]|;
    }
    offsets := offsets + [off];
  }

  method CountFreed(items: Items) returns (freed: nat)
    ensures freed == Freed(items)
  {
    freed := 0;
    for k := 0 to |items|
      invariant freed == Freed(items[..k])
    {
      assert items[..k + 1][..k] == items[..k];
      if items[k] == [] {
        freed := freed + 1;
      }
    }
    assert items[..|items|] == items;
  }

  lemma ConcatSnoc(items: Items, k: nat)
    requires k < |items|
    ensures Concat(items[..k + 1]) == Concat(items[..k]) + items[k]
  {
    assert items[..k + 1][..k] == items[..k];
  }

  /** A block is a zeroed buffer that the header, the allocations and the page map are
      poked into; the result is the block of the format. */
  method FillBlock(i: nat, items: Items, last: bool, sig: byte, root: nat, fill: Buf) returns (blk: Buf)
    requires |fill| == 4 && BlockFits(i, items)
    ensures blk == RenderBlock(i, items, last, sig, root, fill)
  {
    hide BlockHeader, Put16, Offsets, Concat, Total, PageMapSize, PageMap, IsBitmapBlock, HeaderSize, MapPos, BlockFits, Poke, Offset;
    var offsets := ComputeOffsets(i, items);
    var m := MapPos(i, items, last);
    BlockRoom(i, items, last);
    var mapSize := PageMapSize(|items|);
    ghost var header := BlockHeader(i, m, sig, root, fill);
    blk := Zeros(m + mapSize);
    blk := PokeHeader(blk, i, m, sig, root, fill);
    blk := PokeItems(blk, i, items, offsets, header, m + mapSize - HeaderSize(i));
    ghost var front := header + Concat(items) + Zeros(m - (HeaderSize(i) + Total(items)));
    ZerosSplit(header + Concat(items), m - (HeaderSize(i) + Total(items)), mapSize);
    blk := PokePageMap(blk, m, i, items, offsets, front);
  }

  /** The allocations, one behind the other. */
  method PokeItems(buf: Buf, i: nat, items: Items, offsets: seq<nat>, ghost header: Buf, ghost n: nat) returns (blk: Buf)
    requires |header| == HeaderSize(i) && buf == header + Zeros(n) && Total(items) <= n && |offsets| == |items| + 1
    requires forall k :: 0 <= k <= |items| ==> offsets[k] == Offset(i, items, k)
    ensures blk == header + Concat(items) + Zeros(n - Total(items)) && |Concat(items)| == Total(items)
  {
    hide Concat, Total, HeaderSize, Poke;
    blk := buf;
    EmptyConcat();
    assert header + [] == header;
    for k := 0 to |items|
      invariant |Concat(items[..k])| == Total(items[..k]) <= n
      invariant blk == header + Concat(items[..k]) + Zeros(n - |Concat(items[..k])|)
    {
      TotalPrefix(items, k);
      ConcatSnoc(items, k);
      PokeStep(header, Concat(items[..k]), n, items[k]);
      blk := Poke(blk, offsets[k], items[k]);
    }
    assert items[..|items|] == items;
  }

  lemma EmptyConcat()
    ensures Concat([]) == [] && Total([]) == 0
  {
  }

  lemma Associate(a: Buf, b: Buf, c: Buf)
    ensures a + b + c == a + (b + c)
  {
  }

  method PokeHeader(buf: Buf, i: nat, m: nat, sig: byte, root: nat, fill: Buf) returns (blk: Buf)
    requires |fill| == 4 && buf == Zeros(|buf|) && |buf| >= HeaderSize(i)
    ensures blk == BlockHeader(i, m, sig, root, fill) + Zeros(|buf| - HeaderSize(i))
  {
    blk := Poke(buf, 0, Put16(m));
    if i == 0 {
      blk := Poke(blk, 2, [HN_SIGNATURE]);
      blk := Poke(blk, 3, [sig]);
      blk := Poke(blk, 4, Put32(root));
      blk := Poke(blk, 8, fill);
    } else if IsBitmapBlock(i) {
      blk := Poke(blk, 2, Fill(0xFF, 64));
    }
  }

  method PokePageMap(buf: Buf, m: nat, i: nat, items: Items, offsets: seq<nat>, ghost front: Buf) returns (blk: Buf)
    requires |front| == m && buf == front + Zeros(PageMapSize(|items|)) && |offsets| == |items| + 1
    requires forall k :: 0 <= k <= |items| ==> offsets[k] == Offset(i, items, k)
    ensures blk == front + PageMap(i, items)
  {
    hide Put16, Offset, Freed;
    var n := PageMapSize(|items|);
    var freed := CountFreed(items);
    assert front + [] == front;
    assert [] + Put16(|items|) == Put16(|items|);
    PokeStep(front, [], n, Put16(|items|));
    blk := Poke(buf, m, Put16(|items|));
    PokeStep(front, Put16(|items|), n, Put16(freed));
    blk := Poke(blk, m + 2, Put16(freed));
    ghost var head := Put16(|items|) + Put16(freed);
    assert head + Offsets(i, items, 0) == head;
    blk := PokeOffsets(blk, m, i, items, offsets, front, head);
  }

  method PokeOffsets(buf: Buf, m: nat, i: nat, items: Items, offsets: seq<nat>, ghost front: Buf, ghost head: Buf) returns (blk: Buf)
    requires |front| == m && |head| == 4 && |offsets| == |items| + 1
    requires buf == front + head + Zeros(PageMapSize(|items|) - 4)
    requires forall k :: 0 <= k <= |items| ==> offsets[k] == Offset(i, items, k)
    ensures blk == front + (head + Offsets(i, items, |items| + 1))
  {
    hide Put16, Offset, Offsets, Poke;
    var n := PageMapSize(|items|);
    blk := buf;
    NoOffsets(i, items);
    assert head + Offsets(i, items, 0) == head;
    for k := 0 to |offsets|
      invariant blk == front + (head + Offsets(i, items, k)) + Zeros(n - |head + Offsets(i, items, k)|)
    {
      ghost var done := head + Offsets(i, items, k);
      assert |done| == 4 + 2 * k;
      PokeStep(front, done, n, Put16(offsets[k]));
      OffsetsNext(i, items, k);
      Associate(head, Offsets(i, items, k), Put16(offsets[k]));
      blk := Poke(blk, m + 4 + 2 * k, Put16(offsets[k]));
    }
    var all := front + (head + Offsets(i, items, |items| + 1));
    assert all + Zeros(0) == all;
  }

  lemma NoOffsets(i: nat, items: Items)
    ensures Offsets(i, items, 0) == []
  {
  }

  lemma OffsetsNext(i: nat, items: Items, k: nat)
    requires k <= |items|
    ensures Offsets(i, items, k + 1) == Offsets(i, items, k) + Put16(Offset(i, items, k))
  {
  }

  // ---------------------------------------------------------------- class

  datatype HeapBlock = HeapBlock(items: Items, used: nat)

  class HeapNode {
    const clientSig: byte
    var userRoot: nat
    var blocks: seq<HeapBlock>

    /** The heap these blocks are. */
    function Contents(): (h: Heap)
      reads this
      ensures |h| == |blocks|
    {
      var bs := blocks;
      seq(|bs|, i requires 0 <= i < |bs| => bs[i].items)
    }

    /** Blocks in order, perhaps more of them than handles can name. */
    ghost predicate Orderly()
      reads this
    {
      HeapOk(Contents()) && forall i :: 0 <= i < |blocks| ==> blocks[i].used == Total(blocks[i].items)
    }

    ghost predicate Valid()
      reads this
    {
      Orderly() && |blocks| <= MAX_BLOCKS
    }

    constructor (sig: byte)
      ensures Valid() && Contents() == [[]] && clientSig == sig && userRoot == 0
    {
      clientSig := sig;
      userRoot := 0;
      blocks := [HeapBlock([], 0)];
    }

    predicate Fits(i: nat, len: nat)
      requires i < |blocks|
      reads this
    {
      HeaderSize(i) + blocks[i].used + len + PageMapSize(|blocks[i].items| + 1) + 1 <= BLOCK
    }

    /** Fails for oversized data, and when the block index would outgrow 16 bits. What the
        heap is then, AfterFailure and HandleTaken say. */
    method Alloc(data: Buf) returns (r: Result<nat>)
      requires Orderly()
      modifies `blocks
      ensures Orderly() && AllocStep(old(Contents()), data) == (Contents(), if r.Ok? then Some(r.value) else None)
      ensures old(Valid()) ==> (r.Ok? <==> AllocIn(old(Contents()), data).Some?)
      ensures old(Valid()) && r.Ok? ==> Valid() && AllocIn(old(Contents()), data) == Some((Contents(), r.value))
      ensures r.Err? && |data| > MAX_ALLOC ==> unchanged(this)
    {
      hide HeapOk, PageMapSize, HeaderSize, MakeHid, ItemAt, IsHid, Total;
      ghost var h := Contents();
      NotEmpty(h);
      if |h| <= MAX_BLOCKS { StepIsAlloc(h, data); }
      StepOk(h, data);
      if |data| > MAX_ALLOC {
        return Err("heap allocation exceeds the HN block capacity");
      }
      var index := |blocks| - 1;
      if !Fits(index, |data|) || |blocks[index].items| >= MAX_ITEMS {
        blocks := blocks + [HeapBlock([], 0)];
        index := |blocks| - 1;
        if index > 0xFFFF {
          EmptyConcat();
          assert Contents() == h + [[]];
          return Err("heap grew beyond 65535 blocks");
        }
      }
      var b := blocks[index];
      TotalSnoc(b.items, data);
      EmptyConcat();
      blocks := blocks[index := HeapBlock(b.items + [data], b.used + |data|)];
      assert [] + [data] == [data];
      assert Contents() == if |blocks| > |h| then h + [[data]] else h[index := h[index] + [data]];
      return Ok(MakeHid(index % 0x1_0000, |blocks[index].items|));
    }

    method Patch(hid: nat, data: Buf) returns (r: Result<()>)
      requires Valid() && IsHid(hid)
      modifies `blocks
      ensures Valid()
      ensures r.Ok? <==> PatchIn(old(Contents()), hid, data).Some?
      ensures r.Ok? ==> Some(Contents()) == PatchIn(old(Contents()), hid, data)
      ensures r.Err? ==> unchanged(this)
    {
      hide HeapOk, Total, HidBlock, HidAlloc;
      var block := HidBlock(hid);
      var index := HidAlloc(hid);
      ghost var h := Contents();
      if block >= |blocks| || index == 0 || index > |blocks[block].items| {
        return Err("patch of an unknown HID");
      }
      if |blocks[block].items[index - 1]| != |data| {
        return Err("patch would change an allocation's size");
      }
      PatchInCorrect(h, hid, data);
      TotalUpdate(blocks[block].items, index - 1, data);
      blocks := blocks[block := blocks[block].(items := blocks[block].items[index - 1 := data])];
      assert Contents() == h[block := h[block][index - 1 := data]];
      return Ok(());
    }

    method SetUserRoot(hid: nat)
      requires Valid()
      modifies `userRoot
      ensures userRoot == hid && Valid()
    {
      userRoot := hid;
    }

    /** The heap's stream. */
    method Serialize() returns (out: Buf)
      requires Valid()
      ensures out == Render(Contents(), clientSig, userRoot, FillLevels(Contents())) && |out| < U32
    {
      hide HeapOk, RenderBlock, FillLevels;
      ghost var h := Contents();
      NotEmpty(h);
      RenderFits(h, clientSig, userRoot, FillLevels(h));
      var fill := FillLevels(Contents());
      out := [];
      for i := 0 to |blocks|
        invariant out + RenderFrom(h, i, clientSig, userRoot, fill) == Render(h, clientSig, userRoot, fill)
      {
        HeapBlockFits(h, i);
        var blk := FillBlock(i, blocks[i].items, i + 1 == |blocks|, clientSig, userRoot, fill);
        Associate(out, blk, RenderFrom(h, i + 1, clientSig, userRoot, fill));
        out := out + blk;
      }
      assert out + [] == out;
    }
  }
}
