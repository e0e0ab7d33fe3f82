/** Space in the file: where the fixed pages sit and what an allocation map says.
    Constants and positions are those of `src/pst/pst_format.h` and
    [MS-PST] section 2.2.2.7. */
module Space {
  import opened Bytes

  const PAGE: nat := 512
  const ALIGN: nat := 64
  const DLIST_POS: nat := 0x4200
  const FIRST_AMAP: nat := 0x4400
  const FIRST_PMAP: nat := 0x4600
  const FIRST_DATA: nat := 0x4800
  /** One AMap page maps 496 * 8 slots of 64 bytes; one PMap page maps 496 * 8 pages. */
  const AMAP_SPAN: nat := 0x3E000
  const PMAP_SPAN: nat := 0x1F0000
  const MAP_BYTES: nat := 496
  const MAP_BITS: nat := 3968
  /** The largest block: 8176 bytes of data and the trailer. */
  const MAX_BLOCK: nat := 8192

  datatype Extent = Extent(ib: nat, cb: nat)

  predicate IsReservedPage(ib: nat) {
    if ib == DLIST_POS then true
    else if ib < FIRST_AMAP then false
    else if (ib - FIRST_AMAP) % AMAP_SPAN == 0 then true
    else ib >= FIRST_PMAP && (ib - FIRST_PMAP) % PMAP_SPAN == 0
  }

  function AMapPos(m: nat): nat { FIRST_AMAP + m * AMAP_SPAN }
  function PMapPos(m: nat): nat { FIRST_PMAP + m * PMAP_SPAN }

  /** No fixed page overlaps the `n` bytes at `a`. */
  predicate Clear(a: nat, n: nat) {
    forall p: nat :: IsReservedPage(p) ==> p + PAGE <= a || a + n <= p
  }

  /** The fixed pages are exactly the density list, the AMaps and the PMaps. */
  lemma ReservedCases(p: nat)
    requires IsReservedPage(p)
    ensures p % PAGE == 0
    ensures p == DLIST_POS || (p >= FIRST_AMAP && p == AMapPos((p - FIRST_AMAP) / AMAP_SPAN))
                           || (p >= FIRST_PMAP && p == PMapPos((p - FIRST_PMAP) / PMAP_SPAN))
  {
    if p >= FIRST_AMAP && (p - FIRST_AMAP) % AMAP_SPAN == 0 {
      var k := (p - FIRST_AMAP) / AMAP_SPAN;
      assert p == 512 * (34 + 496 * k);
      ModUnique(p, 512, 34 + 496 * k, 0);
    } else if p != DLIST_POS {
      var k := (p - FIRST_PMAP) / PMAP_SPAN;
      assert p == 512 * (35 + 3968 * k);
      ModUnique(p, 512, 35 + 3968 * k, 0);
    }
  }

  lemma AMapReserved(m: nat)
    ensures IsReservedPage(AMapPos(m)) && IsReservedPage(PMapPos(m))
    ensures PMapPos(m) == AMapPos(8 * m) + PAGE
  {
    ModUnique(m * AMAP_SPAN, AMAP_SPAN, m, 0);
    ModUnique(m * PMAP_SPAN, PMAP_SPAN, m, 0);
  }

  /** Bytes at the head of span `m` that fixed pages take. */
  function HeadSize(m: nat): nat { if m % 8 == 0 then 2 * PAGE else PAGE }

  /** Where the bump allocator comes to rest, in closed form: past the fixed pages
      at the head of the span the cursor is in, or of the next one. */
  function Place(cursor: nat, cb: nat): nat
    requires cursor >= FIRST_AMAP
  {
    var m := (cursor - FIRST_AMAP) / AMAP_SPAN;
    var off := (cursor - FIRST_AMAP) % AMAP_SPAN;
    if off < HeadSize(m) then AMapPos(m) + HeadSize(m)
    else if off + cb <= AMAP_SPAN then cursor
    else AMapPos(m + 1) + HeadSize(m + 1)
  }

  /** Everything between the head of a span and the next span is clear. */
  lemma ClearWithinSpan(m: nat, a: nat, n: nat)
    requires AMapPos(m) + HeadSize(m) <= a && a + n <= AMapPos(m + 1)
    ensures Clear(a, n)
  {
    forall p: nat | IsReservedPage(p) ensures p + PAGE <= a || a + n <= p {
      ReservedCases(p);
      if p >= FIRST_AMAP && p == AMapPos((p - FIRST_AMAP) / AMAP_SPAN) {
        var k := (p - FIRST_AMAP) / AMAP_SPAN;
        assert k <= m || k >= m + 1;
      } else if p != DLIST_POS {
        var j := (p - FIRST_PMAP) / PMAP_SPAN;
        assert p == AMapPos(8 * j) + PAGE;
        assert 8 * j < m || 8 * j == m || 8 * j >= m + 1;
      }
    }
  }

  lemma PlaceIsClear(cursor: nat, cb: nat)
    requires cursor >= FIRST_DATA && cursor % ALIGN == 0 && 0 < cb <= MAX_BLOCK
    ensures var t := Place(cursor, cb);
            cursor <= t < cursor + cb + 2 * PAGE && t % ALIGN == 0 && Clear(t, cb)
  {
    var m := (cursor - FIRST_AMAP) / AMAP_SPAN;
    var t := Place(cursor, cb);
    assert AMapPos(m) <= cursor < AMapPos(m + 1);
    if t >= AMapPos(m + 1) {
      ClearWithinSpan(m + 1, t, cb);
    } else {
      ClearWithinSpan(m, t, cb);
    }
  }

  /** A clear range lies in one span: allocations never straddle two maps. */
  lemma ClearInOneSpan(a: nat, n: nat)
    requires a >= FIRST_DATA && n > 0 && Clear(a, n)
    ensures var m := (a - FIRST_AMAP) / AMAP_SPAN;
            AMapPos(m) + PAGE <= a && a + n <= AMapPos(m + 1)
  {
    var m := (a - FIRST_AMAP) / AMAP_SPAN;
    AMapReserved(m);
    AMapReserved(m + 1);
    assert AMapPos(m) <= a < AMapPos(m + 1);
  }

  // ----------------------------------------------------------------- bits

  /** Bit number `i` of `b`, counted from the least significant. */
  predicate LowBit(b: nat, i: nat) {
    if i == 0 then b % 2 == 1 else LowBit(b / 2, i - 1)
  }

  /** `b` with bit number `i` switched on. */
  function OrLowBit(b: nat, i: nat): nat {
    if i == 0 then b - b % 2 + 1 else 2 * OrLowBit(b / 2, i - 1) + b % 2
  }

  function Pow2(n: nat): nat { if n == 0 then 1 else 2 * Pow2(n - 1) }

  /** How many of the `n` low bits of `b` are off. */
  function OffBits(b: nat, n: nat): (c: nat)
    ensures c <= n
  {
    if n == 0 then 0 else (if b % 2 == 0 then 1 else 0) + OffBits(b / 2, n - 1)
  }

  lemma {:induction false} OrLowBitBound(b: nat, i: nat, n: nat)
    requires i < n && b < Pow2(n)
    ensures OrLowBit(b, i) < Pow2(n)
  {
    if i > 0 {
      assert b / 2 < Pow2(n - 1);
      OrLowBitBound(b / 2, i - 1, n - 1);
    } else {
      assert b - b % 2 == 2 * (b / 2) && b / 2 < Pow2(n - 1);
    }
  }

  lemma {:induction false} OrLowBitSets(b: nat, i: nat, j: nat)
    ensures LowBit(OrLowBit(b, i), j) <==> LowBit(b, j) || i == j
  {
    if i > 0 && j > 0 { OrLowBitSets(b / 2, i - 1, j - 1); }
  }

  lemma {:induction false} OrLowBitCount(b: nat, i: nat, n: nat)
    requires i < n
    ensures OffBits(OrLowBit(b, i), n) == OffBits(b, n) - if LowBit(b, i) then 0 else 1
  {
    if i > 0 { OrLowBitCount(b / 2, i - 1, n - 1); }
  }

  /** The test `byte & (0x80 >> k)`. */
  predicate BitSet(b: byte, k: nat)
    requires k < 8
  {
    LowBit(b, 7 - k)
  }

  /** `b | (0x80 >> k)`. */
  function OrBit(b: byte, k: nat): byte
    requires k < 8
  {
    assert Pow2(8) == 256 by { assert Pow2(4) == 16; }
    OrLowBitBound(b, 7 - k, 8);
    OrLowBit(b, 7 - k)
  }

  // -------------------------------------------------------------- bitmaps

  /** Slot `j` of a bitmap, most significant bit of each byte first. */
  predicate Bit(bits: Buf, j: nat)
    requires j < 8 * |bits|
  {
    BitSet(bits[j / 8], j % 8)
  }

  function SetBit(bits: Buf, j: nat): (r: Buf)
    requires j < 8 * |bits|
    ensures |r| == |bits|
  {
    bits[j / 8 := OrBit(bits[j / 8], j % 8)]
  }

  /** Free slots in a bitmap. */
  function OffCount(bits: Buf): (c: nat)
    ensures c <= 8 * |bits|
  {
    if bits == [] then 0 else OffBits(bits[0], 8) + OffCount(bits[1..])
  }

  lemma SetBitSets(bits: Buf, j: nat, k: nat)
    requires j < 8 * |bits| && k < 8 * |bits|
    ensures Bit(SetBit(bits, j), k) <==> Bit(bits, k) || j == k
  {
    OrLowBitSets(bits[j / 8], 7 - j % 8, 7 - k % 8);
  }

  lemma {:induction false} OffCountUpdate(bits: Buf, i: nat, b: byte)
    requires i < |bits|
    ensures OffCount(bits[i := b]) == OffCount(bits) - OffBits(bits[i], 8) + OffBits(b, 8)
  {
    if i > 0 {
      assert bits[i := b][1..] == bits[1..][i - 1 := b];
      OffCountUpdate(bits[1..], i - 1, b);
    }
  }

  lemma SetBitCount(bits: Buf, j: nat)
    requires j < 8 * |bits| && !Bit(bits, j)
    ensures OffCount(SetBit(bits, j)) == OffCount(bits) - 1
  {
    OrLowBitCount(bits[j / 8], 7 - j % 8, 8);
    OffCountUpdate(bits, j / 8, OrBit(bits[j / 8], j % 8));
  }

  lemma {:induction false} OffCountZeros(n: nat)
    ensures OffCount(Zeros(n)) == 8 * n
  {
    if n > 0 {
      assert Zeros(n)[1..] == Zeros(n - 1);
      OffCountZeros(n - 1);
      assert OffBits(0, 8) == 8 by { assert OffBits(0, 4) == 4; }
    }
  }

  lemma {:induction false} ZerosClear(i: nat)
    ensures !LowBit(0, i)
  {
    if i > 0 { ZerosClear(i - 1); }
  }

  predicate AllOff(bits: Buf, first: nat, n: nat) {
    first + n <= 8 * |bits| && forall j :: first <= j < first + n ==> !Bit(bits, j)
  }

  /** `bits` with `n` slots from `first` on switched on; slots past the end are dropped. */
  function Marked(bits: Buf, first: nat, n: nat): (r: Buf)
    ensures |r| == |bits|
  {
    if n == 0 then bits
    else if first + n - 1 < 8 * |bits| then SetBit(Marked(bits, first, n - 1), first + n - 1)
    else Marked(bits, first, n - 1)
  }

  lemma {:induction false} MarkedBits(bits: Buf, first: nat, n: nat, j: nat)
    requires j < 8 * |bits|
    ensures Bit(Marked(bits, first, n), j) <==> Bit(bits, j) || first <= j < first + n
  {
    if n > 0 {
      MarkedBits(bits, first, n - 1, j);
      if first + n - 1 < 8 * |bits| { SetBitSets(Marked(bits, first, n - 1), first + n - 1, j); }
    }
  }

  lemma {:induction false} MarkedCount(bits: Buf, first: nat, n: nat)
    requires AllOff(bits, first, n)
    ensures OffCount(Marked(bits, first, n)) == OffCount(bits) - n
  {
    hide Bit, SetBit, OffCount;
    if n > 0 {
      MarkedCount(bits, first, n - 1);
      MarkedBits(bits, first, n - 1, first + n - 1);
      SetBitCount(Marked(bits, first, n - 1), first + n - 1);
    }
  }

  lemma {:induction false} MarkedPastEnd(bits: Buf, first: nat, k: nat, n: nat)
    requires k <= n && first + k >= 8 * |bits|
    ensures Marked(bits, first, n) == Marked(bits, first, k)
  {
    if k < n { MarkedPastEnd(bits, first, k, n - 1); }
  }

  /** The marking loop of `markAllocated`, on one map. */
  method MarkBits(bits: Buf, first: nat, n: nat) returns (r: Buf)
    ensures r == Marked(bits, first, n)
  {
    r := bits;
    var i := 0;
    while i < n
      invariant 0 <= i <= n && r == Marked(bits, first, i)
    {
      var bit := first + i;
      if bit / 8 >= |bits| {
        MarkedPastEnd(bits, first, i, n);
        return;
      }
      r := SetBit(r, bit);
      i := i + 1;
    }
  }

  /** The counting loop of `emitFixedPages`, on one map. */
  method CountFree(bits: Buf) returns (n: nat)
    ensures n == OffCount(bits)
  {
    n := 0;
    for i := 0 to |bits|
      invariant n + OffCount(bits[i..]) == OffCount(bits)
    {
      assert bits[i..][1..] == bits[i + 1..];
      var c := CountFreeInByte(bits[i]);
      n := n + c;
    }
  }

  method CountFreeInByte(b: byte) returns (n: nat)
    ensures n == OffBits(b, 8)
  {
    n := 0;
    var k := 0;
    while k < 8
      invariant 0 <= k <= 8
      invariant n + OffBits(b, 8 - k) == OffBits(b, 8)
    {
      OffBitsTop(b, 8 - k);
      if !BitSet(b, k) { n := n + 1; }
      k := k + 1;
    }
  }

  lemma {:induction false} OffBitsTop(b: nat, n: nat)
    requires n > 0
    ensures OffBits(b, n) == OffBits(b, n - 1) + if LowBit(b, n - 1) then 0 else 1
  {
    if n > 1 { OffBitsTop(b / 2, n - 1); }
  }

  // ---------------------------------------------- maps against allocations

  /** A new allocation map: it accounts for itself and for the PMap page in its span. */
  function FreshMap(m: nat): (r: Buf)
    ensures |r| == MAP_BYTES
  {
    var own := Marked(Zeros(MAP_BYTES), 0, 8);
    if m % 8 == 0 then Marked(own, 8, 8) else own
  }

  /** `maps` grown to at least `n` maps. */
  function Extended(maps: seq<Buf>, n: nat): (r: seq<Buf>)
    ensures |r| == if n > |maps| then n else |maps|
    ensures maps <= r
    decreases n
  {
    if n <= |maps| then maps
    else Extended(maps, n - 1) + [FreshMap(n - 1)]
  }

  /** The maps after the `cb` bytes at `ib` are marked. */
  function MarkedMaps(maps: seq<Buf>, ib: nat, cb: nat): (r: seq<Buf>)
    ensures |maps| <= |r|
  {
    if ib < FIRST_AMAP then maps
    else
      var m := (ib - FIRST_AMAP) / AMAP_SPAN;
      var e := Extended(maps, m + 1);
      e[m := Marked(e[m], (ib - AMapPos(m)) / ALIGN, AlignUp(cb, ALIGN) / ALIGN)]
  }

  function SlotPos(m: nat, j: nat): nat { AMapPos(m) + ALIGN * j }

  ghost predicate Taken(extents: seq<Extent>, pos: nat) {
    || IsReservedPage(pos - pos % PAGE)
    || exists i :: 0 <= i < |extents| && extents[i].ib <= pos < extents[i].ib + extents[i].cb
  }

  /** A slot is marked if and only if it lies in a fixed page or an allocation. */
  ghost predicate MapsExact(maps: seq<Buf>, extents: seq<Extent>) {
    && (forall m :: 0 <= m < |maps| ==> |maps[m]| == MAP_BYTES)
    && forall m, j {:trigger SlotPos(m, j)} :: 0 <= m < |maps| && 0 <= j < MAP_BITS ==>
        (Bit(maps[m], j) <==> Taken(extents, SlotPos(m, j)))
  }

  /** Allocations are aligned, avoid the fixed pages and follow one another. */
  ghost predicate ExtentsOk(extents: seq<Extent>, cursor: nat) {
    && (forall i :: 0 <= i < |extents| ==>
          var e := extents[i];
          && FIRST_DATA <= e.ib && e.ib % ALIGN == 0 && e.cb % ALIGN == 0 && 0 < e.cb <= MAX_BLOCK
          && e.ib + e.cb <= cursor && Clear(e.ib, e.cb))
    && forall i, j :: 0 <= i < j < |extents| ==> extents[i].ib + extents[i].cb <= extents[j].ib
  }

  function FreeTotal(maps: seq<Buf>): nat {
    if maps == [] then 0 else FreeTotal(maps[..|maps| - 1]) + OffCount(maps[|maps| - 1])
  }

  function SumCb(extents: seq<Extent>): nat {
    if extents == [] then 0 else SumCb(extents[..|extents| - 1]) + extents[|extents| - 1].cb
  }

  /** Fixed pages in the first `n` spans: one AMap each, one PMap in every eight. */
  function FixedPages(n: nat): nat { n + (n + 7) / 8 }

  /** Free bytes, allocated bytes and fixed pages make up the mapped spans exactly. */
  predicate Conserved(maps: seq<Buf>, extents: seq<Extent>) {
    ALIGN * FreeTotal(maps) + SumCb(extents) + PAGE * FixedPages(|maps|) == |maps| * AMAP_SPAN
  }

  ghost predicate SpaceOk(cursor: nat, maps: seq<Buf>, extents: seq<Extent>) {
    && FIRST_DATA <= cursor <= AMapPos(|maps|) && cursor % ALIGN == 0
    && ExtentsOk(extents, cursor)
    && MapsExact(maps, extents)
    && Conserved(maps, extents)
  }

  lemma FreshMapBits(m: nat, j: nat)
    requires j < MAP_BITS
    ensures Bit(FreshMap(m), j) <==> IsReservedPage(SlotPos(m, j) - SlotPos(m, j) % PAGE)
  {
    var own := Marked(Zeros(MAP_BYTES), 0, 8);
    ZerosClear(7 - j % 8);
    MarkedBits(Zeros(MAP_BYTES), 0, 8, j);
    MarkedBits(own, 8, 8, j);
    assert Bit(FreshMap(m), j) <==> j < 8 || (m % 8 == 0 && j < 16);
    SlotInFixedPage(m, j);
  }

  lemma SlotInFixedPage(m: nat, j: nat)
    requires j < MAP_BITS
    ensures IsReservedPage(SlotPos(m, j) - SlotPos(m, j) % PAGE) <==> j < 8 || (m % 8 == 0 && j < 16)
  {
    assert SlotPos(m, j) == PAGE * (34 + 496 * m + j / 8) + ALIGN * (j % 8);
    ModUnique(SlotPos(m, j), PAGE, 34 + 496 * m + j / 8, ALIGN * (j % 8));
    var p := AMapPos(m) + PAGE * (j / 8);
    AMapReserved(m);
    if 8 <= j {
      if m % 8 == 0 && j < 16 {
        AMapReserved(m / 8);
      } else {
        ClearWithinSpan(m, p, PAGE);
      }
    }
  }

  lemma FreshMapCount(m: nat)
    ensures OffCount(FreshMap(m)) == MAP_BITS - if m % 8 == 0 then 16 else 8
  {
    var own := Marked(Zeros(MAP_BYTES), 0, 8);
    OffCountZeros(MAP_BYTES);
    forall j | 0 <= j < MAP_BITS ensures Bit(own, j) <==> j < 8 && !Bit(Zeros(MAP_BYTES), j) {
      ZerosClear(7 - j % 8);
      MarkedBits(Zeros(MAP_BYTES), 0, 8, j);
    }
    forall j | 0 <= j < 8 ensures !Bit(Zeros(MAP_BYTES), j) { ZerosClear(7 - j % 8); }
    MarkedCount(Zeros(MAP_BYTES), 0, 8);
    if m % 8 == 0 { MarkedCount(own, 8, 8); }
  }

  lemma ExtendExactOnce(maps: seq<Buf>, extents: seq<Extent>)
    requires MapsExact(maps, extents) && ExtentsOk(extents, AMapPos(|maps|))
    ensures MapsExact(maps + [FreshMap(|maps|)], extents)
  {
    var r := maps + [FreshMap(|maps|)];
    forall m, j {:trigger SlotPos(m, j)} | 0 <= m < |r| && 0 <= j < MAP_BITS
      ensures Bit(r[m], j) <==> Taken(extents, SlotPos(m, j))
    {
      if m == |maps| {
        FreshMapBits(m, j);
      } else {
        assert r[m] == maps[m];
      }
    }
  }

  lemma ExtendConservedOnce(maps: seq<Buf>, extents: seq<Extent>)
    requires Conserved(maps, extents)
    ensures Conserved(maps + [FreshMap(|maps|)], extents)
  {
    hide FreshMap, OffCount, SumCb, FixedPages;
    var n := |maps|;
    assert (maps + [FreshMap(n)])[..n] == maps;
    FreshMapCount(n);
    FixedNext(n);
  }

  lemma FixedNext(n: nat)
    ensures FixedPages(n + 1) == FixedPages(n) + 1 + if n % 8 == 0 then 1 else 0
  {
  }

  /** Growing the maps keeps them exact, as long as nothing is allocated beyond. */
  lemma {:induction false} ExtendExact(maps: seq<Buf>, extents: seq<Extent>, n: nat)
    requires MapsExact(maps, extents) && ExtentsOk(extents, AMapPos(|maps|)) && Conserved(maps, extents)
    ensures MapsExact(Extended(maps, n), extents) && Conserved(Extended(maps, n), extents)
    decreases n
  {
    if n > |maps| {
      var e := Extended(maps, n - 1);
      ExtendExact(maps, extents, n - 1);
      ExtendExactOnce(e, extents);
      ExtendConservedOnce(e, extents);
    }
  }

  lemma {:induction false} FreeTotalUpdate(maps: seq<Buf>, m: nat, b: Buf)
    requires m < |maps|
    ensures FreeTotal(maps[m := b]) == FreeTotal(maps) - OffCount(maps[m]) + OffCount(b)
  {
    var k := |maps| - 1;
    if m < k {
      assert maps[m := b][..k] == maps[..k][m := b];
      FreeTotalUpdate(maps[..k], m, b);
    } else {
      assert maps[m := b][..k] == maps[..k];
    }
  }

  lemma SlotInExtent(m: nat, k: nat, j: nat, ib: nat, cb: nat)
    requires j < MAP_BITS && ib % ALIGN == 0 && cb % ALIGN == 0
    requires AMapPos(m) <= ib && ib + cb <= AMapPos(m + 1)
    ensures ib <= SlotPos(k, j) < ib + cb <==>
            k == m && (ib - AMapPos(m)) / ALIGN <= j < (ib - AMapPos(m)) / ALIGN + cb / ALIGN
  {
    var first, n := (ib - AMapPos(m)) / ALIGN, cb / ALIGN;
    assert ib == AMapPos(m) + ALIGN * first && cb == ALIGN * n;
    if k < m {
      assert AMapPos(k + 1) <= AMapPos(m);
    } else if k > m {
      assert AMapPos(m + 1) <= AMapPos(k);
    }
  }

  lemma AlignUpAligned(v: nat, a: nat)
    requires a > 0 && v % a == 0
    ensures AlignUp(v, a) == v
  {
    ModUnique(v + a - 1, a, v / a, a - 1);
  }

  /** Marking a new extent in its map switches on exactly the extent's slots. */
  lemma MarkOneExact(e: seq<Buf>, extents: seq<Extent>, m: nat, ib: nat, cb: nat)
    requires m < |e| && MapsExact(e, extents)
    requires ib % ALIGN == 0 && cb % ALIGN == 0 && AMapPos(m) <= ib && ib + cb <= AMapPos(m + 1)
    ensures MapsExact(e[m := Marked(e[m], (ib - AMapPos(m)) / ALIGN, cb / ALIGN)], extents + [Extent(ib, cb)])
  {
    var first, n := (ib - AMapPos(m)) / ALIGN, cb / ALIGN;
    var r := e[m := Marked(e[m], first, n)];
    forall k, j {:trigger SlotPos(k, j)} | 0 <= k < |r| && 0 <= j < MAP_BITS
      ensures Bit(r[k], j) <==> Taken(extents + [Extent(ib, cb)], SlotPos(k, j))
    {
      TakenAppend(extents, Extent(ib, cb), SlotPos(k, j));
      SlotInExtent(m, k, j, ib, cb);
      if k == m { MarkedBits(e[m], first, n, j); }
    }
  }

  /** ... and turns that many free bytes into allocated bytes. */
  lemma MarkOneConserved(e: seq<Buf>, extents: seq<Extent>, m: nat, ib: nat, cb: nat)
    requires m < |e| && MapsExact(e, extents) && Conserved(e, extents) && ExtentsOk(extents, ib)
    requires ib % ALIGN == 0 && cb % ALIGN == 0 && AMapPos(m) <= ib && ib + cb <= AMapPos(m + 1)
    requires ib >= FIRST_DATA && Clear(ib, cb)
    ensures Conserved(e[m := Marked(e[m], (ib - AMapPos(m)) / ALIGN, cb / ALIGN)], extents + [Extent(ib, cb)])
  {
    var first, n := (ib - AMapPos(m)) / ALIGN, cb / ALIGN;
    SlotsFree(e, extents, m, ib, cb);
    hide MapsExact, ExtentsOk, Clear, Marked, AllOff;
    MarkedCount(e[m], first, n);
    FreeTotalUpdate(e, m, Marked(e[m], first, n));
    assert (extents + [Extent(ib, cb)])[..|extents|] == extents;
  }

  lemma SlotsFree(e: seq<Buf>, extents: seq<Extent>, m: nat, ib: nat, cb: nat)
    requires m < |e| && MapsExact(e, extents) && ExtentsOk(extents, ib)
    requires ib % ALIGN == 0 && cb % ALIGN == 0 && AMapPos(m) <= ib && ib + cb <= AMapPos(m + 1)
    requires ib >= FIRST_DATA && Clear(ib, cb)
    ensures AllOff(e[m], (ib - AMapPos(m)) / ALIGN, cb / ALIGN)
  {
    var first, n := (ib - AMapPos(m)) / ALIGN, cb / ALIGN;
    forall j | first <= j < first + n ensures !Bit(e[m], j) {
      SlotInExtent(m, m, j, ib, cb);
      SlotFree(extents, ib, cb, SlotPos(m, j));
    }
  }

  lemma ExtentsAppend(extents: seq<Extent>, ib: nat, cb: nat)
    requires ExtentsOk(extents, ib) && ib >= FIRST_DATA
    requires ib % ALIGN == 0 && cb % ALIGN == 0 && 0 < cb <= MAX_BLOCK && Clear(ib, cb)
    ensures ExtentsOk(extents + [Extent(ib, cb)], ib + cb)
  {
  }

  lemma ExtentsWeaken(extents: seq<Extent>, cursor: nat, later: nat)
    requires ExtentsOk(extents, cursor) && cursor <= later
    ensures ExtentsOk(extents, later)
  {
  }

  /** Marking a new extent keeps the maps exact and the byte count conserved. */
  lemma MarkExact(cursor: nat, maps: seq<Buf>, extents: seq<Extent>, ib: nat, cb: nat)
    requires SpaceOk(cursor, maps, extents)
    requires cursor <= ib && ib % ALIGN == 0 && cb % ALIGN == 0 && 0 < cb <= MAX_BLOCK && Clear(ib, cb)
    ensures SpaceOk(ib + cb, MarkedMaps(maps, ib, cb), extents + [Extent(ib, cb)])
  {
    hide MapsExact, Conserved, ExtentsOk, Clear, Marked, Extended, AlignUp;
    var m := (ib - FIRST_AMAP) / AMAP_SPAN;
    ClearInOneSpan(ib, cb);
    ExtentsWeaken(extents, cursor, AMapPos(|maps|));
    ExtentsWeaken(extents, cursor, ib);
    ExtendExact(maps, extents, m + 1);
    var e := Extended(maps, m + 1);
    MarkOneExact(e, extents, m, ib, cb);
    MarkOneConserved(e, extents, m, ib, cb);
    ExtentsAppend(extents, ib, cb);
    AlignUpAligned(cb, ALIGN);
  }

  lemma TakenAppend(extents: seq<Extent>, x: Extent, pos: nat)
    ensures Taken(extents + [x], pos) <==> Taken(extents, pos) || x.ib <= pos < x.ib + x.cb
  {
    var g := extents + [x];
    assert g[|extents|] == x;
    forall i | 0 <= i < |extents| ensures g[i] == extents[i] {}
  }

  /** Nothing below the cursor reaches into a clear range above it. */
  lemma SlotFree(extents: seq<Extent>, ib: nat, cb: nat, pos: nat)
    requires ib >= FIRST_DATA && ExtentsOk(extents, ib) && Clear(ib, cb) && ib <= pos < ib + cb
    ensures !Taken(extents, pos)
  {
    assert IsReservedPage(pos - pos % PAGE) ==> false;
  }

  /** Two fixed pages are next to each other or nearly a span apart. */
  lemma ReservedGap(a: nat, b: nat)
    requires IsReservedPage(a) && IsReservedPage(b) && FIRST_AMAP <= a < b
    ensures b == a + PAGE || b >= a + AMAP_SPAN - PAGE
    ensures b == a + PAGE ==> (a - FIRST_AMAP) % AMAP_SPAN == 0
  {
    hide IsReservedPage;
    var i, d := ReservedForm(a);
    var j, e := ReservedForm(b);
    FormGap(i, d, j, e);
    if d == 0 { ModUnique(a - FIRST_AMAP, AMAP_SPAN, i, 0); }
  }

  lemma Scaled(a: nat, b: nat, w: nat)
    requires a <= b
    ensures a * w <= b * w
  {
  }

  /** Pages do not overlap. */
  lemma PagesOff(p: nat, q: nat)
    requires p % PAGE == 0 && q % PAGE == 0 && p < q
    ensures p + PAGE <= q
  {
    assert p == 512 * (p / 512) && q == 512 * (q / 512);
  }

  /** The places at the head of two spans. */
  lemma FormGap(i: nat, d: nat, j: nat, e: nat)
    requires d <= 1 && e <= 1 && i * AMAP_SPAN + d * PAGE < j * AMAP_SPAN + e * PAGE
    ensures (j * AMAP_SPAN + e * PAGE == i * AMAP_SPAN + d * PAGE + PAGE && d == 0)
            || j * AMAP_SPAN + e * PAGE >= i * AMAP_SPAN + d * PAGE + AMAP_SPAN - PAGE
  {
    if i < j { Scaled(i + 1, j, AMAP_SPAN); }
  }

  /** A fixed page from the first AMap on is the first or the second of its span. */
  lemma ReservedForm(p: nat) returns (k: nat, d: nat)
    requires IsReservedPage(p) && FIRST_AMAP <= p
    ensures d <= 1 && p == FIRST_AMAP + k * AMAP_SPAN + d * PAGE
  {
    if (p - FIRST_AMAP) % AMAP_SPAN == 0 {
      k, d := (p - FIRST_AMAP) / AMAP_SPAN, 0;
    } else {
      k, d := 8 * ((p - FIRST_PMAP) / PMAP_SPAN), 1;
    }
  }

  lemma AlignUpBounds(v: nat, a: nat)
    requires a > 0
    ensures v <= AlignUp(v, a) < v + a && AlignUp(v, a) % a == 0
  {
    var q := (v + a - 1) / a;
    assert v + a - 1 == a * q + (v + a - 1) % a;
    assert AlignUp(v, a) == a * q;
    ModUnique(a * q, a, q, 0);
  }

  /** Moving the cursor up to a page boundary loses nothing: spans end on one. */
  lemma AlignCursor(cursor: nat, maps: seq<Buf>, extents: seq<Extent>)
    requires SpaceOk(cursor, maps, extents)
    ensures SpaceOk(AlignUp(cursor, PAGE), maps, extents)
  {
    hide AlignUp, ExtentsOk, MapsExact, Conserved;
    AlignUpBounds(cursor, PAGE);
    PageAligned(AlignUp(cursor, PAGE), |maps|);
    ExtentsWeaken(extents, cursor, AlignUp(cursor, PAGE));
  }

  /** Spans end on a page, so the page behind a position in one is not behind its end. */
  lemma PageAligned(p: nat, n: nat)
    requires p % PAGE == 0
    ensures p % ALIGN == 0 && (p < AMapPos(n) + PAGE ==> p <= AMapPos(n))
  {
    ModUnique(p, ALIGN, 8 * (p / PAGE), 0);
    ModUnique(AMapPos(n), PAGE, 34 + 496 * n, 0);
    if AMapPos(n) < p { PagesOff(AMapPos(n), p); }
  }

  lemma InitialSpace()
    ensures Extended([], 1) == [FreshMap(0)] && SpaceOk(FIRST_DATA, [FreshMap(0)], [])
  {
    assert Extended([], 1) == Extended([], 0) + [FreshMap(0)];
    ExtendExactOnce([], []);
    ExtendConservedOnce([], []);
    assert [] + [FreshMap(0)] == [FreshMap(0)];
  }
}
