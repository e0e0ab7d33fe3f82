/** The parts of a table context ([MS-PST] section 2.3.4): row images, the row matrix, the
    row index and TCINFO. */
module TableFormat {
  import opened Bytes
  import opened Wrappers
  import opened Sorting
  import opened HeapFormat
  import opened BthFormat
  import opened RowLayout
  import Space
  import Bth

  const TC_SIGNATURE: byte := 0x7C

  // ------------------------------------------------------------------ rows

  /** The presence bit of column `k`. */
  predicate Present(raw: Buf, ceb: nat, k: nat) {
    ceb + k / 8 < |raw| && Space.BitSet(raw[ceb + k / 8], k % 8)
  }

  function MarkPresent(raw: Buf, ceb: nat, k: nat): (r: Buf)
    requires ceb + k / 8 < |raw|
    ensures |r| == |raw|
  {
    raw[ceb + k / 8 := Space.OrBit(raw[ceb + k / 8], k % 8)]
  }

  /** Column `k` of a row holds `cell`: its bytes are there and its bit is on, or off. */
  predicate CellIn(tags: seq<nat>, raw: Buf, k: nat, cell: Option<Buf>)
    requires k < |tags|
  {
    && (Present(raw, Bitmap(tags), k) <==> cell.Some?)
    && (cell.Some? ==> |cell.value| == Width(tags[k]) && Sub(raw, Ib(tags, k), Width(tags[k])) == cell.value)
  }

  predicate ImageOf(tags: seq<nat>, raw: Buf, cells: seq<Option<Buf>>) {
    |raw| == RowSize(tags) && |cells| == |tags| && forall k :: 0 <= k < |tags| ==> CellIn(tags, raw, k, cells[k])
  }

  function NoCells<T>(n: nat): (cells: seq<Option<T>>)
    ensures |cells| == n && forall k :: 0 <= k < n ==> cells[k] == None
  {
    seq(n, _ => None)
  }

  lemma EmptyRow(tags: seq<nat>)
    ensures ImageOf(tags, Zeros(RowSize(tags)), NoCells(|tags|))
  {
    forall k: nat | k < |tags| ensures !Present(Zeros(RowSize(tags)), Bitmap(tags), k) {
      ZeroBit(7 - k % 8);
    }
  }

  lemma {:induction false} ZeroBit(i: nat)
    ensures !Space.LowBit(0, i)
  {
    if i > 0 { ZeroBit(i - 1); }
  }

  /** Writing a cell: its bytes at its place, and its bit. */
  function PutCell(tags: seq<nat>, raw: Buf, k: nat, b: Buf): (r: Buf)
    requires Columns(tags) && |raw| == RowSize(tags) && k < |tags| && |b| == Width(tags[k])
    ensures |r| == |raw|
  {
    ColumnsPlaced(tags, k);
    MarkPresent(Poke(raw, Ib(tags, k), b), Bitmap(tags), k)
  }

  lemma MarkSets(raw: Buf, ceb: nat, k: nat, j: nat)
    requires ceb + k / 8 < |raw|
    ensures Present(MarkPresent(raw, ceb, k), ceb, j) <==> Present(raw, ceb, j) || j == k
  {
    Space.OrLowBitSets(raw[ceb + k / 8], 7 - k % 8, 7 - j % 8);
  }

  lemma PresentBehind(a: Buf, b: Buf, ceb: nat, k: nat)
    requires |a| == |b| && forall i :: ceb <= i < |a| ==> a[i] == b[i]
    ensures Present(a, ceb, k) == Present(b, ceb, k)
  {
  }

  /** A written cell reads back, and no other cell changes. */
  lemma PutCellImage(tags: seq<nat>, raw: Buf, cells: seq<Option<Buf>>, k: nat, b: Buf)
    requires Columns(tags) && ImageOf(tags, raw, cells) && k < |tags| && |b| == Width(tags[k])
    ensures ImageOf(tags, PutCell(tags, raw, k, b), cells[k := Some(b)])
  {
    hide Ib, Bitmap, RowSize, Width, Present, MarkPresent;
    ColumnsPlaced(tags, k);
    var ceb, poked, after := Bitmap(tags), Poke(raw, Ib(tags, k), b), PutCell(tags, raw, k, b);
    var now := cells[k := Some(b)];
    forall j | 0 <= j < |tags| ensures CellIn(tags, after, j, now[j]) {
      assert CellIn(tags, raw, j, cells[j]);
      ColumnsPlaced(tags, j);
      MarkSets(poked, ceb, k, j);
      PresentBehind(raw, poked, ceb, j);
      MarkKeeps(poked, ceb, k, Ib(tags, j), Width(tags[j]));
      if j < k { ColumnsDisjoint(tags, j, k); } else if k < j { ColumnsDisjoint(tags, k, j); }
      if j != k { PokeKeeps(raw, Ib(tags, k), b, Ib(tags, j), Width(tags[j])); }
    }
  }

  lemma MarkKeeps(raw: Buf, ceb: nat, k: nat, off: nat, n: nat)
    requires ceb + k / 8 < |raw| && off + n <= ceb
    ensures Sub(MarkPresent(raw, ceb, k), off, n) == Sub(raw, off, n)
  {
  }

  lemma PokeKeeps(raw: Buf, at: nat, b: Buf, off: nat, n: nat)
    requires at + |b| <= |raw| && off + n <= |raw| && (off + n <= at || at + |b| <= off)
    ensures Sub(Poke(raw, at, b), off, n) == Sub(raw, off, n)
  {
  }

  // ------------------------------------------------------------ the matrix

  function RowsPerBlock(rs: nat): (n: nat)
    requires rs > 0
  {
    BLOCK / rs
  }

  /** Rows do not straddle blocks, so the row number tells the place. */
  function RowAt(rs: nat, i: nat): nat {
    if 0 < rs <= BLOCK then
      PerBlockPositive(rs);
      i / RowsPerBlock(rs) * BLOCK + i % RowsPerBlock(rs) * rs
    else 0
  }

  lemma PerBlockPositive(rs: nat)
    requires 0 < rs <= BLOCK
    ensures RowsPerBlock(rs) >= 1 && RowsPerBlock(rs) * rs <= BLOCK
  {
    Bth.Scale(1, 1, rs);
    Bth.Quotient(BLOCK, rs, 1);
  }

  ghost predicate MatrixHolds(m: Buf, raws: seq<Buf>, rs: nat) {
    forall i :: 0 <= i < |raws| ==> RowAt(rs, i) + rs <= |m| && Sub(m, RowAt(rs, i), rs) == raws[i]
  }

  // ------------------------------------------------------------- row index

  function IndexRecords(ids: seq<nat>): (rs: seq<Record>)
    ensures |rs| == |ids| && forall i :: 0 <= i < |ids| ==> rs[i] == Record(Put32(ids[i]), Put32(i))
  {
    seq(|ids|, i requires 0 <= i < |ids| => Record(Put32(ids[i]), Put32(i)))
  }

  predicate DistinctRowIds(ids: seq<nat>) {
    && (forall i, j :: 0 <= i < j < |ids| ==> ids[i] != ids[j])
    && (forall i :: 0 <= i < |ids| ==> ids[i] < U32)
  }

  lemma IndexDistinct(ids: seq<nat>)
    requires DistinctRowIds(ids)
    ensures DistinctKeys(IndexRecords(ids), ByKey())
    ensures forall i :: 0 <= i < |ids| ==> Peek(IndexRecords(ids)[i].key) == ids[i]
  {
    hide Put32, Peek;
    forall i | 0 <= i < |ids| ensures Peek(IndexRecords(ids)[i].key) == ids[i] {
      PeekPut32(ids[i]);
    }
  }

  lemma IndexSized(ids: seq<nat>)
    ensures Sized(IndexRecords(ids), 4, 4)
  {
  }

  // ---------------------------------------------------------------- TCINFO

  predicate ColumnFits(c: Column) { c.tag < U32 && c.ib < U16 && c.cb < 256 && c.ibit < 256 }

  function DescBytes(c: Column): (b: Buf)
    requires ColumnFits(c)
    ensures |b| == 8
  {
    Put32(c.tag) + Put16(c.ib) + [c.cb, c.ibit]
  }

  function DescsBytes(cs: seq<Column>): (b: Buf)
    requires forall k :: 0 <= k < |cs| ==> ColumnFits(cs[k])
    ensures |b| == 8 * |cs|
  {
    if cs == [] then [] else assert ColumnFits(cs[0]); DescBytes(cs[0]) + DescsBytes(cs[1..])
  }

  function Descriptors(b: Buf): (cs: seq<Column>)
    decreases |b|
  {
    if |b| < 8 then []
    else [Column(Peek32At(b, 0), Peek16At(b, 4), b[6], b[7])] + Descriptors(b[8..])
  }

  lemma DescReads(c: Column, rest: Buf)
    requires ColumnFits(c)
    ensures Descriptors(DescBytes(c) + rest) == [c] + Descriptors(rest)
  {
    hide Put32, Put16, Peek;
    var b := DescBytes(c) + rest;
    PeekPut32(c.tag);
    PeekPut16(c.ib);
    assert b[0..4] == Put32(c.tag) && b[4..6] == Put16(c.ib) && b[8..] == rest;
  }

  lemma {:induction false} DescsRead(cs: seq<Column>)
    requires forall k :: 0 <= k < |cs| ==> ColumnFits(cs[k])
    ensures Descriptors(DescsBytes(cs)) == cs
  {
    hide DescBytes, Descriptors;
    if cs != [] {
      DescReads(cs[0], DescsBytes(cs[1..]));
      DescsRead(cs[1..]);
    } else {
      NoDescriptors();
    }
  }

  lemma NoDescriptors()
    ensures Descriptors([]) == []
  {
  }

  function ByTag(): Column -> nat { (c: Column) => c.tag }

  /** Signature, column count, the four offsets, row index, rows, nothing, descriptors. */
  function InfoHead(n: byte, rgib: seq<nat>, rowIndex: nat, hnidRows: nat): (b: Buf)
    requires |rgib| == 4
    ensures |b| == 22
  {
    [TC_SIGNATURE, n] + Put16(rgib[0]) + Put16(rgib[1]) + Put16(rgib[2]) + Put16(rgib[3])
    + Put32(rowIndex) + Put32(hnidRows) + Put32(0)
  }

  predicate TagsFit(tags: seq<nat>) {
    Columns(tags) && (forall k :: 0 <= k < |tags| ==> tags[k] < U32) && forall j, k :: 0 <= j < k < |tags| ==> tags[j] != tags[k]
  }

  lemma ColumnsFit(tags: seq<nat>)
    requires TagsFit(tags)
    ensures var cs := SortBy(LayoutOf(tags).columns, ByTag());
            && |cs| == |tags| <= 255 && (forall k :: 0 <= k < |cs| ==> ColumnFits(cs[k]))
            && (forall c :: c in cs <==> exists k :: 0 <= k < |tags| && c == ColumnOf(tags, k))
    ensures |LayoutOf(tags).rgib| == 4
  {
    hide Ib, Width, Bitmap, RowSize, Base, Count;
    var columns := LayoutOf(tags).columns;
    var cs := SortBy(columns, ByTag());
    forall k | 0 <= k < |cs| ensures ColumnFits(cs[k]) {
      SameMember(cs, columns, cs[k]);
      var j :| 0 <= j < |columns| && columns[j] == cs[k];
      ColumnsPlaced(tags, j);
      WidthCases(tags[j]);
    }
    forall c ensures c in cs <==> exists k :: 0 <= k < |tags| && c == ColumnOf(tags, k) {
      if c in cs {
        SameMember(cs, columns, c);
        var j :| 0 <= j < |columns| && columns[j] == c;
        assert c == ColumnOf(tags, j);
      }
      if k :| 0 <= k < |tags| && c == ColumnOf(tags, k) {
        assert columns[k] == c;
        SameMember(columns, cs, c);
      }
    }
  }

  function Info(tags: seq<nat>, rowIndex: nat, hnidRows: nat): (b: Buf)
    requires TagsFit(tags)
    ensures |b| == 22 + 8 * |tags|
  {
    ColumnsFit(tags);
    InfoHead(|tags|, LayoutOf(tags).rgib, rowIndex, hnidRows) + DescsBytes(SortBy(LayoutOf(tags).columns, ByTag()))
  }

  function FindColumn(cs: seq<Column>, tag: nat): (r: Option<Column>)
    ensures r.Some? ==> r.value in cs && r.value.tag == tag
    ensures r.None? ==> forall c :: c in cs ==> c.tag != tag
  {
    if cs == [] then None else if cs[0].tag == tag then Some(cs[0]) else FindColumn(cs[1..], tag)
  }

  function FindTag(tags: seq<nat>, tag: nat): (r: Option<nat>)
    ensures r.Some? ==> r.value < |tags| && tags[r.value] == tag
    ensures r.None? ==> tag !in tags
  {
    if tags == [] then None
    else if tags[0] == tag then Some(0)
    else
      match FindTag(tags[1..], tag)
      case None => None
      case Some(k) => Some(k + 1)
  }

  lemma HeadReads(n: byte, rgib: seq<nat>, rowIndex: nat, hnidRows: nat)
    requires |rgib| == 4 && rgib[2] < U16 && rgib[3] < U16 && rowIndex < U32 && hnidRows < U32
    ensures var b := InfoHead(n, rgib, rowIndex, hnidRows);
            && Peek16At(b, 6) == rgib[2] && Peek16At(b, 8) == rgib[3]
            && Peek32At(b, 10) == rowIndex && Peek32At(b, 14) == hnidRows
  {
    hide Put32, Put16, Peek;
    var b := InfoHead(n, rgib, rowIndex, hnidRows);
    PeekPut16(rgib[2]);
    PeekPut16(rgib[3]);
    PeekPut32(rowIndex);
    PeekPut32(hnidRows);
    assert b[6..8] == Put16(rgib[2]) && b[8..10] == Put16(rgib[3]);
    assert b[10..14] == Put32(rowIndex) && b[14..18] == Put32(hnidRows);
  }

  lemma SubOfFront(a: Buf, b: Buf, off: nat, n: nat)
    requires off + n <= |a|
    ensures Sub(a + b, off, n) == Sub(a, off, n)
  {
  }

  /** The fields of TCINFO a reader follows. */
  lemma InfoReads(tags: seq<nat>, rowIndex: nat, hnidRows: nat)
    requires TagsFit(tags) && rowIndex < U32 && hnidRows < U32
    ensures var b := Info(tags, rowIndex, hnidRows);
            && Peek16At(b, 6) == Bitmap(tags) && Peek16At(b, 8) == RowSize(tags)
            && Peek32At(b, 10) == rowIndex && Peek32At(b, 14) == hnidRows
            && Descriptors(b[22..]) == SortBy(LayoutOf(tags).columns, ByTag())
  {
    hide Bitmap, RowSize, Base, Peek, InfoHead, SortBy, Descriptors, DescsBytes;
    RowSizeBound(tags);
    ColumnsFit(tags);
    var rgib, cs := LayoutOf(tags).rgib, SortBy(LayoutOf(tags).columns, ByTag());
    HeadReads(|tags|, rgib, rowIndex, hnidRows);
    var head, descs := InfoHead(|tags|, rgib, rowIndex, hnidRows), DescsBytes(cs);
    SubOfFront(head, descs, 6, 2);
    SubOfFront(head, descs, 8, 2);
    SubOfFront(head, descs, 10, 4);
    SubOfFront(head, descs, 14, 4);
    DescsRead(cs);
    assert (head + descs)[22..] == descs;
  }

  /** A descriptor is found by its tag wherever sorting put it. */
  lemma DescriptorOf(tags: seq<nat>, tag: nat)
    requires TagsFit(tags)
    ensures var r := FindColumn(SortBy(LayoutOf(tags).columns, ByTag()), tag);
            match FindTag(tags, tag)
            case None => r == None
            case Some(k) => r == Some(ColumnOf(tags, k))
  {
    hide SortBy, Ib, Width;
    ColumnsFit(tags);
    var cs := SortBy(LayoutOf(tags).columns, ByTag());
    var r := FindColumn(cs, tag);
    if r.Some? {
      var k :| 0 <= k < |tags| && r.value == ColumnOf(tags, k);
    }
    if FindTag(tags, tag).Some? {
      assert ColumnOf(tags, FindTag(tags, tag).value) in cs;
    }
  }
}
