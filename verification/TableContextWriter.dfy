/** The streaming table context: rows go out block by block, and never more than one row
    is held. It gives a reader the same answers as the in-memory table. */
module TableContextWriter {
  import opened Bytes
  import opened NodeId
  import opened Wrappers
  import opened Sorting
  import opened HeapFormat
  import opened BthFormat
  import opened DataTree
  import opened SubnodeTree
  import opened SubnodeAllocator
  import opened PropertyContext
  import opened RowLayout
  import opened TableFormat
  import opened TableReader
  import opened RowMatrix
  import opened RowStream
  import opened TableContext
  import StreamingHeap
  import Bth
  import Ndb
  import ContextArchive
  import Ownership

  // ------------------------------------------------------- what is tracked

  /** Rows that are complete, as far as the heap, the subnodes and the images go. */
  ghost predicate Done(sound: bool, h: Heap, blocks: Store, entries: seq<SubEntry>, tags: seq<nat>, rows: seq<Row>, images: seq<Buf>) {
    && (forall i :: 0 <= i < |rows| ==> RowFits(tags, rows[i])) && |images| == |rows|
    && (sound ==> RowsDone(h, blocks, entries, tags, rows, images))
  }

  /** The row being built. */
  ghost predicate Building(sound: bool, h: Heap, blocks: Store, entries: seq<SubEntry>, tags: seq<nat>, row: Row,
                           image: Buf, raws: seq<Option<Buf>>)
  {
    RowFits(tags, row) && ImageOf(tags, image, raws) && (sound ==> RowLeads(h, blocks, entries, row.cells, raws))
  }

  lemma NoneDone(sound: bool, h: Heap, blocks: Store, entries: seq<SubEntry>, tags: seq<nat>)
    ensures Done(sound, h, blocks, entries, tags, [], [])
  {
  }

  lemma DoneGrow(x: bool, y: bool, h: Heap, g: Heap, a: Store, b: Store, d: seq<SubEntry>, e: seq<SubEntry>, tags: seq<nat>,
                 rows: seq<Row>, images: seq<Buf>)
    requires ReadsMore(InHeap(h), InHeap(g)) && Extends(a, b) && d <= e && (y ==> x) && Done(x, h, a, d, tags, rows, images)
    ensures Done(y, g, b, e, tags, rows, images)
  {
    hide RowFits, RowsDone, ReadsMore, InHeap;
    if y { RowsDoneGrow(h, g, a, b, d, e, tags, rows, images); }
  }

  lemma BuildingGrow(x: bool, y: bool, h: Heap, g: Heap, a: Store, b: Store, d: seq<SubEntry>, e: seq<SubEntry>, tags: seq<nat>,
                     row: Row, image: Buf, raws: seq<Option<Buf>>)
    requires ReadsMore(InHeap(h), InHeap(g)) && Extends(a, b) && d <= e && (y ==> x)
    requires Building(x, h, a, d, tags, row, image, raws)
    ensures Building(y, g, b, e, tags, row, image, raws)
  {
    hide RowFits, RowLeads, ReadsMore, InHeap, ImageOf;
    if y { RowLeadsGrow(h, g, a, b, d, e, row.cells, raws); }
  }

  lemma BuildingStart(sound: bool, h: Heap, blocks: Store, entries: seq<SubEntry>, tags: seq<nat>, id: nat)
    requires id < U32
    ensures Building(sound, h, blocks, entries, tags, Row(id, NoCells(|tags|)), Zeros(RowSize(tags)), NoCells(|tags|))
  {
    hide RowSize;
    EmptyRow(tags);
    forall k | 0 <= k < |tags| ensures CellLeads(h, blocks, entries, NoCells(|tags|)[k], NoCells(|tags|)[k]) {
      NoneLeads(h, blocks, entries);
    }
  }

  /** A cell written. */
  lemma BuildingSet(sound: bool, h: Heap, blocks: Store, entries: seq<SubEntry>, tags: seq<nat>, row: Row, image: Buf,
                    raws: seq<Option<Buf>>, k: nat, cell: Cell, raw: Buf)
    requires TagsFit(tags) && k < |tags| && CellFits(tags[k], cell) && |raw| == Width(tags[k])
    requires Building(sound, h, blocks, entries, tags, row, image, raws)
    requires sound ==> CellLeads(h, blocks, entries, Some(cell), Some(raw))
    ensures |image| == RowSize(tags) && |raws| == |tags|
    ensures Building(sound, h, blocks, entries, tags, WithCell(tags, row, tags[k], cell), PutCell(tags, image, k, raw), raws[k := Some(raw)])
  {
    hide CellLeads, CellFits, RowSize, CellIn, PutCell;
    PutCellImage(tags, image, raws, k, raw);
    var t := FindTag(tags, tags[k]).value;
    assert t == k;
    if sound {
      var cells, now := row.cells[k := Some(cell)], raws[k := Some(raw)];
      forall j | 0 <= j < |cells| ensures CellLeads(h, blocks, entries, cells[j], now[j]) {
        if j != k { assert CellLeads(h, blocks, entries, row.cells[j], raws[j]); }
      }
    }
  }

  lemma DoneSnoc(sound: bool, h: Heap, blocks: Store, entries: seq<SubEntry>, tags: seq<nat>, rows: seq<Row>, images: seq<Buf>,
                 row: Row, image: Buf, raws: seq<Option<Buf>>)
    requires Done(sound, h, blocks, entries, tags, rows, images) && Building(sound, h, blocks, entries, tags, row, image, raws)
    ensures Done(sound, h, blocks, entries, tags, rows + [row], images + [image]) && |image| == RowSize(tags)
  {
    hide RowFits, RowLeads, RowsDone, RowSize, CellIn;
    if sound {
      RowIsDone(h, blocks, entries, tags, row, image, raws);
      RowsDoneSnoc(h, blocks, entries, tags, rows, images, row, image);
    }
  }

  /** Row ids and ordinals. */
  function Ordinals(rows: seq<Row>): (ps: seq<(nat, nat)>)
    ensures |ps| == |rows| && forall i :: 0 <= i < |rows| ==> ps[i] == (rows[i].id, i)
  {
    seq(|rows|, i requires 0 <= i < |rows| => (rows[i].id, i))
  }

  /** Column tags: the pinned two, then each declared one once. */
  function Declared(columns: seq<nat>): (tags: seq<nat>)
    ensures |tags| <= |columns| + 2
  {
    if columns == [] then [TAG_ROW_ID, TAG_ROW_VER]
    else
      var tags := Declared(columns[..|columns| - 1]);
      if columns[|columns| - 1] in tags then tags else tags + [columns[|columns| - 1]]
  }

  lemma {:induction false} DeclaredFits(columns: seq<nat>)
    requires |columns| + 2 <= MAX_COLUMNS && forall i :: 0 <= i < |columns| ==> columns[i] < U32
    ensures TagsFit(Declared(columns)) && Declared(columns)[0] == TAG_ROW_ID && Declared(columns)[1] == TAG_ROW_VER
    ensures forall tag :: tag in Declared(columns) <==> tag in columns || tag == TAG_ROW_ID || tag == TAG_ROW_VER
  {
    if columns != [] {
      DeclaredFits(columns[..|columns| - 1]);
      assert columns == columns[..|columns| - 1] + [columns[|columns| - 1]];
    }
  }

  // ---------------------------------------------------------------- class

  class TableContextWriter {
    const ndb: Ndb.NdbWriter
    const tags: seq<nat>
    const layout: Layout
    const rowsPerBlock: nat
    const heap: StreamingHeap.StreamingHeap
    const subs: SubnodeAllocator

    var rowBlock: Buf
    var rowLeaves: seq<nat>
    var rowBytes: nat
    var currentRow: Buf
    var inRow: bool
    var rowCount: nat
    var rowIndex: seq<(nat, nat)>

    /** The rows so far and their images; the row being built and its references. */
    ghost var rows: seq<Row>
    ghost var images: seq<Buf>
    ghost var row: Row
    ghost var raws: seq<Option<Buf>>

    /** Until ids run out or the file outgrows its offsets everything can be read back. */
    ghost predicate Readable()
      reads this, subs, ndb
    {
      ndb.Fits64() && subs.nextIndex <= MAX_INDEX
    }

    /** What the table holds of the NDB layer: its heap's blocks, its spilled values and its
        full row blocks. */
    ghost function Held(): Ownership.Holding
      reads `rowLeaves, heap, heap.ndb, subs, subs.ndb
    {
      HeldWith(multiset(rowLeaves))
    }

    ghost function HeldWith(more: multiset<nat>): Ownership.Holding
      reads heap, heap.ndb, subs, subs.ndb
    {
      var both := Together(Bth.Streamed(heap), subs);
      Ownership.Holding(both.blocks, both.order, both.loose + more)
    }

    /** What no block or node refers to yet. */
    ghost function Loose(): multiset<nat>
      reads `rowLeaves, heap, subs
    {
      heap.Loose() + Ownership.EntriesRefs(subs.entries) + multiset(rowLeaves)
    }

    lemma HeldIs()
      requires heap.ndb == ndb && subs.ndb == ndb
      ensures Held() == Ownership.Holding(ndb.blocks, Ndb.BidsOf(ndb.bbt), Loose())
    {
    }

    /** Writes made elsewhere leave the table as it is. */
    twostate lemma Survives()
      requires old(Valid()) && unchanged(this) && unchanged(heap) && unchanged(subs) && ndb.Valid() && ndb.Grown()
      ensures Valid()
    {
      hide ndb.Valid, RowsOut, Done, RowSize, Building, heap.Valid, InHeap, ReadsMore, heap.Contents, Numbered, LayoutOf, TagsFit;
      Bth.Streamed(heap).Survives();
      ghost var h := heap.Contents();
      Bth.CoversItself(InHeap(h));
      DoneGrow(old(Readable()), Readable(), h, h, old(ndb.blocks), ndb.blocks, subs.entries, subs.entries, tags, rows, images);
      if inRow {
        BuildingGrow(old(Readable()), Readable(), h, h, old(ndb.blocks), ndb.blocks, subs.entries, subs.entries, tags, row, currentRow, raws);
      }
      RowsOutGrow(old(ndb.blocks), ndb.blocks, rowLeaves, rowBlock, images, RowSize(tags), rowBytes);
      if subs.nextIndex <= MAX_INDEX { NumberedGrow(old(ndb.blocks), ndb.blocks, subs.entries, subs.nextIndex); }
    }

    lemma HeldPasses()
      requires subs.ndb.Valid()
      ensures Ownership.Passes(Held(), Held())
    {
      hide Ndb.NdbWriter.Valid, Ownership.Law;
      subs.ndb.OrderPresent();
      Ownership.PassesSame(Held());
    }

    ghost predicate Valid()
      reads this, heap, subs, ndb
    {
      && heap.ndb == ndb && subs.ndb == ndb && heap.Valid() && heap.clientSig == TC_SIGNATURE && Shape()
      && (subs.nextIndex <= MAX_INDEX ==> subs.Good())
      && RowsOut(ndb.blocks, rowLeaves, rowBlock, images, RowSize(tags), rowBytes)
      && Done(Readable(), heap.Contents(), ndb.blocks, subs.entries, tags, rows, images)
      && (inRow ==> Building(Readable(), heap.Contents(), ndb.blocks, subs.entries, tags, row, currentRow, raws))
    }

    ghost predicate Shape()
      reads this
    {
      && TagsFit(tags) && tags[0] == TAG_ROW_ID && tags[1] == TAG_ROW_VER && layout == LayoutOf(tags)
      && RowSize(tags) > 0 && rowsPerBlock == RowsPerBlock(RowSize(tags)) && rowCount == |rows|
      && rowIndex == Ordinals(rows) + if inRow then [(row.id, |rows|)] else []
    }

    constructor (ndb: Ndb.NdbWriter, columns: seq<nat>)
      requires ndb.Valid() && |columns| + 2 <= MAX_COLUMNS && forall i :: 0 <= i < |columns| ==> columns[i] < U32
      ensures Valid() && this.ndb == ndb && tags == Declared(columns) && rows == [] && !inRow && fresh(heap) && fresh(subs)
      ensures Loose() == multiset{} && |heap.Contents()| == 1 && subs.entries == [] && subs.nextIndex == 1
    {
      hide ndb.Valid, RowsOut, Done, RowSize, Declared, LayoutOf, StreamingHeap.StreamingHeap.Valid, TagsFit, Columns;
      var declared := [TAG_ROW_ID, TAG_ROW_VER];
      DeclaredNone();
      for i := 0 to |columns|
        invariant declared == Declared(columns[..i])
      {
        DeclaredNext(columns, i);
        if columns[i] !in declared {
          declared := declared + [columns[i]];
        }
      }
      assert columns[..|columns|] == columns;
      DeclaredFits(columns);
      FitColumns(declared);
      RowSizeBound(declared);
      var r := ComputeLayout(declared);
      var h := new StreamingHeap.StreamingHeap(ndb, TC_SIGNATURE);
      var s := new SubnodeAllocator(ndb);
      NoRowsOut(ndb.blocks, RowSize(declared));
      NoneDone(ndb.Fits64() && s.nextIndex <= MAX_INDEX, [[]], ndb.blocks, [], declared);
      this.ndb := ndb;
      tags := declared;
      layout := r;
      rowsPerBlock := RowsPerBlock(RowSize(declared));
      heap := h;
      subs := s;
      rowBlock, rowLeaves, rowBytes, currentRow, inRow, rowCount, rowIndex := [], [], 0, [], false, 0, [];
      rows, images, row, raws := [], [], Row(0, []), [];
    }

    method ColumnIndex(tag: nat) returns (r: Option<nat>)
      requires layout == LayoutOf(tags)
      ensures r.Some? <==> tag in tags
      ensures r.Some? ==> r.value < |tags| && tags[r.value] == tag
    {
      for i := 0 to |tags|
        invariant tag !in tags[..i]
      {
        if layout.columns[i].tag == tag {
          return Some(i);
        }
      }
      return None;
    }

    /** A cell's bytes and its presence bit, into the row being built. */
    method WriteCell(k: nat, ghost cell: Cell, raw: Buf)
      requires Valid() && inRow && k < |tags| && CellFits(tags[k], cell) && |raw| == Width(tags[k])
      requires Readable() ==> CellLeads(heap.Contents(), ndb.blocks, subs.entries, Some(cell), Some(raw))
      modifies `currentRow, `row, `raws
      ensures Valid() && inRow && row == WithCell(tags, old(row), tags[k], cell)
    {
      hide ndb.Valid, RowsOut, Done, RowSize, Building, PutCell, heap.Valid, CellFits, Columns, Ib, Bitmap, Width, subs.Good, CellLeads;
      FitColumns(tags);
      BuildingSet(Readable(), heap.Contents(), ndb.blocks, subs.entries, tags, row, currentRow, raws, k, cell, raw);
      currentRow := PutCell(tags, currentRow, k, raw);
      row := WithCell(tags, row, tags[k], cell);
      raws := raws[k := Some(raw)];
    }

    /** The fixed-width setters: the bytes go into the row at once. */
    method SetFixed(tag: nat, data: Buf) returns (r: Result<()>)
      requires Valid() && inRow && CellFits(tag, Fixed(data))
      modifies `currentRow, `row, `raws
      ensures Valid() && inRow && (r.Ok? <==> tag in tags) && (r.Err? ==> unchanged(this))
      ensures r.Ok? ==> row == WithCell(tags, old(row), tag, Fixed(data))
    {
      hide Valid, CellFits, Width;
      Layouts();
      var k := ColumnIndex(tag);
      if k.None? {
        return Err("table column not declared");
      }
      FixedWidth(tag, data);
      FixedLeads(heap.Contents(), ndb.blocks, subs.entries, Fixed(data), data);
      WriteCell(k.value, Fixed(data), data);
      return Ok(());
    }

    lemma Layouts()
      requires Valid()
      ensures layout == LayoutOf(tags) && heap.ndb == ndb && subs.ndb == ndb && heap.Valid() && ndb.Valid()
      ensures subs.nextIndex <= MAX_INDEX ==> subs.Good()
    {
      hide ndb.Valid, RowsOut, Done, Building;
    }

    method SetInt16(tag: nat, v: nat) returns (r: Result<()>)
      requires Valid() && inRow && v < U16 && FixedSize(TagType(tag)) == 2
      modifies `currentRow, `row, `raws
      ensures Valid() && inRow && (r.Ok? <==> tag in tags) && (r.Err? ==> unchanged(this))
      ensures r.Ok? ==> row == WithCell(tags, old(row), tag, Fixed(Put16(v)))
    {
      hide Valid;
      r := SetFixed(tag, Put16(v));
    }

    method SetInt32(tag: nat, v: nat) returns (r: Result<()>)
      requires Valid() && inRow && v < U32 && FixedSize(TagType(tag)) == 4
      modifies `currentRow, `row, `raws
      ensures Valid() && inRow && (r.Ok? <==> tag in tags) && (r.Err? ==> unchanged(this))
      ensures r.Ok? ==> row == WithCell(tags, old(row), tag, Fixed(Put32(v)))
    {
      hide Valid;
      r := SetFixed(tag, Put32(v));
    }

    method SetBool(tag: nat, v: bool) returns (r: Result<()>)
      requires Valid() && inRow && FixedSize(TagType(tag)) == 1
      modifies `currentRow, `row, `raws
      ensures Valid() && inRow && (r.Ok? <==> tag in tags) && (r.Err? ==> unchanged(this))
      ensures r.Ok? ==> row == WithCell(tags, old(row), tag, Fixed([if v then 1 else 0]))
    {
      hide Valid;
      r := SetFixed(tag, [if v then 1 else 0]);
    }

    method SetInt64(tag: nat, v: nat) returns (r: Result<()>)
      requires Valid() && inRow && v < U64 && FixedSize(TagType(tag)) == 8
      modifies `currentRow, `row, `raws
      ensures Valid() && inRow && (r.Ok? <==> tag in tags) && (r.Err? ==> unchanged(this))
      ensures r.Ok? ==> row == WithCell(tags, old(row), tag, Fixed(Put64(v)))
    {
      hide Valid;
      r := SetFixed(tag, Put64(v));
    }

    /** Puts a variable-width value where it belongs; the rows so far stay readable. */
    method PlaceValue(data: Buf) returns (r: Result<nat>)
      requires Valid()
      modifies heap, subs, ndb
      ensures r.Ok? ==> Valid() && r.value < U32
      ensures r.Ok? && Readable() ==> RefLeads(heap.Contents(), ndb.blocks, subs.entries, data, r.value)
      ensures ndb.Valid() && ndb.Grown() && ndb.nbt == old(ndb.nbt) && subs.Kept()
      ensures r.Err? ==> |data| >= U32 || |old(heap.Contents())| >= MAX_BLOCKS
      ensures r.Ok? ==> |heap.Contents()| <= |old(heap.Contents())| + 1 && subs.nextIndex <= old(subs.nextIndex) + 1
      ensures r.Ok? && ndb.Fits64() ==> Ownership.Passes(old(Held()), Held())
    {
      hide ndb.Valid, RowsOut, Done, RowSize, Building, heap.Valid, RefLeads, InHeap, ReadsMore, heap.Contents, Numbered, LayoutOf,
           Together, Ownership.Passes;
      Layouts();
      ghost var h, blocks, entries, sound, good := heap.Contents(), ndb.blocks, subs.entries, Readable(), subs.Good();
      ghost var both := Together(Bth.Streamed(heap), subs);
      r := PlaceVariable(Bth.Streamed(heap), subs, data);
      if r.Ok? && ndb.Fits64() { Ownership.PassesBeside(both, Together(Bth.Streamed(heap), subs), multiset(rowLeaves)); }
      if r.Ok? {
        assert Readable() ==> Sound(good, subs);
        DoneGrow(sound, Readable(), h, heap.Contents(), blocks, ndb.blocks, entries, subs.entries, tags, rows, images);
        if inRow {
          BuildingGrow(sound, Readable(), h, heap.Contents(), blocks, ndb.blocks, entries, subs.entries, tags, row, currentRow, raws);
        }
        RowsOutGrow(blocks, ndb.blocks, rowLeaves, rowBlock, images, RowSize(tags), rowBytes);
      }
    }

    /** A variable-width value: the row gets a reference, the bytes go elsewhere now. */
    method SetBinary(tag: nat, data: Buf) returns (r: Result<()>)
      requires Valid() && inRow && CellFits(tag, Var(data))
      modifies this, heap, subs, ndb
      ensures r.Ok? ==> Valid() && inRow && rows == old(rows) && tag in tags && row == WithCell(tags, old(row), tag, Var(data))
      ensures tag !in tags ==> r.Err? && unchanged(this) && Valid()
      ensures ndb.Valid() && ndb.Grown() && ndb.nbt == old(ndb.nbt) && subs.Kept()
      ensures r.Err? ==> tag !in tags || |data| >= U32 || |old(heap.Contents())| >= MAX_BLOCKS
      ensures r.Ok? ==> |heap.Contents()| <= |old(heap.Contents())| + 1 && subs.nextIndex <= old(subs.nextIndex) + 1
      ensures r.Ok? && ndb.Fits64() ==> Ownership.Passes(old(Held()), Held())
    {
      hide Together, Ownership.Passes, ndb.Valid, Valid, CellFits, Width, Put32, CellLeads, RefLeads, heap.Contents, Numbered;
      Layouts();
      var k := ColumnIndex(tag);
      if k.None? {
        return Err("table column not declared");
      }
      var hnid := PlaceValue(data);
      if hnid.Err? {
        return Err(hnid.reason);
      }
      FitsKind(tag, Var(data));
      VariableWidth(tag, Var(data));
      if Readable() { VariableLeads(heap.Contents(), ndb.blocks, subs.entries, data, hnid.value); }
      WriteCell(k.value, Var(data), Put32(hnid.value));
      return Ok(());
    }

    method BeginRow(id: nat) returns (r: Result<()>)
      requires Valid() && id < U32
      modifies `inRow, `currentRow, `rowIndex, `row, `raws
      ensures Valid() && inRow && rows == old(rows)
      ensures r.Err? <==> old(inRow)
      ensures r.Err? ==> unchanged(this)
      ensures r.Ok? ==> row == Row(id, [Some(Fixed(Put32(id))), Some(Fixed(Put32(1)))] + NoCells(|tags| - 2))
    {
      hide Valid, Put32, WithCell;
      if inRow {
        return Err("beginRow called inside a row");
      }
      OpenRow(id);
      PinnedTags();
      ghost var cells := row.cells;
      var a := SetInt32(TAG_ROW_ID, id);
      var b := SetInt32(TAG_ROW_VER, 1);
      PinnedCells(tags, id);
      assert row.cells == [Some(Fixed(Put32(id))), Some(Fixed(Put32(1)))] + NoCells(|tags| - 2);
      return Ok(());
    }

    lemma PinnedTags()
      requires Valid()
      ensures |tags| >= 2 && FindTag(tags, TAG_ROW_ID) == Some(0) && FindTag(tags, TAG_ROW_VER) == Some(1)
    {
      hide ndb.Valid, RowsOut, Done, Building;
    }

    method OpenRow(id: nat)
      requires Valid() && !inRow && id < U32
      modifies `inRow, `currentRow, `rowIndex, `row, `raws
      ensures Valid() && inRow && rows == old(rows) && row == Row(id, NoCells(|tags|))
    {
      hide ndb.Valid, RowsOut, Done, RowSize, Building, heap.Valid, subs.Good;
      inRow := true;
      currentRow := Zeros(RowSize(tags));
      rowIndex := rowIndex + [(id, rowCount)];
      row, raws := Row(id, NoCells(|tags|)), NoCells(|tags|);
      BuildingStart(Readable(), heap.Contents(), ndb.blocks, subs.entries, tags, id);
    }

    /** Closes the row; a block that is full goes out first. */
    method EndRow() returns (r: Result<()>)
      requires Valid()
      modifies this, ndb
      ensures Valid() && !inRow && ndb.Grown() && ndb.nbt == old(ndb.nbt)
      ensures r.Ok? <==> old(inRow)
      ensures r.Err? ==> unchanged(this) && unchanged(ndb)
      ensures r.Ok? ==> rows == old(rows) + [old(row)] && Ownership.Passes(old(Held()), Held())
    {
      hide Ownership.Passes, Ownership.EntriesRefs, Ndb.BidsOf, ndb.Valid, RowsOut, Done, RowSize, Building, heap.Valid, Numbered,
           InHeap, FirstRow, RowsPerBlock, LayoutOf, TagsFit;
      if !inRow {
        return Err("endRow without beginRow");
      }
      Layouts();
      ghost var h, before, sound := heap.Contents(), ndb.blocks, Readable();
      DoneSnoc(sound, h, ndb.blocks, subs.entries, tags, rows, images, row, currentRow, raws);
      inRow := false;
      label Before:
      ghost var passed := Together(Bth.Streamed(heap), subs).loose;
      AppendRow(passed);
      Bth.Streamed(heap).Survives@Before();
      Bth.CoversItself(InHeap(h));
      DoneGrow(sound, Readable(), h, h, before, ndb.blocks, subs.entries, subs.entries, tags, rows + [row], images + [currentRow]);
      if subs.nextIndex <= MAX_INDEX { NumberedGrow(before, ndb.blocks, subs.entries, subs.nextIndex); }
      rowCount := rowCount + 1;
      rows, images := rows + [row], images + [currentRow];
      return Ok(());
    }

    /** The row goes behind the others, after a block that is full went out. */
    method AppendRow(ghost held: multiset<nat>)
      requires ndb.Valid() && RowsOut(ndb.blocks, rowLeaves, rowBlock, images, RowSize(tags), rowBytes)
      requires |currentRow| == RowSize(tags) && rowsPerBlock == RowsPerBlock(RowSize(tags))
      modifies `rowBlock, `rowLeaves, `rowBytes, ndb
      ensures ndb.Valid() && ndb.Grown() && ndb.nbt == old(ndb.nbt)
      ensures RowsOut(ndb.blocks, rowLeaves, rowBlock, images + [currentRow], RowSize(tags), rowBytes)
      ensures Ownership.Passes(Ownership.Holding(old(ndb.blocks), old(Ndb.BidsOf(ndb.bbt)), held + multiset(old(rowLeaves))),
                               Ownership.Holding(ndb.blocks, Ndb.BidsOf(ndb.bbt), held + multiset(rowLeaves)))
    {
      hide ndb.Valid, RowsOut, RowSize, FirstRow, RowsPerBlock, Ndb.BidsOf, Ownership.Passes, Ownership.Law;
      ndb.OrderPresent();
      Ownership.PassesSame(Ownership.Holding(ndb.blocks, Ndb.BidsOf(ndb.bbt), held + multiset(rowLeaves)));
      ghost var before, leaves, block, bytes := ndb.blocks, rowLeaves, rowBlock, rowBytes;
      RoomInBlock(before, leaves, block, images, RowSize(tags), bytes);
      if |rowBlock| + RowSize(tags) > rowsPerBlock * RowSize(tags) {
        var leaf := FlushPadded(held);
        AppendAfterFlush(before, ndb.blocks, leaves, block, images, RowSize(tags), bytes, currentRow, leaf);
        assert [] + currentRow == currentRow;
      } else {
        RoomFor(leaves, images, RowSize(tags), block, before, bytes);
        AppendInBlock(before, leaves, block, images, RowSize(tags), bytes, currentRow);
      }
      rowBlock := rowBlock + currentRow;
    }

    /** Pads the block being filled and hands it over. */
    method FlushPadded(ghost held: multiset<nat>) returns (ghost leaf: nat)
      requires ndb.Valid() && 0 < |rowBlock| <= BLOCK
      modifies `rowBlock, `rowLeaves, `rowBytes, ndb
      ensures ndb.Valid() && ndb.Grown() && ndb.nbt == old(ndb.nbt)
      ensures rowBlock == [] && rowLeaves == old(rowLeaves) + [leaf] && rowBytes == old(rowBytes) + BLOCK
      ensures leaf in ndb.blocks && !IsInternal(leaf) && ndb.blocks[leaf] == old(rowBlock) + Zeros(BLOCK - |old(rowBlock)|)
      ensures Ownership.Passes(Ownership.Holding(old(ndb.blocks), old(Ndb.BidsOf(ndb.bbt)), held + multiset(old(rowLeaves))),
                               Ownership.Holding(ndb.blocks, Ndb.BidsOf(ndb.bbt), held + multiset(rowLeaves)))
    {
      hide ndb.Valid, Ndb.BidsOf, Ownership.Law;
      ndb.OrderPresent();
      var block := rowBlock + Zeros(BLOCK - |rowBlock|);
      var out := ndb.WriteLeafChunk(block);
      leaf := out.value;
      Ownership.PassesLeaf(old(ndb.blocks), old(Ndb.BidsOf(ndb.bbt)), leaf, block, held + multiset(rowLeaves));
      assert held + multiset(rowLeaves) + multiset{leaf} == held + multiset(rowLeaves + [leaf]);
      rowLeaves := rowLeaves + [out.value];
      rowBytes := rowBytes + |block|;
      rowBlock := [];
    }

    /** What EmitRows and the steps after it rely on. */
    ghost predicate Closed()
      reads this, heap, subs, ndb
    {
      && heap.ndb == ndb && subs.ndb == ndb && heap.Valid() && heap.clientSig == TC_SIGNATURE && TagsFit(tags) && rowIndex == Ordinals(rows)
      && (subs.nextIndex <= MAX_INDEX ==> subs.Good())
      && Done(Readable(), heap.Contents(), ndb.blocks, subs.entries, tags, rows, images)
      && AllSized(images, RowSize(tags)) && 0 < RowSize(tags) <= BLOCK
    }

    /** The last block of rows as it is, and the data tree over all of them. */
    method WriteRows() returns (r: Result<nat>)
      requires Valid() && !inRow && rowBlock != []
      modifies `rowBlock, `rowLeaves, `rowBytes, ndb
      ensures Closed() && ndb.Valid() && ndb.Grown() && ndb.nbt == old(ndb.nbt)
      ensures r.Ok? ==> r.value in ndb.blocks
      ensures r.Ok? && ndb.Fits64() ==> ReadTree(ndb.blocks, r.value) == Some(Packed(images, RowSize(tags)))
      ensures r.Err? ==> |Packed(images, RowSize(tags))| >= U32
      ensures r.Ok? && ndb.Fits64() ==> Ownership.Passes(old(Held()), HeldWith(multiset{r.value}))
    {
      hide Ownership.EntriesRefs, Ndb.BidsOf, ndb.Valid, RowsOut, Done, RowSize, heap.Valid, Numbered, InHeap, FirstRow, RowsPerBlock,
           LayoutOf, TagsFit, Building, ReadTree, Leaves, Stream, Packed, Ownership.Law;
      Layouts();
      ghost var h, before, sound := heap.Contents(), ndb.blocks, Readable();
      ghost var leaves, block, bytes := rowLeaves, rowBlock, rowBytes;
      RowsOutFacts(before, leaves, block, images, RowSize(tags), bytes);
      ndb.OrderPresent();
      ghost var held, both := Held(), Together(Bth.Streamed(heap), subs).loose;
      label Before:
      var leaf := ndb.WriteLeafChunk(rowBlock);
      Ownership.PassesLeaf(before, old(Ndb.BidsOf(ndb.bbt)), leaf.value, rowBlock, both + multiset(rowLeaves));
      assert both + multiset(rowLeaves) + multiset{leaf.value} == both + multiset(rowLeaves + [leaf.value]);
      rowLeaves := rowLeaves + [leaf.value];
      ghost var now, order := ndb.blocks, Ndb.BidsOf(ndb.bbt);
      rowBytes := rowBytes + |rowBlock|;
      rowBlock := [];
      LastBlock(before, ndb.blocks, leaves, block, images, RowSize(tags), bytes, leaf.value);
      r := ndb.AssembleDataTree(rowLeaves, rowBytes);
      if r.Ok? && ndb.Fits64() {
        Ownership.PassesBeside(Ownership.Holding(now, order, multiset(rowLeaves)),
                               Ownership.Holding(ndb.blocks, Ndb.BidsOf(ndb.bbt), multiset{r.value}), both);
        Ownership.PassesThen(held, Ownership.Holding(now, order, both + multiset(rowLeaves)), HeldWith(multiset{r.value}));
      }
      Bth.Streamed(heap).Survives@Before();
      if subs.nextIndex <= MAX_INDEX { NumberedGrow(before, ndb.blocks, subs.entries, subs.nextIndex); }
      Bth.CoversItself(InHeap(h));
      DoneGrow(sound, Readable(), h, h, before, ndb.blocks, subs.entries, subs.entries, tags, rows, images);
    }

    /** The rows' data tree and an id for it; zero without rows. */
    method EmitRows() returns (r: Result<nat>)
      requires Valid() && !inRow
      modifies `rowBlock, `rowLeaves, `rowBytes, subs, ndb
      ensures Closed() && ndb.Valid() && ndb.Grown() && ndb.nbt == old(ndb.nbt) && subs.Kept()
      ensures subs.nextIndex <= old(subs.nextIndex) + 1
      ensures r.Ok? ==> r.value < U32
      ensures r.Ok? && Readable() && rows != []
              ==> HnidLeads(heap.Contents(), ndb.blocks, subs.entries, Packed(images, RowSize(tags)), r.value)
      ensures r.Err? ==> |Packed(images, RowSize(tags))| >= U32
      ensures r.Ok? && ndb.Fits64() ==> Ownership.Passes(old(Held()), Together(Bth.Streamed(heap), subs))
    {
      hide Ownership.EntriesRefs, Ownership.Passes, Ndb.BidsOf, ndb.Valid, RowsOut, Done, RowSize, heap.Valid, Numbered, InHeap,
           FirstRow, RowsPerBlock, LayoutOf, TagsFit, Building, ReadTree, Packed, HnidLeads;
      Layouts();
      RowsOutFacts(ndb.blocks, rowLeaves, rowBlock, images, RowSize(tags), rowBytes);
      DoneLength(Readable(), heap.Contents(), ndb.blocks, subs.entries, tags, rows, images);
      HeldPasses();
      if rowBlock == [] {
        NoLeaves(ndb.blocks, rowLeaves, images, RowSize(tags), rowBytes);
        assert HeldWith(multiset{}) == Together(Bth.Streamed(heap), subs);
        return Ok(0);
      }
      var tree := WriteRows();
      if tree.Err? {
        return Err(tree.reason);
      }
      var nid := AdoptTree(tree.value);
      return Ok(nid);
    }

    /** An id for the rows' data tree. */
    method AdoptTree(tree: nat) returns (nid: nat)
      requires Closed() && ndb.Valid() && tree in ndb.blocks
      modifies subs
      ensures Closed() && subs.Kept() && subs.nextIndex == old(subs.nextIndex) + 1 && nid < U32
      ensures Readable() && ReadTree(ndb.blocks, tree) == Some(Packed(images, RowSize(tags)))
              ==> HnidLeads(heap.Contents(), ndb.blocks, subs.entries, Packed(images, RowSize(tags)), nid)
      ensures Together(Bth.Streamed(heap), subs) == old(HeldWith(multiset{tree}))
    {
      hide Ownership.EntriesRefs, Ndb.BidsOf, ndb.Valid, Done, RowSize, heap.Valid, Numbered, InHeap, LayoutOf, TagsFit, ReadTree, Packed,
           HnidLeads;
      ghost var h, blocks, entries, sound := heap.Contents(), ndb.blocks, subs.entries, Readable();
      nid := subs.Adopt(tree);
      Ownership.EntriesRefsAdd(entries, nid, tree);
      ExtendsItself(blocks);
      Bth.CoversItself(InHeap(h));
      DoneGrow(sound, Readable(), h, h, blocks, ndb.blocks, entries, subs.entries, tags, rows, images);
      if Readable() {
        SpilledId(old(subs.nextIndex));
        if ReadTree(ndb.blocks, tree) == Some(Packed(images, RowSize(tags))) {
          LeadsToTree(h, ndb.blocks, subs.entries, Packed(images, RowSize(tags)), nid, tree);
        }
      }
    }

    /** The records of the row index, sorted by row id. */
    method IndexRows() returns (index: seq<Record>)
      requires rowIndex == Ordinals(rows)
      ensures multiset(index) == multiset(IndexRecords(Ids(rows))) && Sized(index, 4, 4) && |index| == |rows|
    {
      hide Put32;
      var sorted := SortBy(rowIndex, FirstOf());
      index := [];
      for i := 0 to |sorted|
        invariant |index| == i && forall k :: 0 <= k < i ==> index[k] == PairRecord(sorted[k])
      {
        index := index + [Record(Put32(sorted[i].0), Put32(sorted[i].1))];
      }
      assert index == PairRecords(sorted);
      SortedRecords(rowIndex);
      assert PairRecords(rowIndex) == IndexRecords(Ids(rows));
    }

    /** The row index, TCINFO and the heap's data tree, over rows already placed. */
    method CloseHeap(hnidRows: nat) returns (r: Result<nat>)
      requires Closed() && ndb.Valid() && hnidRows < U32
      requires Readable() && rows != [] ==> HnidLeads(heap.Contents(), ndb.blocks, subs.entries, Packed(images, RowSize(tags)), hnidRows)
      modifies heap, ndb
      ensures ndb.Valid() && ndb.Grown() && ndb.nbt == old(ndb.nbt) && (r.Ok? ==> r.value in ndb.blocks)
      ensures r.Err? ==> |old(heap.Contents())| + Bth.MostBlocks(|rows|, 4, 4) >= MAX_BLOCKS
      ensures r.Ok? && Readable() ==> subs.Good()
      ensures r.Ok? && Readable() && DistinctRowIds(Ids(rows)) && |rows| < U32 ==>
                ReadTree(ndb.blocks, r.value).Some? && AnswersFrom(ReadTree(ndb.blocks, r.value).value, ndb.blocks, subs.entries, tags, rows)
      ensures r.Ok? && ndb.Fits64() ==> Ownership.Passes(old(Together(Bth.Streamed(heap), subs)), HeldSealed(r.value))
    {
      hide Ownership.EntriesRefs, Ownership.Passes, Ndb.BidsOf, ndb.Valid, Done, RowSize, heap.Valid, Numbered, InHeap, LayoutOf, TagsFit,
           ReadTree, Packed, HnidLeads, Bth.Built, Bth.Added, Info, Sized, AnswersFrom, DistinctRowIds, Render, heap.Contents, ReadsMore,
           AllSized, Bth.MostBlocks;
      ghost var h, blocks := heap.Contents(), ndb.blocks;
      ghost var held, refs := heap.Held(), Ownership.EntriesRefs(subs.entries);
      var index := IndexRows();
      var roots, g := FinishTable(Bth.Streamed(heap), tags, hnidRows, index);
      if roots.Err? {
        return Err(roots.reason);
      }
      ghost var sealed := heap.Held();
      heap.SetUserRoot(roots.value.1);
      ghost var k, first, only := heap.Contents(), heap.block0.items, heap.currentIndex == 0;
      HeapIsOk();
      r := heap.Finish();
      if ndb.Fits64() { SealPasses(held, sealed, Ownership.Holding(ndb.blocks, Ndb.BidsOf(ndb.bbt), multiset{r.value}), refs); }
      if Readable() {
        NumberedGrow(blocks, ndb.blocks, subs.entries, subs.nextIndex);
        if DistinctRowIds(Ids(rows)) && |rows| < U32 {
          ConcludeStreamed(h, g, k, blocks, ndb.blocks, subs.entries, tags, rows, images, index, roots.value.0, hnidRows,
                           roots.value.1, StreamingHeap.StreamFill(first, only));
        }
      }
    }

    /** The heap's data tree, and the subnodes beside it. */
    ghost function HeldSealed(data: nat): Ownership.Holding
      reads subs, subs.ndb
    {
      Ownership.Holding(subs.ndb.blocks, Ndb.BidsOf(subs.ndb.bbt), multiset{data} + Ownership.EntriesRefs(subs.entries))
    }

    /** The rows, the row index, TCINFO, and the heap's data tree. */
    method Seal() returns (r: Result<nat>)
      requires Valid() && !inRow
      modifies this, heap, subs, ndb
      ensures ndb.Valid() && ndb.Grown() && ndb.nbt == old(ndb.nbt) && rows == old(rows) && subs.nextIndex <= old(subs.nextIndex) + 1
      ensures |subs.entries| <= |old(subs.entries)| + 1
      ensures r.Ok? ==> r.value in ndb.blocks
      ensures r.Err? ==> MatrixTooLarge(|rows|, RowSize(tags))
                         || |old(heap.Contents())| + Bth.MostBlocks(|rows|, 4, 4) >= MAX_BLOCKS
      ensures r.Ok? && Readable() ==> subs.Good()
      ensures r.Ok? && Readable() && DistinctRowIds(Ids(rows)) && |rows| < U32 ==>
                ReadTree(ndb.blocks, r.value).Some? && AnswersFrom(ReadTree(ndb.blocks, r.value).value, ndb.blocks, subs.entries, tags, rows)
      ensures r.Ok? && ndb.Fits64() ==> Ownership.Passes(old(Held()), HeldSealed(r.value))
    {
      hide Ownership.Passes, ndb.Valid, Done, RowSize, heap.Valid, Numbered, LayoutOf, TagsFit, ReadTree, Packed, HnidLeads, Valid,
           AnswersFrom, DistinctRowIds, heap.Contents, AllSized, MatrixTooLarge, Bth.MostBlocks, Together, Held, HeldSealed;
      ghost var first := Held();
      var hnidRows := EmitRows();
      if hnidRows.Err? {
        ClosedLarge();
        return Err(hnidRows.reason);
      }
      ghost var both := Together(Bth.Streamed(heap), subs);
      r := CloseHeap(hnidRows.value);
      if r.Ok? && ndb.Fits64() { Ownership.PassesThen(first, both, HeldSealed(r.value)); }
    }

    /** Ends the table: its data and its subnodes. A reader of the two gets the answers of
        the rows, for every row id and every column. */
    method Finish() returns (r: Result<(nat, nat)>)
      requires Valid() && !inRow
      modifies this, heap, subs, ndb
      ensures ndb.Valid() && ndb.Grown() && ndb.nbt == old(ndb.nbt) && rows == old(rows) && subs.nextIndex <= old(subs.nextIndex) + 1
      ensures |subs.entries| <= |old(subs.entries)| + 1
      ensures r.Err? ==> MatrixTooLarge(|rows|, RowSize(tags)) || |subs.entries| > SL_FANOUT * SI_FANOUT
                         || |old(heap.Contents())| + Bth.MostBlocks(|rows|, 4, 4) >= MAX_BLOCKS
      ensures r.Ok? ==> r.value.0 in ndb.blocks && (r.value.1 != 0 ==> r.value.1 in ndb.blocks)
      ensures r.Ok? && Readable() && DistinctRowIds(Ids(rows)) && |rows| < U32 ==>
                (&& ReadTree(ndb.blocks, r.value.0).Some? && SubnodesRead(ndb.blocks, r.value.1, subs.entries)
                 && AnswersFrom(ReadTree(ndb.blocks, r.value.0).value, ndb.blocks, subs.entries, tags, rows))
      ensures r.Ok? && Readable() ==>
                Ownership.Passes(old(Held()), Ownership.Holding(ndb.blocks, Ndb.BidsOf(ndb.bbt), Ownership.NodeRefs(r.value.0, r.value.1)))
    {
      hide Ownership.EntriesRefs, Ndb.BidsOf, ndb.Valid, heap.Valid, Numbered, ReadTree, Valid, AnswersFrom, DistinctRowIds,
           heap.Contents, Ownership.Law;
      SameNdb();
      var data := Seal();
      if data.Err? {
        return Err(data.reason);
      }
      ghost var mid, order := ndb.blocks, Ndb.BidsOf(ndb.bbt);
      if Readable() { ContextArchive.WriterFits(ndb, subs.entries, subs.nextIndex); }
      var sub := ndb.WriteSubnodes(subs.entries);
      if sub.Err? {
        return Err(sub.reason);
      }
      if Readable() {
        ContextArchive.RefFits(ndb, data.value);
        ghost var own, refs := multiset{data.value}, Ownership.EntriesRefs(subs.entries);
        ghost var entered := Ownership.Holding(mid, order, refs);
        ghost var rooted := Ownership.Holding(ndb.blocks, Ndb.BidsOf(ndb.bbt), Ownership.Ref(sub.value));
        Ownership.PassesBeside(entered, rooted, own);
        Ownership.PassesThen(old(Held()), Ownership.Holding(mid, order, own + refs),
                              Ownership.Holding(rooted.blocks, rooted.order, own + rooted.loose));
      }
      if Readable() && DistinctRowIds(Ids(rows)) && |rows| < U32 {
        ReadTreeGrow(mid, ndb.blocks, data.value);
        AnswersLater(ReadTree(mid, data.value).value, mid, ndb.blocks, subs.entries, tags, rows);
      }
      return Ok((data.value, sub.value));
    }

    lemma ClosedLarge()
      requires Closed() && |Packed(images, RowSize(tags))| >= U32
      ensures MatrixTooLarge(|rows|, RowSize(tags))
    {
      hide heap.Valid, ndb.Valid, RowSize, RowAt, RowsDone;
      PackedLength(images, RowSize(tags));
    }

    lemma SameNdb()
      requires Valid()
      ensures subs.ndb == ndb && heap.ndb == ndb
    {
      hide ndb.Valid, RowsOut, Done, Building;
    }

    lemma HeapIsOk()
      requires heap.Valid()
      ensures HeapOk(heap.Contents()) && !heap.finished
    {
      hide StreamingHeap.Tracks, StreamingHeap.Flushed, Ndb.NdbWriter.Valid;
      StreamingHeap.TracksFits(heap.block0, heap.flushed, heap.current, heap.currentIndex);
    }
  }

  /** The heap's own steps, seen with the subnodes beside it. */
  lemma SealPasses(held: Ownership.Holding, sealed: Ownership.Holding, done: Ownership.Holding, refs: multiset<nat>)
    requires Ownership.Passes(held, sealed) && Ownership.Passes(sealed, done)
    ensures Ownership.Passes(Ownership.Holding(held.blocks, held.order, held.loose + refs),
                             Ownership.Holding(done.blocks, done.order, done.loose + refs))
  {
    hide Ownership.Passes;
    Ownership.PassesThen(held, sealed, done);
    Ownership.PassesBeside(held, done, refs);
  }

  lemma NoLeaves(blocks: Store, leaves: seq<nat>, images: seq<Buf>, rs: nat, bytes: nat)
    requires RowsOut(blocks, leaves, [], images, rs, bytes)
    ensures leaves == []
  {
    hide Stream, Packed;
    var per := RowsPerBlock(rs);
    assert per >= 1;
    if leaves != [] { Bth.Scale(1, |leaves|, per); }
  }

  /** From the parts to the reader's view of the whole. */
  lemma ConcludeStreamed(h: Heap, g: Heap, k: Heap, a: Store, b: Store, entries: seq<SubEntry>, tags: seq<nat>, rows: seq<Row>,
                         images: seq<Buf>, index: seq<Record>, rowIndex: nat, hnidRows: nat, root: nat, fill: Buf)
    requires TagsFit(tags) && hnidRows < U32 && HeapOk(k) && |fill| == 4 && Extends(a, b)
    requires Done(true, h, a, entries, tags, rows, images) && AllSized(images, RowSize(tags)) && 0 < RowSize(tags) <= BLOCK
    requires rows != [] ==> HnidLeads(h, a, entries, Packed(images, RowSize(tags)), hnidRows)
    requires Bth.Built(h, g, rowIndex, index, 4, 4) && multiset(index) == multiset(IndexRecords(Ids(rows)))
    requires Bth.Added(g, k, Info(tags, rowIndex, hnidRows), root)
    requires DistinctRowIds(Ids(rows)) && |rows| < U32
    ensures AnswersFrom(Render(k, TC_SIGNATURE, root, fill), b, entries, tags, rows)
  {
    hide Done, TagsFit, HeapOk, RowsDone, MatrixHolds, HnidLeads, Bth.Built, Bth.Added, Info, Render, Packed, RowSize, DistinctRowIds, RowFits,
         AllSized, AnswersFrom;
    DoneLength(true, h, a, entries, tags, rows, images);
    var matrix := Packed(images, RowSize(tags));
    PackedHolds(images, RowSize(tags));
    Conclude(h, g, k, a, entries, tags, rows, images, matrix, index, rowIndex, hnidRows, root, TC_SIGNATURE, fill);
    AnswersLater(Render(k, TC_SIGNATURE, root, fill), a, b, entries, tags, rows);
  }

  lemma DeclaredNone()
    ensures Declared([]) == [TAG_ROW_ID, TAG_ROW_VER]
  {
  }

  lemma DeclaredNext(columns: seq<nat>, i: nat)
    requires i < |columns|
    ensures Declared(columns[..i + 1])
            == if columns[i] in Declared(columns[..i]) then Declared(columns[..i]) else Declared(columns[..i]) + [columns[i]]
  {
    assert columns[..i + 1][..i] == columns[..i];
  }

  lemma FitColumns(tags: seq<nat>)
    requires TagsFit(tags)
    ensures Columns(tags)
  {
  }

  lemma FixedWidth(tag: nat, data: Buf)
    requires CellFits(tag, Fixed(data))
    ensures |data| == Width(tag)
  {
  }

  lemma RoomFor(leaves: seq<nat>, images: seq<Buf>, rs: nat, block: Buf, blocks: Store, bytes: nat)
    requires RowsOut(blocks, leaves, block, images, rs, bytes) && |images| != FirstRow(rs, |leaves|) + RowsPerBlock(rs)
    ensures |images| < FirstRow(rs, |leaves|) + RowsPerBlock(rs)
  {
  }

  lemma PinnedCells(tags: seq<nat>, id: nat)
    requires |tags| >= 2 && FindTag(tags, TAG_ROW_ID) == Some(0) && FindTag(tags, TAG_ROW_VER) == Some(1)
    ensures WithCell(tags, WithCell(tags, Row(id, NoCells(|tags|)), TAG_ROW_ID, Fixed(Put32(id))), TAG_ROW_VER, Fixed(Put32(1)))
            == Row(id, [Some(Fixed(Put32(id))), Some(Fixed(Put32(1)))] + NoCells(|tags| - 2))
  {
    hide Put32;
    var cells := NoCells(|tags|)[0 := Some(Fixed(Put32(id)))][1 := Some(Fixed(Put32(1)))];
    assert cells == [Some(Fixed(Put32(id))), Some(Fixed(Put32(1)))] + NoCells(|tags| - 2);
  }

  lemma RowsOutFacts(blocks: Store, leaves: seq<nat>, block: Buf, images: seq<Buf>, rs: nat, bytes: nat)
    requires RowsOut(blocks, leaves, block, images, rs, bytes)
    ensures AllSized(images, rs) && 0 < rs <= BLOCK && |block| <= BLOCK && (images != [] ==> block != [])
    ensures images == [] ==> block == []
  {
    RoomInBlock(blocks, leaves, block, images, rs, bytes);
    if images == [] { assert Packed(images, rs) == []; }
  }

  lemma DoneLength(sound: bool, h: Heap, blocks: Store, entries: seq<SubEntry>, tags: seq<nat>, rows: seq<Row>, images: seq<Buf>)
    requires Done(sound, h, blocks, entries, tags, rows, images)
    ensures |images| == |rows| && (sound ==> RowsDone(h, blocks, entries, tags, rows, images))
    ensures forall i :: 0 <= i < |rows| ==> RowFits(tags, rows[i])
  {
  }

  lemma LeadsToTree(h: Heap, blocks: Store, entries: seq<SubEntry>, data: Buf, nid: nat, tree: nat)
    requires !IsHid(nid) && FindEntry(entries, nid) == Some(SubEntry(nid, tree, 0)) && ReadTree(blocks, tree) == Some(data)
    ensures HnidLeads(h, blocks, entries, data, nid)
  {
    hide ReadTree;
  }
}
