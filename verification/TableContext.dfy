/** The in-memory table context, which keeps its rows until Serialize. */
module TableContext {
  import opened Bytes
  import opened NodeId
  import opened Wrappers
  import opened Sorting
  import opened HeapFormat
  import opened BthFormat
  import opened DataTree
  import opened SubnodeTree
  import opened SubnodeAllocator
  import opened PropertyContext
  import opened RowLayout
  import opened TableFormat
  import opened TableReader
  import opened RowMatrix
  import Bth
  import HeapNode
  import HeapRefinement
  import Space
  import NdbFile
  import Ownership
  import Ndb

  const TAG_ROW_ID: nat := 0x67F2_0003
  const TAG_ROW_VER: nat := 0x67F3_0003

  // ---------------------------------------------------------------- TCINFO

  /** Both table writers end with this allocation. */
  method WriteInfo(tags: seq<nat>, rowIndex: nat, hnidRows: nat) returns (info: Buf)
    requires TagsFit(tags)
    ensures info == Info(tags, rowIndex, hnidRows)
  {
    hide Put32, Put16, SortBy, LayoutOf, Columns;
    var layout := ComputeLayout(tags);
    ColumnsFit(tags);
    var sorted := SortBy(layout.columns, ByTag());
    info := [TC_SIGNATURE, |tags|] + Put16(layout.rgib[0]) + Put16(layout.rgib[1]) + Put16(layout.rgib[2]) + Put16(layout.rgib[3])
            + Put32(rowIndex) + Put32(hnidRows) + Put32(0);
    ghost var head := info;
    assert sorted[0..] == sorted;
    for k := 0 to |sorted|
      invariant info + DescsBytes(sorted[k..]) == head + DescsBytes(sorted)
    {
      assert ColumnFits(sorted[k]) && sorted[k..][1..] == sorted[k + 1..];
      Regroup(info, DescBytes(sorted[k]), DescsBytes(sorted[k + 1..]));
      info := info + DescBytes(sorted[k]);
    }
    Regroup(info, [], []);
  }

  // ----------------------------------------------------------------- cells

  /** The state a value needs to be readable: subnode ids have not run out. */
  ghost predicate Sound(before: bool, subs: SubnodeAllocator)
    reads subs, subs.ndb
  {
    subs.ndb.Fits64() && before && subs.nextIndex <= MAX_INDEX
  }

  /** What a heap and the subnodes beside it hold together. */
  ghost function Together(hn: Bth.AnyHeap, subs: SubnodeAllocator): Ownership.Holding
    reads hn.Objects(), subs, subs.ndb
  {
    Ownership.Holding(subs.ndb.blocks, Ndb.BidsOf(subs.ndb.bbt), hn.Held().loose + Ownership.EntriesRefs(subs.entries))
  }

  lemma TogetherPasses(hn: Bth.AnyHeap, subs: SubnodeAllocator)
    requires subs.ndb.Valid()
    ensures Ownership.Passes(Together(hn, subs), Together(hn, subs))
  {
    hide Ndb.NdbWriter.Valid, Ownership.Law;
    subs.ndb.OrderPresent();
    Ownership.PassesSame(Together(hn, subs));
  }

  lemma TogetherAlone(hn: Bth.AnyHeap, subs: SubnodeAllocator)
    requires hn.InMemory?
    ensures Together(hn, subs) == subs.Held()
  {
    hide Ownership.EntriesRefs;
  }

  /** Where a variable-width value goes: nowhere if empty, into the heap, or into a
      subnode. Both table writers decide alike. */
  method PlaceVariable(hn: Bth.AnyHeap, subs: SubnodeAllocator, data: Buf) returns (r: Result<nat>)
    requires hn.Valid() && subs.ndb.Valid() && (hn.Streamed? ==> hn.heap.ndb == subs.ndb)
    modifies hn.Objects(), subs, subs.ndb
    ensures subs.ndb.Valid() && subs.ndb.Grown() && subs.ndb.nbt == old(subs.ndb.nbt) && subs.Kept() && hn.Kept()
    ensures subs.nextIndex <= old(subs.nextIndex) + 1
    ensures r.Ok? ==> hn.Valid() && |hn.Contents()| <= |old(hn.Contents())| + 1 && r.value < U32
    ensures r.Ok? ==> ReadsMore(InHeap(old(hn.Contents())), InHeap(hn.Contents()))
    ensures r.Ok? && Sound(old(subs.Good()), subs) ==> RefLeads(hn.Contents(), subs.ndb.blocks, subs.entries, data, r.value)
    ensures r.Err? ==> |data| >= U32 || |old(hn.Contents())| >= MAX_BLOCKS
    ensures r.Ok? && subs.ndb.Fits64() ==> Ownership.Passes(old(Together(hn, subs)), Together(hn, subs))
  {
    hide Ownership.Law, Ndb.BidsOf, Ownership.EntriesRefs, Ownership.Passes, Ndb.NdbWriter.Valid, hn.Valid, hn.Contents, SubData,
         InHeap, ReadsMore, DistinctKeys, Space.SpaceOk, NdbFile.BlocksOk;
    hn.ValidBelow();
    Bth.CoversItself(InHeap(hn.Contents()));
    TogetherPasses(hn, subs);
    ghost var heap, entries := hn.Held(), subs.Held();
    if |data| == 0 {
      return Ok(0);
    } else if |data| <= MAX_ALLOC {
      r := hn.Alloc(data);
      if r.Ok? && hn.Streamed? { Ownership.PassesBeside(heap, hn.Held(), entries.loose); }
    } else {
      label Before:
      r := subs.Spill(data);
      hn.Survives@Before();
      if r.Ok? && subs.ndb.Fits64() { Ownership.PassesBeside(entries, subs.Held(), heap.loose); }
      if r.Ok? && subs.nextIndex <= MAX_INDEX { SpilledId(old(subs.nextIndex)); }
    }
  }

  /** The row index and TCINFO: the end of both table writers. Returns their handles. */
  method FinishTable(hn: Bth.AnyHeap, tags: seq<nat>, hnidRows: nat, index: seq<Record>)
    returns (r: Result<(nat, nat)>, ghost g: Heap)
    requires hn.Valid() && TagsFit(tags) && Sized(index, 4, 4)
    modifies hn.Objects()
    ensures hn.Kept()
    ensures r.Ok? ==> hn.Valid() && Bth.Built(old(hn.Contents()), g, r.value.0, index, 4, 4)
                      && Bth.Added(g, hn.Contents(), Info(tags, r.value.0, hnidRows), r.value.1)
    ensures r.Err? ==> |old(hn.Contents())| + Bth.MostBlocks(|index|, 4, 4) >= MAX_BLOCKS
    ensures r.Ok? ==> Ownership.Passes(old(hn.Held()), hn.Held())
  {
    hide hn.Held, Ownership.Passes, Ndb.NdbWriter.Valid, hn.Valid, hn.Contents, Bth.Built, Bth.Added, Info, Sized, Bth.MostBlocks, TagsFit;
    g := [];
    var rowIndex := Bth.BuildBth(hn, 4, 4, index);
    if rowIndex.Err? {
      return Err(rowIndex.reason), g;
    }
    g := hn.Contents();
    ghost var held := hn.Held();
    BuiltBlocks(old(hn.Contents()), g, rowIndex.value, index);
    var info := WriteInfo(tags, rowIndex.value, hnidRows);
    InfoSize(tags, rowIndex.value, hnidRows);
    var root := hn.Alloc(info);
    if root.Err? {
      return Err(root.reason), g;
    }
    Ownership.PassesThen(old(hn.Held()), held, hn.Held());
    return Ok((rowIndex.value, root.value)), g;
  }

  // ---------------------------------------------------------- row building

  /** Columns before `i` are written. */
  ghost predicate Partial(tags: seq<nat>, image: Buf, raws: seq<Option<Buf>>, i: nat) {
    |raws| == i <= |tags| && ImageOf(tags, image, raws + NoCells(|tags| - i))
  }

  lemma PartialStart(tags: seq<nat>)
    ensures Partial(tags, Zeros(RowSize(tags)), [], 0)
  {
    hide RowSize;
    EmptyRow(tags);
    assert [] + NoCells<Buf>(|tags|) == NoCells(|tags|);
  }

  lemma PartialSkip(tags: seq<nat>, image: Buf, raws: seq<Option<Buf>>, i: nat)
    requires i < |tags| && Partial(tags, image, raws, i)
    ensures Partial(tags, image, raws + [None], i + 1)
  {
    hide ImageOf;
    assert raws + NoCells(|tags| - i) == raws + [None] + NoCells(|tags| - i - 1);
  }

  lemma PartialWrite(tags: seq<nat>, image: Buf, raws: seq<Option<Buf>>, i: nat, b: Buf)
    requires Columns(tags) && i < |tags| && Partial(tags, image, raws, i) && |b| == Width(tags[i])
    ensures |image| == RowSize(tags) && Partial(tags, PutCell(tags, image, i, b), raws + [Some(b)], i + 1)
  {
    hide RowSize, CellIn, PutCell;
    PutCellImage(tags, image, raws + NoCells(|tags| - i), i, b);
    assert (raws + NoCells(|tags| - i))[i := Some(b)] == raws + [Some(b)] + NoCells(|tags| - i - 1);
  }

  lemma PartialDone(tags: seq<nat>, image: Buf, raws: seq<Option<Buf>>)
    requires Partial(tags, image, raws, |tags|)
    ensures ImageOf(tags, image, raws)
  {
    assert raws + NoCells(0) == raws;
  }

  lemma RowLeadsSnoc(h: Heap, blocks: Store, entries: seq<SubEntry>, cells: seq<Option<Cell>>, i: nat, raws: seq<Option<Buf>>,
                     raw: Option<Buf>)
    requires i < |cells| && RowLeads(h, blocks, entries, cells[..i], raws) && CellLeads(h, blocks, entries, cells[i], raw)
    ensures RowLeads(h, blocks, entries, cells[..i + 1], raws + [raw])
  {
    hide CellLeads;
  }

  lemma NoRowLeads(h: Heap, blocks: Store, entries: seq<SubEntry>)
    ensures RowLeads(h, blocks, entries, [], [])
  {
  }

  lemma VariableLeads(h: Heap, blocks: Store, entries: seq<SubEntry>, data: Buf, hnid: nat)
    requires RefLeads(h, blocks, entries, data, hnid) && hnid < U32
    ensures CellLeads(h, blocks, entries, Some(Var(data)), Some(Put32(hnid)))
  {
    hide HnidLeads, Put32, Peek;
    PeekPut32(hnid);
  }

  lemma VariableWidth(tag: nat, c: Cell)
    requires CellKind(tag, c)
    ensures c.Var? ==> Width(tag) == 4
  {
  }

  /** Some value is too large for the file. */
  predicate Oversized(rows: seq<Row>) {
    exists i, k :: 0 <= i < |rows| && 0 <= k < |rows[i].cells| && Large(rows[i].cells[k])
  }

  /** The matrix takes 4 GiB or more. */
  predicate MatrixTooLarge(n: nat, rs: nat) { n > 0 && RowAt(rs, n - 1) + rs >= U32 }

  predicate Large(c: Option<Cell>) { c.Some? && c.value.Var? && |c.value.data| >= U32 }

  // ------------------------------------------------------- cells in memory

  /** A fixed value of another width is cut, or filled up with zeros, when it is written. */
  function Fit(data: Buf, width: nat): (r: Buf)
    ensures |r| == width && (|data| == width ==> r == data)
  {
    if |data| >= width then data[..width] else data + Zeros(width - |data|)
  }

  /** Fixed values for fixed-width columns, references for the others. */
  predicate CellKind(tag: nat, c: Cell) { c.Var? <==> FixedSize(TagType(tag)) == 0 }

  predicate RowKinds(tags: seq<nat>, row: Row) {
    |row.cells| == |tags| && row.id < U32
    && forall k :: 0 <= k < |tags| ==> row.cells[k].Some? ==> CellKind(tags[k], row.cells[k].value)
  }

  function FitCell(tag: nat, c: Option<Cell>): (r: Option<Cell>) {
    match c
    case None => None
    case Some(Fixed(data)) => Some(Fixed(Fit(data, Width(tag))))
    case Some(Var(_)) => c
  }

  /** A row as its image holds it. */
  function FitRow(tags: seq<nat>, row: Row): (r: Row)
    ensures r.id == row.id && |r.cells| == |row.cells|
    ensures forall k :: 0 <= k < |row.cells| && k < |tags| ==> r.cells[k] == FitCell(tags[k], row.cells[k])
  {
    Row(row.id, seq(|row.cells|, k requires 0 <= k < |row.cells| => if k < |tags| then FitCell(tags[k], row.cells[k]) else row.cells[k]))
  }

  function FitRows(tags: seq<nat>, rows: seq<Row>): (r: seq<Row>)
    ensures |r| == |rows| && forall i :: 0 <= i < |rows| ==> r[i] == FitRow(tags, rows[i])
    ensures Ids(r) == Ids(rows)
  {
    seq(|rows|, i requires 0 <= i < |rows| => FitRow(tags, rows[i]))
  }

  lemma FitsKind(tag: nat, c: Cell)
    requires CellFits(tag, c)
    ensures CellKind(tag, c)
  {
  }

  lemma FittedRows(tags: seq<nat>, rows: seq<Row>)
    requires forall i :: 0 <= i < |rows| ==> RowKinds(tags, rows[i])
    ensures forall i :: 0 <= i < |rows| ==> RowFits(tags, FitRows(tags, rows)[i])
  {
    hide Width, FixedSize, Fit;
    forall i, k | 0 <= i < |rows| && 0 <= k < |tags| && rows[i].cells[k].Some?
      ensures CellFits(tags[k], FitRows(tags, rows)[i].cells[k].value)
    {
      assert CellKind(tags[k], rows[i].cells[k].value);
    }
  }

  /** Rows with values of their columns' widths stay as they are. */
  lemma FitKeeps(tags: seq<nat>, rows: seq<Row>)
    requires forall i :: 0 <= i < |rows| ==> RowFits(tags, rows[i])
    ensures (forall i :: 0 <= i < |rows| ==> RowKinds(tags, rows[i])) && FitRows(tags, rows) == rows
  {
    forall i | 0 <= i < |rows| ensures RowKinds(tags, rows[i]) && FitRow(tags, rows[i]) == rows[i] {
      forall k | 0 <= k < |tags| ensures FitCell(tags[k], rows[i].cells[k]) == rows[i].cells[k] {
        assert rows[i].cells[k].Some? ==> CellFits(tags[k], rows[i].cells[k].value);
      }
      assert FitRow(tags, rows[i]).cells == rows[i].cells;
    }
  }

  // ---------------------------------------------------------------- class

  class TableContext {
    var columns: seq<nat>
    var rows: seq<Row>

    ghost predicate Valid()
      reads this
    {
      TagsFit(columns) && forall i :: 0 <= i < |rows| ==> RowKinds(columns, rows[i])
    }

    constructor ()
      ensures Valid() && columns == [TAG_ROW_ID, TAG_ROW_VER] && rows == []
    {
      columns, rows := [TAG_ROW_ID, TAG_ROW_VER], [];
    }

    /** A column declared twice is there once; rows already there get an empty cell. */
    method AddColumn(tag: nat)
      requires Valid() && tag < U32 && |columns| < MAX_COLUMNS
      modifies this
      ensures Valid()
      ensures columns == if tag in old(columns) then old(columns) else old(columns) + [tag]
      ensures |rows| == |old(rows)|
      ensures forall i :: 0 <= i < |rows| ==>
                rows[i] == if tag in old(columns) then old(rows)[i] else Row(old(rows)[i].id, old(rows)[i].cells + [None])
    {
      if tag in columns {
        return;
      }
      columns := columns + [tag];
      ghost var was := rows;
      for i := 0 to |rows|
        invariant |rows| == |was| && columns == old(columns) + [tag]
        invariant forall k :: 0 <= k < |rows| ==> rows[k] == if k < i then Row(was[k].id, was[k].cells + [None]) else was[k]
      {
        rows := rows[i := Row(rows[i].id, rows[i].cells + [None])];
      }
    }

    method ColumnIndex(tag: nat) returns (r: Option<nat>)
      ensures r.Some? <==> tag in columns
      ensures r.Some? ==> r.value < |columns| && columns[r.value] == tag && tag !in columns[..r.value]
    {
      for i := 0 to |columns|
        invariant tag !in columns[..i]
      {
        if columns[i] == tag {
          return Some(i);
        }
      }
      return None;
    }

    /** The setters: a cell is overwritten, kind and all. */
    method Set(row: nat, tag: nat, cell: Cell) returns (r: Result<()>)
      requires Valid() && CellKind(tag, cell)
      modifies `rows
      ensures Valid() && |rows| == |old(rows)|
      ensures r.Ok? <==> row < |rows| && tag in columns
      ensures r.Err? ==> unchanged(this)
      ensures r.Ok? ==> rows == old(rows)[row := WithCell(columns, old(rows)[row], tag, cell)]
    {
      if row >= |rows| {
        return Err("table row index out of range");
      }
      var k := ColumnIndex(tag);
      if k.None? {
        return Err("table column not declared");
      }
      rows := rows[row := Row(rows[row].id, rows[row].cells[k.value := Some(cell)])];
      return Ok(());
    }

    method AddRow(id: nat) returns (index: nat)
      requires Valid() && id < U32 && columns[0] == TAG_ROW_ID && columns[1] == TAG_ROW_VER
      modifies `rows
      ensures Valid() && index == |old(rows)|
      ensures rows == old(rows) + [Row(id, [Some(Fixed(Put32(id))), Some(Fixed(Put32(1)))] + NoCells(|columns| - 2))]
    {
      hide Put32;
      rows := rows + [Row(id, NoCells(|columns|))];
      index := |rows| - 1;
      ghost var was := rows;
      var a := Set(index, TAG_ROW_ID, Fixed(Put32(id)));
      var b := Set(index, TAG_ROW_VER, Fixed(Put32(1)));
      assert rows[index].cells == [Some(Fixed(Put32(id))), Some(Fixed(Put32(1)))] + NoCells(|columns| - 2);
    }

    /** One row: its variable values placed, its image filled column by column. */
    method PlaceRow(hn: Bth.AnyHeap, subs: SubnodeAllocator, row: Row) returns (r: Result<Buf>, ghost raws: seq<Option<Buf>>)
      requires TagsFit(columns) && RowKinds(columns, row) && hn.InMemory? && hn.Valid() && subs.ndb.Valid()
      modifies hn.Objects(), subs, subs.ndb
      ensures subs.ndb.Valid() && subs.ndb.Grown() && subs.ndb.nbt == old(subs.ndb.nbt) && subs.Kept() && hn.Kept()
      ensures r.Ok? ==> hn.Valid() && |hn.Contents()| <= |old(hn.Contents())| + |columns|
      ensures subs.nextIndex <= old(subs.nextIndex) + |columns|
      ensures r.Ok? ==> ReadsMore(InHeap(old(hn.Contents())), InHeap(hn.Contents()))
      ensures r.Ok? ==> ImageOf(columns, r.value, raws)
      ensures r.Ok? && Sound(old(subs.Good()), subs) ==> RowLeads(hn.Contents(), subs.ndb.blocks, subs.entries, FitRow(columns, row).cells, raws)
      ensures r.Err? ==> (exists k :: 0 <= k < |row.cells| && Large(row.cells[k])) || |old(hn.Contents())| + |columns| > MAX_BLOCKS
      ensures r.Ok? && subs.ndb.Fits64() ==> Ownership.Passes(old(Together(hn, subs)), Together(hn, subs))
    {
      hide Together, Ownership.Passes, Ndb.NdbWriter.Valid, hn.Valid, hn.Contents, SubData, InHeap, ReadsMore, DistinctKeys,
           Space.SpaceOk, NdbFile.BlocksOk, Numbered, RowLeads, CellLeads, Partial, PutCell, RefLeads, Ib, Bitmap, RowSize, CellKind, FixedSize,
           Fit, Put32, Width, Columns;
      Bth.CoversItself(InHeap(hn.Contents()));
      PartialStart(columns);
      TogetherPasses(hn, subs);
      NoRowLeads(hn.Contents(), subs.ndb.blocks, subs.entries);
      ghost var fit := FitRow(columns, row).cells;
      var image := Zeros(RowSize(columns));
      raws := [];
      for i := 0 to |columns|
        invariant hn.Valid() && hn.Kept() && |hn.Contents()| <= |old(hn.Contents())| + i
        invariant subs.nextIndex <= old(subs.nextIndex) + i
        invariant subs.ndb.Valid() && subs.ndb.Grown() && subs.ndb.nbt == old(subs.ndb.nbt) && subs.Kept()
        invariant ReadsMore(InHeap(old(hn.Contents())), InHeap(hn.Contents()))
        invariant Partial(columns, image, raws, i)
        invariant subs.ndb.Fits64() ==> Ownership.Passes(old(Together(hn, subs)), Together(hn, subs))
        invariant Sound(old(subs.Good()), subs) ==> RowLeads(hn.Contents(), subs.ndb.blocks, subs.entries, fit[..i], raws)
      {
        ghost var h, blocks, entries, held := hn.Contents(), subs.ndb.blocks, subs.entries, Together(hn, subs);
        ghost var raw: Option<Buf> := None;
        if row.cells[i].None? {
          PartialSkip(columns, image, raws, i);
          NoneLeads(h, blocks, entries);
        } else {
          VariableWidth(columns[i], row.cells[i].value);
          var bytes: Buf;
          match row.cells[i].value {
            case Fixed(data) =>
              bytes := Fit(data, Width(columns[i]));
            case Var(data) =>
              var hnid := PlaceVariable(hn, subs, data);
              if hnid.Err? {
                return Err(hnid.reason), raws;
              }
              bytes := Put32(hnid.value);
              if subs.ndb.Fits64() { Ownership.PassesThen(old(Together(hn, subs)), held, Together(hn, subs)); }
              CoversTransitive(InHeap(old(hn.Contents())), InHeap(h), InHeap(hn.Contents()));
              if Sound(old(subs.Good()), subs) {
                RowLeadsGrow(h, hn.Contents(), blocks, subs.ndb.blocks, entries, subs.entries, fit[..i], raws);
                VariableLeads(hn.Contents(), subs.ndb.blocks, subs.entries, data, hnid.value);
              }
          }
          FixedLeads(hn.Contents(), subs.ndb.blocks, subs.entries, fit[i].value, bytes);
          raw := Some(bytes);
          PartialWrite(columns, image, raws, i, bytes);
          image := PutCell(columns, image, i, bytes);
        }
        if Sound(old(subs.Good()), subs) {
          RowLeadsSnoc(hn.Contents(), subs.ndb.blocks, subs.entries, fit, i, raws, raw);
        }
        raws := raws + [raw];
      }
      PartialDone(columns, image, raws);
      assert fit[..|columns|] == fit;
      return Ok(image), raws;
    }

    /** The images of all rows. */
    method PlaceRows(hn: Bth.AnyHeap, subs: SubnodeAllocator) returns (r: Result<Buf>, ghost images: seq<Buf>)
      requires Valid() && hn.InMemory? && hn.Valid() && subs.ndb.Valid()
      modifies hn.Objects(), subs, subs.ndb
      ensures subs.ndb.Valid() && subs.ndb.Grown() && subs.ndb.nbt == old(subs.ndb.nbt) && subs.Kept() && hn.Kept()
      ensures r.Ok? ==> hn.Valid() && |hn.Contents()| <= |old(hn.Contents())| + |rows| * |columns|
      ensures subs.nextIndex <= old(subs.nextIndex) + |rows| * |columns|
      ensures r.Ok? ==> r.value == Concat(images) && |images| == |rows| && AllSized(images, RowSize(columns))
      ensures r.Ok? && Sound(old(subs.Good()), subs)
              ==> RowsDone(hn.Contents(), subs.ndb.blocks, subs.entries, columns, FitRows(columns, rows), images)
      ensures r.Err? ==> Oversized(rows) || |old(hn.Contents())| + |rows| * |columns| > MAX_BLOCKS
      ensures r.Ok? && subs.ndb.Fits64() ==> Ownership.Passes(old(Together(hn, subs)), Together(hn, subs))
    {
      hide Together, Ownership.Passes, Ndb.NdbWriter.Valid, hn.Valid, hn.Contents, DistinctKeys, Space.SpaceOk, NdbFile.BlocksOk,
           RowsDone, RowLeads, InHeap, ReadsMore, RowSize, Concat, TagsFit, RowKinds, FitRow, Large;
      images := [];
      ghost var fit := FitRows(columns, rows);
      var matrix: Buf := [];
      TogetherPasses(hn, subs);
      NoRows(hn.Contents(), subs.ndb.blocks, subs.entries, columns);
      for i := 0 to |rows|
        invariant hn.Valid() && hn.Kept() && |hn.Contents()| <= |old(hn.Contents())| + i * |columns|
        invariant subs.nextIndex <= old(subs.nextIndex) + i * |columns|
        invariant subs.ndb.Valid() && subs.ndb.Grown() && subs.ndb.nbt == old(subs.ndb.nbt) && subs.Kept()
        invariant matrix == Concat(images) && |images| == i && AllSized(images, RowSize(columns))
        invariant subs.ndb.Fits64() ==> Ownership.Passes(old(Together(hn, subs)), Together(hn, subs))
        invariant Sound(old(subs.Good()), subs)
                  ==> RowsDone(hn.Contents(), subs.ndb.blocks, subs.entries, columns, fit[..i], images)
      {
        ghost var h, blocks, entries, held := hn.Contents(), subs.ndb.blocks, subs.entries, Together(hn, subs);
        OneMore(i + 1, |columns|);
        Bth.Scale(i + 1, |rows|, |columns|);
        var image, raws := PlaceRow(hn, subs, rows[i]);
        if image.Err? {
          return Err(image.reason), images;
        }
        if subs.ndb.Fits64() { Ownership.PassesThen(old(Together(hn, subs)), held, Together(hn, subs)); }
        if Sound(old(subs.Good()), subs) {
          RowsDoneGrow(h, hn.Contents(), blocks, subs.ndb.blocks, entries, subs.entries, columns, fit[..i], images);
          RowIsDone(hn.Contents(), subs.ndb.blocks, subs.entries, columns, fit[i], image.value, raws);
          RowsDoneSnoc(hn.Contents(), subs.ndb.blocks, subs.entries, columns, fit[..i], images, fit[i], image.value);
          assert fit[..i + 1] == fit[..i] + [fit[i]];
        }
        ImageSize(columns, image.value, raws);
        ConcatSnocAll(images, image.value);
        matrix := matrix + image.value;
        images := images + [image.value];
      }
      assert fit[..|rows|] == fit;
      return Ok(matrix), images;
    }

    /** Where the rows go: into the heap when they fit an allocation, otherwise into a
        subnode whose blocks hold whole rows. */
    method PlaceMatrix(hn: Bth.AnyHeap, subs: SubnodeAllocator, matrix: Buf, ghost images: seq<Buf>)
      returns (r: Result<nat>, ghost stored: Buf)
      requires TagsFit(columns) && hn.InMemory? && hn.Valid() && subs.ndb.Valid()
      requires matrix == Concat(images) && |images| == |rows| && AllSized(images, RowSize(columns))
      modifies hn.Objects(), subs, subs.ndb
      ensures subs.ndb.Valid() && subs.ndb.Grown() && subs.ndb.nbt == old(subs.ndb.nbt) && subs.Kept() && hn.Kept()
      ensures r.Ok? ==> hn.Valid() && |hn.Contents()| <= |old(hn.Contents())| + 1 && r.value < U32
      ensures subs.nextIndex <= old(subs.nextIndex) + 1
      ensures r.Ok? ==> ReadsMore(InHeap(old(hn.Contents())), InHeap(hn.Contents()))
      ensures r.Ok? ==> MatrixHolds(stored, images, RowSize(columns))
      ensures r.Ok? && rows != [] && Sound(old(subs.Good()), subs)
              ==> HnidLeads(hn.Contents(), subs.ndb.blocks, subs.entries, stored, r.value)
      ensures r.Err? ==> MatrixTooLarge(|rows|, RowSize(columns)) || |old(hn.Contents())| >= MAX_BLOCKS
      ensures r.Ok? && subs.ndb.Fits64() ==> Ownership.Passes(old(Together(hn, subs)), Together(hn, subs))
    {
      hide Ownership.Passes, Ownership.EntriesRefs, Ndb.BidsOf, Ndb.NdbWriter.Valid, hn.Valid, hn.Contents, SubData, InHeap, ReadsMore,
           DistinctKeys, Space.SpaceOk, NdbFile.BlocksOk, MatrixHolds, RowSize, Bitmap, Concat, Packed;
      Bth.CoversItself(InHeap(hn.Contents()));
      RowSizeBound(columns);
      TogetherPasses(hn, subs);
      ghost var heap, entries := hn.Held(), subs.Held();
      var size := RowSize(columns);
      if |rows| == 0 {
        NoMatrix(images, size);
        return Ok(0), [];
      }
      if |matrix| <= MAX_ALLOC {
        InlineHolds(images, size);
        stored := matrix;
        r := hn.Alloc(matrix);
      } else {
        var padded := Pad(matrix, |rows|, size, images);
        PackedHolds(images, size);
        PackedLength(images, size);
        stored := padded;
        label Before:
        r := subs.Spill(padded);
        hn.Survives@Before();
        if r.Ok? && subs.ndb.Fits64() { Ownership.PassesBeside(entries, subs.Held(), heap.loose); }
        if r.Ok? && subs.nextIndex <= MAX_INDEX { SpilledId(old(subs.nextIndex)); }
      }
    }

    /** The index of row ids, as records for the B-tree. */
    method IndexRows() returns (index: seq<Record>)
      ensures index == IndexRecords(Ids(rows))
    {
      hide Put32;
      index := [];
      for i := 0 to |rows|
        invariant |index| == i && forall k :: 0 <= k < i ==> index[k] == Record(Put32(rows[k].id), Put32(k))
      {
        index := index + [Record(Put32(rows[i].id), Put32(i))];
      }
    }

    /** Rows, then their matrix. */
    method PlaceTable(hn: Bth.AnyHeap, subs: SubnodeAllocator) returns (r: Result<nat>, ghost images: seq<Buf>, ghost stored: Buf)
      requires Valid() && hn.InMemory? && hn.Valid() && subs.ndb.Valid()
      modifies hn.Objects(), subs, subs.ndb
      ensures subs.ndb.Valid() && subs.ndb.Grown() && subs.ndb.nbt == old(subs.ndb.nbt) && subs.Kept() && hn.Kept()
      ensures r.Ok? ==> hn.Valid() && |hn.Contents()| <= |old(hn.Contents())| + |rows| * |columns| + 1 && r.value < U32
      ensures subs.nextIndex <= old(subs.nextIndex) + |rows| * |columns| + 1
      ensures r.Ok? ==> MatrixHolds(stored, images, RowSize(columns))
      ensures r.Ok? && Sound(old(subs.Good()), subs)
              ==> RowsDone(hn.Contents(), subs.ndb.blocks, subs.entries, columns, FitRows(columns, rows), images)
                  && (rows != [] ==> HnidLeads(hn.Contents(), subs.ndb.blocks, subs.entries, stored, r.value))
      ensures r.Err? ==> Oversized(rows) || MatrixTooLarge(|rows|, RowSize(columns))
                         || 1 + |old(hn.Contents())| + |rows| * |columns| > MAX_BLOCKS
      ensures r.Ok? && subs.ndb.Fits64() ==> Ownership.Passes(old(Together(hn, subs)), Together(hn, subs))
    {
      hide Together, Ownership.Passes, Ndb.NdbWriter.Valid, hn.Valid, hn.Contents, DistinctKeys, Space.SpaceOk, NdbFile.BlocksOk,
           RowsDone, InHeap, ReadsMore, RowSize, Concat, TagsFit, RowKinds, FitRow, Packed, Oversized, MatrixHolds, HnidLeads;
      stored := [];
      var matrix;
      matrix, images := PlaceRows(hn, subs);
      if matrix.Err? {
        return Err(matrix.reason), images, stored;
      }
      ghost var h, blocks, entries, held := hn.Contents(), subs.ndb.blocks, subs.entries, Together(hn, subs);
      r, stored := PlaceMatrix(hn, subs, matrix.value, images);
      if r.Ok? && subs.ndb.Fits64() { Ownership.PassesThen(old(Together(hn, subs)), held, Together(hn, subs)); }
      if r.Ok? && Sound(old(subs.Good()), subs) {
        RowsDoneGrow(h, hn.Contents(), blocks, subs.ndb.blocks, entries, subs.entries, columns, FitRows(columns, rows), images);
      }
    }

    /** The heap's stream. A reader gets, for every row id and every column, the cell last
        set there, in the column's width, or nothing. */
    method Serialize(subs: SubnodeAllocator) returns (r: Result<Buf>)
      requires Valid() && subs.ndb.Valid()
      modifies subs, subs.ndb
      ensures subs.ndb.Valid() && subs.ndb.Grown() && subs.ndb.nbt == old(subs.ndb.nbt) && subs.Kept()
      ensures r.Ok? && Sound(old(subs.Good()), subs) && DistinctRowIds(Ids(rows)) && |rows| < U32 ==>
                AnswersFrom(r.value, subs.ndb.blocks, subs.entries, columns, FitRows(columns, rows))
      ensures subs.nextIndex <= old(subs.nextIndex) + |rows| * |columns| + 1
      ensures r.Ok? ==> |r.value| < U32
      ensures r.Err? ==> Oversized(rows) || MatrixTooLarge(|rows|, RowSize(columns))
                         || 3 + |rows| * |columns| + Bth.MostBlocks(|rows|, 4, 4) > MAX_BLOCKS
      ensures r.Ok? && subs.ndb.Fits64() ==> Ownership.Passes(old(subs.Held()), subs.Held())
    {
      hide Together, Ownership.Passes, subs.Held, Ndb.NdbWriter.Valid, DistinctKeys, Space.SpaceOk, NdbFile.BlocksOk, RowsDone, InHeap,
           ReadsMore, RowSize, Concat, TagsFit, Packed, RowKinds, RowFits, FitRow, FitRows, Oversized, MatrixHolds, HnidLeads,
           Bth.Built, Bth.Added, Info, Sized, HeapOk, Render, Bth.MostBlocks, AnswersFrom, DistinctRowIds, Subs, SubData, AllSized,
           Numbered;
      var node := new HeapNode.HeapNode(TC_SIGNATURE);
      var hn := Bth.InMemory(node);
      TogetherAlone(hn, subs);
      ghost var held, fit := Together(hn, subs), FitRows(columns, rows);
      FittedRows(columns, rows);
      var hnidRows, images, stored := PlaceTable(hn, subs);
      if hnidRows.Err? {
        return Err(hnidRows.reason);
      }
      TogetherAlone(hn, subs);
      ghost var h := node.Contents();
      var index := IndexRows();
      IndexSized(Ids(fit));
      var roots, g := FinishTable(hn, columns, hnidRows.value, index);
      if roots.Err? {
        return Err(roots.reason);
      }
      var rowIndex, root := roots.value.0, roots.value.1;
      node.SetUserRoot(root);
      ghost var k := node.Contents();
      HeapNode.NotEmpty(k);
      var stream := node.Serialize();
      if Sound(old(subs.Good()), subs) && DistinctRowIds(Ids(rows)) && |rows| < U32 {
        Conclude(h, g, k, subs.ndb.blocks, subs.entries, columns, fit, images, stored, index, rowIndex, hnidRows.value, root,
                 TC_SIGNATURE, HeapNode.FillLevels(k));
      }
      return Ok(stream);
    }
  }

  /** A row after a cell has been set. */
  function WithCell(tags: seq<nat>, row: Row, tag: nat, cell: Cell): (r: Row)
    ensures r.id == row.id && |r.cells| == |row.cells|
  {
    match FindTag(tags, tag)
    case Some(k) => if k < |row.cells| then Row(row.id, row.cells[k := Some(cell)]) else row
    case None => row
  }

  lemma NoneLeads(h: Heap, blocks: Store, entries: seq<SubEntry>)
    ensures CellLeads(h, blocks, entries, None, None)
  {
  }

  lemma FixedLeads(h: Heap, blocks: Store, entries: seq<SubEntry>, cell: Cell, data: Buf)
    ensures cell == Fixed(data) ==> CellLeads(h, blocks, entries, Some(cell), Some(data))
  {
  }

  lemma NoRows(h: Heap, blocks: Store, entries: seq<SubEntry>, tags: seq<nat>)
    ensures RowsDone(h, blocks, entries, tags, [], []) && Concat([]) == []
  {
  }

  lemma RowIsDone(h: Heap, blocks: Store, entries: seq<SubEntry>, tags: seq<nat>, row: Row, image: Buf, raws: seq<Option<Buf>>)
    requires RowLeads(h, blocks, entries, row.cells, raws) && ImageOf(tags, image, raws)
    ensures RowDone(h, blocks, entries, tags, row, image)
  {
  }

  lemma ImageSize(tags: seq<nat>, image: Buf, raws: seq<Option<Buf>>)
    requires ImageOf(tags, image, raws)
    ensures |image| == RowSize(tags)
  {
  }

  lemma ConcatSnocAll(images: seq<Buf>, image: Buf)
    ensures Concat(images + [image]) == Concat(images) + image
  {
    assert (images + [image])[..|images|] == images;
  }

  lemma NoMatrix(images: seq<Buf>, rs: nat)
    requires images == []
    ensures MatrixHolds([], images, rs)
  {
  }

  lemma InfoSize(tags: seq<nat>, rowIndex: nat, hnidRows: nat)
    requires TagsFit(tags)
    ensures |Info(tags, rowIndex, hnidRows)| <= MAX_ALLOC
  {
  }

  lemma BuiltBlocks(h: Heap, g: Heap, hid: nat, index: seq<Record>)
    requires Bth.Built(h, g, hid, index, 4, 4)
    ensures |g| <= |h| + Bth.MostBlocks(|index|, 4, 4) && 0 < hid < U32
  {
  }

  /** A reader of the stream gives the table's answer everywhere. */
  ghost predicate Answers(stream: Buf, sub: nat -> Option<Buf>, tags: seq<nat>, rows: seq<Row>) {
    forall id: nat, tag: nat :: ReadCell(stream, sub, id, tag) == CellOf(tags, rows, id, tag)
  }

  lemma TableAnswers(stream: Buf, h: Heap, blocks: Store, entries: seq<SubEntry>, tags: seq<nat>, rows: seq<Row>, images: seq<Buf>,
                     matrix: Buf, rowIndex: nat, hnidRows: nat)
    requires TableStored(stream, h, blocks, entries, tags, rows, images, matrix, rowIndex, hnidRows)
    requires DistinctRowIds(Ids(rows)) && |rows| < U32 && forall i :: 0 <= i < |rows| ==> RowFits(tags, rows[i])
    ensures Answers(stream, Subs(blocks, entries), tags, rows)
  {
    hide TableStored, ReadCell, CellOf, RowFits, Subs, DistinctRowIds;
    forall id: nat, tag: nat ensures ReadCell(stream, Subs(blocks, entries), id, tag) == CellOf(tags, rows, id, tag) {
      CellReads(stream, h, blocks, entries, tags, rows, images, matrix, rowIndex, hnidRows, id, tag);
    }
  }

  /** Rows and matrix placed in `h`, the index built in `g`, TCINFO in `k`: rendered with
      TCINFO as the user root this is a table a reader can follow. */
  lemma TableIsStored(h: Heap, g: Heap, k: Heap, blocks: Store, entries: seq<SubEntry>, tags: seq<nat>, rows: seq<Row>,
                      images: seq<Buf>, matrix: Buf, index: seq<Record>, rowIndex: nat, hnidRows: nat, root: nat, sig: byte, fill: Buf)
    requires TagsFit(tags) && hnidRows < U32 && HeapOk(k) && |fill| == 4
    requires RowsDone(h, blocks, entries, tags, rows, images) && MatrixHolds(matrix, images, RowSize(tags))
    requires rows != [] ==> HnidLeads(h, blocks, entries, matrix, hnidRows)
    requires Bth.Built(h, g, rowIndex, index, 4, 4) && multiset(index) == multiset(IndexRecords(Ids(rows)))
    requires Bth.Added(g, k, Info(tags, rowIndex, hnidRows), root)
    ensures TableStored(Render(k, sig, root, fill), k, blocks, entries, tags, rows, images, matrix, rowIndex, hnidRows)
  {
    hide TagsFit, HeapOk, RowsDone, MatrixHolds, HnidLeads, ReadsMore, InHeap, InStream, Info, Render, Holds, UserRoot, SortBy, RecsOf,
         Bth.PerLeaf, Bth.PerIndex, RowSize, Put32;
    var stream := Render(k, sig, root, fill);
    StreamCovers(k, sig, root, fill);
    CoversTransitive(InHeap(h), InHeap(g), InHeap(k));
    CoversTransitive(InHeap(g), InHeap(k), InStream(stream));
    HeapRefinement.UserRootReads(k, sig, root, fill);
    HoldsCovers(InHeap(g), InStream(stream), rowIndex, RecsOf(SortBy(index, ByKey())), Bth.PerLeaf(4, 4), Bth.PerIndex(4));
    ExtendsItself(blocks);
    RowsDoneGrow(h, k, blocks, blocks, entries, entries, tags, rows, images);
    if rows != [] { HnidLeadsGrow(h, k, blocks, blocks, entries, entries, matrix, hnidRows); }
  }

  /** The answers hold now and however many blocks are added. */
  ghost predicate AnswersFrom(stream: Buf, blocks: Store, entries: seq<SubEntry>, tags: seq<nat>, rows: seq<Row>) {
    forall b: Store :: Extends(blocks, b) ==> Answers(stream, Subs(b, entries), tags, rows)
  }

  lemma AnswersAt(stream: Buf, a: Store, b: Store, entries: seq<SubEntry>, tags: seq<nat>, rows: seq<Row>)
    requires AnswersFrom(stream, a, entries, tags, rows) && Extends(a, b)
    ensures Answers(stream, Subs(b, entries), tags, rows)
  {
  }

  lemma AnswersLater(stream: Buf, a: Store, b: Store, entries: seq<SubEntry>, tags: seq<nat>, rows: seq<Row>)
    requires AnswersFrom(stream, a, entries, tags, rows) && Extends(a, b)
    ensures AnswersFrom(stream, b, entries, tags, rows)
  {
    hide Answers, Subs;
    forall c: Store | Extends(b, c) ensures Answers(stream, Subs(c, entries), tags, rows) {
      assert Extends(a, c);
    }
  }

  /** From the parts to the reader's view of the whole. */
  lemma Conclude(h: Heap, g: Heap, k: Heap, a: Store, entries: seq<SubEntry>, tags: seq<nat>, rows: seq<Row>, images: seq<Buf>,
                 matrix: Buf, index: seq<Record>, rowIndex: nat, hnidRows: nat, root: nat, sig: byte, fill: Buf)
    requires TagsFit(tags) && hnidRows < U32 && HeapOk(k) && |fill| == 4
    requires RowsDone(h, a, entries, tags, rows, images) && MatrixHolds(matrix, images, RowSize(tags))
    requires rows != [] ==> HnidLeads(h, a, entries, matrix, hnidRows)
    requires Bth.Built(h, g, rowIndex, index, 4, 4) && multiset(index) == multiset(IndexRecords(Ids(rows)))
    requires Bth.Added(g, k, Info(tags, rowIndex, hnidRows), root)
    requires DistinctRowIds(Ids(rows)) && |rows| < U32 && forall i :: 0 <= i < |rows| ==> RowFits(tags, rows[i])
    ensures AnswersFrom(Render(k, sig, root, fill), a, entries, tags, rows)
  {
    hide TagsFit, HeapOk, RowsDone, MatrixHolds, HnidLeads, InHeap, ReadsMore, Bth.Built, Bth.Added, Info, Render, RowSize, Subs, Answers,
         DistinctRowIds, TableStored, RowFits;
    Bth.CoversItself(InHeap(h));
    forall c: Store | Extends(a, c) ensures Answers(Render(k, sig, root, fill), Subs(c, entries), tags, rows) {
      RowsDoneGrow(h, h, a, c, entries, entries, tags, rows, images);
      if rows != [] { HnidLeadsGrow(h, h, a, c, entries, entries, matrix, hnidRows); }
      TableIsStored(h, g, k, c, entries, tags, rows, images, matrix, index, rowIndex, hnidRows, root, sig, fill);
      TableAnswers(Render(k, sig, root, fill), k, c, entries, tags, rows, images, matrix, rowIndex, hnidRows);
    }
  }

  lemma ExtendsItself(blocks: Store)
    ensures Extends(blocks, blocks)
  {
  }
}
