/** Reading a cell of a table context, and what any table's output must provide for the
    reader to find exactly the cells put in. */
module TableReader {
  import opened Bytes
  import opened Wrappers
  import opened Sorting
  import opened SearchTree
  import opened HeapFormat
  import opened BthFormat
  import opened DataTree
  import opened SubnodeTree
  import opened SubnodeAllocator
  import opened PropertyContext
  import opened RowLayout
  import opened TableFormat
  import Bth

  // ------------------------------------------------------------- the table

  /** A fixed-width value, or a variable one that a reference in the row leads to. */
  datatype Cell = Fixed(data: Buf) | Var(data: Buf)

  datatype Row = Row(id: nat, cells: seq<Option<Cell>>)

  predicate CellFits(tag: nat, c: Cell) {
    match c
    case Fixed(data) => FixedSize(TagType(tag)) != 0 && |data| == Width(tag)
    case Var(_) => FixedSize(TagType(tag)) == 0
  }

  predicate RowFits(tags: seq<nat>, row: Row) {
    |row.cells| == |tags| && row.id < U32
    && forall k :: 0 <= k < |tags| ==> row.cells[k].Some? ==> CellFits(tags[k], row.cells[k].value)
  }

  function Ids(rows: seq<Row>): (ids: seq<nat>)
    ensures |ids| == |rows| && forall i :: 0 <= i < |rows| ==> ids[i] == rows[i].id
  {
    seq(|rows|, i requires 0 <= i < |rows| => rows[i].id)
  }

  function FindRow(rows: seq<Row>, id: nat): (r: Option<nat>)
    ensures r.Some? ==> r.value < |rows| && rows[r.value].id == id
    ensures r.None? ==> forall i :: 0 <= i < |rows| ==> rows[i].id != id
  {
    if rows == [] then None
    else if rows[0].id == id then Some(0)
    else
      match FindRow(rows[1..], id)
      case None => None
      case Some(i) => Some(i + 1)
  }

  /** The answer a table gives for a row id and a column. */
  function CellOf(tags: seq<nat>, rows: seq<Row>, id: nat, tag: nat): Option<Cell> {
    match FindRow(rows, id)
    case None => None
    case Some(i) =>
      match FindTag(tags, tag)
      case None => None
      case Some(k) => if k < |rows[i].cells| then rows[i].cells[k] else None
  }

  // ------------------------------------------------------------ the reader

  ghost function Resolve(stream: Buf, sub: nat -> Option<Buf>, hnid: nat): Option<Buf> {
    if IsHid(hnid) then HeapItem(stream, hnid) else sub(hnid)
  }

  ghost function Decode(stream: Buf, sub: nat -> Option<Buf>, tag: nat, raw: Buf): Option<Cell> {
    if FixedSize(TagType(tag)) != 0 then Some(Fixed(raw))
    else if Peek(raw) == 0 then Some(Var([]))
    else
      match Resolve(stream, sub, Peek(raw))
      case None => None
      case Some(data) => Some(Var(data))
  }

  /** TCINFO, the row index, the matrix, the presence bit, the cell. */
  ghost function ReadCell(stream: Buf, sub: nat -> Option<Buf>, id: nat, tag: nat): Option<Cell> {
    match HeapItem(stream, UserRoot(stream))
    case None => None
    case Some(info) =>
      if |info| < 22 then None
      else
        match Lookup(InStream(stream), Peek32At(info, 10), id)
        case None => None
        case Some(ordinal) =>
          match Resolve(stream, sub, Peek32At(info, 14))
          case None => None
          case Some(matrix) =>
            match FindColumn(Descriptors(info[22..]), tag)
            case None => None
            case Some(c) =>
              var rs := Peek16At(info, 8);
              var row := Sub(matrix, RowAt(rs, Peek(ordinal)), rs);
              if Present(row, Peek16At(info, 6), c.ibit) then Decode(stream, sub, tag, Sub(row, c.ib, c.cb)) else None
  }

  // -------------------------------------------- what an output must provide

  /** The raw bytes in the row lead to the cell. */
  ghost predicate CellLeads(h: Heap, blocks: Store, entries: seq<SubEntry>, cell: Option<Cell>, raw: Option<Buf>) {
    match cell
    case None => raw == None
    case Some(Fixed(data)) => raw == Some(data)
    case Some(Var(data)) => raw.Some? && |raw.value| == 4 && RefLeads(h, blocks, entries, data, Peek(raw.value))
  }

  ghost predicate RefLeads(h: Heap, blocks: Store, entries: seq<SubEntry>, data: Buf, hnid: nat) {
    if data == [] then hnid == 0 else hnid > 0 && HnidLeads(h, blocks, entries, data, hnid)
  }

  ghost predicate HnidLeads(h: Heap, blocks: Store, entries: seq<SubEntry>, data: Buf, hnid: nat) {
    if IsHid(hnid) then InHeap(h)(hnid) == Some(data) else SubData(blocks, entries, hnid) == Some(data)
  }

  lemma HnidLeadsGrow(h: Heap, g: Heap, a: Store, b: Store, x: seq<SubEntry>, y: seq<SubEntry>, data: Buf, hnid: nat)
    requires ReadsMore(InHeap(h), InHeap(g)) && Extends(a, b) && x <= y && HnidLeads(h, a, x, data, hnid)
    ensures HnidLeads(g, b, y, data, hnid)
  {
    hide SubData, InHeap;
    if !IsHid(hnid) { SubDataGrow(a, b, x, y, hnid); }
  }

  /** A row's cells, its references and its image go together. */
  ghost predicate RowLeads(h: Heap, blocks: Store, entries: seq<SubEntry>, cells: seq<Option<Cell>>, raws: seq<Option<Buf>>) {
    |raws| == |cells| && forall k :: 0 <= k < |cells| ==> CellLeads(h, blocks, entries, cells[k], raws[k])
  }

  lemma RowLeadsGrow(h: Heap, g: Heap, a: Store, b: Store, x: seq<SubEntry>, y: seq<SubEntry>, cells: seq<Option<Cell>>,
                     raws: seq<Option<Buf>>)
    requires ReadsMore(InHeap(h), InHeap(g)) && Extends(a, b) && x <= y && RowLeads(h, a, x, cells, raws)
    ensures RowLeads(g, b, y, cells, raws)
  {
    hide ReadsMore, HnidLeads, Peek;
    forall k | 0 <= k < |cells| ensures CellLeads(g, b, y, cells[k], raws[k]) {
      assert CellLeads(h, a, x, cells[k], raws[k]);
      if cells[k].Some? && cells[k].value.Var? && cells[k].value.data != [] {
        HnidLeadsGrow(h, g, a, b, x, y, cells[k].value.data, Peek(raws[k].value));
      }
    }
  }

  /** All rows up to now: their references lead to their cells, their images hold the
      references. */
  ghost predicate RowsDone(h: Heap, blocks: Store, entries: seq<SubEntry>, tags: seq<nat>, rows: seq<Row>, images: seq<Buf>) {
    && |images| == |rows|
    && forall i :: 0 <= i < |rows| ==> RowDone(h, blocks, entries, tags, rows[i], images[i])
  }

  ghost predicate RowDone(h: Heap, blocks: Store, entries: seq<SubEntry>, tags: seq<nat>, row: Row, image: Buf) {
    exists raws: seq<Option<Buf>> :: RowLeads(h, blocks, entries, row.cells, raws) && ImageOf(tags, image, raws)
  }

  lemma RowsDoneGrow(h: Heap, g: Heap, a: Store, b: Store, x: seq<SubEntry>, y: seq<SubEntry>, tags: seq<nat>, rows: seq<Row>,
                     images: seq<Buf>)
    requires ReadsMore(InHeap(h), InHeap(g)) && Extends(a, b) && x <= y && RowsDone(h, a, x, tags, rows, images)
    ensures RowsDone(g, b, y, tags, rows, images)
  {
    hide ReadsMore, RowLeads, ImageOf;
    forall i | 0 <= i < |rows| ensures RowDone(g, b, y, tags, rows[i], images[i]) {
      assert RowDone(h, a, x, tags, rows[i], images[i]);
      var raws: seq<Option<Buf>> :| RowLeads(h, a, x, rows[i].cells, raws) && ImageOf(tags, images[i], raws);
      RowLeadsGrow(h, g, a, b, x, y, rows[i].cells, raws);
    }
  }

  lemma RowsDoneSnoc(h: Heap, blocks: Store, entries: seq<SubEntry>, tags: seq<nat>, rows: seq<Row>, images: seq<Buf>, row: Row,
                     image: Buf)
    requires RowsDone(h, blocks, entries, tags, rows, images) && RowDone(h, blocks, entries, tags, row, image)
    ensures RowsDone(h, blocks, entries, tags, rows + [row], images + [image])
  {
    hide RowDone;
  }

  /** The index finds the row, TCINFO says where the matrix is, the matrix holds the
      images. */
  ghost predicate TableStored(stream: Buf, h: Heap, blocks: Store, entries: seq<SubEntry>, tags: seq<nat>, rows: seq<Row>,
                              images: seq<Buf>, matrix: Buf, rowIndex: nat, hnidRows: nat)
  {
    && TagsFit(tags) && rowIndex < U32 && hnidRows < U32
    && ReadsMore(InHeap(h), InStream(stream)) && InHeap(h)(UserRoot(stream)) == Some(Info(tags, rowIndex, hnidRows))
    && Indexes(InStream(stream), rowIndex, rows)
    && (rows != [] ==> HnidLeads(h, blocks, entries, matrix, hnidRows)) && MatrixHolds(matrix, images, RowSize(tags))
    && RowsDone(h, blocks, entries, tags, rows, images)
  }

  /** A B-tree over the index records, in whatever order they were handed in. */
  ghost predicate Indexes(get: Reader, rowIndex: nat, rows: seq<Row>) {
    exists index: seq<Record> :: multiset(index) == multiset(IndexRecords(Ids(rows)))
      && Holds(get, rowIndex, RecsOf(SortBy(index, ByKey())), Bth.PerLeaf(4, 4), Bth.PerIndex(4))
  }

  lemma PermutedDistinct(a: seq<Record>, b: seq<Record>)
    requires multiset(a) == multiset(b) && DistinctKeys(a, ByKey())
    ensures DistinctKeys(b, ByKey())
  {
    hide Peek;
    forall i, j | 0 <= i < j < |b| ensures ByKey()(b[i]) != ByKey()(b[j]) {
      var x, y, rest := b[i], b[j], b[..i] + b[i + 1..j] + b[j + 1..];
      assert b == b[..i] + [x] + b[i + 1..j] + [y] + b[j + 1..];
      assert multiset(b) == multiset(rest) + multiset{x, y};
      SameMember(b, a, x);
      SameMember(b, a, y);
      var p :| 0 <= p < |a| && a[p] == x;
      var q :| 0 <= q < |a| && a[q] == y;
      if p == q { Twice(a, p); }
    }
  }

  lemma Twice(a: seq<Record>, p: nat)
    requires p < |a| && DistinctKeys(a, ByKey())
    ensures multiset(a)[a[p]] == 1
  {
    hide Peek;
    assert a == a[..p] + [a[p]] + a[p + 1..];
    forall j | 0 <= j < |a| && j != p ensures a[j] != a[p] {
      assert ByKey()(a[j]) != ByKey()(a[p]);
    }
    assert a[p] !in a[..p] && a[p] !in a[p + 1..];
  }

  /** The row index leads from a row id to its ordinal. */
  lemma OrdinalReads(get: Reader, rowIndex: nat, rows: seq<Row>, id: nat)
    requires DistinctRowIds(Ids(rows)) && |rows| < U32 && Indexes(get, rowIndex, rows)
    ensures match FindRow(rows, id)
            case None => Lookup(get, rowIndex, id) == None
            case Some(i) => Lookup(get, rowIndex, id) == Some(Put32(i))
  {
    hide Holds, Lookup, SortBy, Put32, Peek, Bth.PerLeaf, Bth.PerIndex;
    var rs := IndexRecords(Ids(rows));
    var index :| multiset(index) == multiset(rs)
                 && Holds(get, rowIndex, RecsOf(SortBy(index, ByKey())), Bth.PerLeaf(4, 4), Bth.PerIndex(4));
    IndexDistinct(Ids(rows));
    PermutedDistinct(rs, index);
    LookupFinds(get, rowIndex, index, Bth.PerLeaf(4, 4), Bth.PerIndex(4), id);
    FindPermuted(index, rs, id);
    match FindRow(rows, id)
    case None => FindMissing(RecsOf(rs), id);
    case Some(i) => DistinctFind(rs, i);
  }

  lemma RefResolves(stream: Buf, h: Heap, blocks: Store, entries: seq<SubEntry>, data: Buf, hnid: nat)
    requires ReadsMore(InHeap(h), InStream(stream)) && HnidLeads(h, blocks, entries, data, hnid)
    ensures Resolve(stream, Subs(blocks, entries), hnid) == Some(data)
  {
    hide SubData, HeapItem;
    if IsHid(hnid) { assert InHeap(h)(hnid).Some?; }
  }

  lemma CellDecodes(stream: Buf, h: Heap, blocks: Store, entries: seq<SubEntry>, tag: nat, cell: Cell, raw: Buf)
    requires ReadsMore(InHeap(h), InStream(stream)) && CellLeads(h, blocks, entries, Some(cell), Some(raw)) && CellFits(tag, cell)
    ensures Decode(stream, Subs(blocks, entries), tag, raw) == Some(cell)
  {
    hide ReadsMore, HnidLeads, Resolve, Peek, Width;
    if cell.Var? && cell.data != [] { RefResolves(stream, h, blocks, entries, cell.data, Peek(raw)); }
  }

  /** A reader of the stored table gets the table's answer for every row id and every
      column, declared or not. */
  lemma CellReads(stream: Buf, h: Heap, blocks: Store, entries: seq<SubEntry>, tags: seq<nat>, rows: seq<Row>, images: seq<Buf>,
                  matrix: Buf, rowIndex: nat, hnidRows: nat, id: nat, tag: nat)
    requires TableStored(stream, h, blocks, entries, tags, rows, images, matrix, rowIndex, hnidRows)
    requires DistinctRowIds(Ids(rows)) && |rows| < U32 && forall i :: 0 <= i < |rows| ==> RowFits(tags, rows[i])
    ensures ReadCell(stream, Subs(blocks, entries), id, tag) == CellOf(tags, rows, id, tag)
  {
    hide Indexes, Lookup, UserRoot, HeapItem, Info, Descriptors, RowAt, Peek, Put32, Subs, HnidLeads, Resolve, Decode, RowLeads, ImageOf,
         InHeap, InStream, SortBy, DistinctRowIds, Bitmap, RowSize, TagsFit, Present, Ib, Width, CellFits, FindTag, FindColumn;
    var sub, info := Subs(blocks, entries), Info(tags, rowIndex, hnidRows);
    StreamHas(stream, h, UserRoot(stream), info);
    InfoReads(tags, rowIndex, hnidRows);
    OrdinalReads(InStream(stream), rowIndex, rows, id);
    DescriptorOf(tags, tag);
    if FindRow(rows, id).Some? {
      var i := FindRow(rows, id).value;
      PeekPut32(i);
      RefResolves(stream, h, blocks, entries, matrix, hnidRows);
      if FindTag(tags, tag).Some? {
        CellOfRow(stream, h, blocks, entries, tags, rows[i], images[i], FindTag(tags, tag).value);
      }
    }
  }

  lemma StreamHas(stream: Buf, h: Heap, hid: nat, data: Buf)
    requires ReadsMore(InHeap(h), InStream(stream)) && InHeap(h)(hid) == Some(data)
    ensures HeapItem(stream, hid) == Some(data)
  {
    assert InStream(stream)(hid) == Some(data);
  }

  /** The last step: from a row's image to its cell. */
  lemma CellOfRow(stream: Buf, h: Heap, blocks: Store, entries: seq<SubEntry>, tags: seq<nat>, row: Row, image: Buf, k: nat)
    requires ReadsMore(InHeap(h), InStream(stream)) && RowDone(h, blocks, entries, tags, row, image)
    requires RowFits(tags, row) && k < |tags|
    ensures var c := ColumnOf(tags, k);
            (if Present(image, Bitmap(tags), c.ibit)
             then Decode(stream, Subs(blocks, entries), tags[k], Sub(image, c.ib, c.cb)) else None)
            == row.cells[k]
  {
    hide ReadsMore, CellLeads, CellFits, Present, Decode, Ib, Width;
    var raws: seq<Option<Buf>> :| RowLeads(h, blocks, entries, row.cells, raws) && ImageOf(tags, image, raws);
    assert CellLeads(h, blocks, entries, row.cells[k], raws[k]) && CellIn(tags, image, k, raws[k]);
    SameNone(h, blocks, entries, row.cells[k], raws[k]);
    if row.cells[k].Some? {
      CellDecodes(stream, h, blocks, entries, tags[k], row.cells[k].value, raws[k].value);
    }
  }

  lemma SameNone(h: Heap, blocks: Store, entries: seq<SubEntry>, cell: Option<Cell>, raw: Option<Buf>)
    requires CellLeads(h, blocks, entries, cell, raw)
    ensures cell.None? <==> raw.None?
  {
  }
}
