/** Tables in the file: what rows are set comes back out of a data tree and a subnode tree. */
module TableArchive {
  import opened Bytes
  import opened Wrappers
  import opened DataTree
  import opened SubnodeTree
  import opened NodeId
  import opened SubnodeAllocator
  import opened PropertyContext
  import opened TableFormat
  import opened TableReader
  import opened TableContext
  import opened TableContextWriter
  import opened TableRefinement
  import opened ContextArchive
  import opened Ownership
  import opened Ndb
  import opened RowLayout
  import opened NdbFile
  import opened PageTree
  import BthFormat
  import HeapFormat

  /** The rows a script leaves. */
  function RowsOf(tags: seq<nat>, script: seq<RowScript>): (rows: seq<Row>)
    ensures InStep(tags, script, rows)
  {
    seq(|script|, i requires 0 <= i < |script| => Apply(tags, NewRow(tags, script[i].id), script[i].first))
  }

  /** Data tree `data` and subnode tree `sub` hold the table, now and whatever blocks are
      added: a reader gets, for every row id and every column, what the rows say. */
  ghost predicate TableOnFile(blocks: Store, data: nat, sub: nat, tags: seq<nat>, rows: seq<Row>) {
    && ReadTree(blocks, data).Some? && (sub != 0 ==> ParseSub(blocks, sub).Some?)
    && forall c: Store :: Extends(blocks, c) ==> Answers(ReadTree(blocks, data).value, TreeSubs(c, sub), tags, rows)
  }

  lemma TableOnFileGrow(a: Store, b: Store, data: nat, sub: nat, tags: seq<nat>, rows: seq<Row>)
    requires Extends(a, b) && TableOnFile(a, data, sub, tags, rows)
    ensures TableOnFile(b, data, sub, tags, rows)
  {
    hide Answers, ReadTree, ParseSub, TreeSubs;
    ReadTreeGrow(a, b, data);
    if sub != 0 { FindSubGrow(a, b, sub, 0); }
    forall c: Store | Extends(b, c) ensures Answers(ReadTree(b, data).value, TreeSubs(c, sub), tags, rows) {
      assert Extends(a, c);
    }
  }

  /** A cell of a table node, from the header of the file down. */
  ghost function ReadFileCell(s: Sums, file: Buf, nid: nat, id: nat, tag: nat): Option<Cell> {
    match ReadNode(s, file, nid)
    case None => None
    case Some(n) =>
      match ReadTree(StoreOf(s, file), n.data)
      case None => None
      case Some(stream) => ReadCell(stream, TreeSubs(StoreOf(s, file), n.sub), id, tag)
  }

  /** The cells of a node that holds a table are the table's. */
  lemma TableReads(s: Sums, file: Buf, nid: nat, e: NbtEntry, tags: seq<nat>, rows: seq<Row>, id: nat, tag: nat)
    requires ReadNode(s, file, nid) == Some(e) && TableOnFile(StoreOf(s, file), e.data, e.sub, tags, rows)
    ensures ReadFileCell(s, file, nid, id, tag) == CellOf(tags, rows, id, tag)
  {
    hide StoreOf, ReadNode, ReadTree, ReadCell, CellOf, TableOnFile, TreeSubs;
    TableAnswersNow(StoreOf(s, file), e.data, e.sub, tags, rows);
  }

  lemma TableAnswersNow(blocks: Store, data: nat, sub: nat, tags: seq<nat>, rows: seq<Row>)
    requires TableOnFile(blocks, data, sub, tags, rows)
    ensures ReadTree(blocks, data).Some? && Answers(ReadTree(blocks, data).value, TreeSubs(blocks, sub), tags, rows)
  {
    hide Answers, ReadTree, ParseSub, TreeSubs;
    ExtendsItself(blocks);
  }

  /** Readers of subnodes that agree give the same answers. */
  lemma AnswersAlike(stream: Buf, f: nat -> Option<Buf>, g: nat -> Option<Buf>, tags: seq<nat>, rows: seq<Row>)
    requires Answers(stream, f, tags, rows) && forall nid: nat :: f(nid) == g(nid)
    ensures Answers(stream, g, tags, rows)
  {
    hide CellOf, ReadCell;
    forall id: nat, tag: nat ensures ReadCell(stream, g, id, tag) == CellOf(tags, rows, id, tag) {
      CellAlike(stream, f, g, id, tag);
      assert ReadCell(stream, f, id, tag) == CellOf(tags, rows, id, tag);
    }
  }

  lemma CellAlike(stream: Buf, f: nat -> Option<Buf>, g: nat -> Option<Buf>, id: nat, tag: nat)
    requires forall nid: nat :: f(nid) == g(nid)
    ensures ReadCell(stream, f, id, tag) == ReadCell(stream, g, id, tag)
  {
    hide BthFormat.Lookup, HeapFormat.HeapItem, HeapFormat.UserRoot, Descriptors, FindColumn, Peek, TableFormat.Present, Sub, RowAt, FixedSize;
  }

  /** From the entry list to the subnode tree on file. */
  lemma StoredByEntries(a: Store, b: Store, stream: Buf, data: nat, sub: nat, entries: seq<SubEntry>, tags: seq<nat>, rows: seq<Row>)
    requires Extends(a, b) && ReadTree(b, data) == Some(stream) && SubnodesRead(b, sub, entries)
    requires AnswersFrom(stream, a, entries, tags, rows)
    ensures TableOnFile(b, data, sub, tags, rows)
  {
    hide Answers, ReadTree, ParseSub, FindSub, SubData;
    forall c: Store | Extends(b, c) ensures Answers(stream, TreeSubs(c, sub), tags, rows) {
      SubnodesGrow(b, c, sub, entries);
      assert Extends(a, c);
      var f, g := Subs(c, entries), TreeSubs(c, sub);
      forall nid: nat ensures f(nid) == g(nid) { SameSub(c, sub, entries, nid); }
      AnswersAlike(stream, f, g, tags, rows);
    }
  }

  lemma SameSub(blocks: Store, sub: nat, entries: seq<SubEntry>, nid: nat)
    requires SubnodesRead(blocks, sub, entries)
    ensures Subs(blocks, entries)(nid) == TreeSubs(blocks, sub)(nid)
  {
    hide ReadTree, FindSub, FindEntry, ParseSub;
    assert FindSub(blocks, sub, nid) == FindEntry(entries, nid);
  }

  predicate ColumnsOk(columns: seq<nat>) {
    |columns| + 2 <= MAX_COLUMNS && forall i :: 0 <= i < |columns| ==> columns[i] < U32
  }

  /** Subnode ids suffice for every cell of the table. */
  predicate Numerable(columns: seq<nat>, script: seq<RowScript>) { |script| * (|columns| + 2) + 2 <= MAX_INDEX }

  /** An in-memory table, written with its subnodes. */
  method StoreTable(w: NdbWriter, columns: seq<nat>, script: seq<RowScript>) returns (r: Result<(nat, nat)>)
    requires w.Valid() && ColumnsOk(columns) && Scripted(Declared(columns), script) && |script| < U32
    modifies w
    ensures w.Valid() && w.Grown() && w.nbt == old(w.nbt)
    ensures r.Ok? ==> r.value.0 in w.blocks && (r.value.1 != 0 ==> r.value.1 in w.blocks)
    ensures r.Err? ==> !TableFits(columns, script)
    ensures r.Ok? && w.Fits64() && Numerable(columns, script) ==>
              TableOnFile(w.blocks, r.value.0, r.value.1, Declared(columns), RowsOf(Declared(columns), script))
    ensures r.Ok? && w.Fits64() && Numerable(columns, script) ==> 0 < r.value.0 < U64 && r.value.1 < U64
    ensures r.Ok? && w.Fits64() && Numerable(columns, script)
            ==> Passes(Holding(old(w.blocks), old(BidsOf(w.bbt)), multiset{}), Holding(w.blocks, BidsOf(w.bbt), NodeRefs(r.value.0, r.value.1)))
  {
    hide w.Valid, Declared, Scripted, AnswersFrom, TableOnFile, ReadTree, SubnodesRead, Numbered, InStep, RowsOf, Passes, BidsOf, NodeRefs;
    var subs := new SubnodeAllocator(w);
    NothingHeld(subs);
    ghost var first := subs.Held();
    CellCount(columns, script);
    var ok, stream, rows := PlaySimple(w, subs, columns, script);
    if !ok {
      return Err("table rejected");
    }
    InStepSame(Declared(columns), script, rows, RowsOf(Declared(columns), script));
    ghost var a, held := w.blocks, subs.Held();
    r := StoreParts(w, subs, stream);
    if r.Ok? && w.Fits64() && Numerable(columns, script) {
      PassesThen(first, held, Holding(w.blocks, BidsOf(w.bbt), NodeRefs(r.value.0, r.value.1)));
      StoredByEntries(a, w.blocks, stream, r.value.0, r.value.1, subs.entries, Declared(columns), rows);
    }
  }

  lemma NothingHeld(subs: SubnodeAllocator)
    requires subs.entries == []
    ensures subs.Held() == Holding(subs.ndb.blocks, BidsOf(subs.ndb.bbt), multiset{})
  {
  }
}
