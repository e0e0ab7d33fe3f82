/** The store as a whole: folders and messages in any order, each folder's contents table
    open until the end, then the finished file. */
module PstWriter {
  import opened Bytes
  import opened Wrappers
  import opened Sorting
  import opened NodeId
  import opened DataTree
  import opened SubnodeTree
  import opened NdbFile
  import opened Ownership
  import opened StoreOwnership
  import opened TableFormat
  import opened TableReader
  import opened TableContext
  import opened TableContextWriter
  import opened TableRefinement
  import opened TableArchive
  import opened MessageArchive
  import opened Ndb
  import opened PstStore
  import SubnodeAllocator
  import PropertyContext
  import ContextArchive
  import NdbArchive
  import opened PageTree
  import Space
  import StreamingHeap
  import Bth
  import HeapFormat
  import RowLayout
  import SearchTree

  const PR_CONTENT_COUNT: nat := 0x3602_0003
  const PR_CONTENT_UNREAD: nat := 0x3603_0003
  const PR_SUBFOLDERS: nat := 0x360A_000B

  /** The columns of a store's tables, and what is said of a folder beside its counters. */
  datatype Plan = Plan(schema: Schema, contents: seq<nat>, hierarchy: seq<nat>, associated: seq<nat>,
                       describe: Folder -> seq<PropertyContext.Value>, list: Folder -> seq<Setting>)

  /** What a reserved node holds. */
  datatype Furniture = Table(columns: seq<nat>, script: seq<RowScript>) | Properties(puts: seq<PropertyContext.Value>) | Stream(data: Buf)
                     | Nothing

  ghost predicate PlanOk(p: Plan) {
    && SchemaOk(p.schema) && ColumnsOk(p.contents) && ColumnsOk(p.hierarchy) && ColumnsOk(p.associated)
    && forall f: Folder :: PutsOk(p.describe(f)) && Typed(p.list(f))
  }

  predicate FurnitureOk(f: Furniture) {
    match f
    case Table(columns, script) => ColumnsOk(columns) && Scripted(Declared(columns), script) && Numerable(columns, script) && |script| < U32
    case Properties(puts) => PutsOk(puts)
    case Stream(_) => true
    case Nothing => true
  }

  function Flag(b: bool): byte { if b then 1 else 0 }

  /** A folder's properties, and its row in its parent's hierarchy table. */
  function FolderPuts(p: Plan, f: Folder): seq<PropertyContext.Value> {
    p.describe(f) + [PropertyContext.Value(PR_CONTENT_COUNT, PropertyContext.Inline(f.count)),
                     PropertyContext.Value(PR_CONTENT_UNREAD, PropertyContext.Inline(f.unread)),
                     PropertyContext.Value(PR_SUBFOLDERS, PropertyContext.Inline(Flag(f.children != [])))]
  }

  function FolderRow(p: Plan, f: Folder): seq<Setting> {
    p.list(f) + [Setting(PR_CONTENT_COUNT, Fixed(Put32(f.count))), Setting(PR_CONTENT_UNREAD, Fixed(Put32(f.unread))),
                 Setting(PR_SUBFOLDERS, Fixed([Flag(f.children != [])]))]
  }

  function ListedRow(p: Plan, folders: seq<Folder>, nid: nat): seq<Setting> {
    match Find(folders, nid)
    case Some(i) => FolderRow(p, folders[i])
    case None => []
  }

  /** One row for each child, under the child's id. */
  function HierarchyScript(p: Plan, folders: seq<Folder>, f: Folder): (s: seq<RowScript>)
    ensures |s| == |f.children| && forall k :: 0 <= k < |s| ==> s[k].id == f.children[k]
  {
    seq(|f.children|, k requires 0 <= k < |f.children| =>
      var row := ListedRow(p, folders, f.children[k]); RowScript(f.children[k], row, row))
  }

  /** A folder's properties and tables fit their nodes. */
  ghost predicate FolderFits(p: Plan, f: Folder, script: seq<RowScript>) {
    PropertyContext.ContextFits(FolderPuts(p, f)) && TableFits(p.hierarchy, script) && TableFits(p.associated, [])
  }

  ghost predicate FoldersFit(p: Plan, folders: seq<Folder>) {
    forall i :: 0 <= i < |folders| ==> FolderFits(p, folders[i], HierarchyScript(p, folders, folders[i]))
  }

  ghost predicate FurnitureFits(f: Furniture) {
    match f
    case Table(columns, script) => TableFits(columns, script)
    case Properties(puts) => PropertyContext.ContextFits(puts)
    case Stream(data) => |data| < U32
    case Nothing => true
  }

  // ------------------------------------------------------ folders' tables

  lemma {:induction false} ChildrenApart(folders: seq<Folder>, parent: nat)
    requires folders != [] && forall i, j :: 0 <= i < j < |folders| ==> folders[i].nid != folders[j].nid
    ensures var cs := ChildrenOf(folders, parent);
            |cs| < |folders| && forall a, b :: 0 <= a < b < |cs| ==> cs[a] != cs[b]
  {
    if |folders| > 1 {
      var n := |folders| - 1;
      var cs := ChildrenOf(folders[..n], parent);
      ChildrenApart(folders[..n], parent);
      forall a | 0 <= a < |cs| ensures cs[a] != folders[n].nid {
        ChildrenExact(folders[..n], parent, cs[a]);
      }
    }
  }

  lemma {:induction false} RowsApart(nodes: seq<Node>, parent: nat)
    requires Distinct(nodes)
    ensures var rs := NodesUnder(nodes, parent);
            |rs| <= |nodes| && forall a, b :: 0 <= a < b < |rs| ==> rs[a] != rs[b]
  {
    if nodes != [] {
      var n := |nodes| - 1;
      var rs := NodesUnder(nodes[..n], parent);
      RowsApart(nodes[..n], parent);
      forall a | 0 <= a < |rs| ensures rs[a] != nodes[n].nid {
        RowsExact(nodes[..n], parent, rs[a]);
      }
    }
  }

  lemma FoldersApart(folders: seq<Folder>)
    requires FoldersOk(folders)
    ensures forall i, j :: 0 <= i < j < |folders| ==> folders[i].nid != folders[j].nid
    ensures forall i :: 0 <= i < |folders| ==> folders[i].nid < U32
  {
    hide Parented, Childed, MakeNid;
    forall i, j | 0 <= i < j < |folders| ensures folders[i].nid != folders[j].nid { FolderNidsDistinct(i, j); }
  }

  /** A folder's children are folders, each once. */
  lemma ChildrenKnown(folders: seq<Folder>, i: nat)
    requires FoldersOk(folders) && i < |folders|
    ensures forall k :: 0 <= k < |folders[i].children| ==> Find(folders, folders[i].children[k]).Some?
    ensures var cs := folders[i].children;
            |cs| < |folders| && (forall a, b :: 0 <= a < b < |cs| ==> cs[a] != cs[b]) && forall k :: 0 <= k < |cs| ==> cs[k] < U32
  {
    hide Identified, Parented, FolderNid, Find;
    FoldersApart(folders);
    ChildrenApart(folders, folders[i].nid);
    var cs := folders[i].children;
    forall k | 0 <= k < |cs| ensures Find(folders, cs[k]).Some? && cs[k] < U32 {
      ChildrenExact(folders, folders[i].nid, cs[k]);
      assert cs[k] in cs;
    }
  }

  lemma HierarchyFits(p: Plan, folders: seq<Folder>, i: nat)
    requires PlanOk(p) && FoldersOk(folders) && i < |folders|
    ensures Scripted(Declared(p.hierarchy), HierarchyScript(p, folders, folders[i])) && |folders[i].children| < |folders| <= MAX_INDEX
  {
    hide FoldersOk, Find, Declared, LastSetting, FolderRow, PlanOk;
    ChildrenKnown(folders, i);
    FoldersCount(folders);
    var s := HierarchyScript(p, folders, folders[i]);
    forall k | 0 <= k < |s| ensures ScriptFits(Declared(p.hierarchy), s[k]) {
      RowTyped(p, folders[Find(folders, s[k].id).value]);
    }
  }

  lemma FoldersCount(folders: seq<Folder>)
    requires FoldersOk(folders)
    ensures 1 <= |folders| <= MAX_INDEX
  {
  }

  lemma RowTyped(p: Plan, f: Folder)
    requires PlanOk(p)
    ensures Typed(FolderRow(p, f)) && PutsOk(FolderPuts(p, f))
  {
    assert PutsOk(p.describe(f)) && Typed(p.list(f));
  }

  /** The rows of a contents table have ids of their own. */
  lemma ContentsFit(folders: seq<Folder>, nodes: seq<Node>, i: nat)
    requires MessagesOk(folders, nodes) && i < |folders|
    ensures DistinctRowIds(folders[i].rows) && |folders[i].rows| < U32
  {
    hide MakeNid;
    MessagesDistinct(nodes);
    RowsApart(nodes, folders[i].nid);
    assert CountsOk(nodes, folders[i]);
    forall k | 0 <= k < |folders[i].rows| ensures folders[i].rows[k] < U32 {
      RowsExact(nodes, folders[i].nid, folders[i].rows[k]);
      assert folders[i].rows[k] in NodesUnder(nodes, folders[i].nid);
    }
  }

  // ----------------------------------------------------------------- nodes

  function NodesOf(nbt: seq<NbtEntry>): (nodes: seq<Node>)
    ensures |nodes| == |nbt|
  {
    seq(|nbt|, i requires 0 <= i < |nbt| => Node(nbt[i].nid, nbt[i].parent))
  }

  lemma NodesOfSnoc(nbt: seq<NbtEntry>, e: NbtEntry)
    ensures NodesOf(nbt + [e]) == NodesOf(nbt) + [Node(e.nid, e.parent)]
  {
  }

  // --------------------------------------------------------------- content

  /** What a node of a store holds. */
  datatype Content = Mail(m: Message) | Props(puts: seq<PropertyContext.Value>) | Rows(tags: seq<nat>, rows: seq<Row>) | Raw(data: Buf) | Empty

  /** A reader of the blocks finds the content from the node on. */
  ghost predicate HoldsContent(blocks: Store, e: NbtEntry, k: Content, c: Schema) {
    match k
    case Mail(m) => MessageStored(blocks, e.data, e.sub, m, c)
    case Props(puts) => ContextArchive.ContextStored(blocks, e.data, e.sub, puts)
    case Rows(tags, rows) => TableOnFile(blocks, e.data, e.sub, tags, rows)
    case Raw(data) => ReadTree(blocks, e.data) == Some(data) && e.sub == 0
    case Empty => e.data == 0 && e.sub == 0
  }

  lemma HoldsGrow(a: Store, b: Store, e: NbtEntry, k: Content, c: Schema)
    requires Extends(a, b) && HoldsContent(a, e, k, c)
    ensures HoldsContent(b, e, k, c)
  {
    hide MessageStored, ContextArchive.ContextStored, TableOnFile, ReadTree;
    match k
    case Mail(m) => MessageStoredGrow(a, b, e.data, e.sub, m, c);
    case Props(puts) => ContextArchive.StoredGrow(a, b, e.data, e.sub, puts);
    case Rows(tags, rows) => TableOnFileGrow(a, b, e.data, e.sub, tags, rows);
    case Raw(data) => ReadTreeGrow(a, b, e.data);
    case Empty =>
  }

  /** Every node holds its content. */
  ghost predicate Filled(blocks: Store, nbt: seq<NbtEntry>, kinds: seq<Content>, c: Schema) {
    |kinds| == |nbt| && forall k :: 0 <= k < |kinds| ==> NodeFits(nbt[k]) && HoldsContent(blocks, nbt[k], kinds[k], c)
  }

  lemma FilledGrow(a: Store, b: Store, nbt: seq<NbtEntry>, kinds: seq<Content>, c: Schema)
    requires Extends(a, b) && Filled(a, nbt, kinds, c)
    ensures Filled(b, nbt, kinds, c)
  {
    hide HoldsContent;
    forall i | 0 <= i < |kinds| ensures HoldsContent(b, nbt[i], kinds[i], c) { HoldsGrow(a, b, nbt[i], kinds[i], c); }
  }

  /** One node more, and blocks added. */
  lemma FilledNext(a: Store, b: Store, nbt: seq<NbtEntry>, more: seq<NbtEntry>, kinds: seq<Content>, k: Content, c: Schema)
    requires Extends(a, b) && Filled(a, nbt, kinds, c)
    requires |more| == |nbt| + 1 && more[..|nbt|] == nbt && NodeFits(more[|nbt|]) && HoldsContent(b, more[|nbt|], k, c)
    ensures Filled(b, more, kinds + [k], c)
  {
    hide HoldsContent;
    forall i | 0 <= i < |kinds| ensures HoldsContent(b, more[i], kinds[i], c) {
      assert more[i] == nbt[i];
      HoldsGrow(a, b, nbt[i], kinds[i], c);
    }
  }

  /** The same with the owners. */
  lemma StandingNext(a: Store, b: Store, nbt: seq<NbtEntry>, e: NbtEntry, kinds: seq<Content>, k: Content, c: Schema, x: Holding, y: Holding)
    requires Extends(a, b) && NodeFits(e) && HoldsContent(b, e, k, c) && Passes(x, y)
    ensures Passes(Nobody(), x) ==> Passes(Nobody(), y)
    ensures Filled(a, nbt, kinds, c) ==> Filled(b, nbt + [e], kinds + [k], c)
  {
    hide HoldsContent, Passes, Filled;
    if Passes(Nobody(), x) { PassesThen(Nobody(), x, y); }
    if Filled(a, nbt, kinds, c) { FilledNext(a, b, nbt, nbt + [e], kinds, k, c); }
  }

  /** What the four nodes of a folder hold: its properties, its hierarchy table, its
      contents table with `rows`, and an empty table. */
  function FolderContent(p: Plan, f: Folder, script: seq<RowScript>, rows: seq<Row>): (kinds: seq<Content>) {
    [Props(FolderPuts(p, f)), TableContent(p.hierarchy, script), Rows(Declared(p.contents), rows), TableContent(p.associated, [])]
  }

  /** The content of the first `n` folders' nodes, given the rows of their tables. */
  function FoldersContent(p: Plan, folders: seq<Folder>, rows: seq<seq<Row>>, n: nat): (kinds: seq<Content>)
    requires n <= |folders| && n <= |rows|
  {
    if n == 0 then []
    else FoldersContent(p, folders, rows, n - 1)
         + FolderContent(p, folders[n - 1], HierarchyScript(p, folders, folders[n - 1]), rows[n - 1])
  }

  function ContentOf(f: Furniture): Content {
    match f
    case Table(columns, script) => TableContent(columns, script)
    case Properties(puts) => Props(puts)
    case Stream(data) => Raw(data)
    case Nothing => Empty
  }

  function ContentsOf(furniture: seq<Furniture>): (kinds: seq<Content>)
    ensures |kinds| == |furniture|
  {
    seq(|furniture|, i requires 0 <= i < |furniture| => ContentOf(furniture[i]))
  }

  function TableContent(columns: seq<nat>, script: seq<RowScript>): Content {
    Rows(Declared(columns), RowsOf(Declared(columns), script))
  }

  function Mails(messages: seq<Message>): (kinds: seq<Content>)
    ensures |kinds| == |messages|
  {
    seq(|messages|, i requires 0 <= i < |messages| => Mail(messages[i]))
  }

  lemma MailsSnoc(messages: seq<Message>, m: Message)
    ensures Mails(messages + [m]) == Mails(messages) + [Mail(m)]
  {
  }

  // ------------------------------------------------------------ open tables

  ghost function Objects(ts: seq<TableContextWriter>): set<object> {
    (set t | t in ts :: t as object) + (set t | t in ts :: t.heap as object) + (set t | t in ts :: t.subs as object)
  }

  /** No two tables share a part. */
  ghost predicate Apart(ts: seq<TableContextWriter>) {
    forall i, j :: 0 <= i < j < |ts| ==> ts[i] != ts[j] && ts[i].heap != ts[j].heap && ts[i].subs != ts[j].subs
  }

  /** A table's parts are tables, heaps and allocators, nothing else. */
  lemma Strangers(ts: seq<TableContextWriter>, o: object)
    requires !(o is TableContextWriter) && !(o is StreamingHeap.StreamingHeap) && !(o is SubnodeAllocator.SubnodeAllocator)
    ensures o !in Objects(ts)
  {
  }

  lemma PartsIn(ts: seq<TableContextWriter>, i: nat)
    requires i < |ts|
    ensures ts[i] in Objects(ts) && ts[i].heap in Objects(ts) && ts[i].subs in Objects(ts)
  {
    assert ts[i] in ts;
  }

  class PstWriter {
    const ndb: NdbWriter
    const ids: PstStore
    const plan: Plan
    var contents: seq<TableContextWriter>

    /** What has been handed in, and what each open table holds. */
    ghost var messages: seq<Message>
    ghost var looses: seq<multiset<nat>>

    /** How many settings each open table has had. */
    ghost var counts: seq<nat>

    ghost predicate TableOk(i: nat)
      requires i < |contents|
      reads `contents, `looses, ndb, Objects(contents)
    {
      var t := contents[i];
      assert t in contents;
      t.ndb == ndb && t.Valid() && !t.inRow && t.tags == Declared(plan.contents) && |looses| == |contents| && looses[i] == t.Loose()
    }

    /** The tables that are still open: those from `from` on. */
    ghost predicate TablesOk(from: nat)
      reads `contents, `looses, ndb, Objects(contents)
    {
      && |looses| == |contents| && Apart(contents) && (forall i :: from <= i < |contents| ==> TableOk(i))
      && forall i :: 0 <= i < from && i < |contents| ==> looses[i] == multiset{}
    }

    ghost function Owner(): Holding
      reads `looses, ndb
    {
      Total(ndb.blocks, BidsOf(ndb.bbt), ndb.nbt, looses)
    }

    /** Every folder has its table, whose rows are its messages. */
    ghost predicate RowsOk()
      reads `contents, `counts, ids, Objects(contents)
    {
      |contents| == |ids.folders| == |counts| && forall i :: 0 <= i < |contents| ==> RowsMatch(i)
    }

    ghost predicate RowsMatch(i: nat)
      requires i < |contents| && i < |ids.folders| && i < |counts|
      reads `contents, `counts, ids, Objects(contents)
    {
      var t := contents[i];
      assert t in contents;
      Ids(t.rows) == ids.folders[i].rows && Counted(i)
    }

    /** Every setting took a subnode id or a heap block at most. */
    ghost predicate Counted(i: nat)
      requires i < |contents| && i < |counts|
      reads `contents, `counts, Objects(contents)
    {
      var t := contents[i];
      assert t in contents;
      && t.subs.nextIndex == 1 + |t.subs.entries| <= 1 + counts[i] && |t.heap.Contents()| <= 1 + counts[i]
    }

    ghost predicate Valid()
      reads this, ndb, ids, Objects(contents)
    {
      && PlanOk(plan) && ndb.Valid() && ids.Valid() && TablesOk(0) && RowsOk()
      && |messages| == |ndb.nbt| && NodesOf(ndb.nbt) == ids.nodes
      && Standing(Mails(messages), true)
    }

    constructor (s: Sums, plan: Plan)
      requires PlanOk(plan)
      ensures Valid() && this.plan == plan && messages == [] && ndb.sums == s && forall i :: 0 <= i < |counts| ==> counts[i] == 0
      ensures fresh(ndb) && fresh(ids) && fresh(Objects(contents))
    {
      hide NdbWriter.Valid, PstStore.Valid, PlanOk, Total, Passes;
      this.plan := plan;
      var w := new NdbWriter(s);
      var i := new PstStore();
      ndb, ids := w, i;
      contents, messages, looses, counts := [], [], [], [];
      new;
      PlanColumns(plan);
      NothingYet(ndb.bbt, plan.schema);
      NoRowsYet(ids);
      OpenTables();
    }

    /** A table for each folder of a new store. */
    method OpenTables()
      requires ndb.Valid() && contents == [] && looses == [] && counts == [] && ColumnsOk(plan.contents)
      modifies `contents, `looses, `counts
      ensures TablesOk(0) && |contents| == |ids.folders| == |counts| && fresh(Objects(contents)) && Owner() == old(Owner())
      ensures forall k :: 0 <= k < |contents| ==> contents[k].rows == [] && counts[k] == 0 && Counted(k)
    {
      hide NdbWriter.Valid, TablesOk, Owner, TableContextWriter.Valid, Counted;
      NoTables();
      while |contents| < |ids.folders|
        invariant TablesOk(0) && |contents| == |counts| <= |ids.folders| && fresh(Objects(contents)) && Owner() == old(Owner())
        invariant forall k :: 0 <= k < |contents| ==> contents[k].rows == [] && counts[k] == 0 && Counted(k)
      {
        OpenTable();
      }
    }

    lemma NoTables()
      requires contents == [] && looses == []
      ensures TablesOk(0)
    {
    }

    /** A table for a folder that is new. */
    method OpenTable()
      requires ndb.Valid() && TablesOk(0) && ColumnsOk(plan.contents) && |counts| == |contents|
      modifies `contents, `looses, `counts
      ensures TablesOk(0) && |contents| == |old(contents)| + 1 && contents[..|old(contents)|] == old(contents)
      ensures counts == old(counts) + [0] && Counted(|old(contents)|)
      ensures forall i :: 0 <= i < |old(contents)| && old(Counted(i)) ==> Counted(i)
      ensures contents[|old(contents)|].rows == [] && fresh(Objects(contents) - old(Objects(contents))) && Owner() == old(Owner())
    {
      hide NdbWriter.Valid, TableContextWriter.Valid, TableContextWriter.Loose, Total;
      var t := new TableContextWriter(ndb, plan.contents);
      TableOpened(ndb.blocks, BidsOf(ndb.bbt), ndb.nbt, looses);
      contents, looses, counts := contents + [t], looses + [multiset{}], counts + [0];
      forall i | 0 <= i < |contents| ensures TableOk(i) {
        if i < |contents| - 1 { assert old(TableOk(i)); }
      }
    }

    /** A folder for a caller, who must name an existing parent. */
    method CreateFolder(parent: nat, name: string) returns (r: Result<nat>)
      requires Valid() && ids.nextFolder < MAX_INDEX
      modifies this, ids
      ensures Valid() && (r.Ok? <==> IsFolder(old(ids.folders), parent)) && messages == old(messages)
      ensures r.Err? ==> unchanged(this) && unchanged(ids)
      ensures r.Ok? ==> counts == old(counts) + [0]
      ensures r.Ok? ==> r.value == FolderNid(|old(ids.folders)|) && |contents| == |old(contents)| + 1 && old(contents) <= contents
      ensures fresh(Objects(contents) - old(Objects(contents)))
    {
      hide ndb.Valid, PstStore.Valid, PlanOk, TablesOk, Filled, Passes, Owner, NodesOf, FolderNid, IsFolder, Counted;
      Strangers(contents, ids);
      Strangers(contents, this);
      PlanColumns(plan);
      r := ids.CreateFolder(parent, name);
      if r.Err? {
        return;
      }
      OpenTable();
      forall i | 0 <= i < |contents| ensures RowsMatch(i) {
        if i < |contents| - 1 { assert old(RowsMatch(i)) && contents[i] == old(contents)[i]; }
      }
    }

    /** A message: its blocks, its node under its folder, its row in the folder's table. */
    method AddMessage(folder: nat, m: Message, row: seq<Setting>, seen: bool) returns (r: Result<nat>)
      requires Valid() && ids.nextMessage < MAX_INDEX && MessageOk(m) && Typed(row)
      modifies this, ndb, ids, Objects(contents)
      ensures !IsFolder(old(ids.folders), folder) ==> r.Err? && unchanged(this) && unchanged(ndb) && unchanged(ids)
      ensures r.Ok? ==> Valid() && contents == old(contents) && messages == old(messages) + [m]
      ensures r.Ok? ==> r.value == MessageNid(|old(messages)|) && ids.nodes == old(ids.nodes) + [Node(r.value, folder)]
      ensures r.Ok? ==> forall i :: 0 <= i < |contents| ==> RowsAfter(i, folder, r.value, row)
      ensures r.Err? ==> !IsFolder(old(ids.folders), folder) || !MessageFits(m, plan.schema) || Refused(Declared(plan.contents), row)
                         || !old(RoomForRow(folder, row))
    {
      hide Valid, PstStore.Valid, RowsAfter, MessageOk, Typed, MessageFits, Refused, RoomForRow, RoomFor;
      var p := Find(ids.folders, folder);
      if p.None? {
        return Err("unknown folder id");
      }
      if RoomForRow(folder, row) { RoomAt(p.value, folder, row); }
      r := FileMessage(p.value, m, row, seen);
    }

    /** A message for the folder at place `p`. */
    method FileMessage(p: nat, m: Message, row: seq<Setting>, seen: bool) returns (r: Result<nat>)
      requires Valid() && ids.nextMessage < MAX_INDEX && MessageOk(m) && Typed(row) && p < |ids.folders|
      modifies this, ndb, ids, Objects(contents)
      ensures r.Ok? ==> Valid() && contents == old(contents) && messages == old(messages) + [m]
      ensures r.Ok? ==> r.value == MessageNid(|old(messages)|) && ids.nodes == old(ids.nodes) + [Node(r.value, old(ids.folders)[p].nid)]
      ensures r.Ok? ==> forall i :: 0 <= i < |contents| ==> RowsAfter(i, old(ids.folders)[p].nid, r.value, row)
      ensures r.Err? ==> !MessageFits(m, plan.schema) || Refused(Declared(plan.contents), row) || !old(RoomFor(p, |row|))
    {
      hide ndb.Valid, PstStore.Valid, PlanOk, TablesOk, Standing, Apply, NewRow, Declared, MessageOk,
           MakeNid, FolderNid, NodesOf, NodeFits, BidsOf, WithMessage, Typed, MessageNid, MessageFits, Refused, RoomInHeap;
      PlanColumns(plan);
      var folder := ids.folders[p].nid;
      var nid := MakeNid(T_MESSAGE, ids.nextMessage);
      NextMessage(ids, p);
      Strangers(contents, ids);
      Strangers(contents, this);
      PartsIn(contents, p);
      var done := Deliver(p, nid, folder, m, row);
      if done.Err? {
        return Err(done.reason);
      }
      MailsSnoc(messages, m);
      messages := messages + [m];
      counts := counts[p := counts[p] + |row|];
      r := ids.AddMessage(folder, seen);
      forall i | 0 <= i < |contents| ensures RowsMatch(i) && RowsAfter(i, folder, nid, row) {
        assert old(RowsMatch(i)) && TableAfter(i, p, nid, row);
        NewId(old(contents[i].rows), nid, row, Declared(plan.contents));
      }
    }

    /** The folder's table can take a row of settings. */
    ghost predicate RoomForRow(folder: nat, row: seq<Setting>)
      reads `contents, ids, Objects(contents)
    {
      |contents| == |ids.folders| && forall i :: 0 <= i < |contents| && ids.folders[i].nid == folder ==> RoomInHeap(i, |row|)
    }

    ghost predicate RoomInHeap(i: nat, n: nat)
      requires i < |contents|
      reads `contents, Objects(contents)
    {
      var t := contents[i];
      assert t in contents;
      |t.heap.Contents()| + n <= HeapFormat.MAX_BLOCKS
    }

    /** The same by the folder's place. */
    ghost predicate RoomFor(p: nat, n: nat)
      reads `contents, Objects(contents)
    {
      p < |contents| && RoomInHeap(p, n)
    }

    lemma RoomAt(p: nat, folder: nat, row: seq<Setting>)
      requires RoomForRow(folder, row) && p < |ids.folders| && ids.folders[p].nid == folder
      ensures RoomFor(p, |row|)
    {
      hide RoomInHeap;
    }

    lemma TablesApart(from: nat)
      requires TablesOk(from)
      ensures Apart(contents)
    {
    }

    /** Table `p` has a row more, the others are as they were. */
    twostate predicate TableAfter(i: nat, p: nat, nid: nat, row: seq<Setting>)
      requires contents == old(contents) && i < |contents|
      reads `contents, Objects(contents)
    {
      var t, n := contents[i], if i == p then |row| else 0;
      assert t in contents;
      && t.rows == old(t.rows) + (if i == p then [Apply(Declared(plan.contents), NewRow(Declared(plan.contents), nid), row)] else [])
      && |t.heap.Contents()| <= |old(t.heap.Contents())| + n && t.subs.nextIndex <= old(t.subs.nextIndex) + n
      && |t.subs.entries| - |old(t.subs.entries)| == t.subs.nextIndex - old(t.subs.nextIndex)
    }

    /** What AddMessage writes: the message, then the row. */
    method Deliver(p: nat, nid: nat, folder: nat, m: Message, row: seq<Setting>) returns (r: Result<()>)
      requires ndb.Valid() && TablesOk(0) && p < |contents| && SchemaOk(plan.schema) && MessageOk(m) && Typed(row) && nid < U32 && folder < U32
      modifies ndb, contents[p], contents[p].heap, contents[p].subs, `looses
      ensures r.Ok? ==> forall i :: 0 <= i < |contents| ==> TableAfter(i, p, nid, row)
      ensures r.Ok? ==> Adds(nid, folder, Mail(m), true, Mails(messages))
      ensures r.Ok? ==> TablesOk(0)
      ensures r.Err? ==> !MessageFits(m, plan.schema) || Refused(Declared(plan.contents), row) || !old(RoomInHeap(p, |row|))
      ensures ndb.Valid() && ndb.Grown()
    {
      hide ndb.Valid, TablesOk, Filled, Passes, Owner, Apply, NewRow, Declared, MessageOk, MessageFits, Refused;
      r := StoreMessage(nid, folder, m, Mails(messages), true);
      if r.Err? {
        return;
      }
      TablesSurvive(0);
      ghost var mid, owner := ndb.blocks, Owner();
      TablesApart(0);
      var ok := AppendRow(p, nid, row);
      if !ok {
        return Err("row rejected");
      }
      forall i | 0 <= i < |contents| ensures TableAfter(i, p, nid, row) {
        assert i != p ==> unchanged(contents[i]) && unchanged(contents[i].heap) && unchanged(contents[i].subs);
      }
      if ndb.Fits64() {
        if Passes(Nobody(), owner) { PassesThen(Nobody(), owner, Owner()); }
        if Filled(mid, ndb.nbt, Mails(messages) + [Mail(m)], plan.schema) {
          FilledGrow(mid, ndb.blocks, ndb.nbt, Mails(messages) + [Mail(m)], plan.schema);
        }
      }
    }

    /** The nodes hold `kinds` and everything is owned, as long as ids and offsets have not
        run out. */
    ghost predicate Standing(kinds: seq<Content>, sure: bool)
      reads `looses, ndb
    {
      ndb.Fits64() && sure ==> Passes(Nobody(), Owner()) && Filled(ndb.blocks, ndb.nbt, kinds, plan.schema)
    }

    /** One more node, for content `k`. */
    twostate predicate Adds(nid: nat, parent: nat, k: Content, sure: bool, kinds: seq<Content>)
      reads `looses, ndb
    {
      && NodesOf(ndb.nbt) == NodesOf(old(ndb.nbt)) + [Node(nid, parent)]
      && (old(Standing(kinds, sure)) ==> Standing(kinds + [k], sure))
    }

    /** The table of the folder has one more row, the others have none. */
    twostate predicate RowsAfter(i: nat, folder: nat, nid: nat, row: seq<Setting>)
      requires contents == old(contents) && i < |contents|
      reads `contents, `counts, ids, Objects(contents)
    {
      var t, tags := contents[i], Declared(plan.contents);
      assert t in contents;
      && i < |ids.folders| && i < |counts| == |old(counts)|
      && counts[i] == old(counts)[i] + (if ids.folders[i].nid == folder then |row| else 0)
      && t.rows == old(t.rows) + if ids.folders[i].nid == folder then [Apply(tags, NewRow(tags, nid), row)] else []
    }

    /** The message itself, and its node. */
    method StoreMessage(nid: nat, parent: nat, m: Message, ghost kinds: seq<Content>, ghost sure: bool)
      returns (r: Result<()>)
      requires ndb.Valid() && nid < U32 && parent < U32 && SchemaOk(plan.schema) && MessageOk(m)
      modifies ndb
      ensures ndb.Valid() && ndb.Grown() && (r.Ok? ==> Adds(nid, parent, Mail(m), sure, kinds))
      ensures r.Err? ==> !MessageFits(m, plan.schema)
    {
      hide ndb.Valid, Passes, NodeRefs, BidsOf, Total, Filled, MessageStored, MessageOk, MessageFits;
      ghost var blocks, order, nbt, owner := ndb.blocks, BidsOf(ndb.bbt), ndb.nbt, Owner();
      var parts := WriteMessage(ndb, m, plan.schema);
      if parts.Err? {
        return Err(parts.reason);
      }
      ghost var e := NbtEntry(nid, parts.value.0, parts.value.1, parent);
      ndb.AddNode(nid, parts.value.0, parts.value.1, parent);
      NodesOfSnoc(nbt, e);
      if ndb.Fits64() && sure {
        NodeStep(blocks, order, ndb.blocks, BidsOf(ndb.bbt), nbt, e, looses);
        StandingNext(blocks, ndb.blocks, nbt, e, kinds, Mail(m), plan.schema, owner, Owner());
      }
      return Ok(());
    }

    /** A node made of properties. */
    method StoreProperties(nid: nat, parent: nat, puts: seq<PropertyContext.Value>, ghost kinds: seq<Content>, ghost sure: bool)
      returns (r: Result<()>)
      requires ndb.Valid() && nid < U32 && parent < U32 && PutsOk(puts)
      modifies ndb
      ensures ndb.Valid() && ndb.Grown() && (r.Ok? ==> Adds(nid, parent, Props(puts), sure, kinds))
      ensures r.Err? ==> !PropertyContext.ContextFits(puts)
    {
      hide ndb.Valid, Passes, NodeRefs, BidsOf, Total, Filled, ContextArchive.ContextStored, PropertyContext.ContextFits;
      ghost var blocks, order, nbt, owner := ndb.blocks, BidsOf(ndb.bbt), ndb.nbt, Owner();
      var pc := ContextArchive.PutAll(puts);
      var subs := new SubnodeAllocator.SubnodeAllocator(ndb);
      NothingHeld(subs);
      UnspilledResolved(puts, PropertyContext.Subs(ndb.blocks, subs.entries));
      r := ContextArchive.StoreContext(ndb, subs, pc, nid, parent);
      if r.Err? {
        return;
      }
      ghost var e := ndb.nbt[|nbt|];
      assert ndb.nbt == nbt + [e];
      NodesOfSnoc(nbt, e);
      if ndb.Fits64() && sure {
        NodeStep(blocks, order, ndb.blocks, BidsOf(ndb.bbt), nbt, e, looses);
        StandingNext(blocks, ndb.blocks, nbt, e, kinds, Props(puts), plan.schema, owner, Owner());
      }
    }

    /** A node made of a table. */
    method StoreRows(nid: nat, parent: nat, columns: seq<nat>, script: seq<RowScript>, ghost kinds: seq<Content>, ghost sure: bool)
      returns (r: Result<()>)
      requires ndb.Valid() && nid < U32 && parent < U32 && ColumnsOk(columns) && Scripted(Declared(columns), script) && |script| < U32
      requires sure ==> Numerable(columns, script)
      modifies ndb
      ensures ndb.Valid() && ndb.Grown() && (r.Ok? ==> Adds(nid, parent, TableContent(columns, script), sure, kinds))
      ensures r.Err? ==> !TableFits(columns, script)
    {
      hide ndb.Valid, Passes, NodeRefs, BidsOf, Total, Filled, TableOnFile, Declared, RowsOf, Scripted, Numerable, TableFits;
      ghost var blocks, order, nbt, owner := ndb.blocks, BidsOf(ndb.bbt), ndb.nbt, Owner();
      var parts := StoreTable(ndb, columns, script);
      if parts.Err? {
        return Err(parts.reason);
      }
      ghost var e := NbtEntry(nid, parts.value.0, parts.value.1, parent);
      ndb.AddNode(nid, parts.value.0, parts.value.1, parent);
      NodesOfSnoc(nbt, e);
      if ndb.Fits64() && sure {
        NodeStep(blocks, order, ndb.blocks, BidsOf(ndb.bbt), nbt, e, looses);
        StandingNext(blocks, ndb.blocks, nbt, e, kinds, TableContent(columns, script), plan.schema, owner, Owner());
      }
      return Ok(());
    }

    /** A node made of bytes. */
    method StoreBytes(nid: nat, parent: nat, data: Buf, ghost kinds: seq<Content>, ghost sure: bool)
      returns (r: Result<()>)
      requires ndb.Valid() && nid < U32 && parent < U32
      modifies ndb
      ensures ndb.Valid() && ndb.Grown() && (r.Ok? ==> Adds(nid, parent, Raw(data), sure, kinds))
      ensures r.Err? ==> |data| >= U32
    {
      hide ndb.Valid, Passes, NodeRefs, BidsOf, Total, Filled, ReadTree, Law;
      ghost var blocks, order, nbt, owner := ndb.blocks, BidsOf(ndb.bbt), ndb.nbt, Owner();
      var tree := ndb.WriteData(data);
      if tree.Err? {
        return Err(tree.reason);
      }
      ghost var e := NbtEntry(nid, tree.value, 0, parent);
      ndb.AddNode(nid, tree.value, 0, parent);
      NodesOfSnoc(nbt, e);
      if ndb.Fits64() && sure {
        ContextArchive.RefFits(ndb, tree.value);
        OneBlock(blocks, order, ndb.blocks, BidsOf(ndb.bbt), tree.value);
        NodeStep(blocks, order, ndb.blocks, BidsOf(ndb.bbt), nbt, e, looses);
        StandingNext(blocks, ndb.blocks, nbt, e, kinds, Raw(data), plan.schema, owner, Owner());
      }
      return Ok(());
    }

    /** A node without blocks. */
    method StoreNothing(nid: nat, parent: nat, ghost kinds: seq<Content>, ghost sure: bool)
      requires ndb.Valid() && nid < U32 && parent < U32
      modifies ndb
      ensures ndb.Valid() && ndb.Grown() && Adds(nid, parent, Empty, sure, kinds)
    {
      hide ndb.Valid, Passes, BidsOf, Total, Filled;
      ghost var nbt, owner, e := ndb.nbt, Owner(), NbtEntry(nid, 0, 0, parent);
      ndb.OrderPresent();
      BareNode(ndb.blocks, BidsOf(ndb.bbt), nbt, e, looses);
      ndb.AddNode(nid, 0, 0, parent);
      NodesOfSnoc(nbt, e);
      StandingNext(ndb.blocks, ndb.blocks, nbt, e, kinds, Empty, plan.schema, owner, Owner());
    }

    /** The tables from `from` on have the rows given; subnode ids have not run out and the
        tables have room to end, as far as that is known. */
    ghost predicate TablesReady(from: nat, rows: seq<seq<Row>>, sure: bool, room: bool)
      reads `contents, Objects(contents)
    {
      |rows| == |contents| && forall i :: from <= i < |contents| ==> TableReady(i, rows[i], sure, room)
    }

    ghost predicate TableReady(i: nat, rows: seq<Row>, sure: bool, room: bool)
      requires i < |contents|
      reads `contents, Objects(contents)
    {
      var t := contents[i];
      assert t in contents;
      t.rows == rows && (sure ==> t.subs.nextIndex < MAX_INDEX) && (room ==> RoomToEnd(i))
    }

    /** The table can end: its rows stay under 4 GiB, and the heap has room for the index. */
    ghost predicate RoomToEnd(i: nat)
      requires i < |contents|
      reads `contents, Objects(contents)
    {
      var t := contents[i];
      assert t in contents;
      && !MatrixTooLarge(|t.rows|, RowLayout.RowSize(t.tags)) && |t.subs.entries| < SL_FANOUT * SI_FANOUT
      && |t.heap.Contents()| + Bth.MostBlocks(|t.rows|, 4, 4) < HeapFormat.MAX_BLOCKS
    }

    /** The folder at place `i`, and those after it still to come. */
    method NextFolder(i: nat, folders: seq<Folder>, ghost messages: seq<Node>, ghost rows: seq<seq<Row>>, ghost kinds: seq<Content>,
                      ghost sure: bool, ghost room: bool)
      returns (r: Result<()>)
      requires ndb.Valid() && PlanOk(plan) && TablesOk(i) && i < |folders| == |contents| == |rows| && TablesReady(i, rows, sure, room)
      requires FoldersOk(folders) && MessagesOk(folders, messages) && (sure ==> |folders| * (|plan.hierarchy| + 2) + 2 <= MAX_INDEX)
      requires Ids(rows[i]) == folders[i].rows
      modifies ndb, contents[i], contents[i].heap, contents[i].subs, `looses
      ensures ndb.Valid() && ndb.Grown()
      ensures r.Ok? ==> TablesOk(i + 1) && TablesReady(i + 1, rows, sure, room)
      ensures r.Err? ==> !room || !FolderFits(plan, folders[i], HierarchyScript(plan, folders, folders[i]))
      ensures r.Ok? ==> NodesOf(ndb.nbt) == NodesOf(old(ndb.nbt)) + NodesOfFolder(folders[i])
      ensures r.Ok? && old(Standing(kinds, sure))
              ==> Standing(kinds + FolderContent(plan, folders[i], HierarchyScript(plan, folders, folders[i]), rows[i]), sure)
    {
      hide ndb.Valid, PlanOk, TableOk, Standing, NodesOf, Declared, Scripted, DistinctRowIds, FoldersOk, MessagesOk, FolderContent,
           HierarchyScript, NodesOfFolder, Numerable, FolderFits;
      FolderReady(plan, folders, messages, i);
      ReadyAt(i, rows[i], sure, room);
      r := WriteFolder(i, folders[i], HierarchyScript(plan, folders, folders[i]), kinds, sure);
      if r.Ok? {
        forall k | i < k < |contents| ensures TableReady(k, rows[k], sure, room) {
          assert old(TableReady(k, rows[k], sure, room));
        }
      }
    }

    /** All the folders, in order. */
    method WriteFolders(folders: seq<Folder>, ghost messages: seq<Node>, ghost rows: seq<seq<Row>>, ghost kinds: seq<Content>,
                        ghost sure: bool, ghost room: bool)
      returns (r: Result<()>)
      requires ndb.Valid() && PlanOk(plan) && TablesOk(0) && |folders| == |contents| == |rows| && TablesReady(0, rows, sure, room)
      requires FoldersOk(folders) && MessagesOk(folders, messages) && (sure ==> |folders| * (|plan.hierarchy| + 2) + 2 <= MAX_INDEX)
      requires forall i :: 0 <= i < |folders| ==> Ids(rows[i]) == folders[i].rows
      modifies ndb, Objects(contents), `looses
      ensures ndb.Valid() && ndb.Grown()
      ensures r.Ok? ==> TablesOk(|contents|) && NodesOf(ndb.nbt) == NodesOf(old(ndb.nbt)) + FolderNodes(folders)
      ensures r.Ok? && old(Standing(kinds, sure)) ==> Standing(kinds + FoldersContent(plan, folders, rows, |folders|), sure)
      ensures r.Err? ==> !room || !FoldersFit(plan, folders)
    {
      hide ndb.Valid, PlanOk, TablesOk, Standing, NodesOf, FoldersOk, MessagesOk, FolderContent, HierarchyScript, NodesOfFolder, TablesReady,
           FolderFits;
      ghost var nodes := NodesOf(ndb.nbt);
      r := Ok(());
      assert kinds + [] == kinds && nodes + [] == nodes;
      for i := 0 to |folders|
        invariant ndb.Valid() && ndb.Grown() && TablesOk(i) && contents == old(contents) && r.Ok? && TablesReady(i, rows, sure, room)
        invariant NodesOf(ndb.nbt) == nodes + FolderNodes(folders[..i])
        invariant old(Standing(kinds, sure)) ==> Standing(kinds + FoldersContent(plan, folders, rows, i), sure)
      {
        PartsIn(contents, i);
        ghost var done := FoldersContent(plan, folders, rows, i);
        r := NextFolder(i, folders, messages, rows, kinds + done, sure, room);
        if r.Err? {
          return;
        }
        NodesNext(nodes, folders, i);
        ghost var more := FolderContent(plan, folders[i], HierarchyScript(plan, folders, folders[i]), rows[i]);
        assert kinds + done + more == kinds + (done + more);
      }
      assert folders[..|folders|] == folders;
    }

    lemma ReadyAt(i: nat, rows: seq<Row>, sure: bool, room: bool)
      requires i < |contents| && TableReady(i, rows, sure, room)
      ensures contents[i].rows == rows && (sure ==> contents[i].subs.nextIndex < MAX_INDEX) && (room ==> RoomToEnd(i))
    {
    }

    /** The four nodes of a folder; its contents table ends. */
    method WriteFolder(i: nat, f: Folder, script: seq<RowScript>, ghost kinds: seq<Content>, ghost sure: bool)
      returns (r: Result<()>)
      requires ndb.Valid() && PlanOk(plan) && TablesOk(i) && i < |contents| && f.nid < U32 && f.parent < U32
      requires Scripted(Declared(plan.hierarchy), script) && |script| < U32 && (sure ==> Numerable(plan.hierarchy, script))
      requires DistinctRowIds(Ids(contents[i].rows)) && |contents[i].rows| < U32 && (sure ==> contents[i].subs.nextIndex < MAX_INDEX)
      modifies ndb, contents[i], contents[i].heap, contents[i].subs, `looses
      ensures ndb.Valid() && ndb.Grown()
      ensures r.Ok? ==> TablesOk(i + 1) && NodesOf(ndb.nbt) == NodesOf(old(ndb.nbt)) + NodesOfFolder(f)
      ensures r.Ok? && old(Standing(kinds, sure)) ==> Standing(kinds + FolderContent(plan, f, script, old(contents[i].rows)), sure)
      ensures r.Err? ==> !old(RoomToEnd(i)) || !FolderFits(plan, f, script)
    {
      hide ndb.Valid, PlanOk, TablesOk, Standing, NodesOf, Declared, Scripted, DistinctRowIds, Numerable, PutsOk, MakeNid, FolderPuts, RowsOf,
           TableFits, PropertyContext.ContextFits, RoomToEnd;
      PlanColumns(plan);
      RowTyped(plan, f);
      NoScript(plan.associated);
      ghost var rows := contents[i].rows;
      ghost var k0, k1, k2 := Props(FolderPuts(plan, f)), TableContent(plan.hierarchy, script), Rows(Declared(plan.contents), rows);
      r := StoreProperties(f.nid, f.parent, FolderPuts(plan, f), kinds, sure);
      if r.Err? {
        return;
      }
      TablesSurvive(i);
      label Described:
      r := StoreRows(NodeOf(f, 1).nid, f.nid, plan.hierarchy, script, kinds + [k0], sure);
      if r.Err? {
        return;
      }
      TablesSurvive(i);
      r := EndTable(i, NodeOf(f, 2).nid, f.nid, kinds + [k0] + [k1], sure);
      if r.Err? {
        return;
      }
      label Ended:
      r := StoreRows(NodeOf(f, 3).nid, f.nid, plan.associated, [], kinds + [k0] + [k1] + [k2], sure);
      if r.Err? {
        return;
      }
      TablesSurvive@Ended(i + 1);
      assert kinds + [k0] + [k1] + [k2] + [TableContent(plan.associated, [])] == kinds + FolderContent(plan, f, script, rows);
    }

    /** One reserved node. */
    method StoreFurniture(nid: nat, f: Furniture, ghost kinds: seq<Content>, ghost sure: bool)
      returns (r: Result<()>)
      requires ndb.Valid() && nid < U32 && FurnitureOk(f)
      modifies ndb
      ensures ndb.Valid() && ndb.Grown() && (r.Ok? ==> Adds(nid, 0, ContentOf(f), sure, kinds))
      ensures r.Err? ==> !FurnitureFits(f)
    {
      hide ndb.Valid, Standing, NodesOf, Scripted, Declared, Numerable, PutsOk, RowsOf, TableFits, PropertyContext.ContextFits;
      match f
      case Table(columns, script) => r := StoreRows(nid, 0, columns, script, kinds, sure);
      case Properties(puts) => r := StoreProperties(nid, 0, puts, kinds, sure);
      case Stream(data) => r := StoreBytes(nid, 0, data, kinds, sure);
      case Nothing =>
        StoreNothing(nid, 0, kinds, sure);
        r := Ok(());
    }

    /** The nodes every store comes with. */
    method WriteReserved(furniture: seq<Furniture>, ghost kinds: seq<Content>, ghost sure: bool)
      returns (r: Result<()>)
      requires ndb.Valid() && |furniture| == |Reserved()| && forall k :: 0 <= k < |furniture| ==> FurnitureOk(furniture[k])
      modifies ndb
      ensures ndb.Valid() && ndb.Grown()
      ensures r.Ok? ==> NodesOf(ndb.nbt) == NodesOf(old(ndb.nbt)) + Reserved()
      ensures r.Ok? && old(Standing(kinds, sure)) ==> Standing(kinds + ContentsOf(furniture), sure)
      ensures r.Err? ==> exists k :: 0 <= k < |furniture| && !FurnitureFits(furniture[k])
    {
      hide ndb.Valid, Standing, NodesOf, FurnitureOk, Reserved, ContentOf, FurnitureFits;
      var reserved := Reserved();
      ghost var nodes := NodesOf(ndb.nbt);
      r := Ok(());
      assert nodes + reserved[..0] == nodes && kinds + ContentsOf(furniture[..0]) == kinds;
      for k := 0 to |reserved|
        invariant ndb.Valid() && ndb.Grown() && r.Ok?
        invariant NodesOf(ndb.nbt) == nodes + reserved[..k]
        invariant old(Standing(kinds, sure)) ==> Standing(kinds + ContentsOf(furniture[..k]), sure)
      {
        ReservedKinds(k);
        r := StoreFurniture(reserved[k].nid, furniture[k], kinds + ContentsOf(furniture[..k]), sure);
        if r.Err? {
          return;
        }
        assert nodes + reserved[..k] + [reserved[k]] == nodes + reserved[..k + 1];
        assert kinds + ContentsOf(furniture[..k]) + [ContentOf(furniture[k])] == kinds + ContentsOf(furniture[..k + 1]);
      }
      assert reserved[..|reserved|] == reserved && furniture[..|furniture|] == furniture;
    }

    /** Subnode ids suffice: for every setting in the open tables, and for every cell of a
        hierarchy table. */
    ghost predicate Roomy()
      reads `counts, ids
    {
      |ids.folders| * (|plan.hierarchy| + 2) + 2 <= MAX_INDEX && forall i :: 0 <= i < |counts| ==> counts[i] + 2 <= MAX_INDEX
    }

    /** What a store is made of fits its nodes, and every open table can end. */
    ghost predicate Finishable(furniture: seq<Furniture>)
      reads `contents, ids, Objects(contents)
    {
      && FoldersFit(plan, ids.folders) && (forall k :: 0 <= k < |furniture| ==> FurnitureFits(furniture[k]))
      && forall i :: 0 <= i < |contents| ==> RoomToEnd(i)
    }

    /** What WriteFolders asks for. */
    lemma ReadyToWrite()
      requires Valid()
      ensures PlanOk(plan) && |contents| == |ids.folders| && FoldersOk(ids.folders) && MessagesOk(ids.folders, ids.nodes)
      ensures TablesReady(0, RowLists(contents), Roomy(), forall i :: 0 <= i < |contents| ==> RoomToEnd(i))
      ensures Standing(Mails(messages), Roomy())
      ensures forall i :: 0 <= i < |contents| ==> Ids(RowLists(contents)[i]) == ids.folders[i].rows
    {
      hide ndb.Valid, PlanOk, TablesOk, FoldersOk, MessagesOk, Filled, Passes, Owner, RoomToEnd;
      var room := forall i :: 0 <= i < |contents| ==> RoomToEnd(i);
      forall i | 0 <= i < |contents|
        ensures TableReady(i, RowLists(contents)[i], Roomy(), room) && Ids(RowLists(contents)[i]) == ids.folders[i].rows
      {
        assert RowsMatch(i);
      }
    }

    /** Everything a store holds in the end. */
    ghost function StoreContent(furniture: seq<Furniture>): seq<Content>
      requires |contents| == |ids.folders|
      reads this, ids, Objects(contents)
    {
      Mails(messages) + FoldersContent(plan, ids.folders, RowLists(contents), |contents|) + ContentsOf(furniture)
    }

    /** The folders, the reserved nodes, and the file. Fails only when something does not fit
        its node, or the store has too many nodes or blocks. */
    method Finish(furniture: seq<Furniture>)
      returns (r: Result<Buf>, out: seq<Published>, ghost nodes: seq<NbtEntry>, ghost order: seq<nat>)
      requires Valid() && |furniture| == |Reserved()| && forall k :: 0 <= k < |furniture| ==> FurnitureOk(furniture[k])
      modifies this, ndb, ids, Objects(contents)
      ensures Consistent(old(ids.folders), old(ids.nodes), out)
      ensures ids.nodes == old(ids.nodes) + FolderNodes(old(ids.folders)) + Reserved() && Distinct(ids.nodes)
      ensures r.Ok? && |r.value| < U64 && old(Roomy()) ==>
                OnFile(ndb.sums, r.value, ids.nodes, nodes, order, old(StoreContent(furniture)), plan.schema)
      ensures r.Err? ==> !old(Finishable(furniture)) || SearchTree.CeilDiv(|ids.nodes|, 15) > Pow20(7) || SearchTree.CeilDiv(|order|, 20) > Pow20(7)
    {
      hide ndb.Valid, PstStore.Valid, PlanOk, TablesOk, TablesReady, FoldersOk, MessagesOk, FurnitureOk, Standing, NodesOf, FolderNodes,
           Reserved, Consistent, OnFile, FoldersContent, ContentsOf, Mails, Distinct, RowsOk, SearchTree.CeilDiv, Pow20, FoldersFit, FurnitureFits,
           RoomToEnd;
      nodes, order := [], [];
      ghost var sure, rows, room := Roomy(), RowLists(contents), forall i :: 0 <= i < |contents| ==> RoomToEnd(i);
      Strangers(contents, ids);
      Strangers(contents, ndb);
      ReadyToWrite();
      r := Err("");
      var done := WriteNodes(ids.folders, ids.nodes, furniture, rows, Mails(messages), sure, room);
      out := ids.Finish();
      if done.Err? {
        return Err(done.reason), out, nodes, order;
      }
      r, nodes, order := CloseFile(Mails(messages) + FoldersContent(plan, ids.folders, rows, |ids.folders|) + ContentsOf(furniture), sure);
    }

    /** The nodes of all the folders, then the reserved ones. */
    method WriteNodes(folders: seq<Folder>, ghost messages: seq<Node>, furniture: seq<Furniture>, ghost rows: seq<seq<Row>>,
                      ghost kinds: seq<Content>, ghost sure: bool, ghost room: bool)
      returns (r: Result<()>)
      requires ndb.Valid() && PlanOk(plan) && TablesOk(0) && |folders| == |contents| == |rows| && TablesReady(0, rows, sure, room)
      requires FoldersOk(folders) && MessagesOk(folders, messages) && (sure ==> |folders| * (|plan.hierarchy| + 2) + 2 <= MAX_INDEX)
      requires forall i :: 0 <= i < |folders| ==> Ids(rows[i]) == folders[i].rows
      requires |furniture| == |Reserved()| && forall k :: 0 <= k < |furniture| ==> FurnitureOk(furniture[k])
      modifies ndb, Objects(contents), `looses
      ensures ndb.Valid() && ndb.Grown()
      ensures r.Ok? ==> NodesOf(ndb.nbt) == NodesOf(old(ndb.nbt)) + FolderNodes(folders) + Reserved()
      ensures r.Ok? ==> forall i :: 0 <= i < |looses| ==> looses[i] == multiset{}
      ensures r.Ok? && old(Standing(kinds, sure))
              ==> Standing(kinds + FoldersContent(plan, folders, rows, |folders|) + ContentsOf(furniture), sure)
      ensures r.Err? ==> !room || !FoldersFit(plan, folders) || exists k :: 0 <= k < |furniture| && !FurnitureFits(furniture[k])
    {
      hide ndb.Valid, PlanOk, TablesReady, FoldersOk, MessagesOk, FurnitureOk, Standing, NodesOf, FolderNodes, Reserved, FoldersContent,
           ContentsOf, TableOk, FoldersFit, FurnitureFits;
      r := WriteFolders(folders, messages, rows, kinds, sure, room);
      if r.Ok? {
        r := WriteReserved(furniture, kinds + FoldersContent(plan, folders, rows, |folders|), sure);
      }
    }

    /** Ends the NDB layer. */
    method CloseFile(ghost kinds: seq<Content>, ghost sure: bool) returns (r: Result<Buf>, ghost nodes: seq<NbtEntry>, ghost order: seq<nat>)
      requires ndb.Valid() && Standing(kinds, sure) && Distinct(NodesOf(ndb.nbt))
      requires forall i :: 0 <= i < |looses| ==> looses[i] == multiset{}
      modifies ndb
      ensures r.Ok? && |r.value| < U64 && sure ==>
                OnFile(ndb.sums, r.value, NodesOf(old(ndb.nbt)), nodes, order, kinds, plan.schema)
      ensures r.Err? ==> SearchTree.CeilDiv(|old(ndb.nbt)|, 15) > Pow20(7) || SearchTree.CeilDiv(|order|, 20) > Pow20(7)
    {
      hide Filled, Total, Passes, BidsOf, NodesOf, StoreOf, OnFile, DistinctKeys, AllNodesFit, MapsOnFile, PMapsOnFile, BlockExtents,
           Space.FreeTotal, BlocksOk, Space.SpaceOk, Distinct, ReadNode, FindNode, SearchTree.CeilDiv, Pow20;
      nodes, order := ndb.nbt, BidsOf(ndb.bbt);
      ghost var blocks, fits := ndb.blocks, ndb.Fits64();
      NdbArchive.OrderOf(ndb);
      NdbArchive.OrderLength(ndb.bbt);
      var closed := ndb.Finish();
      if closed.Err? {
        return Err(closed.reason), nodes, order;
      }
      if |ndb.file| < U64 && sure {
        assert fits;
        StoreEnds(ndb.sums, ndb.file, blocks, order, nodes, looses, kinds, plan.schema);
      }
      return Ok(ndb.file), nodes, order;
    }

    /** The table of folder `i` ends, the others stay open. */
    method EndTable(i: nat, nid: nat, parent: nat, ghost kinds: seq<Content>, ghost sure: bool)
      returns (r: Result<()>)
      requires ndb.Valid() && TablesOk(i) && i < |contents| && nid < U32 && parent < U32
      requires DistinctRowIds(Ids(contents[i].rows)) && |contents[i].rows| < U32 && (sure ==> contents[i].subs.nextIndex < MAX_INDEX)
      modifies ndb, contents[i], contents[i].heap, contents[i].subs, `looses
      ensures ndb.Valid() && ndb.Grown()
      ensures r.Ok? ==> TablesOk(i + 1)
      ensures r.Ok? ==> Adds(nid, parent, Rows(Declared(plan.contents), old(contents[i].rows)), sure, kinds)
      ensures r.Err? ==> !old(RoomToEnd(i))
    {
      hide ndb.Valid, TableContextWriter.Valid, TableContextWriter.Loose, Passes, BidsOf, Total, Declared, Filled, NodeRefs, TableOnFile,
           DistinctRowIds, RoomToEnd;
      assert TableOk(i);
      ghost var blocks, order, nbt, ls, owner, rows := ndb.blocks, BidsOf(ndb.bbt), ndb.nbt, looses, Owner(), contents[i].rows;
      var parts := CloseTable(i);
      if parts.Err? {
        return Err(parts.reason);
      }
      ghost var e := NbtEntry(nid, parts.value.0, parts.value.1, parent);
      ndb.AddNode(nid, parts.value.0, parts.value.1, parent);
      looses := looses[i := multiset{}];
      NodesOfSnoc(nbt, e);
      forall k | i < k < |contents| ensures TableOk(k) {
        assert old(TableOk(k));
        contents[k].Survives();
      }
      if ndb.Fits64() && sure {
        TableNode(blocks, order, ndb.blocks, BidsOf(ndb.bbt), nbt, e, ls, i);
        StandingNext(blocks, ndb.blocks, nbt, e, kinds, Rows(Declared(plan.contents), rows), plan.schema, owner, Owner());
      }
      return Ok(());
    }

    /** The data and the subnodes of a table that ends. */
    method CloseTable(i: nat) returns (r: Result<(nat, nat)>)
      requires ndb.Valid() && i < |contents| && TableOk(i) && DistinctRowIds(Ids(contents[i].rows)) && |contents[i].rows| < U32
      modifies ndb, contents[i], contents[i].heap, contents[i].subs
      ensures ndb.Valid() && ndb.Grown() && ndb.nbt == old(ndb.nbt)
      ensures r.Ok? && ndb.Fits64() && old(contents[i].subs.nextIndex) < MAX_INDEX ==>
                && TableOnFile(ndb.blocks, r.value.0, r.value.1, Declared(plan.contents), old(contents[i].rows))
                && 0 < r.value.0 < U64 && r.value.1 < U64
                && Passes(Holding(old(ndb.blocks), old(BidsOf(ndb.bbt)), old(contents[i].Loose())),
                          Holding(ndb.blocks, BidsOf(ndb.bbt), NodeRefs(r.value.0, r.value.1)))
      ensures r.Err? ==> !old(RoomToEnd(i))
    {
      hide ndb.Valid, TableContextWriter.Valid, TableContextWriter.Loose, Passes, BidsOf, Declared, NodeRefs, TableOnFile,
           ReadTree, SubnodesRead, AnswersFrom, DistinctRowIds, MatrixTooLarge, Bth.MostBlocks;
      var t := contents[i];
      SharedNdb(t);
      t.HeldIs();
      ghost var rows := t.rows;
      r := t.Finish();
      if r.Ok? && ndb.Fits64() && t.subs.nextIndex <= MAX_INDEX {
        ContextArchive.RefFits(ndb, r.value.0);
        if r.value.1 != 0 { ContextArchive.RefFits(ndb, r.value.1); }
        ExtendsItself(ndb.blocks);
        StoredByEntries(ndb.blocks, ndb.blocks, ReadTree(ndb.blocks, r.value.0).value, r.value.0, r.value.1, t.subs.entries,
                        Declared(plan.contents), rows);
      }
    }

    twostate predicate RowAdded(p: nat, nid: nat, row: seq<Setting>)
      requires contents == old(contents) && p < |contents|
      reads `contents, Objects(contents)
    {
      var t, tags := contents[p], Declared(plan.contents);
      assert t in contents;
      && t.rows == old(t.rows) + [Apply(tags, NewRow(tags, nid), row)]
      && |t.heap.Contents()| <= |old(t.heap.Contents())| + |row| && t.subs.nextIndex <= old(t.subs.nextIndex) + |row|
      && |t.subs.entries| - |old(t.subs.entries)| == t.subs.nextIndex - old(t.subs.nextIndex)
    }

    /** A row in one of the open tables. */
    method AppendRow(p: nat, nid: nat, row: seq<Setting>) returns (ok: bool)
      requires ndb.Valid() && TablesOk(0) && p < |contents| && nid < U32 && Typed(row)
      modifies ndb, contents[p], contents[p].heap, contents[p].subs, `looses
      ensures ok ==> RowAdded(p, nid, row)
      ensures ok && ndb.Fits64() ==> Passes(old(Owner()), Owner())
      ensures ok ==> TablesOk(0)
      ensures !ok ==> Refused(Declared(plan.contents), row) || !old(RoomInHeap(p, |row|))
      ensures ndb.Valid() && ndb.Grown() && ndb.nbt == old(ndb.nbt)
    {
      hide ndb.Valid, TableContextWriter.Valid, TableContextWriter.Loose, Passes, BidsOf, Total, Declared, Refused, Apply, NewRow, RoomInHeap;
      assert TableOk(p);
      ghost var blocks, order, ls := ndb.blocks, BidsOf(ndb.bbt), looses;
      ok := PlayRow(p, nid, row);
      if ok {
        looses := looses[p := contents[p].Loose()];
        OthersSurvive(p);
        if ndb.Fits64() { TableStep(blocks, order, ndb.blocks, BidsOf(ndb.bbt), ndb.nbt, ls, p, contents[p].Loose()); }
      }
    }

    /** The row itself. */
    method PlayRow(p: nat, nid: nat, row: seq<Setting>) returns (ok: bool)
      requires ndb.Valid() && p < |contents| && TableOk(p) && nid < U32 && Typed(row)
      modifies ndb, contents[p], contents[p].heap, contents[p].subs
      ensures ok ==> RowAdded(p, nid, row) && contents[p].Valid() && !contents[p].inRow
      ensures ok && ndb.Fits64() ==>
                Passes(Holding(old(ndb.blocks), old(BidsOf(ndb.bbt)), old(contents[p].Loose())),
                       Holding(ndb.blocks, BidsOf(ndb.bbt), contents[p].Loose()))
      ensures !ok ==> Refused(Declared(plan.contents), row) || !old(RoomInHeap(p, |row|))
      ensures ndb.Valid() && ndb.Grown() && ndb.nbt == old(ndb.nbt)
    {
      hide ndb.Valid, TableContextWriter.Valid, TableContextWriter.Loose, Passes, BidsOf, Declared, Apply, NewRow, Refused,
           SubnodeAllocator.Numbered, Accepted, StreamingHeap.Whole, TableContextWriter.Held, Typed, EntriesRefs;
      var t := contents[p];
      SharedNdb(t);
      t.HeldIs();
      ok := StreamRow(t, nid, row);
      if ok {
        SharedNdb(t);
        t.HeldIs();
      }
    }

    /** One table moved on, the others have not. */
    twostate lemma OthersSurvive(p: nat)
      requires old(TablesOk(0)) && p < |contents| && contents == old(contents) && ndb.Valid() && ndb.Grown() && TableOk(p)
      requires |looses| == |contents| && forall i :: 0 <= i < |contents| && i != p ==> looses[i] == old(looses[i])
      requires forall i :: 0 <= i < |contents| && i != p ==>
                 unchanged(contents[i]) && unchanged(contents[i].heap) && unchanged(contents[i].subs)
      ensures TablesOk(0)
    {
      hide ndb.Valid, TableContextWriter.Valid, TableContextWriter.Loose;
      forall i | 0 <= i < |contents| ensures TableOk(i) {
        if i != p {
          assert old(TableOk(i));
          contents[i].Survives();
        }
      }
    }

    /** Writes to the NDB layer alone leave the open tables as they are. */
    twostate lemma TablesSurvive(from: nat)
      requires old(TablesOk(from)) && unchanged(this) && unchanged(Objects(contents)) && ndb.Valid() && ndb.Grown()
      ensures TablesOk(from)
    {
      hide ndb.Valid, TableContextWriter.Valid, TableContextWriter.Loose;
      forall i | from <= i < |contents| ensures TableOk(i) {
        assert old(TableOk(i));
        contents[i].Survives();
      }
    }
  }

  lemma PlanColumns(p: Plan)
    requires PlanOk(p)
    ensures SchemaOk(p.schema) && ColumnsOk(p.contents) && ColumnsOk(p.hierarchy) && ColumnsOk(p.associated)
  {
  }

  lemma NothingYet(bbt: seq<BbtEntry>, c: Schema)
    ensures bbt == [] ==> Passes(Nobody(), Total(map[], BidsOf(bbt), [], [])) && Filled(map[], [], Mails([]), c)
    ensures NodesOf([]) == []
  {
    NothingDone(map[], []);
  }

  lemma NoRowsYet(ids: PstStore)
    requires ids.Valid() && ids.nodes == []
    ensures forall i :: 0 <= i < |ids.folders| ==> ids.folders[i].rows == []
  {
  }

  lemma NewId(rows: seq<Row>, nid: nat, row: seq<Setting>, tags: seq<nat>)
    ensures Ids(rows + [Apply(tags, NewRow(tags, nid), row)]) == Ids(rows) + [nid]
  {
    hide Apply;
  }

  /** The id of the next message, and the place of its folder. */
  lemma NextMessage(ids: PstStore, p: nat)
    requires ids.Valid() && ids.nextMessage < MAX_INDEX && p < |ids.folders|
    ensures MakeNid(T_MESSAGE, ids.nextMessage) == MessageNid(|ids.nodes|) && ids.folders[p].nid < U32
    ensures forall i :: 0 <= i < |ids.folders| && i != p ==> ids.folders[i].nid != ids.folders[p].nid
  {
    hide MakeNid, NodesUnder, ChildrenOf;
    OnlyFolder(ids.folders, p);
  }

  lemma OneBlock(b: Store, o: seq<nat>, d: Store, p: seq<nat>, bid: nat)
    requires Law(b, o, d, p, multiset{}, multiset{bid}) && bid != 0
    ensures Passes(Holding(b, o, multiset{}), Holding(d, p, NodeRefs(bid, 0)))
  {
    hide Law;
    var none: multiset<nat> := multiset{};
    assert multiset{bid} + none == multiset{bid};
  }

  /** What WriteFolder asks of a folder. */
  lemma FolderReady(p: Plan, folders: seq<Folder>, nodes: seq<Node>, i: nat)
    requires PlanOk(p) && FoldersOk(folders) && MessagesOk(folders, nodes) && i < |folders|
    ensures folders[i].nid < U32 && folders[i].parent < U32
    ensures var s := HierarchyScript(p, folders, folders[i]);
            Scripted(Declared(p.hierarchy), s) && |s| < |folders| < U32
    ensures |folders| * (|p.hierarchy| + 2) + 2 <= MAX_INDEX ==> Numerable(p.hierarchy, HierarchyScript(p, folders, folders[i]))
    ensures DistinctRowIds(folders[i].rows) && |folders[i].rows| < U32
  {
    hide Identified, Childed, Scripted, Declared, PlanOk, DistinctRowIds, MessagesOk, HierarchyScript;
    FoldersApart(folders);
    HierarchyFits(p, folders, i);
    ContentsFit(folders, nodes, i);
    Bth.Scale(|HierarchyScript(p, folders, folders[i])|, |folders|, |p.hierarchy| + 2);
    ParentFits(folders, i);
  }

  lemma ParentFits(folders: seq<Folder>, i: nat)
    requires FoldersOk(folders) && i < |folders|
    ensures folders[i].parent < U32
  {
    hide Childed, FolderNid;
    FoldersApart(folders);
    if i > 0 {
      var j := ParentOf(folders, i);
      assert folders[j].nid == folders[i].parent;
    }
  }

  lemma NodesNext(nodes: seq<Node>, folders: seq<Folder>, i: nat)
    requires i < |folders|
    ensures nodes + FolderNodes(folders[..i]) + NodesOfFolder(folders[i]) == nodes + FolderNodes(folders[..i + 1])
  {
    hide NodeOf;
    assert folders[..i + 1][..i] == folders[..i];
  }

  // ------------------------------------------------------ the finished file

  /** What a reader finds in a file: the nodes `ids` and no others, each with its parent and
      its content, in blocks that are a forest under the nodes. */
  ghost predicate OnFile(s: Sums, file: Buf, ids: seq<Node>, nodes: seq<NbtEntry>, order: seq<nat>, kinds: seq<Content>, c: Schema) {
    && |nodes| == |ids| == |kinds| && Forest(StoreOf(s, file), order, NdbArchive.Roots(nodes))
    && (forall k :: 0 <= k < |ids| ==>
          && ReadNode(s, file, ids[k].nid) == Some(nodes[k]) && nodes[k].parent == ids[k].parent
          && HoldsContent(StoreOf(s, file), nodes[k], kinds[k], c))
    && (forall nid: nat :: (forall k :: 0 <= k < |ids| ==> ids[k].nid != nid) ==> ReadNode(s, file, nid) == None)
  }

  lemma {:induction false} FoldersContentAt(p: Plan, folders: seq<Folder>, rows: seq<seq<Row>>, n: nat, i: nat, j: nat)
    requires n <= |folders| && n <= |rows|
    ensures |FoldersContent(p, folders, rows, n)| == 4 * n
    ensures i < n && j < 4 ==>
              FoldersContent(p, folders, rows, n)[4 * i + j]
              == FolderContent(p, folders[i], HierarchyScript(p, folders, folders[i]), rows[i])[j]
    decreases n
  {
    hide FolderPuts, TableContent, HierarchyScript;
    if n > 0 { FoldersContentAt(p, folders, rows, n - 1, i, j); }
  }

  /** The node of a message: under its folder, with everything handed in. */
  lemma MessageReads(s: Sums, file: Buf, mail: seq<Node>, ids: seq<Node>, nodes: seq<NbtEntry>, order: seq<nat>, messages: seq<Message>,
                     kinds: seq<Content>, c: Schema, k: nat, id: nat)
    requires OnFile(s, file, ids, nodes, order, kinds, c) && mail <= ids && Mails(messages) <= kinds && k < |messages| == |mail|
    requires PutsOk(messages[k].puts)
    ensures ReadNode(s, file, mail[k].nid).Some?
    ensures var e := ReadNode(s, file, mail[k].nid).value;
            e.parent == mail[k].parent && MessageStored(StoreOf(s, file), e.data, e.sub, messages[k], c)
    ensures PropertyContext.LastWrite(messages[k].puts, id).None?
            || PropertyContext.WellTyped(PropertyContext.LastWrite(messages[k].puts, id).value)
            ==> ContextArchive.ReadFileProperty(s, file, mail[k].nid, id) == ContextArchive.Expected(messages[k].puts, id)
  {
    hide StoreOf, ReadNode, ContextArchive.ContextStored, Forest, ContextArchive.ReadFileProperty, ContextArchive.Expected,
         PropertyContext.LastWrite, PropertyContext.WellTyped, TableAt, FindSub, AttachmentStored;
    assert ids[k] == mail[k] && kinds[k] == Mails(messages)[k] == Mail(messages[k]);
    ContextArchive.ContextReads(s, file, mail[k].nid, nodes[k], messages[k].puts, id);
  }

  /** Node `j` of folder `i`. */
  lemma FolderNodeReads(p: Plan, s: Sums, file: Buf, mail: seq<Node>, folders: seq<Folder>, more: seq<Node>, nodes: seq<NbtEntry>,
                        order: seq<nat>, first: seq<Content>, rows: seq<seq<Row>>, last: seq<Content>, c: Schema, i: nat, j: nat)
    requires |first| == |mail| && |rows| == |folders| && i < |folders| && j < 4
    requires OnFile(s, file, mail + FolderNodes(folders) + more, nodes, order, first + FoldersContent(p, folders, rows, |folders|) + last, c)
    ensures ReadNode(s, file, NodeOf(folders[i], j).nid).Some?
    ensures var e := ReadNode(s, file, NodeOf(folders[i], j).nid).value;
            && e.parent == NodeOf(folders[i], j).parent
            && HoldsContent(StoreOf(s, file), e, FolderContent(p, folders[i], HierarchyScript(p, folders, folders[i]), rows[i])[j], c)
  {
    hide StoreOf, ReadNode, HoldsContent, Forest, FolderContent, HierarchyScript, NodeOf;
    FoldersContentAt(p, folders, rows, |folders|, i, j);
    FolderNodesAt(folders, i, j);
    var k, ids, kinds := |mail| + 4 * i + j, mail + FolderNodes(folders) + more, first + FoldersContent(p, folders, rows, |folders|) + last;
    assert ids[k] == NodeOf(folders[i], j) && kinds[k] == FoldersContent(p, folders, rows, |folders|)[4 * i + j];
  }

  /** What the file says of folder `i`: its counters, its children and its messages. */
  lemma FolderReads(p: Plan, s: Sums, file: Buf, mail: seq<Node>, folders: seq<Folder>, more: seq<Node>, nodes: seq<NbtEntry>,
                    order: seq<nat>, first: seq<Content>, rows: seq<seq<Row>>, last: seq<Content>, c: Schema, i: nat)
    requires |first| == |mail| && |rows| == |folders| && i < |folders| && PlanOk(p) && MessagesOk(folders, mail)
    requires OnFile(s, file, mail + FolderNodes(folders) + more, nodes, order, first + FoldersContent(p, folders, rows, |folders|) + last, c)
    ensures var f := folders[i];
            && ContextArchive.ReadFileProperty(s, file, f.nid, 0x3602) == Some(Long(f.count)) && f.count == |NodesUnder(mail, f.nid)|
            && ContextArchive.ReadFileProperty(s, file, f.nid, 0x3603) == Some(Long(f.unread)) && f.unread <= f.count
    ensures var f, tags := folders[i], Declared(p.contents);
            forall id: nat, tag: nat :: ReadFileCell(s, file, NodeOf(f, 2).nid, id, tag) == CellOf(tags, rows[i], id, tag)
    ensures var f, tags := folders[i], Declared(p.hierarchy);
            forall id: nat, tag: nat :: ReadFileCell(s, file, NodeOf(f, 1).nid, id, tag)
                                        == CellOf(tags, RowsOf(tags, HierarchyScript(p, folders, f)), id, tag)
  {
    hide StoreOf, ReadNode, Forest, HierarchyScript, OnFile, FoldersContent, FolderNodes, ContextArchive.ContextStored, TableOnFile,
         ContextArchive.ReadFileProperty, ReadFileCell, CellOf, RowsOf, Declared, MakeNid, PlanOk;
    var f := folders[i];
    FolderNodeReads(p, s, file, mail, folders, more, nodes, order, first, rows, last, c, i, 0);
    FolderNodeReads(p, s, file, mail, folders, more, nodes, order, first, rows, last, c, i, 1);
    FolderNodeReads(p, s, file, mail, folders, more, nodes, order, first, rows, last, c, i, 2);
    assert CountsOk(mail, f);
    MessagesDistinct(mail);
    RowsApart(mail, f.nid);
    CountersRead(p, s, file, f, ReadNode(s, file, f.nid).value);
    forall id: nat, tag: nat
      ensures ReadFileCell(s, file, NodeOf(f, 2).nid, id, tag) == CellOf(Declared(p.contents), rows[i], id, tag)
      ensures ReadFileCell(s, file, NodeOf(f, 1).nid, id, tag)
              == CellOf(Declared(p.hierarchy), RowsOf(Declared(p.hierarchy), HierarchyScript(p, folders, f)), id, tag)
    {
      TableReads(s, file, NodeOf(f, 2).nid, ReadNode(s, file, NodeOf(f, 2).nid).value, Declared(p.contents), rows[i], id, tag);
      TableReads(s, file, NodeOf(f, 1).nid, ReadNode(s, file, NodeOf(f, 1).nid).value, Declared(p.hierarchy),
                 RowsOf(Declared(p.hierarchy), HierarchyScript(p, folders, f)), id, tag);
    }
  }

  function Long(x: nat): PropertyContext.Property { PropertyContext.Property(3, PropertyContext.Small(x)) }

  lemma CountersRead(p: Plan, s: Sums, file: Buf, f: Folder, e: NbtEntry)
    requires PlanOk(p) && f.count < U32 && f.unread < U32 && ReadNode(s, file, f.nid) == Some(e)
    requires ContextArchive.ContextStored(StoreOf(s, file), e.data, e.sub, FolderPuts(p, f))
    ensures ContextArchive.ReadFileProperty(s, file, f.nid, 0x3602) == Some(Long(f.count))
    ensures ContextArchive.ReadFileProperty(s, file, f.nid, 0x3603) == Some(Long(f.unread))
  {
    hide StoreOf, ReadNode, ContextArchive.ContextStored, ContextArchive.ReadFileProperty, PlanOk;
    RowTyped(p, f);
    CounterPuts(p, f);
    ContextArchive.ContextReads(s, file, f.nid, e, FolderPuts(p, f), 0x3602);
    ContextArchive.ContextReads(s, file, f.nid, e, FolderPuts(p, f), 0x3603);
  }

  /** Nothing is set after the counters under their ids. */
  lemma CounterPuts(p: Plan, f: Folder)
    ensures PropertyContext.LastWrite(FolderPuts(p, f), 0x3602)
            == Some(PropertyContext.Value(PR_CONTENT_COUNT, PropertyContext.Inline(f.count)))
    ensures PropertyContext.LastWrite(FolderPuts(p, f), 0x3603)
            == Some(PropertyContext.Value(PR_CONTENT_UNREAD, PropertyContext.Inline(f.unread)))
  {
    var puts, n := FolderPuts(p, f), |p.describe(f)|;
    assert puts[..n + 2][..n + 1] == puts[..n + 1];
    assert PropertyContext.LastWrite(puts, 0x3602) == PropertyContext.LastWrite(puts[..n + 2], 0x3602);
    assert PropertyContext.LastWrite(puts[..n + 2], 0x3602) == PropertyContext.LastWrite(puts[..n + 1], 0x3602);
  }

  lemma NodesFilled(blocks: Store, nbt: seq<NbtEntry>, kinds: seq<Content>, c: Schema)
    requires Filled(blocks, nbt, kinds, c) && Distinct(NodesOf(nbt))
    ensures DistinctKeys(nbt, NodeKey()) && AllNodesFit(nbt)
  {
    hide HoldsContent;
    var ids := NodesOf(nbt);
    forall i, j | 0 <= i < j < |nbt| ensures NodeKey()(nbt[i]) != NodeKey()(nbt[j]) {
      assert ids[i].nid != ids[j].nid;
    }
  }

  lemma StoreEnds(s: Sums, file: Buf, blocks: Store, order: seq<nat>, nodes: seq<NbtEntry>, ls: seq<multiset<nat>>, kinds: seq<Content>,
                  c: Schema)
    requires (forall i :: 0 <= i < |ls| ==> ls[i] == multiset{}) && Passes(Nobody(), Total(blocks, order, nodes, ls))
    requires Filled(blocks, nodes, kinds, c) && Distinct(NodesOf(nodes)) && StoreOf(s, file) == blocks
    requires DistinctKeys(nodes, NodeKey()) && AllNodesFit(nodes) ==> forall nid: nat :: ReadNode(s, file, nid) == FindNode(nodes, nid)
    requires (forall b :: b in blocks ==> b in order) && forall i, j :: 0 <= i < j < |order| ==> order[i] < order[j]
    ensures OnFile(s, file, NodesOf(nodes), nodes, order, kinds, c)
  {
    hide StoreOf, ReadNode, FindNode, HoldsContent, DistinctKeys, AllNodesFit, Passes, Forest, NdbArchive.Roots, Distinct;
    NodesFilled(blocks, nodes, kinds, c);
    AllEnded(blocks, order, nodes, ls);
    var ids := NodesOf(nodes);
    forall k | 0 <= k < |ids| ensures ReadNode(s, file, ids[k].nid) == Some(nodes[k]) {
      ContextArchive.NodeOfSpec(nodes, k);
    }
    forall nid: nat | forall k :: 0 <= k < |ids| ==> ids[k].nid != nid ensures ReadNode(s, file, nid) == None {
      NotAmong(nodes, nid);
    }
  }

  lemma NotAmong(nbt: seq<NbtEntry>, nid: nat)
    requires forall k :: 0 <= k < |nbt| ==> NodesOf(nbt)[k].nid != nid
    ensures FindNode(nbt, nid) == None
  {
    FindNodeMember(nbt, nid);
    forall k | 0 <= k < |nbt| ensures nbt[k].nid != nid { assert NodesOf(nbt)[k].nid != nid; }
  }

  /** The rows of a list of tables. */
  ghost function RowLists(ts: seq<TableContextWriter>): (rows: seq<seq<Row>>)
    reads set t | t in ts :: t
    decreases |ts|
    ensures |rows| == |ts| && forall i :: 0 <= i < |ts| ==> rows[i] == ts[i].rows
  {
    if ts == [] then []
    else
      var n := |ts| - 1;
      assert ts[n] in ts && forall t :: t in ts[..n] ==> t in ts;
      RowLists(ts[..n]) + [ts[n].rows]
  }

  function NodesOfFolder(f: Folder): seq<Node> { [NodeOf(f, 0), NodeOf(f, 1), NodeOf(f, 2), NodeOf(f, 3)] }

  lemma NoScript(columns: seq<nat>)
    ensures Scripted(Declared(columns), []) && Numerable(columns, [])
  {
  }

  function Nobody(): Holding { Holding(map[], [], multiset{}) }
}
