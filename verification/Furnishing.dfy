/** What the reserved nodes of a store hold: templates, search objects, two empty indexes, the
    message store and the name map. */
module Furnishing {
  import opened Bytes
  import opened Wrappers
  import opened HeapFormat
  import opened BthFormat
  import opened SearchTree
  import opened RowLayout
  import opened TableReader
  import opened TableContextWriter
  import opened TableRefinement
  import opened TableArchive
  import opened MessageArchive
  import opened PstStore
  import opened PstWriter
  import PropertyContext
  import HeapNode
  import HeapRefinement
  import Bth

  const HMP_GUID_SIGNATURE: byte := 0x9C
  const HMP_ID_SIGNATURE: byte := 0xCC
  const PR_MESSAGE_CLASS: nat := 0x001A_001F
  const PR_PST_RECEIVE_FOLDER: nat := 0x6605_0003
  const RECEIVE_FOLDERS: nat := 4

  /** The columns of the table templates, in the order of their nodes. */
  function TemplateColumns(): (c: seq<seq<nat>>)
    ensures |c| == 11
  {
    [[0x0E300102, 0x0E330014, 0x0E340102, 0x0E380003, 0x3001001F, 0x36020003, 0x36030003, 0x360A000B, 0x3613001F, 0x66350003, 0x66360003],
     [0x00170003, 0x001A001F, 0x00360003, 0x0037001F, 0x00390040, 0x0042001F, 0x0057000B, 0x0058000B, 0x0070001F, 0x00710102, 0x0E03001F,
      0x0E04001F, 0x0E060040, 0x0E070003, 0x0E080003, 0x0E170003, 0x0E300102, 0x0E330014, 0x0E340102, 0x0E380003, 0x0E3C0102, 0x0E3D0102,
      0x10970003, 0x30080040, 0x30130102, 0x65C60003],
     [0x001A001F, 0x0E070003, 0x0E170003, 0x3001001F, 0x6800001F, 0x6803000B, 0x68051003, 0x682F001F, 0x70030003, 0x70040102, 0x70050102,
      0x7006001F, 0x70070003],
     [0x00170003, 0x001A001F, 0x00360003, 0x0037001F, 0x0042001F, 0x0057000B, 0x0058000B, 0x0E03001F, 0x0E04001F, 0x0E05001F, 0x0E060040,
      0x0E070003, 0x0E080003, 0x0E170003, 0x0E2A000B, 0x30080040, 0x67F10003],
     [PR_MESSAGE_CLASS, PR_PST_RECEIVE_FOLDER],
     [0x000F0040, 0x00390040, 0x0E070003, 0x0E100003, 0x0E140003, 0x0E29001F, 0x67F10003],
     [0x0E200003, 0x3704001F, 0x37050003, 0x370B0003],
     [0x0C150003, 0x0E0F000B, 0x0FF90102, 0x0FFE0003, 0x0FFF0102, 0x3001001F, 0x3002001F, 0x3003001F, 0x300B0102, 0x39000003, 0x39FF001F,
      0x3A40000B],
     [0x0E330014, 0x0E370102, 0x0E380003],
     [0x001A001F, 0x0E300102, 0x0E310102, 0x0E330014, 0x0E340102, 0x0E380003, 0x0E3E0102],
     [0x0E330014, 0x30070040]]
  }

  /** The receive folder table has one row: every message class goes to the subtree. */
  function TemplateRows(i: nat, subtree: nat): (s: seq<RowScript>) {
    var sets := [Setting(PR_MESSAGE_CLASS, Var([])), Setting(PR_PST_RECEIVE_FOLDER, Fixed(Put32(subtree)))];
    if i == RECEIVE_FOLDERS then [RowScript(subtree, sets, sets)] else []
  }

  /** The furniture in the order of the reserved nodes. */
  function Furnish(subtree: nat, guids: Buf, ids: Buf, store: seq<PropertyContext.Value>, names: seq<PropertyContext.Value>)
    : (f: seq<Furniture>)
    ensures |f| == 21
  {
    seq(11, i requires 0 <= i < 11 => Table(TemplateColumns()[i], TemplateRows(i, subtree)))
    + [Stream([]), Nothing, Stream(guids), Stream(ids), Nothing, Nothing, Nothing, Nothing, Properties(store), Properties(names)]
  }

  /** It is what Finish asks for. */
  lemma FurnishOk(subtree: nat, guids: Buf, ids: Buf, store: seq<PropertyContext.Value>, names: seq<PropertyContext.Value>)
    requires subtree < U32 && PutsOk(store) && PutsOk(names)
    ensures |Furnish(subtree, guids, ids, store, names)| == |Reserved()|
    ensures forall k :: 0 <= k < 21 ==> FurnitureOk(Furnish(subtree, guids, ids, store, names)[k])
  {
    hide PutsOk, TemplateRows, TemplateColumns;
    forall i | 0 <= i < 11 ensures FurnitureOk(Table(TemplateColumns()[i], TemplateRows(i, subtree))) { TemplateOk(i, subtree); }
  }

  lemma TemplateOk(i: nat, subtree: nat)
    requires i < 11 && subtree < U32
    ensures FurnitureOk(Table(TemplateColumns()[i], TemplateRows(i, subtree)))
  {
    hide Declared, LastSetting, Put32;
    assert ColumnsOk(TemplateColumns()[i]);
  }

  /** An empty index: the user root is an item that names the B-tree's header, kept free for
      it before the tree is built. A reader who follows both finds no key. */
  method BuildIndex(signature: byte, keySize: byte) returns (r: Result<Buf>, ghost hid: nat)
    requires keySize >= 1
    ensures r.Ok? && |r.value| < U32 && HeapItem(r.value, UserRoot(r.value)) == Some(Put32(hid)) && 0 < hid < U32
    ensures r.Ok? && forall key: nat :: Lookup(InStream(r.value), hid, key) == None
  {
    hide HeapOk, Put32, Render, HeapItem, UserRoot, AllocIn, AllocStep, HeapNode.FillLevels, ItemAt, PatchIn, Header, Lookup, IsHid,
         Bth.MostBlocks, Bth.Count;
    hid := 0;
    var hn := new HeapNode.HeapNode(signature);
    ghost var h := hn.Contents();
    FirstSlot(h);
    var slot := hn.Alloc(Zeros(4));
    ghost var before := hn.Contents();
    NoBlocks(before, keySize);
    var tree := Bth.BuildBth(Bth.InMemory(hn), keySize, 4, []);
    hid := tree.value;
    ghost var built := hn.Contents();
    SlotFree(before, built, slot.value, hid, keySize);
    var patched := hn.Patch(slot.value, Put32(tree.value));
    hn.SetUserRoot(slot.value);
    ghost var g := hn.Contents();
    HeapNode.NotEmpty(g);
    var stream := hn.Serialize();
    IndexReads(g, signature, slot.value, HeapNode.FillLevels(g), hid, keySize);
    return Ok(stream), hid;
  }

  /** The two indexes of a store, with keys of 16 and of four bytes. */
  method BuildIndexes() returns (guids: Buf, ids: Buf, ghost g: nat, ghost i: nat)
    ensures HeapItem(guids, UserRoot(guids)) == Some(Put32(g)) && forall key: nat :: Lookup(InStream(guids), g, key) == None
    ensures HeapItem(ids, UserRoot(ids)) == Some(Put32(i)) && forall key: nat :: Lookup(InStream(ids), i, key) == None
    ensures |guids| < U32 && |ids| < U32
  {
    hide Put32, HeapItem, UserRoot, Lookup;
    var a, x := BuildIndex(HMP_GUID_SIGNATURE, 16);
    var b, y := BuildIndex(HMP_ID_SIGNATURE, 4);
    guids, ids, g, i := a.value, b.value, x, y;
  }

  /** The first allocation of a heap. */
  lemma FirstSlot(h: Heap)
    requires h == [[]]
    ensures HeapOk(h) && AllocIn(h, Zeros(4)).Some?
    ensures var (g, slot) := AllocIn(h, Zeros(4)).value;
            HeapOk(g) && |g| <= 2 && slot < U32 && IsHid(slot) && ItemAt(g, slot) == Some(Zeros(4))
  {
    hide ItemAt, MakeHid, IsHid;
    assert HeapOk(h);
    AllocInCorrect(h, Zeros(4));
  }

  lemma NoBlocks(h: Heap, keySize: nat)
    requires |h| <= 2
    ensures |h| + Bth.MostBlocks(0, keySize, 4) <= MAX_BLOCKS
  {
  }

  /** The slot is still there, apart from the tree's header, and takes the header's handle. */
  lemma SlotFree(before: Heap, built: Heap, slot: nat, hid: nat, keySize: byte)
    requires HeapOk(built) && ItemAt(before, slot) == Some(Zeros(4)) && Bth.Added(before, built, Header(keySize, 4, 0, 0), hid)
    ensures slot != hid && PatchIn(built, slot, Put32(hid)).Some?
    ensures var g := PatchIn(built, slot, Put32(hid)).value;
            HeapOk(g) && |g| == |built| && ItemAt(g, slot) == Some(Put32(hid)) && ItemAt(g, hid) == Some(Header(keySize, 4, 0, 0))
  {
    hide HeapOk, ItemAt, Header, Put32;
    assert InHeap(before)(slot) == Some(Zeros(4)) && InHeap(built)(slot) == Some(Zeros(4));
    PatchInCorrect(built, slot, Put32(hid));
  }

  /** What a reader of the stream finds. */
  lemma IndexReads(g: Heap, sig: byte, slot: nat, fill: Buf, hid: nat, keySize: byte)
    requires HeapOk(g) && |fill| == 4 && slot < U32
    requires ItemAt(g, slot) == Some(Put32(hid)) && ItemAt(g, hid) == Some(Header(keySize, 4, 0, 0))
    ensures UserRoot(Render(g, sig, slot, fill)) == slot && HeapItem(Render(g, sig, slot, fill), slot) == Some(Put32(hid))
    ensures forall key: nat :: Lookup(InStream(Render(g, sig, slot, fill)), hid, key) == None
  {
    hide HeapOk, ItemAt, Header, Put32, Render, HeapItem, UserRoot, Lookup, Holds;
    var stream := Render(g, sig, slot, fill);
    HeapRefinement.UserRootReads(g, sig, slot, fill);
    HeapRoundTrip(g, sig, slot, fill, slot);
    HeapRoundTrip(g, sig, slot, fill, hid);
    EmptyHolds(InStream(stream), hid, keySize, 4, 1, 1);
    forall key: nat ensures Lookup(InStream(stream), hid, key) == None { NoKey(InStream(stream), hid, key); }
  }

  lemma NoKey(get: Reader, hid: nat, key: nat)
    requires Holds(get, hid, [], 1, 1)
    ensures Lookup(get, hid, key) == None
  {
    hide Lookup, Holds;
    LookupFinds(get, hid, [], 1, 1, key);
  }
}
