/** The file image: how blocks sit in it and how a reader that starts from the header
    finds blocks and nodes ([MS-PST] sections 2.2.2.5, 2.2.2.7.7 and 2.2.2.8). */
module NdbFile {
  import opened Bytes
  import opened Wrappers
  import opened SearchTree
  import opened PageTree
  import opened DataTree
  import opened Sorting
  import Space

  datatype BbtEntry = BbtEntry(bid: nat, ib: nat, cb: nat)
  datatype NbtEntry = NbtEntry(nid: nat, data: nat, sub: nat, parent: nat)

  /** `file` with `d` written at `ib`; a gap before it reads as zeros. */
  function Splice(file: Buf, ib: nat, d: Buf): (r: Buf)
    ensures |r| == if ib + |d| > |file| then ib + |d| else |file|
    ensures r[ib..ib + |d|] == d
    ensures forall i :: 0 <= i < |file| && (i < ib || ib + |d| <= i) ==> r[i] == file[i]
  {
    if ib >= |file| then file + Zeros(ib - |file|) + d
    else if ib + |d| >= |file| then file[..ib] + d
    else Poke(file, ib, d)
  }

  // --------------------------------------------------------------- blocks

  /** Bytes a block of `cb` data bytes takes in the file. */
  function BlockTotal(cb: nat): nat { AlignUp(cb + 16, Space.ALIGN) }

  function BlockTrailer(s: Sums, ib: nat, bid: nat, data: Buf): (t: Buf)
    ensures |t| == 16
  {
    Put16(|data|) + Put16(s.sig(ib, bid)) + Put32(s.crc(data)) + Put64(bid)
  }

  lemma BlockTotalBounds(cb: nat)
    ensures cb + 16 <= BlockTotal(cb) < cb + 80 && BlockTotal(cb) % Space.ALIGN == 0
    ensures cb <= MAX_DATA ==> BlockTotal(cb) <= Space.MAX_BLOCK
  {
    Space.AlignUpBounds(cb + 16, Space.ALIGN);
  }

  /** A block as it stands in the file: data, padding, trailer. */
  function BlockImage(s: Sums, ib: nat, bid: nat, data: Buf): (r: Buf)
    ensures |r| == BlockTotal(|data|)
    ensures r[..|data|] == data
  {
    BlockTotalBounds(|data|);
    var r := data + Zeros(BlockTotal(|data|) - 16 - |data|) + BlockTrailer(s, ib, bid, data);
    assert r[..|data|] == data;
    r
  }

  /** Entry `e` of the block list describes a block of the store, and the file holds it
      clear of the fixed pages. */
  ghost predicate BlockOk(s: Sums, file: Buf, e: BbtEntry, blocks: Store) {
    && e.bid in blocks && e.cb == |blocks[e.bid]| <= MAX_DATA
    && Space.FIRST_DATA <= e.ib && e.ib + BlockTotal(e.cb) <= |file| && Space.Clear(e.ib, BlockTotal(e.cb))
    && file[e.ib..e.ib + BlockTotal(e.cb)] == BlockImage(s, e.ib, e.bid, blocks[e.bid])
  }

  ghost predicate EntriesOk(s: Sums, file: Buf, bbt: seq<BbtEntry>, blocks: Store, nextBid: nat) {
    && (forall i :: 0 <= i < |bbt| ==> BlockOk(s, file, bbt[i], blocks) && 0 < bbt[i].bid < 4 * nextBid)
    && (forall i, j :: 0 <= i < j < |bbt| ==> bbt[i].bid < bbt[j].bid)
  }

  ghost predicate Listed(bbt: seq<BbtEntry>, blocks: Store) {
    forall b :: b in blocks ==> exists i :: 0 <= i < |bbt| && bbt[i].bid == b
  }

  ghost predicate BlocksOk(s: Sums, file: Buf, bbt: seq<BbtEntry>, blocks: Store, nextBid: nat) {
    EntriesOk(s, file, bbt, blocks, nextBid) && Listed(bbt, blocks)
  }

  /** The space the blocks take, in order. */
  function BlockExtents(bbt: seq<BbtEntry>): (es: seq<Space.Extent>)
    ensures |es| == |bbt|
  {
    seq(|bbt|, i requires 0 <= i < |bbt| => Space.Extent(bbt[i].ib, BlockTotal(bbt[i].cb)))
  }

  lemma BlockKeeps(s: Sums, f: Buf, g: Buf, e: BbtEntry, blocks: Store, more: Store)
    requires BlockOk(s, f, e, blocks) && Keeps(f, g) && e.bid in more && more[e.bid] == blocks[e.bid]
    ensures BlockOk(s, g, e, more)
  {
    KeepsRange(f, g, e.ib, BlockTotal(e.cb));
  }

  lemma BlocksKeep(s: Sums, f: Buf, g: Buf, bbt: seq<BbtEntry>, blocks: Store, nextBid: nat, later: nat)
    requires BlocksOk(s, f, bbt, blocks, nextBid) && Keeps(f, g) && nextBid <= later
    ensures BlocksOk(s, g, bbt, blocks, later)
  {
    hide Listed;
    forall i: nat | i < |bbt| ensures BlockOk(s, g, bbt[i], blocks) {
      BlockKeeps(s, f, g, bbt[i], blocks, blocks);
    }
  }

  lemma SpliceKeeps(file: Buf, ib: nat, d: Buf)
    requires |file| <= ib
    ensures Keeps(file, Splice(file, ib, d))
  {
  }

  lemma BidUnused(s: Sums, file: Buf, bbt: seq<BbtEntry>, blocks: Store, nextBid: nat, bid: nat)
    requires BlocksOk(s, file, bbt, blocks, nextBid) && 4 * nextBid <= bid
    ensures bid !in blocks
  {
    hide BlockOk;
    assert forall i :: 0 <= i < |bbt| ==> bbt[i].bid != bid;
  }

  lemma ListedAppend(bbt: seq<BbtEntry>, blocks: Store, e: BbtEntry, data: Buf)
    requires Listed(bbt, blocks)
    ensures Listed(bbt + [e], blocks[e.bid := data])
  {
    var more := bbt + [e];
    var all := blocks[e.bid := data];
    forall b | b in all ensures exists i :: 0 <= i < |more| && more[i].bid == b {
      if b == e.bid {
        assert more[|bbt|].bid == b;
      } else {
        var i :| 0 <= i < |bbt| && bbt[i].bid == b;
        assert more[i].bid == b;
      }
    }
  }

  lemma EntriesAppend(s: Sums, file: Buf, g: Buf, bbt: seq<BbtEntry>, blocks: Store, nextBid: nat, e: BbtEntry, data: Buf)
    requires EntriesOk(s, file, bbt, blocks, nextBid) && Keeps(file, g) && e.bid !in blocks
    requires BlockOk(s, g, e, blocks[e.bid := data]) && 0 < 4 * nextBid <= e.bid < 4 * (nextBid + 1)
    ensures EntriesOk(s, g, bbt + [e], blocks[e.bid := data], nextBid + 1)
  {
    forall i | 0 <= i < |bbt| ensures BlockOk(s, g, bbt[i], blocks[e.bid := data]) {
      assert BlockOk(s, file, bbt[i], blocks);
      BlockKeeps(s, file, g, bbt[i], blocks, blocks[e.bid := data]);
    }
    hide BlockOk;
  }

  /** Adding a block behind everything written so far. */
  lemma BlocksAppend(s: Sums, file: Buf, bbt: seq<BbtEntry>, blocks: Store, nextBid: nat, ib: nat, bid: nat, data: Buf)
    requires BlocksOk(s, file, bbt, blocks, nextBid) && |file| <= ib && Space.FIRST_DATA <= ib
    requires |data| <= MAX_DATA && Space.Clear(ib, BlockTotal(|data|))
    requires 0 < 4 * nextBid <= bid < 4 * (nextBid + 1)
    ensures bid !in blocks
    ensures BlocksOk(s, Splice(file, ib, BlockImage(s, ib, bid, data)), bbt + [BbtEntry(bid, ib, |data|)],
                     blocks[bid := data], nextBid + 1)
  {
    hide EntriesOk, Listed;
    BidUnused(s, file, bbt, blocks, nextBid, bid);
    SpliceKeeps(file, ib, BlockImage(s, ib, bid, data));
    var e := BbtEntry(bid, ib, |data|);
    EntriesAppend(s, file, Splice(file, ib, BlockImage(s, ib, bid, data)), bbt, blocks, nextBid, e, data);
    ListedAppend(bbt, blocks, e, data);
  }

  // ------------------------------------------------------------ leaf entries

  /** BBTENTRY: the reference, the byte count and a reference count of 2. */
  function BbtBytes(e: BbtEntry): (b: Buf)
    ensures |b| == 24
  {
    Put64(e.bid) + Put64(e.ib) + Put16(e.cb) + Put16(2) + Put32(0)
  }

  function NbtBytes(e: NbtEntry): (b: Buf)
    ensures |b| == 32
  {
    Put64(e.nid) + Put64(e.data) + Put64(e.sub) + Put32(e.parent) + Put32(0)
  }

  lemma BbtReads(e: BbtEntry)
    requires e.bid < U64 && e.ib < U64 && e.cb < 0x1_0000
    ensures var b := BbtBytes(e); Peek64At(b, 0) == e.bid && Peek64At(b, 8) == e.ib && Peek16At(b, 16) == e.cb
  {
    PeekPut64(e.bid); PeekPut64(e.ib); PeekPut16(e.cb);
    var b := BbtBytes(e);
    assert b[0..8] == Put64(e.bid) && b[8..16] == Put64(e.ib) && b[16..18] == Put16(e.cb);
  }

  predicate NodeFits(e: NbtEntry) { e.nid < U32 && e.data < U64 && e.sub < U64 && e.parent < U32 }

  lemma NbtReads(e: NbtEntry)
    requires NodeFits(e)
    ensures var b := NbtBytes(e);
            Peek64At(b, 0) == e.nid && Peek64At(b, 8) == e.data && Peek64At(b, 16) == e.sub && Peek32At(b, 24) == e.parent
  {
    PeekPut64(e.nid); PeekPut64(e.data); PeekPut64(e.sub); PeekPut32(e.parent);
    var b := NbtBytes(e);
    assert b[0..8] == Put64(e.nid) && b[8..16] == Put64(e.data);
    assert b[16..24] == Put64(e.sub) && b[24..28] == Put32(e.parent);
  }

  // ------------------------------------------------------------- the reader

  const ROOT: nat := 180

  function Nbt(s: Sums, file: Buf): Option<Tree> {
    ParseRoot(s, file, PTYPE_NBT, Peek64At(file, ROOT + 36), Peek64At(file, ROOT + 44))
  }

  function Bbt(s: Sums, file: Buf): Option<Tree> {
    ParseRoot(s, file, PTYPE_BBT, Peek64At(file, ROOT + 52), Peek64At(file, ROOT + 60))
  }

  /** The data of the block a BBT leaf entry describes, if its trailer agrees. */
  function BlockAt(s: Sums, file: Buf, bid: nat, e: Buf): Option<Buf> {
    var ib, cb := Peek64At(e, 8), Peek16At(e, 16);
    var data := Sub(file, ib, cb);
    if Sub(file, ib, BlockTotal(cb)) == BlockImage(s, ib, bid, data) then Some(data) else None
  }

  /** The data of a block, found through the BBT and checked against its trailer. */
  function ReadBlock(s: Sums, file: Buf, bid: nat): Option<Buf> {
    match Bbt(s, file)
    case None => None
    case Some(t) =>
      match Search(t, bid)
      case None => None
      case Some(e) => BlockAt(s, file, bid, e)
  }

  function ReadNode(s: Sums, file: Buf, nid: nat): Option<NbtEntry> {
    match Nbt(s, file)
    case None => None
    case Some(t) =>
      match Search(t, nid)
      case None => None
      case Some(e) => Some(NbtEntry(nid, Peek64At(e, 8), Peek64At(e, 16), Peek32At(e, 24)))
  }

  /** Every block the file's BBT leads to. */
  ghost function StoreOf(s: Sums, file: Buf): Store {
    match Bbt(s, file)
    case None => map[]
    case Some(t) =>
      var keys := set r | r in Flatten(t) :: r.key;
      map k | k in keys && ReadBlock(s, file, k).Some? :: ReadBlock(s, file, k).value
  }

  /** The data stream of a node, from the header down. */
  ghost function ReadNodeData(s: Sums, file: Buf, nid: nat): Option<Buf> {
    match ReadNode(s, file, nid)
    case None => None
    case Some(n) => ReadTree(StoreOf(s, file), n.data)
  }

  // -------------------------------------------------------- reader theorems

  function BbtEntries(bbt: seq<BbtEntry>): (es: seq<Buf>)
    ensures |es| == |bbt|
  {
    seq(|bbt|, i requires 0 <= i < |bbt| => BbtBytes(bbt[i]))
  }

  function NbtEntries(nbt: seq<NbtEntry>): (es: seq<Buf>)
    ensures |es| == |nbt|
  {
    seq(|nbt|, i requires 0 <= i < |nbt| => NbtBytes(nbt[i]))
  }

  /** The records of the BBT leaves are the block list, in strictly ascending order. */
  predicate RecordsAre(bbt: seq<BbtEntry>) {
    && Sorted(LeafRecs(BbtEntries(bbt)))
    && forall i :: 0 <= i < |bbt| ==> LeafRecs(BbtEntries(bbt))[i] == Rec(bbt[i].bid, BbtBytes(bbt[i]))
  }

  lemma BbtRecords(s: Sums, file: Buf, bbt: seq<BbtEntry>, blocks: Store, nextBid: nat)
    requires BlocksOk(s, file, bbt, blocks, nextBid) && 4 * nextBid <= U64 && |file| <= U64
    ensures RecordsAre(bbt)
  {
    forall i | 0 <= i < |bbt| ensures Peek64At(BbtBytes(bbt[i]), 0) == bbt[i].bid {
      assert BlockOk(s, file, bbt[i], blocks);
      BbtReads(bbt[i]);
    }
    hide BlockOk, BbtBytes, Listed;
  }

  lemma BlockAtCorrect(s: Sums, file: Buf, e: BbtEntry, blocks: Store)
    requires BlockOk(s, file, e, blocks) && e.bid < U64 && |file| <= U64
    ensures BlockAt(s, file, e.bid, BbtBytes(e)) == Some(blocks[e.bid])
  {
    BbtReads(e);
    BlockTotalBounds(e.cb);
    var image := file[e.ib..e.ib + BlockTotal(e.cb)];
    assert file[e.ib..e.ib + e.cb] == image[..e.cb];
  }

  lemma FindListed(bbt: seq<BbtEntry>, blocks: Store, bid: nat) returns (i: nat)
    requires RecordsAre(bbt) && Listed(bbt, blocks) && bid in blocks
    ensures i < |bbt| && bbt[i].bid == bid && Find(LeafRecs(BbtEntries(bbt)), bid) == Some(BbtBytes(bbt[i]))
  {
    i :| 0 <= i < |bbt| && bbt[i].bid == bid;
    FindAt(LeafRecs(BbtEntries(bbt)), i);
  }

  lemma FindUnlisted(s: Sums, file: Buf, bbt: seq<BbtEntry>, blocks: Store, nextBid: nat, bid: nat)
    requires BlocksOk(s, file, bbt, blocks, nextBid) && RecordsAre(bbt) && bid !in blocks
    ensures Find(LeafRecs(BbtEntries(bbt)), bid) == None
  {
    forall i | 0 <= i < |bbt| ensures bbt[i].bid != bid {
      assert BlockOk(s, file, bbt[i], blocks);
    }
    FindMissing(LeafRecs(BbtEntries(bbt)), bid);
  }

  /** Looking a block id up in the file gives exactly what was stored under it. */
  lemma ReadBlockCorrect(s: Sums, file: Buf, bbt: seq<BbtEntry>, blocks: Store, nextBid: nat, t: Tree, bid: nat)
    requires BlocksOk(s, file, bbt, blocks, nextBid) && 4 * nextBid <= U64 && |file| <= U64
    requires Bbt(s, file) == Some(t) && Ordered(t) && Flatten(t) == LeafRecs(BbtEntries(bbt))
    ensures ReadBlock(s, file, bid) == if bid in blocks then Some(blocks[bid]) else None
  {
    hide Listed, BlockOk, BlockAt, LeafRecs, BbtEntries, Bbt, Sorted;
    BbtRecords(s, file, bbt, blocks, nextBid);
    SearchIsFind(t, bid);
    if bid in blocks {
      var i := FindListed(bbt, blocks, bid);
      BlockAtCorrect(s, file, bbt[i], blocks);
    } else {
      FindUnlisted(s, file, bbt, blocks, nextBid, bid);
    }
  }

  lemma KeysAreBlocks(s: Sums, file: Buf, bbt: seq<BbtEntry>, blocks: Store, nextBid: nat)
    requires BlocksOk(s, file, bbt, blocks, nextBid) && RecordsAre(bbt)
    ensures (set r | r in LeafRecs(BbtEntries(bbt)) :: r.key) == blocks.Keys
  {
    var rs := LeafRecs(BbtEntries(bbt));
    forall k | k in blocks ensures exists r :: r in rs && r.key == k {
      KeyListed(bbt, blocks, k);
    }
    forall r | r in rs ensures r.key in blocks {
      RecordIsBlock(s, file, bbt, blocks, nextBid, r);
    }
  }

  lemma KeyListed(bbt: seq<BbtEntry>, blocks: Store, k: nat)
    requires RecordsAre(bbt) && Listed(bbt, blocks) && k in blocks
    ensures exists r :: r in LeafRecs(BbtEntries(bbt)) && r.key == k
  {
    var i := FindListed(bbt, blocks, k);
    assert LeafRecs(BbtEntries(bbt))[i] in LeafRecs(BbtEntries(bbt));
  }

  lemma RecordIsBlock(s: Sums, file: Buf, bbt: seq<BbtEntry>, blocks: Store, nextBid: nat, r: Rec)
    requires EntriesOk(s, file, bbt, blocks, nextBid) && RecordsAre(bbt) && r in LeafRecs(BbtEntries(bbt))
    ensures r.key in blocks
  {
    var i :| 0 <= i < |bbt| && LeafRecs(BbtEntries(bbt))[i] == r;
    assert BlockOk(s, file, bbt[i], blocks);
  }

  lemma StoreOfCorrect(s: Sums, file: Buf, bbt: seq<BbtEntry>, blocks: Store, nextBid: nat, t: Tree)
    requires BlocksOk(s, file, bbt, blocks, nextBid) && 4 * nextBid <= U64 && |file| <= U64
    requires Bbt(s, file) == Some(t) && Ordered(t) && Flatten(t) == LeafRecs(BbtEntries(bbt))
    ensures StoreOf(s, file) == blocks
  {
    hide EntriesOk, Listed, Ordered, RecordsAre, LeafRecs, BbtEntries, Bbt, BlockAt;
    BbtRecords(s, file, bbt, blocks, nextBid);
    KeysAreBlocks(s, file, bbt, blocks, nextBid);
    forall k ensures ReadBlock(s, file, k) == if k in blocks then Some(blocks[k]) else None {
      ReadBlockCorrect(s, file, bbt, blocks, nextBid, t, k);
    }
    hide ReadBlock;
  }

  function NodeKey(): NbtEntry -> nat { (e: NbtEntry) => e.nid }

  /** The simple form of a node lookup. */
  function FindNode(nbt: seq<NbtEntry>, nid: nat): Option<NbtEntry> {
    if nbt == [] then None
    else if nbt[0].nid == nid then Some(nbt[0])
    else FindNode(nbt[1..], nid)
  }

  lemma {:induction false} FindNodeMember(nbt: seq<NbtEntry>, nid: nat)
    ensures FindNode(nbt, nid).Some? ==> FindNode(nbt, nid).value in nbt && FindNode(nbt, nid).value.nid == nid
    ensures FindNode(nbt, nid).None? ==> forall i :: 0 <= i < |nbt| ==> nbt[i].nid != nid
  {
    if nbt != [] && nbt[0].nid != nid {
      FindNodeMember(nbt[1..], nid);
      if FindNode(nbt, nid).None? {
        forall i | 0 <= i < |nbt| ensures nbt[i].nid != nid {
          if i > 0 { assert nbt[1..][i - 1] == nbt[i]; }
        }
      }
    }
  }

  lemma NbtRecords(nbt: seq<NbtEntry>)
    requires DistinctKeys(nbt, NodeKey()) && forall i :: 0 <= i < |nbt| ==> NodeFits(nbt[i])
    ensures var sorted := SortBy(nbt, NodeKey());
            var rs := LeafRecs(NbtEntries(sorted));
            && Sorted(rs)
            && forall i :: 0 <= i < |sorted| ==> NodeFits(sorted[i]) && rs[i] == Rec(sorted[i].nid, NbtBytes(sorted[i]))
  {
    var sorted := SortBy(nbt, NodeKey());
    var rs := LeafRecs(NbtEntries(sorted));
    SortByStrict(nbt, NodeKey());
    forall i | 0 <= i < |sorted| ensures NodeFits(sorted[i]) && rs[i] == Rec(sorted[i].nid, NbtBytes(sorted[i])) {
      SameMember(sorted, nbt, sorted[i]);
      NbtReads(sorted[i]);
    }
    forall i, j | 0 <= i < j < |rs| ensures rs[i].key < rs[j].key {
      assert NodeKey()(sorted[i]) < NodeKey()(sorted[j]);
    }
  }

  /** Looking a node id up in the file gives exactly the node that was registered. */
  lemma ReadNodeCorrect(s: Sums, file: Buf, nbt: seq<NbtEntry>, t: Tree, nid: nat)
    requires DistinctKeys(nbt, NodeKey()) && forall i :: 0 <= i < |nbt| ==> NodeFits(nbt[i])
    requires Nbt(s, file) == Some(t) && Ordered(t) && Flatten(t) == LeafRecs(NbtEntries(SortBy(nbt, NodeKey())))
    ensures ReadNode(s, file, nid) == FindNode(nbt, nid)
  {
    hide Nbt, SortBy, NbtEntries, LeafRecs, NodeFits, DistinctKeys, Ordered, Find, Search, FindNode, Flatten, Peek64At, Peek32At, NbtBytes;
    NbtRecords(nbt);
    SearchIsFind(t, nid);
    NodeRecord(nbt, nid);
    FindNodeMember(nbt, nid);
    if FindNode(nbt, nid).Some? { NbtReads(FindNode(nbt, nid).value); }
  }

  /** The record of a node among the sorted ones. */
  lemma NodeRecord(nbt: seq<NbtEntry>, nid: nat)
    requires DistinctKeys(nbt, NodeKey()) && forall i :: 0 <= i < |nbt| ==> NodeFits(nbt[i])
    ensures Find(LeafRecs(NbtEntries(SortBy(nbt, NodeKey()))), nid)
            == if FindNode(nbt, nid).Some? then Some(NbtBytes(FindNode(nbt, nid).value)) else None
  {
    hide SortBy, NbtEntries, LeafRecs, NodeFits, DistinctKeys, Find, FindNode, NbtBytes;
    var sorted := SortBy(nbt, NodeKey());
    var rs := LeafRecs(NbtEntries(sorted));
    NbtRecords(nbt);
    FindNodeMember(nbt, nid);
    if FindNode(nbt, nid).Some? {
      var e := FindNode(nbt, nid).value;
      SameMember(nbt, sorted, e);
      var i :| 0 <= i < |sorted| && sorted[i] == e;
      FindAt(rs, i);
    } else {
      forall i | 0 <= i < |rs| ensures rs[i].key != nid {
        SameMember(sorted, nbt, sorted[i]);
      }
      FindMissing(rs, nid);
    }
  }
}
