/** Whole runs of the NDB writer: what is handed in comes back out of the file. */
module NdbArchive {
  import opened Bytes
  import opened Wrappers
  import opened PageTree
  import opened DataTree
  import opened SubnodeTree
  import opened NdbFile
  import opened Sorting
  import opened Ndb
  import opened Ownership
  import opened SearchTree
  import Space

  /** A subnode with its own data stream, and a node with its data and its subnodes. */
  datatype SubSpec = SubSpec(nid: nat, data: Buf)
  datatype NodeSpec = NodeSpec(nid: nat, parent: nat, data: Buf, subs: seq<SubSpec>)

  function SpecKey(): NodeSpec -> nat { (n: NodeSpec) => n.nid }
  function SubKey(): SubSpec -> nat { (n: SubSpec) => n.nid }

  /** What the format asks of a caller: ids of 32 bits, no id used twice. */
  predicate WellFormed(specs: seq<NodeSpec>) {
    && DistinctKeys(specs, SpecKey())
    && forall i :: 0 <= i < |specs| ==>
         specs[i].nid < U32 && specs[i].parent < U32 && DistinctKeys(specs[i].subs, SubKey())
         && forall j :: 0 <= j < |specs[i].subs| ==> specs[i].subs[j].nid < U32
  }

  /** The data stream of subnode `sub` of node `nid`, from the header of the file down. */
  ghost function ReadSubnodeData(s: Sums, file: Buf, nid: nat, sub: nat): Option<Buf> {
    match ReadNode(s, file, nid)
    case None => None
    case Some(n) =>
      match FindSub(StoreOf(s, file), n.sub, sub)
      case None => None
      case Some(e) => ReadTree(StoreOf(s, file), e.data)
  }

  // --------------------------------------------- what the block store holds

  ghost predicate SubsStored(blocks: Store, entries: seq<SubEntry>, subs: seq<SubSpec>) {
    && |entries| == |subs|
    && forall j :: 0 <= j < |subs| ==>
         && entries[j].nid == subs[j].nid && entries[j].sub == 0 && entries[j].data in blocks
         && ReadTree(blocks, entries[j].data) == Some(subs[j].data)
  }

  /** Entry `e` leads to the data and the subnodes of `n`. */
  ghost predicate NodeStored(blocks: Store, e: NbtEntry, n: NodeSpec) {
    && e.nid == n.nid && e.parent == n.parent
    && ReadTree(blocks, e.data) == Some(n.data)
    && exists entries :: SubsStored(blocks, entries, n.subs) && SubnodesRead(blocks, e.sub, entries)
  }

  lemma SubsStoredGrow(a: Store, b: Store, entries: seq<SubEntry>, subs: seq<SubSpec>)
    requires Extends(a, b) && SubsStored(a, entries, subs)
    ensures SubsStored(b, entries, subs)
  {
    hide ReadTree;
    forall j | 0 <= j < |subs| ensures ReadTree(b, entries[j].data) == Some(subs[j].data) {
      ReadTreeGrow(a, b, entries[j].data);
    }
  }

  lemma NodeStoredGrow(a: Store, b: Store, e: NbtEntry, n: NodeSpec)
    requires Extends(a, b) && NodeStored(a, e, n)
    ensures NodeStored(b, e, n)
  {
    hide ReadTree, SubnodesRead, SubsStored;
    ReadTreeGrow(a, b, e.data);
    var entries :| SubsStored(a, entries, n.subs) && SubnodesRead(a, e.sub, entries);
    SubsStoredGrow(a, b, entries, n.subs);
    SubnodesGrow(a, b, e.sub, entries);
  }

  lemma BidFits(s: Sums, file: Buf, bbt: seq<BbtEntry>, blocks: Store, nextBid: nat, bid: nat)
    requires BlocksOk(s, file, bbt, blocks, nextBid) && 4 * nextBid <= U64 && bid in blocks
    ensures 0 < bid < U64
  {
    hide BlocksOk;
    BidsFit(s, file, bbt, blocks, nextBid, [bid]);
    assert [bid][0] == bid;
  }

  lemma EntriesFit(s: Sums, file: Buf, bbt: seq<BbtEntry>, blocks: Store, nextBid: nat, entries: seq<SubEntry>, subs: seq<SubSpec>)
    requires BlocksOk(s, file, bbt, blocks, nextBid) && 4 * nextBid <= U64 && SubsStored(blocks, entries, subs)
    requires DistinctKeys(subs, SubKey()) && forall j :: 0 <= j < |subs| ==> subs[j].nid < U32
    ensures AllFit(entries) && DistinctKeys(entries, NidKey())
  {
    hide BlocksOk, ReadTree;
    forall j | 0 <= j < |entries| ensures Fits(entries[j]) {
      BidFits(s, file, bbt, blocks, nextBid, entries[j].data);
    }
    forall i, j | 0 <= i < j < |entries| ensures NidKey()(entries[i]) != NidKey()(entries[j]) {
      assert SubKey()(subs[i]) != SubKey()(subs[j]);
    }
  }

  // ------------------------------------------------------------- the run

  method StoreSubs(w: NdbWriter, subs: seq<SubSpec>) returns (r: Result<seq<SubEntry>>)
    requires w.Valid()
    modifies w
    ensures w.Valid() && w.Grown() && w.nbt == old(w.nbt)
    ensures r.Ok? && w.Fits64() ==> SubsStored(w.blocks, r.value, subs)
    ensures r.Ok? && w.Fits64() ==> Law(old(w.blocks), old(BidsOf(w.bbt)), w.blocks, BidsOf(w.bbt), multiset{}, EntriesRefs(r.value))
    ensures r.Ok? ==> |r.value| == |subs|
    ensures r.Err? ==> exists j :: 0 <= j < |subs| && |subs[j].data| >= U32
  {
    hide w.Valid, SubsStored, ReadTree, Law, EntriesRefs, BidsOf;
    var entries: seq<SubEntry> := [];
    NoneStored(w.blocks);
    w.OrderPresent();
    NothingDone(w.blocks, BidsOf(w.bbt));
    NoEntryRefs();
    for j := 0 to |subs|
      invariant w.Valid() && w.Grown() && w.nbt == old(w.nbt)
      invariant w.Fits64() ==> SubsStored(w.blocks, entries, subs[..j])
      invariant w.Fits64() ==> Law(old(w.blocks), old(BidsOf(w.bbt)), w.blocks, BidsOf(w.bbt), multiset{}, EntriesRefs(entries))
      invariant |entries| == j
    {
      ghost var was, order := w.blocks, BidsOf(w.bbt);
      var data := w.WriteData(subs[j].data);
      if data.Err? {
        return Err(data.reason);
      }
      if w.Fits64() {
        SubsStoredGrow(was, w.blocks, entries, subs[..j]);
        OneMoreSub(w.blocks, entries, subs, j, data.value);
        LawEntry(old(w.blocks), old(BidsOf(w.bbt)), was, order, w.blocks, BidsOf(w.bbt), entries, subs[j].nid, data.value);
      }
      entries := entries + [SubEntry(subs[j].nid, data.value, 0)];
    }
    assert subs[..|subs|] == subs;
    return Ok(entries);
  }

  method StoreNode(w: NdbWriter, n: NodeSpec) returns (r: Result<()>)
    requires w.Valid()
    modifies w
    ensures w.Valid() && w.Grown()
    ensures r.Ok? ==> |w.nbt| == |old(w.nbt)| + 1 && w.nbt[..|old(w.nbt)|] == old(w.nbt)
    ensures r.Ok? && w.Fits64() && WellFormed([n])
            ==> var e := w.nbt[|old(w.nbt)|];
                (NodeStored(w.blocks, e, n) && NodeFits(e)
                 && Law(old(w.blocks), old(BidsOf(w.bbt)), w.blocks, BidsOf(w.bbt), multiset{}, NodeRefs(e.data, e.sub)))
    ensures r.Err? ==> TooLarge(n)
  {
    hide SubsStored, ReadTree, SubnodesRead, Space.SpaceOk, BlocksOk, BlockExtents, NodeStored, Law, EntriesRefs, BidsOf;
    var entries := StoreSubs(w, n.subs);
    if entries.Err? {
      return Err(entries.reason);
    }
    ghost var afterSubs, subsOrder := w.blocks, BidsOf(w.bbt);
    ghost var fit := w.Fits64() && WellFormed([n]);
    if fit {
      assert [n][0] == n;
      EntriesFit(w.sums, w.file, w.bbt, w.blocks, w.nextBid, entries.value, n.subs);
    }
    var data := w.WriteData(n.data);
    if data.Err? {
      return Err(data.reason);
    }
    ghost var afterData, dataOrder := w.blocks, BidsOf(w.bbt);
    var sub := w.WriteSubnodes(entries.value);
    if sub.Err? {
      return Err(sub.reason);
    }
    w.AddNode(n.nid, data.value, sub.value, n.parent);
    if w.Fits64() && WellFormed([n]) {
      assert fit;
      NodeIsStored(afterSubs, afterData, w.blocks, NbtEntry(n.nid, data.value, sub.value, n.parent), n, entries.value);
      BidFits(w.sums, w.file, w.bbt, w.blocks, w.nextBid, data.value);
      if sub.value != 0 { BidFits(w.sums, w.file, w.bbt, w.blocks, w.nextBid, sub.value); }
      assert [n][0] == n;
      LawBeside(old(w.blocks), old(BidsOf(w.bbt)), afterSubs, subsOrder, afterData, dataOrder, EntriesRefs(entries.value),
                multiset{data.value});
      LawSubtree(old(w.blocks), old(BidsOf(w.bbt)), afterData, dataOrder, w.blocks, BidsOf(w.bbt), EntriesRefs(entries.value),
                 multiset{data.value}, Ref(sub.value));
    }
    return Ok(());
  }

  /** A stream of 4 GiB, or more subnodes than two levels reach. */
  predicate TooLarge(n: NodeSpec) {
    |n.data| >= U32 || |n.subs| > SL_FANOUT * SI_FANOUT || exists j :: 0 <= j < |n.subs| && |n.subs[j].data| >= U32
  }

  lemma NoEntryRefs()
    ensures EntriesRefs([]) == multiset{}
  {
  }

  lemma NoneStored(blocks: Store)
    ensures SubsStored(blocks, [], [])
  {
  }

  lemma OneMoreSub(blocks: Store, entries: seq<SubEntry>, subs: seq<SubSpec>, j: nat, data: nat)
    requires j < |subs| && SubsStored(blocks, entries, subs[..j]) && data in blocks
    requires ReadTree(blocks, data) == Some(subs[j].data)
    ensures SubsStored(blocks, entries + [SubEntry(subs[j].nid, data, 0)], subs[..j + 1])
  {
    hide ReadTree;
  }

  lemma NodeIsStored(a: Store, b: Store, c: Store, e: NbtEntry, n: NodeSpec, entries: seq<SubEntry>)
    requires Extends(a, b) && Extends(b, c) && SubsStored(a, entries, n.subs)
    requires ReadTree(b, e.data) == Some(n.data) && SubnodesRead(c, e.sub, entries)
    requires e.nid == n.nid && e.parent == n.parent
    ensures NodeStored(c, e, n)
  {
    hide ReadTree, SubsStored, SubnodesRead;
    SubsStoredGrow(a, c, entries, n.subs);
    ReadTreeGrow(b, c, e.data);
  }

  ghost predicate AllStored(blocks: Store, nbt: seq<NbtEntry>, specs: seq<NodeSpec>) {
    |nbt| == |specs| && forall i :: 0 <= i < |specs| ==> NodeStored(blocks, nbt[i], specs[i]) && NodeFits(nbt[i])
  }

  lemma AllStoredGrow(a: Store, b: Store, nbt: seq<NbtEntry>, specs: seq<NodeSpec>)
    requires Extends(a, b) && AllStored(a, nbt, specs)
    ensures AllStored(b, nbt, specs)
  {
    hide NodeStored;
    forall i | 0 <= i < |specs| ensures NodeStored(b, nbt[i], specs[i]) {
      NodeStoredGrow(a, b, nbt[i], specs[i]);
    }
  }

  lemma OneMoreNode(blocks: Store, nbt: seq<NbtEntry>, specs: seq<NodeSpec>, i: nat, e: NbtEntry)
    requires i < |specs| && AllStored(blocks, nbt, specs[..i]) && NodeStored(blocks, e, specs[i]) && NodeFits(e)
    ensures AllStored(blocks, nbt + [e], specs[..i + 1])
  {
    hide NodeStored;
  }

  lemma SpecsSingle(specs: seq<NodeSpec>, i: nat)
    requires WellFormed(specs) && i < |specs|
    ensures WellFormed([specs[i]])
  {
    assert [specs[i]][0] == specs[i];
  }

  /** The nodes of a file are exactly the ones handed in, with the parents, the data and
      the subnode data handed in. */
  ghost predicate Retrieves(s: Sums, file: Buf, specs: seq<NodeSpec>) {
    && (forall i :: 0 <= i < |specs| ==>
          && ReadNode(s, file, specs[i].nid).Some? && ReadNode(s, file, specs[i].nid).value.parent == specs[i].parent
          && ReadNodeData(s, file, specs[i].nid) == Some(specs[i].data)
          && SubsRetrieved(s, file, specs[i]))
    && (forall nid: nat :: (forall i :: 0 <= i < |specs| ==> specs[i].nid != nid) ==> ReadNode(s, file, nid) == None)
  }

  ghost predicate SubsRetrieved(s: Sums, file: Buf, n: NodeSpec) {
    && (forall j :: 0 <= j < |n.subs| ==> ReadSubnodeData(s, file, n.nid, n.subs[j].nid) == Some(n.subs[j].data))
    && (forall sub: nat :: (forall j :: 0 <= j < |n.subs| ==> n.subs[j].nid != sub)
                           ==> ReadSubnodeData(s, file, n.nid, sub) == None)
  }

  lemma NodeRetrieved(s: Sums, file: Buf, e: NbtEntry, n: NodeSpec)
    requires ReadNode(s, file, n.nid) == Some(e) && NodeStored(StoreOf(s, file), e, n)
    requires DistinctKeys(n.subs, SubKey())
    ensures ReadNodeData(s, file, n.nid) == Some(n.data) && SubsRetrieved(s, file, n)
  {
    hide ReadNode, StoreOf, ReadTree, FindSub, ParseSub;
    var blocks := StoreOf(s, file);
    var entries :| SubsStored(blocks, entries, n.subs) && SubnodesRead(blocks, e.sub, entries);
    forall j | 0 <= j < |n.subs| ensures ReadSubnodeData(s, file, n.nid, n.subs[j].nid) == Some(n.subs[j].data) {
      EntryOfSub(blocks, entries, n.subs, j);
    }
    forall sub: nat | forall j :: 0 <= j < |n.subs| ==> n.subs[j].nid != sub
      ensures ReadSubnodeData(s, file, n.nid, sub) == None
    {
      NoEntryOfSub(blocks, entries, n.subs, sub);
    }
  }

  lemma {:induction false} EntryOfSub(blocks: Store, entries: seq<SubEntry>, subs: seq<SubSpec>, j: nat)
    requires SubsStored(blocks, entries, subs) && DistinctKeys(subs, SubKey()) && j < |subs|
    ensures FindEntry(entries, subs[j].nid) == Some(entries[j])
  {
    hide ReadTree;
    if j > 0 {
      assert SubKey()(subs[0]) != SubKey()(subs[j]);
      assert DistinctKeys(subs[1..], SubKey()) by {
        forall a, b | 0 <= a < b < |subs[1..]| ensures SubKey()(subs[1..][a]) != SubKey()(subs[1..][b]) {
          assert SubKey()(subs[a + 1]) != SubKey()(subs[b + 1]);
        }
      }
      EntryOfSub(blocks, entries[1..], subs[1..], j - 1);
    }
  }

  lemma NoEntryOfSub(blocks: Store, entries: seq<SubEntry>, subs: seq<SubSpec>, sub: nat)
    requires SubsStored(blocks, entries, subs) && forall j :: 0 <= j < |subs| ==> subs[j].nid != sub
    ensures FindEntry(entries, sub) == None
  {
    hide ReadTree;
    FindEntryMember(entries, sub);
  }

  lemma {:induction false} NodeOfSpec(blocks: Store, nbt: seq<NbtEntry>, specs: seq<NodeSpec>, i: nat)
    requires AllStored(blocks, nbt, specs) && DistinctKeys(specs, SpecKey()) && i < |specs|
    ensures FindNode(nbt, specs[i].nid) == Some(nbt[i])
  {
    if i > 0 {
      assert SpecKey()(specs[0]) != SpecKey()(specs[i]);
      assert DistinctKeys(specs[1..], SpecKey()) by {
        forall a, b | 0 <= a < b < |specs[1..]| ensures SpecKey()(specs[1..][a]) != SpecKey()(specs[1..][b]) {
          assert SpecKey()(specs[a + 1]) != SpecKey()(specs[b + 1]);
        }
      }
      NodeOfSpec(blocks, nbt[1..], specs[1..], i - 1);
    }
  }

  lemma NodesDistinct(blocks: Store, nbt: seq<NbtEntry>, specs: seq<NodeSpec>)
    requires AllStored(blocks, nbt, specs) && DistinctKeys(specs, SpecKey())
    ensures DistinctKeys(nbt, NodeKey()) && AllNodesFit(nbt)
  {
    forall i, j | 0 <= i < j < |nbt| ensures NodeKey()(nbt[i]) != NodeKey()(nbt[j]) {
      assert SpecKey()(specs[i]) != SpecKey()(specs[j]);
    }
  }

  lemma AllRetrieved(s: Sums, file: Buf, nbt: seq<NbtEntry>, specs: seq<NodeSpec>)
    requires WellFormed(specs) && AllStored(StoreOf(s, file), nbt, specs)
    requires forall nid: nat :: ReadNode(s, file, nid) == FindNode(nbt, nid)
    ensures Retrieves(s, file, specs)
  {
    hide ReadNode, StoreOf, ReadNodeData, SubsRetrieved, DistinctKeys, FindNode, NodeStored;
    forall i | 0 <= i < |specs|
      ensures ReadNode(s, file, specs[i].nid) == Some(nbt[i]) && nbt[i].parent == specs[i].parent
              && ReadNodeData(s, file, specs[i].nid) == Some(specs[i].data) && SubsRetrieved(s, file, specs[i])
    {
      NodeOfSpec(StoreOf(s, file), nbt, specs, i);
      StoredParent(StoreOf(s, file), nbt[i], specs[i]);
      NodeRetrieved(s, file, nbt[i], specs[i]);
    }
    forall nid: nat | forall i :: 0 <= i < |specs| ==> specs[i].nid != nid
      ensures ReadNode(s, file, nid) == None
    {
      NoNodeOfSpec(StoreOf(s, file), nbt, specs, nid);
    }
  }

  lemma StoredParent(blocks: Store, e: NbtEntry, n: NodeSpec)
    requires NodeStored(blocks, e, n)
    ensures e.parent == n.parent && e.nid == n.nid
  {
  }

  lemma NoNodeOfSpec(blocks: Store, nbt: seq<NbtEntry>, specs: seq<NodeSpec>, nid: nat)
    requires AllStored(blocks, nbt, specs) && forall i :: 0 <= i < |specs| ==> specs[i].nid != nid
    ensures FindNode(nbt, nid) == None
  {
    FindNodeMember(nbt, nid);
  }

  function Roots(nbt: seq<NbtEntry>): (ns: seq<(nat, nat)>)
    ensures |ns| == |nbt| && forall i :: 0 <= i < |nbt| ==> ns[i] == (nbt[i].data, nbt[i].sub)
  {
    seq(|nbt|, i requires 0 <= i < |nbt| => (nbt[i].data, nbt[i].sub))
  }

  lemma RootsSnoc(nbt: seq<NbtEntry>, e: NbtEntry)
    ensures NodesRefs(Roots(nbt + [e])) == NodesRefs(Roots(nbt)) + NodeRefs(e.data, e.sub)
  {
    NodesRefsSnoc(Roots(nbt), (e.data, e.sub));
    assert Roots(nbt + [e]) == Roots(nbt) + [(e.data, e.sub)];
  }

  /** The blocks of a writer, in the order of their ids. */
  lemma OrderOf(w: NdbWriter)
    requires w.Valid()
    ensures (forall b :: b in w.blocks ==> b in BidsOf(w.bbt))
    ensures forall i, j :: 0 <= i < j < |w.bbt| ==> BidsOf(w.bbt)[i] < BidsOf(w.bbt)[j]
  {
    hide Space.SpaceOk, BlockOk, BlockExtents;
    forall b | b in w.blocks ensures b in BidsOf(w.bbt) {
      var i :| 0 <= i < |w.bbt| && w.bbt[i].bid == b;
      assert BidsOf(w.bbt)[i] == b;
    }
  }

  /** The state of a run: what is stored, and who owns it. */
  ghost predicate Running(blocks: Store, order: seq<nat>, nbt: seq<NbtEntry>, specs: seq<NodeSpec>) {
    AllStored(blocks, nbt, specs) && Law(map[], [], blocks, order, multiset{}, NodesRefs(Roots(nbt)))
  }

  lemma RunningNext(a: Store, o: seq<nat>, b: Store, p: seq<nat>, nbt: seq<NbtEntry>, specs: seq<NodeSpec>, i: nat, e: NbtEntry)
    requires i < |specs| && Extends(a, b) && Running(a, o, nbt, specs[..i]) && NodeStored(b, e, specs[i]) && NodeFits(e)
    requires Law(a, o, b, p, multiset{}, NodeRefs(e.data, e.sub))
    ensures Running(b, p, nbt + [e], specs[..i + 1])
  {
    hide AllStored, Law, NodeStored, NodesRefs, NodeRefs;
    AllStoredGrow(a, b, nbt, specs[..i]);
    OneMoreNode(b, nbt, specs, i, e);
    LawBeside(map[], [], a, o, b, p, NodesRefs(Roots(nbt)), NodeRefs(e.data, e.sub));
    RootsSnoc(nbt, e);
  }

  /** A whole run: any list of nodes with their subnodes, written and finished. Reading
      the file from its header gives back every node, its parent, its data and the data
      of each of its subnodes, and nothing else. The blocks of the file are a forest under
      its nodes: each has one owner, older blocks below younger ones. Fails only for data
      that is too large or too much. */
  method Archive(s: Sums, specs: seq<NodeSpec>) returns (r: Result<Buf>, ghost order: seq<nat>, ghost nodes: seq<NbtEntry>)
    ensures r.Ok? && |r.value| < U64 && WellFormed(specs) ==> Retrieves(s, r.value, specs)
    ensures r.Ok? && |r.value| < U64 && WellFormed(specs) ==>
              (&& Forest(StoreOf(s, r.value), order, Roots(nodes)) && |nodes| == |specs|
               && forall i :: 0 <= i < |specs| ==> ReadNode(s, r.value, specs[i].nid) == Some(nodes[i]))
    ensures r.Err? ==> (exists i :: 0 <= i < |specs| && TooLarge(specs[i]))
                       || CeilDiv(|specs|, 15) > Pow20(7) || CeilDiv(|order|, 20) > Pow20(7)
  {
    hide WellFormed, Running, Retrieves, Space.SpaceOk, BlocksOk, StoreOf, ReadNode, FindNode, NodeStored, MapsOnFile, PMapsOnFile,
         BlockExtents, Space.FreeTotal, DistinctKeys, AllNodesFit, TooLarge, CeilDiv, Pow20, BidsOf, Law, Forest;
    var w := new NdbWriter(s);
    order, nodes := [], [];
    StartRunning(w.bbt);
    for i := 0 to |specs|
      invariant w.Valid() && fresh(w) && w.sums == s && |w.nbt| == i
      invariant w.Fits64() && WellFormed(specs) ==> Running(w.blocks, BidsOf(w.bbt), w.nbt, specs[..i])
    {
      ghost var was, wasOrder, wasNbt := w.blocks, BidsOf(w.bbt), w.nbt;
      var n := StoreNode(w, specs[i]);
      if n.Err? {
        return Err(n.reason), order, nodes;
      }
      if w.Fits64() && WellFormed(specs) {
        SpecsSingle(specs, i);
        RunningNext(was, wasOrder, w.blocks, BidsOf(w.bbt), wasNbt, specs, i, w.nbt[|wasNbt|]);
        assert w.nbt == wasNbt + [w.nbt[|wasNbt|]];
      }
    }
    assert specs[..|specs|] == specs;
    nodes, order := w.nbt, BidsOf(w.bbt);
    ghost var before, ok := w.blocks, w.Fits64();
    OrderOf(w);
    OrderLength(w.bbt);
    var done := w.Finish();
    if done.Err? {
      return Err(done.reason), order, nodes;
    }
    if |w.file| < U64 && WellFormed(specs) {
      assert ok;
      RunEnds(s, w.file, before, order, nodes, specs);
    }
    return Ok(w.file), order, nodes;
  }

  lemma StartRunning(bbt: seq<BbtEntry>)
    ensures bbt == [] ==> Running(map[], BidsOf(bbt), [], [])
  {
    NoNodes(map[]);
    NothingDone(map[], []);
    NodesRefsSnoc([], (0, 0));
  }

  lemma OrderLength(bbt: seq<BbtEntry>)
    ensures |BidsOf(bbt)| == |bbt|
  {
  }

  lemma RunEnds(s: Sums, file: Buf, blocks: Store, order: seq<nat>, nodes: seq<NbtEntry>, specs: seq<NodeSpec>)
    requires WellFormed(specs) && Running(blocks, order, nodes, specs) && StoreOf(s, file) == blocks
    requires DistinctKeys(nodes, NodeKey()) && AllNodesFit(nodes) ==> forall nid: nat :: ReadNode(s, file, nid) == FindNode(nodes, nid)
    requires (forall b :: b in blocks ==> b in order) && forall i, j :: 0 <= i < j < |order| ==> order[i] < order[j]
    ensures Retrieves(s, file, specs) && Forest(StoreOf(s, file), order, Roots(nodes)) && |nodes| == |specs|
    ensures forall i :: 0 <= i < |specs| ==> ReadNode(s, file, specs[i].nid) == Some(nodes[i])
  {
    hide WellFormed, Retrieves, StoreOf, ReadNode, FindNode, NodeStored, DistinctKeys, AllNodesFit, Law, Forest, NodesRefs;
    SpecsDistinct(specs);
    NodesDistinct(blocks, nodes, specs);
    AllRetrieved(s, file, nodes, specs);
    ForestOf(blocks, order, Roots(nodes));
    forall i | 0 <= i < |specs| ensures ReadNode(s, file, specs[i].nid) == Some(nodes[i]) {
      NodeOfSpec(blocks, nodes, specs, i);
    }
  }

  lemma NoNodes(blocks: Store)
    ensures AllStored(blocks, [], [])
  {
  }

  lemma SpecsDistinct(specs: seq<NodeSpec>)
    requires WellFormed(specs)
    ensures DistinctKeys(specs, SpecKey())
  {
  }
}
