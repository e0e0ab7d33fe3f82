/** Whole runs over property contexts: what is put into a node's properties comes back out
    of the finished file. */
module ContextArchive {
  import opened Ownership
  import opened Bytes
  import opened NodeId
  import opened Wrappers
  import opened Sorting
  import opened PageTree
  import opened DataTree
  import opened SubnodeTree
  import opened NdbFile
  import opened SubnodeAllocator
  import opened PropertyContext
  import opened Ndb
  import opened SearchTree
  import Space
  import NdbArchive
  import BthFormat
  import HeapFormat

  /** Reads subnodes from the subnode tree at `root`. */
  ghost function TreeSubs(blocks: Store, root: nat): nat -> Option<Buf> {
    (nid: nat) =>
      match FindSub(blocks, root, nid)
      case None => None
      case Some(e) => ReadTree(blocks, e.data)
  }

  /** A property of a node, from the header of the file down. */
  ghost function ReadFileProperty(s: Sums, file: Buf, nid: nat, id: nat): Option<Property> {
    match ReadNode(s, file, nid)
    case None => None
    case Some(n) =>
      match ReadTree(StoreOf(s, file), n.data)
      case None => None
      case Some(stream) => ReadProperty(stream, TreeSubs(StoreOf(s, file), n.sub), id)
  }

  /** Values that were spilled beforehand can be read. */
  ghost predicate Resolved(history: seq<Value>, f: nat -> Option<Buf>) {
    forall v :: v in history && v.kind.Spilled? ==> f(v.kind.nid).Some?
  }

  lemma {:induction false} LastWriteIn(history: seq<Value>, id: nat)
    ensures LastWrite(history, id).Some? ==> LastWrite(history, id).value in history
  {
    if history != [] { LastWriteIn(history[..|history| - 1], id); }
  }

  /** A reader that knows more subnodes finds the same properties. */
  lemma ReadsGrow(stream: Buf, f: nat -> Option<Buf>, g: nat -> Option<Buf>, history: seq<Value>, id: nat)
    requires forall nid: nat :: f(nid).Some? ==> g(nid) == f(nid)
    requires Resolved(history, f) && Reads(stream, f, LastWrite(history, id), id)
    ensures Reads(stream, g, LastWrite(history, id), id)
  {
    hide LastWrite, BthFormat.Lookup, HeapFormat.HeapItem, HeapFormat.UserRoot, Peek;
    LastWriteIn(history, id);
  }

  /** The blocks hold what a run of puts left: stream `data`, subnodes under `sub`. */
  ghost predicate ContextStored(blocks: Store, data: nat, sub: nat, history: seq<Value>) {
    && ReadTree(blocks, data).Some? && Resolved(history, TreeSubs(blocks, sub))
    && (sub != 0 ==> ParseSub(blocks, sub).Some?)
    && forall id: nat :: Reads(ReadTree(blocks, data).value, TreeSubs(blocks, sub), LastWrite(history, id), id)
  }

  lemma StoredGrow(a: Store, b: Store, data: nat, sub: nat, history: seq<Value>)
    requires Extends(a, b) && ContextStored(a, data, sub, history)
    ensures ContextStored(b, data, sub, history)
  {
    hide Reads, ReadTree, FindSub, ParseSub;
    var f, g := TreeSubs(a, sub), TreeSubs(b, sub);
    ReadTreeGrow(a, b, data);
    if sub == 0 {
      RootZero(a);
      RootZero(b);
    } else {
      FindSubGrow(a, b, sub, 0);
    }
    forall nid: nat | f(nid).Some? ensures g(nid) == f(nid) {
      if sub != 0 {
        FindSubGrow(a, b, sub, nid);
        ReadTreeGrow(a, b, FindSub(a, sub, nid).value.data);
      }
    }
    forall id: nat ensures Reads(ReadTree(b, data).value, g, LastWrite(history, id), id) {
      ReadsGrow(ReadTree(a, data).value, f, g, history, id);
    }
  }

  lemma RootZero(blocks: Store)
    ensures forall nid: nat :: FindSub(blocks, 0, nid) == None
  {
  }

  /** From the entry list to the subnode tree on file. */
  lemma StoredByTree(a: Store, b: Store, stream: Buf, data: nat, sub: nat, entries: seq<SubEntry>, history: seq<Value>)
    requires Extends(a, b) && ReadTree(b, data) == Some(stream) && SubnodesRead(b, sub, entries)
    requires Resolved(history, Subs(a, entries))
    requires forall id: nat :: Reads(stream, Subs(a, entries), LastWrite(history, id), id)
    ensures ContextStored(b, data, sub, history)
  {
    hide Reads, ReadTree, FindSub, ParseSub;
    var f, g := Subs(a, entries), TreeSubs(b, sub);
    forall nid: nat | f(nid).Some? ensures g(nid) == f(nid) {
      SubDataGrow(a, b, entries, entries, nid);
    }
    forall id: nat ensures Reads(stream, g, LastWrite(history, id), id) {
      ReadsGrow(stream, f, g, history, id);
    }
  }

  /** Ids that no entry list lacks room for. */
  lemma NumberedFits(s: Sums, file: Buf, bbt: seq<BbtEntry>, blocks: Store, nextBid: nat, entries: seq<SubEntry>, next: nat)
    requires BlocksOk(s, file, bbt, blocks, nextBid) && 4 * nextBid <= U64 && Numbered(blocks, entries, next)
    ensures AllFit(entries) && DistinctKeys(entries, NidKey())
  {
    hide BlocksOk, DistinctKeys;
    forall j | 0 <= j < |entries| ensures Fits(entries[j]) {
      assert entries[j] in entries;
      NdbArchive.BidFits(s, file, bbt, blocks, nextBid, entries[j].data);
      if entries[j].sub != 0 { NdbArchive.BidFits(s, file, bbt, blocks, nextBid, entries[j].sub); }
    }
  }

  /** A heap's stream and its subnodes, written. The two take over what the subnodes lead
      to. */
  method StoreParts(w: NdbWriter, subs: SubnodeAllocator, stream: Buf) returns (r: Result<(nat, nat)>)
    requires w.Valid() && subs.ndb == w
    modifies w
    ensures w.Valid() && w.Grown() && w.nbt == old(w.nbt)
    ensures r.Err? ==> |stream| >= U32 || |subs.entries| > SL_FANOUT * SI_FANOUT
    ensures r.Ok? ==> r.value.0 in w.blocks && (r.value.1 != 0 ==> r.value.1 in w.blocks)
    ensures r.Ok? && w.Fits64() && old(subs.Good()) ==>
              (&& ReadTree(w.blocks, r.value.0) == Some(stream) && SubnodesRead(w.blocks, r.value.1, subs.entries)
               && 0 < r.value.0 < U64 && r.value.1 < U64)
    ensures r.Ok? && w.Fits64() && old(subs.Good()) ==>
              Passes(old(subs.Held()), Holding(w.blocks, BidsOf(w.bbt), NodeRefs(r.value.0, r.value.1)))
  {
    hide w.Valid, ReadTree, SubnodesRead, Numbered, AllFit, DistinctKeys, BlocksOk, Space.SpaceOk, Law, EntriesRefs, BidsOf;
    ghost var a, aOrder, entries := w.blocks, BidsOf(w.bbt), subs.entries;
    subs.HeldPasses();
    var data := w.WriteData(stream);
    if data.Err? {
      return Err(data.reason);
    }
    ghost var b, bOrder := w.blocks, BidsOf(w.bbt);
    if w.Fits64() && Numbered(a, entries, subs.nextIndex) {
      NumberedGrow(a, b, entries, subs.nextIndex);
      WriterFits(w, entries, subs.nextIndex);
    }
    var sub := w.WriteSubnodes(subs.entries);
    if sub.Err? {
      return Err(sub.reason);
    }
    if w.Fits64() && old(subs.Good()) {
      ReadTreeGrow(b, w.blocks, data.value);
      RefFits(w, data.value);
      if sub.value != 0 { RefFits(w, sub.value); }
      LawNode(a, aOrder, a, aOrder, b, bOrder, w.blocks, BidsOf(w.bbt), EntriesRefs(entries), EntriesRefs(entries), data.value, sub.value);
    }
    return Ok((data.value, sub.value));
  }

  /** A node made of a property context: its stream, its subnodes, its entry. */
  method StoreContext(w: NdbWriter, subs: SubnodeAllocator, pc: PropertyContext, nid: nat, parent: nat) returns (r: Result<()>)
    requires w.Valid() && subs.ndb == w && pc.Valid()
    modifies w, subs
    ensures w.Valid() && w.Grown()
    ensures r.Ok? ==> |w.nbt| == |old(w.nbt)| + 1 && w.nbt[..|old(w.nbt)|] == old(w.nbt)
    ensures r.Ok? ==> w.nbt[|old(w.nbt)|].nid == nid && w.nbt[|old(w.nbt)|].parent == parent
    ensures subs.nextIndex <= old(subs.nextIndex) + U16
    ensures r.Err? ==> !ContextFits(pc.history) || |old(subs.entries)| + U16 > SL_FANOUT * SI_FANOUT
    ensures r.Ok? && w.Fits64() && old(subs.Good()) && subs.nextIndex <= MAX_INDEX && Resolved(pc.history, Subs(old(w.blocks), old(subs.entries)))
            ==> var e := w.nbt[|old(w.nbt)|];
                ContextStored(w.blocks, e.data, e.sub, pc.history) && (nid < U32 && parent < U32 ==> NodeFits(e))
    ensures r.Ok? && w.Fits64() && old(subs.Good()) && subs.nextIndex <= MAX_INDEX
            ==> var e := w.nbt[|old(w.nbt)|];
                Passes(old(subs.Held()), Holding(w.blocks, BidsOf(w.bbt), NodeRefs(e.data, e.sub)))
  {
    hide w.Valid, Reads, ReadTree, SubnodesRead, ContextStored, Numbered, Resolved, AllFit, DistinctKeys, BlocksOk, Space.SpaceOk, pc.Valid,
         LastWrite, SubData, Passes, subs.Held, NodeRefs, BidsOf, ContextFits;
    ghost var before, entries0 := w.blocks, subs.entries;
    var stream := pc.Serialize(subs);
    if stream.Err? {
      return Err(stream.reason);
    }
    ghost var a, held := w.blocks, subs.Held();
    var parts := StoreParts(w, subs, stream.value);
    if parts.Err? {
      return Err(parts.reason);
    }
    var data, sub := parts.value.0, parts.value.1;
    w.AddNode(nid, data, sub, parent);
    if w.Fits64() && old(subs.Good()) && subs.nextIndex <= MAX_INDEX {
      PassesThen(old(subs.Held()), held, Holding(w.blocks, BidsOf(w.bbt), NodeRefs(data, sub)));
      if Resolved(pc.history, Subs(before, entries0)) {
        ResolvedGrow(before, a, entries0, subs.entries, pc.history);
        StoredByTree(a, w.blocks, stream.value, data, sub, subs.entries, pc.history);
      }
    }
    return Ok(());
  }

  lemma WriterFits(w: NdbWriter, entries: seq<SubEntry>, next: nat)
    requires w.Valid() && w.Fits64() && Numbered(w.blocks, entries, next)
    ensures AllFit(entries) && DistinctKeys(entries, NidKey())
  {
    hide BlocksOk, DistinctKeys, Numbered, Space.SpaceOk;
    NumberedFits(w.sums, w.file, w.bbt, w.blocks, w.nextBid, entries, next);
  }

  lemma RefFits(w: NdbWriter, bid: nat)
    requires w.Valid() && w.Fits64() && bid in w.blocks
    ensures 0 < bid < U64
  {
    hide BlocksOk, Space.SpaceOk;
    NdbArchive.BidFits(w.sums, w.file, w.bbt, w.blocks, w.nextBid, bid);
  }

  lemma ResolvedGrow(a: Store, b: Store, x: seq<SubEntry>, y: seq<SubEntry>, history: seq<Value>)
    requires Extends(a, b) && x <= y && Resolved(history, Subs(a, x))
    ensures Resolved(history, Subs(b, y))
  {
    hide SubData;
    forall v | v in history && v.kind.Spilled? ensures SubData(b, y, v.kind.nid).Some? {
      assert Subs(a, x)(v.kind.nid).Some?;
      SubDataGrow(a, b, x, y, v.kind.nid);
    }
  }

  // ----------------------------------------------------------- whole runs

  /** A node given by the puts its properties came from. */
  datatype ContextSpec = ContextSpec(nid: nat, parent: nat, puts: seq<Value>)

  function SpecKey(): ContextSpec -> nat { (n: ContextSpec) => n.nid }

  predicate WellFormed(specs: seq<ContextSpec>) {
    DistinctKeys(specs, SpecKey()) && forall i :: 0 <= i < |specs| ==> SpecOk(specs[i])
  }

  predicate SpecOk(n: ContextSpec) {
    n.nid < U32 && n.parent < U32 && forall k :: 0 <= k < |n.puts| ==> n.puts[k].tag < U32 && !n.puts[k].kind.Spilled?
  }

  ghost predicate AllStored(blocks: Store, nbt: seq<NbtEntry>, specs: seq<ContextSpec>) {
    && |nbt| == |specs|
    && forall i :: 0 <= i < |specs| ==>
         nbt[i].nid == specs[i].nid && NodeFits(nbt[i]) && ContextStored(blocks, nbt[i].data, nbt[i].sub, specs[i].puts)
  }

  lemma AllStoredGrow(a: Store, b: Store, nbt: seq<NbtEntry>, specs: seq<ContextSpec>)
    requires Extends(a, b) && AllStored(a, nbt, specs)
    ensures AllStored(b, nbt, specs)
  {
    hide ContextStored;
    forall i | 0 <= i < |specs| ensures ContextStored(b, nbt[i].data, nbt[i].sub, specs[i].puts) {
      StoredGrow(a, b, nbt[i].data, nbt[i].sub, specs[i].puts);
    }
  }

  lemma OneMoreNode(blocks: Store, nbt: seq<NbtEntry>, specs: seq<ContextSpec>, i: nat, e: NbtEntry)
    requires i < |specs| && AllStored(blocks, nbt, specs[..i]) && e.nid == specs[i].nid && NodeFits(e)
    requires ContextStored(blocks, e.data, e.sub, specs[i].puts)
    ensures AllStored(blocks, nbt + [e], specs[..i + 1])
  {
    hide ContextStored;
  }

  lemma {:induction false} NodeOfSpec(nbt: seq<NbtEntry>, i: nat)
    requires DistinctKeys(nbt, NodeKey()) && i < |nbt|
    ensures FindNode(nbt, nbt[i].nid) == Some(nbt[i])
  {
    if i > 0 {
      assert NodeKey()(nbt[0]) != NodeKey()(nbt[i]);
      forall a, b | 0 <= a < b < |nbt[1..]| ensures NodeKey()(nbt[1..][a]) != NodeKey()(nbt[1..][b]) {
        assert NodeKey()(nbt[a + 1]) != NodeKey()(nbt[b + 1]);
      }
      NodeOfSpec(nbt[1..], i - 1);
    }
  }

  lemma NodesDistinct(blocks: Store, nbt: seq<NbtEntry>, specs: seq<ContextSpec>)
    requires AllStored(blocks, nbt, specs) && DistinctKeys(specs, SpecKey())
    ensures DistinctKeys(nbt, NodeKey()) && AllNodesFit(nbt)
  {
    forall i, j | 0 <= i < j < |nbt| ensures NodeKey()(nbt[i]) != NodeKey()(nbt[j]) {
      assert SpecKey()(specs[i]) != SpecKey()(specs[j]);
    }
  }

  /** A property context filled by a run of puts. */
  method PutAll(puts: seq<Value>) returns (pc: PropertyContext)
    requires forall k :: 0 <= k < |puts| ==> puts[k].tag < U32
    ensures fresh(pc) && pc.Valid() && pc.history == puts
  {
    pc := new PropertyContext();
    for k := 0 to |puts|
      invariant fresh(pc) && pc.Valid() && pc.history == puts[..k]
    {
      pc.Put(puts[k]);
    }
    assert puts[..|puts|] == puts;
  }

  lemma NothingSpilled(n: ContextSpec, f: nat -> Option<Buf>)
    requires SpecOk(n)
    ensures Resolved(n.puts, f)
  {
  }

  /** A property of a node that holds a run of puts reads as the last put under its id. */
  lemma ContextReads(s: Sums, file: Buf, nid: nat, e: NbtEntry, puts: seq<Value>, id: nat)
    requires ReadNode(s, file, nid) == Some(e) && ContextStored(StoreOf(s, file), e.data, e.sub, puts)
    requires forall v :: v in puts ==> !v.kind.Spilled?
    ensures ReadFileProperty(s, file, nid, id) == Expected(puts, id)
            || (LastWrite(puts, id).Some? && !WellTyped(LastWrite(puts, id).value))
  {
    hide StoreOf, ReadNode, ReadTree, FindSub, ParseSub, ReadProperty, LastWrite, WellTyped;
    var blocks := StoreOf(s, file);
    var stream := ReadTree(blocks, e.data).value;
    assert Reads(stream, TreeSubs(blocks, e.sub), LastWrite(puts, id), id);
    LastWriteIn(puts, id);
    if LastWrite(puts, id).None? { AbsentReads(stream, TreeSubs(blocks, e.sub), id); }
  }

  /** One property of one node reads as the last put under its id. */
  lemma PropertyRetrieved(s: Sums, file: Buf, nbt: seq<NbtEntry>, specs: seq<ContextSpec>, i: nat, id: nat)
    requires i < |specs| && WellFormed(specs) && AllStored(StoreOf(s, file), nbt, specs)
    requires forall nid: nat :: ReadNode(s, file, nid) == FindNode(nbt, nid)
    ensures ReadFileProperty(s, file, specs[i].nid, id) == Expected(specs[i].puts, id)
            || (LastWrite(specs[i].puts, id).Some? && !WellTyped(LastWrite(specs[i].puts, id).value))
  {
    hide StoreOf, ReadNode, ContextStored, ReadFileProperty, Expected, LastWrite, WellTyped, DistinctKeys;
    NodesDistinct(StoreOf(s, file), nbt, specs);
    NodeOfSpec(nbt, i);
    assert SpecOk(specs[i]);
    ContextReads(s, file, specs[i].nid, nbt[i], specs[i].puts, id);
  }

  lemma AbsentReads(stream: Buf, f: nat -> Option<Buf>, id: nat)
    requires Absent(stream, id)
    ensures ReadProperty(stream, f, id) == None
  {
  }

  /** The last put of each id, as a reader should see it. */
  function Expected(puts: seq<Value>, id: nat): Option<Property> {
    match LastWrite(puts, id)
    case None => None
    case Some(v) =>
      Some(Property(TagType(v.tag), match v.kind case Inline(x) => Small(x) case Bytes(data) => Data(data) case Spilled(nid) => Small(nid)))
  }

  /** A whole run: nodes with any runs of puts, written and finished. Every property of
      every node reads back from the finished file as it was last put, and no other
      property is found. The blocks of the file, those of spilled values among them, are a
      forest under its nodes. Fails only for a context that does not fit a node, or for too
      many nodes or blocks. */
  method ArchiveContexts(s: Sums, specs: seq<ContextSpec>) returns (r: Result<Buf>, ghost order: seq<nat>, ghost nodes: seq<NbtEntry>)
    requires forall i :: 0 <= i < |specs| ==> SpecOk(specs[i])
    ensures r.Ok? && |r.value| < U64 && WellFormed(specs) ==>
              forall i, id: nat :: 0 <= i < |specs|
                && (LastWrite(specs[i].puts, id).None? || WellTyped(LastWrite(specs[i].puts, id).value))
                ==> ReadFileProperty(s, r.value, specs[i].nid, id) == Expected(specs[i].puts, id)
    ensures r.Ok? && |r.value| < U64 && WellFormed(specs) ==>
              (&& Forest(StoreOf(s, r.value), order, NdbArchive.Roots(nodes)) && |nodes| == |specs|
               && forall i :: 0 <= i < |specs| ==> ReadNode(s, r.value, specs[i].nid) == Some(nodes[i]))
    ensures r.Err? ==> (exists i :: 0 <= i < |specs| && !ContextFits(specs[i].puts))
                       || CeilDiv(|specs|, 15) > Pow20(7) || CeilDiv(|order|, 20) > Pow20(7)
  {
    hide WellFormed, Running, ReadFileProperty, Space.SpaceOk, BlocksOk, StoreOf, ReadNode, FindNode, ContextStored, MapsOnFile,
         PMapsOnFile, BlockExtents, Space.FreeTotal, DistinctKeys, AllNodesFit, Resolved, Subs, LastWrite, WellTyped, Numbered, BidsOf,
         Law, Forest, EntriesRefs, NodeRefs, ContextFits, CeilDiv, Pow20;
    var w := new NdbWriter(s);
    order, nodes := [], [];
    StartRunning(w.bbt);
    for i := 0 to |specs|
      invariant w.Valid() && fresh(w) && w.sums == s && |w.nbt| == i
      invariant w.Fits64() ==> Running(w.blocks, BidsOf(w.bbt), w.nbt, specs[..i])
    {
      ghost var was, wasOrder, wasNbt := w.blocks, BidsOf(w.bbt), w.nbt;
      var pc := PutAll(specs[i].puts);
      var subs := new SubnodeAllocator(w);
      NothingSpilled(specs[i], Subs(w.blocks, subs.entries));
      var n := StoreContext(w, subs, pc, specs[i].nid, specs[i].parent);
      if n.Err? {
        return Err(n.reason), order, nodes;
      }
      if w.Fits64() {
        NdbArchive.NoEntryRefs();
        RunningNext(was, wasOrder, w.blocks, BidsOf(w.bbt), wasNbt, specs, i, w.nbt[|wasNbt|]);
        assert w.nbt == wasNbt + [w.nbt[|wasNbt|]];
      }
    }
    assert specs[..|specs|] == specs;
    nodes, order := w.nbt, BidsOf(w.bbt);
    ghost var before, ok := w.blocks, w.Fits64();
    NdbArchive.OrderOf(w);
    NdbArchive.OrderLength(w.bbt);
    var done := w.Finish();
    if done.Err? {
      return Err(done.reason), order, nodes;
    }
    if |w.file| < U64 && WellFormed(specs) {
      assert ok;
      RunEnds(s, w.file, before, order, nodes, specs);
      forall i, id: nat | 0 <= i < |specs| && (LastWrite(specs[i].puts, id).None? || WellTyped(LastWrite(specs[i].puts, id).value))
        ensures ReadFileProperty(s, w.file, specs[i].nid, id) == Expected(specs[i].puts, id)
      {
        PropertyRetrieved(s, w.file, nodes, specs, i, id);
      }
    }
    return Ok(w.file), order, nodes;
  }

  /** The state of a run: what is stored, and who owns it. */
  ghost predicate Running(blocks: Store, order: seq<nat>, nbt: seq<NbtEntry>, specs: seq<ContextSpec>) {
    && AllStored(blocks, nbt, specs)
    && Law(map[], [], blocks, order, multiset{}, NodesRefs(NdbArchive.Roots(nbt)))
  }

  lemma StartRunning(bbt: seq<BbtEntry>)
    ensures bbt == [] ==> Running(map[], BidsOf(bbt), [], [])
  {
    NothingDone(map[], []);
    NodesRefsSnoc([], (0, 0));
  }

  lemma RunningNext(a: Store, o: seq<nat>, b: Store, p: seq<nat>, nbt: seq<NbtEntry>, specs: seq<ContextSpec>, i: nat, e: NbtEntry)
    requires i < |specs| && Extends(a, b) && Running(a, o, nbt, specs[..i]) && e.nid == specs[i].nid && NodeFits(e)
    requires ContextStored(b, e.data, e.sub, specs[i].puts)
    requires Passes(Holding(a, o, multiset{}), Holding(b, p, NodeRefs(e.data, e.sub)))
    ensures Running(b, p, nbt + [e], specs[..i + 1])
  {
    hide AllStored, ContextStored, Law, NodesRefs, NodeRefs;
    AllStoredGrow(a, b, nbt, specs[..i]);
    OneMoreNode(b, nbt, specs, i, e);
    LawBeside(map[], [], a, o, b, p, NodesRefs(NdbArchive.Roots(nbt)), NodeRefs(e.data, e.sub));
    NdbArchive.RootsSnoc(nbt, e);
  }

  lemma RunEnds(s: Sums, file: Buf, blocks: Store, order: seq<nat>, nodes: seq<NbtEntry>, specs: seq<ContextSpec>)
    requires WellFormed(specs) && Running(blocks, order, nodes, specs) && StoreOf(s, file) == blocks
    requires DistinctKeys(nodes, NodeKey()) && AllNodesFit(nodes) ==> forall nid: nat :: ReadNode(s, file, nid) == FindNode(nodes, nid)
    requires (forall b :: b in blocks ==> b in order) && forall i, j :: 0 <= i < j < |order| ==> order[i] < order[j]
    ensures Forest(StoreOf(s, file), order, NdbArchive.Roots(nodes)) && |nodes| == |specs|
    ensures AllStored(StoreOf(s, file), nodes, specs) && forall nid: nat :: ReadNode(s, file, nid) == FindNode(nodes, nid)
    ensures forall i :: 0 <= i < |specs| ==> ReadNode(s, file, specs[i].nid) == Some(nodes[i])
  {
    hide WellFormed, StoreOf, ReadNode, FindNode, ContextStored, DistinctKeys, AllNodesFit, Law, Forest,
         NodesRefs;
    SpecsDistinct(specs);
    NodesDistinct(blocks, nodes, specs);
    ForestOf(blocks, order, NdbArchive.Roots(nodes));
    forall i | 0 <= i < |specs| ensures ReadNode(s, file, specs[i].nid) == Some(nodes[i]) {
      NodeOfSpec(nodes, i);
    }
  }

  lemma SpecsDistinct(specs: seq<ContextSpec>)
    requires WellFormed(specs)
    ensures DistinctKeys(specs, SpecKey())
  {
  }
}
