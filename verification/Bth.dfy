/** Building a B-tree-on-heap into either heap. */
module Bth {
  import opened Bytes
  import opened Wrappers
  import opened Sorting
  import opened SearchTree
  import opened HeapFormat
  import opened BthFormat
  import HeapNode
  import StreamingHeap
  import Ndb
  import Space
  import NdbFile
  import Ownership

  /** The heap a B-tree is built into: the source's template parameter. */
  datatype AnyHeap = InMemory(node: HeapNode.HeapNode) | Streamed(heap: StreamingHeap.StreamingHeap) {
    ghost function Objects(): set<object>
    {
      match this
      case InMemory(node) => {node}
      case Streamed(heap) => {heap, heap.ndb}
    }

    ghost predicate Valid()
      reads Objects()
    {
      match this
      case InMemory(node) => node.Valid()
      case Streamed(heap) => heap.Valid()
    }

    ghost function Contents(): Heap
      reads Objects()
    {
      match this
      case InMemory(node) => node.Contents()
      case Streamed(heap) => heap.Contents()
    }

    /** What building leaves alone whether it succeeds or not: the heap header, and the
        state of the NDB writer below. */
    twostate predicate Kept()
      reads Objects()
    {
      match this
      case InMemory(node) => node.userRoot == old(node.userRoot)
      case Streamed(heap) =>
        heap.userRoot == old(heap.userRoot) && heap.ndb.Valid() && heap.ndb.Grown() && heap.ndb.nbt == old(heap.ndb.nbt)
    }

    /** What it holds of the NDB layer: the blocks of a streaming heap; an in-memory heap
        holds none and does not look at the layer at all. */
    ghost function Held(): Ownership.Holding
      reads Objects()
    {
      match this
      case InMemory(node) => Ownership.Holding(map[], [], multiset{})
      case Streamed(heap) => heap.Held()
    }

    lemma HeldPasses()
      requires Valid()
      ensures Ownership.Passes(Held(), Held())
    {
      hide Ownership.Law, Ndb.NdbWriter.Valid, StreamingHeap.Tracks, StreamingHeap.Flushed;
      match this
      case InMemory(node) => Ownership.PassesSame(Held());
      case Streamed(heap) => heap.HeldPresent();
    }

    lemma ValidBelow()
      requires Valid()
      ensures Streamed? ==> heap.ndb.Valid()
    {
    }

    /** Other writes to the NDB layer leave the heap as it is. */
    twostate lemma Survives()
      requires old(Valid())
      requires match this case InMemory(node) => unchanged(node)
                          case Streamed(heap) => unchanged(heap) && heap.ndb.Valid() && heap.ndb.Grown()
      ensures Valid() && Contents() == old(Contents())
    {
      hide StreamingHeap.Flushed, StreamingHeap.Tracks, Ndb.NdbWriter.Valid;
      if Streamed? {
        StreamingHeap.FlushedGrow(old(heap.ndb.blocks), heap.ndb.blocks, heap.flushed, heap.leaves);
      }
    }

    lemma ValidHeap()
      requires Valid()
      ensures HeapOk(Contents()) && 1 <= |Contents()| <= MAX_BLOCKS
    {
      hide StreamingHeap.Flushed;
      match this
      case InMemory(node) =>
      case Streamed(heap) => StreamingHeap.TracksFits(heap.block0, heap.flushed, heap.current, heap.currentIndex);
    }

    /** An allocation: everything read before reads the same. */
    method Alloc(data: Buf) returns (r: Result<nat>)
      requires Valid()
      modifies Objects()
      ensures Kept()
      ensures r.Ok? ==> Valid() && IsHid(r.value) && Added(old(Contents()), Contents(), data, r.value)
      ensures r.Err? ==> |data| > MAX_ALLOC || |old(Contents())| >= MAX_BLOCKS
      ensures r.Ok? ==> Ownership.Passes(old(Held()), Held())
    {
      hide Space.SpaceOk, NdbFile.BlocksOk, NdbFile.BlockExtents, StreamingHeap.Flushed, HeapOk, AllocIn, ItemAt, ReadsMore, Ownership.Law,
           Ndb.BidsOf;
      ghost var h := Contents();
      HeldPasses();
      ValidHeap();
      AllocFails(h, data);
      match this {
        case InMemory(node) => r := node.Alloc(data);
        case Streamed(heap) => r := heap.Alloc(data);
      }
      if r.Ok? {
        AllocCovers(h, data);
        AllocCounts(h, data);
      }
    }
  }

  // ------------------------------------------- how many pages there can be

  function Count(h: Heap): nat {
    if h == [] then 0 else Count(h[..|h| - 1]) + |h[|h| - 1]|
  }

  lemma AllocFails(h: Heap, data: Buf)
    requires |h| >= 1
    ensures AllocIn(h, data).None? <==> |data| > MAX_ALLOC || (|h| >= MAX_BLOCKS && !(FitsIn(|h| - 1, h[|h| - 1], |data|) && |h[|h| - 1]| < MAX_ITEMS))
  {
  }

  lemma AllocCounts(h: Heap, data: Buf)
    requires |h| >= 1 && AllocIn(h, data).Some?
    ensures Count(AllocIn(h, data).value.0) == Count(h) + 1
  {
    hide MakeHid, FitsIn;
    var i, g := |h| - 1, AllocIn(h, data).value.0;
    if |g| == |h| {
      assert g[..i] == h[..i];
    } else {
      assert g[..|h|] == h;
    }
  }

  lemma {:induction false} CountBound(h: Heap)
    requires forall i :: 0 <= i < |h| ==> |h[i]| <= MAX_ITEMS
    ensures Count(h) <= MAX_ITEMS * |h|
  {
    if h != [] { CountBound(h[..|h| - 1]); }
  }

  /** More than the pages of any level at this height, given index pages of at least 675
      entries and a heap of at most 65536 blocks. */
  function LevelBound(levels: nat): nat {
    if levels == 0 then 134_217_728 else if levels == 1 then 198_842 else if levels == 2 then 295 else 1
  }

  lemma LevelShrinks(n: nat, per: nat, levels: nat)
    requires n <= LevelBound(levels) && per >= 675
    ensures CeilDiv(n, per) <= LevelBound(levels + 1)
  {
    var q := LevelBound(levels + 1);
    CeilDivBounds(n, per, q);
    assert n <= 675 * q;
    assert 675 * q <= per * q;
  }

  lemma HalfAtMost(n: nat, per: nat)
    requires n >= 2 && per >= 3
    ensures 2 * CeilDiv(n, per) <= n
  {
    var q := n / 2;
    CeilDivBounds(n, per, q);
    assert 3 * q <= per * q;
  }

  // -------------------------------------------------------------- building

  method FillLeaf(rs: seq<Record>) returns (page: Buf)
    ensures page == LeafPage(rs)
  {
    page := [];
    for k := 0 to |rs|
      invariant page == LeafPage(rs[..k])
    {
      assert rs[..k + 1][..k] == rs[..k];
      page := page + rs[k].key;
      page := page + rs[k].value;
    }
    assert rs[..|rs|] == rs;
  }

  lemma CoversItself(f: Reader)
    ensures ReadsMore(f, f)
  {
  }

  method FillIndex(ls: seq<PageRef>) returns (page: Buf)
    ensures page == IndexPage(ls)
  {
    page := [];
    for k := 0 to |ls|
      invariant page == IndexPage(ls[..k])
    {
      assert ls[..k + 1][..k] == ls[..k];
      page := page + ls[k].key;
      page := page + Put32(ls[k].hid);
    }
    assert ls[..|ls|] == ls;
  }

  lemma Scale(a: nat, b: nat, w: nat)
    requires a <= b
    ensures a * w <= b * w
  {
  }

  lemma LeafPageFits(rs: seq<Record>, cbKey: nat, cbEnt: nat, per: nat)
    requires Sized(rs, cbKey, cbEnt) && cbKey + cbEnt > 0 && |rs| <= per && per * (cbKey + cbEnt) <= MAX_ALLOC
    ensures |LeafPage(rs)| <= MAX_ALLOC
  {
    hide Sized, LeafPage;
    LeafPageReads(rs, cbKey, cbEnt);
    Scale(|rs|, per, cbKey + cbEnt);
  }

  lemma IndexPageFits(ls: seq<PageRef>, cbKey: nat, per: nat)
    requires RefsOk(ls, cbKey) && |ls| <= per && per * (cbKey + 4) <= MAX_ALLOC
    ensures |IndexPage(ls)| <= MAX_ALLOC
  {
    hide RefsOk, IndexPage;
    IndexPageReads(ls, cbKey);
    Scale(|ls|, per, cbKey + 4);
  }

  /** Where the k-th run starts and ends. */
  lemma CutStep(n: nat, per: nat, k: nat)
    requires per > 0
    ensures k * per < n ==> k < CeilDiv(n, per) && Min((k + 1) * per, n) == k * per + Min(per, n - k * per)
  {
    CutCount(n, per, k);
    assert (k + 1) * per == k * per + per;
  }

  // ---------------------------------------------- one level, page by page

  /** What an allocation does, seen from outside. */
  ghost predicate Added(h: Heap, g: Heap, data: Buf, hid: nat) {
    && ReadsMore(InHeap(h), InHeap(g)) && InHeap(g)(hid) == Some(data)
    && 0 < hid < U32 && |g| <= |h| + 1 && Count(g) == Count(h) + 1
  }

  /** Between `h` and `g` as many allocations as there are pages in `ls`. */
  ghost predicate Progress(h: Heap, g: Heap, ls: seq<PageRef>, cbKey: nat) {
    ReadsMore(InHeap(h), InHeap(g)) && RefsOk(ls, cbKey) && |g| <= |h| + |ls| && Count(g) == Count(h) + |ls|
  }

  lemma NoProgress(h: Heap, cbKey: nat)
    ensures Progress(h, h, [], cbKey)
  {
  }

  lemma ProgressStep(h: Heap, f: Heap, g: Heap, ls: seq<PageRef>, cbKey: nat, data: Buf, key: Buf, hid: nat)
    requires Progress(h, f, ls, cbKey) && Added(f, g, data, hid) && |key| == cbKey
    ensures Progress(h, g, ls + [PageRef(key, hid)], cbKey)
  {
    hide InHeap, Count, ReadsMore;
    CoversTransitive(InHeap(h), InHeap(f), InHeap(g));
  }

  ghost predicate LeavesSoFar(h: Heap, g: Heap, ls: seq<PageRef>, rs: seq<Record>, i: nat, per: nat, cbKey: nat, cbEnt: nat)
    requires per > 0 && i <= |rs|
  {
    Progress(h, g, ls, cbKey) && i == Min(|ls| * per, |rs|) && LeavesDone(InHeap(g), ls, rs, i, per, cbKey, cbEnt)
  }

  /** The leaf pages of the records, in `g`. */
  ghost predicate LeafLevel(h: Heap, g: Heap, ls: seq<PageRef>, rs: seq<Record>, per: nat, cbKey: nat, cbEnt: nat)
    requires per > 0
  {
    && Progress(h, g, ls, cbKey) && |ls| == CeilDiv(|rs|, per)
    && ParseKids(InHeap(g), 0, BranchesOf(ls), cbKey, cbEnt) == Some(LeafKids(RecsOf(rs), per))
  }

  lemma LeavesBegin(h: Heap, rs: seq<Record>, per: nat, cbKey: nat, cbEnt: nat)
    requires per > 0
    ensures LeavesSoFar(h, h, [], rs, 0, per, cbKey, cbEnt)
  {
    NoProgress(h, cbKey);
    LeavesStart(InHeap(h), rs, per, cbKey, cbEnt);
  }

  lemma LeavesNext(h: Heap, f: Heap, g: Heap, ls: seq<PageRef>, rs: seq<Record>, i: nat, per: nat, cbKey: nat, cbEnt: nat, hid: nat)
    requires 0 < per && i < |rs| && Sized(rs, cbKey, cbEnt) && cbKey + cbEnt > 0
    requires LeavesSoFar(h, f, ls, rs, i, per, cbKey, cbEnt)
    requires Added(f, g, LeafPage(rs[i..i + Min(per, |rs| - i)]), hid)
    ensures LeavesSoFar(h, g, ls + [PageRef(rs[i].key, hid)], rs, i + Min(per, |rs| - i), per, cbKey, cbEnt)
  {
    hide LeavesDone, LeafPage, Progress, CeilDiv, Count, ReadsMore, RecsOf;
    CutStep(|rs|, per, |ls|);
    ProgressStep(h, f, g, ls, cbKey, LeafPage(rs[i..i + Min(per, |rs| - i)]), rs[i].key, hid);
    LeavesStep(InHeap(f), InHeap(g), ls, rs, i, per, cbKey, cbEnt, hid);
  }

  lemma LeavesFinish(h: Heap, g: Heap, ls: seq<PageRef>, rs: seq<Record>, per: nat, cbKey: nat, cbEnt: nat)
    requires per > 0 && LeavesSoFar(h, g, ls, rs, |rs|, per, cbKey, cbEnt)
    ensures LeafLevel(h, g, ls, rs, per, cbKey, cbEnt)
  {
    hide LeavesDone, Progress, CeilDiv, RecsOf, LeafKids;
    LeavesEnd(InHeap(g), ls, rs, per, cbKey, cbEnt);
    LeafKidsCorrect(RecsOf(rs), per, 1);
  }

  lemma RoomLeft(h: Heap, g: Heap, ls: seq<PageRef>, rs: seq<Record>, i: nat, per: nat, cbKey: nat, cbEnt: nat)
    requires per > 0 && i < |rs| && LeavesSoFar(h, g, ls, rs, i, per, cbKey, cbEnt)
    ensures |g| < |h| + CeilDiv(|rs|, per)
  {
    CutCount(|rs|, per, |ls|);
  }

  /** The leaf pages over sorted records. */
  method BuildLeaves(hn: AnyHeap, cbKey: nat, cbEnt: nat, rs: seq<Record>, per: nat) returns (r: Result<seq<PageRef>>)
    requires hn.Valid() && Sized(rs, cbKey, cbEnt) && cbKey + cbEnt > 0
    requires per > 0 && per * (cbKey + cbEnt) <= MAX_ALLOC
    modifies hn.Objects()
    ensures hn.Kept()
    ensures r.Ok? ==> hn.Valid() && LeafLevel(old(hn.Contents()), hn.Contents(), r.value, rs, per, cbKey, cbEnt)
    ensures r.Err? ==> |old(hn.Contents())| + CeilDiv(|rs|, per) > MAX_BLOCKS
    ensures r.Ok? ==> Ownership.Passes(old(hn.Held()), hn.Held())
  {
    hide Ndb.NdbWriter.Valid, hn.Valid, hn.Contents, LeavesSoFar, LeafLevel, Added, LeafPage, CeilDiv, hn.Held, Ownership.Passes;
    var ls: seq<PageRef> := [];
    var i := 0;
    hn.ValidBelow();
    hn.HeldPasses();
    LeavesBegin(hn.Contents(), rs, per, cbKey, cbEnt);
    while i < |rs|
      invariant hn.Kept() && hn.Valid() && i <= |rs|
      invariant LeavesSoFar(old(hn.Contents()), hn.Contents(), ls, rs, i, per, cbKey, cbEnt)
      invariant Ownership.Passes(old(hn.Held()), hn.Held())
    {
      ghost var before, held := hn.Contents(), hn.Held();
      var n := Min(per, |rs| - i);
      var page := FillLeaf(rs[i..i + n]);
      LeafPageFits(rs[i..i + n], cbKey, cbEnt, per);
      RoomLeft(old(hn.Contents()), before, ls, rs, i, per, cbKey, cbEnt);
      var hid := hn.Alloc(page);
      if hid.Err? {
        return Err(hid.reason);
      }
      LeavesNext(old(hn.Contents()), before, hn.Contents(), ls, rs, i, per, cbKey, cbEnt, hid.value);
      Ownership.PassesThen(old(hn.Held()), held, hn.Held());
      ls := ls + [PageRef(rs[i].key, hid.value)];
      i := i + n;
    }
    LeavesFinish(old(hn.Contents()), hn.Contents(), ls, rs, per, cbKey, cbEnt);
    return Ok(ls);
  }

  // ---------------------------------------------------- the levels above

  ghost predicate GroupsSoFar(h: Heap, g: Heap, level: nat, next: seq<PageRef>, ls: seq<PageRef>, kids: seq<Tree>, i: nat, per: nat,
                              cbKey: nat, cbEnt: nat)
    requires per > 0 && i <= |kids|
  {
    && Progress(h, g, next, cbKey) && i == Min(|next| * per, |kids|)
    && GroupsDone(InHeap(g), level, next, kids, i, per, cbKey, cbEnt)
    && level >= 1 && |kids| == |ls| && RefsOk(ls, cbKey)
    && ParseKids(InHeap(g), level - 1, BranchesOf(ls), cbKey, cbEnt) == Some(kids)
  }

  ghost predicate LevelOf(g: Heap, level: nat, ls: seq<PageRef>, kids: seq<Tree>, cbKey: nat, cbEnt: nat) {
    RefsOk(ls, cbKey) && |kids| == |ls| && ParseKids(InHeap(g), level, BranchesOf(ls), cbKey, cbEnt) == Some(kids)
  }

  lemma GroupsBegin(h: Heap, level: nat, ls: seq<PageRef>, kids: seq<Tree>, per: nat, cbKey: nat, cbEnt: nat)
    requires per > 0 && LevelOf(h, level, ls, kids, cbKey, cbEnt)
    ensures GroupsSoFar(h, h, level + 1, [], ls, kids, 0, per, cbKey, cbEnt)
  {
    NoProgress(h, cbKey);
    GroupsStart(InHeap(h), level + 1, kids, per, cbKey, cbEnt);
  }

  lemma GroupsNext(h: Heap, f: Heap, g: Heap, level: nat, next: seq<PageRef>, ls: seq<PageRef>, kids: seq<Tree>, i: nat, per: nat,
                   cbKey: nat, cbEnt: nat, hid: nat)
    requires 0 < per && i < |kids| == |ls|
    requires GroupsSoFar(h, f, level, next, ls, kids, i, per, cbKey, cbEnt)
    requires Added(f, g, IndexPage(ls[i..i + Min(per, |ls| - i)]), hid)
    ensures GroupsSoFar(h, g, level, next + [PageRef(ls[i].key, hid)], ls, kids, i + Min(per, |ls| - i), per, cbKey, cbEnt)
  {
    hide GroupsDone, IndexPage, Progress, CeilDiv, Count, ReadsMore, ParseKids;
    CutStep(|ls|, per, |next|);
    ProgressStep(h, f, g, next, cbKey, IndexPage(ls[i..i + Min(per, |ls| - i)]), ls[i].key, hid);
    GroupsStep(InHeap(f), InHeap(g), level, next, ls, kids, i, per, cbKey, cbEnt, hid);
    ParseKidsCovers(InHeap(f), InHeap(g), level - 1, BranchesOf(ls), cbKey, cbEnt);
  }

  lemma GroupsFinish(h: Heap, g: Heap, level: nat, next: seq<PageRef>, ls: seq<PageRef>, kids: seq<Tree>, per: nat, perLeaf: nat,
                     cbKey: nat, cbEnt: nat)
    requires per > 0 && GroupsSoFar(h, g, level, next, ls, kids, |kids|, per, cbKey, cbEnt)
    requires OrderedKids(kids) && WithinKids(kids, perLeaf, per)
    ensures Progress(h, g, next, cbKey) && LevelOf(g, level, next, GroupKids(kids, per), cbKey, cbEnt)
    ensures |next| == CeilDiv(|ls|, per)
  {
    hide GroupsDone, Progress, CeilDiv, GroupKids, OrderedKids, WithinKids;
    GroupsEnd(InHeap(g), level, next, kids, per, cbKey, cbEnt);
    GroupKidsCorrect(kids, perLeaf, per);
    assert RefsOk(next, cbKey) by { ProgressRefs(h, g, next, cbKey); }
  }

  lemma ProgressRefs(h: Heap, g: Heap, ls: seq<PageRef>, cbKey: nat)
    requires Progress(h, g, ls, cbKey)
    ensures RefsOk(ls, cbKey)
  {
  }

  lemma GroupRoomLeft(h: Heap, g: Heap, level: nat, next: seq<PageRef>, ls: seq<PageRef>, kids: seq<Tree>, i: nat, per: nat,
                      cbKey: nat, cbEnt: nat)
    requires per > 0 && i < |kids| && GroupsSoFar(h, g, level, next, ls, kids, i, per, cbKey, cbEnt)
    ensures |g| < |h| + CeilDiv(|ls|, per)
  {
    CutCount(|ls|, per, |next|);
  }

  /** One index level over the level below. */
  method BuildLevel(hn: AnyHeap, cbKey: nat, ghost cbEnt: nat, ls: seq<PageRef>, per: nat, ghost level: nat, ghost kids: seq<Tree>,
                    ghost perLeaf: nat)
    returns (r: Result<seq<PageRef>>)
    requires hn.Valid() && per > 0 && per * (cbKey + 4) <= MAX_ALLOC && LevelOf(hn.Contents(), level, ls, kids, cbKey, cbEnt)
    requires OrderedKids(kids) && WithinKids(kids, perLeaf, per)
    modifies hn.Objects()
    ensures hn.Kept()
    ensures r.Ok? ==> hn.Valid() && Progress(old(hn.Contents()), hn.Contents(), r.value, cbKey)
    ensures r.Ok? ==> LevelOf(hn.Contents(), level + 1, r.value, GroupKids(kids, per), cbKey, cbEnt)
    ensures r.Ok? ==> |r.value| == CeilDiv(|ls|, per)
    ensures r.Err? ==> |old(hn.Contents())| + CeilDiv(|ls|, per) > MAX_BLOCKS
    ensures r.Ok? ==> Ownership.Passes(old(hn.Held()), hn.Held())
  {
    hide Ndb.NdbWriter.Valid, hn.Valid, hn.Contents, GroupsSoFar, Added, IndexPage, CeilDiv, Progress, GroupKids, OrderedKids,
         WithinKids, hn.Held, Ownership.Passes;
    var next: seq<PageRef> := [];
    var i := 0;
    hn.ValidBelow();
    hn.HeldPasses();
    GroupsBegin(hn.Contents(), level, ls, kids, per, cbKey, cbEnt);
    while i < |ls|
      invariant hn.Kept() && hn.Valid() && i <= |ls| == |kids|
      invariant GroupsSoFar(old(hn.Contents()), hn.Contents(), level + 1, next, ls, kids, i, per, cbKey, cbEnt)
      invariant Ownership.Passes(old(hn.Held()), hn.Held())
    {
      ghost var before, held := hn.Contents(), hn.Held();
      var n := Min(per, |ls| - i);
      var page := FillIndex(ls[i..i + n]);
      IndexPageFits(ls[i..i + n], cbKey, per);
      GroupRoomLeft(old(hn.Contents()), before, level + 1, next, ls, kids, i, per, cbKey, cbEnt);
      var hid := hn.Alloc(page);
      if hid.Err? {
        return Err(hid.reason);
      }
      GroupsNext(old(hn.Contents()), before, hn.Contents(), level + 1, next, ls, kids, i, per, cbKey, cbEnt, hid.value);
      Ownership.PassesThen(old(hn.Held()), held, hn.Held());
      next := next + [PageRef(ls[i].key, hid.value)];
      i := i + n;
    }
    GroupsFinish(old(hn.Contents()), hn.Contents(), level + 1, next, ls, kids, per, perLeaf, cbKey, cbEnt);
    return Ok(next);
  }

  // ------------------------------------------------------- the whole tree

  function PerLeaf(cbKey: nat, cbEnt: nat): nat
    requires cbKey + cbEnt > 0
  {
    var n := MAX_ALLOC / (cbKey + cbEnt);
    if n > 1 then n else 1
  }

  function PerIndex(cbKey: nat): nat {
    var n := MAX_ALLOC / (cbKey + 4);
    if n > 1 then n else 1
  }

  lemma PageSizes(cbKey: byte, cbEnt: byte)
    requires 1 <= cbKey <= 8
    ensures PerLeaf(cbKey, cbEnt) * (cbKey + cbEnt) <= MAX_ALLOC && PerLeaf(cbKey, cbEnt) >= 1
    ensures PerIndex(cbKey) * (cbKey + 4) <= MAX_ALLOC && PerIndex(cbKey) >= 675
  {
    Quotient(MAX_ALLOC, cbKey + cbEnt, 1);
    Scale(cbKey + 4, 12, 675);
    Quotient(MAX_ALLOC, cbKey + 4, 675);
  }

  lemma Quotient(n: nat, w: nat, q: nat)
    requires w > 0 && w * q <= n
    ensures n / w * w <= n && n / w >= q
  {
    var d := n / w;
    assert n == d * w + n % w;
    if d < q { Scale(d + 1, q, w); }
  }

  /** Heap blocks that building a tree over `n` records can take at most. */
  function MostBlocks(n: nat, cbKey: nat, cbEnt: nat): nat
    requires cbKey + cbEnt > 0
  {
    2 * CeilDiv(n, PerLeaf(cbKey, cbEnt)) + 1
  }

  /** What a finished tree promises: handles given out before stay good, and the in-order
      walk from the new handle gives the records in key order. */
  ghost predicate Built(h: Heap, g: Heap, hid: nat, records: seq<Record>, cbKey: nat, cbEnt: nat)
    requires cbKey + cbEnt > 0
  {
    && ReadsMore(InHeap(h), InHeap(g)) && 0 < hid < U32 && IsHid(hid)
    && |g| <= |h| + MostBlocks(|records|, cbKey, cbEnt)
    && Holds(InHeap(g), hid, RecsOf(SortBy(records, ByKey())), PerLeaf(cbKey, cbEnt), PerIndex(cbKey))
  }

  /** The state of the level loop. */
  ghost predicate Climbing(h: Heap, g: Heap, levels: nat, ls: seq<PageRef>, kids: seq<Tree>, recs: seq<Rec>, cbKey: nat, cbEnt: nat)
    requires cbKey + cbEnt > 0
  {
    && LevelOf(g, levels, ls, kids, cbKey, cbEnt) && OrderedKids(kids)
    && WithinKids(kids, PerLeaf(cbKey, cbEnt), PerIndex(cbKey)) && FlattenKids(kids) == recs
    && ReadsMore(InHeap(h), InHeap(g))
    && |g| + |ls| <= |h| + 2 * CeilDiv(|recs|, PerLeaf(cbKey, cbEnt)) && 1 <= |ls| <= LevelBound(levels)
  }

  lemma ClimbStart(h: Heap, g: Heap, ls: seq<PageRef>, rs: seq<Record>, cbKey: byte, cbEnt: byte)
    requires 1 <= cbKey <= 8 && rs != [] && HeapOk(g) && |g| <= MAX_BLOCKS
    requires LeafLevel(h, g, ls, rs, PerLeaf(cbKey, cbEnt), cbKey, cbEnt)
    ensures Climbing(h, g, 0, ls, LeafKids(RecsOf(rs), PerLeaf(cbKey, cbEnt)), RecsOf(rs), cbKey, cbEnt)
  {
    hide LeafKids, OrderedKids, WithinKids, FlattenKids, PerLeaf, PerIndex, CeilDiv, RecsOf, ParseKids, ReadsMore, Count;
    var per := PerLeaf(cbKey, cbEnt);
    PageSizes(cbKey, cbEnt);
    LeafKidsCorrect(RecsOf(rs), per, PerIndex(cbKey));
    CountBound(g);
    CutCount(|rs|, per, 0);
  }

  lemma ClimbStep(h: Heap, f: Heap, g: Heap, levels: nat, ls: seq<PageRef>, next: seq<PageRef>, kids: seq<Tree>, recs: seq<Rec>,
                  cbKey: byte, cbEnt: byte)
    requires 1 <= cbKey <= 8 && |ls| > 1 && Climbing(h, f, levels, ls, kids, recs, cbKey, cbEnt)
    requires Progress(f, g, next, cbKey) && |next| == CeilDiv(|ls|, PerIndex(cbKey))
    requires PerIndex(cbKey) > 0 && LevelOf(g, levels + 1, next, GroupKids(kids, PerIndex(cbKey)), cbKey, cbEnt)
    ensures Climbing(h, g, levels + 1, next, GroupKids(kids, PerIndex(cbKey)), recs, cbKey, cbEnt)
  {
    hide GroupKids, OrderedKids, WithinKids, FlattenKids, PerLeaf, PerIndex, CeilDiv, LevelOf, ReadsMore, Count, InHeap;
    PageSizes(cbKey, cbEnt);
    GroupKidsCorrect(kids, PerLeaf(cbKey, cbEnt), PerIndex(cbKey));
    HalfAtMost(|ls|, PerIndex(cbKey));
    LevelShrinks(|ls|, PerIndex(cbKey), levels);
    CutCount(|ls|, PerIndex(cbKey), 0);
    CoversTransitive(InHeap(h), InHeap(f), InHeap(g));
  }

  lemma ClimbEnd(h: Heap, f: Heap, g: Heap, levels: byte, ls: seq<PageRef>, kids: seq<Tree>, rs: seq<Record>, cbKey: byte, cbEnt: byte,
                 hid: nat)
    requires 1 <= cbKey <= 8 && |ls| == 1 && Climbing(h, f, levels, ls, kids, RecsOf(SortBy(rs, ByKey())), cbKey, cbEnt)
    requires Added(f, g, Header(cbKey, cbEnt, levels, ls[0].hid), hid) && IsHid(hid)
    ensures Built(h, g, hid, rs, cbKey, cbEnt)
  {
    hide OrderedKids, WithinKids, FlattenKids, PerLeaf, PerIndex, CeilDiv, ParseKids, ReadsMore, Count, InHeap, Header, Holds, IsHid, SortBy;
    CoversTransitive(InHeap(h), InHeap(f), InHeap(g));
    ParseKidsCovers(InHeap(f), InHeap(g), levels, BranchesOf(ls), cbKey, cbEnt);
    HeaderHolds(InHeap(g), hid, cbKey, cbEnt, levels, ls, kids, RecsOf(SortBy(rs, ByKey())), PerLeaf(cbKey, cbEnt), PerIndex(cbKey));
  }

  lemma EmptyBuilt(h: Heap, g: Heap, hid: nat, cbKey: byte, cbEnt: byte)
    requires cbKey + cbEnt > 0 && Added(h, g, Header(cbKey, cbEnt, 0, 0), hid) && IsHid(hid)
    ensures Built(h, g, hid, [], cbKey, cbEnt)
  {
    hide Header, ReadsMore;
    EmptyHolds(InHeap(g), hid, cbKey, cbEnt, PerLeaf(cbKey, cbEnt), PerIndex(cbKey));
  }

  lemma SortedSized(rs: seq<Record>, cbKey: nat, cbEnt: nat)
    requires Sized(rs, cbKey, cbEnt)
    ensures Sized(SortBy(rs, ByKey()), cbKey, cbEnt)
  {
    var sorted := SortBy(rs, ByKey());
    forall i | 0 <= i < |sorted| ensures |sorted[i].key| == cbKey && |sorted[i].value| == cbEnt {
      SameMember(sorted, rs, sorted[i]);
    }
  }

  lemma ClimbRoom(h: Heap, g: Heap, levels: nat, ls: seq<PageRef>, kids: seq<Tree>, recs: seq<Rec>, cbKey: nat, cbEnt: nat)
    requires cbKey + cbEnt > 0 && Climbing(h, g, levels, ls, kids, recs, cbKey, cbEnt)
    ensures |g| + |ls| <= |h| + MostBlocks(|recs|, cbKey, cbEnt) - 1 && 1 <= |ls| <= LevelBound(levels)
    ensures LevelOf(g, levels, ls, kids, cbKey, cbEnt) && OrderedKids(kids)
    ensures WithinKids(kids, PerLeaf(cbKey, cbEnt), PerIndex(cbKey))
  {
  }

  /** Builds a B-tree over the records and returns its handle. Fails only when the heap
      is out of blocks: three index levels always reach every page a heap can hold, so the
      limit of eight is never met. */
  method BuildBth(hn: AnyHeap, cbKey: byte, cbEnt: byte, records: seq<Record>) returns (r: Result<nat>)
    requires hn.Valid() && Sized(records, cbKey, cbEnt) && cbKey >= 1 && (records != [] ==> cbKey <= 8)
    modifies hn.Objects()
    ensures hn.Kept()
    ensures r.Ok? ==> hn.Valid() && Built(old(hn.Contents()), hn.Contents(), r.value, records, cbKey, cbEnt)
    ensures r.Err? ==> |old(hn.Contents())| + MostBlocks(|records|, cbKey, cbEnt) > MAX_BLOCKS
    ensures r.Ok? && records == [] ==> Added(old(hn.Contents()), hn.Contents(), Header(cbKey, cbEnt, 0, 0), r.value)
    ensures r.Ok? ==> Ownership.Passes(old(hn.Held()), hn.Held())
  {
    hide Ndb.NdbWriter.Valid, hn.Valid, hn.Contents, Added, Built, Climbing, LeafLevel, LevelOf, Progress, CeilDiv, PerLeaf, PerIndex,
         SortBy, Sized, RecsOf, LeafKids, GroupKids, OrderedKids, WithinKids, Header, HeapOk, hn.Held, Ownership.Passes;
    var rs := SortBy(records, ByKey());
    SortedSized(records, cbKey, cbEnt);
    hn.ValidBelow();
    if |rs| == 0 {
      r := hn.Alloc(Header(cbKey, cbEnt, 0, 0));
      if r.Ok? { EmptyBuilt(old(hn.Contents()), hn.Contents(), r.value, cbKey, cbEnt); }
      return;
    }
    PageSizes(cbKey, cbEnt);
    var perLeaf, perIndex := PerLeaf(cbKey, cbEnt), PerIndex(cbKey);
    var leaves := BuildLeaves(hn, cbKey, cbEnt, rs, perLeaf);
    if leaves.Err? {
      return Err(leaves.reason);
    }
    hn.ValidHeap();
    var ls := leaves.value;
    ghost var recs, kids := RecsOf(rs), LeafKids(RecsOf(rs), perLeaf);
    ClimbStart(old(hn.Contents()), hn.Contents(), ls, rs, cbKey, cbEnt);
    var levels: byte := 0;
    while |ls| > 1
      invariant hn.Kept() && hn.Valid() && levels <= 3
      invariant Climbing(old(hn.Contents()), hn.Contents(), levels, ls, kids, recs, cbKey, cbEnt)
      invariant Ownership.Passes(old(hn.Held()), hn.Held())
      decreases |ls|
    {
      ghost var before, held := hn.Contents(), hn.Held();
      ClimbRoom(old(hn.Contents()), before, levels, ls, kids, recs, cbKey, cbEnt);
      HalfAtMost(|ls|, perIndex);
      var next := BuildLevel(hn, cbKey, cbEnt, ls, perIndex, levels, kids, perLeaf);
      if next.Err? {
        return Err(next.reason);
      }
      ClimbStep(old(hn.Contents()), before, hn.Contents(), levels, ls, next.value, kids, recs, cbKey, cbEnt);
      Ownership.PassesThen(old(hn.Held()), held, hn.Held());
      kids := GroupKids(kids, perIndex);
      ls := next.value;
      levels := levels + 1;
      if levels > 8 {
        assert false;
        return Err("BTH grew beyond 8 index levels");
      }
    }
    ghost var before, held := hn.Contents(), hn.Held();
    ClimbRoom(old(hn.Contents()), before, levels, ls, kids, recs, cbKey, cbEnt);
    r := hn.Alloc(Header(cbKey, cbEnt, levels, ls[0].hid));
    if r.Ok? {
      Ownership.PassesThen(old(hn.Held()), held, hn.Held());
      ClimbEnd(old(hn.Contents()), before, hn.Contents(), levels, ls, kids, records, cbKey, cbEnt, r.value);
    }
  }
}
