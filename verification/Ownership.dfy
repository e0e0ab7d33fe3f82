/** Who refers to a block: a data tree's XBLOCKs, a subnode tree's entries, or a node. Every
    operation of the NDB writer keeps a law of conservation: the blocks it adds and the
    blocks it is handed are the ones it refers to and the ones it hands back. */
module Ownership {
  import opened Bytes
  import opened Sorting
  import opened DataTree
  import opened SubnodeTree

  // ----------------------------------------------------- references on file

  /** A reference that may be absent. */
  function Ref(bid: nat): multiset<nat> { if bid == 0 then multiset{} else multiset{bid} }

  function EntryRefs(e: SubEntry): multiset<nat> { multiset{e.data} + Ref(e.sub) }

  function EntriesRefs(es: seq<SubEntry>): multiset<nat> {
    if es == [] then multiset{} else EntriesRefs(es[..|es| - 1]) + EntryRefs(es[|es| - 1])
  }

  /** The entries of an SLBLOCK, read from its bytes. */
  function SlEntries(p: Buf): (es: seq<SubEntry>) {
    seq(Peek16At(p, 2), i requires 0 <= i => SubEntry(Peek64At(p, 8 + 24 * i), Peek64At(p, 16 + 24 * i), Peek64At(p, 24 + 24 * i)))
  }

  function Bids(cs: seq<Child>): (ids: seq<nat>)
    ensures |ids| == |cs| && forall i :: 0 <= i < |cs| ==> ids[i] == cs[i].bid
  {
    seq(|cs|, i requires 0 <= i < |cs| => cs[i].bid)
  }

  /** The blocks a block refers to, read from its bytes. */
  function Refs(bid: nat, p: Buf): multiset<nat> {
    if !IsInternal(bid) || |p| < 8 then multiset{}
    else if p[0] == 1 then multiset(XChildren(p))
    else if p[1] == 0 then EntriesRefs(SlEntries(p))
    else multiset(Bids(SiChildren(p)))
  }

  /** All references among the blocks. */
  function AllRefs(blocks: Store, order: seq<nat>): multiset<nat>
    requires forall b :: b in order ==> b in blocks
  {
    if order == [] then multiset{}
    else
      var n := |order| - 1;
      AllRefs(blocks, order[..n]) + Refs(order[n], blocks[order[n]])
  }

  ghost predicate BackwardAt(blocks: Store, order: seq<nat>, i: nat)
    requires i < |order| && order[i] in blocks
  {
    Within(Refs(order[i], blocks[order[i]]), order[..i])
  }

  /** Every reference is to a block written before. */
  ghost predicate Backward(blocks: Store, order: seq<nat>)
    requires forall b :: b in order ==> b in blocks
  {
    forall i :: 0 <= i < |order| ==> BackwardAt(blocks, order, i)
  }

  predicate Within(bag: multiset<nat>, order: seq<nat>) { forall c :: c in bag ==> c in order }

  // ---------------------------------------------------- the law of conservation

  ghost predicate Present(blocks: Store, order: seq<nat>) { forall b :: b in order ==> b in blocks }

  /** From one state to a later one, taking in the blocks `taken` and giving back `given`. */
  ghost predicate Law(oldBlocks: Store, oldOrder: seq<nat>, blocks: Store, order: seq<nat>, taken: multiset<nat>, given: multiset<nat>) {
    && Present(oldBlocks, oldOrder) && Present(blocks, order) && oldOrder <= order
    && multiset(order[|oldOrder|..]) + taken + AllRefs(oldBlocks, oldOrder) == AllRefs(blocks, order) + given
    && (Backward(oldBlocks, oldOrder) && Within(taken, oldOrder) ==> Backward(blocks, order) && Within(given, order))
  }

  lemma NothingDone(blocks: Store, order: seq<nat>)
    requires Present(blocks, order)
    ensures Law(blocks, order, blocks, order, multiset{}, multiset{})
  {
    assert order[|order|..] == [];
  }

  lemma BagSums(newA: multiset<nat>, newB: multiset<nat>, a: multiset<nat>, b: multiset<nat>, c: multiset<nat>, takenA: multiset<nat>,
                takenB: multiset<nat>, givenA: multiset<nat>, givenB: multiset<nat>, extra: multiset<nat>, keep: multiset<nat>)
    requires newA + takenA + a == b + givenA && newB + takenB + b == c + givenB && givenA + extra == takenB + keep
    ensures newA + newB + (takenA + extra) + a == c + (givenB + keep)
  {
    forall x: nat ensures (newA + newB + (takenA + extra) + a)[x] == (c + (givenB + keep))[x] {
      assert (newA + takenA + a)[x] == (b + givenA)[x];
      assert (newB + takenB + b)[x] == (c + givenB)[x];
      assert (givenA + extra)[x] == (takenB + keep)[x];
    }
  }

  /** One operation after another: what the first gives back, and more if need be, is what
      the second takes, and what is kept besides. */
  lemma LawThen(b0: Store, o0: seq<nat>, b1: Store, o1: seq<nat>, b2: Store, o2: seq<nat>, takenA: multiset<nat>, givenA: multiset<nat>,
                takenB: multiset<nat>, givenB: multiset<nat>, extra: multiset<nat>, keep: multiset<nat>)
    requires Law(b0, o0, b1, o1, takenA, givenA) && Law(b1, o1, b2, o2, takenB, givenB) && givenA + extra == takenB + keep
    ensures Law(b0, o0, b2, o2, takenA + extra, givenB + keep)
  {
    hide AllRefs, Backward;
    assert o2[|o0|..] == o1[|o0|..] + o2[|o1|..];
    BagSums(multiset(o1[|o0|..]), multiset(o2[|o1|..]), AllRefs(b0, o0), AllRefs(b1, o1), AllRefs(b2, o2), takenA, takenB, givenA, givenB,
            extra, keep);
    if Within(takenA + extra, o0) && Backward(b0, o0) {
      WithinParts(takenA, extra, o0);
      WithinLater(extra, o0, o1);
      WithinSum(givenA, extra, o1);
      assert Within(takenB + keep, o1);
      WithinParts(takenB, keep, o1);
      WithinLater(keep, o1, o2);
      WithinSum(givenB, keep, o2);
    }
  }

  lemma WithinParts(a: multiset<nat>, b: multiset<nat>, order: seq<nat>)
    requires Within(a + b, order)
    ensures Within(a, order) && Within(b, order)
  {
    assert forall c :: c in a ==> c in a + b;
    assert forall c :: c in b ==> c in a + b;
  }

  lemma WithinSum(a: multiset<nat>, b: multiset<nat>, order: seq<nat>)
    requires Within(a, order) && Within(b, order)
    ensures Within(a + b, order)
  {
  }

  lemma WithinLater(a: multiset<nat>, o: seq<nat>, p: seq<nat>)
    requires Within(a, o) && o <= p
    ensures Within(a, p)
  {
    assert forall c :: c in o ==> c in p;
  }

  // ---------------------------------------------------------- single blocks

  lemma {:induction false} AllRefsKept(a: Store, b: Store, order: seq<nat>)
    requires Present(a, order) && Extends(a, b)
    ensures Present(b, order) && AllRefs(b, order) == AllRefs(a, order)
  {
    hide Refs;
    if order != [] {
      AllRefsKept(a, b, order[..|order| - 1]);
      assert order[|order| - 1] in order;
    }
  }

  lemma AllRefsSnoc(blocks: Store, order: seq<nat>, bid: nat, p: Buf)
    requires Present(blocks, order) && bid !in blocks
    ensures Present(blocks[bid := p], order + [bid])
    ensures AllRefs(blocks[bid := p], order + [bid]) == AllRefs(blocks, order) + Refs(bid, p)
  {
    hide Refs;
    AllRefsKept(blocks, blocks[bid := p], order);
    assert (order + [bid])[..|order|] == order;
    assert forall b :: b in order + [bid] <==> b in order || b == bid;
  }

  lemma BackwardSnoc(blocks: Store, order: seq<nat>, bid: nat, p: Buf)
    requires Present(blocks, order) && bid !in blocks && Present(blocks[bid := p], order + [bid])
    requires Backward(blocks, order) && Within(Refs(bid, p), order)
    ensures Backward(blocks[bid := p], order + [bid])
  {
    hide Refs, Within;
    var now, all := blocks[bid := p], order + [bid];
    forall i | 0 <= i < |all| ensures BackwardAt(now, all, i) {
      if i < |order| {
        assert BackwardAt(blocks, order, i) && order[i] in order;
        assert all[i] == order[i] && all[..i] == order[..i];
      } else {
        assert all[..i] == order;
      }
    }
  }

  /** A block added: it takes what it refers to, and gives itself. */
  lemma LawBlock(blocks: Store, order: seq<nat>, bid: nat, p: Buf)
    requires Present(blocks, order) && bid !in blocks
    ensures Law(blocks, order, blocks[bid := p], order + [bid], Refs(bid, p), multiset{bid})
  {
    hide Refs, AllRefs, Backward;
    var all := order + [bid];
    AllRefsSnoc(blocks, order, bid, p);
    assert all[|order|..] == [bid];
    if Backward(blocks, order) && Within(Refs(bid, p), order) {
      BackwardSnoc(blocks, order, bid, p);
      assert all[|order|] == bid;
    }
  }

  lemma LeafRefs(bid: nat, p: Buf)
    requires !IsInternal(bid)
    ensures Refs(bid, p) == multiset{}
  {
  }

  lemma XRefs(bid: nat, level: byte, children: seq<nat>, total: nat)
    requires IsInternal(bid) && |children| <= X_FANOUT && total < U32 && forall i :: 0 <= i < |children| ==> children[i] < U64
    ensures Refs(bid, XBlock(level, children, total)) == multiset(children)
  {
    hide Put64s, Put16, Put32, XChildren, Peek16At;
    XBlockReads(level, children, total);
  }

  lemma {:induction false} EntriesRefsConcat(a: seq<SubEntry>, b: seq<SubEntry>)
    ensures EntriesRefs(a + b) == EntriesRefs(a) + EntriesRefs(b)
  {
    hide EntryRefs;
    if b == [] {
      assert a + b == a;
    } else {
      var n := |b| - 1;
      assert (a + b)[..|a| + n] == a + b[..n];
      EntriesRefsConcat(a, b[..n]);
    }
  }

  lemma OneEntryRefs(e: SubEntry)
    ensures EntriesRefs([e]) == EntryRefs(e)
  {
    assert [e][..0] == [];
  }

  lemma {:induction false} InsertRefs(x: SubEntry, s: seq<SubEntry>)
    ensures EntriesRefs(Insert(x, s, NidKey())) == EntriesRefs(s) + EntryRefs(x)
  {
    hide EntryRefs, EntriesRefs, NidKey;
    OneEntryRefs(x);
    if s == [] || NidKey()(x) <= NidKey()(s[0]) {
      EntriesRefsConcat([x], s);
      assert [x] + [] == [x];
    } else {
      InsertRefs(x, s[1..]);
      OneEntryRefs(s[0]);
      EntriesRefsConcat([s[0]], Insert(x, s[1..], NidKey()));
      EntriesRefsConcat([s[0]], s[1..]);
      assert s == [s[0]] + s[1..];
    }
  }

  lemma {:induction false} SortedRefs(s: seq<SubEntry>)
    ensures EntriesRefs(SortBy(s, NidKey())) == EntriesRefs(s)
  {
    hide EntryRefs, EntriesRefs, NidKey, Insert;
    if s == [] {
    } else {
      SortedRefs(s[1..]);
      InsertRefs(s[0], SortBy(s[1..], NidKey()));
      OneEntryRefs(s[0]);
      EntriesRefsConcat([s[0]], s[1..]);
      assert s == [s[0]] + s[1..];
    }
  }

  lemma SlRefs(bid: nat, es: seq<SubEntry>)
    requires IsInternal(bid) && |es| <= SL_FANOUT && forall i :: 0 <= i < |es| ==> Fits(es[i])
    ensures Refs(bid, SlBlock(es)) == EntriesRefs(es)
  {
    hide SlBlock, EntriesRefs, SlEntries, IsInternal, Fits;
    SlBytes(es);
    SlEntriesRead(es);
  }

  lemma SlEntriesRead(es: seq<SubEntry>)
    requires |es| <= SL_FANOUT && forall i :: 0 <= i < |es| ==> Fits(es[i])
    ensures SlEntries(SlBlock(es)) == es
  {
    hide SlBlock, Peek64At, Peek16At, Fits;
    SlCount(es);
    forall i | 0 <= i < |es| ensures SlEntries(SlBlock(es))[i] == es[i] {
      SlEntryFields(es, i);
    }
  }

  lemma SlBytes(es: seq<SubEntry>)
    ensures |SlBlock(es)| >= 8 && SlBlock(es)[0] == 2 && SlBlock(es)[1] == 0
  {
    hide Put16, Put32, EntriesBytes;
  }

  lemma SlEntryFields(es: seq<SubEntry>, i: nat)
    requires i < |es| && Fits(es[i])
    ensures Peek64At(SlBlock(es), 8 + 24 * i) == es[i].nid && Peek64At(SlBlock(es), 16 + 24 * i) == es[i].data
    ensures Peek64At(SlBlock(es), 24 + 24 * i) == es[i].sub
  {
    hide Put16, Put32, Put64, EntriesBytes, Peek;
    var p, q, e := SlBlock(es), EntriesBytes(es), es[i];
    EntriesAt(es, i);
    PeekPut64(e.nid);
    PeekPut64(e.data);
    PeekPut64(e.sub);
    SliceRight([2, 0] + Put16(|es|) + Put32(0), q, 24 * i, 24 * i + 24);
    var r := p[8 + 24 * i..32 + 24 * i];
    assert r == EntryBytes(e);
    SliceOfSlice(p, 8 + 24 * i, 32 + 24 * i, 0, 8);
    SliceOfSlice(p, 8 + 24 * i, 32 + 24 * i, 8, 16);
    SliceOfSlice(p, 8 + 24 * i, 32 + 24 * i, 16, 24);
    assert r[0..8] == Put64(e.nid) && r[8..16] == Put64(e.data) && r[16..24] == Put64(e.sub);
  }

  lemma SiRefs(bid: nat, cs: seq<Child>)
    requires IsInternal(bid) && |cs| <= SI_FANOUT && forall i :: 0 <= i < |cs| ==> cs[i].key < U64 && cs[i].bid < U64
    ensures Refs(bid, SiBlock(cs)) == multiset(Bids(cs))
  {
    hide SiBlock, SiChildren, Peek16At;
    SiBytes(cs);
    SiReads(cs);
  }

  lemma SiBytes(cs: seq<Child>)
    ensures |SiBlock(cs)| >= 8 && SiBlock(cs)[0] == 2 && SiBlock(cs)[1] == 1
  {
    hide Put16, Put32, ChildrenBytes;
  }

  // -------------------------------------------------------- the law in use

  lemma LawLeaf(b: Store, o: seq<nat>, bid: nat, p: Buf)
    requires Present(b, o) && bid !in b && !IsInternal(bid)
    ensures Law(b, o, b[bid := p], o + [bid], multiset{}, multiset{bid})
  {
    hide Law, Refs;
    LeafRefs(bid, p);
    LawBlock(b, o, bid, p);
  }

  lemma LawX(b: Store, o: seq<nat>, bid: nat, level: byte, children: seq<nat>, total: nat)
    requires Present(b, o) && bid !in b && IsInternal(bid) && |children| <= X_FANOUT && total < U32
    requires forall i :: 0 <= i < |children| ==> children[i] < U64
    ensures Law(b, o, b[bid := XBlock(level, children, total)], o + [bid], multiset(children), multiset{bid})
  {
    hide Law, Refs, XBlock;
    XRefs(bid, level, children, total);
    LawBlock(b, o, bid, XBlock(level, children, total));
  }

  lemma LawSl(b: Store, o: seq<nat>, bid: nat, es: seq<SubEntry>)
    requires Present(b, o) && bid !in b && IsInternal(bid) && |es| <= SL_FANOUT && AllFit(es)
    ensures Law(b, o, b[bid := SlBlock(es)], o + [bid], EntriesRefs(es), multiset{bid})
  {
    hide Law, Refs, SlBlock, EntriesRefs;
    SlRefs(bid, es);
    LawBlock(b, o, bid, SlBlock(es));
  }

  lemma LawSi(b: Store, o: seq<nat>, bid: nat, cs: seq<Child>)
    requires Present(b, o) && bid !in b && IsInternal(bid) && |cs| <= SI_FANOUT
    requires forall i :: 0 <= i < |cs| ==> cs[i].key < U64 && cs[i].bid < U64
    ensures Law(b, o, b[bid := SiBlock(cs)], o + [bid], multiset(Bids(cs)), multiset{bid})
  {
    hide Law, Refs, SiBlock, Bids;
    SiRefs(bid, cs);
    LawBlock(b, o, bid, SiBlock(cs));
  }

  lemma LawPass(b: Store, o: seq<nat>, x: multiset<nat>)
    requires Present(b, o)
    ensures Law(b, o, b, o, x, x)
  {
    NothingDone(b, o);
  }

  /** One more block beside the ones given back so far. */
  lemma LawCollect(b0: Store, o0: seq<nat>, b1: Store, o1: seq<nat>, b2: Store, o2: seq<nat>, done: multiset<nat>, ids: seq<nat>,
                   more: multiset<nat>, bid: nat)
    requires Law(b0, o0, b1, o1, done, multiset(ids)) && Law(b1, o1, b2, o2, more, multiset{bid})
    ensures Law(b0, o0, b2, o2, done + more, multiset(ids + [bid]))
  {
    hide Law;
    LawThen(b0, o0, b1, o1, b2, o2, done, multiset(ids), more, multiset{bid}, more, multiset(ids));
    assert multiset{bid} + multiset(ids) == multiset(ids + [bid]);
  }

  /** One more leaf beside them. */
  lemma LawAnother(b0: Store, o0: seq<nat>, b1: Store, o1: seq<nat>, b2: Store, o2: seq<nat>, done: multiset<nat>, ids: seq<nat>, bid: nat)
    requires Law(b0, o0, b1, o1, done, multiset(ids)) && Law(b1, o1, b2, o2, multiset{}, multiset{bid})
    ensures Law(b0, o0, b2, o2, done, multiset(ids + [bid]))
  {
    hide Law;
    LawCollect(b0, o0, b1, o1, b2, o2, done, ids, multiset{}, bid);
    assert done + multiset{} == done;
  }

  /** What was given back goes into the next block. */
  lemma LawFinish(b0: Store, o0: seq<nat>, b1: Store, o1: seq<nat>, b2: Store, o2: seq<nat>, taken: multiset<nat>, ids: multiset<nat>,
                  root: multiset<nat>)
    requires Law(b0, o0, b1, o1, taken, ids) && Law(b1, o1, b2, o2, ids, root)
    ensures Law(b0, o0, b2, o2, taken, root)
  {
    hide Law;
    LawThen(b0, o0, b1, o1, b2, o2, taken, ids, ids, root, multiset{}, multiset{});
    assert taken + multiset{} == taken && root + multiset{} == root;
  }

  lemma BidsSnoc(cs: seq<Child>, c: Child)
    ensures Bids(cs + [c]) == Bids(cs) + [c.bid] && Bids([]) == []
  {
  }

  lemma SliceBags(ids: seq<nat>, i: nat, n: nat)
    requires i + n <= |ids|
    ensures multiset(ids[..i + n]) == multiset(ids[..i]) + multiset(ids[i..i + n])
    ensures ids[..0] == []
  {
    assert ids[..i + n] == ids[..i] + ids[i..i + n];
  }

  lemma SliceEntries(es: seq<SubEntry>, i: nat, n: nat)
    requires i + n <= |es|
    ensures EntriesRefs(es[..i + n]) == EntriesRefs(es[..i]) + EntriesRefs(es[i..i + n])
    ensures EntriesRefs(es[..0]) == multiset{}
  {
    hide EntryRefs;
    assert es[..i + n] == es[..i] + es[i..i + n];
    EntriesRefsConcat(es[..i], es[i..i + n]);
  }

  // ------------------------------------------------------------ whole files

  lemma LawEntry(b0: Store, o0: seq<nat>, b1: Store, o1: seq<nat>, b2: Store, o2: seq<nat>, es: seq<SubEntry>, nid: nat, data: nat)
    requires Law(b0, o0, b1, o1, multiset{}, EntriesRefs(es)) && Law(b1, o1, b2, o2, multiset{}, multiset{data})
    ensures Law(b0, o0, b2, o2, multiset{}, EntriesRefs(es + [SubEntry(nid, data, 0)]))
  {
    hide Law, EntriesRefs;
    LawBeside(b0, o0, b1, o1, b2, o2, EntriesRefs(es), multiset{data});
    EntriesRefsAdd(es, nid, data);
  }

  lemma EntriesRefsAdd(es: seq<SubEntry>, nid: nat, data: nat)
    ensures EntriesRefs(es + [SubEntry(nid, data, 0)]) == EntriesRefs(es) + multiset{data}
  {
    hide EntriesRefs;
    EntriesRefsConcat(es, [SubEntry(nid, data, 0)]);
    OneEntryRefs(SubEntry(nid, data, 0));
    var none: multiset<nat> := multiset{};
    assert EntryRefs(SubEntry(nid, data, 0)) == multiset{data} + none == multiset{data};
  }

  /** An entry beside those there were. */
  lemma LawEntryMore(b0: Store, o0: seq<nat>, b1: Store, o1: seq<nat>, es: seq<SubEntry>, nid: nat, data: nat)
    requires Law(b0, o0, b1, o1, multiset{}, multiset{data})
    ensures Law(b0, o0, b1, o1, EntriesRefs(es), EntriesRefs(es + [SubEntry(nid, data, 0)]))
  {
    LawPresent(b0, o0, b1, o1, multiset{}, multiset{data});
    hide Law, EntriesRefs;
    var none: multiset<nat> := multiset{};
    LawPass(b0, o0, EntriesRefs(es));
    LawThen(b0, o0, b0, o0, b1, o1, EntriesRefs(es), EntriesRefs(es), none, multiset{data}, none, EntriesRefs(es));
    EntriesRefsAdd(es, nid, data);
    assert EntriesRefs(es) + none == EntriesRefs(es) && multiset{data} + EntriesRefs(es) == EntriesRefs(es) + multiset{data};
  }

  lemma LawPresent(b0: Store, o0: seq<nat>, b1: Store, o1: seq<nat>, taken: multiset<nat>, given: multiset<nat>)
    requires Law(b0, o0, b1, o1, taken, given)
    ensures Present(b0, o0) && Present(b1, o1)
  {
  }

  /** A node's data beside its subnodes' entries, and these made into a tree. */
  lemma LawNode(b0: Store, o0: seq<nat>, b1: Store, o1: seq<nat>, b2: Store, o2: seq<nat>, b3: Store, o3: seq<nat>, x: multiset<nat>,
                y: multiset<nat>, data: nat, sub: nat)
    requires Law(b0, o0, b1, o1, x, y) && Law(b1, o1, b2, o2, multiset{}, multiset{data})
    requires data != 0 && Law(b2, o2, b3, o3, y, Ref(sub))
    ensures Law(b0, o0, b3, o3, x, NodeRefs(data, sub))
  {
    hide Law;
    var none: multiset<nat> := multiset{};
    var root := Ref(sub);
    LawThen(b0, o0, b1, o1, b2, o2, x, y, none, multiset{data}, none, y);
    assert x + none == x && y + none == none + y;
    LawThen(b0, o0, b2, o2, b3, o3, x, multiset{data} + y, y, root, none, multiset{data});
    assert multiset{data} + y + none == y + multiset{data} && root + multiset{data} == NodeRefs(data, sub);
  }

  // --------------------------------------------------------------- holders

  /** The blocks as one holder sees them: those written, in order, and those it holds, which
      no block refers to yet. */
  datatype Holding = Holding(blocks: Store, order: seq<nat>, loose: multiset<nat>)

  /** The law for a holder: what it held and what was added, it holds or has referred to. */
  ghost predicate Passes(a: Holding, b: Holding) { Law(a.blocks, a.order, b.blocks, b.order, a.loose, b.loose) }

  lemma PassesSame(a: Holding)
    requires Present(a.blocks, a.order)
    ensures Passes(a, a)
  {
    hide Law;
    LawPass(a.blocks, a.order, a.loose);
  }

  lemma PassesThen(a: Holding, b: Holding, c: Holding)
    requires Passes(a, b) && Passes(b, c)
    ensures Passes(a, c)
  {
    hide Law;
    LawFinish(a.blocks, a.order, b.blocks, b.order, c.blocks, c.order, a.loose, b.loose, c.loose);
  }

  /** What others hold stays theirs. */
  lemma PassesBeside(a: Holding, b: Holding, more: multiset<nat>)
    requires Passes(a, b)
    ensures Passes(Holding(a.blocks, a.order, a.loose + more), Holding(b.blocks, b.order, b.loose + more))
    ensures Passes(Holding(a.blocks, a.order, more + a.loose), Holding(b.blocks, b.order, more + b.loose))
  {
    hide Law;
    var none: multiset<nat> := multiset{};
    LawPresent(a.blocks, a.order, b.blocks, b.order, a.loose, b.loose);
    LawPass(a.blocks, a.order, a.loose + more);
    assert a.loose + more + none == a.loose + more;
    LawThen(a.blocks, a.order, a.blocks, a.order, b.blocks, b.order, a.loose + more, a.loose + more, a.loose, b.loose, none, more);
    assert a.loose + more == more + a.loose && b.loose + more == more + b.loose;
  }

  /** A leaf written. */
  lemma PassesLeaf(b: Store, o: seq<nat>, bid: nat, p: Buf, held: multiset<nat>)
    requires Present(b, o) && bid !in b && !IsInternal(bid)
    ensures Passes(Holding(b, o, held), Holding(b[bid := p], o + [bid], held + multiset{bid}))
  {
    hide Law;
    var none: multiset<nat> := multiset{};
    LawLeaf(b, o, bid, p);
    PassesBeside(Holding(b, o, none), Holding(b[bid := p], o + [bid], multiset{bid}), held);
    assert none + held == held && multiset{bid} + held == held + multiset{bid};
  }

  /** Two operations that take nothing. */
  lemma LawBeside(b0: Store, o0: seq<nat>, b1: Store, o1: seq<nat>, b2: Store, o2: seq<nat>, a: multiset<nat>, b: multiset<nat>)
    requires Law(b0, o0, b1, o1, multiset{}, a) && Law(b1, o1, b2, o2, multiset{}, b)
    ensures Law(b0, o0, b2, o2, multiset{}, a + b)
  {
    hide Law;
    var none: multiset<nat> := multiset{};
    assert a + none == none + a;
    LawThen(b0, o0, b1, o1, b2, o2, none, a, none, b, none, a);
    assert none + none == none && b + a == a + b;
  }

  /** Data beside subnodes, and the subnodes made into a tree. */
  lemma LawSubtree(b0: Store, o0: seq<nat>, b1: Store, o1: seq<nat>, b2: Store, o2: seq<nat>, subs: multiset<nat>, data: multiset<nat>,
                   root: multiset<nat>)
    requires Law(b0, o0, b1, o1, multiset{}, subs + data) && Law(b1, o1, b2, o2, subs, root)
    ensures Law(b0, o0, b2, o2, multiset{}, data + root)
  {
    hide Law;
    var none: multiset<nat> := multiset{};
    assert subs + data + none == subs + data;
    LawThen(b0, o0, b1, o1, b2, o2, none, subs + data, subs, root, none, data);
    assert none + none == none && root + data == data + root;
  }

  /** What a node refers to: its data and its subnodes, where it has them. */
  function NodeRefs(data: nat, sub: nat): multiset<nat> { Ref(data) + Ref(sub) }

  /** The references of a list of nodes. */
  function NodesRefs(nodes: seq<(nat, nat)>): multiset<nat> {
    if nodes == [] then multiset{} else NodesRefs(nodes[..|nodes| - 1]) + NodeRefs(nodes[|nodes| - 1].0, nodes[|nodes| - 1].1)
  }

  lemma NodesRefsSnoc(nodes: seq<(nat, nat)>, n: (nat, nat))
    ensures NodesRefs(nodes + [n]) == NodesRefs(nodes) + NodeRefs(n.0, n.1) && NodesRefs([]) == multiset{}
  {
    assert (nodes + [n])[..|nodes|] == nodes;
  }

  /** The blocks of a file are a forest under its nodes: `order` lists each once, what is
      referred to is exactly the blocks, each once, and only by later blocks or nodes. */
  ghost predicate Forest(blocks: Store, order: seq<nat>, nodes: seq<(nat, nat)>) {
    && Present(blocks, order) && (forall b :: b in blocks ==> b in order)
    && (forall i, j :: 0 <= i < j < |order| ==> order[i] < order[j])
    && multiset(order) == AllRefs(blocks, order) + NodesRefs(nodes)
    && Backward(blocks, order)
  }

  lemma ForestOf(blocks: Store, order: seq<nat>, nodes: seq<(nat, nat)>)
    requires Law(map[], [], blocks, order, multiset{}, NodesRefs(nodes)) && (forall b :: b in blocks ==> b in order)
    requires forall i, j :: 0 <= i < j < |order| ==> order[i] < order[j]
    ensures Forest(blocks, order, nodes)
  {
    hide NodesRefs, Refs;
    assert order[0..] == order;
  }

  /** Every block has one owner, and every reference leads to a block. */
  lemma OwnedOnce(blocks: Store, order: seq<nat>, nodes: seq<(nat, nat)>, b: nat)
    requires Forest(blocks, order, nodes)
    ensures (AllRefs(blocks, order) + NodesRefs(nodes))[b] == if b in blocks then 1 else 0
  {
    hide AllRefs, NodesRefs, Backward;
    assert multiset(order)[b] == if b in blocks then 1 else 0 by {
      if b in blocks {
        var i :| 0 <= i < |order| && order[i] == b;
        assert order == order[..i] + [b] + order[i + 1..];
        assert b !in order[..i] && b !in order[i + 1..];
      } else {
        assert b !in order;
      }
    }
  }

  /** A child is older than its parent: its id is smaller. */
  lemma ChildOlder(blocks: Store, order: seq<nat>, nodes: seq<(nat, nat)>, parent: nat, child: nat)
    requires Forest(blocks, order, nodes) && parent in blocks && child in Refs(parent, blocks[parent])
    ensures child in blocks && child < parent
  {
    hide AllRefs, NodesRefs, Refs;
    var i :| 0 <= i < |order| && order[i] == parent;
    assert BackwardAt(blocks, order, i);
    var j :| 0 <= j < i && order[..i][j] == child;
  }
}
