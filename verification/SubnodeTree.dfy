/** The subnode B-tree of a node: SLBLOCKs and at most one level of SIBLOCK over them
    ([MS-PST] section 2.2.2.8.3.3). */
module SubnodeTree {
  import opened Bytes
  import opened Wrappers
  import opened SearchTree
  import opened DataTree
  import opened Sorting

  const SL_FANOUT: nat := 340
  /** (8176 - 8) / 16; the source's comment says 511. */
  const SI_FANOUT: nat := 510

  datatype SubEntry = SubEntry(nid: nat, data: nat, sub: nat)

  function EntryBytes(e: SubEntry): (s: Buf)
    ensures |s| == 24
  {
    Put64(e.nid) + Put64(e.data) + Put64(e.sub)
  }

  function EntriesBytes(es: seq<SubEntry>): (s: Buf)
    ensures |s| == 24 * |es|
  {
    if es == [] then [] else EntriesBytes(es[..|es| - 1]) + EntryBytes(es[|es| - 1])
  }

  function SlBlock(es: seq<SubEntry>): (s: Buf)
    ensures |s| == 8 + 24 * |es|
  {
    [2, 0] + Put16(|es|) + Put32(0) + EntriesBytes(es)
  }

  datatype Child = Child(key: nat, bid: nat)

  function ChildrenBytes(cs: seq<Child>): (s: Buf)
    ensures |s| == 16 * |cs|
  {
    if cs == [] then [] else ChildrenBytes(cs[..|cs| - 1]) + (Put64(cs[|cs| - 1].key) + Put64(cs[|cs| - 1].bid))
  }

  function SiBlock(cs: seq<Child>): (s: Buf)
    ensures |s| == 8 + 16 * |cs|
  {
    [2, 1] + Put16(|cs|) + Put32(0) + ChildrenBytes(cs)
  }

  // ------------------------------------------------------------ the reader

  predicate GoodSub(blocks: Store, bid: nat, level: nat, size: nat) {
    && bid in blocks && IsInternal(bid)
    && var p := blocks[bid];
    && |p| >= 8 && p[0] == 2 && p[1] == level && |p| == 8 + size * Peek16At(p, 2)
  }

  function SlRecs(p: Buf): (rs: seq<Rec>) {
    seq(Peek16At(p, 2), i requires 0 <= i => Rec(Peek64At(p, 8 + 24 * i), Sub(p, 8 + 24 * i, 24)))
  }

  function SiChildren(p: Buf): (cs: seq<Child>) {
    seq(Peek16At(p, 2), i requires 0 <= i => Child(Peek64At(p, 8 + 16 * i), Peek64At(p, 16 + 16 * i)))
  }

  function ParseSl(blocks: Store, c: Child): Option<Tree> {
    if GoodSub(blocks, c.bid, 0, 24) then Some(Leaf(c.key, SlRecs(blocks[c.bid]))) else None
  }

  function ParseSls(blocks: Store, cs: seq<Child>): (r: Option<seq<Tree>>)
    ensures r.Some? ==> |r.value| == |cs|
  {
    if cs == [] then Some([])
    else
      match ParseSls(blocks, cs[..|cs| - 1])
      case None => None
      case Some(init) =>
        match ParseSl(blocks, cs[|cs| - 1])
        case None => None
        case Some(t) => Some(init + [t])
  }

  function ParseSub(blocks: Store, bid: nat): Option<Tree> {
    if GoodSub(blocks, bid, 0, 24) then ParseSl(blocks, Child(0, bid))
    else if GoodSub(blocks, bid, 1, 16) then
      match ParseSls(blocks, SiChildren(blocks[bid]))
      case None => None
      case Some(kids) => Some(Node(0, kids))
    else None
  }

  /** The entry a subnode id leads to; a root of zero is the empty tree. */
  function FindSub(blocks: Store, root: nat, nid: nat): Option<SubEntry> {
    if root == 0 then None
    else
      match ParseSub(blocks, root)
      case None => None
      case Some(t) =>
        match Search(t, nid)
        case None => None
        case Some(e) => Some(SubEntry(nid, Peek64At(e, 8), Peek64At(e, 16)))
  }

  // ---------------------------------------------------------------- lemmas

  function SubRec(e: SubEntry): Rec { Rec(e.nid, EntryBytes(e)) }

  function SubRecs(es: seq<SubEntry>): (rs: seq<Rec>)
    ensures |rs| == |es|
  {
    seq(|es|, i requires 0 <= i < |es| => SubRec(es[i]))
  }

  predicate Fits(e: SubEntry) { e.nid < U64 && e.data < U64 && e.sub < U64 }

  lemma EntryReads(e: SubEntry)
    requires Fits(e)
    ensures var b := EntryBytes(e);
            Peek64At(b, 0) == e.nid && Peek64At(b, 8) == e.data && Peek64At(b, 16) == e.sub
  {
    PeekPut64(e.nid); PeekPut64(e.data); PeekPut64(e.sub);
    var b := EntryBytes(e);
    assert b[0..8] == Put64(e.nid) && b[8..16] == Put64(e.data) && b[16..24] == Put64(e.sub);
  }

  lemma {:induction false} EntriesAt(es: seq<SubEntry>, i: nat)
    requires i < |es|
    ensures EntriesBytes(es)[24 * i..24 * i + 24] == EntryBytes(es[i])
  {
    var n := |es| - 1;
    if i < n {
      EntriesAt(es[..n], i);
      assert EntriesBytes(es)[24 * i..24 * i + 24] == EntriesBytes(es[..n])[24 * i..24 * i + 24];
    }
  }

  lemma {:induction false} ChildrenAt(cs: seq<Child>, i: nat)
    requires i < |cs|
    ensures ChildrenBytes(cs)[16 * i..16 * i + 8] == Put64(cs[i].key)
    ensures ChildrenBytes(cs)[16 * i + 8..16 * i + 16] == Put64(cs[i].bid)
  {
    var n := |cs| - 1;
    if i < n {
      ChildrenAt(cs[..n], i);
      assert ChildrenBytes(cs)[16 * i..16 * i + 8] == ChildrenBytes(cs[..n])[16 * i..16 * i + 8];
      assert ChildrenBytes(cs)[16 * i + 8..16 * i + 16] == ChildrenBytes(cs[..n])[16 * i + 8..16 * i + 16];
    }
  }

  lemma SlEntryReads(es: seq<SubEntry>, i: nat)
    requires i < |es| && Fits(es[i])
    ensures Rec(Peek64At(SlBlock(es), 8 + 24 * i), Sub(SlBlock(es), 8 + 24 * i, 24)) == SubRec(es[i])
  {
    var p, q := SlBlock(es), EntriesBytes(es);
    EntriesAt(es, i);
    EntryReads(es[i]);
    hide EntriesBytes, EntryBytes, Peek, Put32, Put64, Fits;
    assert p[8..] == q;
    assert p[8 + 24 * i..32 + 24 * i] == q[24 * i..24 * i + 24];
    SliceOfSlice(p, 8 + 24 * i, 32 + 24 * i, 0, 8);
  }

  lemma SlCount(es: seq<SubEntry>)
    requires |es| <= SL_FANOUT
    ensures Peek16At(SlBlock(es), 2) == |es|
  {
    hide Put32, EntriesBytes;
    assert SlBlock(es)[2..4] == Put16(|es|);
    PeekPut16(|es|);
  }

  lemma SlReads(es: seq<SubEntry>)
    requires |es| <= SL_FANOUT && forall i :: 0 <= i < |es| ==> Fits(es[i])
    ensures Peek16At(SlBlock(es), 2) == |es| && SlRecs(SlBlock(es)) == SubRecs(es)
  {
    hide SlBlock, Peek64At, Peek16At, Sub, Fits, SubRec;
    SlCount(es);
    forall i | 0 <= i < |es|
      ensures Rec(Peek64At(SlBlock(es), 8 + 24 * i), Sub(SlBlock(es), 8 + 24 * i, 24)) == SubRec(es[i])
    {
      SlEntryReads(es, i);
    }
  }

  lemma SiChildReads(cs: seq<Child>, i: nat)
    requires i < |cs| && cs[i].key < U64 && cs[i].bid < U64
    ensures Peek64At(SiBlock(cs), 8 + 16 * i) == cs[i].key
    ensures Peek64At(SiBlock(cs), 16 + 16 * i) == cs[i].bid
  {
    var p, q := SiBlock(cs), ChildrenBytes(cs);
    ChildrenAt(cs, i);
    PeekPut64(cs[i].key);
    PeekPut64(cs[i].bid);
    assert p[8..] == q;
    assert p[8 + 16 * i..16 + 16 * i] == q[16 * i..16 * i + 8];
    assert p[16 + 16 * i..24 + 16 * i] == q[16 * i + 8..16 * i + 16];
  }

  lemma SiCount(cs: seq<Child>)
    requires |cs| <= SI_FANOUT
    ensures Peek16At(SiBlock(cs), 2) == |cs|
  {
    hide Put32, ChildrenBytes;
    assert SiBlock(cs)[2..4] == Put16(|cs|);
    PeekPut16(|cs|);
  }

  lemma SiReads(cs: seq<Child>)
    requires |cs| <= SI_FANOUT && forall i :: 0 <= i < |cs| ==> cs[i].key < U64 && cs[i].bid < U64
    ensures Peek16At(SiBlock(cs), 2) == |cs| && SiChildren(SiBlock(cs)) == cs
  {
    hide SiBlock, Peek64At, Peek16At, Sub;
    SiCount(cs);
    forall i | 0 <= i < |cs|
      ensures Child(Peek64At(SiBlock(cs), 8 + 16 * i), Peek64At(SiBlock(cs), 16 + 16 * i)) == cs[i]
    {
      SiChildReads(cs, i);
    }
  }

  lemma {:induction false} ParseSlsGrow(a: Store, b: Store, cs: seq<Child>)
    requires Extends(a, b) && ParseSls(a, cs).Some?
    ensures ParseSls(b, cs) == ParseSls(a, cs)
  {
    if cs != [] { ParseSlsGrow(a, b, cs[..|cs| - 1]); }
  }

  /** Later blocks never change what a subnode tree says. */
  lemma FindSubGrow(a: Store, b: Store, root: nat, nid: nat)
    requires Extends(a, b) && root != 0 && ParseSub(a, root).Some?
    ensures ParseSub(b, root) == ParseSub(a, root) && FindSub(b, root, nid) == FindSub(a, root, nid)
  {
    if !GoodSub(a, root, 0, 24) { ParseSlsGrow(a, b, SiChildren(a[root])); }
  }

  function NidKey(): SubEntry -> nat { (e: SubEntry) => e.nid }

  /** The simple form: the entry of a list that carries the id. */
  function FindEntry(es: seq<SubEntry>, nid: nat): Option<SubEntry> {
    if es == [] then None
    else if es[0].nid == nid then Some(es[0])
    else FindEntry(es[1..], nid)
  }

  lemma {:induction false} FindEntryMember(es: seq<SubEntry>, nid: nat)
    ensures FindEntry(es, nid).Some? ==> FindEntry(es, nid).value in es && FindEntry(es, nid).value.nid == nid
    ensures FindEntry(es, nid).None? ==> forall e :: e in es ==> e.nid != nid
  {
    if es != [] && es[0].nid != nid {
      FindEntryMember(es[1..], nid);
      assert es == [es[0]] + es[1..];
    }
  }

  lemma {:induction false} FindRecIsEntry(es: seq<SubEntry>, nid: nat)
    requires forall i :: 0 <= i < |es| ==> Fits(es[i])
    ensures match FindEntry(es, nid)
            case None => Find(SubRecs(es), nid) == None
            case Some(e) => Find(SubRecs(es), nid) == Some(EntryBytes(e))
  {
    if es != [] {
      assert SubRecs(es)[1..] == SubRecs(es[1..]);
      FindRecIsEntry(es[1..], nid);
    }
  }

  /** With distinct ids it does not matter in which order a list holds them. */
  lemma FindEntryOrder(a: seq<SubEntry>, b: seq<SubEntry>, nid: nat)
    requires multiset(a) == multiset(b) && DistinctKeys(a, NidKey())
    ensures FindEntry(a, nid) == FindEntry(b, nid)
  {
    FindEntryMember(a, nid);
    FindEntryMember(b, nid);
    if FindEntry(a, nid).Some? {
      SameMember(a, b, FindEntry(a, nid).value);
    }
    if FindEntry(b, nid).Some? {
      SameMember(b, a, FindEntry(b, nid).value);
      var x, y := FindEntry(a, nid).value, FindEntry(b, nid).value;
      var i :| 0 <= i < |a| && a[i] == x;
      var j :| 0 <= j < |a| && a[j] == y;
      assert NidKey()(a[i]) == NidKey()(a[j]);
    }
  }

  /** A parsed subnode tree whose records are the sorted entries answers every lookup
      as the list of entries does. */
  lemma FindSubIsEntry(blocks: Store, root: nat, es: seq<SubEntry>, t: Tree, nid: nat)
    requires root != 0 && ParseSub(blocks, root) == Some(t) && Ordered(t)
    requires DistinctKeys(es, NidKey()) && forall i :: 0 <= i < |es| ==> Fits(es[i])
    requires Flatten(t) == SubRecs(SortBy(es, NidKey()))
    ensures FindSub(blocks, root, nid) == FindEntry(es, nid)
  {
    var s := SortBy(es, NidKey());
    SortByStrict(es, NidKey());
    forall i | 0 <= i < |s| ensures Fits(s[i]) { SameMember(s, es, s[i]); }
    forall i, j | 0 <= i < j < |s| ensures SubRecs(s)[i].key < SubRecs(s)[j].key {
      assert NidKey()(s[i]) < NidKey()(s[j]);
    }
    SearchIsFind(t, nid);
    FindRecIsEntry(s, nid);
    FindEntryOrder(es, s, nid);
    FindEntryMember(s, nid);
    if FindEntry(s, nid).Some? { SameMember(s, es, FindEntry(s, nid).value); EntryReads(FindEntry(s, nid).value); }
  }

  // ------------------------------------------------- what a written tree says

  /** A reader of the subnode tree finds for each id what the list holds under it. */
  ghost predicate SubnodesRead(blocks: Store, root: nat, entries: seq<SubEntry>) {
    && (root != 0 ==> ParseSub(blocks, root).Some?)
    && forall nid: nat :: FindSub(blocks, root, nid) == FindEntry(entries, nid)
  }

  predicate AllFit(entries: seq<SubEntry>) {
    forall i :: 0 <= i < |entries| ==> Fits(entries[i])
  }

  lemma NoSubnodes(blocks: Store)
    ensures SubnodesRead(blocks, 0, [])
  {
  }

  lemma NoSub(blocks: Store, nid: nat)
    ensures FindSub(blocks, 0, nid) == None
  {
  }

  lemma SubnodesGrow(a: Store, b: Store, root: nat, entries: seq<SubEntry>)
    requires Extends(a, b) && SubnodesRead(a, root, entries)
    ensures SubnodesRead(b, root, entries)
  {
    hide ParseSub, FindSub, FindEntry;
    forall nid: nat ensures FindSub(b, root, nid) == FindEntry(entries, nid) {
      assert FindSub(a, root, nid) == FindEntry(entries, nid);
      if root != 0 { FindSubGrow(a, b, root, nid); } else { NoSub(a, nid); NoSub(b, nid); }
    }
    if root != 0 { FindSubGrow(a, b, root, 0); }
  }

  lemma SortedFit(entries: seq<SubEntry>)
    requires AllFit(entries)
    ensures AllFit(SortBy(entries, NidKey()))
  {
    var s := SortBy(entries, NidKey());
    forall i | 0 <= i < |s| ensures Fits(s[i]) { SameMember(s, entries, s[i]); }
  }

  lemma SlParses(blocks: Store, bid: nat, es: seq<SubEntry>, key: nat)
    requires |es| <= SL_FANOUT && AllFit(es)
    requires bid in blocks && IsInternal(bid) && blocks[bid] == SlBlock(es)
    ensures ParseSl(blocks, Child(key, bid)) == Some(Leaf(key, SubRecs(es)))
    ensures ParseSub(blocks, bid) == Some(Leaf(0, SubRecs(es)))
  {
    SlReads(es);
    assert SlBlock(es)[0] == 2 && SlBlock(es)[1] == 0;
    hide SlBlock, SlRecs;
  }

  lemma TreeReads(blocks: Store, root: nat, entries: seq<SubEntry>, t: Tree)
    requires root != 0 && ParseSub(blocks, root) == Some(t) && Ordered(t)
    requires DistinctKeys(entries, NidKey()) && AllFit(entries)
    requires Flatten(t) == SubRecs(SortBy(entries, NidKey()))
    ensures SubnodesRead(blocks, root, entries)
  {
    hide ParseSub, FindSub, FindEntry, SortBy, DistinctKeys, SubRecs, Ordered, Flatten;
    forall nid: nat ensures FindSub(blocks, root, nid) == FindEntry(entries, nid) {
      FindSubIsEntry(blocks, root, entries, t, nid);
    }
  }

  lemma OneLeafReads(blocks: Store, bid: nat, entries: seq<SubEntry>)
    requires |entries| <= SL_FANOUT && bid > 0 && IsInternal(bid) && bid in blocks
    requires blocks[bid] == SlBlock(SortBy(entries, NidKey()))
    requires DistinctKeys(entries, NidKey()) && AllFit(entries)
    ensures SubnodesRead(blocks, bid, entries)
  {
    hide SlBlock, ParseSub, SortBy, DistinctKeys, SubRecs, AllFit, SubnodesRead;
    var s := SortBy(entries, NidKey());
    SortedFit(entries);
    SlParses(blocks, bid, s, 0);
    TreeReads(blocks, bid, entries, Leaf(0, SubRecs(s)));
  }

  /** The children so far parse to the first leaves over the sorted entries. */
  ghost predicate ChildrenHold(blocks: Store, children: seq<Child>, sorted: seq<SubEntry>) {
    && ParseSls(blocks, children).Some?
    && ParseSls(blocks, children).value
       + LeafKids(SubRecs(sorted)[Min(|children| * SL_FANOUT, |sorted|)..], SL_FANOUT)
       == LeafKids(SubRecs(sorted), SL_FANOUT)
  }

  lemma NoChildren(blocks: Store, sorted: seq<SubEntry>)
    ensures ChildrenHold(blocks, [], sorted)
  {
    assert SubRecs(sorted)[0..] == SubRecs(sorted);
    var k := LeafKids(SubRecs(sorted), SL_FANOUT);
    hide LeafKids;
    assert [] + k == k;
  }

  lemma SubRecsSlice(es: seq<SubEntry>, i: nat, j: nat)
    requires i <= j <= |es|
    ensures SubRecs(es[i..j]) == SubRecs(es)[i..j]
  {
  }

  lemma {:induction false} ParseSlsSnoc(blocks: Store, cs: seq<Child>, c: Child)
    requires ParseSls(blocks, cs).Some? && ParseSl(blocks, c).Some?
    ensures ParseSls(blocks, cs + [c]) == Some(ParseSls(blocks, cs).value + [ParseSl(blocks, c).value])
  {
    assert (cs + [c])[..|cs|] == cs;
  }

  lemma ChildStep(before: Store, after: Store, children: seq<Child>, sorted: seq<SubEntry>, bid: nat)
    requires |children| * SL_FANOUT < |sorted| && AllFit(sorted)
    requires ChildrenHold(before, children, sorted) && bid !in before && IsInternal(bid)
    requires var i := |children| * SL_FANOUT;
             after == before[bid := SlBlock(sorted[i..i + Min(SL_FANOUT, |sorted| - i)])]
    ensures ChildrenHold(after, children + [Child(sorted[|children| * SL_FANOUT].nid, bid)], sorted)
  {
    hide LeafKids, SlBlock, ParseSls, ParseSl;
    var i := |children| * SL_FANOUT;
    var n := Min(SL_FANOUT, |sorted| - i);
    var c := Child(sorted[i].nid, bid);
    var recs := SubRecs(sorted);
    SlParses(after, bid, sorted[i..i + n], c.key);
    SubRecsSlice(sorted, i, i + n);
    ParseSlsGrow(before, after, children);
    ParseSlsSnoc(after, children, c);
    LeafKidsStep(recs, i, SL_FANOUT);
    Regroup(ParseSls(after, children).value, Leaf(recs[i].key, recs[i..i + n]), LeafKids(recs[i + n..], SL_FANOUT));
  }

  lemma SiParses(blocks: Store, bid: nat, children: seq<Child>)
    requires |children| <= SI_FANOUT && bid in blocks && IsInternal(bid) && blocks[bid] == SiBlock(children)
    requires forall i :: 0 <= i < |children| ==> children[i].key < U64 && children[i].bid < U64
    requires ParseSls(blocks, children).Some?
    ensures ParseSub(blocks, bid) == Some(Node(0, ParseSls(blocks, children).value))
  {
    SiReads(children);
    assert SiBlock(children)[0] == 2 && SiBlock(children)[1] == 1;
    hide SiBlock, ParseSls, SiChildren;
  }

  lemma ChildrenDone(blocks: Store, children: seq<Child>, sorted: seq<SubEntry>)
    requires ChildrenHold(blocks, children, sorted) && |sorted| <= |children| * SL_FANOUT
    ensures ParseSls(blocks, children) == Some(LeafKids(SubRecs(sorted), SL_FANOUT))
  {
    hide ParseSls;
    assert SubRecs(sorted)[|sorted|..] == [];
    var x := ParseSls(blocks, children).value;
    assert x + [] == x;
  }

  lemma LeavesFlatten(recs: seq<Rec>)
    ensures Flatten(Node(0, LeafKids(recs, SL_FANOUT))) == recs && Ordered(Node(0, LeafKids(recs, SL_FANOUT)))
  {
    LeafKidsCorrect(recs, SL_FANOUT, SI_FANOUT);
  }

  lemma TwoLevelsRead(before: Store, after: Store, bid: nat, children: seq<Child>, entries: seq<SubEntry>)
    requires |children| <= SI_FANOUT && bid > 0 && IsInternal(bid) && bid !in before
    requires after == before[bid := SiBlock(children)]
    requires forall i :: 0 <= i < |children| ==> children[i].key < U64 && children[i].bid < U64
    requires |entries| <= |children| * SL_FANOUT && ChildrenHold(before, children, SortBy(entries, NidKey()))
    requires DistinctKeys(entries, NidKey()) && AllFit(entries)
    ensures SubnodesRead(after, bid, entries)
  {
    hide DistinctKeys, SortBy, SubRecs, SiBlock, ParseSub, ParseSls, SubnodesRead, AllFit, ChildrenHold,
         LeafKids, Flatten, Ordered;
    var sorted := SortBy(entries, NidKey());
    ChildrenDone(before, children, sorted);
    ParseSlsGrow(before, after, children);
    SiParses(after, bid, children);
    LeavesFlatten(SubRecs(sorted));
    TreeReads(after, bid, entries, Node(0, LeafKids(SubRecs(sorted), SL_FANOUT)));
  }
}
