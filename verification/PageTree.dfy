/** Reading the page B-trees of a file, as [MS-PST] section 2.2.2.7.7 lays them out.
    Everything here is a function of the file alone. */
module PageTree {
  import opened Bytes
  import opened Wrappers
  import opened SearchTree
  import Space

  const PTYPE_BBT: byte := 0x80
  const PTYPE_NBT: byte := 0x81
  const PTYPE_PMAP: byte := 0x83
  const PTYPE_AMAP: byte := 0x84
  const PTYPE_DLIST: byte := 0x86

  const PAGE_DATA: nat := 488

  /** The checksum and the signature: any functions of the stated bytes and numbers. */
  datatype Sums = Sums(crc: Buf -> nat, sig: (nat, nat) -> nat)

  /** PAGETRAILER of a page with these 496 bytes of body. */
  function Trailer(s: Sums, ptype: byte, ib: nat, bid: nat, body: Buf): (t: Buf)
    ensures |t| == 16
  {
    [ptype, ptype] + Put16(s.sig(ib, bid)) + Put32(s.crc(body)) + Put64(bid)
  }

  /** The page a reference leads to, if a careful reader accepts it there: aligned,
      inside the file, outside the fixed pages, with the right trailer and level. */
  predicate GoodPage(s: Sums, file: Buf, ptype: byte, ib: nat, bid: nat, level: nat) {
    && ib % Space.PAGE == 0 && Space.FIRST_DATA <= ib && !Space.IsReservedPage(ib)
    && ib + Space.PAGE <= |file|
    && var page := file[ib..ib + Space.PAGE];
    && page[491] == level
    && page[488] <= page[489] && page[488] * page[490] <= PAGE_DATA
    && page[496..] == Trailer(s, ptype, ib, bid, page[..496])
  }

  /** The entries of a page: count at 488, entry size at 490. */
  function Entries(page: Buf): (es: seq<Buf>)
    requires |page| == Space.PAGE
  {
    seq(page[488], i requires 0 <= i => Sub(page, i * page[490], page[490]))
  }

  function LeafRec(e: Buf): Rec { Rec(Peek64At(e, 0), e) }

  function LeafRecs(es: seq<Buf>): (rs: seq<Rec>)
    ensures |rs| == |es|
  {
    seq(|es|, i requires 0 <= i < |es| => LeafRec(es[i]))
  }

  datatype Branch = Branch(key: nat, bid: nat, ib: nat)

  function ReadBranch(e: Buf): Branch { Branch(Peek64At(e, 0), Peek64At(e, 8), Peek64At(e, 16)) }

  function Branches(es: seq<Buf>): (bs: seq<Branch>)
    ensures |bs| == |es|
  {
    seq(|es|, i requires 0 <= i < |es| => ReadBranch(es[i]))
  }

  /** The tree under a page reference; None when any page of it is not acceptable. */
  function ParsePage(s: Sums, file: Buf, ptype: byte, level: nat, b: Branch): Option<Tree>
    decreases level, 0
  {
    if !GoodPage(s, file, ptype, b.ib, b.bid, level) then None
    else
      var es := Entries(file[b.ib..b.ib + Space.PAGE]);
      if level == 0 then Some(Leaf(b.key, LeafRecs(es)))
      else
        match ParseKids(s, file, ptype, level - 1, Branches(es))
        case None => None
        case Some(kids) => Some(Node(b.key, kids))
  }

  function ParseKids(s: Sums, file: Buf, ptype: byte, level: nat, bs: seq<Branch>): (r: Option<seq<Tree>>)
    ensures r.Some? ==> |r.value| == |bs|
    decreases level, |bs|
  {
    if bs == [] then Some([])
    else
      match ParsePage(s, file, ptype, level, bs[0])
      case None => None
      case Some(t) =>
        match ParseKids(s, file, ptype, level, bs[1..])
        case None => None
        case Some(rest) => Some([t] + rest)
  }

  /** The whole tree from a root reference: the root page tells the level. */
  function ParseRoot(s: Sums, file: Buf, ptype: byte, bid: nat, ib: nat): Option<Tree> {
    if ib + Space.PAGE <= |file| then ParsePage(s, file, ptype, file[ib + 491], Branch(0, bid, ib)) else None
  }

  // -------------------------------------------------------------- framing

  predicate InFixedPage(i: nat) {
    Space.IsReservedPage(i - i % Space.PAGE)
  }

  /** `g` is `f`, perhaps longer, with at most the header and fixed pages rewritten. */
  ghost predicate Keeps(f: Buf, g: Buf) {
    && |f| <= |g|
    && forall i :: Space.FIRST_DATA <= i < |f| && !InFixedPage(i) ==> f[i] == g[i]
  }

  lemma KeepsTransitive(f: Buf, g: Buf, h: Buf)
    requires Keeps(f, g) && Keeps(g, h)
    ensures Keeps(f, h)
  {
  }

  /** What lies between the fixed pages is the same in both files. */
  lemma KeepsRange(f: Buf, g: Buf, a: nat, n: nat)
    requires Keeps(f, g) && Space.FIRST_DATA <= a && a + n <= |f| && Space.Clear(a, n)
    ensures f[a..a + n] == g[a..a + n]
  {
    forall i | a <= i < a + n ensures f[i] == g[i] {
      assert Space.IsReservedPage(i - i % Space.PAGE) ==> false;
    }
  }

  lemma PageClear(ib: nat)
    requires ib % Space.PAGE == 0 && !Space.IsReservedPage(ib)
    ensures Space.Clear(ib, Space.PAGE)
  {
    forall p: nat | Space.IsReservedPage(p) ensures p + Space.PAGE <= ib || ib + Space.PAGE <= p {
      Space.ReservedCases(p);
      if p < ib { Space.PagesOff(p, ib); } else { assert p != ib; Space.PagesOff(ib, p); }
    }
  }

  lemma {:induction false} ParsePageKeeps(s: Sums, f: Buf, g: Buf, ptype: byte, level: nat, b: Branch)
    requires Keeps(f, g) && ParsePage(s, f, ptype, level, b).Some?
    ensures ParsePage(s, g, ptype, level, b) == ParsePage(s, f, ptype, level, b)
    decreases level, 0
  {
    PageClear(b.ib);
    KeepsRange(f, g, b.ib, Space.PAGE);
    if level > 0 {
      ParseKidsKeeps(s, f, g, ptype, level - 1, Branches(Entries(f[b.ib..b.ib + Space.PAGE])));
    }
  }

  lemma {:induction false} ParseKidsKeeps(s: Sums, f: Buf, g: Buf, ptype: byte, level: nat, bs: seq<Branch>)
    requires Keeps(f, g) && ParseKids(s, f, ptype, level, bs).Some?
    ensures ParseKids(s, g, ptype, level, bs) == ParseKids(s, f, ptype, level, bs)
    decreases level, |bs|
  {
    if bs != [] {
      ParsePageKeeps(s, f, g, ptype, level, bs[0]);
      ParseKidsKeeps(s, f, g, ptype, level, bs[1..]);
    }
  }

  lemma ParseRootKeeps(s: Sums, f: Buf, g: Buf, ptype: byte, bid: nat, ib: nat)
    requires Keeps(f, g) && ParseRoot(s, f, ptype, bid, ib).Some?
    ensures ParseRoot(s, g, ptype, bid, ib) == ParseRoot(s, f, ptype, bid, ib)
  {
    PageClear(ib);
    KeepsRange(f, g, ib, Space.PAGE);
    assert f[ib..ib + Space.PAGE][491] == g[ib..ib + Space.PAGE][491];
    ParsePageKeeps(s, f, g, ptype, f[ib + 491], Branch(0, bid, ib));
  }

  lemma {:induction false} ParseKidsConcat(s: Sums, file: Buf, ptype: byte, level: nat, a: seq<Branch>, b: seq<Branch>)
    requires ParseKids(s, file, ptype, level, a).Some? && ParseKids(s, file, ptype, level, b).Some?
    ensures ParseKids(s, file, ptype, level, a + b)
            == Some(ParseKids(s, file, ptype, level, a).value + ParseKids(s, file, ptype, level, b).value)
  {
    hide ParsePage;
    if a == [] {
      assert a + b == b;
      var y := ParseKids(s, file, ptype, level, b).value;
      assert ParseKids(s, file, ptype, level, a).value + y == y;
    } else {
      assert (a + b)[1..] == a[1..] + b;
      ParseKidsConcat(s, file, ptype, level, a[1..], b);
      var t := ParsePage(s, file, ptype, level, a[0]).value;
      var x, y := ParseKids(s, file, ptype, level, a[1..]).value, ParseKids(s, file, ptype, level, b).value;
      assert ([t] + x) + y == [t] + (x + y);
    }
  }

  lemma {:induction false} ParseKidsTake(s: Sums, file: Buf, ptype: byte, level: nat, bs: seq<Branch>, i: nat, j: nat)
    requires i <= j <= |bs| && ParseKids(s, file, ptype, level, bs).Some?
    ensures ParseKids(s, file, ptype, level, bs[i..j]) == Some(ParseKids(s, file, ptype, level, bs).value[i..j])
  {
    hide ParsePage;
    if i > 0 {
      assert bs[i..j] == bs[1..][i - 1..j - 1];
      ParseKidsTake(s, file, ptype, level, bs[1..], i - 1, j - 1);
      var all := ParseKids(s, file, ptype, level, bs).value;
      assert all[i..j] == all[1..][i - 1..j - 1];
    } else if j > 0 {
      assert bs[0..j][1..] == bs[1..][0..j - 1];
      ParseKidsTake(s, file, ptype, level, bs[1..], 0, j - 1);
      var all := ParseKids(s, file, ptype, level, bs).value;
      assert all[0..j] == [all[0]] + all[1..][0..j - 1];
    }
  }

  // ------------------------------------------------------ writing a page

  /** A page whose first entries are `es`, each `size` bytes. */
  predicate Holds(page: Buf, es: seq<Buf>, size: nat) {
    && |page| == Space.PAGE && |es| * size <= PAGE_DATA
    && forall i :: 0 <= i < |es| ==> |es[i]| == size && Sub(page, i * size, size) == es[i]
  }

  /** `page` with the entry counts and the trailer filled in. */
  function Finished(s: Sums, page: Buf, ptype: byte, size: byte, count: byte, level: byte, ib: nat, bid: nat): (r: Buf)
    requires |page| == Space.PAGE && size >= 2
    ensures |r| == Space.PAGE
  {
    var p := Poke(page, 488, [count, PAGE_DATA / size, size, level]);
    Poke(p, 496, Trailer(s, ptype, ib, bid, p[..496]))
  }

  lemma FinishedFields(s: Sums, page: Buf, ptype: byte, size: byte, count: byte, level: byte, ib: nat, bid: nat)
    requires |page| == Space.PAGE && size >= 2
    ensures var r := Finished(s, page, ptype, size, count, level, ib, bid);
            && r[488] == count && r[489] == PAGE_DATA / size && r[490] == size && r[491] == level
            && r[..488] == page[..488]
            && r[496..] == Trailer(s, ptype, ib, bid, r[..496])
  {
    var counts: Buf := [count, PAGE_DATA / size, size, level];
    var p := Poke(page, 488, counts);
    var r := Finished(s, page, ptype, size, count, level, ib, bid);
    assert p[488..492] == counts;
    assert p[488] == counts[0] && p[489] == counts[1] && p[490] == counts[2] && p[491] == counts[3];
    assert r[..496] == p[..496];
    assert r[496..] == r[496..512];
  }

  lemma EntriesKept(page: Buf, r: Buf, es: seq<Buf>, size: byte)
    requires Holds(page, es, size) && |r| == Space.PAGE && r[..488] == page[..488]
    requires r[488] == |es| && r[490] == size
    ensures Entries(r) == es
  {
    var rs := Entries(r);
    forall i | 0 <= i < |es| ensures rs[i] == es[i] {
      RunFits(i, |es|, size);
      SubKept(page, r, i * size, size);
    }
  }

  lemma RunFits(i: nat, n: nat, size: nat)
    requires i < n
    ensures i * size + size <= n * size
  {
    assert (i + 1) * size <= n * size;
  }

  lemma SubKept(page: Buf, r: Buf, off: nat, n: nat)
    requires |page| == Space.PAGE && |r| == Space.PAGE && r[..488] == page[..488] && off + n <= 488
    ensures Sub(r, off, n) == Sub(page, off, n)
  {
    SliceOfSlice(r, 0, 488, off, off + n);
    SliceOfSlice(page, 0, 488, off, off + n);
  }

  lemma FinishedGood(s: Sums, page: Buf, ptype: byte, size: byte, level: byte, ib: nat, bid: nat, es: seq<Buf>, file: Buf)
    requires size == 24 || size == 32
    requires Holds(page, es, size) && |es| <= 20
    requires ib % Space.PAGE == 0 && Space.FIRST_DATA <= ib && !Space.IsReservedPage(ib)
    requires ib + Space.PAGE <= |file|
    requires file[ib..ib + Space.PAGE] == Finished(s, page, ptype, size, |es|, level, ib, bid)
    ensures GoodPage(s, file, ptype, ib, bid, level)
    ensures Entries(file[ib..ib + Space.PAGE]) == es
  {
    FinishedFields(s, page, ptype, size, |es|, level, ib, bid);
    EntriesKept(page, file[ib..ib + Space.PAGE], es, size);
  }

  function BranchEntry(b: Branch): (e: Buf)
    ensures |e| == 24
  {
    Put64(b.key) + Put64(b.bid) + Put64(b.ib)
  }

  lemma BranchRoundTrip(b: Branch)
    requires b.key < U64 && b.bid < U64 && b.ib < U64
    ensures ReadBranch(BranchEntry(b)) == b
  {
    PeekPut64(b.key); PeekPut64(b.bid); PeekPut64(b.ib);
    var e := BranchEntry(b);
    assert e[0..8] == Put64(b.key) && e[8..16] == Put64(b.bid) && e[16..24] == Put64(b.ib);
  }

  function BranchEntries(bs: seq<Branch>): (es: seq<Buf>)
    ensures |es| == |bs|
  {
    seq(|bs|, i requires 0 <= i < |bs| => BranchEntry(bs[i]))
  }

  predicate BranchFits(b: Branch) {
    b.key < U64 && b.bid < U64 && b.ib < U64
  }

  lemma BranchesRoundTrip(bs: seq<Branch>)
    requires forall i :: 0 <= i < |bs| ==> BranchFits(bs[i])
    ensures Branches(BranchEntries(bs)) == bs
  {
    forall i | 0 <= i < |bs| ensures ReadBranch(BranchEntry(bs[i])) == bs[i] { BranchRoundTrip(bs[i]); }
  }

  /** A freshly written page stands where the writer says it does. */
  predicate Written(s: Sums, file: Buf, ptype: byte, b: Branch, page: Buf, size: byte, count: byte, level: byte)
    requires |page| == Space.PAGE && size >= 2
  {
    && b.ib % Space.PAGE == 0 && Space.FIRST_DATA <= b.ib && !Space.IsReservedPage(b.ib)
    && b.ib + Space.PAGE <= |file|
    && file[b.ib..b.ib + Space.PAGE] == Finished(s, page, ptype, size, count, level, b.ib, b.bid)
  }

  lemma LeafPageParses(s: Sums, file: Buf, ptype: byte, b: Branch, page: Buf, size: byte, es: seq<Buf>)
    requires (size == 24 || size == 32) && Holds(page, es, size) && |es| <= 20
    requires Written(s, file, ptype, b, page, size, |es|, 0)
    ensures ParsePage(s, file, ptype, 0, b) == Some(Leaf(b.key, LeafRecs(es)))
  {
    hide Finished, GoodPage, Entries, Holds, LeafRecs;
    FinishedGood(s, page, ptype, size, 0, b.ib, b.bid, es, file);
  }

  lemma BranchPageParses(s: Sums, file: Buf, ptype: byte, b: Branch, page: Buf, level: byte, bs: seq<Branch>)
    requires Holds(page, BranchEntries(bs), 24) && |bs| <= 20 && level >= 1
    requires Written(s, file, ptype, b, page, 24, |bs|, level)
    requires forall i :: 0 <= i < |bs| ==> BranchFits(bs[i])
    requires ParseKids(s, file, ptype, level - 1, bs).Some?
    ensures ParsePage(s, file, ptype, level, b) == Some(Node(b.key, ParseKids(s, file, ptype, level - 1, bs).value))
  {
    hide Finished, GoodPage, Entries, Holds, Branches, BranchEntries, ParseKids;
    FinishedGood(s, page, ptype, 24, level, b.ib, b.bid, BranchEntries(bs), file);
    BranchesRoundTrip(bs);
  }

  // ------------------------------------------------------ building bottom-up

  lemma ParseKidsSnoc(s: Sums, f: Buf, g: Buf, ptype: byte, level: nat, bs: seq<Branch>, b: Branch)
    requires Keeps(f, g) && ParseKids(s, f, ptype, level, bs).Some? && ParsePage(s, g, ptype, level, b).Some?
    ensures ParseKids(s, g, ptype, level, bs + [b])
            == Some(ParseKids(s, f, ptype, level, bs).value + [ParsePage(s, g, ptype, level, b).value])
  {
    hide ParsePage;
    ParseKidsKeeps(s, f, g, ptype, level, bs);
    assert [b][1..] == [];
    var t := ParsePage(s, g, ptype, level, b).value;
    assert [t] + [] == [t];
    assert ParseKids(s, g, ptype, level, [b]) == Some([t]);
    ParseKidsConcat(s, g, ptype, level, bs, [b]);
  }

  /** The leaf pages so far are the first leaves over the records. */
  ghost predicate LeavesHold(s: Sums, file: Buf, ptype: byte, bs: seq<Branch>, recs: seq<Rec>, per: nat)
    requires per > 0
  {
    && ParseKids(s, file, ptype, 0, bs).Some?
    && ParseKids(s, file, ptype, 0, bs).value + LeafKids(recs[Min(|bs| * per, |recs|)..], per) == LeafKids(recs, per)
  }

  lemma LeavesStep(s: Sums, f: Buf, g: Buf, ptype: byte, bs: seq<Branch>, recs: seq<Rec>, per: nat, b: Branch)
    requires per > 0 && |bs| * per < |recs| && LeavesHold(s, f, ptype, bs, recs, per) && Keeps(f, g)
    requires var i := |bs| * per;
             ParsePage(s, g, ptype, 0, b) == Some(Leaf(recs[i].key, recs[i..i + Min(per, |recs| - i)]))
    ensures LeavesHold(s, g, ptype, bs + [b], recs, per)
  {
    hide LeafKids, ParsePage, ParseKids;
    var i := |bs| * per;
    var n := Min(per, |recs| - i);
    assert (|bs| + 1) * per == i + per;
    ParseKidsSnoc(s, f, g, ptype, 0, bs, b);
    LeafKidsStep(recs, i, per);
    Regroup(ParseKids(s, f, ptype, 0, bs).value, Leaf(recs[i].key, recs[i..i + n]), LeafKids(recs[i + n..], per));
  }

  /** The branch pages so far are the first groups over the level below. */
  ghost predicate GroupsHold(s: Sums, file: Buf, ptype: byte, level: nat, bs: seq<Branch>, kids: seq<Tree>, per: nat)
    requires per > 0
  {
    && ParseKids(s, file, ptype, level, bs).Some?
    && ParseKids(s, file, ptype, level, bs).value + GroupKids(kids[Min(|bs| * per, |kids|)..], per) == GroupKids(kids, per)
  }

  lemma GroupsStep(s: Sums, f: Buf, g: Buf, ptype: byte, level: nat, bs: seq<Branch>, kids: seq<Tree>, per: nat, b: Branch)
    requires per > 0 && |bs| * per < |kids| && GroupsHold(s, f, ptype, level, bs, kids, per) && Keeps(f, g)
    requires var i := |bs| * per;
             ParsePage(s, g, ptype, level, b) == Some(Node(kids[i].key, kids[i..i + Min(per, |kids| - i)]))
    ensures GroupsHold(s, g, ptype, level, bs + [b], kids, per)
  {
    hide GroupKids, ParsePage, ParseKids;
    var i := |bs| * per;
    var n := Min(per, |kids| - i);
    assert (|bs| + 1) * per == i + per;
    ParseKidsSnoc(s, f, g, ptype, level, bs, b);
    GroupKidsStep(kids, i, per);
    Regroup(ParseKids(s, f, ptype, level, bs).value, Node(kids[i].key, kids[i..i + n]), GroupKids(kids[i + n..], per));
  }

  lemma NoneHeld(s: Sums, file: Buf, ptype: byte, level: nat, recs: seq<Rec>, kids: seq<Tree>, per: nat)
    requires per > 0
    ensures LeavesHold(s, file, ptype, [], recs, per) && GroupsHold(s, file, ptype, level, [], kids, per)
  {
    assert recs[0..] == recs && kids[0..] == kids;
    var x, y := LeafKids(recs, per), GroupKids(kids, per);
    hide LeafKids, GroupKids;
    assert [] + x == x && [] + y == y;
  }

  lemma AllLeavesHeld(s: Sums, file: Buf, ptype: byte, bs: seq<Branch>, recs: seq<Rec>, per: nat)
    requires per > 0 && LeavesHold(s, file, ptype, bs, recs, per) && |recs| <= |bs| * per
    ensures ParseKids(s, file, ptype, 0, bs) == Some(LeafKids(recs, per))
  {
    hide ParseKids;
    assert recs[|recs|..] == [];
    var x := ParseKids(s, file, ptype, 0, bs).value;
    assert x + [] == x;
  }

  lemma AllGroupsHeld(s: Sums, file: Buf, ptype: byte, level: nat, bs: seq<Branch>, kids: seq<Tree>, per: nat)
    requires per > 0 && GroupsHold(s, file, ptype, level, bs, kids, per) && |kids| <= |bs| * per
    ensures ParseKids(s, file, ptype, level, bs) == Some(GroupKids(kids, per))
  {
    hide ParseKids;
    assert kids[|kids|..] == [];
    var x := ParseKids(s, file, ptype, level, bs).value;
    assert x + [] == x;
  }

  /** What a finished tree is: its walk gives the records in order, branch keys are the
      least keys below them, and no page holds more than its maximum. */
  ghost predicate TreeHolds(s: Sums, file: Buf, ptype: byte, bid: nat, ib: nat, recs: seq<Rec>, perLeaf: nat) {
    match ParseRoot(s, file, ptype, bid, ib)
    case None => false
    case Some(t) => Flatten(t) == recs && Ordered(t) && (recs != [] ==> Within(t, perLeaf, 20))
  }

  lemma TreeHoldsKeeps(s: Sums, f: Buf, g: Buf, ptype: byte, bid: nat, ib: nat, recs: seq<Rec>, perLeaf: nat)
    requires TreeHolds(s, f, ptype, bid, ib, recs, perLeaf) && Keeps(f, g)
    ensures TreeHolds(s, g, ptype, bid, ib, recs, perLeaf)
  {
    hide ParseRoot, Flatten, Ordered, Within;
    ParseRootKeeps(s, f, g, ptype, bid, ib);
  }

  /** The single entry left at the top leads to the root. */
  lemma RootHolds(s: Sums, file: Buf, ptype: byte, level: nat, b: Branch, t: Tree, recs: seq<Rec>, perLeaf: nat)
    requires ParsePage(s, file, ptype, level, b) == Some(t)
    requires Flatten(t) == recs && Ordered(t) && (recs != [] ==> Within(t, perLeaf, 20))
    ensures TreeHolds(s, file, ptype, b.bid, b.ib, recs, perLeaf)
  {
    assert file[b.ib + 491] == file[b.ib..b.ib + Space.PAGE][491];
    var r := ParsePage(s, file, ptype, level, Branch(0, b.bid, b.ib)).value;
    assert if t.Leaf? then r == Leaf(0, t.recs) else r == Node(0, t.kids);
  }

  lemma OneKid(s: Sums, file: Buf, ptype: byte, level: nat, bs: seq<Branch>, kids: seq<Tree>)
    requires |bs| == 1 && ParseKids(s, file, ptype, level, bs) == Some(kids)
    ensures |kids| == 1 && ParsePage(s, file, ptype, level, bs[0]) == Some(kids[0])
  {
    assert bs[1..] == [];
  }
}
