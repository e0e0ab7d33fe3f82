/** The B-tree-on-heap ([MS-PST] section 2.3.2): a header, index pages and leaf pages,
    each an allocation in a heap. */
module BthFormat {
  import opened Bytes
  import opened Wrappers
  import opened Sorting
  import opened SearchTree
  import opened HeapFormat

  const BTH_SIGNATURE: byte := 0xB5

  /** A reader of allocations: the heap itself, or its serialized stream. */
  type Reader = nat -> Option<Buf>

  function InHeap(h: Heap): Reader { (hid: nat) => ItemAt(h, hid) }

  function InStream(stream: Buf): Reader { (hid: nat) => HeapItem(stream, hid) }

  /** `g` reads at least what `f` reads. */
  ghost predicate ReadsMore(f: Reader, g: Reader) {
    forall hid :: f(hid).Some? ==> g(hid) == f(hid)
  }

  // -------------------------------------------------------------- reading

  datatype Branch = Branch(key: nat, hid: nat)

  /** A leaf page: keys and values, back to back. */
  function LeafRecs(page: Buf, cbKey: nat, cbEnt: nat): seq<Rec>
    decreases |page|
  {
    if |page| < cbKey + cbEnt || cbKey + cbEnt == 0 then []
    else [Rec(Peek(page[..cbKey]), page[cbKey..cbKey + cbEnt])] + LeafRecs(page[cbKey + cbEnt..], cbKey, cbEnt)
  }

  /** An index page: keys and the handles of the pages below. */
  function IndexRecs(page: Buf, cbKey: nat): seq<Branch>
    decreases |page|
  {
    if |page| < cbKey + 4 then []
    else [Branch(Peek(page[..cbKey]), Peek(page[cbKey..cbKey + 4]))] + IndexRecs(page[cbKey + 4..], cbKey)
  }

  function ParsePage(get: Reader, level: nat, b: Branch, cbKey: nat, cbEnt: nat): Option<Tree>
    decreases level, 0
  {
    match get(b.hid)
    case None => None
    case Some(page) =>
      if level == 0 then Some(Leaf(b.key, LeafRecs(page, cbKey, cbEnt)))
      else
        match ParseKids(get, level - 1, IndexRecs(page, cbKey), cbKey, cbEnt)
        case None => None
        case Some(kids) => Some(Node(b.key, kids))
  }

  function ParseKids(get: Reader, level: nat, bs: seq<Branch>, cbKey: nat, cbEnt: nat): (r: Option<seq<Tree>>)
    ensures r.Some? ==> |r.value| == |bs|
    decreases level, 1, |bs|
  {
    if bs == [] then Some([])
    else
      match ParsePage(get, level, bs[0], cbKey, cbEnt)
      case None => None
      case Some(t) =>
        match ParseKids(get, level, bs[1..], cbKey, cbEnt)
        case None => None
        case Some(rest) => Some([t] + rest)
  }

  /** BTHHEADER. A root handle of zero is an empty tree. */
  function Header(cbKey: byte, cbEnt: byte, levels: byte, root: nat): (s: Buf)
    ensures |s| == 8
  {
    [BTH_SIGNATURE, cbKey, cbEnt, levels] + Put32(root)
  }

  function Bth(get: Reader, hid: nat): Option<Tree> {
    match get(hid)
    case None => None
    case Some(h) =>
      if |h| != 8 || h[0] != BTH_SIGNATURE then None
      else if Peek32At(h, 4) == 0 then Some(Leaf(0, []))
      else ParsePage(get, h[3], Branch(0, Peek32At(h, 4)), h[1], h[2])
  }

  /** The value filed under a key, found by descending from the header. */
  function Lookup(get: Reader, hid: nat, key: nat): Option<Buf> {
    match Bth(get, hid)
    case None => None
    case Some(t) => Search(t, key)
  }

  // -------------------------------------------------------------- framing

  lemma {:induction false} ParsePageCovers(f: Reader, g: Reader, level: nat, b: Branch, cbKey: nat, cbEnt: nat)
    requires ReadsMore(f, g) && ParsePage(f, level, b, cbKey, cbEnt).Some?
    ensures ParsePage(g, level, b, cbKey, cbEnt) == ParsePage(f, level, b, cbKey, cbEnt)
    decreases level, 0
  {
    assert f(b.hid).Some?;
    if level > 0 { ParseKidsCovers(f, g, level - 1, IndexRecs(f(b.hid).value, cbKey), cbKey, cbEnt); }
  }

  lemma {:induction false} ParseKidsCovers(f: Reader, g: Reader, level: nat, bs: seq<Branch>, cbKey: nat, cbEnt: nat)
    requires ReadsMore(f, g) && ParseKids(f, level, bs, cbKey, cbEnt).Some?
    ensures ParseKids(g, level, bs, cbKey, cbEnt) == ParseKids(f, level, bs, cbKey, cbEnt)
    decreases level, 1, |bs|
  {
    if bs != [] {
      ParsePageCovers(f, g, level, bs[0], cbKey, cbEnt);
      ParseKidsCovers(f, g, level, bs[1..], cbKey, cbEnt);
    }
  }

  /** A tree read through one reader reads the same through any that covers it. */
  lemma BthCovers(f: Reader, g: Reader, hid: nat)
    requires ReadsMore(f, g) && Bth(f, hid).Some?
    ensures Bth(g, hid) == Bth(f, hid)
  {
    assert f(hid).Some?;
    var h := f(hid).value;
    if Peek32At(h, 4) != 0 { ParsePageCovers(f, g, h[3], Branch(0, Peek32At(h, 4)), h[1], h[2]); }
  }

  /** The serialized stream reads whatever the heap holds. */
  lemma StreamCovers(h: Heap, sig: byte, root: nat, fill: Buf)
    requires HeapOk(h) && |fill| == 4
    ensures ReadsMore(InHeap(h), InStream(Render(h, sig, root, fill)))
  {
    hide HeapOk, Render, HeapItem, ItemAt;
    forall hid: nat | InHeap(h)(hid).Some? ensures InStream(Render(h, sig, root, fill))(hid) == InHeap(h)(hid) {
      HeapRoundTrip(h, sig, root, fill, hid);
    }
  }

  lemma AllocCovers(h: Heap, data: Buf)
    requires HeapOk(h) && |h| <= MAX_BLOCKS && |h| >= 1 && AllocIn(h, data).Some?
    ensures var (g, hid) := AllocIn(h, data).value;
            ReadsMore(InHeap(h), InHeap(g)) && InHeap(g)(hid) == Some(data) && InHeap(h)(hid) == None
            && HeapOk(g) && 0 < hid < U32 && IsHid(hid) && |g| <= |h| + 1
  {
    hide HeapOk, ItemAt;
    AllocInCorrect(h, data);
  }

  lemma CoversTransitive(f: Reader, g: Reader, k: Reader)
    requires ReadsMore(f, g) && ReadsMore(g, k)
    ensures ReadsMore(f, k)
  {
    forall hid | f(hid).Some? ensures k(hid) == f(hid) {
      assert g(hid) == f(hid);
    }
  }

  lemma {:induction false} ParseKidsConcat(get: Reader, level: nat, a: seq<Branch>, b: seq<Branch>, cbKey: nat, cbEnt: nat)
    requires ParseKids(get, level, a, cbKey, cbEnt).Some? && ParseKids(get, level, b, cbKey, cbEnt).Some?
    ensures ParseKids(get, level, a + b, cbKey, cbEnt)
            == Some(ParseKids(get, level, a, cbKey, cbEnt).value + ParseKids(get, level, b, cbKey, cbEnt).value)
  {
    hide ParsePage;
    if a == [] {
      assert a + b == b;
      var y := ParseKids(get, level, b, cbKey, cbEnt).value;
      assert ParseKids(get, level, a, cbKey, cbEnt).value + y == y;
    } else {
      assert (a + b)[1..] == a[1..] + b;
      ParseKidsConcat(get, level, a[1..], b, cbKey, cbEnt);
      var t := ParsePage(get, level, a[0], cbKey, cbEnt).value;
      var x, y := ParseKids(get, level, a[1..], cbKey, cbEnt).value, ParseKids(get, level, b, cbKey, cbEnt).value;
      assert ([t] + x) + y == [t] + (x + y);
    }
  }

  lemma PageKey(get: Reader, level: nat, b: Branch, cbKey: nat, cbEnt: nat)
    ensures ParsePage(get, level, b, cbKey, cbEnt).Some? ==> ParsePage(get, level, b, cbKey, cbEnt).value.key == b.key
  {
  }

  lemma SliceRest<T>(s: seq<T>, i: nat, j: nat)
    requires i <= j <= |s| && 0 < j
    ensures i > 0 ==> s[i..j] == s[1..][i - 1..j - 1]
    ensures i == 0 ==> s[i..j] == [s[0]] + s[1..][0..j - 1]
  {
    if i > 0 {
      var a, b := s[i..j], s[1..][i - 1..j - 1];
      assert |a| == |b| && forall k :: 0 <= k < |a| ==> a[k] == s[i + k] && b[k] == s[i + k];
    }
  }

  lemma {:induction false} ParseKidsTake(get: Reader, level: nat, bs: seq<Branch>, i: nat, j: nat, cbKey: nat, cbEnt: nat)
    requires i <= j <= |bs| && ParseKids(get, level, bs, cbKey, cbEnt).Some?
    ensures ParseKids(get, level, bs[i..j], cbKey, cbEnt) == Some(ParseKids(get, level, bs, cbKey, cbEnt).value[i..j])
    ensures i < j ==> ParseKids(get, level, bs, cbKey, cbEnt).value[i].key == bs[i].key
  {
    hide ParsePage;
    if j > 0 {
      PageKey(get, level, bs[0], cbKey, cbEnt);
      SliceRest(bs, i, j);
      SliceRest(ParseKids(get, level, bs, cbKey, cbEnt).value, i, j);
      if i > 0 {
        ParseKidsTake(get, level, bs[1..], i - 1, j - 1, cbKey, cbEnt);
      } else {
        assert bs[0..j][1..] == bs[1..][0..j - 1];
        ParseKidsTake(get, level, bs[1..], 0, j - 1, cbKey, cbEnt);
      }
    }
  }

  /** One more child, after more has been allocated. */
  lemma ParseKidsSnoc(f: Reader, g: Reader, level: nat, bs: seq<Branch>, b: Branch, cbKey: nat, cbEnt: nat)
    requires ReadsMore(f, g) && ParseKids(f, level, bs, cbKey, cbEnt).Some? && ParsePage(g, level, b, cbKey, cbEnt).Some?
    ensures ParseKids(g, level, bs + [b], cbKey, cbEnt)
            == Some(ParseKids(f, level, bs, cbKey, cbEnt).value + [ParsePage(g, level, b, cbKey, cbEnt).value])
  {
    hide ParsePage;
    ParseKidsCovers(f, g, level, bs, cbKey, cbEnt);
    assert [b][1..] == [];
    var t := ParsePage(g, level, b, cbKey, cbEnt).value;
    assert [t] + [] == [t];
    assert ParseKids(g, level, [b], cbKey, cbEnt) == Some([t]);
    ParseKidsConcat(g, level, bs, [b], cbKey, cbEnt);
  }

  // -------------------------------------------------------------- writing

  /** A record as handed in: a little-endian key and a value. */
  datatype Record = Record(key: Buf, value: Buf)

  function ByKey(): Record -> nat { (r: Record) => Peek(r.key) }

  predicate Sized(rs: seq<Record>, cbKey: nat, cbEnt: nat) {
    forall i :: 0 <= i < |rs| ==> |rs[i].key| == cbKey && |rs[i].value| == cbEnt
  }

  function RecsOf(rs: seq<Record>): (s: seq<Rec>)
    ensures |s| == |rs| && forall i :: 0 <= i < |s| ==> s[i] == Rec(Peek(rs[i].key), rs[i].value)
  {
    seq(|rs|, i requires 0 <= i < |rs| => Rec(Peek(rs[i].key), rs[i].value))
  }

  function LeafPage(rs: seq<Record>): Buf {
    if rs == [] then [] else LeafPage(rs[..|rs| - 1]) + rs[|rs| - 1].key + rs[|rs| - 1].value
  }

  /** A page of the level being built: its first key, and its handle. */
  datatype PageRef = PageRef(key: Buf, hid: nat)

  function BranchesOf(ls: seq<PageRef>): (s: seq<Branch>)
    ensures |s| == |ls| && forall i :: 0 <= i < |s| ==> s[i] == Branch(Peek(ls[i].key), ls[i].hid)
  {
    seq(|ls|, i requires 0 <= i < |ls| => Branch(Peek(ls[i].key), ls[i].hid))
  }

  predicate RefsOk(ls: seq<PageRef>, cbKey: nat) {
    forall i :: 0 <= i < |ls| ==> |ls[i].key| == cbKey && 0 < ls[i].hid < U32
  }

  function IndexPage(ls: seq<PageRef>): Buf {
    if ls == [] then [] else IndexPage(ls[..|ls| - 1]) + ls[|ls| - 1].key + Put32(ls[|ls| - 1].hid)
  }

  lemma Reassociate(a: Buf, b: Buf, c: Buf, d: Buf)
    ensures (a + b) + c + d == a + (b + c + d)
  {
  }

  lemma {:induction false} LeafPageHead(rs: seq<Record>)
    requires rs != []
    ensures LeafPage(rs) == rs[0].key + rs[0].value + LeafPage(rs[1..])
  {
    if |rs| > 1 {
      LeafPageHead(rs[..|rs| - 1]);
      assert rs[..|rs| - 1][1..] == rs[1..][..|rs| - 2];
      var a, b := rs[0].key + rs[0].value, LeafPage(rs[1..][..|rs| - 2]);
      var c, d := rs[|rs| - 1].key, rs[|rs| - 1].value;
      Reassociate(a, b, c, d);
    } else {
      assert rs[..0] == [] && rs[1..] == [];
    }
  }

  lemma {:induction false} IndexPageHead(ls: seq<PageRef>)
    requires ls != []
    ensures IndexPage(ls) == ls[0].key + Put32(ls[0].hid) + IndexPage(ls[1..])
  {
    hide Put32;
    if |ls| > 1 {
      IndexPageHead(ls[..|ls| - 1]);
      assert ls[..|ls| - 1][1..] == ls[1..][..|ls| - 2];
      var a, b := ls[0].key + Put32(ls[0].hid), IndexPage(ls[1..][..|ls| - 2]);
      var c, d := ls[|ls| - 1].key, Put32(ls[|ls| - 1].hid);
      Reassociate(a, b, c, d);
    } else {
      assert ls[..0] == [] && ls[1..] == [];
    }
  }

  lemma LeafRecsStep(k: Buf, v: Buf, rest: Buf)
    requires |k| + |v| > 0
    ensures LeafRecs(k + v + rest, |k|, |v|) == [Rec(Peek(k), v)] + LeafRecs(rest, |k|, |v|)
  {
    hide Peek;
    var page := k + v + rest;
    assert page[..|k|] == k && page[|k|..|k| + |v|] == v && page[|k| + |v|..] == rest;
  }

  lemma IndexRecsStep(k: Buf, hid: nat, rest: Buf)
    requires hid < U32
    ensures IndexRecs(k + Put32(hid) + rest, |k|) == [Branch(Peek(k), hid)] + IndexRecs(rest, |k|)
  {
    PeekPut32(hid);
    hide Peek, Put32;
    var page := k + Put32(hid) + rest;
    assert page[..|k|] == k && page[|k|..|k| + 4] == Put32(hid) && page[|k| + 4..] == rest;
  }

  lemma OneMore(n: nat, w: nat)
    requires n > 0
    ensures n * w == w + (n - 1) * w
  {
  }

  /** Reading a leaf page gives the records it was filled with. */
  lemma {:induction false} LeafPageReads(rs: seq<Record>, cbKey: nat, cbEnt: nat)
    requires Sized(rs, cbKey, cbEnt) && cbKey + cbEnt > 0
    ensures |LeafPage(rs)| == |rs| * (cbKey + cbEnt)
    ensures LeafRecs(LeafPage(rs), cbKey, cbEnt) == RecsOf(rs)
  {
    hide Peek, LeafPage, LeafRecs;
    if rs == [] {
      NoLeaf(cbKey, cbEnt);
    } else {
      LeafPageHead(rs);
      LeafPageReads(rs[1..], cbKey, cbEnt);
      LeafRecsStep(rs[0].key, rs[0].value, LeafPage(rs[1..]));
      OneMore(|rs|, cbKey + cbEnt);
      assert RecsOf(rs) == [Rec(Peek(rs[0].key), rs[0].value)] + RecsOf(rs[1..]);
    }
  }

  lemma NoLeaf(cbKey: nat, cbEnt: nat)
    ensures LeafPage([]) == [] && LeafRecs([], cbKey, cbEnt) == []
  {
  }

  lemma {:induction false} IndexPageReads(ls: seq<PageRef>, cbKey: nat)
    requires RefsOk(ls, cbKey)
    ensures |IndexPage(ls)| == |ls| * (cbKey + 4)
    ensures IndexRecs(IndexPage(ls), cbKey) == BranchesOf(ls)
  {
    hide Peek, Put32;
    if ls != [] {
      IndexPageHead(ls);
      IndexPageReads(ls[1..], cbKey);
      IndexRecsStep(ls[0].key, ls[0].hid, IndexPage(ls[1..]));
      OneMore(|ls|, cbKey + 4);
      assert BranchesOf(ls) == [Branch(Peek(ls[0].key), ls[0].hid)] + BranchesOf(ls[1..]);
    }
  }

  // --------------------------------------------------- building bottom-up

  /** The pages so far are the first leaves over the records. */
  ghost predicate LeavesDone(get: Reader, ls: seq<PageRef>, rs: seq<Record>, i: nat, per: nat, cbKey: nat, cbEnt: nat)
    requires per > 0 && i <= |rs|
  {
    && ParseKids(get, 0, BranchesOf(ls), cbKey, cbEnt).Some?
    && ParseKids(get, 0, BranchesOf(ls), cbKey, cbEnt).value + LeafKids(RecsOf(rs)[i..], per) == LeafKids(RecsOf(rs), per)
  }

  lemma LeavesStart(get: Reader, rs: seq<Record>, per: nat, cbKey: nat, cbEnt: nat)
    requires per > 0
    ensures LeavesDone(get, [], rs, 0, per, cbKey, cbEnt)
  {
    assert RecsOf(rs)[0..] == RecsOf(rs);
    assert [] + LeafKids(RecsOf(rs), per) == LeafKids(RecsOf(rs), per);
  }

  lemma LeafParses(g: Reader, rs: seq<Record>, i: nat, n: nat, cbKey: nat, cbEnt: nat, hid: nat)
    requires i + n <= |rs| && i < |rs| && Sized(rs, cbKey, cbEnt) && cbKey + cbEnt > 0 && g(hid) == Some(LeafPage(rs[i..i + n]))
    ensures ParsePage(g, 0, Branch(Peek(rs[i].key), hid), cbKey, cbEnt) == Some(Leaf(Peek(rs[i].key), RecsOf(rs)[i..i + n]))
  {
    hide LeafRecs, LeafPage, Peek, ParseKids;
    LeafPageReads(rs[i..i + n], cbKey, cbEnt);
    assert RecsOf(rs[i..i + n]) == RecsOf(rs)[i..i + n];
  }

  lemma LeavesStep(f: Reader, g: Reader, ls: seq<PageRef>, rs: seq<Record>, i: nat, per: nat, cbKey: nat, cbEnt: nat, hid: nat)
    requires 0 < per && i < |rs| && LeavesDone(f, ls, rs, i, per, cbKey, cbEnt) && ReadsMore(f, g)
    requires Sized(rs, cbKey, cbEnt) && cbKey + cbEnt > 0
    requires g(hid) == Some(LeafPage(rs[i..i + Min(per, |rs| - i)]))
    ensures LeavesDone(g, ls + [PageRef(rs[i].key, hid)], rs, i + Min(per, |rs| - i), per, cbKey, cbEnt)
  {
    hide LeafKids, ParseKids, LeafRecs, ParsePage, LeafPage, Sized, Peek;
    var n, recs := Min(per, |rs| - i), RecsOf(rs);
    var b := Branch(Peek(rs[i].key), hid);
    LeafParses(g, rs, i, n, cbKey, cbEnt, hid);
    ParseKidsSnoc(f, g, 0, BranchesOf(ls), b, cbKey, cbEnt);
    assert BranchesOf(ls + [PageRef(rs[i].key, hid)]) == BranchesOf(ls) + [b];
    LeafKidsStep(recs, i, per);
    Regroup(ParseKids(f, 0, BranchesOf(ls), cbKey, cbEnt).value, Leaf(b.key, recs[i..i + n]), LeafKids(recs[i + n..], per));
  }

  lemma LeavesEnd(get: Reader, ls: seq<PageRef>, rs: seq<Record>, per: nat, cbKey: nat, cbEnt: nat)
    requires 0 < per && LeavesDone(get, ls, rs, |rs|, per, cbKey, cbEnt)
    ensures ParseKids(get, 0, BranchesOf(ls), cbKey, cbEnt) == Some(LeafKids(RecsOf(rs), per))
  {
    assert RecsOf(rs)[|rs|..] == [];
    var kids := ParseKids(get, 0, BranchesOf(ls), cbKey, cbEnt).value;
    assert kids + [] == kids;
  }

  ghost predicate GroupsDone(get: Reader, level: nat, next: seq<PageRef>, kids: seq<Tree>, i: nat, per: nat, cbKey: nat, cbEnt: nat)
    requires per > 0 && i <= |kids|
  {
    && ParseKids(get, level, BranchesOf(next), cbKey, cbEnt).Some?
    && ParseKids(get, level, BranchesOf(next), cbKey, cbEnt).value + GroupKids(kids[i..], per) == GroupKids(kids, per)
  }

  lemma GroupsStart(get: Reader, level: nat, kids: seq<Tree>, per: nat, cbKey: nat, cbEnt: nat)
    requires per > 0
    ensures GroupsDone(get, level, [], kids, 0, per, cbKey, cbEnt)
  {
    assert kids[0..] == kids;
    assert [] + GroupKids(kids, per) == GroupKids(kids, per);
  }

  /** An index page leads to the run of children it was made from. */
  lemma GroupPage(f: Reader, g: Reader, level: nat, ls: seq<PageRef>, kids: seq<Tree>, i: nat, n: nat,
                  cbKey: nat, cbEnt: nat, hid: nat)
    requires 0 < n && i + n <= |ls| && |kids| == |ls| && level >= 1 && ReadsMore(f, g) && RefsOk(ls, cbKey)
    requires ParseKids(f, level - 1, BranchesOf(ls), cbKey, cbEnt) == Some(kids)
    requires g(hid) == Some(IndexPage(ls[i..i + n]))
    ensures kids[i].key == Peek(ls[i].key)
    ensures ParsePage(g, level, Branch(Peek(ls[i].key), hid), cbKey, cbEnt) == Some(Node(Peek(ls[i].key), kids[i..i + n]))
  {
    hide ParseKids, IndexRecs, IndexPage, Peek, ReadsMore;
    var bs := BranchesOf(ls);
    IndexPageReads(ls[i..i + n], cbKey);
    assert BranchesOf(ls[i..i + n]) == bs[i..i + n];
    ParseKidsTake(f, level - 1, bs, i, i + n, cbKey, cbEnt);
    ParseKidsCovers(f, g, level - 1, bs[i..i + n], cbKey, cbEnt);
  }

  lemma GroupsStep(f: Reader, g: Reader, level: nat, next: seq<PageRef>, ls: seq<PageRef>, kids: seq<Tree>, i: nat, per: nat,
                   cbKey: nat, cbEnt: nat, hid: nat)
    requires 0 < per && i < |ls| && |kids| == |ls| && level >= 1 && ReadsMore(f, g) && RefsOk(ls, cbKey)
    requires GroupsDone(f, level, next, kids, i, per, cbKey, cbEnt)
    requires ParseKids(f, level - 1, BranchesOf(ls), cbKey, cbEnt) == Some(kids)
    requires g(hid) == Some(IndexPage(ls[i..i + Min(per, |ls| - i)]))
    ensures GroupsDone(g, level, next + [PageRef(ls[i].key, hid)], kids, i + Min(per, |ls| - i), per, cbKey, cbEnt)
  {
    hide GroupKids, ParseKids, ParsePage, IndexRecs, IndexPage, Peek, ReadsMore;
    var n, bs := Min(per, |ls| - i), BranchesOf(ls);
    var b := Branch(Peek(ls[i].key), hid);
    GroupPage(f, g, level, ls, kids, i, n, cbKey, cbEnt, hid);
    ParseKidsSnoc(f, g, level, BranchesOf(next), b, cbKey, cbEnt);
    assert BranchesOf(next + [PageRef(ls[i].key, hid)]) == BranchesOf(next) + [b];
    GroupKidsStep(kids, i, per);
    Regroup(ParseKids(f, level, BranchesOf(next), cbKey, cbEnt).value, Node(b.key, kids[i..i + n]), GroupKids(kids[i + n..], per));
  }

  lemma GroupsEnd(get: Reader, level: nat, next: seq<PageRef>, kids: seq<Tree>, per: nat, cbKey: nat, cbEnt: nat)
    requires 0 < per && GroupsDone(get, level, next, kids, |kids|, per, cbKey, cbEnt)
    ensures ParseKids(get, level, BranchesOf(next), cbKey, cbEnt) == Some(GroupKids(kids, per))
  {
    assert kids[|kids|..] == [];
    var up := ParseKids(get, level, BranchesOf(next), cbKey, cbEnt).value;
    assert up + [] == up;
  }

  // ----------------------------------------------------- what it amounts to

  /** The in-order walk of the tree gives `recs`, every branch key is the least of its
      subtree, and no page is over-full. */
  ghost predicate Holds(get: Reader, hid: nat, recs: seq<Rec>, perLeaf: nat, perIndex: nat) {
    match Bth(get, hid)
    case None => false
    case Some(t) => Flatten(t) == recs && Ordered(t) && (recs != [] ==> Within(t, perLeaf, perIndex))
  }

  lemma HoldsCovers(f: Reader, g: Reader, hid: nat, recs: seq<Rec>, perLeaf: nat, perIndex: nat)
    requires ReadsMore(f, g) && Holds(f, hid, recs, perLeaf, perIndex)
    ensures Holds(g, hid, recs, perLeaf, perIndex)
  {
    BthCovers(f, g, hid);
  }

  lemma EmptyHolds(get: Reader, hid: nat, cbKey: byte, cbEnt: byte, perLeaf: nat, perIndex: nat)
    requires get(hid) == Some(Header(cbKey, cbEnt, 0, 0))
    ensures Holds(get, hid, [], perLeaf, perIndex)
  {
    PeekPut32(0);
    assert Header(cbKey, cbEnt, 0, 0)[4..8] == Put32(0);
  }

  lemma HeaderHolds(get: Reader, hid: nat, cbKey: byte, cbEnt: byte, levels: byte, ls: seq<PageRef>, kids: seq<Tree>,
                    recs: seq<Rec>, perLeaf: nat, perIndex: nat)
    requires |ls| == 1 && RefsOk(ls, cbKey) && ParseKids(get, levels, BranchesOf(ls), cbKey, cbEnt) == Some(kids)
    requires FlattenKids(kids) == recs && OrderedKids(kids) && WithinKids(kids, perLeaf, perIndex)
    requires get(hid) == Some(Header(cbKey, cbEnt, levels, ls[0].hid))
    ensures Holds(get, hid, recs, perLeaf, perIndex)
  {
    hide LeafRecs, IndexRecs, Peek, Put32, Within, Ordered, Flatten;
    var root := ls[0].hid;
    PeekPut32(root);
    assert Header(cbKey, cbEnt, levels, root)[4..8] == Put32(root);
    assert BranchesOf(ls)[0] == Branch(Peek(ls[0].key), root);
    KeyApart(get, levels, root, Peek(ls[0].key), 0, cbKey, cbEnt);
    Rekeyed(kids[0], 0, perLeaf, perIndex);
    assert kids[1..] == [];
    assert Flatten(kids[0]) + [] == Flatten(kids[0]);
  }

  function WithKey(t: Tree, key: nat): Tree {
    match t
    case Leaf(_, recs) => Leaf(key, recs)
    case Node(_, kids) => Node(key, kids)
  }

  lemma KeyApart(get: Reader, level: nat, hid: nat, k: nat, key: nat, cbKey: nat, cbEnt: nat)
    requires ParsePage(get, level, Branch(k, hid), cbKey, cbEnt).Some?
    ensures ParsePage(get, level, Branch(key, hid), cbKey, cbEnt)
            == Some(WithKey(ParsePage(get, level, Branch(k, hid), cbKey, cbEnt).value, key))
  {
  }

  lemma Rekeyed(t: Tree, key: nat, perLeaf: nat, perIndex: nat)
    ensures Flatten(WithKey(t, key)) == Flatten(t) && Ordered(WithKey(t, key)) == Ordered(t)
    ensures Within(WithKey(t, key), perLeaf, perIndex) == Within(t, perLeaf, perIndex)
  {
  }

  // ---------------------------------------------------- lookup is map lookup

  lemma {:induction false} DistinctFind(rs: seq<Record>, i: nat)
    requires i < |rs| && DistinctKeys(rs, ByKey())
    ensures Find(RecsOf(rs), Peek(rs[i].key)) == Some(rs[i].value)
  {
    var recs := RecsOf(rs);
    forall j | 0 <= j < i ensures recs[j].key != recs[i].key {
      assert ByKey()(rs[j]) != ByKey()(rs[i]);
    }
    FindAt(recs, i);
  }

  /** Order does not matter to Find when keys are distinct. */
  lemma FindPermuted(rs: seq<Record>, other: seq<Record>, key: nat)
    requires DistinctKeys(rs, ByKey()) && DistinctKeys(other, ByKey()) && multiset(rs) == multiset(other)
    ensures Find(RecsOf(rs), key) == Find(RecsOf(other), key)
  {
    hide Peek, Find;
    if i :| 0 <= i < |rs| && Peek(rs[i].key) == key {
      DistinctFind(rs, i);
      SameMember(rs, other, rs[i]);
      var j :| 0 <= j < |other| && other[j] == rs[i];
      DistinctFind(other, j);
    } else {
      FindMissing(RecsOf(rs), key);
      forall j | 0 <= j < |other| ensures RecsOf(other)[j].key != key {
        SameMember(other, rs, other[j]);
        var i :| 0 <= i < |rs| && rs[i] == other[j];
      }
      FindMissing(RecsOf(other), key);
    }
  }

  /** A lookup finds the value of every record, and nothing under any other key. */
  lemma LookupFinds(get: Reader, hid: nat, rs: seq<Record>, perLeaf: nat, perIndex: nat, key: nat)
    requires DistinctKeys(rs, ByKey()) && Holds(get, hid, RecsOf(SortBy(rs, ByKey())), perLeaf, perIndex)
    ensures Lookup(get, hid, key) == Find(RecsOf(rs), key)
  {
    hide Bth, Flatten, Ordered, Within, Search, Peek, Find, SortBy;
    var sorted := SortBy(rs, ByKey());
    SortByStrict(rs, ByKey());
    assert Sorted(RecsOf(sorted)) by {
      forall i, j | 0 <= i < j < |sorted| ensures RecsOf(sorted)[i].key < RecsOf(sorted)[j].key {
        assert ByKey()(sorted[i]) < ByKey()(sorted[j]);
      }
    }
    SearchIsFind(Bth(get, hid).value, key);
    StrictIsDistinct(sorted);
    FindPermuted(rs, sorted, key);
  }

  lemma StrictIsDistinct(rs: seq<Record>)
    requires StrictlyAscending(rs, ByKey())
    ensures DistinctKeys(rs, ByKey())
  {
  }
}
