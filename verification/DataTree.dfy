/** Data trees and subnode trees over a block store: blocks, XBLOCKs and XXBLOCKs of
    [MS-PST] section 2.2.2.8.3. A store maps block ids to block contents. */
module DataTree {
  import opened Bytes
  import opened Wrappers

  type Store = map<nat, Buf>

  /** Blocks are only ever added. */
  ghost predicate Extends(a: Store, b: Store) {
    a.Keys <= b.Keys && forall k :: k in a ==> b[k] == a[k]
  }

  const MAX_DATA: nat := 8176
  const X_FANOUT: nat := 1021

  /** A block id: the index, shifted past the reserved bit and the internal bit. */
  function MakeBid(index: nat, internal: bool): (bid: nat)
  {
    4 * index + if internal then 2 else 0
  }

  predicate IsInternal(bid: nat) { bid / 2 % 2 == 1 }

  function Put64s(ids: seq<nat>): (s: Buf)
    ensures |s| == 8 * |ids|
  {
    if ids == [] then [] else Put64(ids[0]) + Put64s(ids[1..])
  }

  /** An XBLOCK (level 1) or XXBLOCK (level 2). */
  function XBlock(level: byte, children: seq<nat>, total: nat): (s: Buf)
    ensures |s| == 8 + 8 * |children|
  {
    [1, level] + Put16(|children|) + Put32(total) + Put64s(children)
  }

  // ------------------------------------------------------------ the reader

  predicate GoodX(p: Buf, level: nat) {
    |p| >= 8 && p[0] == 1 && p[1] == level && |p| == 8 + 8 * Peek16At(p, 2)
  }

  function XChildren(p: Buf): (ids: seq<nat>) {
    seq(Peek16At(p, 2), i requires 0 <= i => Peek64At(p, 8 + 8 * i))
  }

  /** The bytes of the data tree under `bid`: a data block at level 0, otherwise the
      children one after another, whose length must be the one the block states. */
  function TreeBytes(blocks: Store, bid: nat, level: nat): Option<Buf>
    decreases level, 0
  {
    if bid !in blocks || IsInternal(bid) != (level > 0) then None
    else
      var p := blocks[bid];
      if level == 0 then Some(p)
      else if !GoodX(p, level) then None
      else
        match CatTrees(blocks, XChildren(p), level - 1)
        case None => None
        case Some(data) => if |data| == Peek32At(p, 4) then Some(data) else None
  }

  function CatTrees(blocks: Store, ids: seq<nat>, level: nat): Option<Buf>
    decreases level, |ids|
  {
    if ids == [] then Some([])
    else
      match TreeBytes(blocks, ids[0], level)
      case None => None
      case Some(head) =>
        match CatTrees(blocks, ids[1..], level)
        case None => None
        case Some(rest) => Some(head + rest)
  }

  /** A reader learns the level from the root block; there are at most two. */
  function ReadTree(blocks: Store, bid: nat): Option<Buf> {
    if bid !in blocks then None
    else if !IsInternal(bid) then TreeBytes(blocks, bid, 0)
    else if |blocks[bid]| >= 2 && blocks[bid][1] <= 2 then TreeBytes(blocks, bid, blocks[bid][1])
    else None
  }

  // ---------------------------------------------------------------- lemmas

  lemma {:induction false} Put64sAt(ids: seq<nat>, i: nat)
    requires i < |ids|
    ensures Put64s(ids)[8 * i..8 * i + 8] == Put64(ids[i])
  {
    if i > 0 {
      Put64sAt(ids[1..], i - 1);
      assert Put64s(ids)[8 * i..8 * i + 8] == Put64s(ids[1..])[8 * (i - 1)..8 * (i - 1) + 8];
    }
  }

  /** Reading an XBLOCK back gives the level, the children and the total. */
  lemma XBlockReads(level: byte, children: seq<nat>, total: nat)
    requires |children| <= X_FANOUT && total < U32
    requires forall i :: 0 <= i < |children| ==> children[i] < U64
    ensures var p := XBlock(level, children, total);
            GoodX(p, level) && XChildren(p) == children && Peek32At(p, 4) == total
  {
    var p := XBlock(level, children, total);
    assert p[2..4] == Put16(|children|) && p[4..8] == Put32(total);
    PeekPut16(|children|);
    PeekPut32(total);
    forall i | 0 <= i < |children| ensures Peek64At(p, 8 + 8 * i) == children[i] {
      Put64sAt(children, i);
      assert p[8 + 8 * i..16 + 8 * i] == Put64s(children)[8 * i..8 * i + 8];
      PeekPut64(children[i]);
    }
  }

  lemma {:induction false} TreeBytesGrow(a: Store, b: Store, bid: nat, level: nat)
    requires Extends(a, b) && TreeBytes(a, bid, level).Some?
    ensures TreeBytes(b, bid, level) == TreeBytes(a, bid, level)
    decreases level, 0
  {
    if level > 0 { CatTreesGrow(a, b, XChildren(a[bid]), level - 1); }
  }

  lemma {:induction false} CatTreesGrow(a: Store, b: Store, ids: seq<nat>, level: nat)
    requires Extends(a, b) && CatTrees(a, ids, level).Some?
    ensures CatTrees(b, ids, level) == CatTrees(a, ids, level)
    decreases level, |ids|
  {
    if ids != [] {
      TreeBytesGrow(a, b, ids[0], level);
      CatTreesGrow(a, b, ids[1..], level);
    }
  }

  /** Later blocks never change what a finished tree reads as. */
  lemma ReadTreeGrow(a: Store, b: Store, bid: nat)
    requires Extends(a, b) && ReadTree(a, bid).Some?
    ensures ReadTree(b, bid) == ReadTree(a, bid)
  {
    TreeBytesGrow(a, b, bid, if IsInternal(bid) then a[bid][1] else 0);
  }

  lemma {:induction false} CatTreesConcat(blocks: Store, x: seq<nat>, y: seq<nat>, level: nat)
    requires CatTrees(blocks, x, level).Some? && CatTrees(blocks, y, level).Some?
    ensures CatTrees(blocks, x + y, level)
            == Some(CatTrees(blocks, x, level).value + CatTrees(blocks, y, level).value)
  {
    var b := CatTrees(blocks, y, level).value;
    if x == [] {
      assert x + y == y;
      assert CatTrees(blocks, x, level).value + b == b;
    } else {
      assert (x + y)[1..] == x[1..] + y;
      CatTreesConcat(blocks, x[1..], y, level);
      var h, t := TreeBytes(blocks, x[0], level).value, CatTrees(blocks, x[1..], level).value;
      assert (h + t) + b == h + (t + b);
    }
  }

  /** A root over children that read as `data` reads as `data`. */
  lemma XBlockTree(blocks: Store, bid: nat, level: byte, children: seq<nat>, data: Buf)
    requires 1 <= level && IsInternal(bid) && bid in blocks
    requires blocks[bid] == XBlock(level, children, |data|)
    requires |children| <= X_FANOUT && |data| < U32
    requires forall i :: 0 <= i < |children| ==> children[i] < U64
    requires CatTrees(blocks, children, level - 1) == Some(data)
    ensures TreeBytes(blocks, bid, level) == Some(data)
  {
    XBlockReads(level, children, |data|);
  }

  // --------------------------------------------------------- data streams

  /** `ids` are the leaves of a stream: data blocks, all but the last full. */
  ghost predicate Leaves(blocks: Store, ids: seq<nat>) {
    && (forall i :: 0 <= i < |ids| ==> ids[i] in blocks && !IsInternal(ids[i]) && |blocks[ids[i]]| <= MAX_DATA)
    && (forall i :: 0 <= i < |ids| - 1 ==> |blocks[ids[i]]| == MAX_DATA)
  }

  /** The stream the leaves hold. */
  function Stream(blocks: Store, ids: seq<nat>): Buf
    requires forall i :: 0 <= i < |ids| ==> ids[i] in blocks
  {
    if ids == [] then [] else blocks[ids[0]] + Stream(blocks, ids[1..])
  }

  lemma {:induction false} StreamIsCat(blocks: Store, ids: seq<nat>)
    requires forall i :: 0 <= i < |ids| ==> ids[i] in blocks && !IsInternal(ids[i])
    ensures CatTrees(blocks, ids, 0) == Some(Stream(blocks, ids))
  {
    if ids != [] { StreamIsCat(blocks, ids[1..]); }
  }

  lemma {:induction false} StreamConcat(blocks: Store, x: seq<nat>, y: seq<nat>)
    requires forall i :: 0 <= i < |x| ==> x[i] in blocks
    requires forall i :: 0 <= i < |y| ==> y[i] in blocks
    ensures Stream(blocks, x + y) == Stream(blocks, x) + Stream(blocks, y)
  {
    if x == [] {
      assert x + y == y;
    } else {
      assert (x + y)[1..] == x[1..] + y;
      StreamConcat(blocks, x[1..], y);
    }
  }

  lemma {:induction false} StreamGrow(a: Store, b: Store, ids: seq<nat>)
    requires forall i :: 0 <= i < |ids| ==> ids[i] in a && ids[i] in b && b[ids[i]] == a[ids[i]]
    ensures Stream(b, ids) == Stream(a, ids)
  {
    if ids != [] { StreamGrow(a, b, ids[1..]); }
  }

  /** Every leaf but the last is full, so `n` leaves hold n * 8176 bytes unless they
      include the last one. */
  lemma {:induction false} StreamLength(blocks: Store, ids: seq<nat>)
    requires Leaves(blocks, ids) && ids != []
    ensures |Stream(blocks, ids)| == (|ids| - 1) * MAX_DATA + |blocks[ids[|ids| - 1]]|
  {
    if |ids| > 1 {
      StreamLength(blocks, ids[1..]);
      assert ids[1..][|ids| - 2] == ids[|ids| - 1];
    } else {
      assert ids[1..] == [];
    }
  }

  /** The byte count `assembleDataTree` records for the XBLOCK over leaves i..i+n is
      the number of bytes those leaves hold. */
  lemma SliceLength(blocks: Store, ids: seq<nat>, i: nat, n: nat)
    requires Leaves(blocks, ids) && 0 < n && i + n <= |ids|
    ensures Leaves(blocks, ids[i..i + n])
    ensures |Stream(blocks, ids[i..i + n])| ==
            if n * MAX_DATA < |Stream(blocks, ids)| - i * MAX_DATA then n * MAX_DATA
            else |Stream(blocks, ids)| - i * MAX_DATA
  {
    var s := ids[i..i + n];
    assert forall k :: 0 <= k < n ==> s[k] == ids[i + k];
    StreamLength(blocks, s);
    StreamLength(blocks, ids);
    if i + n < |ids| {
      assert |blocks[s[n - 1]]| == MAX_DATA;
      assert |Stream(blocks, s)| == n * MAX_DATA;
      assert (|ids| - 1) * MAX_DATA >= (i + n) * MAX_DATA;
    } else {
      assert s[n - 1] == ids[|ids| - 1];
    }
  }

  /** Under the 4 GiB limit the top level never has more than 1021 children. */
  lemma TwoLevelsSuffice(blocks: Store, ids: seq<nat>)
    requires Leaves(blocks, ids) && ids != [] && |Stream(blocks, ids)| < U32
    ensures |ids| <= X_FANOUT * X_FANOUT
  {
    StreamLength(blocks, ids);
  }
}
