/** The row matrix as the streaming table emits it: full blocks out, one being filled. */
module RowStream {
  import opened Bytes
  import opened Sorting
  import opened HeapFormat
  import opened BthFormat
  import opened DataTree
  import opened TableFormat
  import opened RowMatrix
  import Bth

  predicate AllFull(blocks: Store, leaves: seq<nat>) {
    forall k :: 0 <= k < |leaves| ==> leaves[k] in blocks && !IsInternal(leaves[k]) && |blocks[leaves[k]]| == BLOCK
  }

  /** The blocks out and the block being filled together are the packed rows. */
  ghost predicate RowsOut(blocks: Store, leaves: seq<nat>, block: Buf, images: seq<Buf>, rs: nat, bytes: nat) {
    && 0 < rs <= BLOCK && AllSized(images, rs) && AllFull(blocks, leaves) && bytes == |leaves| * BLOCK
    && Stream(blocks, leaves) + block == Packed(images, rs)
    && FirstRow(rs, |leaves|) <= |images| <= FirstRow(rs, |leaves|) + RowsPerBlock(rs)
    && |block| == (|images| - FirstRow(rs, |leaves|)) * rs
    && (images != [] ==> block != [])
  }

  lemma NoRowsOut(blocks: Store, rs: nat)
    requires 0 < rs <= BLOCK
    ensures RowsOut(blocks, [], [], [], rs, 0)
  {
    FirstRowNext(rs, 0);
    PerBlockPositive(rs);
    assert Stream(blocks, []) == [];
  }

  lemma RowsOutGrow(a: Store, b: Store, leaves: seq<nat>, block: Buf, images: seq<Buf>, rs: nat, bytes: nat)
    requires Extends(a, b) && RowsOut(a, leaves, block, images, rs, bytes)
    ensures RowsOut(b, leaves, block, images, rs, bytes)
  {
    hide Packed, FirstRow, RowsPerBlock;
    forall k | 0 <= k < |leaves| ensures leaves[k] in a && leaves[k] in b && b[leaves[k]] == a[leaves[k]] {
    }
    StreamGrow(a, b, leaves);
  }

  lemma {:induction false} FullStream(blocks: Store, leaves: seq<nat>)
    requires AllFull(blocks, leaves)
    ensures |Stream(blocks, leaves)| == |leaves| * BLOCK
  {
    if leaves != [] { FullStream(blocks, leaves[1..]); }
  }

  /** Whether the block being filled can take another row. */
  lemma RoomInBlock(blocks: Store, leaves: seq<nat>, block: Buf, images: seq<Buf>, rs: nat, bytes: nat)
    requires RowsOut(blocks, leaves, block, images, rs, bytes)
    ensures |block| + rs > RowsPerBlock(rs) * rs <==> |images| == FirstRow(rs, |leaves|) + RowsPerBlock(rs)
    ensures |block| <= BLOCK && (|images| == FirstRow(rs, |leaves|) + RowsPerBlock(rs) ==> block != [])
  {
    hide FirstRow, RowsPerBlock, Packed, Stream;
    var m, per := |images| - FirstRow(rs, |leaves|), RowsPerBlock(rs);
    PerBlockPositive(rs);
    OneMore(m + 1, rs);
    Bth.Scale(m, per, rs);
    if m < per { Bth.Scale(m + 1, per, rs); }
  }

  lemma AppendInBlock(blocks: Store, leaves: seq<nat>, block: Buf, images: seq<Buf>, rs: nat, bytes: nat, image: Buf)
    requires RowsOut(blocks, leaves, block, images, rs, bytes) && |image| == rs
    requires |images| < FirstRow(rs, |leaves|) + RowsPerBlock(rs)
    ensures RowsOut(blocks, leaves, block + image, images + [image], rs, bytes)
  {
    PackedNext(blocks, leaves, block, images, rs, bytes, image);
    hide RowsPerBlock, FirstRow, Packed, Stream;
    OneMore(|images| - FirstRow(rs, |leaves|) + 1, rs);
    Regroup(Stream(blocks, leaves), block, image);
  }

  lemma PackedNext(blocks: Store, leaves: seq<nat>, block: Buf, images: seq<Buf>, rs: nat, bytes: nat, image: Buf)
    requires RowsOut(blocks, leaves, block, images, rs, bytes) && |image| == rs
    ensures Packed(images + [image], rs) ==
            if |images| < FirstRow(rs, |leaves|) + RowsPerBlock(rs) then Packed(images, rs) + image
            else if |block| <= BLOCK then Packed(images, rs) + Zeros(BLOCK - |block|) + image else []
    ensures |block| <= BLOCK
  {
    hide RowsPerBlock, Packed, Stream;
    FullStream(blocks, leaves);
    PackedSnoc(images, image, rs, |leaves|, |images| - FirstRow(rs, |leaves|));
  }

  /** A full block goes out padded, and the row starts the next. */
  lemma AppendAfterFlush(a: Store, b: Store, leaves: seq<nat>, block: Buf, images: seq<Buf>, rs: nat, bytes: nat, image: Buf, leaf: nat)
    requires RowsOut(a, leaves, block, images, rs, bytes) && |image| == rs && Extends(a, b)
    requires |images| == FirstRow(rs, |leaves|) + RowsPerBlock(rs)
    requires |block| <= BLOCK && leaf in b && !IsInternal(leaf) && b[leaf] == block + Zeros(BLOCK - |block|)
    ensures RowsOut(b, leaves + [leaf], image, images + [image], rs, bytes + BLOCK)
  {
    PackedNext(a, leaves, block, images, rs, bytes, image);
    RowsOutGrow(a, b, leaves, block, images, rs, bytes);
    FirstRowNext(rs, |leaves|);
    PerBlockPositive(rs);
    StreamOne(b, leaves, leaf);
    hide RowsPerBlock, FirstRow, Packed, Stream;
    OneMore(1, rs);
    var pad := Zeros(BLOCK - |block|);
    Regroup(Stream(b, leaves), block, pad);
  }

  lemma StreamOne(blocks: Store, leaves: seq<nat>, leaf: nat)
    requires leaf in blocks && forall k :: 0 <= k < |leaves| ==> leaves[k] in blocks
    ensures Stream(blocks, leaves + [leaf]) == Stream(blocks, leaves) + blocks[leaf]
  {
    StreamConcat(blocks, leaves, [leaf]);
    assert Stream(blocks, [leaf]) == blocks[leaf] + Stream(blocks, [leaf][1..]);
    assert Stream(blocks, [leaf]) == blocks[leaf] + [];
  }

  /** At the end the last block goes out as it is; the tree then holds the packed rows. */
  lemma LastBlock(a: Store, b: Store, leaves: seq<nat>, block: Buf, images: seq<Buf>, rs: nat, bytes: nat, leaf: nat)
    requires RowsOut(a, leaves, block, images, rs, bytes) && Extends(a, b) && images != []
    requires leaf in b && !IsInternal(leaf) && b[leaf] == block
    ensures Leaves(b, leaves + [leaf]) && Stream(b, leaves + [leaf]) == Packed(images, rs)
    ensures |Stream(b, leaves + [leaf])| == bytes + |block|
  {
    RoomInBlock(a, leaves, block, images, rs, bytes);
    RowsOutGrow(a, b, leaves, block, images, rs, bytes);
    hide RowsPerBlock, FirstRow, Packed, Stream;
    StreamOne(b, leaves, leaf);
    FullStream(b, leaves);
  }

  // ----------------------------------------------------------- the row index

  function FirstOf(): ((nat, nat)) -> nat { (p: (nat, nat)) => p.0 }

  function PairRecord(p: (nat, nat)): Record { Record(Put32(p.0), Put32(p.1)) }

  function PairRecords(ps: seq<(nat, nat)>): (rs: seq<Record>)
    ensures |rs| == |ps| && forall i :: 0 <= i < |rs| ==> rs[i] == PairRecord(ps[i])
  {
    seq(|ps|, i requires 0 <= i < |ps| => PairRecord(ps[i]))
  }

  lemma HeadRecord(x: (nat, nat), s: seq<(nat, nat)>)
    ensures PairRecords([x] + s) == [PairRecord(x)] + PairRecords(s)
    ensures multiset(PairRecords([x] + s)) == multiset(PairRecords(s)) + multiset{PairRecord(x)}
  {
    hide PairRecord;
    assert PairRecords([x] + s) == [PairRecord(x)] + PairRecords(s);
  }

  lemma {:induction false} InsertRecords(x: (nat, nat), s: seq<(nat, nat)>)
    ensures multiset(PairRecords(Insert(x, s, FirstOf()))) == multiset(PairRecords(s)) + multiset{PairRecord(x)}
  {
    hide PairRecord, PairRecords, FirstOf;
    if s == [] || FirstOf()(x) <= FirstOf()(s[0]) {
      HeadRecord(x, s);
      assert [x] + [] == [x];
    } else {
      InsertRecords(x, s[1..]);
      HeadRecord(s[0], Insert(x, s[1..], FirstOf()));
      HeadRecord(s[0], s[1..]);
      assert s == [s[0]] + s[1..];
    }
  }

  /** Sorting the pairs first only permutes the records. */
  lemma {:induction false} SortedRecords(s: seq<(nat, nat)>)
    ensures multiset(PairRecords(SortBy(s, FirstOf()))) == multiset(PairRecords(s))
  {
    hide PairRecord;
    if s != [] {
      SortedRecords(s[1..]);
      InsertRecords(s[0], SortBy(s[1..], FirstOf()));
      assert PairRecords(s) == [PairRecord(s[0])] + PairRecords(s[1..]);
    }
  }
}
