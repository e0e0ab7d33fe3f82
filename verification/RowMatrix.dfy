/** The row matrix in its two forms: inline in the heap, and cut into blocks that hold
    whole rows. Both put row `i` where RowAt says. */
module RowMatrix {
  import opened Bytes
  import opened HeapFormat
  import opened TableFormat
  import Bth
  import BthFormat

  /** Rows packed block by block; a block that is full is padded when the next row comes. */
  function Packed(images: seq<Buf>, rs: nat): (m: Buf) {
    if images == [] then []
    else
      var n := |images| - 1;
      var front := Packed(images[..n], rs);
      front + Zeros(if |front| <= RowAt(rs, n) then RowAt(rs, n) - |front| else 0) + images[n]
  }

  predicate AllSized(images: seq<Buf>, rs: nat) {
    forall i :: 0 <= i < |images| ==> |images[i]| == rs
  }

  lemma RowAtSplit(rs: nat, blocks: nat, m: nat)
    requires 0 < rs <= BLOCK && m < RowsPerBlock(rs)
    ensures RowAt(rs, blocks * RowsPerBlock(rs) + m) == blocks * BLOCK + m * rs
  {
    PerBlockPositive(rs);
    var per := RowsPerBlock(rs);
    ModUnique(blocks * per + m, per, blocks, m);
  }

  /** A row number as a block and a place in it. */
  lemma RowParts(rs: nat, i: nat) returns (blocks: nat, m: nat)
    requires 0 < rs <= BLOCK
    ensures m < RowsPerBlock(rs) && i == blocks * RowsPerBlock(rs) + m && RowAt(rs, i) == blocks * BLOCK + m * rs
  {
    PerBlockPositive(rs);
    blocks, m := i / RowsPerBlock(rs), i % RowsPerBlock(rs);
  }

  /** Rows follow one another without overlap, and none crosses into the next block. */
  lemma RowAtNext(rs: nat, i: nat)
    requires 0 < rs <= BLOCK
    ensures RowAt(rs, i) + rs <= RowAt(rs, i + 1)
    ensures RowAt(rs, i) / BLOCK == (RowAt(rs, i) + rs - 1) / BLOCK
  {
    var b, m := RowParts(rs, i);
    var per := RowsPerBlock(rs);
    PerBlockPositive(rs);
    Bth.Scale(m + 1, per, rs);
    assert (m + 1) * rs == m * rs + rs;
    if m + 1 < per {
      RowAtSplit(rs, b, m + 1);
    } else {
      assert i + 1 == (b + 1) * per + 0;
      RowAtSplit(rs, b + 1, 0);
    }
    ModUnique(RowAt(rs, i), BLOCK, b, m * rs);
    ModUnique(RowAt(rs, i) + rs - 1, BLOCK, b, m * rs + rs - 1);
  }

  lemma {:induction false} PackedLength(images: seq<Buf>, rs: nat)
    requires 0 < rs <= BLOCK && AllSized(images, rs)
    ensures |Packed(images, rs)| == if images == [] then 0 else RowAt(rs, |images| - 1) + rs
  {
    hide RowAt;
    if images != [] {
      var n := |images| - 1;
      PackedLength(images[..n], rs);
      if n > 0 { RowAtNext(rs, n - 1); }
    }
  }

  lemma {:induction false} PackedHolds(images: seq<Buf>, rs: nat)
    requires 0 < rs <= BLOCK && AllSized(images, rs)
    ensures MatrixHolds(Packed(images, rs), images, rs)
  {
    hide RowAt, Sub;
    if images != [] {
      var n := |images| - 1;
      var front, m := Packed(images[..n], rs), Packed(images, rs);
      PackedHolds(images[..n], rs);
      PackedLength(images[..n], rs);
      PackedLength(images, rs);
      if n > 0 { RowAtNext(rs, n - 1); }
      var pad := Zeros(RowAt(rs, n) - |front|);
      assert m == front + pad + images[n];
      forall i | 0 <= i < |images| ensures RowAt(rs, i) + rs <= |m| && Sub(m, RowAt(rs, i), rs) == images[i] {
        if i < n {
          assert Sub(front, RowAt(rs, i), rs) == images[..n][i];
          SubInFront(front, pad + images[n], RowAt(rs, i), rs);
          Regroup(front, pad, images[n]);
        } else {
          SubAtEnd(front + pad, images[n], rs);
        }
      }
    }
  }

  lemma SubInFront(a: Buf, b: Buf, at: nat, n: nat)
    requires at + n <= |a|
    ensures Sub(a + b, at, n) == Sub(a, at, n)
  {
  }

  lemma SubAtEnd(a: Buf, b: Buf, n: nat)
    requires |b| == n
    ensures Sub(a + b, |a|, n) == b
  {
  }

  lemma {:induction false} ConcatLength(images: seq<Buf>, rs: nat)
    requires AllSized(images, rs)
    ensures |Concat(images)| == |images| * rs
  {
    if images != [] {
      ConcatLength(images[..|images| - 1], rs);
      assert |images| * rs == (|images| - 1) * rs + rs;
    }
  }

  /** Rows that fit one allocation lie where the reader looks for them. */
  lemma InlineHolds(images: seq<Buf>, rs: nat)
    requires 0 < rs <= BLOCK && AllSized(images, rs) && |Concat(images)| <= MAX_ALLOC
    ensures MatrixHolds(Concat(images), images, rs)
  {
    hide Concat, RowAt;
    var per := RowsPerBlock(rs);
    PerBlockPositive(rs);
    ConcatLength(images, rs);
    Bth.Quotient(BLOCK, rs, |images|);
    forall i | 0 <= i < |images| ensures RowAt(rs, i) + rs <= |Concat(images)| && Sub(Concat(images), RowAt(rs, i), rs) == images[i] {
      RowAtSplit(rs, 0, i);
      ConcatAt(images, i);
      PrefixTotal(images, i, rs);
    }
  }

  lemma PrefixTotal(images: seq<Buf>, i: nat, rs: nat)
    requires AllSized(images, rs) && i <= |images|
    ensures Total(images[..i]) == i * rs
  {
    ConcatLength(images[..i], rs);
  }

  /** Packing goes on in the block being filled, or after padding a full one. */
  lemma PackedSnoc(images: seq<Buf>, image: Buf, rs: nat, blocks: nat, m: nat)
    requires 0 < rs <= BLOCK && AllSized(images, rs) && |image| == rs
    requires |images| == blocks * RowsPerBlock(rs) + m && m <= RowsPerBlock(rs)
    requires |Packed(images, rs)| == blocks * BLOCK + m * rs
    ensures Packed(images + [image], rs) ==
            if m < RowsPerBlock(rs) then Packed(images, rs) + image else Packed(images, rs) + Zeros(BLOCK - m * rs) + image
    ensures m * rs <= BLOCK
  {
    hide RowAt;
    var per, n := RowsPerBlock(rs), |images|;
    PerBlockPositive(rs);
    Bth.Scale(m, per, rs);
    assert (images + [image])[..n] == images;
    if m < per {
      RowAtSplit(rs, blocks, m);
      assert Packed(images, rs) + Zeros(0) == Packed(images, rs);
    } else {
      assert n == (blocks + 1) * per + 0;
      RowAtSplit(rs, blocks + 1, 0);
    }
  }

  // ---------------------------------------------------------------- padding

  /** The first row of a block. */
  function FirstRow(rs: nat, blocks: nat): nat
    requires rs > 0
  {
    blocks * RowsPerBlock(rs)
  }

  lemma FirstRowNext(rs: nat, blocks: nat)
    requires rs > 0
    ensures FirstRow(rs, blocks + 1) == FirstRow(rs, blocks) + RowsPerBlock(rs) && FirstRow(rs, 0) == 0
  {
    hide RowsPerBlock;
    BthFormat.OneMore(blocks + 1, RowsPerBlock(rs));
  }

  /** The first `blocks` blocks, all full. */
  function Full(images: seq<Buf>, rs: nat, blocks: nat): (m: Buf)
    requires rs > 0 && FirstRow(rs, blocks) <= |images|
  {
    var front := Packed(images[..FirstRow(rs, blocks)], rs);
    front + Zeros(if |front| <= blocks * BLOCK then blocks * BLOCK - |front| else 0)
  }

  lemma FullLength(images: seq<Buf>, rs: nat, blocks: nat)
    requires 0 < rs <= BLOCK && AllSized(images, rs) && FirstRow(rs, blocks) <= |images|
    ensures |Packed(images[..FirstRow(rs, blocks)], rs)| <= blocks * BLOCK == |Full(images, rs, blocks)|
  {
    hide RowAt, Packed, RowsPerBlock, FirstRow;
    var per := RowsPerBlock(rs);
    PerBlockPositive(rs);
    PackedLength(images[..FirstRow(rs, blocks)], rs);
    if blocks == 0 {
      FirstRowNext(rs, 0);
    } else {
      FirstRowNext(rs, blocks - 1);
      RowAtFirst(rs, blocks - 1, per - 1);
      BthFormat.OneMore(per, rs);
    }
  }

  lemma RowAtFirst(rs: nat, blocks: nat, m: nat)
    requires 0 < rs <= BLOCK && m < RowsPerBlock(rs)
    ensures RowAt(rs, FirstRow(rs, blocks) + m) == blocks * BLOCK + m * rs
  {
    hide RowAt, RowsPerBlock;
    RowAtSplit(rs, blocks, m);
  }

  lemma PackedStep(images: seq<Buf>, rs: nat, n: nat)
    requires n < |images| && |Packed(images[..n], rs)| <= RowAt(rs, n)
    ensures Packed(images[..n + 1], rs) == Packed(images[..n], rs) + Zeros(RowAt(rs, n) - |Packed(images[..n], rs)|) + images[n]
  {
    hide RowAt;
    assert images[..n + 1][..n] == images[..n];
  }

  lemma ConcatStep(images: seq<Buf>, i: nat, n: nat)
    requires i <= n < |images|
    ensures Concat(images[i..n + 1]) == Concat(images[i..n]) + images[n] && Concat(images[i..i]) == []
  {
    assert images[i..n + 1][..n - i] == images[i..n];
  }

  lemma Regroup(a: Buf, b: Buf, c: Buf)
    ensures (a + b) + c == a + (b + c) && a + [] == a && [] + c == c
  {
  }

  /** Rows of the next block follow the full ones back to back. */
  lemma {:induction false} ChunkPacked(images: seq<Buf>, rs: nat, blocks: nat, k: nat)
    requires 0 < rs <= BLOCK && AllSized(images, rs)
    requires 1 <= k <= RowsPerBlock(rs) && FirstRow(rs, blocks) + k <= |images|
    ensures var at := FirstRow(rs, blocks);
            Packed(images[..at + k], rs) == Full(images, rs, blocks) + Concat(images[at..at + k])
            && |Packed(images[..at + k], rs)| == blocks * BLOCK + k * rs
    decreases k
  {
    hide RowAt, Packed, Concat, FirstRow, RowsPerBlock;
    var at := FirstRow(rs, blocks);
    FullLength(images, rs, blocks);
    RowAtFirst(rs, blocks, k - 1);
    ConcatStep(images, at, at + k - 1);
    BthFormat.OneMore(k, rs);
    if k > 1 { ChunkPacked(images, rs, blocks, k - 1); }
    PackedStep(images, rs, at + k - 1);
    Regroup(Full(images, rs, blocks), Concat(images[at..at + k - 1]), images[at + k - 1]);
    Regroup(Packed(images[..at + k - 1], rs), [], images[at + k - 1]);
  }

  lemma {:induction false} ConcatConcat(a: seq<Buf>, b: seq<Buf>)
    ensures Concat(a + b) == Concat(a) + Concat(b)
  {
    if b == [] {
      assert a + b == a;
    } else {
      var n := |b| - 1;
      assert (a + b)[..|a| + n] == a + b[..n];
      ConcatConcat(a, b[..n]);
      Regroup(Concat(a), Concat(b[..n]), b[n]);
    }
  }

  lemma ConcatTake(images: seq<Buf>, i: nat, k: nat, rs: nat)
    requires i + k <= |images| && AllSized(images, rs)
    ensures i * rs + k * rs <= |Concat(images)| && Concat(images)[i * rs..i * rs + k * rs] == Concat(images[i..i + k])
  {
    hide Concat;
    var x, y, z := images[..i], images[i..i + k], images[i + k..];
    assert images == x + (y + z);
    ConcatConcat(x, y + z);
    ConcatConcat(y, z);
    ConcatLength(x, rs);
    ConcatLength(y, rs);
    SliceRight(Concat(x), Concat(y) + Concat(z), 0, |Concat(y)|);
  }

  /** One block of rows behind the full ones before it. */
  lemma PadChunk(matrix: Buf, images: seq<Buf>, rs: nat, blocks: nat, i: nat, k: nat)
    requires 0 < rs <= BLOCK && AllSized(images, rs) && matrix == Concat(images) && i == FirstRow(rs, blocks) < |images|
    requires k == if RowsPerBlock(rs) <= |images| - i then RowsPerBlock(rs) else |images| - i
    ensures k > 0 && i * rs + k * rs <= |matrix|
    ensures i + k == |images| ==> Full(images, rs, blocks) + matrix[i * rs..i * rs + k * rs] == Packed(images, rs)
    ensures i + k < |images| ==> i + k == FirstRow(rs, blocks + 1) && k * rs <= BLOCK
    ensures i + k < |images| ==>
              Full(images, rs, blocks) + matrix[i * rs..i * rs + k * rs] + Zeros(BLOCK - k * rs) == Full(images, rs, blocks + 1)
  {
    hide RowAt, Packed, Concat, Full, FirstRow, RowsPerBlock, AllSized;
    PerBlockPositive(rs);
    ConcatTake(images, i, k, rs);
    ChunkPacked(images, rs, blocks, k);
    FirstRowNext(rs, blocks);
    if i + k < |images| {
      FullAfter(images, rs, blocks);
    } else {
      assert images[..|images|] == images;
    }
  }

  /** Cutting a flat matrix into padded blocks. */
  method Pad(matrix: Buf, n: nat, rs: nat, ghost images: seq<Buf>) returns (padded: Buf)
    requires 0 < rs <= BLOCK && AllSized(images, rs) && n == |images| > 0 && matrix == Concat(images)
    ensures padded == Packed(images, rs)
  {
    hide RowAt, Packed, Concat, Full, FirstRow, RowsPerBlock, AllSized;
    var per := RowsPerBlock(rs);
    PerBlockPositive(rs);
    padded := [];
    var i := 0;
    ghost var blocks := 0;
    FirstRowNext(rs, 0);
    FullNone(images, rs);
    while i < n
      invariant i <= n && (i < n ==> i == FirstRow(rs, blocks) && padded == Full(images, rs, blocks))
      invariant i == n ==> padded == Packed(images, rs)
    {
      var k := if per <= n - i then per else n - i;
      PadChunk(matrix, images, rs, blocks, i, k);
      padded := padded + matrix[i * rs..i * rs + k * rs];
      if i + k < n {
        padded := padded + Zeros(BLOCK - k * rs);
      }
      i := i + k;
      blocks := blocks + 1;
    }
  }

  lemma FullNone(images: seq<Buf>, rs: nat)
    requires rs > 0
    ensures FirstRow(rs, 0) == 0 && Full(images, rs, 0) == []
  {
    FirstRowNext(rs, 0);
  }

  lemma FullAfter(images: seq<Buf>, rs: nat, blocks: nat)
    requires 0 < rs <= BLOCK && AllSized(images, rs) && FirstRow(rs, blocks + 1) <= |images|
    ensures RowsPerBlock(rs) * rs <= BLOCK
    ensures Full(images, rs, blocks + 1)
            == Packed(images[..FirstRow(rs, blocks + 1)], rs) + Zeros(BLOCK - RowsPerBlock(rs) * rs)
  {
    hide RowAt, Packed, Concat, RowsPerBlock, FirstRow;
    PerBlockPositive(rs);
    FirstRowNext(rs, blocks);
    ChunkPacked(images, rs, blocks, RowsPerBlock(rs));
  }
}
