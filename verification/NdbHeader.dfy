/** The header and the fixed pages, written last ([MS-PST] sections 2.2.2.6, 2.2.2.7.2
    and 2.2.2.7.3). */
module NdbHeader {
  import opened Bytes
  import opened PageTree
  import opened NdbFile
  import opened NodeId
  import Space

  const HEADER_SIZE: nat := 564

  datatype Bref = Bref(bid: nat, ib: nat)

  // --------------------------------------------------------------- marks

  /** rgnid[t]: an index above every one used for node type `t`. */
  function Mark(nbt: seq<NbtEntry>, t: nat): nat {
    if nbt == [] then FIRST_INDEX
    else
      var m := Mark(nbt[..|nbt| - 1], t);
      var n := nbt[|nbt| - 1].nid;
      if NidType(n) == t && NidIndex(n) + 1 > m then NidIndex(n) + 1 else m
  }

  /** The loop of `writeHeader` over the registered nodes. */
  method ComputeMarks(nbt: seq<NbtEntry>) returns (marks: seq<nat>)
    ensures |marks| == 32 && forall t :: 0 <= t < 32 ==> marks[t] == Mark(nbt, t)
  {
    marks := seq(32, _ => FIRST_INDEX);
    for i := 0 to |nbt|
      invariant |marks| == 32 && forall t :: 0 <= t < 32 ==> marks[t] == Mark(nbt[..i], t)
    {
      assert nbt[..i + 1][..i] == nbt[..i];
      var t := NidType(nbt[i].nid);
      var candidate := NidIndex(nbt[i].nid) + 1;
      if candidate > marks[t] {
        marks := marks[t := candidate];
      }
    }
    assert nbt[..|nbt|] == nbt;
  }

  /** Every mark is beyond every index in use, and no higher than it has to be. */
  lemma {:induction false} MarkExceeds(nbt: seq<NbtEntry>, t: nat)
    ensures Mark(nbt, t) >= FIRST_INDEX
    ensures forall i :: 0 <= i < |nbt| && NidType(nbt[i].nid) == t ==> NidIndex(nbt[i].nid) < Mark(nbt, t)
    ensures Mark(nbt, t) == FIRST_INDEX ||
            exists i :: 0 <= i < |nbt| && NidType(nbt[i].nid) == t && NidIndex(nbt[i].nid) + 1 == Mark(nbt, t)
  {
    if nbt != [] {
      var init := nbt[..|nbt| - 1];
      MarkExceeds(init, t);
      assert nbt == init + [nbt[|nbt| - 1]];
      if Mark(init, t) != FIRST_INDEX && Mark(nbt, t) == Mark(init, t) {
        var i :| 0 <= i < |init| && NidType(init[i].nid) == t && NidIndex(init[i].nid) + 1 == Mark(init, t);
        assert nbt[i] == init[i];
      }
    }
  }

  // -------------------------------------------------------------- header

  function Put32s(vs: seq<nat>): (s: Buf)
    ensures |s| == 4 * |vs|
  {
    if vs == [] then [] else Put32(vs[0]) + Put32s(vs[1..])
  }

  lemma {:induction false} Put32sAt(vs: seq<nat>, i: nat)
    requires i < |vs|
    ensures Put32s(vs)[4 * i..4 * i + 4] == Put32(vs[i])
  {
    if i > 0 {
      Put32sAt(vs[1..], i - 1);
      assert Put32s(vs)[4 * i..4 * i + 4] == Put32s(vs[1..])[4 * (i - 1)..4 * (i - 1) + 4];
    }
  }

  /** The ROOT structure: end of file, last AMap, free space, the two root references. */
  function Root(fileEnd: nat, lastAMap: nat, free: nat, nbt: Bref, bbt: Bref): (s: Buf)
    ensures |s| == 72
  {
    Put32(0) + Put64(fileEnd) + Put64(lastAMap) + Put64(free) + Put64(0)
    + Put64(nbt.bid) + Put64(nbt.ib) + Put64(bbt.bid) + Put64(bbt.ib) + [2, 0] + Put16(0)
  }

  /** The bytes from wMagicClient up to the ROOT. */
  function Opening(nextBid: nat, marks: seq<nat>): (s: Buf)
    requires |marks| == 32
    ensures |s| == 172
  {
    Put16(0x4D53) + Put16(23) + Put16(19) + [1, 1] + Zeros(8) + Zeros(8) + Put64(nextBid) + Put32(1)
    + Put32s(marks) + Zeros(8)
  }

  /** The bytes after the ROOT up to bidNextB. */
  function Closing(nextBid: nat): (s: Buf)
    ensures |s| == 272
  {
    Zeros(4) + Fill(0xFF, 256) + [0x80, 0] + Zeros(2) + Put64(nextBid)
  }

  /** The whole header, with both checksums over what they are stated to cover. */
  function Header(s: Sums, nextBid: nat, marks: seq<nat>, root: Buf): (h: Buf)
    requires |marks| == 32 && |root| == 72
    ensures |h| == HEADER_SIZE
  {
    var covered := Opening(nextBid, marks) + root + Closing(nextBid);
    Put32(0x4E444221) + Put32(s.crc(covered[..471])) + covered + Put32(s.crc(covered)) + Zeros(36)
  }

  lemma HeaderParts(s: Sums, nextBid: nat, marks: seq<nat>, root: Buf)
    requires |marks| == 32 && |root| == 72
    ensures var h := Header(s, nextBid, marks, root);
            h[8..180] == Opening(nextBid, marks) && h[180..252] == root && h[252..524] == Closing(nextBid)
  {
    hide Opening, Closing;
    var covered := Opening(nextBid, marks) + root + Closing(nextBid);
    var h := Header(s, nextBid, marks, root);
    assert h[8..524] == covered;
    assert h[8..180] == covered[..172] && h[180..252] == covered[172..244] && h[252..524] == covered[244..];
  }

  /** What a reader finds in the ROOT of a header. */
  predicate RootReads(file: Buf, fileEnd: nat, lastAMap: nat, free: nat, nbt: Bref, bbt: Bref) {
    && Peek64At(file, 184) == fileEnd && Peek64At(file, 192) == lastAMap && Peek64At(file, 200) == free
    && Peek64At(file, 208) == 0
    && Peek64At(file, 216) == nbt.bid && Peek64At(file, 224) == nbt.ib
    && Peek64At(file, 232) == bbt.bid && Peek64At(file, 240) == bbt.ib
  }

  /** A field inside a part of the file that is known byte for byte. */
  lemma FieldAt(file: Buf, a: nat, part: Buf, off: nat, v: nat)
    requires a + |part| <= |file| && file[a..a + |part|] == part && off + 8 <= |part|
    requires part[off..off + 8] == Put64(v) && v < U64
    ensures Peek64At(file, a + off) == v
  {
    PeekPut64(v);
    SliceOfSlice(file, a, a + |part|, off, off + 8);
  }

  lemma RootRoundTrip(file: Buf, fileEnd: nat, lastAMap: nat, free: nat, nbt: Bref, bbt: Bref)
    requires |file| >= HEADER_SIZE && file[180..252] == Root(fileEnd, lastAMap, free, nbt, bbt)
    requires fileEnd < U64 && lastAMap < U64 && free < U64
    requires nbt.bid < U64 && nbt.ib < U64 && bbt.bid < U64 && bbt.ib < U64
    ensures RootReads(file, fileEnd, lastAMap, free, nbt, bbt)
  {
    hide Le, Peek, Put64, Put32, Put16, Peek64At;
    var r := Root(fileEnd, lastAMap, free, nbt, bbt);
    FieldAt(file, 180, r, 4, fileEnd);
    FieldAt(file, 180, r, 12, lastAMap);
    FieldAt(file, 180, r, 20, free);
    FieldAt(file, 180, r, 28, 0);
    FieldAt(file, 180, r, 36, nbt.bid);
    FieldAt(file, 180, r, 44, nbt.ib);
    FieldAt(file, 180, r, 52, bbt.bid);
    FieldAt(file, 180, r, 60, bbt.ib);
  }

  /** What a reader finds in rgnid and in the two next-block-id fields. */
  predicate CountersRead(file: Buf, nextBid: nat, marks: seq<nat>)
    requires |marks| == 32
  {
    && Peek64At(file, 32) == nextBid && Peek64At(file, 516) == nextBid
    && forall t :: 0 <= t < 32 ==> Peek32At(file, 44 + 4 * t) == marks[t]
  }

  lemma CountersRoundTrip(file: Buf, nextBid: nat, marks: seq<nat>)
    requires |marks| == 32 && |file| >= HEADER_SIZE
    requires file[8..180] == Opening(nextBid, marks) && file[252..524] == Closing(nextBid)
    requires nextBid < U64 && forall t :: 0 <= t < 32 ==> marks[t] < U32
    ensures CountersRead(file, nextBid, marks)
  {
    hide Le, Peek, Put64, Put32, Put16, Put32s, Peek64At, Peek32At;
    FieldAt(file, 8, Opening(nextBid, marks), 24, nextBid);
    FieldAt(file, 252, Closing(nextBid), 264, nextBid);
    assert Opening(nextBid, marks)[36..164] == Put32s(marks);
    forall t | 0 <= t < 32 ensures Peek32At(file, 44 + 4 * t) == marks[t] {
      MarkReads(file, Opening(nextBid, marks), marks, t);
    }
  }

  lemma MarkReads(file: Buf, o: Buf, marks: seq<nat>, t: nat)
    requires |marks| == 32 && t < 32 && |o| == 172 && |file| >= HEADER_SIZE && file[8..180] == o
    requires o[36..164] == Put32s(marks) && marks[t] < U32
    ensures Peek32At(file, 44 + 4 * t) == marks[t]
  {
    Put32sAt(marks, t);
    PeekPut32(marks[t]);
    SliceOfSlice(o, 36, 164, 4 * t, 4 * t + 4);
    SliceOfSlice(file, 8, 180, 36 + 4 * t, 40 + 4 * t);
  }

  // ---------------------------------------------------------- fixed pages

  /** An AMap or PMap page: its trailer carries the file offset as its id and no
      signature; only the density list page is signed. */
  function FixedPage(s: Sums, ib: nat, ptype: byte, body: Buf, sig: nat, bid: nat): (page: Buf)
    requires |body| == Space.MAP_BYTES
    ensures |page| == Space.PAGE && page[..Space.MAP_BYTES] == body
  {
    body + ([ptype, ptype] + Put16(sig) + Put32(s.crc(body)) + Put64(bid))
  }

  function MapPage(s: Sums, ib: nat, ptype: byte, body: Buf): (page: Buf)
    requires |body| == Space.MAP_BYTES
    ensures |page| == Space.PAGE && page[..Space.MAP_BYTES] == body
  {
    FixedPage(s, ib, ptype, body, 0, ib)
  }

  /** Rewriting a fixed page inside the file touches nothing else. */
  lemma FixedWriteKeeps(file: Buf, ib: nat, d: Buf)
    requires Space.IsReservedPage(ib) && |d| == Space.PAGE && ib + Space.PAGE <= |file|
    ensures |Splice(file, ib, d)| == |file| && Keeps(file, Splice(file, ib, d))
  {
    Space.ReservedCases(ib);
    forall i | ib <= i < ib + Space.PAGE ensures InFixedPage(i) {
      ModUnique(i, Space.PAGE, ib / Space.PAGE, i - ib);
    }
  }

  lemma HeaderWriteKeeps(file: Buf, h: Buf)
    requires |h| == HEADER_SIZE && |file| >= Space.FIRST_DATA
    ensures |Splice(file, 0, h)| == |file| && Keeps(file, Splice(file, 0, h))
  {
  }

  /** A write elsewhere leaves a range as it is. */
  lemma SpliceElsewhere(file: Buf, ib: nat, d: Buf, a: nat, n: nat)
    requires ib + |d| <= |file| && a + n <= |file| && (a + n <= ib || ib + |d| <= a)
    ensures Sub(Splice(file, ib, d), a, n) == Sub(file, a, n)
  {
    var g := Splice(file, ib, d);
    assert forall i :: a <= i < a + n ==> g[i] == file[i];
  }
}
