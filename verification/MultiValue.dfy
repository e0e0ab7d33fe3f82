/** PT_MV_UNICODE values ([MS-PST] section 2.3.3.4.2). */
module MultiValue {
  import opened Bytes
  import opened Wrappers

  /** PT_MV_UNICODE: a count, an offset per item, then the items. */
  function OffsetsFrom(items: seq<Buf>, off: nat): (b: Buf)
    ensures |b| == 4 * |items|
  {
    if items == [] then [] else Put32(off) + OffsetsFrom(items[1..], off + |items[0]|)
  }

  function Joined(items: seq<Buf>): Buf {
    if items == [] then [] else items[0] + Joined(items[1..])
  }

  function StringArray(items: seq<Buf>): Buf {
    Put32(|items|) + OffsetsFrom(items, 4 + 4 * |items|) + Joined(items)
  }

  /** Item `k`: from its offset to the next one's, or to the end. */
  function ArrayItem(b: Buf, k: nat): Option<Buf> {
    var n := Peek32At(b, 0);
    if k >= n then None
    else
      var from, to := Peek32At(b, 4 + 4 * k), if k + 1 < n then Peek32At(b, 8 + 4 * k) else |b|;
      if from <= to <= |b| then Some(b[from..to]) else None
  }

  lemma {:induction false} OffsetsFromAt(items: seq<Buf>, off: nat, k: nat)
    requires k < |items|
    ensures OffsetsFrom(items, off)[4 * k..4 * k + 4] == Put32(off + |Joined(items[..k])|)
  {
    hide Put32;
    if k == 0 {
      assert Joined(items[..0]) == [];
    } else {
      OffsetsFromAt(items[1..], off + |items[0]|, k - 1);
      assert items[..k][1..] == items[1..][..k - 1];
      SliceRight(Put32(off), OffsetsFrom(items[1..], off + |items[0]|), 4 * (k - 1), 4 * k);
    }
  }

  lemma {:induction false} JoinedConcat(a: seq<Buf>, b: seq<Buf>)
    ensures Joined(a + b) == Joined(a) + Joined(b)
  {
    if a == [] {
      assert a + b == b;
    } else {
      assert (a + b)[1..] == a[1..] + b;
      JoinedConcat(a[1..], b);
    }
  }

  lemma JoinedOne(item: Buf)
    ensures Joined([item]) == item
  {
    assert item + [] == item;
  }

  /** Where item `k` lies among the joined items. */
  lemma JoinedAt(items: seq<Buf>, k: nat)
    requires k < |items|
    ensures Joined(items) == Joined(items[..k]) + items[k] + Joined(items[k + 1..])
    ensures Joined(items[..k + 1]) == Joined(items[..k]) + items[k]
    ensures Joined(items[k..]) == items[k] + Joined(items[k + 1..])
  {
    assert Joined(items[k..]) == items[k] + Joined(items[k..][1..]) && items[k..][1..] == items[k + 1..];
    hide Joined;
    assert items == items[..k] + items[k..];
    JoinedConcat(items[..k], items[k..]);
    assert items[..k + 1] == items[..k] + [items[k]];
    JoinedConcat(items[..k], [items[k]]);
    JoinedOne(items[k]);
    Regroup3(Joined(items[..k]), items[k], Joined(items[k + 1..]));
  }

  /** Every item comes back from the array, as long as its size fits 32 bits. */
  lemma StringArrayReads(items: seq<Buf>, k: nat)
    requires k < |items| && |StringArray(items)| < U32
    ensures ArrayItem(StringArray(items), k) == Some(items[k])
    ensures Peek32At(StringArray(items), 0) == |items|
  {
    hide Put32, Peek, Joined, OffsetsFrom;
    var b, base := StringArray(items), 4 + 4 * |items|;
    var head := Put32(|items|) + OffsetsFrom(items, base);
    PeekPut32(|items|);
    assert b[0..4] == Put32(|items|);
    JoinedAt(items, k);
    var from := base + |Joined(items[..k])|;
    ArrayOffset(items, k);
    if k + 1 < |items| { ArrayOffset(items, k + 1); }
    var x, y, z := Joined(items[..k]), items[k], Joined(items[k + 1..]);
    assert b == (head + x) + (y + z);
    SliceRight(head + x, y + z, 0, |y|);
    assert (y + z)[0..|y|] == y;
    JoinedNone(items);
  }

  lemma ArrayOffset(items: seq<Buf>, k: nat)
    requires k < |items| && |StringArray(items)| < U32
    ensures Peek32At(StringArray(items), 4 + 4 * k) == 4 + 4 * |items| + |Joined(items[..k])|
  {
    hide Put32, Peek, Joined, OffsetsFrom;
    var base := 4 + 4 * |items|;
    JoinedAt(items, k);
    OffsetsFromAt(items, base, k);
    var front, os, rest := Put32(|items|), OffsetsFrom(items, base), Joined(items);
    assert StringArray(items) == front + (os + rest);
    SliceRight(front, os + rest, 4 * k, 4 * k + 4);
    assert (os + rest)[4 * k..4 * k + 4] == os[4 * k..4 * k + 4];
    PeekPut32(base + |Joined(items[..k])|);
  }

  method AppendOffsets(head: Buf, items: seq<Buf>) returns (buf: Buf)
    ensures |StringArray(items)| < U32 ==> buf == head + OffsetsFrom(items, 4 + 4 * |items|)
  {
    hide Put32, Joined;
    buf := head;
    var off: nat := (4 + 4 * |items|) % U32;
    ghost var whole, all := |StringArray(items)| < U32, OffsetsFrom(items, 4 + 4 * |items|);
    JoinedNone(items);
    for k := 0 to |items|
      invariant whole ==> off == 4 + 4 * |items| + |Joined(items[..k])|
      invariant whole ==> buf + OffsetsFrom(items[k..], off) == head + all
    {
      JoinedAt(items, k);
      assert items[k..][1..] == items[k + 1..];
      if whole { Regroup3(buf, Put32(off), OffsetsFrom(items[k + 1..], off + |items[k]|)); }
      buf := buf + Put32(off);
      off := (off + |items[k]|) % U32;
    }
    assert buf + [] == buf;
  }

  lemma JoinedNone(items: seq<Buf>)
    ensures Joined(items[..0]) == [] && Joined(items[|items|..]) == [] && items[0..] == items
  {
  }

  method BuildStringArray(items: seq<Buf>) returns (buf: Buf)
    ensures |StringArray(items)| < U32 ==> buf == StringArray(items)
  {
    hide Put32, Joined, OffsetsFrom;
    buf := AppendOffsets(Put32(|items| % U32), items);
    ghost var head := buf;
    JoinedNone(items);
    for k := 0 to |items|
      invariant buf + Joined(items[k..]) == head + Joined(items)
    {
      JoinedAt(items, k);
      Regroup3(buf, items[k], Joined(items[k + 1..]));
      buf := buf + items[k];
    }
    assert buf + [] == buf;
  }

  lemma Regroup3(a: Buf, b: Buf, c: Buf)
    ensures a + (b + c) == (a + b) + c
  {
  }
}
