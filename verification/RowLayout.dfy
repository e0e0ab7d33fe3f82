/** Column layout of a table row ([MS-PST] section 2.3.4.4): two pinned columns, the rest
    packed widest first, then a bitmap with a bit per column. */
module RowLayout {
  import opened Bytes
  import opened PropertyContext
  import Bth

  const PINNED: nat := 2
  const MAX_COLUMNS: nat := 255

  /** Bytes a column takes in a row: a variable-width one holds a four-byte reference. */
  function Width(tag: nat): (w: nat)
    ensures w == 1 || w == 2 || w == 4 || w == 8
  {
    var n := FixedSize(TagType(tag));
    if n == 0 then 4 else n
  }

  /** How many of the columns from the third to before the n-th are `w` wide. */
  function Count(tags: seq<nat>, w: nat, n: nat): (c: nat)
    requires n <= |tags|
    ensures c <= n
    ensures n >= 2 ==> c <= n - 2
  {
    if n <= PINNED then 0 else Count(tags, w, n - 1) + if Width(tags[n - 1]) == w then 1 else 0
  }

  /** Where the columns of one width start; after the last of them comes the bitmap. */
  function Base(tags: seq<nat>, w: nat): nat {
    var n := |tags|;
    if w == 8 then 8
    else if w == 4 then 8 + 8 * Count(tags, 8, n)
    else if w == 2 then 8 + 8 * Count(tags, 8, n) + 4 * Count(tags, 4, n)
    else 8 + 8 * Count(tags, 8, n) + 4 * Count(tags, 4, n) + 2 * Count(tags, 2, n)
  }

  function Bitmap(tags: seq<nat>): nat { Base(tags, 1) + Count(tags, 1, |tags|) }

  function RowSize(tags: seq<nat>): nat { Bitmap(tags) + (|tags| + 7) / 8 }

  function Ib(tags: seq<nat>, k: nat): nat
    requires k < |tags|
  {
    if k < PINNED then 4 * k else Base(tags, Width(tags[k])) + Width(tags[k]) * Count(tags, Width(tags[k]), k)
  }

  /** The pinned columns are four bytes wide. */
  predicate Columns(tags: seq<nat>) {
    PINNED <= |tags| <= MAX_COLUMNS && Width(tags[0]) == 4 && Width(tags[1]) == 4
  }

  // ------------------------------------------------------------ geometry

  lemma {:induction false} CountGrows(tags: seq<nat>, w: nat, k: nat, n: nat)
    requires k <= n <= |tags|
    ensures Count(tags, w, k) <= Count(tags, w, n)
    ensures PINNED <= k < n && Width(tags[k]) == w ==> Count(tags, w, k) + 1 <= Count(tags, w, n)
    decreases n
  {
    if k < n { CountGrows(tags, w, k, n - 1); }
  }

  /** All widths together are all the columns. */
  lemma {:induction false} CountAll(tags: seq<nat>, n: nat)
    requires n <= |tags|
    ensures Count(tags, 8, n) + Count(tags, 4, n) + Count(tags, 2, n) + Count(tags, 1, n) == if n <= PINNED then 0 else n - PINNED
  {
    if n > PINNED { CountAll(tags, n - 1); }
  }

  /** A column lies between the start of its group and the start of the next. */
  lemma InGroup(tags: seq<nat>, k: nat)
    requires PINNED <= k < |tags|
    ensures var w := Width(tags[k]);
            && Base(tags, w) <= Ib(tags, k) && Ib(tags, k) + w <= Base(tags, w) + w * Count(tags, w, |tags|)
            && 8 <= Ib(tags, k) && Ib(tags, k) + w <= Bitmap(tags)
  {
    CountGrows(tags, Width(tags[k]), k, |tags|);
  }

  lemma GroupOrder(tags: seq<nat>, v: nat, w: nat)
    requires (v == 8 || v == 4 || v == 2) && (w == 4 || w == 2 || w == 1) && v > w
    ensures Base(tags, v) + v * Count(tags, v, |tags|) <= Base(tags, w)
  {
    hide Count;
  }

  lemma SameWidth(tags: seq<nat>, j: nat, k: nat)
    requires PINNED <= j < k < |tags| && Width(tags[j]) == Width(tags[k])
    ensures Ib(tags, j) + Width(tags[j]) <= Ib(tags, k)
  {
    var w := Width(tags[j]);
    CountGrows(tags, w, j, k);
    hide Count, Base, Width;
    Bth.Scale(Count(tags, w, j) + 1, Count(tags, w, k), w);
  }

  /** Two columns share no byte. */
  lemma ColumnsDisjoint(tags: seq<nat>, j: nat, k: nat)
    requires Columns(tags) && j < k < |tags|
    ensures Ib(tags, j) + Width(tags[j]) <= Ib(tags, k) || Ib(tags, k) + Width(tags[k]) <= Ib(tags, j)
  {
    hide Count, Base, Bitmap;
    if k >= PINNED { InGroup(tags, k); }
    if j >= PINNED {
      InGroup(tags, j);
      var v, w := Width(tags[j]), Width(tags[k]);
      if v == w {
        SameWidth(tags, j, k);
      } else if v > w {
        GroupOrder(tags, v, w);
      } else {
        GroupOrder(tags, w, v);
      }
    }
  }

  lemma Aligned(tags: seq<nat>, k: nat)
    requires Columns(tags) && k < |tags|
    ensures Ib(tags, k) % Width(tags[k]) == 0
  {
    hide Count, Width;
    WidthCases(tags[k]);
    var w, n := Width(tags[k]), |tags|;
    if k >= PINNED {
      var q := if w == 8 then 1
               else if w == 4 then 2 + 2 * Count(tags, 8, n)
               else if w == 2 then 4 + 4 * Count(tags, 8, n) + 2 * Count(tags, 4, n)
               else Base(tags, 1);
      assert Base(tags, w) == w * q;
      hide Base;
      Distribute(w, q, Count(tags, w, k));
      Multiple(q + Count(tags, w, k), w, Ib(tags, k));
    } else {
      Multiple(k, w, Ib(tags, k));
    }
  }

  lemma Distribute(w: nat, a: nat, b: nat)
    ensures w * (a + b) == w * a + w * b
  {
  }

  lemma Multiple(q: nat, w: nat, x: nat)
    requires w > 0 && x == w * q
    ensures x % w == 0
  {
    ModUnique(x, w, q, 0);
  }

  lemma RowSizeBound(tags: seq<nat>)
    requires Columns(tags)
    ensures 8 <= Bitmap(tags) < RowSize(tags) <= 2064
    ensures forall k: nat :: k < |tags| ==> k / 8 < RowSize(tags) - Bitmap(tags)
  {
    CountAll(tags, |tags|);
    hide Count;
  }

  /** Every column lies inside the row, before the bitmap, at a multiple of its width; a
      row is at most 2064 bytes, so whole rows fit a block. */
  lemma ColumnsPlaced(tags: seq<nat>, k: nat)
    requires Columns(tags) && k < |tags|
    ensures Ib(tags, k) + Width(tags[k]) <= Bitmap(tags) < RowSize(tags) <= 2064
    ensures Ib(tags, k) % Width(tags[k]) == 0
    ensures k / 8 < RowSize(tags) - Bitmap(tags)
  {
    hide Count, Base, Bitmap, RowSize;
    RowSizeBound(tags);
    Aligned(tags, k);
    if k >= PINNED { InGroup(tags, k); }
  }

  lemma {:induction false} NthOfWidth(tags: seq<nat>, w: nat, n: nat, c: nat) returns (k: nat)
    requires n <= |tags| && c < Count(tags, w, n)
    ensures PINNED <= k < n && Width(tags[k]) == w && Count(tags, w, k) == c
  {
    if c < Count(tags, w, n - 1) { k := NthOfWidth(tags, w, n - 1, c); } else { k := n - 1; }
  }

  lemma GroupCovers(tags: seq<nat>, w: nat, p: nat)
    requires w > 0 && Base(tags, w) <= p < Base(tags, w) + w * Count(tags, w, |tags|)
    ensures exists k :: 0 <= k < |tags| && Ib(tags, k) <= p < Ib(tags, k) + Width(tags[k])
  {
    hide Count, Base, Width;
    var c, n := (p - Base(tags, w)) / w, Count(tags, w, |tags|);
    Distribute(w, c, 1);
    if n <= c { Bth.Scale(n, c, w); }
    var k := NthOfWidth(tags, w, |tags|, c);
    assert Ib(tags, k) <= p < Ib(tags, k) + Width(tags[k]);
  }

  /** No byte before the bitmap is wasted: each belongs to a column. */
  lemma ColumnsCover(tags: seq<nat>, p: nat)
    requires Columns(tags) && p < Bitmap(tags)
    ensures exists k :: 0 <= k < |tags| && Ib(tags, k) <= p < Ib(tags, k) + Width(tags[k])
  {
    hide Count, Width;
    if p < 4 {
      assert Ib(tags, 0) <= p < Ib(tags, 0) + Width(tags[0]);
    } else if p < 8 {
      assert Ib(tags, 1) <= p < Ib(tags, 1) + Width(tags[1]);
    } else {
      GroupCovers(tags, if p < Base(tags, 4) then 8 else if p < Base(tags, 2) then 4 else if p < Base(tags, 1) then 2 else 1, p);
    }
  }

  // ------------------------------------------------------------- the loops

  datatype Column = Column(tag: nat, ib: nat, cb: nat, ibit: nat)

  datatype Layout = Layout(columns: seq<Column>, rgib: seq<nat>)

  function ColumnOf(tags: seq<nat>, k: nat): Column
    requires k < |tags|
  {
    Column(tags[k], Ib(tags, k), Width(tags[k]), k)
  }

  /** The descriptors and the four offsets of TCINFO: the end of the 4- and 8-byte
      columns, of the 2-byte ones, of the 1-byte ones, and of the bitmap. */
  function LayoutOf(tags: seq<nat>): Layout {
    Layout(seq(|tags|, k requires 0 <= k < |tags| => ColumnOf(tags, k)),
           [Base(tags, 2), Base(tags, 1), Bitmap(tags), RowSize(tags)])
  }

  /** One pass: the columns of one width, in order. */
  method PlaceWidth(tags: seq<nat>, columns: seq<Column>, w: nat, off: nat) returns (placed: seq<Column>, end: nat)
    requires |columns| == |tags| >= PINNED
    requires forall k :: 0 <= k < |tags| ==> columns[k].cb == Width(tags[k])
    ensures |placed| == |tags| && end == off + w * Count(tags, w, |tags|)
    ensures forall k :: 0 <= k < |tags| ==>
              placed[k] == if k >= PINNED && Width(tags[k]) == w then columns[k].(ib := off + w * Count(tags, w, k)) else columns[k]
  {
    hide Width;
    placed, end := columns, off;
    for i := PINNED to |tags|
      invariant |placed| == |tags| && end == off + w * Count(tags, w, i)
      invariant forall k :: i <= k < |tags| ==> placed[k] == columns[k]
      invariant forall k :: 0 <= k < i ==>
                  placed[k] == if k >= PINNED && Width(tags[k]) == w then columns[k].(ib := off + w * Count(tags, w, k)) else columns[k]
    {
      if placed[i].cb == w {
        Distribute(w, Count(tags, w, i), 1);
        placed := placed[i := placed[i].(ib := end)];
        end := end + w;
      }
    }
  }

  method ComputeLayout(tags: seq<nat>) returns (r: Layout)
    requires Columns(tags)
    ensures r == LayoutOf(tags)
  {
    hide Count, Width;
    var start := seq(|tags|, k requires 0 <= k < |tags| => Column(tags[k], 0, Width(tags[k]), k));
    start := start[0 := start[0].(ib := 0)][1 := start[1].(ib := 4)];
    var a, off8 := PlaceWidth(tags, start, 8, 8);
    var b, off4 := PlaceWidth(tags, a, 4, off8);
    var c, off2 := PlaceWidth(tags, b, 2, off4);
    var d, off1 := PlaceWidth(tags, c, 1, off2);
    r := Layout(d, [off4, off2, off1, off1 + (|d| + 7) / 8]);
    forall k | 0 <= k < |tags| ensures d[k] == ColumnOf(tags, k) {
      assert start[k] == Column(tags[k], 4 * k, Width(tags[k]), k) || k >= PINNED;
      WidthCases(tags[k]);
    }
  }

  lemma WidthCases(tag: nat)
    ensures Width(tag) == 1 || Width(tag) == 2 || Width(tag) == 4 || Width(tag) == 8
  {
  }
}
