/** The search tree behind both B-trees of the format: the page B-tree of the NDB
    layer ([MS-PST] section 2.2.2.7.7) and the B-tree-on-heap of the LTP layer
    (section 2.3.2). Both are built bottom-up in the same way: sorted records are
    cut into leaves, and each level is cut into branches until one is left. */
module SearchTree {
  import opened Bytes
  import opened Wrappers

  datatype Rec = Rec(key: nat, val: Buf)

  /** `key` is the key a tree is filed under in its parent; a root's is not used. */
  datatype Tree = Leaf(key: nat, recs: seq<Rec>) | Node(key: nat, kids: seq<Tree>)

  // ------------------------------------------------------------- meaning

  /** The records of a tree, in order. */
  function Flatten(t: Tree): seq<Rec>
    decreases t, 0
  {
    match t
    case Leaf(_, recs) => recs
    case Node(_, kids) => FlattenKids(kids)
  }

  function FlattenKids(kids: seq<Tree>): seq<Rec>
    decreases kids, 0
  {
    if kids == [] then [] else Flatten(kids[0]) + FlattenKids(kids[1..])
  }

  /** The simple form of a lookup: the first record with the key. */
  function Find(recs: seq<Rec>, key: nat): Option<Buf> {
    if recs == [] then None
    else if recs[0].key == key then Some(recs[0].val)
    else Find(recs[1..], key)
  }

  /** The reader's form: at each branch, follow the last child whose key does not
      exceed the one looked for. */
  function Search(t: Tree, key: nat): Option<Buf>
    decreases t, 0
  {
    match t
    case Leaf(_, recs) => Find(recs, key)
    case Node(_, kids) => SearchKids(kids, key)
  }

  function SearchKids(kids: seq<Tree>, key: nat): Option<Buf>
    decreases kids, 0
  {
    if kids == [] || key < kids[0].key then None
    else if |kids| == 1 || key < kids[1].key then Search(kids[0], key)
    else SearchKids(kids[1..], key)
  }

  // ---------------------------------------------------------- invariants

  predicate Sorted(recs: seq<Rec>) {
    forall i, j :: 0 <= i < j < |recs| ==> recs[i].key < recs[j].key
  }

  /** Every branch key is the least key of the subtree under it. */
  predicate Ordered(t: Tree)
    decreases t, 0
  {
    match t
    case Leaf(_, _) => true
    case Node(_, kids) => OrderedKids(kids)
  }

  predicate OrderedKids(kids: seq<Tree>)
    decreases kids, 0
  {
    kids == [] ||
    (&& Ordered(kids[0])
     && Flatten(kids[0]) != []
     && Flatten(kids[0])[0].key == kids[0].key
     && OrderedKids(kids[1..]))
  }

  /** No leaf holds more than `perLeaf` records, no branch more than `perNode`
      children, and no node is empty. */
  predicate Within(t: Tree, perLeaf: nat, perNode: nat)
    decreases t, 0
  {
    match t
    case Leaf(_, recs) => 1 <= |recs| <= perLeaf
    case Node(_, kids) => 1 <= |kids| <= perNode && WithinKids(kids, perLeaf, perNode)
  }

  predicate WithinKids(kids: seq<Tree>, perLeaf: nat, perNode: nat)
    decreases kids, 0
  {
    kids == [] || (Within(kids[0], perLeaf, perNode) && WithinKids(kids[1..], perLeaf, perNode))
  }

  // ------------------------------------------------------ search is lookup

  lemma {:induction false} FindMissing(recs: seq<Rec>, key: nat)
    requires forall i :: 0 <= i < |recs| ==> recs[i].key != key
    ensures Find(recs, key) == None
  {
    if recs != [] { FindMissing(recs[1..], key); }
  }

  lemma {:induction false} FindConcat(a: seq<Rec>, b: seq<Rec>, key: nat)
    ensures Find(a + b, key) == if Find(a, key).Some? then Find(a, key) else Find(b, key)
  {
    if a == [] {
      assert a + b == b;
    } else {
      assert (a + b)[1..] == a[1..] + b;
      FindConcat(a[1..], b, key);
    }
  }

  /** What Find returns: the value at any index that carries the key. */
  lemma {:induction false} FindAt(recs: seq<Rec>, i: nat)
    requires i < |recs| && (forall j :: 0 <= j < i ==> recs[j].key != recs[i].key)
    ensures Find(recs, recs[i].key) == Some(recs[i].val)
  {
    if i > 0 { FindAt(recs[1..], i - 1); }
  }

  lemma SortedParts(a: seq<Rec>, b: seq<Rec>)
    requires Sorted(a + b)
    ensures Sorted(a) && Sorted(b)
    ensures forall i, j :: 0 <= i < |a| && 0 <= j < |b| ==> a[i].key < b[j].key
  {
    var s := a + b;
    assert forall i :: 0 <= i < |a| ==> s[i] == a[i];
    forall j | 0 <= j < |b| ensures s[|a| + j] == b[j] {}
    forall i, j | 0 <= i < j < |b| ensures b[i].key < b[j].key {
      assert s[|a| + i].key < s[|a| + j].key;
    }
    forall i, j | 0 <= i < |a| && 0 <= j < |b| ensures a[i].key < b[j].key {
      assert s[i].key < s[|a| + j].key;
    }
  }

  lemma KidsHead(kids: seq<Tree>)
    requires kids != [] && OrderedKids(kids)
    ensures FlattenKids(kids) != [] && FlattenKids(kids)[0].key == kids[0].key
  {
  }

  /** Searching a well-formed tree is looking the key up in the flat sequence. */
  lemma {:induction false} SearchIsFind(t: Tree, key: nat)
    requires Ordered(t) && Sorted(Flatten(t))
    ensures Search(t, key) == Find(Flatten(t), key)
    decreases t, 1
  {
    if t.Node? { SearchKidsIsFind(t.kids, key); }
  }

  lemma {:induction false} SearchKidsIsFind(kids: seq<Tree>, key: nat)
    requires OrderedKids(kids) && Sorted(FlattenKids(kids))
    ensures SearchKids(kids, key) == Find(FlattenKids(kids), key)
    decreases kids, 1
  {
    if kids != [] {
      var a, b := Flatten(kids[0]), FlattenKids(kids[1..]);
      SortedParts(a, b);
      FindConcat(a, b, key);
      if key < kids[0].key {
        FindMissing(a + b, key);
      } else if |kids| == 1 || key < kids[1].key {
        SearchIsFind(kids[0], key);
        if |kids| > 1 { KidsHead(kids[1..]); }
        FindMissing(b, key);
      } else {
        KidsHead(kids[1..]);
        FindMissing(a, key);
        SearchKidsIsFind(kids[1..], key);
      }
    }
  }

  // -------------------------------------------------- bottom-up building

  function Min(a: nat, b: nat): nat { if a < b then a else b }

  function CeilDiv(n: nat, d: nat): nat
    requires d > 0
  {
    (n + d - 1) / d
  }

  /** The leaf level: records cut into runs of `per`. */
  function LeafKids(recs: seq<Rec>, per: nat): (kids: seq<Tree>)
    requires per > 0
    decreases |recs|
  {
    if recs == [] then []
    else
      var n := Min(per, |recs|);
      [Leaf(recs[0].key, recs[..n])] + LeafKids(recs[n..], per)
  }

  /** The next level up: children cut into runs of `per`. */
  function GroupKids(kids: seq<Tree>, per: nat): (up: seq<Tree>)
    requires per > 0
    decreases |kids|
  {
    if kids == [] then []
    else
      var n := Min(per, |kids|);
      [Node(kids[0].key, kids[..n])] + GroupKids(kids[n..], per)
  }

  lemma LeafKidsStep(recs: seq<Rec>, i: nat, per: nat)
    requires per > 0 && i < |recs|
    ensures var n := Min(per, |recs| - i);
            LeafKids(recs[i..], per) == [Leaf(recs[i].key, recs[i..i + n])] + LeafKids(recs[i + n..], per)
  {
    var n := Min(per, |recs| - i);
    assert recs[i..][n..] == recs[i + n..];
    assert recs[i..][..n] == recs[i..i + n];
  }

  lemma GroupKidsStep(kids: seq<Tree>, i: nat, per: nat)
    requires per > 0 && i < |kids|
    ensures var n := Min(per, |kids| - i);
            GroupKids(kids[i..], per) == [Node(kids[i].key, kids[i..i + n])] + GroupKids(kids[i + n..], per)
  {
    var n := Min(per, |kids| - i);
    assert kids[i..][n..] == kids[i + n..];
    assert kids[i..][..n] == kids[i..i + n];
  }

  lemma Regroup(a: seq<Tree>, x: Tree, b: seq<Tree>)
    ensures (a + [x]) + b == a + ([x] + b)
  {
  }

  lemma {:induction false} FlattenKidsConcat(a: seq<Tree>, b: seq<Tree>)
    ensures FlattenKids(a + b) == FlattenKids(a) + FlattenKids(b)
  {
    if a == [] {
      assert a + b == b;
    } else {
      assert (a + b)[1..] == a[1..] + b;
      FlattenKidsConcat(a[1..], b);
    }
  }

  lemma {:induction false} OrderedKidsConcat(a: seq<Tree>, b: seq<Tree>)
    ensures OrderedKids(a + b) == (OrderedKids(a) && OrderedKids(b))
  {
    if a == [] {
      assert a + b == b;
    } else {
      assert (a + b)[1..] == a[1..] + b;
      OrderedKidsConcat(a[1..], b);
    }
  }

  lemma {:induction false} WithinKidsConcat(a: seq<Tree>, b: seq<Tree>, perLeaf: nat, perNode: nat)
    ensures WithinKids(a + b, perLeaf, perNode) ==
            (WithinKids(a, perLeaf, perNode) && WithinKids(b, perLeaf, perNode))
  {
    if a == [] {
      assert a + b == b;
    } else {
      assert (a + b)[1..] == a[1..] + b;
      WithinKidsConcat(a[1..], b, perLeaf, perNode);
    }
  }

  lemma NoKids(perLeaf: nat, perNode: nat)
    ensures FlattenKids([]) == [] && OrderedKids([]) && WithinKids([], perLeaf, perNode)
  {
  }

  lemma LeafInFront(key: nat, recs: seq<Rec>, kids: seq<Tree>, per: nat, perNode: nat)
    requires recs != [] && recs[0].key == key && |recs| <= per && OrderedKids(kids) && WithinKids(kids, per, perNode)
    ensures FlattenKids([Leaf(key, recs)] + kids) == recs + FlattenKids(kids)
    ensures OrderedKids([Leaf(key, recs)] + kids) && WithinKids([Leaf(key, recs)] + kids, per, perNode)
  {
    assert ([Leaf(key, recs)] + kids)[1..] == kids;
  }

  lemma {:induction false} LeafKidsCorrect(recs: seq<Rec>, per: nat, perNode: nat)
    requires per > 0
    ensures FlattenKids(LeafKids(recs, per)) == recs
    ensures OrderedKids(LeafKids(recs, per))
    ensures WithinKids(LeafKids(recs, per), per, perNode)
    ensures |LeafKids(recs, per)| == CeilDiv(|recs|, per)
    decreases |recs|
  {
    hide CeilDiv, FlattenKids, OrderedKids, WithinKids;
    if recs != [] {
      var n := Min(per, |recs|);
      LeafKidsCorrect(recs[n..], per, perNode);
      LeafInFront(recs[0].key, recs[..n], LeafKids(recs[n..], per), per, perNode);
      assert recs[..n] + recs[n..] == recs;
      CeilDivStep(|recs|, per);
    } else {
      NoKids(per, perNode);
      CeilDivBounds(0, per, 0);
    }
  }

  lemma {:induction false} GroupKidsCorrect(kids: seq<Tree>, perLeaf: nat, per: nat)
    requires per > 0 && OrderedKids(kids) && WithinKids(kids, perLeaf, per)
    ensures FlattenKids(GroupKids(kids, per)) == FlattenKids(kids)
    ensures OrderedKids(GroupKids(kids, per))
    ensures WithinKids(GroupKids(kids, per), perLeaf, per)
    ensures |GroupKids(kids, per)| == CeilDiv(|kids|, per)
    decreases |kids|
  {
    hide CeilDiv;
    if kids != [] {
      var n := Min(per, |kids|);
      var a, b := kids[..n], kids[n..];
      assert a + b == kids;
      OrderedKidsConcat(a, b);
      WithinKidsConcat(a, b, perLeaf, per);
      FlattenKidsConcat(a, b);
      GroupKidsCorrect(b, perLeaf, per);
      assert GroupKids(kids, per)[1..] == GroupKids(b, per);
      KidsHead(a);
      CeilDivStep(|kids|, per);
    } else {
      CeilDivBounds(0, per, 0);
    }
  }

  lemma CeilDivStep(n: nat, d: nat)
    requires d > 0 && n > 0
    ensures CeilDiv(n, d) == 1 + CeilDiv(n - Min(d, n), d)
  {
    if n <= d {
      ModUnique(n + d - 1, d, 1, n - 1);
      ModUnique(d - 1, d, 0, d - 1);
    } else {
      var m := n - d;
      var q, r := (m + d - 1) / d, (m + d - 1) % d;
      assert m + d - 1 == d * q + r;
      assert d * (q + 1) == d * q + d;
      ModUnique(n + d - 1, d, q + 1, r);
    }
  }

  lemma CeilDivBounds(n: nat, d: nat, q: nat)
    requires d > 0
    ensures CeilDiv(n, d) <= q <==> n <= d * q
  {
    var c := CeilDiv(n, d);
    assert d * c <= n + d - 1 < d * c + d;
    if c <= q {
      assert d * c <= d * q;
    } else {
      assert d * (q + 1) <= d * c;
      assert d * (q + 1) == d * q + d;
    }
  }

  /** There is a k-th run exactly when something is left before it. */
  lemma CutCount(n: nat, d: nat, k: nat)
    requires d > 0
    ensures k * d < n <==> k < CeilDiv(n, d)
  {
    CeilDivBounds(n, d, k);
  }

  /** Cutting by a and then by b is cutting by a*b. */
  lemma CeilDivTwice(n: nat, a: nat, b: nat)
    requires a > 0 && b > 0
    ensures a * b > 0 && CeilDiv(CeilDiv(n, a), b) == CeilDiv(n, a * b)
  {
    assert a * b > 0;
    var x, y := CeilDiv(CeilDiv(n, a), b), CeilDiv(n, a * b);
    CutTwiceWithin(n, a, b, x);
    CutTwiceWithin(n, a, b, y);
  }

  lemma CutTwiceWithin(n: nat, a: nat, b: nat, q: nat)
    requires a > 0 && b > 0
    ensures a * b > 0 && (CeilDiv(CeilDiv(n, a), b) <= q <==> CeilDiv(n, a * b) <= q)
  {
    assert a * b > 0;
    CeilDivBounds(CeilDiv(n, a), b, q);
    CeilDivBounds(n, a, b * q);
    CeilDivBounds(n, a * b, q);
    assert a * (b * q) == (a * b) * q;
  }
}
