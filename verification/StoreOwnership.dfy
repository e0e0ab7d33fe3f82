/** Ownership in a store being written: every block is held by a node, by another block, or
    by one of the tables that are still open. */
module StoreOwnership {
  import opened DataTree
  import opened NdbFile
  import opened NdbArchive
  import opened Ownership

  /** What all the open tables hold. */
  function Sum(ls: seq<multiset<nat>>): multiset<nat> {
    if ls == [] then multiset{} else Sum(ls[..|ls| - 1]) + ls[|ls| - 1]
  }

  lemma {:induction false} SumUpdate(ls: seq<multiset<nat>>, i: nat, x: multiset<nat>)
    requires i < |ls|
    ensures Sum(ls[i := x]) == Sum(ls[i := multiset{}]) + x
  {
    var n := |ls| - 1;
    var none: multiset<nat> := multiset{};
    assert ls[i := x][..n] == if i == n then ls[..n] else ls[..n][i := x];
    assert ls[i := none][..n] == if i == n then ls[..n] else ls[..n][i := none];
    if i < n {
      SumUpdate(ls[..n], i, x);
      assert Sum(ls[..n][i := none]) + x + ls[n] == Sum(ls[..n][i := none]) + ls[n] + x;
    } else {
      assert Sum(ls[..n]) + none + x == Sum(ls[..n]) + x;
    }
  }

  lemma SumMore(ls: seq<multiset<nat>>, x: multiset<nat>)
    ensures Sum(ls + [x]) == Sum(ls) + x
  {
    assert (ls + [x])[..|ls|] == ls;
  }

  lemma {:induction false} SumNothing(ls: seq<multiset<nat>>)
    requires forall i :: 0 <= i < |ls| ==> ls[i] == multiset{}
    ensures Sum(ls) == multiset{}
  {
    if ls != [] { SumNothing(ls[..|ls| - 1]); }
  }

  /** What the nodes and the open tables hold together. */
  function Total(blocks: Store, order: seq<nat>, nbt: seq<NbtEntry>, ls: seq<multiset<nat>>): Holding {
    Holding(blocks, order, NodesRefs(Roots(nbt)) + Sum(ls))
  }

  /** A node registered for blocks just written. */
  lemma NodeStep(b: Store, o: seq<nat>, d: Store, p: seq<nat>, nbt: seq<NbtEntry>, e: NbtEntry, ls: seq<multiset<nat>>)
    requires Passes(Holding(b, o, multiset{}), Holding(d, p, NodeRefs(e.data, e.sub)))
    ensures Passes(Total(b, o, nbt, ls), Total(d, p, nbt + [e], ls))
  {
    hide Passes, NodesRefs, NodeRefs, Sum, Roots;
    var none: multiset<nat> := multiset{};
    var rest := NodesRefs(Roots(nbt)) + Sum(ls);
    PassesBeside(Holding(b, o, none), Holding(d, p, NodeRefs(e.data, e.sub)), rest);
    RootsSnoc(nbt, e);
    assert rest + none == rest;
    assert rest + NodeRefs(e.data, e.sub) == NodesRefs(Roots(nbt + [e])) + Sum(ls);
  }

  /** A node without blocks. */
  lemma BareNode(b: Store, o: seq<nat>, nbt: seq<NbtEntry>, e: NbtEntry, ls: seq<multiset<nat>>)
    requires Present(b, o) && e.data == 0 && e.sub == 0
    ensures Passes(Total(b, o, nbt, ls), Total(b, o, nbt + [e], ls))
  {
    hide Passes;
    var none: multiset<nat> := multiset{};
    PassesSame(Holding(b, o, none));
    assert NodeRefs(0, 0) == none;
    NodeStep(b, o, b, o, nbt, e, ls);
  }

  /** A step of one open table. */
  lemma TableStep(b: Store, o: seq<nat>, d: Store, p: seq<nat>, nbt: seq<NbtEntry>, ls: seq<multiset<nat>>, i: nat, x: multiset<nat>)
    requires i < |ls| && Passes(Holding(b, o, ls[i]), Holding(d, p, x))
    ensures Passes(Total(b, o, nbt, ls), Total(d, p, nbt, ls[i := x]))
  {
    hide Passes, NodesRefs, Sum, Roots;
    var others := Sum(ls[i := multiset{}]);
    var rest := NodesRefs(Roots(nbt)) + others;
    PassesBeside(Holding(b, o, ls[i]), Holding(d, p, x), rest);
    SumUpdate(ls, i, x);
    SumUpdate(ls, i, ls[i]);
    assert ls[i := ls[i]] == ls;
    assert rest + ls[i] == NodesRefs(Roots(nbt)) + (others + ls[i]);
    assert rest + x == NodesRefs(Roots(nbt)) + (others + x);
  }

  /** An open table ends: what it held is its node's. */
  lemma TableNode(b: Store, o: seq<nat>, d: Store, p: seq<nat>, nbt: seq<NbtEntry>, e: NbtEntry, ls: seq<multiset<nat>>, i: nat)
    requires i < |ls| && Passes(Holding(b, o, ls[i]), Holding(d, p, NodeRefs(e.data, e.sub)))
    ensures Passes(Total(b, o, nbt, ls), Total(d, p, nbt + [e], ls[i := multiset{}]))
  {
    hide Passes, NodesRefs, NodeRefs, Sum, Roots;
    TableStep(b, o, d, p, nbt, ls, i, NodeRefs(e.data, e.sub));
    SumUpdate(ls, i, NodeRefs(e.data, e.sub));
    RootsSnoc(nbt, e);
    var others := Sum(ls[i := multiset{}]);
    assert NodesRefs(Roots(nbt)) + (others + NodeRefs(e.data, e.sub)) == NodesRefs(Roots(nbt + [e])) + others;
  }

  /** A table opened holds nothing yet. */
  lemma TableOpened(b: Store, o: seq<nat>, nbt: seq<NbtEntry>, ls: seq<multiset<nat>>)
    ensures Total(b, o, nbt, ls + [multiset{}]) == Total(b, o, nbt, ls)
  {
    hide NodesRefs;
    SumMore(ls, multiset{});
  }

  /** Once every table has ended the nodes hold everything. */
  lemma AllEnded(blocks: Store, order: seq<nat>, nbt: seq<NbtEntry>, ls: seq<multiset<nat>>)
    requires forall i :: 0 <= i < |ls| ==> ls[i] == multiset{}
    requires Passes(Holding(map[], [], multiset{}), Total(blocks, order, nbt, ls))
    requires (forall b :: b in blocks ==> b in order) && forall i, j :: 0 <= i < j < |order| ==> order[i] < order[j]
    ensures Forest(blocks, order, Roots(nbt))
  {
    hide NodesRefs, Roots, Law, Forest;
    SumNothing(ls);
    assert NodesRefs(Roots(nbt)) + multiset{} == NodesRefs(Roots(nbt));
    ForestOf(blocks, order, Roots(nbt));
  }
}
