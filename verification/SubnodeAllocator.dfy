/** Ids for the subnodes of one node being built. */
module SubnodeAllocator {
  import Ownership
  import opened Bytes
  import opened NodeId
  import opened Wrappers
  import opened Sorting
  import opened DataTree
  import opened SubnodeTree
  import opened Ndb

  const NID_TYPE_LTP: nat := 0x1F

  function LtpNid(index: nat): nat { MakeNid(NID_TYPE_LTP, index) }

  /** What a subnode id leads to, given the entries of the node. */
  ghost function SubData(blocks: Store, entries: seq<SubEntry>, nid: nat): Option<Buf> {
    match FindEntry(entries, nid)
    case None => None
    case Some(e) => ReadTree(blocks, e.data)
  }

  /** No id is used twice, the next one is still free, and every entry leads somewhere. */
  ghost predicate Numbered(blocks: Store, entries: seq<SubEntry>, next: nat) {
    && next <= MAX_INDEX && DistinctKeys(entries, NidKey())
    && forall e :: e in entries ==>
         && e.nid < U32 && (NidType(e.nid) == NID_TYPE_LTP ==> NidIndex(e.nid) < next)
         && e.data in blocks && (e.sub != 0 ==> e.sub in blocks)
  }

  lemma {:induction false} FindEntryConcat(a: seq<SubEntry>, b: seq<SubEntry>, nid: nat)
    ensures FindEntry(a + b, nid) == if FindEntry(a, nid).Some? then FindEntry(a, nid) else FindEntry(b, nid)
  {
    if a == [] {
      assert a + b == b;
    } else {
      assert (a + b)[1..] == a[1..] + b;
      FindEntryConcat(a[1..], b, nid);
    }
  }

  /** Subnodes keep their data as more are added. */
  lemma SubDataGrow(a: Store, b: Store, x: seq<SubEntry>, y: seq<SubEntry>, nid: nat)
    requires Extends(a, b) && x <= y && SubData(a, x, nid).Some?
    ensures SubData(b, y, nid) == SubData(a, x, nid)
  {
    hide ReadTree;
    FindEntryConcat(x, y[|x|..], nid);
    assert x + y[|x|..] == y;
    ReadTreeGrow(a, b, FindEntry(x, nid).value.data);
  }

  /** A fresh id is found where it was put. */
  lemma FreshEntry(a: Store, b: Store, entries: seq<SubEntry>, next: nat, data: nat)
    requires Numbered(a, entries, next) && Extends(a, b) && next < MAX_INDEX && data in b
    ensures var e := SubEntry(LtpNid(next), data, 0);
            Numbered(b, entries + [e], next + 1) && FindEntry(entries + [e], e.nid) == Some(e)
  {
    var e := SubEntry(LtpNid(next), data, 0);
    NidParts(NID_TYPE_LTP, next);
    FindEntryMember(entries, e.nid);
    FindEntryConcat(entries, [e], e.nid);
    forall i, j | 0 <= i < j < |entries + [e]| ensures NidKey()((entries + [e])[i]) != NidKey()((entries + [e])[j]) {
      if j < |entries| {
        assert NidKey()(entries[i]) != NidKey()(entries[j]);
      } else {
        assert entries[i] in entries;
      }
    }
  }

  lemma NumberedGrow(a: Store, b: Store, entries: seq<SubEntry>, next: nat)
    requires Numbered(a, entries, next) && Extends(a, b)
    ensures Numbered(b, entries, next)
  {
    hide DistinctKeys;
  }

  class SubnodeAllocator {
    const ndb: NdbWriter
    var entries: seq<SubEntry>
    var nextIndex: nat

    constructor (ndb: NdbWriter)
      ensures this.ndb == ndb && entries == [] && nextIndex == 1 && Good()
    {
      this.ndb := ndb;
      entries, nextIndex := [], 1;
    }

    ghost predicate Good()
      reads this, ndb
    {
      Numbered(ndb.blocks, entries, nextIndex)
    }

    /** The blocks its entries lead to are its own until they go into a subnode tree. */
    ghost function Held(): Ownership.Holding
      reads `entries, ndb
    {
      Ownership.Holding(ndb.blocks, BidsOf(ndb.bbt), Ownership.EntriesRefs(entries))
    }

    lemma HeldPasses()
      requires ndb.Valid()
      ensures Ownership.Passes(Held(), Held())
    {
      hide ndb.Valid, Ownership.Law;
      ndb.OrderPresent();
      Ownership.PassesSame(Held());
    }

    /** What spilling keeps: subnodes are only added, each under an id of its own until the
        indexes run out. */
    twostate predicate Kept()
      reads this, ndb
    {
      && old(entries) <= entries && |entries| - |old(entries)| == nextIndex - old(nextIndex)
      && (old(Good()) && nextIndex <= MAX_INDEX ==> Good())
    }

    /** Gives a data tree that is already written an id. */
    method Adopt(data: nat) returns (nid: nat)
      requires data in ndb.blocks
      modifies `entries, `nextIndex
      ensures Kept() && nid == LtpNid(old(nextIndex)) && nextIndex == old(nextIndex) + 1
      ensures entries == old(entries) + [SubEntry(nid, data, 0)]
      ensures old(Good()) && nextIndex <= MAX_INDEX ==> FindEntry(entries, nid) == Some(SubEntry(nid, data, 0))
    {
      nid := LtpNid(nextIndex);
      if Good() && nextIndex < MAX_INDEX {
        FreshEntry(ndb.blocks, ndb.blocks, entries, nextIndex, data);
      }
      nextIndex := nextIndex + 1;
      entries := entries + [SubEntry(nid, data, 0)];
    }

    /** Registers a subnode built elsewhere, under the id the caller chose. */
    method Add(nid: nat, data: nat, sub: nat)
      modifies `entries
      ensures entries == old(entries) + [SubEntry(nid, data, sub)]
      ensures old(Good()) && FindEntry(old(entries), nid).None? && nid < U32 && NidType(nid) != NID_TYPE_LTP
              && data in ndb.blocks && (sub != 0 ==> sub in ndb.blocks)
              ==> Good() && FindEntry(entries, nid) == Some(SubEntry(nid, data, sub))
    {
      FindEntryMember(entries, nid);
      FindEntryConcat(entries, [SubEntry(nid, data, sub)], nid);
      ghost var was := entries;
      entries := entries + [SubEntry(nid, data, sub)];
      if Numbered(ndb.blocks, was, nextIndex) && FindEntry(was, nid).None? {
        forall i, j | 0 <= i < j < |entries| ensures NidKey()(entries[i]) != NidKey()(entries[j]) {
          if j < |was| {
            assert NidKey()(was[i]) != NidKey()(was[j]);
          } else {
            assert was[i] in was;
          }
        }
      }
    }

    /** Writes a blob to a fresh subnode. */
    method Spill(data: Buf) returns (r: Result<nat>)
      requires ndb.Valid()
      modifies this, ndb
      ensures ndb.Valid() && ndb.Grown() && ndb.nbt == old(ndb.nbt) && Kept()
      ensures r.Err? <==> |data| >= U32
      ensures r.Err? ==> unchanged(this)
      ensures r.Ok? && ndb.Fits64() ==> Ownership.Passes(old(Held()), Held())
      ensures r.Ok? ==> r.value == LtpNid(old(nextIndex)) && nextIndex == old(nextIndex) + 1
      ensures r.Ok? && ndb.Fits64() && old(Good()) && nextIndex <= MAX_INDEX ==> SubData(ndb.blocks, entries, r.value) == Some(data)
    {
      hide ndb.Valid, ReadTree, Ownership.Law, BidsOf, Ownership.EntriesRefs;
      ghost var was, order, entries0 := ndb.blocks, BidsOf(ndb.bbt), entries;
      var bid := ndb.WriteData(data);
      if Numbered(was, entries, nextIndex) { NumberedGrow(was, ndb.blocks, entries, nextIndex); }
      if bid.Err? {
        return Err(bid.reason);
      }
      var nid := Adopt(bid.value);
      if ndb.Fits64() { Ownership.LawEntryMore(was, order, ndb.blocks, BidsOf(ndb.bbt), entries0, nid, bid.value); }
      return Ok(nid);
    }
  }
}
