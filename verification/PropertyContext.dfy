/** The property context ([MS-PST] section 2.3.3): a map from property ids to typed
    values, kept in a B-tree-on-heap, with large values in subnodes. */
module PropertyContext {
  import opened Bytes
  import opened NodeId
  import opened Wrappers
  import opened Sorting
  import opened SearchTree
  import opened HeapFormat
  import opened BthFormat
  import opened DataTree
  import opened SubnodeTree
  import opened SubnodeAllocator
  import opened Utf
  import opened MultiValue
  import Bth
  import HeapNode
  import HeapRefinement
  import Ownership

  // ---------------------------------------------------------------- values

  const HN_SIG_PC: byte := 0xBC
  const PT_STRING8: nat := 0x001E

  function TagId(tag: nat): nat { tag / 65536 }
  function TagType(tag: nat): nat { tag % 65536 }

  /** Bytes of a fixed-width type, zero for a variable one. */
  function FixedSize(ptype: nat): nat {
    if ptype == 0x0002 then 2
    else if ptype == 0x000B then 1
    else if ptype == 0x0003 || ptype == 0x0004 || ptype == 0x000A then 4
    else if ptype == 0x0005 || ptype == 0x0006 || ptype == 0x0007 || ptype == 0x0014 || ptype == 0x0040 then 8
    else 0
  }

  predicate IsInline(ptype: nat) { 1 <= FixedSize(ptype) <= 4 }

  datatype Kind = Inline(v: nat) | Bytes(data: Buf) | Spilled(nid: nat)
  datatype Value = Value(tag: nat, kind: Kind)

  /** A setter that fits the type of its tag. */
  predicate WellTyped(v: Value) {
    && v.tag < U32
    && match v.kind
       case Inline(x) => IsInline(TagType(v.tag)) && x < U32
       case Bytes(_) => !IsInline(TagType(v.tag))
       case Spilled(nid) => !IsInline(TagType(v.tag)) && !IsHid(nid) && nid < U32
  }

  /** The value of a property id in a list that holds each id at most once. */
  function FindValue(values: seq<Value>, id: nat): (r: Option<Value>)
    ensures r.Some? ==> r.value in values && TagId(r.value.tag) == id
    ensures r.None? ==> forall v :: v in values ==> TagId(v.tag) != id
  {
    if values == [] then None
    else if TagId(values[0].tag) == id then Some(values[0])
    else FindValue(values[1..], id)
  }

  /** What a run of writes leaves: the last write of each id. */
  function LastWrite(history: seq<Value>, id: nat): Option<Value> {
    if history == [] then None
    else
      var v := history[|history| - 1];
      if TagId(v.tag) == id then Some(v) else LastWrite(history[..|history| - 1], id)
  }

  predicate DistinctIds(values: seq<Value>) {
    forall i, j :: 0 <= i < j < |values| ==> TagId(values[i].tag) != TagId(values[j].tag)
  }

  lemma {:induction false} FindValueAt(values: seq<Value>, i: nat)
    requires DistinctIds(values) && i < |values|
    ensures FindValue(values, TagId(values[i].tag)) == Some(values[i])
  {
    if i > 0 { FindValueAt(values[1..], i - 1); }
  }

  lemma FindReplaced(values: seq<Value>, i: nat, v: Value, id: nat)
    requires DistinctIds(values) && i < |values| && TagId(values[i].tag) == TagId(v.tag)
    ensures DistinctIds(values[i := v])
    ensures FindValue(values[i := v], id) == if id == TagId(v.tag) then Some(v) else FindValue(values, id)
  {
    hide TagId;
    var after := values[i := v];
    FindValueAt(after, i);
    if id != TagId(v.tag) {
      var x := FindValue(values, id);
      if x.Some? {
        var j :| 0 <= j < |values| && values[j] == x.value;
        assert after[j] == x.value;
        FindValueAt(after, j);
      }
    }
  }

  lemma {:induction false} FindAppended(values: seq<Value>, v: Value, id: nat)
    requires DistinctIds(values) && forall u :: u in values ==> TagId(u.tag) != TagId(v.tag)
    ensures DistinctIds(values + [v])
    ensures FindValue(values + [v], id) == if id == TagId(v.tag) then Some(v) else FindValue(values, id)
  {
    hide TagId;
    if values != [] {
      assert (values + [v])[1..] == values[1..] + [v];
      FindAppended(values[1..], v, id);
    }
  }

  // ------------------------------------------------------------ the reader

  datatype Content = Small(v: nat) | Data(data: Buf)
  datatype Property = Property(ptype: nat, content: Content)

  /** A property as a reader of the heap's stream finds it: the record gives the type and
      four bytes, which are the value, the handle of an allocation or a subnode id.
      `sub` reads subnodes. */
  ghost function ReadProperty(stream: Buf, sub: nat -> Option<Buf>, id: nat): Option<Property> {
    match Lookup(InStream(stream), UserRoot(stream), id)
    case None => None
    case Some(rec) =>
      var ptype, hnid := Peek16At(rec, 0), Peek32At(rec, 2);
      if IsInline(ptype) then Some(Property(ptype, Small(hnid)))
      else
        match (if IsHid(hnid) then HeapItem(stream, hnid) else sub(hnid))
        case None => None
        case Some(data) => Some(Property(ptype, Data(data)))
  }

  /** No record under the id: a reader finds nothing, whatever subnodes there are. */
  ghost predicate Absent(stream: Buf, id: nat) {
    Lookup(InStream(stream), UserRoot(stream), id) == None
  }

  /** What was meant by a write. */
  ghost function Meaning(v: Value, sub: nat -> Option<Buf>): Option<Property> {
    match v.kind
    case Inline(x) => Some(Property(TagType(v.tag), Small(x)))
    case Bytes(data) => Some(Property(TagType(v.tag), Data(data)))
    case Spilled(nid) =>
      match sub(nid)
      case None => None
      case Some(data) => Some(Property(TagType(v.tag), Data(data)))
  }

  ghost function Subs(blocks: Store, entries: seq<SubEntry>): nat -> Option<Buf> {
    (nid: nat) => SubData(blocks, entries, nid)
  }

  // ----------------------------------------------------------- the records

  function RecordOf(v: Value, hnid: nat): Record {
    Record(Put16(TagId(v.tag)), Put16(TagType(v.tag)) + Put32(hnid))
  }

  function RecordsOf(values: seq<Value>, hnids: seq<nat>): (rs: seq<Record>)
    requires |hnids| == |values|
    ensures |rs| == |values| && forall i :: 0 <= i < |rs| ==> rs[i] == RecordOf(values[i], hnids[i])
  {
    seq(|values|, i requires 0 <= i < |values| => RecordOf(values[i], hnids[i]))
  }

  /** The four bytes of a record lead to what was written. */
  ghost predicate Leads(h: Heap, blocks: Store, entries: seq<SubEntry>, kind: Kind, hnid: nat) {
    match kind
    case Inline(x) => hnid == x
    case Spilled(nid) => hnid == nid
    case Bytes(data) =>
      hnid < U32 && if IsHid(hnid) then InHeap(h)(hnid) == Some(data) else SubData(blocks, entries, hnid) == Some(data)
  }

  lemma LeadsGrow(h: Heap, g: Heap, a: Store, b: Store, x: seq<SubEntry>, y: seq<SubEntry>, kind: Kind, hnid: nat)
    requires ReadsMore(InHeap(h), InHeap(g)) && Extends(a, b) && x <= y && Leads(h, a, x, kind, hnid)
    ensures Leads(g, b, y, kind, hnid)
  {
    hide SubData, InHeap;
    if kind.Bytes? && !IsHid(hnid) { SubDataGrow(a, b, x, y, hnid); }
  }

  ghost predicate AllLead(h: Heap, blocks: Store, entries: seq<SubEntry>, values: seq<Value>, hnids: seq<nat>) {
    |hnids| == |values| && forall i :: 0 <= i < |values| ==> Leads(h, blocks, entries, values[i].kind, hnids[i])
  }

  lemma AllLeadGrow(h: Heap, g: Heap, a: Store, b: Store, x: seq<SubEntry>, y: seq<SubEntry>, values: seq<Value>, hnids: seq<nat>)
    requires ReadsMore(InHeap(h), InHeap(g)) && Extends(a, b) && x <= y && AllLead(h, a, x, values, hnids)
    ensures AllLead(g, b, y, values, hnids)
  {
    hide Leads, ReadsMore, InHeap;
    forall i | 0 <= i < |values| ensures Leads(g, b, y, values[i].kind, hnids[i]) {
      LeadsGrow(h, g, a, b, x, y, values[i].kind, hnids[i]);
    }
  }

  lemma AllLeadSnoc(h: Heap, blocks: Store, entries: seq<SubEntry>, values: seq<Value>, k: nat, hnids: seq<nat>, hnid: nat)
    requires k < |values| && AllLead(h, blocks, entries, values[..k], hnids) && Leads(h, blocks, entries, values[k].kind, hnid)
    ensures AllLead(h, blocks, entries, values[..k + 1], hnids + [hnid])
  {
    hide Leads;
  }

  lemma RecordReads(v: Value, hnid: nat)
    requires v.tag < U32 && hnid < U32
    ensures Peek(RecordOf(v, hnid).key) == TagId(v.tag)
    ensures Peek16At(RecordOf(v, hnid).value, 0) == TagType(v.tag) && Peek32At(RecordOf(v, hnid).value, 2) == hnid
  {
    hide Put16, Put32, Peek;
    PeekPut16(TagId(v.tag));
    PeekPut16(TagType(v.tag));
    PeekPut32(hnid);
    var rec := Put16(TagType(v.tag)) + Put32(hnid);
    assert rec[0..2] == Put16(TagType(v.tag)) && rec[2..6] == Put32(hnid);
  }

  lemma RecordKeys(values: seq<Value>, hnids: seq<nat>)
    requires |hnids| == |values| && DistinctIds(values) && forall i :: 0 <= i < |values| ==> values[i].tag < U32
    ensures forall i :: 0 <= i < |values| ==> Peek(RecordsOf(values, hnids)[i].key) == TagId(values[i].tag)
    ensures DistinctKeys(RecordsOf(values, hnids), ByKey()) && Sized(RecordsOf(values, hnids), 2, 6)
  {
    hide Put16, Put32, Peek, TagId, TagType;
    var rs := RecordsOf(values, hnids);
    forall i | 0 <= i < |values| ensures Peek(rs[i].key) == TagId(values[i].tag) {
      IdBound(values[i].tag);
      PeekPut16(TagId(values[i].tag));
    }
    forall i, j | 0 <= i < j < |rs| ensures ByKey()(rs[i]) != ByKey()(rs[j]) {
    }
  }

  lemma IdBound(tag: nat)
    requires tag < U32
    ensures TagId(tag) < U16
  {
  }

  /** Looking an id up in the records is looking it up among the values. */
  lemma FindRecord(values: seq<Value>, hnids: seq<nat>, id: nat)
    requires |hnids| == |values| && DistinctIds(values) && forall i :: 0 <= i < |values| ==> values[i].tag < U32
    ensures match FindValue(values, id)
            case None => Find(RecsOf(RecordsOf(values, hnids)), id) == None
            case Some(v) => exists i :: 0 <= i < |values| && v == values[i]
                              && Find(RecsOf(RecordsOf(values, hnids)), id) == Some(RecordOf(v, hnids[i]).value)
  {
    hide Put16, Put32, Peek, TagId, TagType, RecordOf;
    var rs := RecordsOf(values, hnids);
    RecordKeys(values, hnids);
    match FindValue(values, id)
    case None =>
      FindMissing(RecsOf(rs), id);
    case Some(v) =>
      var i :| 0 <= i < |values| && values[i] == v;
      DistinctFind(rs, i);
  }

  /** Everything a reader needs to find: the stream, its root, what the records lead to. */
  ghost predicate Serialized(stream: Buf, h: Heap, blocks: Store, entries: seq<SubEntry>, values: seq<Value>, hnids: seq<nat>) {
    && AllLead(h, blocks, entries, values, hnids) && ReadsMore(InHeap(h), InStream(stream))
    && Holds(InStream(stream), UserRoot(stream), RecsOf(SortBy(RecordsOf(values, hnids), ByKey())), Bth.PerLeaf(2, 6), Bth.PerIndex(2))
  }

  /** A reader finds exactly the values: each under its id, and nothing under any other. */
  lemma ReadsBack(stream: Buf, h: Heap, blocks: Store, entries: seq<SubEntry>, values: seq<Value>, hnids: seq<nat>, id: nat)
    requires Serialized(stream, h, blocks, entries, values, hnids)
    requires DistinctIds(values) && forall i :: 0 <= i < |values| ==> values[i].tag < U32
    ensures match FindValue(values, id)
            case None => Absent(stream, id)
            case Some(v) => WellTyped(v) ==> ReadProperty(stream, Subs(blocks, entries), id) == Meaning(v, Subs(blocks, entries))
  {
    hide Holds, Lookup, UserRoot, HeapItem, SortBy, RecsOf, SubData, FindValue, DistinctIds, Peek, Put16, Put32;
    var rs := RecordsOf(values, hnids);
    RecordKeys(values, hnids);
    LookupFinds(InStream(stream), UserRoot(stream), rs, Bth.PerLeaf(2, 6), Bth.PerIndex(2), id);
    FindRecord(values, hnids, id);
    match FindValue(values, id)
    case None =>
    case Some(v) =>
      var i :| 0 <= i < |values| && v == values[i]
               && Find(RecsOf(RecordsOf(values, hnids)), id) == Some(RecordOf(v, hnids[i]).value);
      assert Leads(h, blocks, entries, values[i].kind, hnids[i]);
      if WellTyped(v) { RecordReads(v, hnids[i]); }
  }

  lemma LastWriteSnoc(history: seq<Value>, v: Value, id: nat)
    ensures LastWrite(history + [v], id) == if TagId(v.tag) == id then Some(v) else LastWrite(history, id)
  {
    assert (history + [v])[..|history|] == history;
  }

  /** The values are the last writes of their history. */
  ghost predicate LastOnes(values: seq<Value>, history: seq<Value>) {
    && DistinctIds(values) && (forall i :: 0 <= i < |values| ==> values[i].tag < U32)
    && forall id: nat :: FindValue(values, id) == LastWrite(history, id)
  }

  // ---------------------------------------------------------------- class

  class PropertyContext {
    var values: seq<Value>

    /** Every value ever put, in order. */
    ghost var history: seq<Value>

    ghost predicate Valid()
      reads this
    {
      LastOnes(values, history)
    }

    constructor ()
      ensures Valid() && history == [] && values == []
    {
      values, history := [], [];
    }

    /** A later value for a property id takes the place of an earlier one, type and all. */
    method Put(v: Value)
      requires Valid() && v.tag < U32
      modifies this
      ensures Valid() && history == old(history) + [v] && |values| <= |old(values)| + 1
    {
      ghost var was := values;
      forall id: nat ensures LastWrite(history + [v], id) == if TagId(v.tag) == id then Some(v) else LastWrite(history, id) {
        LastWriteSnoc(history, v, id);
      }
      history := history + [v];
      for i := 0 to |values|
        invariant values == was && forall k :: 0 <= k < i ==> TagId(values[k].tag) != TagId(v.tag)
      {
        if TagId(values[i].tag) == TagId(v.tag) {
          values := values[i := v];
          forall id: nat ensures FindValue(values, id) == if id == TagId(v.tag) then Some(v) else FindValue(was, id) {
            FindReplaced(was, i, v, id);
          }
          return;
        }
      }
      values := values + [v];
      forall id: nat ensures FindValue(values, id) == if id == TagId(v.tag) then Some(v) else FindValue(was, id) {
        FindAppended(was, v, id);
      }
      FindAppended(was, v, 0);
    }

    method SetInt16(tag: nat, v: nat)
      requires Valid() && tag < U32 && v < U16
      modifies this
      ensures Valid() && history == old(history) + [Value(tag, Inline(v))]
    {
      Put(Value(tag, Inline(v)));
    }

    method SetInt32(tag: nat, v: nat)
      requires Valid() && tag < U32 && v < U32
      modifies this
      ensures Valid() && history == old(history) + [Value(tag, Inline(v))]
    {
      Put(Value(tag, Inline(v)));
    }

    method SetBool(tag: nat, v: bool)
      requires Valid() && tag < U32
      modifies this
      ensures Valid() && history == old(history) + [Value(tag, Inline(if v then 1 else 0))]
    {
      Put(Value(tag, Inline(if v then 1 else 0)));
    }

    method SetInt64(tag: nat, v: nat)
      requires Valid() && tag < U32 && v < U64
      modifies this
      ensures Valid() && history == old(history) + [Value(tag, Bytes(Put64(v)))]
    {
      var b := AppendLe([], v, 8);
      assert [] + Put64(v) == Put64(v);
      Put(Value(tag, Bytes(b)));
    }

    method SetBinary(tag: nat, data: Buf)
      requires Valid() && tag < U32
      modifies this
      ensures Valid() && history == old(history) + [Value(tag, Bytes(data))]
    {
      Put(Value(tag, Bytes(data)));
    }

    /** Text goes in as UTF-16 unless the tag asks for bytes. */
    method SetString(tag: nat, utf8: Buf)
      requires Valid() && tag < U32
      modifies this
      ensures Valid()
      ensures history == old(history) + [Value(tag, Bytes(if TagType(tag) == PT_STRING8 then utf8 else EncodeUtf16(Scalars(utf8))))]
    {
      if TagType(tag) == PT_STRING8 {
        Put(Value(tag, Bytes(utf8)));
      } else {
        var text := ToUtf16(utf8);
        Put(Value(tag, Bytes(text)));
      }
    }

    method SetStringArray(tag: nat, items: seq<Buf>)
      requires Valid() && tag < U32
      modifies this
      ensures Valid() && |history| == |old(history)| + 1 && history[..|old(history)|] == old(history)
      ensures |StringArray(Texts(items))| < U32 ==> history == old(history) + [Value(tag, Bytes(StringArray(Texts(items))))]
    {
      var encoded: seq<Buf> := [];
      for i := 0 to |items|
        invariant encoded == Texts(items[..i]) && unchanged(this)
      {
        assert items[..i + 1][..i] == items[..i];
        var text := ToUtf16(items[i]);
        encoded := encoded + [text];
      }
      assert items[..|items|] == items;
      var buf := BuildStringArray(encoded);
      Put(Value(tag, Bytes(buf)));
    }

    /** PtypObject: a subnode id and a size. */
    method SetObject(tag: nat, nid: nat, size: nat)
      requires Valid() && tag < U32 && nid < U32 && size < U32
      modifies this
      ensures Valid() && history == old(history) + [Value(tag, Bytes(Put32(nid) + Put32(size)))]
    {
      Put(Value(tag, Bytes(Put32(nid) + Put32(size))));
    }

    method SetSpilledValue(tag: nat, nid: nat)
      requires Valid() && tag < U32
      modifies this
      ensures Valid() && history == old(history) + [Value(tag, Spilled(nid))]
    {
      Put(Value(tag, Spilled(nid)));
    }

    method Has(tag: nat) returns (r: bool)
      requires Valid()
      ensures r <==> LastWrite(history, TagId(tag)).Some?
    {
      for i := 0 to |values|
        invariant forall k :: 0 <= k < i ==> TagId(values[k].tag) != TagId(tag)
      {
        if TagId(values[i].tag) == TagId(tag) {
          assert values[i] in values;
          return true;
        }
      }
      return false;
    }

    /** Places one value: in the record, in the heap, or in a subnode. */
    method Place(v: Value, hn: HeapNode.HeapNode, subs: SubnodeAllocator) returns (r: Result<nat>)
      requires hn.Valid() && subs.ndb.Valid()
      modifies hn, subs, subs.ndb
      ensures subs.ndb.Valid() && subs.ndb.Grown() && subs.ndb.nbt == old(subs.ndb.nbt) && subs.Kept()
      ensures hn.userRoot == old(hn.userRoot) && subs.nextIndex <= old(subs.nextIndex) + 1
      ensures r.Ok? ==> hn.Valid() && |hn.Contents()| <= |old(hn.Contents())| + 1
      ensures r.Ok? ==> ReadsMore(InHeap(old(hn.Contents())), InHeap(hn.Contents()))
      ensures r.Ok? && subs.ndb.Fits64() && old(subs.Good()) && subs.nextIndex <= MAX_INDEX
              ==> Leads(hn.Contents(), subs.ndb.blocks, subs.entries, v.kind, r.value)
      ensures r.Err? ==> (v.kind.Bytes? && |v.kind.data| >= U32) || |old(hn.Contents())| >= MAX_BLOCKS
      ensures r.Ok? && subs.ndb.Fits64() ==> Ownership.Passes(old(subs.Held()), subs.Held())
    {
      hide subs.ndb.Valid, HeapOk, SubData, InHeap, ReadsMore, AllocIn, Ownership.Passes, subs.Held;
      ghost var h := hn.Contents();
      subs.HeldPasses();
      Bth.CoversItself(InHeap(h));
      match v.kind
      case Inline(x) => return Ok(x);
      case Spilled(nid) => return Ok(nid);
      case Bytes(data) =>
        if |data| <= MAX_ALLOC {
          HeapNode.NotEmpty(h);
          Bth.AllocFails(h, data);
          var hid := hn.Alloc(data);
          if hid.Ok? { AllocCovers(h, data); }
          return hid;
        }
        var nid := subs.Spill(data);
        if nid.Ok? && subs.nextIndex <= MAX_INDEX { SpilledId(old(subs.nextIndex)); }
        return nid;
    }

    /** Places every value and makes the records that lead to them. */
    method PlaceAll(hn: HeapNode.HeapNode, subs: SubnodeAllocator) returns (r: Result<seq<Record>>, ghost hnids: seq<nat>)
      requires hn.Valid() && |hn.Contents()| == 1 && subs.ndb.Valid()
      modifies hn, subs, subs.ndb
      ensures subs.ndb.Valid() && subs.ndb.Grown() && subs.ndb.nbt == old(subs.ndb.nbt) && subs.Kept()
      ensures subs.nextIndex <= old(subs.nextIndex) + |values|
      ensures r.Ok? ==> hn.Valid() && |hn.Contents()| <= |values| + 1 && |hnids| == |values| && r.value == RecordsOf(values, hnids)
      ensures r.Ok? && subs.ndb.Fits64() && old(subs.Good()) && subs.nextIndex <= MAX_INDEX
              ==> AllLead(hn.Contents(), subs.ndb.blocks, subs.entries, values, hnids)
      ensures r.Err? ==> (exists v :: v in values && v.kind.Bytes? && |v.kind.data| >= U32) || |values| >= MAX_BLOCKS
      ensures r.Ok? && subs.ndb.Fits64() ==> Ownership.Passes(old(subs.Held()), subs.Held())
    {
      hide subs.ndb.Valid, HeapOk, SubData, InHeap, ReadsMore, AllLead, Leads, RecordOf, DistinctKeys, hn.Valid, Ownership.Passes, subs.Held;
      subs.HeldPasses();
      var records: seq<Record> := [];
      hnids := [];
      NoneLead(hn.Contents(), subs.ndb.blocks, subs.entries);
      for k := 0 to |values|
        invariant hn.Valid() && |hn.Contents()| <= k + 1
        invariant subs.ndb.Valid() && subs.ndb.Grown() && subs.ndb.nbt == old(subs.ndb.nbt) && subs.Kept()
        invariant |hnids| == k && records == RecordsOf(values[..k], hnids) && subs.nextIndex <= old(subs.nextIndex) + k
        invariant subs.ndb.Fits64() && old(subs.Good()) && subs.nextIndex <= MAX_INDEX
                  ==> AllLead(hn.Contents(), subs.ndb.blocks, subs.entries, values[..k], hnids)
        invariant subs.ndb.Fits64() ==> Ownership.Passes(old(subs.Held()), subs.Held())
      {
        ghost var h, blocks, entries, held := hn.Contents(), subs.ndb.blocks, subs.entries, subs.Held();
        var hnid := Place(values[k], hn, subs);
        if hnid.Err? {
          assert values[k] in values;
          return Err(hnid.reason), hnids;
        }
        if subs.ndb.Fits64() { Ownership.PassesThen(old(subs.Held()), held, subs.Held()); }
        if subs.ndb.Fits64() && old(subs.Good()) && subs.nextIndex <= MAX_INDEX {
          AllLeadGrow(h, hn.Contents(), blocks, subs.ndb.blocks, entries, subs.entries, values[..k], hnids);
          AllLeadSnoc(hn.Contents(), subs.ndb.blocks, subs.entries, values, k, hnids, hnid.value);
        }
        RecordsSnoc(values, k, hnids, hnid.value);
        records := records + [RecordOf(values[k], hnid.value)];
        hnids := hnids + [hnid.value];
      }
      assert values[..|values|] == values;
      return Ok(records), hnids;
    }

    /** Every value in its place, and the tree of the records that lead to them: its handle is
        the user root. */
    method FillHeap(hn: HeapNode.HeapNode, subs: SubnodeAllocator) returns (r: Result<()>, ghost h: Heap, ghost hnids: seq<nat>)
      requires Valid() && hn.Valid() && |hn.Contents()| == 1 && subs.ndb.Valid()
      modifies hn, subs, subs.ndb
      ensures subs.ndb.Valid() && subs.ndb.Grown() && subs.ndb.nbt == old(subs.ndb.nbt) && subs.Kept()
      ensures subs.nextIndex <= old(subs.nextIndex) + |values| <= old(subs.nextIndex) + U16
      ensures r.Ok? ==> hn.Valid() && |hnids| == |values|
                        && Bth.Built(h, hn.Contents(), hn.userRoot, RecordsOf(values, hnids), 2, 6)
      ensures r.Ok? && subs.ndb.Fits64() && old(subs.Good()) && subs.nextIndex <= MAX_INDEX
              ==> AllLead(h, subs.ndb.blocks, subs.entries, values, hnids)
      ensures r.Err? ==> (exists v :: v in values && Huge(v)) || 1 + |values| + Bth.MostBlocks(|values|, 2, 6) > MAX_BLOCKS
      ensures r.Ok? && subs.ndb.Fits64() ==> Ownership.Passes(old(subs.Held()), subs.Held())
    {
      hide subs.ndb.Valid, HeapOk, SubData, InHeap, ReadsMore, AllLead, Leads, RecordOf, Bth.Built, Bth.MostBlocks, DistinctIds,
           DistinctKeys, Sized, RecordsOf, Numbered, Ownership.Passes, subs.Held, FindValue, LastWrite;
      AtMostAllIds(values);
      var records;
      records, hnids := PlaceAll(hn, subs);
      h := hn.Contents();
      if records.Err? {
        return Err(records.reason), h, hnids;
      }
      RecordKeys(values, hnids);
      var root := Bth.BuildBth(Bth.InMemory(hn), 2, 6, records.value);
      if root.Err? {
        return Err(root.reason), h, hnids;
      }
      hn.SetUserRoot(root.value);
      r := Ok(());
    }

    /** The heap's stream. Reading any property id from it gives the last value put under
        that id, wherever it went, and nothing for an id never put. */
    method Serialize(subs: SubnodeAllocator) returns (r: Result<Buf>)
      requires Valid() && subs.ndb.Valid()
      modifies subs, subs.ndb
      ensures subs.ndb.Valid() && subs.ndb.Grown() && subs.ndb.nbt == old(subs.ndb.nbt) && subs.Kept()
      ensures subs.nextIndex <= old(subs.nextIndex) + U16
      ensures r.Ok? && subs.ndb.Fits64() && old(subs.Good()) && subs.nextIndex <= MAX_INDEX ==>
                forall id: nat :: Reads(r.value, Subs(subs.ndb.blocks, subs.entries), LastWrite(history, id), id)
      ensures r.Ok? ==> |r.value| < U32
      ensures r.Err? ==> !ContextFits(history)
      ensures r.Ok? && subs.ndb.Fits64() ==> Ownership.Passes(old(subs.Held()), subs.Held())
    {
      hide subs.ndb.Valid, HeapOk, SubData, AllLead, Reads, Render, Bth.Built, Bth.MostBlocks, Serialized, DistinctIds, Subs, DistinctKeys,
           RecordsOf, Numbered, Ownership.Passes, subs.Held, ContextFits, FindValue, LastWrite, LastOnes;
      var hn := new HeapNode.HeapNode(HN_SIG_PC);
      WhenItFits(values, history);
      var filled, h, hnids := FillHeap(hn, subs);
      if filled.Err? {
        return Err(filled.reason);
      }
      ghost var g := hn.Contents();
      HeapNode.NotEmpty(g);
      var stream := hn.Serialize();
      if subs.ndb.Fits64() && old(subs.Good()) && subs.nextIndex <= MAX_INDEX {
        StreamReads(h, g, hn.userRoot, HN_SIG_PC, HeapNode.FillLevels(g), subs.ndb.blocks, subs.entries, values, hnids, history);
      }
      return Ok(stream);
    }
  }

  /** A reader of the stream finds every last write. */
  lemma StreamReads(h: Heap, g: Heap, hid: nat, sig: byte, fill: Buf, blocks: Store, entries: seq<SubEntry>, values: seq<Value>,
                    hnids: seq<nat>, history: seq<Value>)
    requires AllLead(h, blocks, entries, values, hnids) && HeapOk(g) && |fill| == 4
    requires Bth.Built(h, g, hid, RecordsOf(values, hnids), 2, 6) && LastOnes(values, history)
    ensures forall id: nat :: Reads(Render(g, sig, hid, fill), Subs(blocks, entries), LastWrite(history, id), id)
  {
    hide AllLead, HeapOk, Render, Bth.Built, RecordsOf, Reads, Serialized, Subs, DistinctIds, FindValue, LastWrite;
    StreamSerialized(h, g, hid, sig, fill, blocks, entries, values, hnids);
    forall id: nat ensures Reads(Render(g, sig, hid, fill), Subs(blocks, entries), LastWrite(history, id), id) {
      AllRead(Render(g, sig, hid, fill), h, blocks, entries, values, hnids, id);
    }
  }

  predicate Huge(v: Value) { v.kind.Bytes? && |v.kind.data| >= U32 }

  /** What a run of writes leaves can be stored: no value of 4 GiB or more, and no more ids
      than the heap has room for if every value took a block of its own. */
  ghost predicate ContextFits(puts: seq<Value>) {
    && (forall id: nat :: LastWrite(puts, id).Some? ==> !Huge(LastWrite(puts, id).value))
    && 1 + |IdSet(puts)| + Bth.MostBlocks(|IdSet(puts)|, 2, 6) <= MAX_BLOCKS
  }

  lemma {:induction false} IdsWritten(puts: seq<Value>, id: nat)
    ensures LastWrite(puts, id).Some? <==> exists i :: 0 <= i < |puts| && TagId(puts[i].tag) == id
  {
    if puts != [] {
      var n := |puts| - 1;
      IdsWritten(puts[..n], id);
      assert TagId(puts[n].tag) == id ==> LastWrite(puts, id).Some?;
    }
  }

  /** The values kept are the last writes. */
  lemma WhenItFits(values: seq<Value>, history: seq<Value>)
    requires LastOnes(values, history)
    ensures |values| == |IdSet(history)|
    ensures ContextFits(history) ==> (forall v :: v in values ==> !Huge(v)) && 1 + |values| + Bth.MostBlocks(|values|, 2, 6) <= MAX_BLOCKS
  {
    hide LastWrite, Huge, TagId;
    forall i | 0 <= i < |values| ensures LastWrite(history, TagId(values[i].tag)) == Some(values[i]) { FindValueAt(values, i); }
    forall id: nat ensures id in IdSet(values) <==> id in IdSet(history) { IdsWritten(history, id); }
    assert IdSet(values) == IdSet(history);
    IdSetSize(values);
  }

  function IdSet(values: seq<Value>): (ids: set<nat>)
    ensures forall id :: id in ids <==> exists i :: 0 <= i < |values| && TagId(values[i].tag) == id
  {
    if values == [] then {}
    else
      assert forall i :: 0 <= i < |values| ==> i == 0 || values[i] == values[1..][i - 1];
      IdSet(values[1..]) + {TagId(values[0].tag)}
  }

  lemma {:induction false} IdSetSize(values: seq<Value>)
    requires DistinctIds(values)
    ensures |IdSet(values)| == |values|
  {
    if values != [] { IdSetSize(values[1..]); }
  }

  lemma {:induction false} RangeSize(ids: set<nat>, n: nat)
    requires forall id :: id in ids ==> id < n
    ensures |ids| <= n
  {
    if n > 0 { RangeSize(ids - {n - 1}, n - 1); } else { assert ids == {}; }
  }

  /** There are no more values than property ids. */
  lemma AtMostAllIds(values: seq<Value>)
    requires DistinctIds(values) && forall i :: 0 <= i < |values| ==> values[i].tag < U32
    ensures |values| <= U16
  {
    IdSetSize(values);
    RangeSize(IdSet(values), U16);
  }

  lemma NoneLead(h: Heap, blocks: Store, entries: seq<SubEntry>)
    ensures AllLead(h, blocks, entries, [], []) && RecordsOf([], []) == []
  {
  }

  lemma AllRead(stream: Buf, h: Heap, blocks: Store, entries: seq<SubEntry>, values: seq<Value>, hnids: seq<nat>, id: nat)
    requires Serialized(stream, h, blocks, entries, values, hnids)
    requires DistinctIds(values) && forall i :: 0 <= i < |values| ==> values[i].tag < U32
    ensures Reads(stream, Subs(blocks, entries), FindValue(values, id), id)
  {
    hide ReadProperty, Meaning, Serialized, Subs, DistinctIds, WellTyped;
    ReadsBack(stream, h, blocks, entries, values, hnids, id);
  }

  /** A reader finds what `want` says about a property id. */
  ghost predicate Reads(stream: Buf, sub: nat -> Option<Buf>, want: Option<Value>, id: nat) {
    match want
    case None => Absent(stream, id)
    case Some(v) => WellTyped(v) ==> ReadProperty(stream, sub, id) == Meaning(v, sub)
  }

  lemma RecordsSnoc(values: seq<Value>, k: nat, hnids: seq<nat>, hnid: nat)
    requires k < |values| && |hnids| == k
    ensures RecordsOf(values[..k + 1], hnids + [hnid]) == RecordsOf(values[..k], hnids) + [RecordOf(values[k], hnid)]
  {
    hide RecordOf;
  }

  lemma AllLeadLength(h: Heap, blocks: Store, entries: seq<SubEntry>, values: seq<Value>, hnids: seq<nat>)
    requires AllLead(h, blocks, entries, values, hnids)
    ensures |hnids| == |values|
  {
  }

  /** The finished stream has what ReadsBack asks for. */
  lemma StreamSerialized(h: Heap, g: Heap, hid: nat, sig: byte, fill: Buf, blocks: Store, entries: seq<SubEntry>, values: seq<Value>,
                         hnids: seq<nat>)
    requires AllLead(h, blocks, entries, values, hnids) && HeapOk(g) && |fill| == 4
    requires Bth.Built(h, g, hid, RecordsOf(values, hnids), 2, 6)
    ensures Serialized(Render(g, sig, hid, fill), h, blocks, entries, values, hnids)
  {
    hide AllLead, HeapOk, Render, InHeap, InStream, Holds, SortBy, RecsOf, ReadsMore, UserRoot, Bth.PerLeaf, Bth.PerIndex;
    var stream := Render(g, sig, hid, fill);
    AllLeadLength(h, blocks, entries, values, hnids);
    StreamCovers(g, sig, hid, fill);
    CoversTransitive(InHeap(h), InHeap(g), InStream(stream));
    HeapRefinement.UserRootReads(g, sig, hid, fill);
    HoldsCovers(InHeap(g), InStream(stream), hid, RecsOf(SortBy(RecordsOf(values, hnids), ByKey())), Bth.PerLeaf(2, 6), Bth.PerIndex(2));
  }

  lemma SpilledId(index: nat)
    requires index < MAX_INDEX
    ensures !IsHid(LtpNid(index)) && LtpNid(index) < U32
  {
    NidParts(NID_TYPE_LTP, index);
  }

  function Texts(items: seq<Buf>): (ts: seq<Buf>)
    ensures |ts| == |items|
  {
    if items == [] then [] else Texts(items[..|items| - 1]) + [EncodeUtf16(Scalars(items[|items| - 1]))]
  }
}
