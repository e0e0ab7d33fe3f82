/** The name-to-id map on file: three streams, a hash table, and whole runs of requests. */
module NameIdStreams {
  import opened Bytes
  import opened Wrappers
  import opened Utf
  import opened NameIdMap
  import opened PropertyContext

  // ------------------------------------------------------------- whole runs

  predicate DistinctNames(extra: seq<Guid>, names: seq<Name>) {
    forall i, j :: 0 <= i < j < |names| ==> !Alike(extra, names[i], names[j])
  }

  lemma NamesDistinct(m: NameIdMap)
    requires m.Valid()
    ensures DistinctNames(m.extraGuids, m.names) && AllKnown(m.extraGuids, m.names)
  {
    hide EntriesOk, ExtraOk, GuidIndex, Fold, Known, AllEarly;
    forall i, j | 0 <= i < j < |m.names| ensures !Alike(m.extraGuids, m.names[i], m.names[j]) {
      NotAlike(m.extraGuids, m.names, m.byString, m.byNumeric, i, j);
    }
  }

  lemma NotAlike(extra: seq<Guid>, names: seq<Name>, byString: map<(nat, Buf), nat>, byNumeric: map<(nat, nat), nat>, i: nat, j: nat)
    requires TablesOk(extra, names, byString, byNumeric) && i < j < |names|
    ensures !Alike(extra, names[i], names[j])
  {
    hide GuidIndex, Fold, Known;
  }

  predicate AllKnown(extra: seq<Guid>, names: seq<Name>) { forall i :: 0 <= i < |names| ==> Known(extra, names[i].guid) }

  /** A request got the id of the name it is alike to, or zero from a full map. */
  ghost predicate Answered(extra: seq<Guid>, names: seq<Name>, request: Name, id: nat) {
    && Known(extra, request.guid)
    && if id == 0 then |names| == MAX_NAMES && forall p :: 0 <= p < |names| ==> !Alike(extra, names[p], request)
       else FIRST_NAMED_ID <= id < FIRST_NAMED_ID + |names| && Alike(extra, names[id - FIRST_NAMED_ID], request)
  }

  ghost predicate AllAnswered(extra: seq<Guid>, names: seq<Name>, requests: seq<Name>, ids: seq<nat>) {
    |ids| == |requests| && forall i :: 0 <= i < |ids| ==> Answered(extra, names, requests[i], ids[i])
  }

  lemma AnsweredLater(x: seq<Guid>, y: seq<Guid>, a: seq<Name>, b: seq<Name>, request: Name, id: nat)
    requires x <= y && a <= b && |b| <= MAX_NAMES && AllKnown(x, a) && Answered(x, a, request, id)
    ensures Answered(y, b, request, id)
  {
    hide Alike, Known;
    assert b[..|a|] == a;
    IndexGrow(x, y, request.guid);
    forall p | 0 <= p < |a| ensures Alike(y, a[p], request) <==> Alike(x, a[p], request) { AlikeGrow(x, y, a[p], request); }
    if id == 0 { assert b == a; }
  }

  lemma MintedAnswers(extra: seq<Guid>, before: seq<Name>, after: seq<Name>, name: Name, id: nat)
    requires MintedAlike(extra, before, after, name, id) && |after| <= MAX_NAMES && Known(extra, name.guid)
    ensures Answered(extra, after, name, id)
  {
    hide Fold, GuidIndex;
    if exists i :: 0 <= i < |before| && Alike(extra, before[i], name) {
      var i :| 0 <= i < |before| && Alike(extra, before[i], name) && id == FIRST_NAMED_ID + i;
    }
  }

  /** Two requests with ids share one exactly when they are alike. */
  lemma SameIdAlike(extra: seq<Guid>, names: seq<Name>, a: Name, b: Name, x: nat, y: nat)
    requires DistinctNames(extra, names) && Answered(extra, names, a, x) && Answered(extra, names, b, y) && x > 0 && y > 0
    ensures x == y <==> Alike(extra, a, b)
  {
    hide Fold, GuidIndex, Known;
    var p, q := x - FIRST_NAMED_ID, y - FIRST_NAMED_ID;
    AlikeChain(extra, names[p], a, b, names[q]);
  }

  lemma AlikeChain(extra: seq<Guid>, p: Name, a: Name, b: Name, q: Name)
    requires Alike(extra, p, a) && Alike(extra, q, b)
    ensures Alike(extra, a, b) ==> Alike(extra, p, q) && Alike(extra, q, p)
    ensures p == q ==> Alike(extra, a, b)
  {
    hide Fold, GuidIndex;
  }

  /** Any run of requests. Ids are shared exactly between requests that are alike: up to the
      limit on GUIDs these are the requests for the same name, and above it AlikeIff tells
      which others. Every id in use is the place of a name, from 0x8000 up without gaps;
      zero means the map was full. */
  method MintAll(m: NameIdMap, requests: seq<Name>) returns (ids: seq<nat>)
    requires m.Valid() && forall i :: 0 <= i < |requests| ==> requests[i].Number? ==> requests[i].id < U32
    modifies m
    ensures m.Valid() && |ids| == |requests| && AllAnswered(m.extraGuids, m.names, requests, ids)
    ensures forall i, j :: 0 <= i < |ids| && 0 <= j < |ids| && ids[i] > 0 && ids[j] > 0
                           ==> (ids[i] == ids[j] <==> Alike(m.extraGuids, requests[i], requests[j]))
    ensures |m.extraGuids| <= MAX_EXTRA ==>
              forall i, j :: 0 <= i < |ids| && 0 <= j < |ids| && ids[i] > 0 && ids[j] > 0
                             ==> (ids[i] == ids[j] <==> Same(requests[i], requests[j]))
  {
    hide m.Valid, MintedAlike, Minted, AllAnswered, Answered, Alike, Same, Known;
    ids := [];
    NoneAnswered(m.extraGuids, m.names);
    NameCount(m);
    for i := 0 to |requests|
      invariant m.Valid() && |ids| == i && |m.names| <= MAX_NAMES
      invariant AllAnswered(m.extraGuids, m.names, requests[..i], ids)
    {
      ghost var was, before := m.extraGuids, m.names;
      NamesDistinct(m);
      var id;
      match requests[i] {
        case Text(guid, text) => id := m.IdForString(guid, text);
        case Number(guid, number) => id := m.IdForNumeric(guid, number);
      }
      NameCount(m);
      MintedAnswers(m.extraGuids, before, m.names, requests[i], id);
      AnsweredNext(was, m.extraGuids, before, m.names, requests, ids, i, id);
      ids := ids + [id];
    }
    assert requests[..|requests|] == requests;
    NamesDistinct(m);
    forall i, j | 0 <= i < |ids| && 0 <= j < |ids| && ids[i] > 0 && ids[j] > 0
      ensures ids[i] == ids[j] <==> Alike(m.extraGuids, requests[i], requests[j])
      ensures |m.extraGuids| <= MAX_EXTRA ==> (ids[i] == ids[j] <==> Same(requests[i], requests[j]))
    {
      OneAnswered(m.extraGuids, m.names, requests, ids, i);
      OneAnswered(m.extraGuids, m.names, requests, ids, j);
      SameIdAlike(m.extraGuids, m.names, requests[i], requests[j], ids[i], ids[j]);
      AlikeIff(m.extraGuids, requests[i], requests[j]);
    }
  }

  /** Above the limit: a text under the GUID at place 65534 gets the id of the same text
      under PS_MAPI, two different names. */
  method ShareId(m: NameIdMap, text: Buf) returns (mapi: nat, other: nat)
    requires m.Valid() && |m.extraGuids| > MAX_EXTRA
    modifies m
    ensures m.Valid() && mapi == other && (old(exists i :: 0 <= i < |m.names| && Same(m.names[i], Text(PS_MAPI, text))) ==> mapi > 0)
    ensures m.extraGuids == old(m.extraGuids) && !Same(Text(PS_MAPI, text), Text(m.extraGuids[MAX_EXTRA], text))
  {
    hide m.Valid, Fold, GuidIndex, Minted, MintedAlike, Known, Alike, Same, DistinctNames;
    ghost var names, extra, g := m.names, m.extraGuids, m.extraGuids[MAX_EXTRA];
    ExtraDistinct(m);
    Collision(extra, text);
    mapi := m.IdForString(PS_MAPI, text);
    ghost var mid := m.names;
    NamesDistinct(m);
    other := m.IdForString(m.extraGuids[MAX_EXTRA], text);
    NameCount(m);
    SharedId(extra, names, mid, m.names, Text(PS_MAPI, text), Text(g, text), mapi, other);
  }

  /** GUIDs by number, none of them predefined. */
  function NumberedGuid(i: nat): Guid { Put32(i) + Zeros(12) }

  function NumberedGuids(n: nat): (gs: seq<Guid>)
    ensures |gs| == n && forall i :: 0 <= i < n ==> gs[i] == NumberedGuid(i)
  {
    seq(n, i requires 0 <= i < n => NumberedGuid(i))
  }

  lemma NumberedNew(n: nat)
    requires n < U32
    ensures !Known(NumberedGuids(n), NumberedGuid(n)) && NumberedGuids(n) + [NumberedGuid(n)] == NumberedGuids(n + 1)
  {
    hide Put32;
    assert NumberedGuid(n)[15] == 0;
    forall i | 0 <= i < n ensures NumberedGuid(i) != NumberedGuid(n) {
      PeekPut32(i);
      PeekPut32(n);
      assert NumberedGuid(i)[..4] == Put32(i) && NumberedGuid(n)[..4] == Put32(n);
    }
  }

  /** A map past the limit: one text under PS_MAPI, then under GUID after GUID. */
  method ManyGuids(crc: Buf -> nat, text: Buf) returns (m: NameIdMap)
    ensures fresh(m) && m.Valid() && |m.extraGuids| == MAX_EXTRA + 1
    ensures |m.names| > 0 && m.names[0] == Text(PS_MAPI, text)
  {
    m := new NameIdMap(crc);
    hide m.Valid, Fold, GuidIndex, Minted, MintedAlike, Known, NumberedGuid;
    var id := m.IdForString(PS_MAPI, text);
    FirstMinted(m.extraGuids, m.names, Text(PS_MAPI, text), id);
    PredefinedKnown();
    for i := 0 to MAX_EXTRA + 1
      invariant fresh(m) && m.Valid() && m.extraGuids == NumberedGuids(i) && |m.names| > 0 && m.names[0] == Text(PS_MAPI, text)
    {
      NumberedNew(i);
      id := m.IdForString(NumberedGuid(i), text);
    }
  }

  lemma PredefinedKnown()
    ensures Known([], PS_MAPI)
  {
  }

  /** So two different names do come to share an id. */
  method NamesShareId(crc: Buf -> nat, text: Buf) returns (m: NameIdMap, mapi: nat, other: nat)
    ensures fresh(m) && m.Valid() && mapi == other > 0
    ensures |m.extraGuids| > MAX_EXTRA && !Same(Text(PS_MAPI, text), Text(m.extraGuids[MAX_EXTRA], text))
  {
    m := ManyGuids(crc, text);
    hide m.Valid, Fold;
    assert Same(m.names[0], Text(PS_MAPI, text));
    mapi, other := ShareId(m, text);
  }

  lemma Collision(extra: seq<Guid>, text: Buf)
    requires ExtraOk(extra) && |extra| > MAX_EXTRA
    ensures var x, y := Text(PS_MAPI, text), Text(extra[MAX_EXTRA], text);
            Known(extra, x.guid) && Known(extra, y.guid) && Alike(extra, x, y) && !Same(x, y)
  {
    hide Fold, GuidIndex;
    IndexCollides(extra);
  }

  lemma ExtraDistinct(m: NameIdMap)
    requires m.Valid()
    ensures ExtraOk(m.extraGuids)
  {
  }

  lemma SharedId(extra: seq<Guid>, a: seq<Name>, b: seq<Name>, c: seq<Name>, x: Name, y: Name, i: nat, j: nat)
    requires MintedAlike(extra, a, b, x, i) && MintedAlike(extra, b, c, y, j) && Alike(extra, x, y) && |c| <= MAX_NAMES
    requires DistinctNames(extra, b)
    ensures i == j && ((exists k :: 0 <= k < |a| && Same(a[k], x)) ==> i > 0)
  {
    hide Fold, GuidIndex;
    if k :| 0 <= k < |a| && Same(a[k], x) { assert Alike(extra, a[k], x); }
    if i > 0 {
      var k := i - FIRST_NAMED_ID;
      assert Alike(extra, b[k], y);
    }
  }

  lemma NameCount(m: NameIdMap)
    requires m.Valid()
    ensures |m.names| <= MAX_NAMES
  {
  }

  lemma NoneAnswered(extra: seq<Guid>, names: seq<Name>)
    ensures AllAnswered(extra, names, [], [])
  {
  }

  lemma OneAnswered(extra: seq<Guid>, names: seq<Name>, requests: seq<Name>, ids: seq<nat>, i: nat)
    requires AllAnswered(extra, names, requests, ids) && i < |ids|
    ensures Answered(extra, names, requests[i], ids[i]) && Known(extra, requests[i].guid)
  {
  }

  lemma AnsweredNext(x: seq<Guid>, y: seq<Guid>, before: seq<Name>, after: seq<Name>, requests: seq<Name>, ids: seq<nat>, i: nat, id: nat)
    requires i < |requests| && |ids| == i && x <= y && before <= after && |after| <= MAX_NAMES && AllKnown(x, before)
    requires AllAnswered(x, before, requests[..i], ids) && Answered(y, after, requests[i], id)
    ensures AllAnswered(y, after, requests[..i + 1], ids + [id])
  {
    hide Answered, AllKnown;
    forall k | 0 <= k < i ensures Answered(y, after, requests[k], ids[k]) {
      assert requests[..i][k] == requests[k];
      AnsweredLater(x, y, before, after, requests[k], ids[k]);
    }
  }

  // ------------------------------------------------------------ the streams

  function EncodeEntry(e: Entry): (b: Buf)
    ensures |b| == 8
  {
    Put32(e.numeric) + Put16(2 * e.guidIndex + if e.isString then 1 else 0) + Put16(e.propIndex)
  }

  function EncodeAll(entries: seq<Entry>): (b: Buf)
    ensures |b| == 8 * |entries|
  {
    if entries == [] then [] else EncodeAll(entries[..|entries| - 1]) + EncodeEntry(entries[|entries| - 1])
  }

  function GuidStream(extra: seq<Guid>): (b: Buf)
    ensures |b| == 16 * |extra|
  {
    if extra == [] then [] else GuidStream(extra[..|extra| - 1]) + extra[|extra| - 1]
  }

  function BucketOf(e: Entry): (b: nat)
    ensures b < BUCKET_COUNT
  {
    ((e.hash % U32) as bv32 ^ (e.guidIndex % U32) as bv32) as nat % BUCKET_COUNT
  }

  /** The entries a bucket holds, in order. */
  function Bucket(entries: seq<Entry>, b: nat): seq<Entry> {
    if entries == [] then []
    else
      var e := entries[|entries| - 1];
      Bucket(entries[..|entries| - 1], b) + if BucketOf(e) == b then [e] else []
  }

  /** All buckets before the n-th, one after the other. */
  function Buckets(entries: seq<Entry>, n: nat): seq<Entry> {
    if n == 0 then [] else Buckets(entries, n - 1) + Bucket(entries, n - 1)
  }

  lemma BucketSnoc(entries: seq<Entry>, e: Entry, b: nat)
    ensures Bucket(entries + [e], b) == Bucket(entries, b) + if BucketOf(e) == b then [e] else []
  {
    hide BucketOf;
    assert (entries + [e])[..|entries|] == entries;
  }

  lemma {:induction false} BucketsSnoc(entries: seq<Entry>, e: Entry, n: nat)
    ensures multiset(Buckets(entries + [e], n))
            == multiset(Buckets(entries, n)) + if BucketOf(e) < n then multiset{e} else multiset{}
  {
    hide BucketOf, Buckets, Bucket;
    if n == 0 {
      NoneBefore(entries);
      NoneBefore(entries + [e]);
    } else {
      BucketsSnoc(entries, e, n - 1);
      BucketSnoc(entries, e, n - 1);
      BucketsStep(entries + [e], n);
      BucketsStep(entries, n);
      if BucketOf(e) == n - 1 { assert multiset(Bucket(entries, n - 1) + [e]) == multiset(Bucket(entries, n - 1)) + multiset{e}; }
    }
  }

  lemma NoneBefore(entries: seq<Entry>)
    ensures Buckets(entries, 0) == []
  {
  }

  lemma BucketsStep(entries: seq<Entry>, n: nat)
    requires n > 0
    ensures multiset(Buckets(entries, n)) == multiset(Buckets(entries, n - 1)) + multiset(Bucket(entries, n - 1))
  {
    hide Bucket, BucketOf;
  }

  lemma {:induction false} NoBuckets(n: nat)
    ensures Buckets([], n) == []
  {
    if n > 0 { NoBuckets(n - 1); }
  }

  /** The buckets together hold every entry once. */
  lemma {:induction false} BucketsPartition(entries: seq<Entry>)
    ensures multiset(Buckets(entries, BUCKET_COUNT)) == multiset(entries)
  {
    hide BucketOf, Buckets;
    if entries == [] {
      NoBuckets(BUCKET_COUNT);
    } else {
      var n := |entries| - 1;
      BucketsPartition(entries[..n]);
      BucketsSnoc(entries[..n], entries[n], BUCKET_COUNT);
      assert entries[..n] + [entries[n]] == entries;
    }
  }

  /** An entry is in the bucket its hash names, and in no other. */
  lemma {:induction false} InBucket(entries: seq<Entry>, i: nat, b: nat)
    requires i < |entries|
    ensures BucketOf(entries[i]) == b ==> entries[i] in Bucket(entries, b)
    ensures forall e :: e in Bucket(entries, b) ==> e in entries && BucketOf(e) == b
  {
    hide BucketOf;
    var n := |entries| - 1;
    if i < n {
      InBucket(entries[..n], i, b);
    } else if n > 0 {
      InBucket(entries[..n], 0, b);
    }
  }

  // ------------------------------------------------------------- the reader

  /** A name as a reader of the streams resolves an id. */
  function Resolve(guids: Buf, entries: Buf, strings: Buf, id: nat): Option<Name> {
    if id < FIRST_NAMED_ID || 8 * (id - FIRST_NAMED_ID) + 8 > |entries| then None
    else
      var at := 8 * (id - FIRST_NAMED_ID);
      var numeric, w := Peek32At(entries, at), Peek16At(entries, at + 4);
      match GuidAt(guids, w / 2)
      case None => None
      case Some(guid) =>
        if w % 2 == 0 then Some(Number(guid, numeric))
        else
          match StringAt(strings, numeric)
          case None => None
          case Some(text) => Some(Text(guid, text))
  }

  function GuidAt(guids: Buf, w: nat): Option<Guid> {
    if w == 1 then Some(PS_MAPI)
    else if w == 2 then Some(PS_PUBLIC_STRINGS)
    else if w >= 3 && 16 * (w - 3) + 16 <= |guids| then Some(guids[16 * (w - 3)..16 * (w - 3) + 16])
    else None
  }

  lemma {:induction false} EntryAt(entries: seq<Entry>, i: nat)
    requires i < |entries|
    ensures EncodeAll(entries)[8 * i..8 * i + 8] == EncodeEntry(entries[i])
  {
    hide EncodeEntry;
    var n := |entries| - 1;
    if i < n {
      EntryAt(entries[..n], i);
      assert EncodeAll(entries)[8 * i..8 * i + 8] == EncodeAll(entries[..n])[8 * i..8 * i + 8];
    }
  }

  lemma {:induction false} GuidStreamAt(extra: seq<Guid>, i: nat)
    requires i < |extra|
    ensures GuidStream(extra)[16 * i..16 * i + 16] == extra[i]
  {
    var n := |extra| - 1;
    if i < n {
      GuidStreamAt(extra[..n], i);
      assert GuidStream(extra)[16 * i..16 * i + 16] == GuidStream(extra[..n])[16 * i..16 * i + 16];
    }
  }

  lemma EntryReads(entries: seq<Entry>, i: nat)
    requires i < |entries| && entries[i].numeric < U32 && entries[i].guidIndex < 32768
    ensures Peek32At(EncodeAll(entries), 8 * i) == entries[i].numeric
    ensures Peek16At(EncodeAll(entries), 8 * i + 4) == 2 * entries[i].guidIndex + if entries[i].isString then 1 else 0
  {
    hide EncodeAll, EncodeEntry, Peek32At, Peek16At;
    EntryAt(entries, i);
    EntryFields(EncodeAll(entries), 8 * i, entries[i]);
  }

  lemma EntryFields(all: Buf, at: nat, e: Entry)
    requires at + 8 <= |all| && all[at..at + 8] == EncodeEntry(e) && e.numeric < U32 && e.guidIndex < 32768
    ensures Peek32At(all, at) == e.numeric && Peek16At(all, at + 4) == 2 * e.guidIndex + if e.isString then 1 else 0
  {
    hide Put32, Put16, Peek, EncodeEntry;
    EntryHead(e);
    PeekPut32(e.numeric);
    PeekPut16(2 * e.guidIndex + if e.isString then 1 else 0);
    SliceOfSlice(all, at, at + 8, 0, 4);
    SliceOfSlice(all, at, at + 8, 4, 6);
  }

  lemma EntryHead(e: Entry)
    requires e.numeric < U32 && e.guidIndex < 32768
    ensures EncodeEntry(e)[0..4] == Put32(e.numeric)
    ensures EncodeEntry(e)[4..6] == Put16(2 * e.guidIndex + if e.isString then 1 else 0)
  {
    hide Put32, Put16;
  }

  lemma GuidReads(extra: seq<Guid>, g: Guid)
    requires ExtraOk(extra) && Early(extra, g)
    ensures GuidIndex(extra, g) < 32768 && GuidAt(GuidStream(extra), GuidIndex(extra, g)) == Some(g)
  {
    hide GuidStream, ExtraOk, Position;
    if g != PS_MAPI && g != PS_PUBLIC_STRINGS {
      var first := if |extra| <= MAX_NAMES then extra else extra[..MAX_NAMES];
      var i :| 0 <= i < |first| && first[i] == g;
      PositionAt(extra, i);
      ExtraReads(extra, g, i);
    }
  }

  lemma ExtraReads(extra: seq<Guid>, g: Guid, i: nat)
    requires i < |extra| && i < MAX_NAMES && extra[i] == g
    ensures (3 + i) % U16 == 3 + i && GuidAt(GuidStream(extra), 3 + i) == Some(g)
  {
    hide GuidStream;
    ModUnique(3 + i, U16, 0, 3 + i);
    GuidStreamAt(extra, i);
  }

  /** What a reader should find under an id: the GUID and the number, or the spelling
      first seen, in UTF-16. */
  function OnFile(name: Name): Name {
    match name
    case Text(guid, text) => Text(guid, EncodeUtf16(Scalars(text)))
    case Number(_, _) => name
  }

  /** Every minted id resolves to its name. */
  lemma IdsResolve(m: NameIdMap, i: nat)
    requires m.Valid() && i < |m.names| && |m.stringStream| < U32
    requires m.names[i].Number? ==> m.names[i].id < U32
    ensures Resolve(GuidStream(m.extraGuids), EncodeAll(m.entries), m.stringStream, FIRST_NAMED_ID + i) == Some(OnFile(m.names[i]))
  {
    hide TablesOk, ExtraOk, Known, Early, GuidIndex, EncodeAll, GuidStream, GuidAt, Scalars, EncodeUtf16, Peek;
    var name, e := m.names[i], m.entries[i];
    assert EntryOk(m.crc, m.extraGuids, m.stringStream, e, name, i);
    GuidReads(m.extraGuids, name.guid);
    if name.Text? { StringOffset(m.stringStream, e.numeric); }
    EntryReads(m.entries, i);
  }

  lemma StringOffset(stream: Buf, off: nat)
    requires StringAt(stream, off).Some? && |stream| < U32
    ensures off < U32
  {
  }

  // ------------------------------------------------------ the property context

  const TAG_BUCKET_COUNT: nat := 0x0001_0003
  const TAG_GUIDS: nat := 0x0002_0102
  const TAG_ENTRIES: nat := 0x0003_0102
  const TAG_STRINGS: nat := 0x0004_0102

  function BucketTag(i: nat): nat { (0x1000 + i) * 65536 + 0x0102 }

  /** The puts for the buckets before the n-th; an empty one is left out. */
  function BucketPuts(entries: seq<Entry>, n: nat): seq<Value> {
    if n == 0 then []
    else
      BucketPuts(entries, n - 1)
      + if Bucket(entries, n - 1) == [] then [] else [Value(BucketTag(n - 1), Bytes(EncodeAll(Bucket(entries, n - 1))))]
  }

  function MapPuts(extra: seq<Guid>, entries: seq<Entry>, strings: Buf): seq<Value> {
    [Value(TAG_BUCKET_COUNT, Inline(BUCKET_COUNT)), Value(TAG_GUIDS, Bytes(GuidStream(extra))),
     Value(TAG_ENTRIES, Bytes(EncodeAll(entries))), Value(TAG_STRINGS, Bytes(strings))]
    + BucketPuts(entries, BUCKET_COUNT)
  }

  lemma {:induction false} BucketsApart(before: seq<Value>, entries: seq<Entry>, n: nat, id: nat)
    requires id < 0x1000
    ensures LastWrite(before + BucketPuts(entries, n), id) == LastWrite(before, id)
  {
    hide Bucket, EncodeAll, BucketTag, TagId;
    if n == 0 {
      assert before + [] == before;
    } else {
      var front, b := BucketPuts(entries, n - 1), Bucket(entries, n - 1);
      BucketsApart(before, entries, n - 1, id);
      if b == [] {
        assert front + [] == front;
      } else {
        BucketId(n - 1);
        OtherId(before, front, Value(BucketTag(n - 1), Bytes(EncodeAll(b))), id);
      }
    }
  }

  lemma OtherId(a: seq<Value>, b: seq<Value>, v: Value, id: nat)
    requires TagId(v.tag) != id
    ensures LastWrite(a + (b + [v]), id) == LastWrite(a + b, id)
  {
    hide LastWrite, TagId;
    LastWriteSnoc(a + b, v, id);
    assert a + (b + [v]) == (a + b) + [v];
  }

  lemma BucketId(i: nat)
    ensures TagId(BucketTag(i)) == 0x1000 + i && (i < BUCKET_COUNT ==> BucketTag(i) < U32)
  {
    ModUnique(BucketTag(i), 65536, 0x1000 + i, 0x0102);
  }

  /** The streams are the properties 2, 3 and 4. */
  lemma StreamPuts(extra: seq<Guid>, entries: seq<Entry>, strings: Buf)
    ensures LastWrite(MapPuts(extra, entries, strings), 2) == Some(Value(TAG_GUIDS, Bytes(GuidStream(extra))))
    ensures LastWrite(MapPuts(extra, entries, strings), 3) == Some(Value(TAG_ENTRIES, Bytes(EncodeAll(entries))))
    ensures LastWrite(MapPuts(extra, entries, strings), 4) == Some(Value(TAG_STRINGS, Bytes(strings)))
  {
    hide GuidStream, EncodeAll, BucketPuts, LastWrite;
    var a, b, c, d := Value(TAG_BUCKET_COUNT, Inline(BUCKET_COUNT)), Value(TAG_GUIDS, Bytes(GuidStream(extra))),
                      Value(TAG_ENTRIES, Bytes(EncodeAll(entries))), Value(TAG_STRINGS, Bytes(strings));
    forall id: nat | 2 <= id <= 4
      ensures LastWrite(MapPuts(extra, entries, strings), id) == if id == 4 then Some(d) else if id == 3 then Some(c) else Some(b)
    {
      BucketsApart([a, b, c, d], entries, BUCKET_COUNT, id);
      LastWriteSnoc([a, b, c], d, id);
      LastWriteSnoc([a, b], c, id);
      LastWriteSnoc([a], b, id);
      assert [a, b, c] + [d] == [a, b, c, d] && [a, b] + [c] == [a, b, c] && [a] + [b] == [a, b];
    }
  }

  lemma {:induction false} BucketsTyped(entries: seq<Entry>, n: nat)
    requires n <= BUCKET_COUNT
    ensures forall k :: 0 <= k < |BucketPuts(entries, n)| ==> BucketPuts(entries, n)[k].tag < U32 && BucketPuts(entries, n)[k].kind.Bytes?
  {
    hide Bucket, EncodeAll, BucketTag;
    if n > 0 {
      BucketsTyped(entries, n - 1);
      BucketId(n - 1);
    }
  }

  lemma EncodeSnoc(entries: seq<Entry>, e: Entry)
    ensures EncodeAll(entries + [e]) == EncodeAll(entries) + EncodeEntry(e)
  {
    assert (entries + [e])[..|entries|] == entries;
  }

  lemma NoEntries()
    ensures EncodeAll([]) == [] && forall b: nat :: Bucket([], b) == []
  {
  }

  lemma BucketNext(entries: seq<Entry>, e: Entry, b: nat)
    ensures EncodeAll(Bucket(entries + [e], b)) == EncodeAll(Bucket(entries, b)) + if b == BucketOf(e) then EncodeEntry(e) else []
  {
    hide EncodeEntry, EncodeAll, BucketOf;
    BucketSnoc(entries, e, b);
    if b == BucketOf(e) {
      EncodeSnoc(Bucket(entries, b), e);
    } else {
      assert Bucket(entries, b) + [] == Bucket(entries, b);
    }
  }

  /** One pass over the entries fills the entry stream and the buckets together. */
  method FillStreams(entries: seq<Entry>) returns (stream: Buf, buckets: seq<Buf>)
    ensures stream == EncodeAll(entries) && |buckets| == BUCKET_COUNT
    ensures forall b :: 0 <= b < BUCKET_COUNT ==> buckets[b] == EncodeAll(Bucket(entries, b))
  {
    hide EncodeEntry, EncodeAll, Bucket, BucketOf;
    NoEntries();
    stream := [];
    buckets := seq(BUCKET_COUNT, _ => []);
    for i := 0 to |entries|
      invariant stream == EncodeAll(entries[..i]) && |buckets| == BUCKET_COUNT
      invariant forall b :: 0 <= b < BUCKET_COUNT ==> buckets[b] == EncodeAll(Bucket(entries[..i], b))
    {
      var e := entries[i];
      var enc, at := EncodeEntry(e), BucketOf(e);
      EncodeSnoc(entries[..i], e);
      assert entries[..i] + [e] == entries[..i + 1];
      forall b | 0 <= b < BUCKET_COUNT
        ensures EncodeAll(Bucket(entries[..i + 1], b)) == if b == at then buckets[b] + enc else buckets[b]
      {
        BucketNext(entries[..i], e, b);
      }
      stream := stream + enc;
      buckets := buckets[at := buckets[at] + enc];
    }
    assert entries[..|entries|] == entries;
  }

  method JoinGuids(extra: seq<Guid>) returns (stream: Buf)
    ensures stream == GuidStream(extra)
  {
    stream := [];
    for i := 0 to |extra|
      invariant stream == GuidStream(extra[..i])
    {
      assert extra[..i + 1][..i] == extra[..i];
      stream := stream + extra[i];
    }
    assert extra[..|extra|] == extra;
  }

  /** The property context that stores the map. */
  method BuildPropertyContext(m: NameIdMap) returns (pc: PropertyContext)
    requires m.Valid()
    ensures fresh(pc) && pc.Valid() && pc.history == MapPuts(m.extraGuids, m.entries, m.stringStream)
  {
    hide m.Valid, EncodeAll, GuidStream, Bucket, BucketOf;
    var guids := JoinGuids(m.extraGuids);
    var stream, buckets := FillStreams(m.entries);
    pc := new PropertyContext();
    pc.SetInt32(TAG_BUCKET_COUNT, BUCKET_COUNT);
    pc.SetBinary(TAG_GUIDS, guids);
    pc.SetBinary(TAG_ENTRIES, stream);
    pc.SetBinary(TAG_STRINGS, m.stringStream);
    ghost var head := pc.history;
    for i := 0 to BUCKET_COUNT
      invariant fresh(pc) && pc.Valid() && pc.history == head + BucketPuts(m.entries, i)
    {
      if |buckets[i]| == 0 {
        assert Bucket(m.entries, i) == [];
        continue;
      }
      pc.SetBinary(BucketTag(i), buckets[i]);
    }
  }
}
