/** Messages: a property context whose subnodes are a recipient table, the attachments and
    an attachment table. An attachment can hold a message of its own, to any depth. */
module MessageArchive {
  import opened Bytes
  import opened NodeId
  import opened Wrappers
  import opened Sorting
  import opened HeapFormat
  import opened DataTree
  import opened SubnodeTree
  import opened SubnodeAllocator
  import opened PropertyContext
  import opened TableContextWriter
  import opened TableRefinement
  import opened ContextArchive
  import opened TableArchive
  import opened Ownership
  import opened RowLayout
  import opened Ndb
  import Bth

  const RECIPIENT_TABLE: nat := 0x692
  const ATTACHMENT_TABLE: nat := 0x671

  /** One property id, typed as bytes or as an object. */
  const PR_ATTACH_DATA_BIN: nat := 0x3701_0102
  const PR_ATTACH_DATA_OBJ: nat := 0x3701_000D

  /** A message: its properties in the order they are set, a row of settings for each
      recipient, and its attachments. */
  datatype Message = Message(puts: seq<Value>, recipients: seq<seq<Setting>>, attachments: seq<Attachment>)

  /** An attachment: its properties, its row in the attachment table, its content. */
  datatype Attachment = Attachment(puts: seq<Value>, listing: seq<Setting>, payload: Payload)
  datatype Payload = Blob(data: Buf) | Embedded(message: Message, size: nat)

  /** The columns of the two tables. */
  datatype Schema = Schema(recipients: seq<nat>, attachments: seq<nat>)

  predicate SchemaOk(c: Schema) { ColumnsOk(c.recipients) && ColumnsOk(c.attachments) }

  /** The n-th attachment is the subnode of index n + 1, an embedded message that of index 1. */
  function AttachmentNid(i: nat): nat { MakeNid(T_ATTACHMENT, i + 1) }
  function EmbeddedNid(): nat { MakeNid(T_MESSAGE, 1) }

  predicate PutsOk(puts: seq<Value>) {
    forall k :: 0 <= k < |puts| ==> puts[k].tag < U32 && !puts[k].kind.Spilled?
  }

  /** Settings that fit the types of their columns, and fewer rows than there are ids. */
  predicate MessageOk(m: Message)
    decreases m
  {
    && PutsOk(m.puts) && (forall i :: 0 <= i < |m.recipients| ==> Typed(m.recipients[i]))
    && |m.recipients| * MAX_COLUMNS + 2 <= MAX_INDEX && |m.attachments| * MAX_COLUMNS + 2 <= MAX_INDEX
    && forall i :: 0 <= i < |m.attachments| ==> AttachmentOk(m.attachments[i])
  }

  predicate AttachmentOk(a: Attachment)
    decreases a
  {
    && PutsOk(a.puts) && Typed(a.listing)
    && (a.payload.Embedded? ==> a.payload.size < U32 && MessageOk(a.payload.message))
  }

  /** Row ids start at one. */
  function RecipientScript(m: Message): (s: seq<RowScript>) {
    seq(|m.recipients|, i requires 0 <= i < |m.recipients| => RowScript(i + 1, m.recipients[i], m.recipients[i]))
  }

  /** An attachment's row has its subnode id. */
  function AttachmentScript(m: Message): (s: seq<RowScript>) {
    seq(|m.attachments|, i requires 0 <= i < |m.attachments| =>
      RowScript(AttachmentNid(i), m.attachments[i].listing, m.attachments[i].listing))
  }

  function PayloadPut(p: Payload, nid: nat): Value {
    match p
    case Blob(_) => Value(PR_ATTACH_DATA_BIN, Spilled(nid))
    case Embedded(_, size) => Value(PR_ATTACH_DATA_OBJ, Bytes(Put32(EmbeddedNid()) + Put32(size)))
  }

  // ------------------------------------------------------ what can be stored

  /** A message whose properties and tables fit their nodes, down to the last one embedded. */
  ghost predicate MessageFits(m: Message, c: Schema)
    decreases m
  {
    && ContextFits(m.puts) && TableFits(c.recipients, RecipientScript(m)) && TableFits(c.attachments, AttachmentScript(m))
    && forall i :: 0 <= i < |m.attachments| ==> AttachmentFits(m.attachments[i], c)
  }

  ghost predicate AttachmentFits(a: Attachment, c: Schema)
    decreases a
  {
    ContextFits(a.puts + [PayloadPut(a.payload, 0)]) && PayloadFits(a.payload, c)
  }

  ghost predicate PayloadFits(p: Payload, c: Schema)
    decreases p
  {
    match p
    case Blob(data) => |data| < U32
    case Embedded(m, _) => MessageFits(m, c)
  }

  /** The last put counts by its id, as long as it is small. */
  lemma FitsAlike(puts: seq<Value>, v: Value, w: Value)
    requires v.tag == w.tag && !Huge(v) && !Huge(w)
    ensures ContextFits(puts + [v]) <==> ContextFits(puts + [w])
  {
    hide LastWrite, Huge, TagId;
    forall id: nat
      ensures LastWrite(puts + [v], id).Some? <==> LastWrite(puts + [w], id).Some?
      ensures LastWrite(puts + [v], id) == LastWrite(puts + [w], id)
              || (LastWrite(puts + [v], id) == Some(v) && LastWrite(puts + [w], id) == Some(w))
    {
      LastWriteSnoc(puts, v, id);
      LastWriteSnoc(puts, w, id);
    }
    forall id: nat ensures id in IdSet(puts + [v]) <==> id in IdSet(puts + [w]) {
      IdsWritten(puts + [v], id);
      IdsWritten(puts + [w], id);
    }
    assert IdSet(puts + [v]) == IdSet(puts + [w]);
  }

  lemma PayloadAlike(a: Attachment, nid: nat)
    ensures ContextFits(a.puts + [PayloadPut(a.payload, nid)]) <==> ContextFits(a.puts + [PayloadPut(a.payload, 0)])
  {
    hide ContextFits, Put32;
    FitsAlike(a.puts, PayloadPut(a.payload, nid), PayloadPut(a.payload, 0));
  }

  lemma FitsParts(m: Message, c: Schema)
    requires MessageFits(m, c)
    ensures ContextFits(m.puts) && TableFits(c.recipients, RecipientScript(m)) && TableFits(c.attachments, AttachmentScript(m))
    ensures forall i :: 0 <= i < |m.attachments| ==> AttachmentFits(m.attachments[i], c)
    ensures |m.attachments| <= MAX_BLOCKS
  {
    hide ContextFits, AttachmentFits, Declared, Refused, Bth.MostBlocks;
    AtLeastTwo(c.attachments);
    Bth.Scale(1, |Declared(c.attachments)|, |m.attachments|);
  }

  // -------------------------------------------------- what the blocks hold

  ghost predicate TableAt(blocks: Store, e: Option<SubEntry>, columns: seq<nat>, script: seq<RowScript>) {
    e.Some? && TableOnFile(blocks, e.value.data, e.value.sub, Declared(columns), RowsOf(Declared(columns), script))
  }

  /** Data tree `data` and subnode tree `sub` hold the message: its properties, its tables,
      its attachments and, in them, the messages embedded. */
  ghost predicate MessageStored(blocks: Store, data: nat, sub: nat, m: Message, c: Schema)
    decreases m
  {
    && ContextStored(blocks, data, sub, m.puts)
    && TableAt(blocks, FindSub(blocks, sub, RECIPIENT_TABLE), c.recipients, RecipientScript(m))
    && TableAt(blocks, FindSub(blocks, sub, ATTACHMENT_TABLE), c.attachments, AttachmentScript(m))
    && forall i :: 0 <= i < |m.attachments| ==>
         && FindSub(blocks, sub, AttachmentNid(i)).Some?
         && var e := FindSub(blocks, sub, AttachmentNid(i)).value; AttachmentStored(blocks, e.data, e.sub, m.attachments[i], c)
  }

  ghost predicate AttachmentStored(blocks: Store, data: nat, sub: nat, a: Attachment, c: Schema)
    decreases a
  {
    match a.payload
    case Blob(bytes) =>
      exists nid: nat :: SpilledAt(blocks, sub, nid, bytes) && ContextStored(blocks, data, sub, a.puts + [PayloadPut(a.payload, nid)])
    case Embedded(m, size) =>
      && ContextStored(blocks, data, sub, a.puts + [PayloadPut(a.payload, 0)])
      && FindSub(blocks, sub, EmbeddedNid()).Some?
      && var e := FindSub(blocks, sub, EmbeddedNid()).value; MessageStored(blocks, e.data, e.sub, m, c)
  }

  ghost predicate SpilledAt(blocks: Store, sub: nat, nid: nat, bytes: Buf) {
    !IsHid(nid) && nid < U32 && TreeSubs(blocks, sub)(nid) == Some(bytes)
  }

  // ------------------------------------------------------- blocks are added

  lemma FoundGrow(a: Store, b: Store, sub: nat, nid: nat)
    requires Extends(a, b) && (sub != 0 ==> ParseSub(a, sub).Some?)
    ensures FindSub(b, sub, nid) == FindSub(a, sub, nid)
  {
    hide ParseSub, FindSub;
    if sub == 0 {
      RootZero(a);
      RootZero(b);
    } else {
      FindSubGrow(a, b, sub, nid);
    }
  }

  lemma ContextParts(blocks: Store, data: nat, sub: nat, history: seq<Value>)
    requires ContextStored(blocks, data, sub, history)
    ensures sub != 0 ==> ParseSub(blocks, sub).Some?
  {
  }

  lemma TableAtGrow(a: Store, b: Store, e: Option<SubEntry>, columns: seq<nat>, script: seq<RowScript>)
    requires Extends(a, b) && TableAt(a, e, columns, script)
    ensures TableAt(b, e, columns, script)
  {
    hide TableOnFile;
    TableOnFileGrow(a, b, e.value.data, e.value.sub, Declared(columns), RowsOf(Declared(columns), script));
  }

  lemma SpilledGrow(a: Store, b: Store, sub: nat, nid: nat, bytes: Buf)
    requires Extends(a, b) && (sub != 0 ==> ParseSub(a, sub).Some?) && SpilledAt(a, sub, nid, bytes)
    ensures SpilledAt(b, sub, nid, bytes)
  {
    hide ParseSub, FindSub, ReadTree;
    FoundGrow(a, b, sub, nid);
    ReadTreeGrow(a, b, FindSub(a, sub, nid).value.data);
  }

  lemma {:induction false} MessageStoredGrow(a: Store, b: Store, data: nat, sub: nat, m: Message, c: Schema)
    requires Extends(a, b) && MessageStored(a, data, sub, m, c)
    ensures MessageStored(b, data, sub, m, c)
    decreases m
  {
    hide ContextStored, TableAt, FindSub, ParseSub, RecipientScript, AttachmentScript;
    ContextParts(a, data, sub, m.puts);
    StoredGrow(a, b, data, sub, m.puts);
    FoundGrow(a, b, sub, RECIPIENT_TABLE);
    FoundGrow(a, b, sub, ATTACHMENT_TABLE);
    TableAtGrow(a, b, FindSub(a, sub, RECIPIENT_TABLE), c.recipients, RecipientScript(m));
    TableAtGrow(a, b, FindSub(a, sub, ATTACHMENT_TABLE), c.attachments, AttachmentScript(m));
    forall i | 0 <= i < |m.attachments|
      ensures FindSub(b, sub, AttachmentNid(i)).Some?
      ensures var e := FindSub(b, sub, AttachmentNid(i)).value; AttachmentStored(b, e.data, e.sub, m.attachments[i], c)
    {
      FoundGrow(a, b, sub, AttachmentNid(i));
      var e := FindSub(a, sub, AttachmentNid(i)).value;
      AttachmentStoredGrow(a, b, e.data, e.sub, m.attachments[i], c);
    }
  }

  lemma {:induction false} AttachmentStoredGrow(a: Store, b: Store, data: nat, sub: nat, att: Attachment, c: Schema)
    requires Extends(a, b) && AttachmentStored(a, data, sub, att, c)
    ensures AttachmentStored(b, data, sub, att, c)
    decreases att
  {
    hide ContextStored, FindSub, ParseSub, SpilledAt;
    match att.payload
    case Blob(bytes) =>
      var nid: nat :| SpilledAt(a, sub, nid, bytes) && ContextStored(a, data, sub, att.puts + [PayloadPut(att.payload, nid)]);
      ContextParts(a, data, sub, att.puts + [PayloadPut(att.payload, nid)]);
      StoredGrow(a, b, data, sub, att.puts + [PayloadPut(att.payload, nid)]);
      SpilledGrow(a, b, sub, nid, bytes);
    case Embedded(m, size) =>
      ContextParts(a, data, sub, att.puts + [PayloadPut(att.payload, 0)]);
      StoredGrow(a, b, data, sub, att.puts + [PayloadPut(att.payload, 0)]);
      FoundGrow(a, b, sub, EmbeddedNid());
      var e := FindSub(a, sub, EmbeddedNid()).value;
      MessageStoredGrow(a, b, e.data, e.sub, m, c);
  }

  // ----------------------------------------------------- the entry list

  /** The recipient table and the first `n` attachments, as entries. */
  ghost predicate Laid(blocks: Store, entries: seq<SubEntry>, m: Message, c: Schema, n: nat) {
    && n <= |m.attachments| && |entries| == n + 1
    && entries[0].nid == RECIPIENT_TABLE && TableAt(blocks, Some(entries[0]), c.recipients, RecipientScript(m))
    && forall i :: 0 <= i < n ==>
         entries[i + 1].nid == AttachmentNid(i) && AttachmentStored(blocks, entries[i + 1].data, entries[i + 1].sub, m.attachments[i], c)
  }

  lemma LaidGrow(a: Store, b: Store, entries: seq<SubEntry>, m: Message, c: Schema, n: nat)
    requires Extends(a, b) && Laid(a, entries, m, c, n)
    ensures Laid(b, entries, m, c, n)
  {
    hide AttachmentStored, TableAt, RecipientScript;
    TableAtGrow(a, b, Some(entries[0]), c.recipients, RecipientScript(m));
    forall i | 0 <= i < n ensures AttachmentStored(b, entries[i + 1].data, entries[i + 1].sub, m.attachments[i], c) {
      AttachmentStoredGrow(a, b, entries[i + 1].data, entries[i + 1].sub, m.attachments[i], c);
    }
  }

  lemma LaidFirst(blocks: Store, e: SubEntry, m: Message, c: Schema)
    requires e.nid == RECIPIENT_TABLE && TableAt(blocks, Some(e), c.recipients, RecipientScript(m))
    ensures Laid(blocks, [e], m, c, 0)
  {
    hide TableAt, RecipientScript;
  }

  lemma LaidNext(blocks: Store, entries: seq<SubEntry>, m: Message, c: Schema, n: nat, e: SubEntry)
    requires Laid(blocks, entries, m, c, n) && n < |m.attachments| && e.nid == AttachmentNid(n)
    requires AttachmentStored(blocks, e.data, e.sub, m.attachments[n], c)
    ensures Laid(blocks, entries + [e], m, c, n + 1)
  {
    hide AttachmentStored, TableAt, RecipientScript;
  }

  /** Ids not used yet: that of the next attachment, and that of the attachment table. */
  lemma IdsLeft(blocks: Store, entries: seq<SubEntry>, m: Message, c: Schema, n: nat)
    requires Laid(blocks, entries, m, c, n) && n + 1 < MAX_INDEX
    ensures FindEntry(entries, AttachmentNid(n)).None? && FindEntry(entries, ATTACHMENT_TABLE).None?
    ensures AttachmentNid(n) < U32 && NidType(AttachmentNid(n)) == T_ATTACHMENT
  {
    hide TableAt, AttachmentStored, NidType, NidIndex, RecipientScript;
    NidParts(T_ATTACHMENT, n + 1);
    FindEntryMember(entries, AttachmentNid(n));
    FindEntryMember(entries, ATTACHMENT_TABLE);
    TableTypes();
    forall e | e in entries ensures e.nid != AttachmentNid(n) && e.nid != ATTACHMENT_TABLE {
      var i :| 0 <= i < |entries| && entries[i] == e;
      if i > 0 {
        assert entries[(i - 1) + 1].nid == AttachmentNid(i - 1);
        NidParts(T_ATTACHMENT, i);
      }
    }
  }

  lemma TableTypes()
    ensures NidType(RECIPIENT_TABLE) == 0x12 && NidType(ATTACHMENT_TABLE) == 0x11 && RECIPIENT_TABLE != ATTACHMENT_TABLE
    ensures EmbeddedNid() < U32 && NidType(EmbeddedNid()) == T_MESSAGE
  {
    NidParts(T_MESSAGE, 1);
  }

  /** All of a message's parts, as entries. */
  ghost predicate AllLaid(blocks: Store, entries: seq<SubEntry>, m: Message, c: Schema) {
    var n := |m.attachments|;
    && |entries| == n + 2 && Laid(blocks, entries[..n + 1], m, c, n)
    && entries[n + 1].nid == ATTACHMENT_TABLE && TableAt(blocks, Some(entries[n + 1]), c.attachments, AttachmentScript(m))
  }

  lemma AllLaidGrow(a: Store, b: Store, entries: seq<SubEntry>, m: Message, c: Schema)
    requires Extends(a, b) && AllLaid(a, entries, m, c)
    ensures AllLaid(b, entries, m, c)
  {
    hide Laid, TableAt, AttachmentScript;
    var n := |m.attachments|;
    LaidGrow(a, b, entries[..n + 1], m, c, n);
    TableAtGrow(a, b, Some(entries[n + 1]), c.attachments, AttachmentScript(m));
  }

  /** A message's stream and entries before they are written. */
  ghost predicate Assembled(blocks: Store, entries: seq<SubEntry>, stream: Buf, m: Message, c: Schema) {
    && (forall id: nat :: Reads(stream, Subs(blocks, entries), LastWrite(m.puts, id), id))
    && |entries| >= |m.attachments| + 2 && AllLaid(blocks, entries[..|m.attachments| + 2], m, c)
  }

  lemma {:induction false} EntryFound(entries: seq<SubEntry>, i: nat)
    requires DistinctKeys(entries, NidKey()) && i < |entries|
    ensures FindEntry(entries, entries[i].nid) == Some(entries[i])
  {
    if i > 0 {
      assert NidKey()(entries[0]) != NidKey()(entries[i]);
      forall a, b | 0 <= a < b < |entries[1..]| ensures NidKey()(entries[1..][a]) != NidKey()(entries[1..][b]) {
        assert NidKey()(entries[a + 1]) != NidKey()(entries[b + 1]);
      }
      EntryFound(entries[1..], i - 1);
    }
  }

  lemma UnspilledResolved(puts: seq<Value>, f: nat -> Option<Buf>)
    requires PutsOk(puts)
    ensures Resolved(puts, f)
  {
  }

  lemma AssembledStored(a: Store, b: Store, data: nat, sub: nat, entries: seq<SubEntry>, next: nat, stream: Buf, m: Message, c: Schema)
    requires Extends(a, b) && Assembled(a, entries, stream, m, c) && Numbered(a, entries, next) && PutsOk(m.puts)
    requires ReadTree(b, data) == Some(stream) && SubnodesRead(b, sub, entries)
    ensures MessageStored(b, data, sub, m, c)
  {
    hide Reads, ReadTree, FindSub, ParseSub, TableAt, RecipientScript, AttachmentScript, AttachmentStored, Subs, ContextStored, Resolved;
    var n := |m.attachments|;
    UnspilledResolved(m.puts, Subs(a, entries));
    StoredByTree(a, b, stream, data, sub, entries, m.puts);
    AllLaidGrow(a, b, entries[..n + 2], m, c);
    assert entries[..n + 2][..n + 1] == entries[..n + 1];
    forall i | 0 <= i < |entries| ensures FindSub(b, sub, entries[i].nid) == Some(entries[i]) { EntryFound(entries, i); }
    assert FindSub(b, sub, entries[0].nid) == Some(entries[0]) && FindSub(b, sub, entries[n + 1].nid) == Some(entries[n + 1]);
    forall i | 0 <= i < n
      ensures FindSub(b, sub, AttachmentNid(i)).Some?
      ensures var e := FindSub(b, sub, AttachmentNid(i)).value; AttachmentStored(b, e.data, e.sub, m.attachments[i], c)
    {
      assert entries[..n + 1][i + 1] == entries[i + 1];
    }
  }

  // -------------------------------------------------------------- building

  /** A part written and entered: the entries lead to it as well. */
  lemma PartHeld(b: Store, o: seq<nat>, d: Store, p: seq<nat>, entries: seq<SubEntry>, e: SubEntry)
    requires Passes(Holding(b, o, multiset{}), Holding(d, p, NodeRefs(e.data, e.sub))) && e.data != 0
    ensures Passes(Holding(b, o, EntriesRefs(entries)), Holding(d, p, EntriesRefs(entries + [e])))
  {
    hide Passes, EntriesRefs;
    PassesBeside(Holding(b, o, multiset{}), Holding(d, p, NodeRefs(e.data, e.sub)), EntriesRefs(entries));
    EntriesRefsConcat(entries, [e]);
    OneEntryRefs(e);
    var none: multiset<nat> := multiset{};
    assert EntriesRefs(entries) + none == EntriesRefs(entries);
  }

  /** What enters a part into the subnodes. */
  method Enter(w: NdbWriter, subs: SubnodeAllocator, nid: nat, parts: (nat, nat), ghost before: Store, ghost order: seq<nat>)
    requires w.Valid() && subs.ndb == w
    modifies subs
    ensures subs.entries == old(subs.entries) + [SubEntry(nid, parts.0, parts.1)] && subs.nextIndex == old(subs.nextIndex)
    ensures Extends(before, w.blocks) && Numbered(before, old(subs.entries), subs.nextIndex) && FindEntry(old(subs.entries), nid).None?
            && nid < U32 && NidType(nid) != NID_TYPE_LTP && parts.0 in w.blocks && (parts.1 != 0 ==> parts.1 in w.blocks)
            ==> subs.Good() && FindEntry(subs.entries, nid) == Some(SubEntry(nid, parts.0, parts.1))
    ensures parts.0 != 0 && Passes(Holding(before, order, multiset{}), Holding(w.blocks, BidsOf(w.bbt), NodeRefs(parts.0, parts.1)))
            ==> Passes(Holding(before, order, EntriesRefs(old(subs.entries))), subs.Held())
  {
    hide w.Valid, Numbered, FindEntry, Passes, EntriesRefs, NodeRefs, BidsOf;
    if Extends(before, w.blocks) && Numbered(before, subs.entries, subs.nextIndex) {
      NumberedGrow(before, w.blocks, subs.entries, subs.nextIndex);
    }
    if parts.0 != 0 && Passes(Holding(before, order, multiset{}), Holding(w.blocks, BidsOf(w.bbt), NodeRefs(parts.0, parts.1))) {
      PartHeld(before, order, w.blocks, BidsOf(w.bbt), subs.entries, SubEntry(nid, parts.0, parts.1));
    }
    subs.Add(nid, parts.0, parts.1);
  }

  lemma ScriptsFit(m: Message, c: Schema)
    requires SchemaOk(c) && MessageOk(m)
    ensures Scripted(Declared(c.recipients), RecipientScript(m)) && Numerable(c.recipients, RecipientScript(m))
    ensures Scripted(Declared(c.attachments), AttachmentScript(m)) && Numerable(c.attachments, AttachmentScript(m))
    ensures |m.attachments| + 1 < MAX_INDEX
  {
    hide Typed, LastSetting, Declared, NidIndex, NidType;
    Scaled(|m.recipients|, |c.recipients| + 2);
    Scaled(|m.attachments|, |c.attachments| + 2);
    forall i | 0 <= i < |m.attachments|
      ensures AttachmentNid(i) < U32 && NidIndex(AttachmentNid(i)) == i + 1 && Typed(m.attachments[i].listing)
    {
      assert AttachmentOk(m.attachments[i]);
      NidParts(T_ATTACHMENT, i + 1);
    }
  }

  lemma Scaled(n: nat, w: nat)
    requires n * MAX_COLUMNS + 2 <= MAX_INDEX && w <= MAX_COLUMNS
    ensures n * w + 2 <= MAX_INDEX && n + 1 < MAX_INDEX
  {
    Bth.Scale(w, MAX_COLUMNS, n);
    assert n * w == w * n;
  }

  /** An attachment's content, ahead of its properties: the bytes in a subnode, or the
      message in one. */
  ghost predicate Placed(blocks: Store, entries: seq<SubEntry>, p: Payload, nid: nat, c: Schema) {
    match p
    case Blob(bytes) => !IsHid(nid) && nid < U32 && SubData(blocks, entries, nid) == Some(bytes)
    case Embedded(m, size) =>
      |entries| == 1 && entries[0].nid == nid == EmbeddedNid() && MessageStored(blocks, entries[0].data, entries[0].sub, m, c)
  }

  lemma PlacedStored(a: Store, b: Store, d: Store, data: nat, sub: nat, first: seq<SubEntry>, entries: seq<SubEntry>, next: nat, stream: Buf,
                     att: Attachment, nid: nat, c: Schema)
    requires Extends(a, b) && Extends(b, d) && first <= entries && Numbered(b, entries, next) && PutsOk(att.puts)
    requires Placed(a, first, att.payload, nid, c) && ReadTree(d, data) == Some(stream) && SubnodesRead(d, sub, entries)
    requires forall id: nat :: Reads(stream, Subs(b, entries), LastWrite(att.puts + [PayloadPut(att.payload, nid)], id), id)
    ensures AttachmentStored(d, data, sub, att, c)
  {
    hide Reads, ReadTree, FindSub, ParseSub, ContextStored, MessageStored, LastWrite;
    var history := att.puts + [PayloadPut(att.payload, nid)];
    if att.payload.Blob? {
      SubDataGrow(a, b, first, entries, nid);
      SubDataGrow(b, d, entries, entries, nid);
      SameSub(d, sub, entries, nid);
      assert SpilledAt(d, sub, nid, att.payload.data);
    } else {
      EntryFound(entries, 0);
      MessageStoredGrow(a, d, entries[0].data, entries[0].sub, att.payload.message, c);
    }
    StoredByTree(b, d, stream, data, sub, entries, history);
  }

  /** A table, written and entered. */
  method EnterTable(w: NdbWriter, subs: SubnodeAllocator, nid: nat, columns: seq<nat>, script: seq<RowScript>) returns (r: Result<()>)
    requires w.Valid() && subs.ndb == w && ColumnsOk(columns) && Scripted(Declared(columns), script)
    requires Numerable(columns, script)
    modifies w, subs
    ensures w.Valid() && w.Grown() && w.nbt == old(w.nbt) && subs.nextIndex == old(subs.nextIndex)
    ensures r.Ok? ==> |subs.entries| == |old(subs.entries)| + 1 && subs.entries[..|old(subs.entries)|] == old(subs.entries)
                      && subs.entries[|old(subs.entries)|].nid == nid
    ensures r.Err? ==> !TableFits(columns, script)
    ensures r.Ok? && w.Fits64() ==> TableAt(w.blocks, Some(subs.entries[|old(subs.entries)|]), columns, script)
    ensures r.Ok? && w.Fits64() && old(subs.Good()) && FindEntry(old(subs.entries), nid).None? && nid < U32 && NidType(nid) != NID_TYPE_LTP
            ==> subs.Good()
    ensures r.Ok? && w.Fits64() ==> Passes(old(subs.Held()), subs.Held())
  {
    hide w.Valid, Numbered, FindEntry, Passes, EntriesRefs, NodeRefs, BidsOf, TableOnFile, Scripted, Declared, RowsOf, TableFits;
    ghost var before, order := w.blocks, BidsOf(w.bbt);
    Bth.Scale(1, |columns| + 2, |script|);
    var parts := StoreTable(w, columns, script);
    if parts.Err? {
      return Err(parts.reason);
    }
    Enter(w, subs, nid, parts.value, before, order);
    return Ok(());
  }

  /** The recipient table, the attachments, the attachment table. */
  method EnterParts(w: NdbWriter, subs: SubnodeAllocator, m: Message, c: Schema) returns (r: Result<()>)
    requires w.Valid() && subs.ndb == w && subs.entries == [] && subs.nextIndex == 1 && SchemaOk(c) && MessageOk(m)
    modifies w, subs
    ensures w.Valid() && w.Grown() && w.nbt == old(w.nbt) && subs.nextIndex == 1
    ensures r.Ok? ==> |subs.entries| == |m.attachments| + 2
    ensures r.Err? ==> !MessageFits(m, c)
    ensures r.Ok? && w.Fits64() ==> subs.Good() && AllLaid(w.blocks, subs.entries, m, c)
    ensures r.Ok? && w.Fits64() ==> Passes(old(subs.Held()), subs.Held())
    decreases m, 2
  {
    hide w.Valid, Numbered, FindEntry, Passes, BidsOf, Scripted, Declared, RowsOf, Laid, subs.Held, TableAt, AttachmentOk, RecipientScript,
         AttachmentScript, MessageFits, AttachmentFits, TableFits;
    MessageParts(m);
    if MessageFits(m, c) { FitsParts(m, c); }
    ScriptsFit(m, c);
    TableTypes();
    FreshIds(w.blocks);
    r := EnterTable(w, subs, RECIPIENT_TABLE, c.recipients, RecipientScript(m));
    if r.Err? {
      return;
    }
    if w.Fits64() {
      assert subs.entries == [subs.entries[0]];
      LaidFirst(w.blocks, subs.entries[0], m, c);
    }
    ghost var first := subs.Held();
    r := EnterAttachments(w, subs, m, c);
    if r.Err? {
      return;
    }
    if w.Fits64() { PassesThen(old(subs.Held()), first, subs.Held()); }
    ghost var blocks, entries, held := w.blocks, subs.entries, subs.Held();
    if w.Fits64() { IdsLeft(blocks, entries, m, c, |m.attachments|); }
    r := EnterTable(w, subs, ATTACHMENT_TABLE, c.attachments, AttachmentScript(m));
    if r.Ok? && w.Fits64() {
      LaidGrow(blocks, w.blocks, entries, m, c, |m.attachments|);
      PassesThen(old(subs.Held()), held, subs.Held());
    }
  }

  /** All attachments, behind the recipient table. */
  method EnterAttachments(w: NdbWriter, subs: SubnodeAllocator, m: Message, c: Schema) returns (r: Result<()>)
    requires w.Valid() && subs.ndb == w && subs.nextIndex == 1 && |subs.entries| == 1 && SchemaOk(c) && |m.attachments| + 1 < MAX_INDEX
    requires forall i :: 0 <= i < |m.attachments| ==> AttachmentOk(m.attachments[i])
    modifies w, subs
    ensures w.Valid() && w.Grown() && w.nbt == old(w.nbt) && subs.nextIndex == 1
    ensures r.Ok? ==> |subs.entries| == |m.attachments| + 1
    ensures r.Err? ==> exists i :: 0 <= i < |m.attachments| && !AttachmentFits(m.attachments[i], c)
    ensures r.Ok? && w.Fits64() && old(subs.Good()) && Laid(old(w.blocks), old(subs.entries), m, c, 0)
            ==> subs.Good() && Laid(w.blocks, subs.entries, m, c, |m.attachments|)
    ensures r.Ok? && w.Fits64() ==> Passes(old(subs.Held()), subs.Held())
    decreases m, 1
  {
    hide w.Valid, Numbered, Passes, BidsOf, Laid, subs.Held, AttachmentOk, AttachmentFits;
    subs.HeldPasses();
    r := Ok(());
    for i := 0 to |m.attachments|
      invariant w.Valid() && w.Grown() && w.nbt == old(w.nbt) && subs.nextIndex == 1 && |subs.entries| == i + 1 && r.Ok?
      invariant w.Fits64() && old(subs.Good()) && Laid(old(w.blocks), old(subs.entries), m, c, 0)
                ==> subs.Good() && Laid(w.blocks, subs.entries, m, c, i)
      invariant w.Fits64() ==> Passes(old(subs.Held()), subs.Held())
    {
      ghost var held := subs.Held();
      r := EnterAttachment(w, subs, m, c, i);
      if r.Err? {
        return;
      }
      if w.Fits64() { PassesThen(old(subs.Held()), held, subs.Held()); }
    }
  }

  /** The heap of a message; its tables and attachments are entered in `subs`. */
  method BuildMessage(w: NdbWriter, subs: SubnodeAllocator, m: Message, c: Schema) returns (r: Result<Buf>)
    requires w.Valid() && subs.ndb == w && subs.entries == [] && subs.nextIndex == 1 && SchemaOk(c) && MessageOk(m)
    modifies w, subs
    ensures w.Valid() && w.Grown() && w.nbt == old(w.nbt)
    ensures r.Ok? ==> |r.value| < U32 && |subs.entries| <= |m.attachments| + 2 + U16
    ensures r.Err? ==> !MessageFits(m, c)
    ensures r.Ok? && w.Fits64() ==> subs.Good() && Assembled(w.blocks, subs.entries, r.value, m, c)
    ensures r.Ok? && w.Fits64() ==> Passes(old(subs.Held()), subs.Held())
    decreases m, 3
  {
    hide w.Valid, Numbered, Passes, BidsOf, Reads, subs.Held, AttachmentOk, LastWrite, Assembled, PutsOk, AllLaid, Subs, MessageFits,
         ContextFits, TableFits, AttachmentFits;
    MessageParts(m);
    if MessageFits(m, c) { FitsParts(m, c); }
    var pc := PutAll(m.puts);
    var parts := EnterParts(w, subs, m, c);
    if parts.Err? {
      return Err(parts.reason);
    }
    ghost var blocks, entries, held := w.blocks, subs.entries, subs.Held();
    r := pc.Serialize(subs);
    if r.Ok? && w.Fits64() {
      PassesThen(old(subs.Held()), held, subs.Held());
      AllLaidGrow(blocks, w.blocks, entries, m, c);
      assert subs.entries[..|m.attachments| + 2] == entries;
      IsAssembled(w.blocks, subs.entries, r.value, m, c);
    }
  }

  lemma MessageParts(m: Message)
    requires MessageOk(m)
    ensures PutsOk(m.puts) && (forall k :: 0 <= k < |m.puts| ==> m.puts[k].tag < U32)
    ensures forall i :: 0 <= i < |m.attachments| ==> AttachmentOk(m.attachments[i])
  {
  }

  lemma FreshIds(blocks: Store)
    ensures Numbered(blocks, [], 1) && forall nid :: FindEntry([], nid) == None
  {
  }

  lemma IsAssembled(blocks: Store, entries: seq<SubEntry>, stream: Buf, m: Message, c: Schema)
    requires |entries| >= |m.attachments| + 2 && AllLaid(blocks, entries[..|m.attachments| + 2], m, c)
    requires forall id: nat :: Reads(stream, Subs(blocks, entries), LastWrite(m.puts, id), id)
    ensures Assembled(blocks, entries, stream, m, c)
  {
    hide Reads, AllLaid, LastWrite, Subs;
  }

  /** One attachment, written and entered. */
  method EnterAttachment(w: NdbWriter, subs: SubnodeAllocator, m: Message, c: Schema, i: nat) returns (r: Result<()>)
    requires w.Valid() && subs.ndb == w && SchemaOk(c) && i < |m.attachments| && i + 1 < MAX_INDEX && AttachmentOk(m.attachments[i])
    modifies w, subs
    ensures w.Valid() && w.Grown() && w.nbt == old(w.nbt) && subs.nextIndex == old(subs.nextIndex)
    ensures r.Ok? ==> |subs.entries| == |old(subs.entries)| + 1
    ensures r.Err? ==> !AttachmentFits(m.attachments[i], c)
    ensures r.Ok? && w.Fits64() && old(subs.Good()) && Laid(old(w.blocks), old(subs.entries), m, c, i)
            ==> subs.Good() && Laid(w.blocks, subs.entries, m, c, i + 1)
    ensures r.Ok? && w.Fits64() ==> Passes(old(subs.Held()), subs.Held())
    decreases m, 0
  {
    hide w.Valid, Numbered, FindEntry, Passes, BidsOf, Laid, NodeRefs, EntriesRefs, AttachmentOk, AttachmentStored, AttachmentFits;
    ghost var before, order := w.blocks, BidsOf(w.bbt);
    var parts := BuildAttachment(w, m.attachments[i], c);
    if parts.Err? {
      return Err(parts.reason);
    }
    ghost var entries := subs.entries;
    Enter(w, subs, AttachmentNid(i), parts.value, before, order);
    if w.Fits64() && old(subs.Good()) && Laid(before, entries, m, c, i) {
      IdsLeft(before, entries, m, c, i);
      LaidGrow(before, w.blocks, entries, m, c, i);
      LaidNext(w.blocks, entries, m, c, i, SubEntry(AttachmentNid(i), parts.value.0, parts.value.1));
    }
    return Ok(());
  }

  /** An attachment: its content first, then its properties. */
  method BuildAttachment(w: NdbWriter, a: Attachment, c: Schema) returns (r: Result<(nat, nat)>)
    requires w.Valid() && SchemaOk(c) && AttachmentOk(a)
    modifies w
    ensures w.Valid() && w.Grown() && w.nbt == old(w.nbt)
    ensures r.Ok? ==> r.value.0 in w.blocks && (r.value.1 != 0 ==> r.value.1 in w.blocks)
    ensures r.Err? ==> !AttachmentFits(a, c)
    ensures r.Ok? && w.Fits64() ==> r.value.0 != 0 && AttachmentStored(w.blocks, r.value.0, r.value.1, a, c)
    ensures r.Ok? && w.Fits64()
            ==> Passes(Holding(old(w.blocks), old(BidsOf(w.bbt)), multiset{}), Holding(w.blocks, BidsOf(w.bbt), NodeRefs(r.value.0, r.value.1)))
    decreases a, 1
  {
    hide w.Valid, Numbered, Passes, BidsOf, NodeRefs, AttachmentStored, Placed, Reads, ReadTree, SubnodesRead, LastWrite, PutsOk,
         ContextFits, PayloadFits, SubnodeAllocator.Held, Subs, PayloadPut;
    var subs := new SubnodeAllocator(w);
    NothingHeld(subs);
    ghost var first := subs.Held();
    PutsTagged(a.puts);
    var pc := PutAll(a.puts);
    var nid := PlacePayload(w, subs, a.payload, c);
    if nid.Err? {
      return Err(nid.reason);
    }
    SetPayload(pc, a.payload, nid.value);
    PayloadAlike(a, nid.value);
    ghost var blocks, entries, held := w.blocks, subs.entries, subs.Held();
    var stream := pc.Serialize(subs);
    if stream.Err? {
      return Err(stream.reason);
    }
    ghost var mid, midHeld := w.blocks, subs.Held();
    r := StoreParts(w, subs, stream.value);
    if r.Ok? && w.Fits64() {
      PassesThen(first, held, midHeld);
      PassesThen(first, midHeld, Holding(w.blocks, BidsOf(w.bbt), NodeRefs(r.value.0, r.value.1)));
      PlacedStored(blocks, mid, w.blocks, r.value.0, r.value.1, entries, subs.entries, subs.nextIndex, stream.value, a, nid.value, c);
    }
  }

  /** The property that leads to an attachment's content. */
  method SetPayload(pc: PropertyContext, p: Payload, nid: nat)
    requires pc.Valid() && (p.Embedded? ==> p.size < U32)
    modifies pc
    ensures pc.Valid() && pc.history == old(pc.history) + [PayloadPut(p, nid)]
  {
    hide pc.Valid;
    TableTypes();
    match p
    case Blob(_) => pc.SetSpilledValue(PR_ATTACH_DATA_BIN, nid);
    case Embedded(_, size) => pc.SetObject(PR_ATTACH_DATA_OBJ, EmbeddedNid(), size);
  }

  lemma PutsTagged(puts: seq<Value>)
    requires PutsOk(puts)
    ensures forall k :: 0 <= k < |puts| ==> puts[k].tag < U32
  {
  }

  /** The content: bytes go to a fresh subnode, a message is built in one of its own. */
  method PlacePayload(w: NdbWriter, subs: SubnodeAllocator, p: Payload, c: Schema) returns (r: Result<nat>)
    requires w.Valid() && subs.ndb == w && SchemaOk(c) && subs.entries == [] && subs.nextIndex == 1
    requires p.Embedded? ==> p.size < U32 && MessageOk(p.message)
    modifies w, subs
    ensures w.Valid() && w.Grown() && w.nbt == old(w.nbt) && subs.nextIndex <= 2
    ensures r.Ok? ==> |subs.entries| == 1
    ensures r.Err? ==> !PayloadFits(p, c)
    ensures r.Ok? && w.Fits64() ==> subs.Good() && Placed(w.blocks, subs.entries, p, r.value, c)
    ensures r.Ok? && w.Fits64() ==> Passes(old(subs.Held()), subs.Held())
    decreases p, 1
  {
    hide w.Valid, Numbered, Passes, BidsOf, NodeRefs, EntriesRefs, Reads, ReadTree, SubnodesRead, SubData, Assembled, MessageOk, MessageStored,
         MessageFits;
    FreshIds(w.blocks);
    match p
    case Blob(data) =>
      var nid := subs.Spill(data);
      if nid.Err? {
        return Err(nid.reason);
      }
      SpilledId(1);
      return nid;
    case Embedded(m, size) =>
      ghost var before, order := w.blocks, BidsOf(w.bbt);
      var parts := WriteMessage(w, m, c);
      if parts.Err? {
        return Err(parts.reason);
      }
      TableTypes();
      Enter(w, subs, EmbeddedNid(), parts.value, before, order);
      return Ok(EmbeddedNid());
  }

  /** A message with everything below it, written. A reader of the two blocks finds its
      properties, its tables, its attachments and the messages in them; the two own every
      block written for it. Fails only for a message that does not fit. */
  method WriteMessage(w: NdbWriter, m: Message, c: Schema) returns (r: Result<(nat, nat)>)
    requires w.Valid() && SchemaOk(c) && MessageOk(m)
    modifies w
    ensures w.Valid() && w.Grown() && w.nbt == old(w.nbt)
    ensures r.Ok? ==> r.value.0 in w.blocks && (r.value.1 != 0 ==> r.value.1 in w.blocks)
    ensures r.Err? ==> !MessageFits(m, c)
    ensures r.Ok? && w.Fits64() ==> 0 < r.value.0 < U64 && r.value.1 < U64 && MessageStored(w.blocks, r.value.0, r.value.1, m, c)
    ensures r.Ok? && w.Fits64()
            ==> Passes(Holding(old(w.blocks), old(BidsOf(w.bbt)), multiset{}), Holding(w.blocks, BidsOf(w.bbt), NodeRefs(r.value.0, r.value.1)))
    decreases m, 4
  {
    hide w.Valid, Numbered, Passes, BidsOf, NodeRefs, Assembled, MessageStored, ReadTree, SubnodesRead, PutsOk, AttachmentOk, MessageFits,
         ContextFits, TableFits, AttachmentFits;
    MessageParts(m);
    if MessageFits(m, c) { FitsParts(m, c); }
    var subs := new SubnodeAllocator(w);
    NothingHeld(subs);
    ghost var first := subs.Held();
    var stream := BuildMessage(w, subs, m, c);
    if stream.Err? {
      return Err(stream.reason);
    }
    ghost var mid, held := w.blocks, subs.Held();
    r := StoreParts(w, subs, stream.value);
    if r.Ok? && w.Fits64() {
      PassesThen(first, held, Holding(w.blocks, BidsOf(w.bbt), NodeRefs(r.value.0, r.value.1)));
      AssembledStored(mid, w.blocks, r.value.0, r.value.1, subs.entries, subs.nextIndex, stream.value, m, c);
    }
  }
}
