/** Headers from the file alone: the streams of the name map and the contexts of the messages,
    both read from the finished file, lead from every header's name to its values. */
module HeaderArchive {
  import opened Bytes
  import opened NodeId
  import opened Wrappers
  import opened Utf
  import opened DataTree
  import opened SubnodeTree
  import opened PageTree
  import opened NdbFile
  import opened PropertyContext
  import opened NameIdMap
  import opened HeaderProperties
  import opened TableRefinement
  import opened ContextArchive
  import opened MessageArchive
  import opened PstStore
  import opened PstWriter
  import Files = PstWriter
  import NameIdStreams

  const NAME_MAP: nat := 0x61

  // ---------------------------------------------------------------- drafts

  /** A message before its headers have ids: the properties put ahead of them, the headers
      without a slot of their own, recipients, and attachments. */
  datatype Draft = Draft(puts: seq<Value>, headers: seq<Header>, recipients: seq<seq<Setting>>, attachments: seq<DraftAttachment>)

  datatype DraftAttachment = DraftAttachment(puts: seq<Value>, listing: seq<Setting>, payload: DraftPayload)

  datatype DraftPayload = Content(data: Buf) | Inner(draft: Draft, size: nat)

  /** The message without its headers. */
  function Bare(d: Draft): (m: Message)
    ensures |m.attachments| == |d.attachments| && m.puts == d.puts && m.recipients == d.recipients
    decreases d
  {
    Message(d.puts, d.recipients, seq(|d.attachments|, i requires 0 <= i < |d.attachments| => BareAttachment(d.attachments[i])))
  }

  function BareAttachment(a: DraftAttachment): Attachment
    decreases a
  {
    Attachment(a.puts, a.listing, match a.payload case Content(data) => Blob(data) case Inner(d, size) => Embedded(Bare(d), size))
  }

  /** The id that the name of a header has, and what the context says under it. */
  ghost predicate HeaderPut(extra: seq<Guid>, names: seq<Name>, headers: seq<Header>, puts: seq<Value>, key: Buf, id: nat) {
    && Merged(headers, key).Some? && Spelling(headers, key).Some?
    && id > 0 && NameIdStreams.Answered(extra, names, Text(PS_INTERNET_HEADERS, Spelling(headers, key).value), id)
    && LastWrite(puts, id) == Some(Value(HeaderTag(id), Kind.Bytes(EncodeUtf16(Scalars(Merged(headers, key).value)))))
  }

  /** Until the name map is full every header is carried. */
  ghost predicate Carried(extra: seq<Guid>, names: seq<Name>, headers: seq<Header>, puts: seq<Value>) {
    |names| < MAX_NAMES ==> forall key: Buf :: Merged(headers, key).Some? ==> exists id: nat :: HeaderPut(extra, names, headers, puts, key, id)
  }

  /** The message is the draft with its headers, down to the last one embedded. */
  ghost predicate Made(extra: seq<Guid>, names: seq<Name>, d: Draft, m: Message)
    decreases d
  {
    && Carried(extra, names, d.headers, m.puts)
    && (forall id: nat :: id < FIRST_NAMED_ID ==> LastWrite(m.puts, id) == LastWrite(d.puts, id))
    && m.recipients == d.recipients && |m.attachments| == |d.attachments|
    && forall i :: 0 <= i < |d.attachments| ==> MadeAttachment(extra, names, d.attachments[i], m.attachments[i])
  }

  ghost predicate MadeAttachment(extra: seq<Guid>, names: seq<Name>, a: DraftAttachment, b: Attachment)
    decreases a
  {
    && b.puts == a.puts && b.listing == a.listing
    && match a.payload
       case Content(data) => b.payload == Blob(data)
       case Inner(d, size) => b.payload.Embedded? && b.payload.size == size && Made(extra, names, d, b.payload.message)
  }

  // ------------------------------------------------------- names are added

  lemma CarriedLater(extra: seq<Guid>, a: seq<Name>, b: seq<Name>, headers: seq<Header>, puts: seq<Value>)
    requires a <= b && |b| <= MAX_NAMES && NameIdStreams.AllKnown(extra, a) && Carried(extra, a, headers, puts)
    ensures Carried(extra, b, headers, puts)
  {
    hide Merged, Spelling, LastWrite, NameIdStreams.Answered, NameIdStreams.AllKnown, HeaderTag;
    if |b| < MAX_NAMES {
      forall key: Buf | Merged(headers, key).Some? ensures exists id: nat :: HeaderPut(extra, b, headers, puts, key, id) {
        var id: nat :| HeaderPut(extra, a, headers, puts, key, id);
        NameIdStreams.AnsweredLater(extra, extra, a, b, Text(PS_INTERNET_HEADERS, Spelling(headers, key).value), id);
        assert HeaderPut(extra, b, headers, puts, key, id);
      }
    }
  }

  lemma {:induction false} MadeLater(extra: seq<Guid>, a: seq<Name>, b: seq<Name>, d: Draft, m: Message)
    requires a <= b && |b| <= MAX_NAMES && NameIdStreams.AllKnown(extra, a) && Made(extra, a, d, m)
    ensures Made(extra, b, d, m)
    decreases d
  {
    hide Carried, LastWrite, NameIdStreams.AllKnown;
    CarriedLater(extra, a, b, d.headers, m.puts);
    forall i | 0 <= i < |d.attachments| ensures MadeAttachment(extra, b, d.attachments[i], m.attachments[i]) {
      MadeAttachmentLater(extra, a, b, d.attachments[i], m.attachments[i]);
    }
  }

  lemma {:induction false} MadeAttachmentLater(extra: seq<Guid>, a: seq<Name>, b: seq<Name>, x: DraftAttachment, y: Attachment)
    requires a <= b && |b| <= MAX_NAMES && NameIdStreams.AllKnown(extra, a) && MadeAttachment(extra, a, x, y)
    ensures MadeAttachment(extra, b, x, y)
    decreases x
  {
    if x.payload.Inner? { MadeLater(extra, a, b, x.payload.draft, y.payload.message); }
  }

  // ---------------------------------------------------------------- making

  /** What applying the headers says about one message. */
  lemma HeadersCarried(extra: seq<Guid>, names: seq<Name>, headers: seq<Header>, before: seq<Value>, keys: seq<Buf>, ids: seq<nat>,
                       texts: seq<Buf>)
    requires |texts| == |ids| <= |keys| && (forall key :: key in keys <==> Merged(headers, key).Some?)
    requires |ids| < |keys| ==> |names| == MAX_NAMES
    requires forall i :: 0 <= i < |ids| ==> FIRST_NAMED_ID <= ids[i] < FIRST_NAMED_ID + MAX_NAMES
    requires forall i :: 0 <= i < |ids| ==>
               && Spelling(headers, keys[i]).Some? && Merged(headers, keys[i]).Some?
               && NameIdStreams.Answered(extra, names, Text(PS_INTERNET_HEADERS, Spelling(headers, keys[i]).value), ids[i])
               && LastWrite(before + HeaderPuts(ids, texts), ids[i])
                  == Some(Value(HeaderTag(ids[i]), Kind.Bytes(EncodeUtf16(Scalars(Merged(headers, keys[i]).value)))))
    ensures Carried(extra, names, headers, before + HeaderPuts(ids, texts))
    ensures forall id: nat :: id < FIRST_NAMED_ID ==> LastWrite(before + HeaderPuts(ids, texts), id) == LastWrite(before, id)
    ensures PutsOk(before) ==> PutsOk(before + HeaderPuts(ids, texts))
  {
    hide Merged, Spelling, LastWrite, NameIdStreams.Answered, HeaderTag, HeaderPuts;
    var puts := before + HeaderPuts(ids, texts);
    forall key: Buf | |names| < MAX_NAMES && Merged(headers, key).Some?
      ensures exists id: nat :: HeaderPut(extra, names, headers, puts, key, id)
    {
      var i :| 0 <= i < |keys| && keys[i] == key;
      assert HeaderPut(extra, names, headers, puts, key, ids[i]);
    }
    forall id: nat | id < FIRST_NAMED_ID ensures LastWrite(puts, id) == LastWrite(before, id) { OthersStay(before, ids, texts, id); }
    HeadersOk(ids, texts);
  }

  lemma {:induction false} OthersStay(before: seq<Value>, ids: seq<nat>, texts: seq<Buf>, id: nat)
    requires |ids| == |texts| && forall i :: 0 <= i < |ids| ==> ids[i] != id
    ensures LastWrite(before + HeaderPuts(ids, texts), id) == LastWrite(before, id)
  {
    hide HeaderTag, TagId;
    if ids == [] {
      assert before + HeaderPuts(ids, texts) == before;
    } else {
      var n := |ids| - 1;
      var puts := HeaderPuts(ids, texts);
      assert puts == HeaderPuts(ids[..n], texts[..n]) + [puts[n]];
      assert before + puts == (before + HeaderPuts(ids[..n], texts[..n])) + [puts[n]];
      LastWriteSnoc(before + HeaderPuts(ids[..n], texts[..n]), puts[n], id);
      TagOfId(ids[n]);
      OthersStay(before, ids[..n], texts[..n], id);
    }
  }

  lemma HeadersOk(ids: seq<nat>, texts: seq<Buf>)
    requires |ids| == |texts| && forall i :: 0 <= i < |ids| ==> ids[i] < FIRST_NAMED_ID + MAX_NAMES
    ensures PutsOk(HeaderPuts(ids, texts))
  {
    hide HeaderTag;
    forall i | 0 <= i < |ids| ensures HeaderTag(ids[i]) < U32 { TagOfId(ids[i]); }
  }

  lemma BareParts(d: Draft)
    requires MessageOk(Bare(d))
    ensures PutsOk(d.puts) && (forall k :: 0 <= k < |d.puts| ==> d.puts[k].tag < U32)
    ensures forall i :: 0 <= i < |d.attachments| ==> AttachmentOk(BareAttachment(d.attachments[i]))
  {
    hide AttachmentOk, BareAttachment;
    forall i | 0 <= i < |d.attachments| ensures AttachmentOk(BareAttachment(d.attachments[i])) {
      assert Bare(d).attachments[i] == BareAttachment(d.attachments[i]);
    }
  }

  lemma DraftIsOk(d: Draft, m: Message)
    requires MessageOk(Bare(d)) && PutsOk(m.puts) && m.recipients == d.recipients && |m.attachments| == |d.attachments|
    requires forall i :: 0 <= i < |m.attachments| ==> AttachmentOk(m.attachments[i])
    ensures MessageOk(m)
  {
    hide AttachmentOk, PutsOk, Typed;
  }

  /** Gives the headers of a draft their ids, then those of the messages embedded in it. */
  method Prepare(names: NameIdMap, d: Draft) returns (m: Message)
    requires names.Valid() && Known(names.extraGuids, PS_INTERNET_HEADERS) && MessageOk(Bare(d))
    modifies names
    ensures names.Valid() && names.extraGuids == old(names.extraGuids) && old(names.names) <= names.names
    ensures MessageOk(m) && Made(names.extraGuids, names.names, d, m)
    decreases d
  {
    hide names.Valid, Merged, Spelling, LastWrite, NameIdStreams.Answered, NameIdStreams.AllKnown, HeaderPuts, HeaderTag, Known, Carried,
         PutsOk, Typed, AttachmentOk, BareAttachment, MadeAttachment, MessageOk;
    BareParts(d);
    var pc := PutAll(d.puts);
    var ids, keys, texts := ApplyHeaders(names, pc, d.headers);
    ghost var extra, first := names.extraGuids, names.names;
    HeadersCarried(extra, first, d.headers, d.puts, keys, ids, texts);
    NameIdStreams.NamesDistinct(names);
    var attachments: seq<Attachment> := [];
    for i := 0 to |d.attachments|
      invariant names.Valid() && names.extraGuids == extra && first <= names.names && |attachments| == i
      invariant forall k :: 0 <= k < i ==> AttachmentOk(attachments[k]) && MadeAttachment(extra, names.names, d.attachments[k], attachments[k])
    {
      ghost var before := names.names;
      NameIdStreams.NamesDistinct(names);
      var a := PrepareAttachment(names, d.attachments[i]);
      NameIdStreams.NameCount(names);
      forall k | 0 <= k < i ensures MadeAttachment(extra, names.names, d.attachments[k], attachments[k]) {
        MadeAttachmentLater(extra, before, names.names, d.attachments[k], attachments[k]);
      }
      attachments := attachments + [a];
    }
    m := Message(d.puts + HeaderPuts(ids, texts), d.recipients, attachments);
    NameIdStreams.NameCount(names);
    CarriedLater(extra, first, names.names, d.headers, m.puts);
    DraftIsOk(d, m);
  }

  method PrepareAttachment(names: NameIdMap, a: DraftAttachment) returns (b: Attachment)
    requires names.Valid() && Known(names.extraGuids, PS_INTERNET_HEADERS) && AttachmentOk(BareAttachment(a))
    modifies names
    ensures names.Valid() && names.extraGuids == old(names.extraGuids) && old(names.names) <= names.names
    ensures AttachmentOk(b) && MadeAttachment(names.extraGuids, names.names, a, b)
    decreases a
  {
    hide names.Valid, Made, Known, PutsOk, Typed, MessageOk, Bare;
    match a.payload
    case Content(data) => b := Attachment(a.puts, a.listing, Blob(data));
    case Inner(d, size) =>
      var m := Prepare(names, d);
      b := Attachment(a.puts, a.listing, Embedded(m, size));
  }

  /** A message for the store, its headers as named properties of the map. */
  method PostMessage(w: PstWriter, names: NameIdMap, folder: nat, d: Draft, row: seq<Setting>, seen: bool)
    returns (r: Result<nat>, ghost m: Message)
    requires w.Valid() && w.ids.nextMessage < MAX_INDEX && MessageOk(Bare(d)) && Typed(row)
    requires names.Valid() && Known(names.extraGuids, PS_INTERNET_HEADERS)
    modifies names, w, w.ndb, w.ids, Objects(w.contents)
    ensures names.Valid() && names.extraGuids == old(names.extraGuids) && old(names.names) <= names.names
    ensures MessageOk(m) && Made(names.extraGuids, names.names, d, m)
    ensures r.Ok? ==> w.Valid() && w.contents == old(w.contents) && w.messages == old(w.messages) + [m]
    ensures r.Ok? ==> r.value == MessageNid(|old(w.messages)|) && w.ids.nodes == old(w.ids.nodes) + [Node(r.value, folder)]
  {
    hide w.Valid, names.Valid, Made, MessageOk, Bare, Typed, Known, w.RowsAfter, IsFolder, MessageFits, Refused, w.RoomForRow;
    Strangers(w.contents, names);
    Strangers(w.contents, w);
    var message := Prepare(names, d);
    m := message;
    r := w.AddMessage(folder, message, row, seen);
  }

  // --------------------------------------------------------- from the file

  function DataOf(p: Option<Property>): Buf { if p.Some? && p.value.content.Data? then p.value.content.data else [] }

  /** What a reader makes of a named property's id: the streams are properties of node 0x61. */
  ghost function ResolveOnFile(s: Sums, file: Buf, id: nat): Option<Name> {
    NameIdStreams.Resolve(DataOf(ReadFileProperty(s, file, NAME_MAP, 2)), DataOf(ReadFileProperty(s, file, NAME_MAP, 3)),
                          DataOf(ReadFileProperty(s, file, NAME_MAP, 4)), id)
  }

  /** Some id resolves to the header's name, and the context says `text` under it. */
  ghost predicate HeaderOnFile(s: Sums, file: Buf, data: nat, sub: nat, key: Buf, text: Buf) {
    exists id: nat, spelled: Buf ::
      && Fold(spelled) == key && ResolveOnFile(s, file, id) == Some(Text(PS_INTERNET_HEADERS, EncodeUtf16(Scalars(spelled))))
      && ReadTree(StoreOf(s, file), data).Some?
      && ReadProperty(ReadTree(StoreOf(s, file), data).value, TreeSubs(StoreOf(s, file), sub), id)
         == Some(Property(0x001F, Data(EncodeUtf16(Scalars(text)))))
  }

  /** All headers of a draft, and those of the messages embedded in it. */
  ghost predicate DraftOnFile(s: Sums, file: Buf, data: nat, sub: nat, d: Draft)
    decreases d
  {
    && (forall key: Buf :: Merged(d.headers, key).Some? ==> HeaderOnFile(s, file, data, sub, key, Merged(d.headers, key).value))
    && forall i :: 0 <= i < |d.attachments| ==>
         && FindSub(StoreOf(s, file), sub, AttachmentNid(i)).Some?
         && PayloadOnFile(s, file, FindSub(StoreOf(s, file), sub, AttachmentNid(i)).value.sub, d.attachments[i].payload)
  }

  ghost predicate PayloadOnFile(s: Sums, file: Buf, sub: nat, p: DraftPayload)
    decreases p
  {
    match p
    case Content(_) => true
    case Inner(d, _) =>
      && FindSub(StoreOf(s, file), sub, EmbeddedNid()).Some?
      && var e := FindSub(StoreOf(s, file), sub, EmbeddedNid()).value; DraftOnFile(s, file, e.data, e.sub, d)
  }

  /** Every name of the map is what its id resolves to. */
  ghost predicate NamesOnFile(s: Sums, file: Buf, names: seq<Name>) {
    forall i :: 0 <= i < |names| && names[i].Text? ==> ResolveOnFile(s, file, FIRST_NAMED_ID + i) == Some(NameIdStreams.OnFile(names[i]))
  }

  lemma {:induction false} SpellingFolds(headers: seq<Header>, key: Buf)
    ensures Spelling(headers, key).Some? ==> Fold(Spelling(headers, key).value) == key
  {
    if headers != [] { SpellingFolds(headers[..|headers| - 1], key); }
  }

  /** One header of one message. */
  lemma HeaderReads(s: Sums, file: Buf, data: nat, sub: nat, extra: seq<Guid>, names: seq<Name>, headers: seq<Header>, puts: seq<Value>,
                    key: Buf)
    requires ContextStored(StoreOf(s, file), data, sub, puts) && NamesOnFile(s, file, names) && |extra| <= MAX_EXTRA
    requires Carried(extra, names, headers, puts) && |names| < MAX_NAMES && Merged(headers, key).Some?
    requires NameIdStreams.AllKnown(extra, names)
    ensures HeaderOnFile(s, file, data, sub, key, Merged(headers, key).value)
  {
    hide StoreOf, ReadTree, ReadProperty, TreeSubs, ResolveOnFile, LastWrite, Fold, Scalars, EncodeUtf16, Merged, Spelling, Alike, HeaderTag, TagType,
         Resolved, FindSub, ParseSub;
    var id: nat :| HeaderPut(extra, names, headers, puts, key, id);
    var want := Text(PS_INTERNET_HEADERS, Spelling(headers, key).value);
    var name := names[id - FIRST_NAMED_ID];
    AlikeIff(extra, name, want);
    SpellingFolds(headers, key);
    TagOfId(id);
    assert Reads(ReadTree(StoreOf(s, file), data).value, TreeSubs(StoreOf(s, file), sub), LastWrite(puts, id), id);
    assert Fold(name.text) == key && name.guid == PS_INTERNET_HEADERS;
  }

  /** Everything a draft's headers say is in the file. */
  lemma {:induction false} DraftReads(s: Sums, file: Buf, data: nat, sub: nat, extra: seq<Guid>, names: seq<Name>, d: Draft, m: Message,
                                      c: Schema)
    requires MessageStored(StoreOf(s, file), data, sub, m, c) && Made(extra, names, d, m)
    requires NamesOnFile(s, file, names) && |extra| <= MAX_EXTRA && |names| < MAX_NAMES && NameIdStreams.AllKnown(extra, names)
    ensures DraftOnFile(s, file, data, sub, d)
    decreases d
  {
    hide StoreOf, ContextStored, Carried, NamesOnFile, NameIdStreams.AllKnown, HeaderOnFile, Merged, FindSub, TableAt, LastWrite,
         AttachmentStored, MadeAttachment, PayloadOnFile;
    forall key: Buf | Merged(d.headers, key).Some? ensures HeaderOnFile(s, file, data, sub, key, Merged(d.headers, key).value) {
      HeaderReads(s, file, data, sub, extra, names, d.headers, m.puts, key);
    }
    forall i | 0 <= i < |d.attachments|
      ensures FindSub(StoreOf(s, file), sub, AttachmentNid(i)).Some?
      ensures PayloadOnFile(s, file, FindSub(StoreOf(s, file), sub, AttachmentNid(i)).value.sub, d.attachments[i].payload)
    {
      var e := FindSub(StoreOf(s, file), sub, AttachmentNid(i)).value;
      PayloadReads(s, file, e.data, e.sub, extra, names, d.attachments[i], m.attachments[i], c);
    }
  }

  lemma {:induction false} PayloadReads(s: Sums, file: Buf, data: nat, sub: nat, extra: seq<Guid>, names: seq<Name>, a: DraftAttachment,
                                        b: Attachment, c: Schema)
    requires AttachmentStored(StoreOf(s, file), data, sub, b, c) && MadeAttachment(extra, names, a, b)
    requires NamesOnFile(s, file, names) && |extra| <= MAX_EXTRA && |names| < MAX_NAMES && NameIdStreams.AllKnown(extra, names)
    ensures PayloadOnFile(s, file, sub, a.payload)
    decreases a
  {
    hide StoreOf, ContextStored, NamesOnFile, NameIdStreams.AllKnown, FindSub, MessageStored, Made, DraftOnFile;
    match a.payload
    case Content(_) =>
    case Inner(d, _) =>
      var e := FindSub(StoreOf(s, file), sub, EmbeddedNid()).value;
      DraftReads(s, file, e.data, e.sub, extra, names, d, b.payload.message, c);
  }

  // -------------------------------------------------------- the whole store

  /** What the name map puts into its node. */
  function MapFurniture(extra: seq<Guid>, entries: seq<Entry>, strings: Buf): Furniture {
    Properties(NameIdStreams.MapPuts(extra, entries, strings))
  }

  lemma MapFurnitureOk(extra: seq<Guid>, entries: seq<Entry>, strings: Buf)
    ensures FurnitureOk(MapFurniture(extra, entries, strings))
  {
    hide NameIdStreams.GuidStream, NameIdStreams.EncodeAll, NameIdStreams.BucketPuts;
    NameIdStreams.BucketsTyped(entries, BUCKET_COUNT);
  }

  /** The last reserved node is the name map's. */
  lemma MapNode(mail: seq<Node>, folders: seq<Folder>, first: seq<Files.Content>, furniture: seq<Furniture>)
    requires |first| == |mail| + 4 * |folders| && |furniture| == |Reserved()|
    ensures |Reserved()| == 21
    ensures var ids, kinds, k := mail + FolderNodes(folders) + Reserved(), first + ContentsOf(furniture), |mail| + 4 * |folders| + 20;
            |ids| == |kinds| == k + 1 && ids[k] == Node(NAME_MAP, 0) && kinds[k] == ContentOf(furniture[20])
  {
    hide FolderNodes;
    assert Reserved()[20] == Node(NAME_MAP, 0);
  }

  /** The streams of the finished file resolve every id the map gave. */
  lemma NamesRead(s: Sums, file: Buf, mail: seq<Node>, folders: seq<Folder>, nodes: seq<NbtEntry>, order: seq<nat>, first: seq<Files.Content>,
                  furniture: seq<Furniture>, c: Schema, names: NameIdMap)
    requires names.Valid() && |names.stringStream| < U32
    requires |first| == |mail| + 4 * |folders| && |furniture| == |Reserved()| == 21
    requires furniture[20] == MapFurniture(names.extraGuids, names.entries, names.stringStream)
    requires Files.OnFile(s, file, mail + FolderNodes(folders) + Reserved(), nodes, order, first + ContentsOf(furniture), c)
    ensures NamesOnFile(s, file, names.names)
  {
    hide names.Valid, FolderNodes, Reserved, ContentsOf, Files.OnFile, ResolveOnFile, NameIdStreams.OnFile, ReadFileProperty, DataOf,
         NameIdStreams.GuidStream, NameIdStreams.EncodeAll, NameIdStreams.Resolve, MapFurniture;
    MapOnFile(s, file, mail, folders, nodes, order, first, furniture, c, names.extraGuids, names.entries, names.stringStream);
    forall i | 0 <= i < |names.names| && names.names[i].Text?
      ensures ResolveOnFile(s, file, FIRST_NAMED_ID + i) == Some(NameIdStreams.OnFile(names.names[i]))
    {
      NameIdStreams.IdsResolve(names, i);
      StreamsResolve(s, file, names.extraGuids, names.entries, names.stringStream, FIRST_NAMED_ID + i);
    }
  }

  /** The name map's node. */
  lemma MapOnFile(s: Sums, file: Buf, mail: seq<Node>, folders: seq<Folder>, nodes: seq<NbtEntry>, order: seq<nat>, first: seq<Files.Content>,
                  furniture: seq<Furniture>, c: Schema, extra: seq<Guid>, entries: seq<Entry>, strings: Buf)
    requires |first| == |mail| + 4 * |folders| && |furniture| == |Reserved()| == 21 && furniture[20] == MapFurniture(extra, entries, strings)
    requires Files.OnFile(s, file, mail + FolderNodes(folders) + Reserved(), nodes, order, first + ContentsOf(furniture), c)
    ensures DataOf(ReadFileProperty(s, file, NAME_MAP, 2)) == NameIdStreams.GuidStream(extra)
    ensures DataOf(ReadFileProperty(s, file, NAME_MAP, 3)) == NameIdStreams.EncodeAll(entries)
    ensures DataOf(ReadFileProperty(s, file, NAME_MAP, 4)) == strings
  {
    hide StoreOf, ReadNode, FolderNodes, Reserved, ContentsOf, ContextStored, NameIdStreams.MapPuts, Files.OnFile, ReadFileProperty, DataOf,
         NameIdStreams.GuidStream, NameIdStreams.EncodeAll;
    var k := |mail| + 4 * |folders| + 20;
    MapNode(mail, folders, first, furniture);
    NodeReads(s, file, mail + FolderNodes(folders) + Reserved(), nodes, order, first + ContentsOf(furniture), c, k);
    StreamsRead(s, file, nodes[k], extra, entries, strings);
  }

  /** A node of the file and its content. */
  lemma NodeReads(s: Sums, file: Buf, ids: seq<Node>, nodes: seq<NbtEntry>, order: seq<nat>, kinds: seq<Files.Content>, c: Schema, k: nat)
    requires Files.OnFile(s, file, ids, nodes, order, kinds, c) && k < |ids|
    ensures |nodes| == |ids| == |kinds|
    ensures ReadNode(s, file, ids[k].nid) == Some(nodes[k]) && HoldsContent(StoreOf(s, file), nodes[k], kinds[k], c)
  {
    hide StoreOf, ReadNode, HoldsContent;
  }

  /** The three streams as properties of the name map's node. */
  lemma StreamsRead(s: Sums, file: Buf, e: NbtEntry, extra: seq<Guid>, entries: seq<Entry>, strings: Buf)
    requires ReadNode(s, file, NAME_MAP) == Some(e)
    requires ContextStored(StoreOf(s, file), e.data, e.sub, NameIdStreams.MapPuts(extra, entries, strings))
    ensures DataOf(ReadFileProperty(s, file, NAME_MAP, 2)) == NameIdStreams.GuidStream(extra)
    ensures DataOf(ReadFileProperty(s, file, NAME_MAP, 3)) == NameIdStreams.EncodeAll(entries)
    ensures DataOf(ReadFileProperty(s, file, NAME_MAP, 4)) == strings
  {
    hide StoreOf, ReadNode, ReadFileProperty, ContextStored, NameIdStreams.MapPuts, NameIdStreams.GuidStream, NameIdStreams.EncodeAll, LastWrite;
    var puts := NameIdStreams.MapPuts(extra, entries, strings);
    MapFurnitureOk(extra, entries, strings);
    NameIdStreams.StreamPuts(extra, entries, strings);
    ContextReads(s, file, NAME_MAP, e, puts, 2);
    ContextReads(s, file, NAME_MAP, e, puts, 3);
    ContextReads(s, file, NAME_MAP, e, puts, 4);
  }

  lemma StreamsResolve(s: Sums, file: Buf, extra: seq<Guid>, entries: seq<Entry>, strings: Buf, id: nat)
    requires DataOf(ReadFileProperty(s, file, NAME_MAP, 2)) == NameIdStreams.GuidStream(extra)
    requires DataOf(ReadFileProperty(s, file, NAME_MAP, 3)) == NameIdStreams.EncodeAll(entries)
    requires DataOf(ReadFileProperty(s, file, NAME_MAP, 4)) == strings
    ensures ResolveOnFile(s, file, id) == NameIdStreams.Resolve(NameIdStreams.GuidStream(extra), NameIdStreams.EncodeAll(entries), strings, id)
  {
    hide ReadFileProperty, NameIdStreams.Resolve, NameIdStreams.GuidStream, NameIdStreams.EncodeAll;
  }

  /** Every header of every message, embedded ones among them, is found from the file alone:
      under the id that the streams give its name, with all its values. */
  lemma HeadersRead(s: Sums, file: Buf, mail: seq<Node>, folders: seq<Folder>, nodes: seq<NbtEntry>, order: seq<nat>, messages: seq<Message>,
                    more: seq<Files.Content>, furniture: seq<Furniture>, c: Schema, names: NameIdMap, k: nat, d: Draft)
    requires names.Valid() && |names.stringStream| < U32 && |names.extraGuids| <= MAX_EXTRA && |names.names| < MAX_NAMES
    requires |messages| == |mail| && |more| == 4 * |folders| && |furniture| == |Reserved()| == 21
    requires furniture[20] == MapFurniture(names.extraGuids, names.entries, names.stringStream)
    requires Files.OnFile(s, file, mail + FolderNodes(folders) + Reserved(), nodes, order, Mails(messages) + more + ContentsOf(furniture), c)
    requires k < |messages| && MessageOk(messages[k]) && Made(names.extraGuids, names.names, d, messages[k])
    ensures ReadNode(s, file, mail[k].nid).Some?
    ensures var e := ReadNode(s, file, mail[k].nid).value; DraftOnFile(s, file, e.data, e.sub, d)
  {
    hide names.Valid, StoreOf, ReadNode, FolderNodes, Reserved, ContentsOf, Made, MessageStored, NamesOnFile, DraftOnFile, MapFurniture,
         AttachmentOk, NameIdStreams.AllKnown, Files.OnFile, PutsOk, Typed;
    NamesRead(s, file, mail, folders, nodes, order, Mails(messages) + more, furniture, c, names);
    NameIdStreams.NamesDistinct(names);
    var ids, kinds := mail + FolderNodes(folders) + Reserved(), Mails(messages) + more + ContentsOf(furniture);
    assert mail <= ids && Mails(messages) <= kinds;
    MessageReads(s, file, mail, ids, nodes, order, messages, kinds, c, k, 0);
    var e := ReadNode(s, file, mail[k].nid).value;
    DraftReads(s, file, e.data, e.sub, names.extraGuids, names.names, d, messages[k], c);
  }
}
