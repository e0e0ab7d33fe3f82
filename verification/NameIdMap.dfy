/** The name-to-id map ([MS-PST] section 2.4.7): names are given property ids from 0x8000
    up, and are found again through three streams and a hash table. */
module NameIdMap {
  import opened Bytes
  import opened Wrappers
  import opened Utf

  const FIRST_NAMED_ID: nat := 0x8000
  const MAX_NAMES: nat := 4096
  const BUCKET_COUNT: nat := 251

  type Guid = g: Buf | |g| == 16 witness [0, 0, 0, 0, 0, 0, 0, 0, 0, 0, 0, 0, 0, 0, 0, 0]

  const PS_MAPI: Guid := [0x28, 0x03, 0x02, 0, 0, 0, 0, 0, 0xC0, 0, 0, 0, 0, 0, 0, 0x46]
  const PS_PUBLIC_STRINGS: Guid := [0x29, 0x03, 0x02, 0, 0, 0, 0, 0, 0xC0, 0, 0, 0, 0, 0, 0, 0x46]
  const PS_INTERNET_HEADERS: Guid := [0x86, 0x03, 0x02, 0, 0, 0, 0, 0, 0xC0, 0, 0, 0, 0, 0, 0, 0x46]

  /** The identity behind an id: a name under a GUID, or a number under one. */
  datatype Name = Text(guid: Guid, text: Buf) | Number(guid: Guid, id: nat)

  function FoldByte(b: byte): byte {
    if 'A' as int <= b <= 'Z' as int then b - 'A' as int + 'a' as int else b
  }

  /** ASCII case folding. */
  function Fold(s: Buf): (r: Buf)
    ensures |r| == |s|
  {
    seq(|s|, i requires 0 <= i < |s| => FoldByte(s[i]))
  }

  /** MAPI resolves text names without regard to case. */
  predicate Same(a: Name, b: Name) {
    a.guid == b.guid && ((a.Text? && b.Text? && Fold(a.text) == Fold(b.text)) || (a.Number? && a == b))
  }

  // ------------------------------------------------------------ GUID index

  predicate Known(extra: seq<Guid>, g: Guid) { g == PS_MAPI || g == PS_PUBLIC_STRINGS || g in extra }

  function Position(extra: seq<Guid>, g: Guid): (i: nat)
    ensures i <= |extra| && (g in extra <==> i < |extra|) && (i < |extra| ==> extra[i] == g)
  {
    if extra == [] || extra[0] == g then 0 else Position(extra[1..], g) + 1
  }

  /** wGuid: two predefined ones, then the position in the GUID stream, in 16 bits. */
  function GuidIndex(extra: seq<Guid>, g: Guid): nat {
    if g == PS_MAPI then 1 else if g == PS_PUBLIC_STRINGS then 2 else (3 + Position(extra, g)) % U16
  }

  predicate ExtraOk(extra: seq<Guid>) {
    && (forall i :: 0 <= i < |extra| ==> extra[i] != PS_MAPI && extra[i] != PS_PUBLIC_STRINGS)
    && forall i, j :: 0 <= i < j < |extra| ==> extra[i] != extra[j]
  }

  /** The positions that 16 bits can tell apart from the predefined GUIDs. */
  const MAX_EXTRA: nat := 65534

  lemma {:induction false} PositionAt(extra: seq<Guid>, i: nat)
    requires ExtraOk(extra) && i < |extra|
    ensures Position(extra, extra[i]) == i
  {
    if i > 0 { PositionAt(extra[1..], i - 1); }
  }

  lemma {:induction false} PositionGrow(a: seq<Guid>, b: seq<Guid>, g: Guid)
    requires a <= b && g in a
    ensures Position(b, g) == Position(a, g)
  {
    if a[0] != g { PositionGrow(a[1..], b[1..], g); }
  }

  lemma IndexGrow(a: seq<Guid>, b: seq<Guid>, g: Guid)
    requires a <= b && Known(a, g)
    ensures GuidIndex(b, g) == GuidIndex(a, g) && Known(b, g)
  {
    if g in a { PositionGrow(a, b, g); }
  }

  /** Up to that many GUIDs, the index tells every two known ones apart. */
  lemma IndexInjective(extra: seq<Guid>, g: Guid, h: Guid)
    requires |extra| <= MAX_EXTRA && Known(extra, g) && Known(extra, h) && GuidIndex(extra, g) == GuidIndex(extra, h)
    ensures g == h
  {
    var i, j := Position(extra, g), Position(extra, h);
    Wrapped(i);
    Wrapped(j);
  }

  lemma Wrapped(i: nat)
    ensures i < 65533 ==> (3 + i) % U16 == 3 + i
    ensures i == 65533 ==> (3 + i) % U16 == 0
    ensures i == 65534 ==> (3 + i) % U16 == 1
  {
    if i < 65533 { ModUnique(3 + i, U16, 0, 3 + i); }
    if i == 65533 { ModUnique(3 + i, U16, 1, 0); }
    if i == 65534 { ModUnique(3 + i, U16, 1, 1); }
  }

  /** The next one gets PS_MAPI's index: with more than 65534 GUIDs two names of different
      GUIDs can share an id. */
  lemma IndexCollides(extra: seq<Guid>)
    requires ExtraOk(extra) && |extra| > MAX_EXTRA
    ensures extra[MAX_EXTRA] != PS_MAPI && GuidIndex(extra, extra[MAX_EXTRA]) == GuidIndex(extra, PS_MAPI)
  {
    PositionAt(extra, MAX_EXTRA);
    Wrapped(MAX_EXTRA);
  }

  /** The index before it is cut to 16 bits. */
  function Slot(extra: seq<Guid>, g: Guid): nat {
    if g == PS_MAPI then 1 else if g == PS_PUBLIC_STRINGS then 2 else 3 + Position(extra, g)
  }

  /** The map cannot tell the two apart: the same text or number under one index. */
  predicate Alike(extra: seq<Guid>, a: Name, b: Name) {
    && GuidIndex(extra, a.guid) == GuidIndex(extra, b.guid)
    && ((a.Text? && b.Text? && Fold(a.text) == Fold(b.text)) || (a.Number? && b.Number? && a.id == b.id))
  }

  /** Exactly when names are alike: the same text or number under GUIDs whose slots differ by
      a multiple of 65536. Up to 65534 extra GUIDs that is the same GUID. */
  lemma AlikeIff(extra: seq<Guid>, a: Name, b: Name)
    requires Known(extra, a.guid) && Known(extra, b.guid)
    ensures Alike(extra, a, b) <==>
              && ((a.Text? && b.Text? && Fold(a.text) == Fold(b.text)) || (a.Number? && b.Number? && a.id == b.id))
              && (Slot(extra, a.guid) - Slot(extra, b.guid)) % U16 == 0
    ensures |extra| <= MAX_EXTRA ==> (Alike(extra, a, b) <==> Same(a, b))
  {
    hide Fold, Position;
    SlotIndex(extra, a.guid);
    SlotIndex(extra, b.guid);
    Congruent(Slot(extra, a.guid), Slot(extra, b.guid));
    if |extra| <= MAX_EXTRA && GuidIndex(extra, a.guid) == GuidIndex(extra, b.guid) { IndexInjective(extra, a.guid, b.guid); }
  }

  lemma SlotIndex(extra: seq<Guid>, g: Guid)
    ensures GuidIndex(extra, g) == Slot(extra, g) % U16
  {
  }

  lemma Congruent(a: nat, b: nat)
    ensures a % U16 == b % U16 <==> (a - b) % U16 == 0
  {
  }

  lemma AlikeGrow(a: seq<Guid>, b: seq<Guid>, x: Name, y: Name)
    requires a <= b && Known(a, x.guid) && Known(a, y.guid)
    ensures Alike(b, x, y) <==> Alike(a, x, y)
  {
    hide Fold, GuidIndex, Known;
    IndexGrow(a, b, x.guid);
    IndexGrow(a, b, y.guid);
  }

  // --------------------------------------------------------------- entries

  datatype Entry = Entry(isString: bool, numeric: nat, guidIndex: nat, propIndex: nat, hash: nat)

  /** A length-prefixed string of the string stream. */
  function StringAt(stream: Buf, off: nat): Option<Buf> {
    var len := Peek32At(stream, off);
    if off + 4 + len <= |stream| then Some(stream[off + 4..off + 4 + len]) else None
  }

  /** Entry `i` stands for the name: its stored offset leads to the first-seen spelling. */
  ghost predicate EntryOk(crc: Buf -> nat, extra: seq<Guid>, stream: Buf, e: Entry, name: Name, i: nat) {
    && e.propIndex == i && Known(extra, name.guid) && e.guidIndex == GuidIndex(extra, name.guid)
    && match name
       case Text(_, text) =>
         && e.isString && e.hash == crc(EncodeUtf16(Scalars(text))) % U32
         && (|stream| < U32 ==> e.numeric % 4 == 0 && StringAt(stream, e.numeric) == Some(EncodeUtf16(Scalars(text))))
       case Number(_, id) => !e.isString && e.numeric == id && e.hash == id
  }

  function TextKey(extra: seq<Guid>, name: Name): (nat, Buf)
    requires name.Text?
  {
    (GuidIndex(extra, name.guid), Fold(name.text))
  }

  function NumberKey(extra: seq<Guid>, name: Name): (nat, nat)
    requires name.Number?
  {
    (GuidIndex(extra, name.guid), name.id)
  }

  /** The look-up tables hold exactly the names, each under its id. */
  ghost predicate TablesOk(extra: seq<Guid>, names: seq<Name>, byString: map<(nat, Buf), nat>, byNumeric: map<(nat, nat), nat>) {
    && (forall i :: 0 <= i < |names| ==> Known(extra, names[i].guid))
    && (forall i :: 0 <= i < |names| && names[i].Text? ==>
          TextKey(extra, names[i]) in byString && byString[TextKey(extra, names[i])] == FIRST_NAMED_ID + i)
    && (forall i :: 0 <= i < |names| && names[i].Number? ==>
          NumberKey(extra, names[i]) in byNumeric && byNumeric[NumberKey(extra, names[i])] == FIRST_NAMED_ID + i)
    && (forall k :: k in byString ==> exists i :: 0 <= i < |names| && names[i].Text? && TextKey(extra, names[i]) == k)
    && (forall k :: k in byNumeric ==> exists i :: 0 <= i < |names| && names[i].Number? && NumberKey(extra, names[i]) == k)
  }

  ghost predicate EntriesOk(crc: Buf -> nat, extra: seq<Guid>, stream: Buf, entries: seq<Entry>, names: seq<Name>) {
    |entries| == |names| && forall i :: 0 <= i < |names| ==> EntryOk(crc, extra, stream, entries[i], names[i], i)
  }

  lemma TablesGrow(a: seq<Guid>, b: seq<Guid>, names: seq<Name>, byString: map<(nat, Buf), nat>, byNumeric: map<(nat, nat), nat>)
    requires a <= b && TablesOk(a, names, byString, byNumeric)
    ensures TablesOk(b, names, byString, byNumeric)
  {
    hide GuidIndex, Fold, Known;
    forall i | 0 <= i < |names| ensures Known(b, names[i].guid) && GuidIndex(b, names[i].guid) == GuidIndex(a, names[i].guid) {
      IndexGrow(a, b, names[i].guid);
    }
    forall k | k in byString ensures exists i :: 0 <= i < |names| && names[i].Text? && TextKey(b, names[i]) == k {
      var i :| 0 <= i < |names| && names[i].Text? && TextKey(a, names[i]) == k;
      assert TextKey(b, names[i]) == k;
    }
    forall k | k in byNumeric ensures exists i :: 0 <= i < |names| && names[i].Number? && NumberKey(b, names[i]) == k {
      var i :| 0 <= i < |names| && names[i].Number? && NumberKey(a, names[i]) == k;
      assert NumberKey(b, names[i]) == k;
    }
  }

  lemma EntriesGrow(crc: Buf -> nat, a: seq<Guid>, b: seq<Guid>, s: Buf, t: Buf, entries: seq<Entry>, names: seq<Name>)
    requires a <= b && s <= t && EntriesOk(crc, a, s, entries, names)
    ensures EntriesOk(crc, b, t, entries, names)
  {
    hide GuidIndex, Known, Peek, Scalars, EncodeUtf16;
    forall i | 0 <= i < |names| ensures EntryOk(crc, b, t, entries[i], names[i], i) {
      assert EntryOk(crc, a, s, entries[i], names[i], i);
      IndexGrow(a, b, names[i].guid);
      if names[i].Text? && |t| < U32 { StringKept(s, t, entries[i].numeric); }
    }
  }

  lemma StringKept(s: Buf, t: Buf, off: nat)
    requires s <= t && StringAt(s, off).Some?
    ensures StringAt(t, off) == StringAt(s, off)
  {
    assert t[..|s|] == s;
    assert s[off..off + 4] == t[off..off + 4];
    var len := Peek32At(s, off);
    assert s[off + 4..off + 4 + len] == t[off + 4..off + 4 + len];
  }

  /** What a look-up of text finds: the names it is the same as. */
  lemma TextLookup(extra: seq<Guid>, names: seq<Name>, byString: map<(nat, Buf), nat>, byNumeric: map<(nat, nat), nat>, name: Name)
    requires TablesOk(extra, names, byString, byNumeric) && name.Text?
    ensures var k := TextKey(extra, name);
            (k in byString <==> exists i :: 0 <= i < |names| && Alike(extra, names[i], name))
            && forall i :: 0 <= i < |names| && Alike(extra, names[i], name) ==> k in byString && byString[k] == FIRST_NAMED_ID + i
  {
    hide GuidIndex, Fold, Known;
    var k := TextKey(extra, name);
    if k in byString {
      var i :| 0 <= i < |names| && names[i].Text? && TextKey(extra, names[i]) == k;
      assert Alike(extra, names[i], name);
    }
  }

  lemma NumberLookup(extra: seq<Guid>, names: seq<Name>, byString: map<(nat, Buf), nat>, byNumeric: map<(nat, nat), nat>, name: Name)
    requires TablesOk(extra, names, byString, byNumeric) && name.Number?
    ensures var k := NumberKey(extra, name);
            (k in byNumeric <==> exists i :: 0 <= i < |names| && Alike(extra, names[i], name))
            && forall i :: 0 <= i < |names| && Alike(extra, names[i], name) ==> k in byNumeric && byNumeric[k] == FIRST_NAMED_ID + i
  {
    hide GuidIndex, Fold, Known;
    var k := NumberKey(extra, name);
    if k in byNumeric {
      var i :| 0 <= i < |names| && names[i].Number? && NumberKey(extra, names[i]) == k;
      assert Alike(extra, names[i], name);
    }
  }

  lemma TablesSnocText(extra: seq<Guid>, names: seq<Name>, byString: map<(nat, Buf), nat>, byNumeric: map<(nat, nat), nat>, name: Name)
    requires TablesOk(extra, names, byString, byNumeric) && name.Text? && Known(extra, name.guid)
    requires TextKey(extra, name) !in byString
    ensures TablesOk(extra, names + [name], byString[TextKey(extra, name) := FIRST_NAMED_ID + |names|], byNumeric)
  {
    hide GuidIndex, Fold, Known;
    var now, all := byString[TextKey(extra, name) := FIRST_NAMED_ID + |names|], names + [name];
    forall k | k in now ensures exists i :: 0 <= i < |all| && all[i].Text? && TextKey(extra, all[i]) == k {
      if k == TextKey(extra, name) {
        assert all[|names|] == name;
      } else {
        var i :| 0 <= i < |names| && names[i].Text? && TextKey(extra, names[i]) == k;
        assert all[i] == names[i];
      }
    }
    forall k | k in byNumeric ensures exists i :: 0 <= i < |all| && all[i].Number? && NumberKey(extra, all[i]) == k {
      var i :| 0 <= i < |names| && names[i].Number? && NumberKey(extra, names[i]) == k;
      assert all[i] == names[i];
    }
  }

  lemma TablesSnocNumber(extra: seq<Guid>, names: seq<Name>, byString: map<(nat, Buf), nat>, byNumeric: map<(nat, nat), nat>, name: Name)
    requires TablesOk(extra, names, byString, byNumeric) && name.Number? && Known(extra, name.guid)
    requires NumberKey(extra, name) !in byNumeric
    ensures TablesOk(extra, names + [name], byString, byNumeric[NumberKey(extra, name) := FIRST_NAMED_ID + |names|])
  {
    hide GuidIndex, Fold, Known;
    var now, all := byNumeric[NumberKey(extra, name) := FIRST_NAMED_ID + |names|], names + [name];
    forall k | k in now ensures exists i :: 0 <= i < |all| && all[i].Number? && NumberKey(extra, all[i]) == k {
      if k == NumberKey(extra, name) {
        assert all[|names|] == name;
      } else {
        var i :| 0 <= i < |names| && names[i].Number? && NumberKey(extra, names[i]) == k;
        assert all[i] == names[i];
      }
    }
    forall k | k in byString ensures exists i :: 0 <= i < |all| && all[i].Text? && TextKey(extra, all[i]) == k {
      var i :| 0 <= i < |names| && names[i].Text? && TextKey(extra, names[i]) == k;
      assert all[i] == names[i];
    }
  }

  /** A string appended to the stream: its length, its bytes, padding to four. */
  function Appended(stream: Buf, text: Buf): (r: Buf)
    ensures stream <= r
  {
    var s := stream + Put32(|text|) + text;
    s + Zeros(AlignUp(|s|, 4) - |s|)
  }

  lemma AppendedReads(stream: Buf, text: Buf)
    requires |stream| % 4 == 0
    ensures |Appended(stream, text)| % 4 == 0
    ensures |text| < U32 ==> StringAt(Appended(stream, text), |stream|) == Some(text)
  {
    hide Put32, Peek;
    var s := stream + Put32(|text|) + text;
    var r := Appended(stream, text);
    Multiple4(|s|);
    if |text| < U32 {
      PeekPut32(|text|);
      assert r[|stream|..|stream| + 4] == Put32(|text|);
      assert r[|stream| + 4..|stream| + 4 + |text|] == text;
    }
  }

  lemma Multiple4(n: nat)
    ensures AlignUp(n, 4) % 4 == 0
  {
  }

  // ---------------------------------------------------------------- class

  class NameIdMap {
    const crc: Buf -> nat
    var entries: seq<Entry>
    var extraGuids: seq<Guid>
    var stringStream: Buf
    var byString: map<(nat, Buf), nat>
    var byNumeric: map<(nat, nat), nat>

    /** The names in the order they were minted. */
    ghost var names: seq<Name>

    /** Streams, tables and entries agree on the names. */
    ghost predicate Core()
      reads this
    {
      && |names| <= MAX_NAMES && ExtraOk(extraGuids) && |stringStream| % 4 == 0
      && TablesOk(extraGuids, names, byString, byNumeric)
      && EntriesOk(crc, extraGuids, stringStream, entries, names)
    }

    /** GUIDs come with names, until the map is full: so every name's GUID is an early one. */
    ghost predicate Valid()
      reads this
    {
      Core() && (|names| < MAX_NAMES ==> |extraGuids| <= |names|) && AllEarly(extraGuids, names)
    }

    constructor (crc: Buf -> nat)
      ensures Valid() && names == [] && extraGuids == [] && this.crc == crc
    {
      this.crc := crc;
      entries, extraGuids, stringStream, byString, byNumeric, names := [], [], [], map[], map[], [];
    }

    /** What a new store registers: one name, and the GUID of the internet headers. */
    method Init()
      requires Valid() && names == [] && extraGuids == []
      modifies this
      ensures Valid() && names == [Text(PS_PUBLIC_STRINGS, Keywords())] && extraGuids == [PS_INTERNET_HEADERS]
    {
      hide Core, Fold, Minted, MintedAlike, GuidIndex;
      var id := IdForString(PS_PUBLIC_STRINGS, Keywords());
      FirstMinted(extraGuids, names, Text(PS_PUBLIC_STRINGS, Keywords()), id);
      CoreOf();
      var w := IndexOf(PS_INTERNET_HEADERS);
    }

    lemma CoreOf()
      requires Valid()
      ensures Core()
    {
    }

    /** The index of a GUID, which is added when it is new. */
    method IndexOf(guid: Guid) returns (w: nat)
      requires Core()
      modifies `extraGuids
      ensures Core() && Known(extraGuids, guid) && w == GuidIndex(extraGuids, guid)
      ensures extraGuids == if Known(old(extraGuids), guid) then old(extraGuids) else old(extraGuids) + [guid]
    {
      hide TablesOk, EntriesOk;
      if guid == PS_MAPI {
        return 1;
      }
      if guid == PS_PUBLIC_STRINGS {
        return 2;
      }
      for i := 0 to |extraGuids|
        invariant guid !in extraGuids[..i] && unchanged(this)
      {
        if extraGuids[i] == guid {
          PositionAt(extraGuids, i);
          return (3 + i) % U16;
        }
      }
      ghost var was := extraGuids;
      extraGuids := extraGuids + [guid];
      TablesGrow(was, extraGuids, names, byString, byNumeric);
      EntriesGrow(crc, was, extraGuids, stringStream, stringStream, entries, names);
      PositionAt(extraGuids, |was|);
      return (2 + |extraGuids|) % U16;
    }

    /** The id of a text name. The same name, whatever its case, gets the id it got before;
        a new one gets the next id, until the map is full. */
    method IdForString(guid: Guid, text: Buf) returns (id: nat)
      requires Valid()
      modifies this
      ensures Valid() && old(names) <= names && old(extraGuids) <= extraGuids && Known(extraGuids, guid)
      ensures MintedAlike(extraGuids, old(names), names, Text(guid, text), id)
      ensures |extraGuids| <= MAX_EXTRA ==> Minted(old(names), names, Text(guid, text), id)
      ensures extraGuids == if Known(old(extraGuids), guid) then old(extraGuids) else old(extraGuids) + [guid]
      ensures id == 0 || FIRST_NAMED_ID <= id < FIRST_NAMED_ID + |names|
      ensures id == 0 ==> names == old(names) && entries == old(entries) && stringStream == old(stringStream)
    {
      hide TablesOk, EntriesOk, Fold, ExtraOk, GuidIndex, Known, Scalars, EncodeUtf16, Alike, Same, AllEarly;
      var w := IndexOf(guid);
      ghost var name, before, was := Text(guid, text), names, old(extraGuids);
      NamesKnown(was, extraGuids, names, byString, byNumeric);
      EarlyGrow(was, extraGuids, names);
      TextLookup(extraGuids, names, byString, byNumeric, name);
      var key := (w, Fold(text));
      if key in byString {
        TableValues(extraGuids, names, byString, byNumeric, key);
        FoundKnown(was, extraGuids, names, name);
        AlikeMinted(extraGuids, before, names, name, byString[key]);
        return byString[key];
      }
      EntriesCount(crc, extraGuids, stringStream, entries, names);
      if |entries| >= MAX_NAMES {
        AlikeMinted(extraGuids, before, names, name, 0);
        return 0;
      }
      id := MintText(w, guid, text);
      EarlyNext(extraGuids, before, name);
      AlikeMinted(extraGuids, before, names, name, id);
    }

    /** A new text name: its string, its entry, its place in the table. */
    method MintText(w: nat, guid: Guid, text: Buf) returns (id: nat)
      requires Core() && |names| < MAX_NAMES && Known(extraGuids, guid) && w == GuidIndex(extraGuids, guid)
      requires (w, Fold(text)) !in byString
      modifies `stringStream, `entries, `byString, `names
      ensures Core() && names == old(names) + [Text(guid, text)] && id == FIRST_NAMED_ID + |old(names)|
    {
      hide TablesOk, EntriesOk, Fold, ExtraOk, GuidIndex, Known, Scalars, EncodeUtf16, StringAt;
      var utf16 := ToUtf16(text);
      var offset := |stringStream| % U32;
      ghost var was, name := stringStream, Text(guid, text);
      EntriesCount(crc, extraGuids, stringStream, entries, names);
      AppendedReads(stringStream, utf16);
      stringStream := Appended(stringStream, utf16);
      var e := Entry(true, offset, w, |entries|, crc(utf16) % U32);
      EntriesGrow(crc, extraGuids, extraGuids, was, stringStream, entries, names);
      TextEntry(crc, extraGuids, was, stringStream, e, guid, text, |names|);
      EntriesSnoc(crc, extraGuids, stringStream, entries, names, e, name);
      TablesSnocText(extraGuids, names, byString, byNumeric, name);
      entries := entries + [e];
      id := FIRST_NAMED_ID + e.propIndex;
      byString := byString[(w, Fold(text)) := id];
      names := names + [name];
    }

    /** The same for a number. */
    method IdForNumeric(guid: Guid, number: nat) returns (id: nat)
      requires Valid() && number < U32
      modifies this
      ensures Valid() && old(names) <= names && old(extraGuids) <= extraGuids && Known(extraGuids, guid)
      ensures MintedAlike(extraGuids, old(names), names, Number(guid, number), id)
      ensures |extraGuids| <= MAX_EXTRA ==> Minted(old(names), names, Number(guid, number), id)
      ensures extraGuids == if Known(old(extraGuids), guid) then old(extraGuids) else old(extraGuids) + [guid]
      ensures id == 0 || FIRST_NAMED_ID <= id < FIRST_NAMED_ID + |names|
      ensures id == 0 ==> names == old(names) && entries == old(entries)
      ensures stringStream == old(stringStream)
    {
      hide TablesOk, EntriesOk, Fold, ExtraOk, GuidIndex, Known, Alike, Same, AllEarly;
      var w := IndexOf(guid);
      ghost var name, before, was := Number(guid, number), names, old(extraGuids);
      NamesKnown(was, extraGuids, names, byString, byNumeric);
      EarlyGrow(was, extraGuids, names);
      NumberLookup(extraGuids, names, byString, byNumeric, name);
      var key := (w, number);
      if key in byNumeric {
        NumberValues(extraGuids, names, byString, byNumeric, key);
        FoundKnown(was, extraGuids, names, name);
        AlikeMinted(extraGuids, before, names, name, byNumeric[key]);
        return byNumeric[key];
      }
      EntriesCount(crc, extraGuids, stringStream, entries, names);
      if |entries| >= MAX_NAMES {
        AlikeMinted(extraGuids, before, names, name, 0);
        return 0;
      }
      var e := Entry(false, number, w, |entries|, number);
      EntriesSnoc(crc, extraGuids, stringStream, entries, names, e, name);
      TablesSnocNumber(extraGuids, names, byString, byNumeric, name);
      entries := entries + [e];
      id := FIRST_NAMED_ID + e.propIndex;
      byNumeric := byNumeric[key := id];
      names := names + [name];
      EarlyNext(extraGuids, before, name);
      AlikeMinted(extraGuids, before, names, name, id);
    }
  }

  function Keywords(): Buf { [75, 101, 121, 119, 111, 114, 100, 115] }

  /** The GUID is predefined or among the first extra ones. */
  predicate Early(extra: seq<Guid>, g: Guid) {
    g == PS_MAPI || g == PS_PUBLIC_STRINGS || g in if |extra| <= MAX_NAMES then extra else extra[..MAX_NAMES]
  }

  ghost predicate AllEarly(extra: seq<Guid>, names: seq<Name>) {
    forall i :: 0 <= i < |names| ==> Early(extra, names[i].guid)
  }

  lemma EarlyGrow(a: seq<Guid>, b: seq<Guid>, names: seq<Name>)
    requires a <= b && AllEarly(a, names)
    ensures AllEarly(b, names)
  {
    forall i | 0 <= i < |names| ensures Early(b, names[i].guid) {
      assert Early(a, names[i].guid);
      var g := names[i].guid;
      if g != PS_MAPI && g != PS_PUBLIC_STRINGS {
        var from := if |a| <= MAX_NAMES then a else a[..MAX_NAMES];
        var k :| 0 <= k < |from| && from[k] == g;
        assert b[k] == g;
        if |b| > MAX_NAMES { assert b[..MAX_NAMES][k] == g; }
      }
    }
  }

  lemma EarlyNext(extra: seq<Guid>, names: seq<Name>, name: Name)
    requires AllEarly(extra, names) && |extra| <= MAX_NAMES && Known(extra, name.guid)
    ensures AllEarly(extra, names + [name])
  {
  }

  /** A name found before the map is full was asked for under a GUID already known. */
  lemma FoundKnown(a: seq<Guid>, b: seq<Guid>, names: seq<Name>, name: Name)
    requires a <= b && Known(b, name.guid) && |b| <= |a| + 1 && (exists i :: 0 <= i < |names| && Alike(b, names[i], name))
    requires forall i :: 0 <= i < |names| ==> Known(a, names[i].guid)
    ensures |a| < MAX_EXTRA ==> Known(a, name.guid)
  {
    hide Fold, GuidIndex;
    if |a| < MAX_EXTRA {
      var i :| 0 <= i < |names| && Alike(b, names[i], name);
      assert Known(b, names[i].guid);
      IndexInjective(b, names[i].guid, name.guid);
    }
  }

  lemma NamesKnown(a: seq<Guid>, b: seq<Guid>, names: seq<Name>, byString: map<(nat, Buf), nat>, byNumeric: map<(nat, nat), nat>)
    requires AllEarly(a, names) && TablesOk(b, names, byString, byNumeric)
    ensures forall i :: 0 <= i < |names| ==> Known(a, names[i].guid) && Known(b, names[i].guid)
  {
    forall i | 0 <= i < |names| ensures Known(a, names[i].guid) && Known(b, names[i].guid) { assert Early(a, names[i].guid); }
  }

  lemma FirstMinted(extra: seq<Guid>, names: seq<Name>, name: Name, id: nat)
    requires MintedAlike(extra, [], names, name, id)
    ensures names == [name]
  {
  }

  /** What one request does, as the map tells names apart: one that is alike keeps its id, a
      new one gets the next, and a full map gives zero and stays as it is. */
  ghost predicate MintedAlike(extra: seq<Guid>, before: seq<Name>, after: seq<Name>, name: Name, id: nat) {
    if exists i :: 0 <= i < |before| && Alike(extra, before[i], name) then
      after == before && exists i :: 0 <= i < |before| && Alike(extra, before[i], name) && id == FIRST_NAMED_ID + i
    else if |before| >= MAX_NAMES then after == before && id == 0
    else after == before + [name] && id == FIRST_NAMED_ID + |before|
  }

  /** Up to the limit on GUIDs that is what the names themselves say. */
  lemma AlikeMinted(extra: seq<Guid>, before: seq<Name>, after: seq<Name>, name: Name, id: nat)
    requires Known(extra, name.guid) && forall i :: 0 <= i < |before| ==> Known(extra, before[i].guid)
    ensures |extra| <= MAX_EXTRA && MintedAlike(extra, before, after, name, id) ==> Minted(before, after, name, id)
  {
    hide Alike, Same, Known;
    if |extra| <= MAX_EXTRA {
      forall i | 0 <= i < |before| ensures Alike(extra, before[i], name) <==> Same(before[i], name) { AlikeIff(extra, before[i], name); }
    }
  }

  /** What one request does: a known name keeps its id, a new one gets the next, and a
      full map gives zero and stays as it is. */
  ghost predicate Minted(before: seq<Name>, after: seq<Name>, name: Name, id: nat) {
    if exists i :: 0 <= i < |before| && Same(before[i], name) then
      after == before && exists i :: 0 <= i < |before| && Same(before[i], name) && id == FIRST_NAMED_ID + i
    else if |before| >= MAX_NAMES then after == before && id == 0
    else after == before + [name] && id == FIRST_NAMED_ID + |before|
  }

  lemma EntriesCount(crc: Buf -> nat, extra: seq<Guid>, stream: Buf, entries: seq<Entry>, names: seq<Name>)
    requires EntriesOk(crc, extra, stream, entries, names)
    ensures |entries| == |names|
  {
  }

  lemma TableValues(extra: seq<Guid>, names: seq<Name>, byString: map<(nat, Buf), nat>, byNumeric: map<(nat, nat), nat>, k: (nat, Buf))
    requires TablesOk(extra, names, byString, byNumeric) && k in byString
    ensures FIRST_NAMED_ID <= byString[k] < FIRST_NAMED_ID + |names|
  {
  }

  lemma NumberValues(extra: seq<Guid>, names: seq<Name>, byString: map<(nat, Buf), nat>, byNumeric: map<(nat, nat), nat>, k: (nat, nat))
    requires TablesOk(extra, names, byString, byNumeric) && k in byNumeric
    ensures FIRST_NAMED_ID <= byNumeric[k] < FIRST_NAMED_ID + |names|
  {
  }

  lemma TextEntry(crc: Buf -> nat, extra: seq<Guid>, was: Buf, stream: Buf, e: Entry, guid: Guid, text: Buf, i: nat)
    requires |was| % 4 == 0 && Known(extra, guid) && stream == Appended(was, EncodeUtf16(Scalars(text)))
    requires e == Entry(true, |was| % U32, GuidIndex(extra, guid), i, crc(EncodeUtf16(Scalars(text))) % U32)
    ensures EntryOk(crc, extra, stream, e, Text(guid, text), i)
  {
    hide Scalars, EncodeUtf16, Known, GuidIndex, StringAt;
    var utf16 := EncodeUtf16(Scalars(text));
    AppendedReads(was, utf16);
    if |stream| < U32 { ModUnique(|was|, U32, 0, |was|); }
  }

  lemma EntriesSnoc(crc: Buf -> nat, extra: seq<Guid>, stream: Buf, entries: seq<Entry>, names: seq<Name>, e: Entry, name: Name)
    requires EntriesOk(crc, extra, stream, entries, names) && EntryOk(crc, extra, stream, e, name, |names|)
    ensures EntriesOk(crc, extra, stream, entries + [e], names + [name])
  {
    hide EntryOk;
  }
}
