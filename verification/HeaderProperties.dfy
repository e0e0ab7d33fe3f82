/** Headers without a slot of their own become named properties, merged without regard to
    case. */
module HeaderProperties {
  import opened Bytes
  import opened Wrappers
  import opened Utf
  import opened NameIdMap
  import opened NameIdStreams
  import opened PropertyContext

  const NEWLINE: byte := 10

  datatype Header = Header(name: Buf, value: Buf)

  /** All values under a folded name, in order, one per line. */
  function Merged(headers: seq<Header>, key: Buf): Option<Buf> {
    if headers == [] then None
    else
      var h, front := headers[|headers| - 1], Merged(headers[..|headers| - 1], key);
      if Fold(h.name) != key then front
      else if front.None? then Some(h.value)
      else Some(front.value + [NEWLINE] + h.value)
  }

  /** The spelling a folded name was first seen in. */
  function Spelling(headers: seq<Header>, key: Buf): Option<Buf> {
    if headers == [] then None
    else
      var h, front := headers[|headers| - 1], Spelling(headers[..|headers| - 1], key);
      if front.Some? || Fold(h.name) != key then front else Some(h.name)
  }

  ghost predicate MergeState(headers: seq<Header>, order: seq<Buf>, merged: map<Buf, Buf>, spelling: map<Buf, Buf>) {
    && (forall i, j :: 0 <= i < j < |order| ==> order[i] != order[j])
    && (forall key :: key in merged <==> key in order) && (forall key :: key in spelling <==> key in order)
    && (forall key :: key in order ==> Merged(headers, key) == Some(merged[key]) && Spelling(headers, key) == Some(spelling[key]))
    && (forall key :: key !in order ==> Merged(headers, key) == None && Spelling(headers, key) == None)
    && (forall key :: key in order ==> Fold(spelling[key]) == key)
  }

  lemma MergedSnoc(headers: seq<Header>, h: Header, key: Buf)
    ensures Merged(headers + [h], key) ==
            if Fold(h.name) != key then Merged(headers, key)
            else if Merged(headers, key).None? then Some(h.value)
            else Some(Merged(headers, key).value + [NEWLINE] + h.value)
    ensures Spelling(headers + [h], key) ==
            if Spelling(headers, key).Some? || Fold(h.name) != key then Spelling(headers, key) else Some(h.name)
  {
    assert (headers + [h])[..|headers|] == headers;
  }

  lemma AllSnoc(headers: seq<Header>, h: Header)
    ensures forall k: Buf :: Merged(headers + [h], k) ==
              if Fold(h.name) != k then Merged(headers, k)
              else if Merged(headers, k).None? then Some(h.value)
              else Some(Merged(headers, k).value + [NEWLINE] + h.value)
    ensures forall k: Buf :: Spelling(headers + [h], k) ==
              if Spelling(headers, k).Some? || Fold(h.name) != k then Spelling(headers, k) else Some(h.name)
  {
    hide Merged, Spelling, Fold;
    forall k: Buf { MergedSnoc(headers, h, k); }
  }

  /** A name not seen before. */
  lemma MergeNew(headers: seq<Header>, h: Header, order: seq<Buf>, merged: map<Buf, Buf>, spelling: map<Buf, Buf>)
    requires MergeState(headers, order, merged, spelling) && Fold(h.name) !in merged
    ensures var key := Fold(h.name); MergeState(headers + [h], order + [key], merged[key := h.value], spelling[key := h.name])
  {
    hide Merged, Spelling, Fold;
    AllSnoc(headers, h);
    var key := Fold(h.name);
    assert forall k :: k in order + [key] <==> k in order || k == key;
  }

  /** Another value for a name seen before. */
  lemma MergeMore(headers: seq<Header>, h: Header, order: seq<Buf>, merged: map<Buf, Buf>, spelling: map<Buf, Buf>)
    requires MergeState(headers, order, merged, spelling) && Fold(h.name) in merged
    ensures var key := Fold(h.name); MergeState(headers + [h], order, merged[key := merged[key] + [NEWLINE] + h.value], spelling)
  {
    hide Merged, Spelling, Fold;
    AllSnoc(headers, h);
  }

  /** The merge: keyed by folded name, ordered by first appearance. */
  method Merge(headers: seq<Header>) returns (order: seq<Buf>, merged: map<Buf, Buf>, spelling: map<Buf, Buf>)
    ensures MergeState(headers, order, merged, spelling)
  {
    hide Merged, Spelling, Fold, MergeState;
    order, merged, spelling := [], map[], map[];
    NothingMerged();
    assert headers[..0] == [];
    for i := 0 to |headers|
      invariant MergeState(headers[..i], order, merged, spelling)
    {
      var h := headers[i];
      var key := Fold(h.name);
      assert headers[..i] + [h] == headers[..i + 1];
      if key !in merged {
        MergeNew(headers[..i], h, order, merged, spelling);
        merged := merged[key := h.value];
        spelling := spelling[key := h.name];
        order := order + [key];
      } else {
        MergeMore(headers[..i], h, order, merged, spelling);
        merged := merged[key := merged[key] + [NEWLINE] + h.value];
      }
    }
    assert headers[..|headers|] == headers;
  }

  lemma NothingMerged()
    ensures MergeState([], [], map[], map[])
  {
  }

  function HeaderTag(id: nat): nat { id * 65536 + 0x001F }

  /** The puts for the merged headers, under the ids they were given. */
  function HeaderPuts(ids: seq<nat>, texts: seq<Buf>): (puts: seq<Value>)
    requires |ids| == |texts|
    ensures |puts| == |ids| && forall k :: 0 <= k < |ids| ==> puts[k] == Value(HeaderTag(ids[k]), Bytes(EncodeUtf16(Scalars(texts[k]))))
  {
    seq(|ids|, k requires 0 <= k < |ids| => Value(HeaderTag(ids[k]), Bytes(EncodeUtf16(Scalars(texts[k])))))
  }

  lemma TagOfId(id: nat)
    ensures TagId(HeaderTag(id)) == id && TagType(HeaderTag(id)) == 0x001F
    ensures id < U16 ==> HeaderTag(id) < U32
  {
    ModUnique(HeaderTag(id), 65536, id, 0x001F);
  }

  /** With ids that are all different, no put is overwritten by another. */
  lemma {:induction false} NoneOverwritten(before: seq<Value>, ids: seq<nat>, texts: seq<Buf>, k: nat)
    requires |ids| == |texts| && k < |ids| && forall i, j :: 0 <= i < j < |ids| ==> ids[i] != ids[j]
    ensures LastWrite(before + HeaderPuts(ids, texts), ids[k]) == Some(HeaderPuts(ids, texts)[k])
  {
    hide Scalars, EncodeUtf16, HeaderTag, TagId;
    var n := |ids| - 1;
    var puts := HeaderPuts(ids, texts);
    assert puts == HeaderPuts(ids[..n], texts[..n]) + [puts[n]];
    assert before + puts == (before + HeaderPuts(ids[..n], texts[..n])) + [puts[n]];
    LastWriteSnoc(before + HeaderPuts(ids[..n], texts[..n]), puts[n], ids[k]);
    TagOfId(ids[n]);
    if k < n { NoneOverwritten(before, ids[..n], texts[..n], k); }
  }

  function Names(keys: seq<Buf>, spelling: map<Buf, Buf>): (names: seq<Name>)
    requires forall k :: k in keys ==> k in spelling
    ensures |names| == |keys| && forall i :: 0 <= i < |keys| ==> names[i] == Text(PS_INTERNET_HEADERS, spelling[keys[i]])
  {
    seq(|keys|, i requires 0 <= i < |keys| => assert keys[i] in keys; Text(PS_INTERNET_HEADERS, spelling[keys[i]]))
  }

  /** Every header that is not structured ends up readable under the id of its name, merged
      with all of the same name, until the name map is full. */
  method ApplyHeaders(m: NameIdMap, pc: PropertyContext, headers: seq<Header>)
    returns (ids: seq<nat>, ghost keys: seq<Buf>, texts: seq<Buf>)
    requires m.Valid() && pc.Valid()
    modifies m, pc
    ensures m.Valid() && pc.Valid() && |ids| <= |keys|
    ensures old(m.names) <= m.names && old(m.extraGuids) <= m.extraGuids
    ensures Known(old(m.extraGuids), PS_INTERNET_HEADERS) ==> m.extraGuids == old(m.extraGuids)
    ensures |texts| == |ids| && pc.history == old(pc.history) + HeaderPuts(ids, texts)
    ensures forall i :: 0 <= i < |ids| ==> FIRST_NAMED_ID <= ids[i] < FIRST_NAMED_ID + MAX_NAMES
    ensures forall key :: key in keys <==> Merged(headers, key).Some?
    ensures |ids| < |keys| ==> |m.names| == MAX_NAMES
    ensures forall i :: 0 <= i < |ids| ==>
              && Spelling(headers, keys[i]).Some? && Merged(headers, keys[i]).Some?
              && Answered(m.extraGuids, m.names, Text(PS_INTERNET_HEADERS, Spelling(headers, keys[i]).value), ids[i])
              && LastWrite(pc.history, ids[i])
                 == Some(Value(HeaderTag(ids[i]), Bytes(EncodeUtf16(Scalars(Merged(headers, keys[i]).value)))))
  {
    hide m.Valid, pc.Valid, Merged, Spelling, Fold, Scalars, EncodeUtf16, HeaderTag, HeaderPuts, LastWrite, Minted, MintedAlike,
         AllAnswered, Answered, AllKnown, Known, Alike, MergeState, DistinctNames, TagId, TagType, Applied;
    var order, merged, spelling := Merge(headers);
    MergeKeys(headers, order, merged, spelling);
    keys := order;
    ghost var before := pc.history;
    ids, texts := [], [];
    NoneApplied(m.extraGuids, m.names, order, merged, spelling);
    for i := 0 to |order|
      invariant m.Valid() && pc.Valid() && |ids| == |texts| == i
      invariant Applied(m.extraGuids, m.names, order, merged, spelling, ids, texts)
      invariant pc.history == before + HeaderPuts(ids, texts)
      invariant old(m.names) <= m.names && old(m.extraGuids) <= m.extraGuids
      invariant Known(old(m.extraGuids), PS_INTERNET_HEADERS) ==> m.extraGuids == old(m.extraGuids)
      invariant forall k :: 0 <= k < i ==> FIRST_NAMED_ID <= ids[k] < FIRST_NAMED_ID + MAX_NAMES
    {
      ghost var extra, names := m.extraGuids, m.names;
      NamesDistinct(m);
      assert order[i] in order;
      var id := m.IdForString(PS_INTERNET_HEADERS, spelling[order[i]]);
      NameCount(m);
      AppliedNext(extra, m.extraGuids, names, m.names, order, merged, spelling, ids, texts, id);
      if id == 0 {
        break;
      }
      TagOfId(id);
      PutsNext(before, ids, texts, id, merged[order[i]]);
      pc.SetString(HeaderTag(id), merged[order[i]]);
      ids := ids + [id];
      texts := texts + [merged[order[i]]];
    }
    NamesDistinct(m);
    HeadersRead(m.extraGuids, m.names, headers, order, merged, spelling, ids, texts, before);
  }

  /** The first headers have their ids, and their texts are the merged ones. */
  ghost predicate Applied(extra: seq<Guid>, names: seq<Name>, order: seq<Buf>, merged: map<Buf, Buf>, spelling: map<Buf, Buf>,
                          ids: seq<nat>, texts: seq<Buf>) {
    && |ids| == |texts| <= |order| && (forall k :: k in order ==> k in merged && k in spelling)
    && AllAnswered(extra, names, Names(order, spelling)[..|ids|], ids)
    && forall k :: 0 <= k < |ids| ==> ids[k] > 0 && order[k] in merged && texts[k] == merged[order[k]]
  }

  lemma NoneApplied(extra: seq<Guid>, names: seq<Name>, order: seq<Buf>, merged: map<Buf, Buf>, spelling: map<Buf, Buf>)
    requires forall k :: k in order ==> k in merged && k in spelling
    ensures Applied(extra, names, order, merged, spelling, [], [])
  {
    NoneAnswered(extra, names);
  }

  /** One header more, or a full map. */
  lemma AppliedNext(x: seq<Guid>, y: seq<Guid>, names: seq<Name>, more: seq<Name>, order: seq<Buf>, merged: map<Buf, Buf>,
                    spelling: map<Buf, Buf>, ids: seq<nat>, texts: seq<Buf>, id: nat)
    requires Applied(x, names, order, merged, spelling, ids, texts) && |ids| < |order| && order[|ids|] in spelling
    requires x <= y && names <= more && |more| <= MAX_NAMES && AllKnown(x, names) && Known(y, PS_INTERNET_HEADERS)
    requires MintedAlike(y, names, more, Text(PS_INTERNET_HEADERS, spelling[order[|ids|]]), id)
    ensures id == 0 ==> |more| == MAX_NAMES && Applied(y, more, order, merged, spelling, ids, texts)
    ensures id > 0 ==> Applied(y, more, order, merged, spelling, ids + [id], texts + [merged[order[|ids|]]])
  {
    hide MintedAlike, Answered, AllAnswered, AllKnown, Known;
    var i, requests := |ids|, Names(order, spelling);
    MintedAnswers(y, names, more, requests[i], id);
    AnsweredNext(x, y, names, more, requests, ids, i, id);
    if id == 0 {
      FullMap(y, more, requests[i]);
      FirstAnswered(y, more, requests, ids, id, i);
    }
  }

  lemma MergeKeys(headers: seq<Header>, order: seq<Buf>, merged: map<Buf, Buf>, spelling: map<Buf, Buf>)
    requires MergeState(headers, order, merged, spelling)
    ensures forall key :: key in order ==> key in merged && key in spelling
    ensures forall key :: key in order <==> Merged(headers, key).Some?
  {
    hide Merged, Spelling, Fold;
  }

  /** What was put under the ids is what each key's headers say. */
  lemma HeadersRead(extra: seq<Guid>, names: seq<Name>, headers: seq<Header>, order: seq<Buf>, merged: map<Buf, Buf>,
                    spelling: map<Buf, Buf>, ids: seq<nat>, texts: seq<Buf>, before: seq<Value>)
    requires MergeState(headers, order, merged, spelling) && DistinctNames(extra, names)
    requires Applied(extra, names, order, merged, spelling, ids, texts)
    ensures forall i :: 0 <= i < |ids| ==>
              && Spelling(headers, order[i]).Some? && Merged(headers, order[i]).Some?
              && Answered(extra, names, Text(PS_INTERNET_HEADERS, Spelling(headers, order[i]).value), ids[i])
              && LastWrite(before + HeaderPuts(ids, texts), ids[i])
                 == Some(Value(HeaderTag(ids[i]), Bytes(EncodeUtf16(Scalars(Merged(headers, order[i]).value)))))
  {
    hide Merged, Spelling, Fold, Scalars, EncodeUtf16, HeaderTag, LastWrite, AllAnswered, Answered, Known, Alike, DistinctNames;
    IdsDiffer(extra, names, headers, order, merged, spelling, ids);
    var requests := Names(order, spelling);
    forall i | 0 <= i < |ids|
      ensures Spelling(headers, order[i]).Some? && Merged(headers, order[i]).Some?
      ensures Answered(extra, names, Text(PS_INTERNET_HEADERS, Spelling(headers, order[i]).value), ids[i])
      ensures LastWrite(before + HeaderPuts(ids, texts), ids[i])
              == Some(Value(HeaderTag(ids[i]), Bytes(EncodeUtf16(Scalars(Merged(headers, order[i]).value)))))
    {
      assert order[i] in order && requests[..|ids|][i] == requests[i];
      OneAnswered(extra, names, requests[..|ids|], ids, i);
      NoneOverwritten(before, ids, texts, i);
    }
  }

  lemma FullMap(extra: seq<Guid>, names: seq<Name>, request: Name)
    requires Answered(extra, names, request, 0)
    ensures |names| == MAX_NAMES
  {
  }

  lemma FirstAnswered(extra: seq<Guid>, names: seq<Name>, requests: seq<Name>, ids: seq<nat>, id: nat, i: nat)
    requires i < |requests| && |ids| == i && AllAnswered(extra, names, requests[..i + 1], ids + [id])
    ensures AllAnswered(extra, names, requests[..i], ids)
  {
    hide Answered;
    forall k | 0 <= k < i ensures Answered(extra, names, requests[..i][k], ids[k]) {
      assert requests[..i + 1][k] == requests[k] && (ids + [id])[k] == ids[k];
    }
  }

  lemma PutsNext(before: seq<Value>, ids: seq<nat>, texts: seq<Buf>, id: nat, text: Buf)
    requires |ids| == |texts|
    ensures before + HeaderPuts(ids + [id], texts + [text])
            == before + HeaderPuts(ids, texts) + [Value(HeaderTag(id), Bytes(EncodeUtf16(Scalars(text))))]
  {
    hide Scalars, EncodeUtf16, HeaderTag;
    assert HeaderPuts(ids + [id], texts + [text]) == HeaderPuts(ids, texts) + [Value(HeaderTag(id), Bytes(EncodeUtf16(Scalars(text))))];
  }

  /** Different keys are different names, so they have different ids. */
  lemma IdsDiffer(extra: seq<Guid>, names: seq<Name>, headers: seq<Header>, order: seq<Buf>, merged: map<Buf, Buf>,
                  spelling: map<Buf, Buf>, ids: seq<nat>)
    requires MergeState(headers, order, merged, spelling) && DistinctNames(extra, names) && |ids| <= |order|
    requires AllAnswered(extra, names, Names(order, spelling)[..|ids|], ids) && forall k :: 0 <= k < |ids| ==> ids[k] > 0
    ensures forall i, j :: 0 <= i < j < |ids| ==> ids[i] != ids[j]
  {
    hide Merged, Spelling, Fold, Answered, GuidIndex;
    var requests := Names(order, spelling)[..|ids|];
    forall i, j | 0 <= i < j < |ids| ensures ids[i] != ids[j] {
      assert order[i] in order && order[j] in order;
      OneAnswered(extra, names, requests, ids, i);
      OneAnswered(extra, names, requests, ids, j);
      SameIdAlike(extra, names, requests[i], requests[j], ids[i], ids[j]);
    }
  }
}
