/** Asking for a batch of messages and putting each body where its UID stands. */
module ImapClient {
  import opened Wrappers
  import opened Sorting
  import opened ImapText
  import opened ImapLines
  import opened ImapFetch
  import opened ImapResponse
  import opened ImapRoundTrip

  // -------------------------------------------------------------- UID sets

  /** A sequence-set element (section 9 of RFC 3501). */
  datatype Range = One(a: nat) | Span(a: nat, b: nat)

  /** An element stands for every number between its ends, whichever comes first. */
  predicate InRange(r: Range, n: nat) {
    match r
    case One(a) => n == a
    case Span(a, b) => a <= n <= b || b <= n <= a
  }

  predicate Denotes(rs: seq<Range>, n: nat) { exists k :: 0 <= k < |rs| && InRange(rs[k], n) }

  /** Where the run of consecutive UIDs from `j` ends; the sum is taken in 32 bits. */
  function RunEnd(uids: seq<nat>, j: nat): (k: nat)
    requires j < |uids|
    ensures j <= k < |uids|
    decreases |uids| - j
  {
    if j + 1 < |uids| && uids[j + 1] == (uids[j] + 1) % U32 then RunEnd(uids, j + 1) else j
  }

  function Ranges(uids: seq<nat>, i: nat): seq<Range>
    decreases |uids| - i
  {
    if i >= |uids| then []
    else
      var j := RunEnd(uids, i);
      [if j > i then Span(uids[i], uids[j]) else One(uids[i])] + Ranges(uids, j + 1)
  }

  function RangeText(r: Range): (s: string)
    ensures s != ""
  {
    match r
    case One(a) => Dec(a)
    case Span(a, b) => Dec(a) + ":" + Dec(b)
  }

  function SetText(rs: seq<Range>): string {
    if rs == [] then ""
    else if |rs| == 1 then RangeText(rs[0])
    else RangeText(rs[0]) + "," + SetText(rs[1..])
  }

  /** The server's side. */
  function ParseRange(s: string): Range {
    var colon := FindChar(s, ':', 0);
    if colon == |s| then One(Number(s)) else Span(Number(s[..colon]), Number(s[colon + 1..]))
  }

  function ParseSet(s: string): seq<Range>
    decreases |s|
  {
    if s == "" then []
    else
      var comma := FindChar(s, ',', 0);
      [ParseRange(s[..comma])] + if comma < |s| then ParseSet(s[comma + 1..]) else []
  }

  lemma RangeRoundTrip(r: Range)
    ensures ParseRange(RangeText(r)) == r
    ensures forall k :: 0 <= k < |RangeText(r)| ==> RangeText(r)[k] != ','
  {
    hide Number, Dec, FindChar;
    match r
    case One(a) =>
      NumberOfDec(a);
      NotFound(Dec(a), ':');
    case Span(a, b) =>
      var s, k := RangeText(r), |Dec(a)|;
      NumberOfDec(a);
      NumberOfDec(b);
      assert s[k] == ':' && s[..k] == Dec(a) && s[k + 1..] == Dec(b);
      FindCharIs(s, ':', 0, k);
  }

  lemma NotFound(s: string, c: char)
    requires forall k :: 0 <= k < |s| ==> s[k] != c
    ensures FindChar(s, c, 0) == |s|
  {
  }

  /** The set is read as the ranges it was written from. */
  lemma {:induction false} SetRoundTrip(rs: seq<Range>)
    ensures ParseSet(SetText(rs)) == rs
  {
    hide RangeText, ParseRange, FindChar;
    if rs != [] {
      var head := RangeText(rs[0]);
      RangeRoundTrip(rs[0]);
      if |rs| == 1 {
        NotFound(head, ',');
        assert head[..|head|] == head;
      } else {
        var s, rest := SetText(rs), SetText(rs[1..]);
        assert s == head + "," + rest;
        assert s[|head|] == ',' && s[..|head|] == head && s[|head| + 1..] == rest;
        FindCharIs(s, ',', 0, |head|);
        SetRoundTrip(rs[1..]);
      }
    }
  }

  predicate Ascending(uids: seq<nat>) {
    (forall i, j :: 0 <= i < j < |uids| ==> uids[i] <= uids[j]) && forall i :: 0 <= i < |uids| ==> uids[i] < U32
  }

  lemma {:induction false} RunIsConsecutive(uids: seq<nat>, j: nat)
    requires j < |uids| && Ascending(uids)
    ensures forall k :: j <= k <= RunEnd(uids, j) ==> uids[k] == uids[j] + (k - j)
    decreases |uids| - j
  {
    if j + 1 < |uids| && uids[j + 1] == (uids[j] + 1) % U32 {
      assert uids[j + 1] == uids[j] + 1 by { assert uids[j] <= uids[j + 1]; }
      RunIsConsecutive(uids, j + 1);
    }
  }

  /** Over sorted UIDs the ranges from `i` on stand for exactly the UIDs from `i` on. */
  lemma {:induction false} RangesDenote(uids: seq<nat>, i: nat, n: nat)
    requires Ascending(uids) && i <= |uids|
    ensures Denotes(Ranges(uids, i), n) <==> n in uids[i..]
    decreases |uids| - i
  {
    hide RunEnd, Denotes, InRange, Ascending, Ranges;
    RangesEnd(uids);
    NoneDenoted(n);
    if i < |uids| {
      var j := RunEnd(uids, i);
      RunIsConsecutive(uids, i);
      RangesDenote(uids, j + 1, n);
      RangesNext(uids, i);
      RunDenotes(uids, i, j, n);
      DenotesCons(if j > i then Span(uids[i], uids[j]) else One(uids[i]), Ranges(uids, j + 1), n);
      assert uids[i..] == uids[i..j + 1] + uids[j + 1..];
    }
  }

  lemma NoneDenoted(n: nat)
    ensures !Denotes([], n)
  {
  }

  /** The range of one run. */
  lemma RunDenotes(uids: seq<nat>, i: nat, j: nat, n: nat)
    requires i <= j < |uids| && forall k :: i <= k <= j ==> uids[k] == uids[i] + (k - i)
    ensures InRange(if j > i then Span(uids[i], uids[j]) else One(uids[i]), n) <==> n in uids[i..j + 1]
  {
    if uids[i] <= n <= uids[j] { assert uids[i..j + 1][n - uids[i]] == n; }
  }

  lemma DenotesCons(r: Range, rs: seq<Range>, n: nat)
    ensures Denotes([r] + rs, n) <==> InRange(r, n) || Denotes(rs, n)
  {
    if Denotes([r] + rs, n) {
      var k :| 0 <= k < |[r] + rs| && InRange(([r] + rs)[k], n);
      if k > 0 { assert rs[k - 1] == ([r] + rs)[k]; }
    }
    if InRange(r, n) { assert ([r] + rs)[0] == r; }
    if Denotes(rs, n) {
      var k :| 0 <= k < |rs| && InRange(rs[k], n);
      assert ([r] + rs)[k + 1] == rs[k];
    }
  }

  /** Runs of consecutive UIDs, written as ranges. */
  method UidSet(uids: seq<nat>) returns (out: string)
    ensures out == SetText(Ranges(uids, 0))
  {
    hide RangeText, SetText, Ranges, RunEnd;
    RangesEnd(uids);
    SetEmpty();
    out := "";
    var i := 0;
    ghost var done: seq<Range> := [];
    while i < |uids|
      invariant out == SetText(done) && done + Ranges(uids, i) == Ranges(uids, 0)
      decreases |uids| - i
    {
      var j := i;
      while j + 1 < |uids| && uids[j + 1] == (uids[j] + 1) % U32
        invariant i <= j < |uids| && RunEnd(uids, j) == RunEnd(uids, i) && out == SetText(done)
        decreases |uids| - j
      {
        RunStep(uids, j);
        j := j + 1;
      }
      RunStep(uids, j);
      var r := if j > i then Span(uids[i], uids[j]) else One(uids[i]);
      SetSnoc(done, r);
      RangesNext(uids, i);
      Shift(done, r, Ranges(uids, j + 1));
      if out != "" {
        out := out + ",";
      }
      out := out + RangeText(r);
      done := done + [r];
      i := j + 1;
    }
    assert done + [] == done;
  }

  lemma RunStep(uids: seq<nat>, j: nat)
    requires j < |uids|
    ensures RunEnd(uids, j) == if j + 1 < |uids| && uids[j + 1] == (uids[j] + 1) % U32 then RunEnd(uids, j + 1) else j
  {
  }

  lemma RangesNext(uids: seq<nat>, i: nat)
    requires i < |uids|
    ensures var j := RunEnd(uids, i);
            Ranges(uids, i) == [if j > i then Span(uids[i], uids[j]) else One(uids[i])] + Ranges(uids, j + 1)
  {
  }

  lemma RangesEnd(uids: seq<nat>)
    ensures forall i :: i >= |uids| ==> Ranges(uids, i) == []
  {
  }

  lemma SetEmpty()
    ensures SetText([]) == ""
  {
  }

  lemma Shift(a: seq<Range>, r: Range, b: seq<Range>)
    ensures a + ([r] + b) == (a + [r]) + b && a + [] == a
  {
  }

  lemma {:induction false} SetSnoc(rs: seq<Range>, r: Range)
    ensures SetText(rs + [r]) == if SetText(rs) == "" then RangeText(r) else SetText(rs) + "," + RangeText(r)
    ensures SetText(rs) == "" <==> rs == []
  {
    hide RangeText;
    if rs == [] {
      assert rs + [r] == [r];
    } else {
      SetSnoc(rs[1..], r);
      assert (rs + [r])[1..] == rs[1..] + [r];
      var a, b := RangeText(rs[0]), SetText(rs[1..]);
      if |rs| > 1 { assert a + "," + (b + "," + RangeText(r)) == a + "," + b + "," + RangeText(r); }
    }
  }

  /** What the server understands of a set made from sorted UIDs: those UIDs. */
  lemma SetDenotes(uids: seq<nat>, n: nat)
    requires Ascending(uids)
    ensures Denotes(ParseSet(SetText(Ranges(uids, 0))), n) <==> n in uids
  {
    hide Ranges, SetText, ParseSet, Denotes, Ascending;
    SetRoundTrip(Ranges(uids, 0));
    RangesDenote(uids, 0, n);
    assert uids[0..] == uids;
  }

  // ------------------------------------------------------------ the batch

  datatype Meta = Meta(uid: nat, flags: nat, keywords: seq<string>, date: int)

  datatype RawMessage = RawMessage(uid: nat, flags: nat, keywords: seq<string>, date: int, rfc822: string)

  /** The body a response delivers for a UID; the last one, if it delivers several. */
  function LastBody(bodies: seq<FetchedBody>, uid: nat): Option<string> {
    if bodies == [] then None
    else if bodies[|bodies| - 1].uid == uid then Some(bodies[|bodies| - 1].rfc822)
    else LastBody(bodies[..|bodies| - 1], uid)
  }

  function Blank(m: Meta): RawMessage { RawMessage(m.uid, m.flags, m.keywords, m.date, "") }

  predicate DistinctUids(metas: seq<Meta>) { forall i, j :: 0 <= i < j < |metas| ==> metas[i].uid != metas[j].uid }

  function Uids(metas: seq<Meta>): (uids: seq<nat>)
    ensures |uids| == |metas| && forall i :: 0 <= i < |metas| ==> uids[i] == metas[i].uid
  {
    seq(|metas|, i requires 0 <= i < |metas| => metas[i].uid)
  }

  function Itself(): nat -> nat { (n: nat) => n }

  function Command(uids: seq<nat>): string {
    "UID FETCH " + SetText(Ranges(SortBy(uids, Itself()), 0)) + " (UID BODY.PEEK[])"
  }

  lemma {:induction false} SortedAscending(s: seq<nat>)
    ensures forall i, j :: 0 <= i < j < |s| ==> SortBy(s, Itself())[i] <= SortBy(s, Itself())[j]
  {
    if s != [] {
      SortedAscending(s[1..]);
      InsertAscending(s[0], SortBy(s[1..], Itself()));
    }
  }

  lemma {:induction false} InsertAscending(x: nat, s: seq<nat>)
    requires forall i, j :: 0 <= i < j < |s| ==> s[i] <= s[j]
    ensures forall i, j :: 0 <= i < j < |Insert(x, s, Itself())| ==> Insert(x, s, Itself())[i] <= Insert(x, s, Itself())[j]
  {
    if s != [] && Itself()(x) > Itself()(s[0]) {
      InsertAscending(x, s[1..]);
      var r := Insert(x, s[1..], Itself());
      forall k | 0 <= k < |r| ensures s[0] <= r[k] {
        assert r[k] in multiset(r);
        assert r[k] == x || r[k] in multiset(s[1..]);
      }
    }
  }

  /** The command asks for exactly the UIDs of the batch. */
  lemma CommandDenotes(uids: seq<nat>, n: nat)
    requires forall i :: 0 <= i < |uids| ==> uids[i] < U32
    ensures Denotes(ParseSet(SetText(Ranges(SortBy(uids, Itself()), 0))), n) <==> n in uids
  {
    hide SortBy, Ranges, SetText, ParseSet, Denotes;
    var sorted := SortBy(uids, Itself());
    SortedAscending(uids);
    forall i | 0 <= i < |sorted| ensures sorted[i] < U32 { SameMember(sorted, uids, sorted[i]); }
    SetDenotes(sorted, n);
    if n in uids { SameMember(uids, sorted, n); }
    if n in sorted { SameMember(sorted, uids, n); }
  }

  /** The last body of each UID. */
  method ByUid(parsed: seq<FetchedBody>) returns (bodies: map<nat, string>)
    ensures forall uid :: (uid in bodies <==> LastBody(parsed, uid).Some?)
    ensures forall uid :: uid in bodies ==> LastBody(parsed, uid) == Some(bodies[uid])
  {
    bodies := map[];
    for k := 0 to |parsed|
      invariant forall uid :: (uid in bodies <==> LastBody(parsed[..k], uid).Some?)
      invariant forall uid :: uid in bodies ==> LastBody(parsed[..k], uid) == Some(bodies[uid])
    {
      assert parsed[..k + 1][..k] == parsed[..k];
      bodies := bodies[parsed[k].uid := parsed[k].rfc822];
    }
    assert parsed[..|parsed|] == parsed;
  }

  /** One command for the whole batch. Every message keeps its place; with distinct UIDs
      each gets the body delivered under its UID, and none if there was none. */
  method FetchMessages(transport: string -> Result<string>, metas: seq<Meta>) returns (r: Result<seq<RawMessage>>)
    ensures metas == [] ==> r == Ok([])
    ensures metas != [] ==> (r.Ok? <==> transport(Command(Uids(metas))).Ok?)
    ensures r.Ok? ==> |r.value| == |metas| && forall i :: 0 <= i < |metas| ==>
              r.value[i] == Blank(metas[i]).(rfc822 := r.value[i].rfc822)
    ensures r.Ok? && metas != [] && DistinctUids(metas) ==>
              var bodies := Bodies(Lines(transport(Command(Uids(metas))).value, 0));
              forall i :: 0 <= i < |metas| ==>
                r.value[i].rfc822 == match LastBody(bodies, metas[i].uid) case None => "" case Some(b) => b
  {
    hide SortBy, Ranges, SetText, Lines, Bodies, LastBody;
    var out := seq(|metas|, i requires 0 <= i < |metas| => Blank(metas[i]));
    if |metas| == 0 {
      assert out == [];
      return Ok(out);
    }
    var uids := SortBy(Uids(metas), Itself());
    var set_ := UidSet(uids);
    var response := transport("UID FETCH " + set_ + " (UID BODY.PEEK[])");
    if response.Err? {
      return Err(response.reason);
    }
    var parsed := ParseFetchBodies(response.value);
    var bodies := ByUid(parsed);
    ghost var all := bodies;
    for i := 0 to |metas|
      invariant |out| == |metas|
      invariant forall k :: 0 <= k < |metas| ==> out[k] == Blank(metas[k]).(rfc822 := out[k].rfc822)
      invariant bodies.Keys == all.Keys
      invariant forall uid :: uid in all && (forall k :: 0 <= k < i ==> metas[k].uid != uid) ==> bodies[uid] == all[uid]
      invariant DistinctUids(metas) ==> forall k :: 0 <= k < |metas| ==>
                  out[k].rfc822 == if k < i && metas[k].uid in all then all[metas[k].uid] else ""
    {
      if metas[i].uid in bodies {
        out := out[i := out[i].(rfc822 := bodies[metas[i].uid])];
        bodies := bodies[metas[i].uid := ""];
      }
    }
    return Ok(out);
  }

  lemma {:induction false} LastBodyAt(bodies: seq<FetchedBody>, j: nat)
    requires j < |bodies| && forall k :: j < k < |bodies| ==> bodies[k].uid != bodies[j].uid
    ensures LastBody(bodies, bodies[j].uid) == Some(bodies[j].rfc822)
  {
    if j < |bodies| - 1 { LastBodyAt(bodies[..|bodies| - 1], j); }
  }

  /** If the server answers with one body a message, each with a UID of its own, every
      body ends up at the message it belongs to: nothing is shifted, whatever the bodies
      contain. */
  method FetchAligned(transport: string -> Result<string>, metas: seq<Meta>, ghost numbers: seq<nat>, ghost bodies: seq<FetchedBody>)
    returns (r: Result<seq<RawMessage>>)
    requires metas != [] && DistinctUids(metas) && |numbers| == |bodies|
    requires forall k :: 0 <= k < |bodies| ==> bodies[k].uid < U32
    requires forall j, k :: 0 <= j < k < |bodies| ==> bodies[j].uid != bodies[k].uid
    requires transport(Command(Uids(metas))) == Ok(Response(Answer(numbers, bodies)))
    ensures r.Ok? && |r.value| == |metas|
    ensures forall i, j :: 0 <= i < |metas| && 0 <= j < |bodies| && bodies[j].uid == metas[i].uid ==> r.value[i].rfc822 == bodies[j].rfc822
    ensures forall i :: 0 <= i < |metas| && (forall j :: 0 <= j < |bodies| ==> bodies[j].uid != metas[i].uid) ==> r.value[i].rfc822 == ""
  {
    hide Lines, Bodies, Response, Answer, Command;
    BodiesRoundTrip(numbers, bodies);
    r := FetchMessages(transport, metas);
    forall i, j | 0 <= i < |metas| && 0 <= j < |bodies| && bodies[j].uid == metas[i].uid
      ensures LastBody(bodies, metas[i].uid) == Some(bodies[j].rfc822)
    {
      LastBodyAt(bodies, j);
    }
    forall i | 0 <= i < |metas| && (forall j :: 0 <= j < |bodies| ==> bodies[j].uid != metas[i].uid)
      ensures LastBody(bodies, metas[i].uid) == None
    {
      NoBody(bodies, metas[i].uid);
    }
  }

  lemma {:induction false} NoBody(bodies: seq<FetchedBody>, uid: nat)
    requires forall j :: 0 <= j < |bodies| ==> bodies[j].uid != uid
    ensures LastBody(bodies, uid) == None
  {
    if bodies != [] { NoBody(bodies[..|bodies| - 1], uid); }
  }
}
