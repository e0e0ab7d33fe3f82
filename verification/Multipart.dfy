/** Splitting a multipart body at its boundary lines (section 5.1.1 of RFC 2046), and the
    recursion over the parts. */
module Multipart {
  import opened Wrappers
  import opened ImapText

  const CRLF: string := "\r\n"

  function Marker(boundary: string): (m: string)
    ensures |m| >= 2 && m[0] == '-'
  {
    "--" + boundary
  }

  predicate LineStart(body: string, at: nat) { at == 0 || (at <= |body| && body[at - 1] == '\n') }

  /** A boundary line: the marker at the start of a line, whatever follows it. */
  predicate BoundaryAt(body: string, marker: string, at: nat) { Matches(body, at, marker) && LineStart(body, at) }

  /** The first boundary line from `i` on. */
  function NextBoundary(body: string, marker: string, i: nat): (r: Option<nat>)
    ensures r.Some? ==> BoundaryAt(body, marker, r.value) && i <= r.value && r.value + |marker| <= |body|
    ensures r.Some? ==> forall j :: i <= j < r.value ==> !BoundaryAt(body, marker, j)
    ensures r.None? ==> forall j :: i <= j ==> !BoundaryAt(body, marker, j)
    decreases |body| - i
  {
    if i + |marker| > |body| then None
    else if BoundaryAt(body, marker, i) then Some(i)
    else NextBoundary(body, marker, i + 1)
  }

  lemma {:induction false} NextBoundaryIs(body: string, marker: string, i: nat, at: nat)
    requires i <= at && BoundaryAt(body, marker, at) && forall j :: i <= j < at ==> !BoundaryAt(body, marker, j)
    ensures NextBoundary(body, marker, i) == Some(at)
    decreases at - i
  {
    if i < at { NextBoundaryIs(body, marker, i + 1, at); }
  }

  predicate IsFinal(body: string, marker: string, at: nat) { Matches(body, at + |marker|, "--") }

  function LineEnd(body: string, marker: string, at: nat): (e: nat)
    requires at + |marker| <= |body|
    ensures at + |marker| <= e <= |body|
  {
    var after := at + |marker| + if IsFinal(body, marker, at) then 2 else 0;
    var eol := FindChar(body, '\n', after);
    if eol == |body| then |body| else eol + 1
  }

  // ------------------------------------------------ the search with its jumps

  /** The marker can overlap itself across a line break: then the search, which goes on
      behind a whole marker, can jump over a boundary line. */
  predicate OverlapsAcrossLine(marker: string) {
    exists d :: 0 < d < |marker| && marker[d - 1] == '\n' && marker[d..] == marker[..|marker| - d]
  }

  /** The search as the code makes it. */
  function Jumping(body: string, marker: string, i: nat): (r: Option<nat>)
    requires marker != ""
    decreases |body| - i
  {
    match FindText(body, marker, i)
    case None => None
    case Some(at) => if LineStart(body, at) then Some(at) else Jumping(body, marker, at + |marker|)
  }

  method FindBoundary(body: string, boundary: string, from: nat) returns (at: Option<nat>, lineEnd: nat, isFinal: bool)
    requires from <= |body|
    ensures at == Jumping(body, Marker(boundary), from)
    ensures at.Some? ==> at.value + |Marker(boundary)| <= |body|
    ensures at.Some? ==> lineEnd == LineEnd(body, Marker(boundary), at.value) && isFinal == IsFinal(body, Marker(boundary), at.value)
  {
    hide Matches, LineStart, FindText, FindChar, Marker;
    var marker := Marker(boundary);
    var i := from;
    lineEnd, isFinal := 0, false;
    while i <= |body|
      invariant from <= i && Jumping(body, marker, from) == Jumping(body, marker, i)
      decreases |body| + 1 - i
    {
      at := FindText(body, marker, i);
      if at.None? {
        return;
      }
      FitsIn(body, marker, at.value);
      if !LineStart(body, at.value) {
        i := at.value + |marker|;
        continue;
      }
      var after := at.value + |marker|;
      isFinal := Matches(body, after, "--");
      if isFinal {
        FitsIn(body, "--", after);
        after := after + 2;
      }
      var eol := FindChar(body, '\n', after);
      lineEnd := if eol == |body| then |body| else eol + 1;
      return;
    }
    NothingLeft(body, marker, i);
    at := None;
  }

  lemma NothingLeft(body: string, marker: string, i: nat)
    requires i > |body| && marker != ""
    ensures Jumping(body, marker, i) == None
  {
  }

  /** Two occurrences of the marker that overlap. */
  lemma Overlap(body: string, marker: string, p: nat, q: nat)
    requires Matches(body, p, marker) && Matches(body, q, marker) && p < q < p + |marker|
    ensures marker[q - p..] == marker[..|marker| - (q - p)] && body[q - 1] == marker[q - p - 1]
  {
    var d := q - p;
    MatchesAt(body, p, marker, d - 1);
    forall k | 0 <= k < |marker| - d ensures marker[d..][k] == marker[..|marker| - d][k] {
      MatchesAt(body, p, marker, d + k);
      MatchesAt(body, q, marker, k);
    }
  }

  /** The jumping search finds the first boundary line in any body, unless the marker
      overlaps itself across a line break. */
  lemma {:induction false} JumpingIsNext(body: string, marker: string, i: nat)
    requires marker != "" && !OverlapsAcrossLine(marker)
    ensures Jumping(body, marker, i) == NextBoundary(body, marker, i)
    decreases |body| - i
  {
    hide Matches, LineStart;
    match FindText(body, marker, i)
    case None =>
      var n := NextBoundary(body, marker, i);
    case Some(at) =>
      FitsIn(body, marker, at);
      if LineStart(body, at) {
        NextBoundaryIs(body, marker, i, at);
      } else {
        forall j | i <= j < at + |marker| ensures !BoundaryAt(body, marker, j) {
          if j > at { NotInside(body, marker, at, j); }
        }
        JumpingIsNext(body, marker, at + |marker|);
        SkipNone(body, marker, i, at + |marker|);
      }
  }

  lemma FitsIn(body: string, marker: string, at: nat)
    requires Matches(body, at, marker)
    ensures at + |marker| <= |body|
  {
  }

  lemma NotInside(body: string, marker: string, p: nat, q: nat)
    requires Matches(body, p, marker) && p < q < p + |marker| && !OverlapsAcrossLine(marker)
    ensures !BoundaryAt(body, marker, q)
  {
    if Matches(body, q, marker) { Overlap(body, marker, p, q); }
  }

  lemma SkipNone(body: string, marker: string, i: nat, k: nat)
    requires i <= k && forall j :: i <= j < k ==> !BoundaryAt(body, marker, j)
    ensures NextBoundary(body, marker, i) == NextBoundary(body, marker, k)
  {
    hide BoundaryAt;
    var n := NextBoundary(body, marker, k);
    if n.Some? {
      NextBoundaryIs(body, marker, i, n.value);
    }
  }

  /** And only then: a marker that overlaps itself so has a body where the search goes
      wrong. */
  lemma JumpsOver(marker: string)
    requires marker != "" && marker[0] == '-' && OverlapsAcrossLine(marker)
    ensures exists body :: Jumping(body, marker, 0) != NextBoundary(body, marker, 0)
  {
    var d :| 0 < d < |marker| && marker[d - 1] == '\n' && marker[d..] == marker[..|marker| - d];
    var body := "x" + marker[..d] + marker;
    OverlappingBody(marker, d);
    hide Matches, LineStart;
    assert BoundaryAt(body, marker, d + 1);
    FirstAtOne(body, marker);
    assert FindText(body, marker, 0) == Some(1);
    var found := Jumping(body, marker, 1 + |marker|);
    JumpsFar(body, marker, 1 + |marker|);
    assert Jumping(body, marker, 0) == found;
    var n := NextBoundary(body, marker, 0);
    assert n.Some? && n.value <= d + 1;
  }

  lemma {:induction false} JumpsFar(body: string, marker: string, i: nat)
    requires marker != ""
    ensures Jumping(body, marker, i).Some? ==> Jumping(body, marker, i).value >= i
    decreases |body| - i
  {
    hide Matches;
    match FindText(body, marker, i)
    case None =>
    case Some(at) =>
      FitsIn(body, marker, at);
      if !LineStart(body, at) { JumpsFar(body, marker, at + |marker|); }
  }

  lemma FirstAtOne(body: string, marker: string)
    requires marker != "" && body != "" && Matches(body, 1, marker) && !Matches(body, 0, marker)
    ensures FindText(body, marker, 0) == Some(1)
  {
    hide Matches;
    FindTextIs(body, marker, 0, 1);
  }

  lemma OverlappingBody(marker: string, d: nat)
    requires 0 < d < |marker| && marker[d - 1] == '\n' && marker[d..] == marker[..|marker| - d] && marker[0] != 'x'
    ensures var body := "x" + marker[..d] + marker;
            && Matches(body, 1, marker) && !Matches(body, 0, marker) && !LineStart(body, 1)
            && Matches(body, d + 1, marker) && LineStart(body, d + 1)
  {
    var body := "x" + marker[..d] + marker;
    assert body[1 + d..1 + d + |marker|] == marker;
    var s := body[1..1 + |marker|];
    assert marker == marker[..d] + marker[d..];
    assert s == marker[..d] + marker[..|marker| - d];
    assert body[0..|marker|][0] == body[0] == 'x';
  }

  // ------------------------------------------------------------- splitting

  function TrimLineEnd(s: string): (r: string)
    ensures |r| <= |s|
  {
    var a := if s != "" && s[|s| - 1] == '\n' then s[..|s| - 1] else s;
    if a != "" && a[|a| - 1] == '\r' then a[..|a| - 1] else a
  }

  /** The sources of the parts of a body, from the boundary line after `cursor` on. */
  function PartsFrom(body: string, marker: string, cursor: nat, started: bool): seq<string>
    requires cursor <= |body| && marker != ""
    decreases |body| - cursor
  {
    match Jumping(body, marker, cursor)
    case None => if started && cursor < |body| then [body[cursor..]] else []
    case Some(at) =>
      JumpsFar(body, marker, cursor);
      JumpingMatches(body, marker, cursor);
      (if started then [TrimLineEnd(body[cursor..at])] else [])
      + if IsFinal(body, marker, at) then [] else PartsFrom(body, marker, LineEnd(body, marker, at), true)
  }

  function Parts(body: string, boundary: string): seq<string> { PartsFrom(body, Marker(boundary), 0, false) }

  lemma {:induction false} JumpingMatches(body: string, marker: string, i: nat)
    requires marker != ""
    ensures var r := Jumping(body, marker, i); r.Some? ==> BoundaryAt(body, marker, r.value) && r.value + |marker| <= |body|
    decreases |body| - i
  {
    hide Matches;
    match FindText(body, marker, i)
    case None =>
    case Some(at) =>
      FitsIn(body, marker, at);
      if !LineStart(body, at) { JumpingMatches(body, marker, at + |marker|); }
  }

  lemma PartsStep(body: string, marker: string, cursor: nat, started: bool)
    requires cursor <= |body| && marker != "" && Jumping(body, marker, cursor).Some?
    ensures var at := Jumping(body, marker, cursor).value;
      cursor <= at <= |body| && at + |marker| <= |body|
      && PartsFrom(body, marker, cursor, started)
         == (if started then [TrimLineEnd(body[cursor..at])] else [])
            + if IsFinal(body, marker, at) then [] else PartsFrom(body, marker, LineEnd(body, marker, at), true)
  {
    hide Jumping, LineEnd, IsFinal, TrimLineEnd;
    JumpsFar(body, marker, cursor);
    JumpingMatches(body, marker, cursor);
  }

  lemma PartsLast(body: string, marker: string, cursor: nat, started: bool)
    requires cursor <= |body| && marker != "" && Jumping(body, marker, cursor).None?
    ensures PartsFrom(body, marker, cursor, started) == if started && cursor < |body| then [body[cursor..]] else []
  {
  }

  method SplitParts(body: string, boundary: string) returns (parts: seq<string>)
    ensures parts == Parts(body, boundary)
  {
    hide PartsFrom, Jumping, Marker, LineEnd, IsFinal, TrimLineEnd;
    var marker := Marker(boundary);
    parts := [];
    var cursor, started := 0, false;
    while cursor <= |body|
      invariant cursor <= |body| && parts + PartsFrom(body, marker, cursor, started) == Parts(body, boundary)
      decreases |body| - cursor
    {
      var at, lineEnd, isFinal := FindBoundary(body, boundary, cursor);
      if at.None? {
        PartsLast(body, marker, cursor, started);
        if started && cursor < |body| {
          parts := parts + [body[cursor..]];
        }
        return;
      }
      ghost var rest := if isFinal then [] else PartsFrom(body, marker, lineEnd, true);
      PartsStep(body, marker, cursor, started);
      if started {
        Together(parts, TrimLineEnd(body[cursor..at.value]), rest);
        parts := parts + [TrimLineEnd(body[cursor..at.value])];
      }
      started := true;
      cursor := lineEnd;
      if isFinal {
        return;
      }
    }
  }

  lemma Together(a: seq<string>, x: string, b: seq<string>)
    ensures a + ([x] + b) == (a + [x]) + b
  {
  }

  // --------------------------------------------------------------- joining

  /** A boundary line's padding and the part behind it. */
  datatype Section = Section(padding: string, text: string)

  /** From the first boundary line on: each part between two of them, the last closed by
      "--" with anything behind it. */
  function Joined(marker: string, sections: seq<Section>, epilogue: string): string {
    if sections == [] then marker + "--" + epilogue
    else marker + sections[0].padding + CRLF + sections[0].text + CRLF + Joined(marker, sections[1..], epilogue)
  }

  predicate OnOneLine(s: string) { forall i :: 0 <= i < |s| ==> s[i] != '\n' && s[i] != '\r' }

  /** No line of the text starts with the marker. */
  predicate NoMarkerLine(marker: string, text: string) {
    forall i :: 0 <= i <= |text| && LineStart(text, i) ==> !Matches(text, i, marker)
  }

  predicate SectionOk(marker: string, s: Section) {
    OnOneLine(s.padding) && !Matches(s.padding, 0, "--") && NoMarkerLine(marker, s.text)
  }

  function Texts(sections: seq<Section>): (ts: seq<string>)
    ensures |ts| == |sections| && forall i :: 0 <= i < |ts| ==> ts[i] == sections[i].text
  {
    seq(|sections|, i requires 0 <= i < |sections| => sections[i].text)
  }

  lemma JoinedStarts(marker: string, sections: seq<Section>, epilogue: string)
    ensures exists more :: Joined(marker, sections, epilogue) == marker + more
  {
    if sections == [] {
      assert Joined(marker, sections, epilogue) == marker + ("--" + epilogue);
    } else {
      var s, rest := sections[0], Joined(marker, sections[1..], epilogue);
      assert Joined(marker, sections, epilogue) == marker + (s.padding + CRLF + s.text + CRLF + rest);
    }
  }

  /** A marker starts no line of a text that has none, nor its line end. */
  lemma NoneInside(body: string, marker: string, c: nat, text: string, q: nat)
    requires marker != "" && marker[0] == '-' && OnOneLine(marker) && NoMarkerLine(marker, text)
    requires Matches(body, c, text + CRLF) && LineStart(body, c) && c <= q < c + |text| + 2
    ensures !BoundaryAt(body, marker, q)
  {
    var s, k := text + CRLF, q - c;
    MatchesAt(body, c, s, k);
    if k < |text| && Matches(body, q, marker) {
      if k > 0 { MatchesAt(body, c, s, k - 1); }
      if k + |marker| <= |text| {
        InText(body, marker, c, text, k);
      } else {
        CrossesEnd(body, marker, c, text, k);
      }
    }
    if k >= |text| { FirstDiffers(body, q, marker); }
  }

  lemma FirstDiffers(s: string, i: nat, a: string)
    requires a != "" && i < |s| && s[i] != a[0]
    ensures !Matches(s, i, a)
  {
    if i + |a| <= |s| { assert s[i..i + |a|][0] == s[i]; }
  }

  lemma InText(body: string, marker: string, c: nat, text: string, k: nat)
    requires Matches(body, c, text + CRLF) && Matches(body, c + k, marker) && k + |marker| <= |text|
    ensures Matches(text, k, marker)
  {
    var s := text + CRLF;
    forall j | 0 <= j < |marker| ensures text[k..k + |marker|][j] == marker[j] {
      MatchesAt(body, c, s, k + j);
      MatchesAt(body, c + k, marker, j);
    }
  }

  lemma CrossesEnd(body: string, marker: string, c: nat, text: string, k: nat)
    requires Matches(body, c, text + CRLF) && Matches(body, c + k, marker) && k <= |text| < k + |marker|
    ensures !OnOneLine(marker)
  {
    MatchesAt(body, c, text + CRLF, |text|);
    MatchesAt(body, c + k, marker, |text| - k);
  }

  /** A boundary line with more behind it is not the last, and ends behind its padding. */
  lemma DelimiterReads(body: string, marker: string, at: nat, padding: string)
    requires OnOneLine(padding) && !Matches(padding, 0, "--") && at + |marker| <= |body|
    requires Matches(body, at + |marker|, padding) && Matches(body, at + |marker| + |padding|, CRLF)
    ensures at + |marker| + |padding| + 2 <= |body| && !IsFinal(body, marker, at)
    ensures LineEnd(body, marker, at) == at + |marker| + |padding| + 2
  {
    var from := at + |marker|;
    MatchesAt(body, from + |padding|, CRLF, 0);
    MatchesAt(body, from + |padding|, CRLF, 1);
    forall k | 0 <= k < |padding| ensures body[from + k] == padding[k] { MatchesAt(body, from, padding, k); }
    NotFinal(body, marker, at, padding);
    forall j | from <= j < from + |padding| + 1 ensures body[j] != '\n' {
      if j < from + |padding| { assert body[from + (j - from)] == padding[j - from]; }
    }
    FindCharIs(body, '\n', from, from + |padding| + 1);
  }

  lemma NotFinal(body: string, marker: string, at: nat, padding: string)
    requires !Matches(padding, 0, "--") && at + |marker| + |padding| + 2 <= |body|
    requires forall k :: 0 <= k < |padding| ==> body[at + |marker| + k] == padding[k]
    requires body[at + |marker| + |padding|] == '\r'
    ensures !IsFinal(body, marker, at)
  {
    var from := at + |marker|;
    var two := body[from..from + 2];
    assert two[0] == body[from] && two[1] == body[from + 1];
    if |padding| >= 2 {
      assert padding[0..2][0] == padding[0] && padding[0..2][1] == padding[1];
      assert body[from + 0] == padding[0] && body[from + 1] == padding[1];
      assert padding[0..2] == two;
    } else if |padding| == 1 {
      assert body[from + 0] == padding[0];
    }
  }

  lemma TrimCrlf(text: string)
    ensures TrimLineEnd(text + CRLF) == text
  {
    var s := text + CRLF;
    assert s[|s| - 1] == '\n' && s[|s| - 2] == '\r';
    assert s[..|s| - 1][..|s| - 2] == text;
  }

  lemma Unnested(marker: string)
    requires OnOneLine(marker)
    ensures !OverlapsAcrossLine(marker)
  {
  }

  /** The pieces of a section lie one behind the other. */
  lemma SectionParts(body: string, marker: string, at: nat, s: Section, rest: string)
    requires Matches(body, at, marker + s.padding + CRLF + s.text + CRLF + rest)
    ensures Matches(body, at, marker) && Matches(body, at + |marker|, s.padding) && Matches(body, at + |marker| + |s.padding|, CRLF)
    ensures Matches(body, at + |marker| + |s.padding| + 2, s.text + CRLF)
    ensures Matches(body, at + |marker| + |s.padding| + 2 + |s.text| + 2, rest)
  {
    hide Matches;
    var a, b := marker + s.padding + CRLF, s.text + CRLF;
    assert a + s.text + CRLF == a + b;
    MatchesSplit(body, at, a + b, rest);
    MatchesSplit(body, at, a, b);
    MatchesSplit(body, at, marker + s.padding, CRLF);
    MatchesSplit(body, at, marker, s.padding);
  }

  /** From one boundary line to the end: the parts are the sections' texts. */
  lemma {:induction false} SectionsSplit(body: string, marker: string, cursor: nat, at: nat, sections: seq<Section>, epilogue: string,
                                         started: bool)
    requires cursor <= at <= |body| && marker != "" && marker[0] == '-' && OnOneLine(marker)
    requires forall k :: 0 <= k < |sections| ==> SectionOk(marker, sections[k])
    requires Jumping(body, marker, cursor) == Some(at) && Matches(body, at, Joined(marker, sections, epilogue))
    ensures PartsFrom(body, marker, cursor, started)
            == (if started then [TrimLineEnd(body[cursor..at])] else []) + Texts(sections)
    decreases |sections|
  {
    hide Matches, Jumping, TrimLineEnd, OnOneLine, LineEnd, IsFinal, LineStart, NoMarkerLine;
    JumpingMatches(body, marker, cursor);
    if sections == [] {
      LastSection(body, marker, at, epilogue);
      assert Texts(sections) == [];
    } else {
      var s, rest := sections[0], Joined(marker, sections[1..], epilogue);
      assert SectionOk(marker, s);
      SectionParts(body, marker, at, s, rest);
      DelimiterReads(body, marker, at, s.padding);
      var c := at + |marker| + |s.padding| + 2;
      var n := c + |s.text| + 2;
      NextSection(body, marker, at, c, s, sections[1..], epilogue);
      SectionsSplit(body, marker, c, n, sections[1..], epilogue, true);
      TextBetween(body, c, s.text);
      TrimCrlf(s.text);
      assert Texts(sections) == [s.text] + Texts(sections[1..]);
    }
  }

  lemma TextBetween(body: string, c: nat, text: string)
    requires Matches(body, c, text + CRLF)
    ensures c + |text| + 2 <= |body| && body[c..c + |text| + 2] == text + CRLF
  {
    assert |text + CRLF| == |text| + 2;
  }

  lemma LastSection(body: string, marker: string, at: nat, epilogue: string)
    requires Matches(body, at, marker + "--" + epilogue)
    ensures IsFinal(body, marker, at)
  {
    MatchesSplit(body, at, marker + "--", epilogue);
    MatchesSplit(body, at, marker, "--");
  }

  /** The search goes from the start of a part to the boundary line behind it. */
  lemma NextSection(body: string, marker: string, at: nat, c: nat, s: Section, rest: seq<Section>, epilogue: string)
    requires marker != "" && marker[0] == '-' && OnOneLine(marker) && NoMarkerLine(marker, s.text)
    requires c >= 2 && Matches(body, c - 2, CRLF) && Matches(body, c, s.text + CRLF)
    requires Matches(body, c + |s.text| + 2, Joined(marker, rest, epilogue))
    ensures Jumping(body, marker, c) == Some(c + |s.text| + 2) && c + |s.text| + 2 <= |body|
  {
    hide Matches, Jumping, NoMarkerLine, Joined;
    var n := c + |s.text| + 2;
    TextBetween(body, c, s.text);
    MatchesAt(body, c - 2, CRLF, 1);
    MatchesAt(body, c, s.text + CRLF, |s.text| + 1);
    JoinedStarts(marker, rest, epilogue);
    var more :| Joined(marker, rest, epilogue) == marker + more;
    MatchesSplit(body, n, marker, more);
    forall q | c <= q < n ensures !BoundaryAt(body, marker, q) { NoneInside(body, marker, c, s.text, q); }
    NextBoundaryIs(body, marker, c, n);
    Unnested(marker);
    JumpingIsNext(body, marker, c);
  }

  /** Splitting undoes joining: whatever comes before the first boundary line and behind
      the last is dropped, and the parts come back as they were. The preamble is empty or
      whole lines, none of them a boundary line. */
  lemma SplitUndoesJoin(boundary: string, preamble: string, sections: seq<Section>, epilogue: string)
    requires OnOneLine(boundary) && (forall k :: 0 <= k < |sections| ==> SectionOk(Marker(boundary), sections[k]))
    requires preamble == "" || (preamble[|preamble| - 1] == '\n' && NoMarkerLine(Marker(boundary), preamble))
    ensures Parts(preamble + Joined(Marker(boundary), sections, epilogue), boundary) == Texts(sections)
  {
    hide Matches, Jumping, NoMarkerLine, Joined, PartsFrom;
    var marker := Marker(boundary);
    var joined := Joined(marker, sections, epilogue);
    var body, at := preamble + joined, |preamble|;
    WholeMatches(preamble, joined);
    JoinedStarts(marker, sections, epilogue);
    var more :| joined == marker + more;
    MatchesSplit(body, at, marker, more);
    MarkerOnOneLine(boundary);
    Unnested(marker);
    forall q | 0 <= q < at ensures !BoundaryAt(body, marker, q) { NoneInPreamble(preamble, joined, marker, q); }
    NextBoundaryIs(body, marker, 0, at);
    JumpingIsNext(body, marker, 0);
    SectionsSplit(body, marker, 0, at, sections, epilogue, false);
    assert [] + Texts(sections) == Texts(sections);
  }

  lemma WholeMatches(a: string, b: string)
    ensures Matches(a + b, |a|, b)
  {
  }

  lemma MarkerOnOneLine(boundary: string)
    requires OnOneLine(boundary)
    ensures OnOneLine(Marker(boundary))
  {
  }

  lemma NoneInPreamble(preamble: string, rest: string, marker: string, q: nat)
    requires preamble != "" && preamble[|preamble| - 1] == '\n' && NoMarkerLine(marker, preamble) && OnOneLine(marker) && marker != ""
    requires q < |preamble|
    ensures !BoundaryAt(preamble + rest, marker, q)
  {
    var body := preamble + rest;
    assert LineStart(body, q) == LineStart(preamble, q);
    assert !LineStart(preamble, q) || !Matches(preamble, q, marker);
    if Matches(body, q, marker) {
      if q + |marker| <= |preamble| {
        assert preamble[q..q + |marker|] == body[q..q + |marker|];
      } else {
        MatchesAt(body, q, marker, |preamble| - 1 - q);
      }
    }
  }

  // ------------------------------------------------------------- recursion

  const MAX_DEPTH: nat := 8

  /** What the header of a source says: how to take it apart, and what its body is. */
  datatype Kind = Multi(boundary: string, body: string) | Wrapped(body: string) | Leaf

  datatype Entity = Entity(source: string, parts: seq<Entity>)

  /** The tree below a source. Header parsing is given by `kind`. */
  function Tree(kind: string -> Kind, source: string, depth: nat): (e: Entity)
    ensures e.source == source
    decreases if depth <= MAX_DEPTH then MAX_DEPTH - depth else 0, 1, 0
  {
    if depth >= MAX_DEPTH then Entity(source, [])
    else
      match kind(source)
      case Multi(boundary, body) =>
        if boundary == "" then Entity(source, []) else Entity(source, Trees(kind, Parts(body, boundary), depth + 1))
      case Wrapped(body) => Entity(source, [Tree(kind, body, depth + 1)])
      case Leaf => Entity(source, [])
  }

  function Trees(kind: string -> Kind, sources: seq<string>, depth: nat): (es: seq<Entity>)
    ensures |es| == |sources| && forall i :: 0 <= i < |es| ==> es[i].source == sources[i]
    decreases if depth <= MAX_DEPTH then MAX_DEPTH - depth else 0, 2, |sources|
  {
    if sources == [] then [] else [Tree(kind, sources[0], depth)] + Trees(kind, sources[1..], depth)
  }

  function Height(e: Entity): nat
    decreases e, 0
  {
    HeightAll(e.parts)
  }

  function HeightAll(es: seq<Entity>): nat
    decreases es, 0
  {
    if es == [] then 0
    else
      var a, b := 1 + Height(es[0]), HeightAll(es[1..]);
      if a > b then a else b
  }

  lemma HeightOne(e: Entity)
    ensures HeightAll([e]) == 1 + Height(e)
  {
  }

  /** However deeply a message nests, the tree stops at the limit. */
  lemma {:induction false} DepthBounded(kind: string -> Kind, source: string, depth: nat)
    requires depth <= MAX_DEPTH
    ensures Height(Tree(kind, source, depth)) <= MAX_DEPTH - depth
    decreases MAX_DEPTH - depth, 1, 0
  {
    hide Parts;
    if depth < MAX_DEPTH {
      match kind(source)
      case Multi(boundary, body) => if boundary != "" { AllBounded(kind, Parts(body, boundary), depth + 1); }
      case Wrapped(body) =>
        DepthBounded(kind, body, depth + 1);
        HeightOne(Tree(kind, body, depth + 1));
      case Leaf =>
    }
  }

  lemma {:induction false} AllBounded(kind: string -> Kind, sources: seq<string>, depth: nat)
    requires depth <= MAX_DEPTH
    ensures HeightAll(Trees(kind, sources, depth)) <= MAX_DEPTH + 1 - depth
    decreases MAX_DEPTH - depth, 2, |sources|
  {
    if sources != [] {
      DepthBounded(kind, sources[0], depth);
      AllBounded(kind, sources[1..], depth);
      assert Trees(kind, sources, depth)[1..] == Trees(kind, sources[1..], depth);
    }
  }

  /** The recursive parser. */
  method ParseEntity(kind: string -> Kind, source: string, depth: nat) returns (e: Entity)
    ensures e == Tree(kind, source, depth)
    decreases if depth <= MAX_DEPTH then MAX_DEPTH - depth else 0
  {
    hide Parts, Trees;
    var k := kind(source);
    if k.Multi? && depth < MAX_DEPTH {
      if k.boundary != "" {
        var sources := SplitParts(k.body, k.boundary);
        var parts: seq<Entity> := [];
        NoTrees(kind, depth + 1);
        for i := 0 to |sources|
          invariant parts == Trees(kind, sources[..i], depth + 1)
        {
          var part := ParseEntity(kind, sources[i], depth + 1);
          TreesSnoc(kind, sources, i, depth + 1);
          parts := parts + [part];
        }
        assert sources[..|sources|] == sources;
        return Entity(source, parts);
      }
    }
    if k.Wrapped? && depth < MAX_DEPTH {
      var part := ParseEntity(kind, k.body, depth + 1);
      return Entity(source, [part]);
    }
    return Entity(source, []);
  }

  lemma NoTrees(kind: string -> Kind, depth: nat)
    ensures Trees(kind, [], depth) == []
  {
  }

  lemma {:induction false} TreesSnoc(kind: string -> Kind, sources: seq<string>, i: nat, depth: nat)
    requires i < |sources|
    ensures Trees(kind, sources[..i + 1], depth) == Trees(kind, sources[..i], depth) + [Tree(kind, sources[i], depth)]
    decreases i
  {
    hide Tree;
    if i == 0 {
      assert sources[..1][1..] == [] && sources[..0] == [];
    } else {
      assert sources[..i + 1][1..] == sources[1..][..i] && sources[..i][1..] == sources[1..][..i - 1];
      TreesSnoc(kind, sources[1..], i - 1, depth);
    }
  }

  /** A composed multipart is taken apart into exactly its parts. */
  lemma PartsOfComposed(kind: string -> Kind, source: string, depth: nat, boundary: string, preamble: string, sections: seq<Section>,
                        epilogue: string)
    requires depth < MAX_DEPTH && boundary != "" && OnOneLine(boundary)
    requires forall k :: 0 <= k < |sections| ==> SectionOk(Marker(boundary), sections[k])
    requires preamble == "" || (preamble[|preamble| - 1] == '\n' && NoMarkerLine(Marker(boundary), preamble))
    requires kind(source) == Multi(boundary, preamble + Joined(Marker(boundary), sections, epilogue))
    ensures |Tree(kind, source, depth).parts| == |sections|
    ensures forall i :: 0 <= i < |sections| ==> Tree(kind, source, depth).parts[i] == Tree(kind, sections[i].text, depth + 1)
  {
    hide Parts, Joined, SectionOk, NoMarkerLine, OnOneLine;
    SplitUndoesJoin(boundary, preamble, sections, epilogue);
    forall i | 0 <= i < |sections| ensures Tree(kind, source, depth).parts[i] == Tree(kind, sections[i].text, depth + 1) {
      TreesAt(kind, Texts(sections), i, depth + 1);
    }
  }

  lemma {:induction false} TreesAt(kind: string -> Kind, sources: seq<string>, i: nat, depth: nat)
    requires i < |sources|
    ensures Trees(kind, sources, depth)[i] == Tree(kind, sources[i], depth)
    decreases i
  {
    hide Tree;
    if i > 0 { TreesAt(kind, sources[1..], i - 1, depth); }
  }

  // ------------------------------------------------------- whole messages

  /** A message as it was put together: the header of each level, and the messages inside. */
  datatype Composed =
    | Plain(source: string)
    | Around(header: string, inner: Composed)
    | Mixed(header: string, boundary: string, preamble: string, parts: seq<Part>, epilogue: string)

  datatype Part = Part(padding: string, entity: Composed)

  function Render(c: Composed): string
    decreases c, 1
  {
    match c
    case Plain(source) => source
    case Around(header, inner) => header + Render(inner)
    case Mixed(header, boundary, _, _, _) => header + MixedBody(c)
  }

  function MixedBody(c: Composed): string
    requires c.Mixed?
    decreases c, 0
  {
    c.preamble + Joined(Marker(c.boundary), Sections(c.parts), c.epilogue)
  }

  function Sections(parts: seq<Part>): (s: seq<Section>)
    ensures |s| == |parts|
    decreases parts
  {
    if parts == [] then [] else [Section(parts[0].padding, Render(parts[0].entity))] + Sections(parts[1..])
  }

  /** The headers say how the message was put together, and no part holds its boundary. */
  predicate ComposedOk(kind: string -> Kind, c: Composed)
    decreases c, 1
  {
    match c
    case Plain(source) => kind(source).Leaf? || (kind(source).Multi? && kind(source).boundary == "")
    case Around(_, inner) => kind(Render(c)) == Wrapped(Render(inner)) && ComposedOk(kind, inner)
    case Mixed(_, boundary, preamble, parts, epilogue) =>
      kind(Render(c)) == Multi(boundary, MixedBody(c)) && boundary != "" && OnOneLine(boundary)
      && (preamble == "" || (preamble[|preamble| - 1] == '\n' && NoMarkerLine(Marker(boundary), preamble)))
      && (forall k :: 0 <= k < |parts| ==> SectionOk(Marker(boundary), Sections(parts)[k]))
      && PartsOk(kind, parts)
  }

  predicate PartsOk(kind: string -> Kind, parts: seq<Part>)
    decreases parts
  {
    parts == [] || (ComposedOk(kind, parts[0].entity) && PartsOk(kind, parts[1..]))
  }

  /** The tree a message was put together as. */
  function Shape(c: Composed): (e: Entity)
    ensures e.source == Render(c)
    decreases c
  {
    match c
    case Plain(source) => Entity(source, [])
    case Around(_, inner) => Entity(Render(c), [Shape(inner)])
    case Mixed(_, _, _, parts, _) => Entity(Render(c), Shapes(parts))
  }

  function Shapes(parts: seq<Part>): (es: seq<Entity>)
    ensures |es| == |parts|
    decreases parts
  {
    if parts == [] then [] else [Shape(parts[0].entity)] + Shapes(parts[1..])
  }

  /** A tree without what lies more than `n` levels below its root. */
  function Cut(e: Entity, n: nat): Entity
    decreases n, 0
  {
    Entity(e.source, if n == 0 then [] else CutAll(e.parts, n - 1))
  }

  function CutAll(es: seq<Entity>, n: nat): seq<Entity>
    decreases n, 1, |es|
  {
    if es == [] then [] else [Cut(es[0], n)] + CutAll(es[1..], n)
  }

  /** Cutting leaves a tree as it is exactly when it is no higher than that. */
  lemma {:induction false} CutKeeps(e: Entity, n: nat)
    ensures Cut(e, n) == e <==> Height(e) <= n
    decreases n, 0
  {
    if n == 0 {
      if e.parts != [] { assert HeightAll(e.parts) >= 1; }
    } else {
      CutAllKeeps(e.parts, n - 1);
    }
  }

  lemma {:induction false} CutAllKeeps(es: seq<Entity>, n: nat)
    ensures CutAll(es, n) == es <==> HeightAll(es) <= n + 1
    decreases n, 1, |es|
  {
    if es != [] {
      CutKeeps(es[0], n);
      CutAllKeeps(es[1..], n);
      assert [es[0]] + es[1..] == es;
      assert CutAll(es, n) == es <==> Cut(es[0], n) == es[0] && CutAll(es[1..], n) == es[1..] by {
        assert CutAll(es, n)[0] == Cut(es[0], n) && CutAll(es, n)[1..] == CutAll(es[1..], n);
      }
    }
  }

  lemma TreeUnfolds(kind: string -> Kind, source: string, depth: nat)
    requires depth < MAX_DEPTH
    ensures Tree(kind, source, depth)
      == Entity(source, match kind(source)
                        case Multi(boundary, body) => if boundary == "" then [] else Trees(kind, Parts(body, boundary), depth + 1)
                        case Wrapped(body) => [Tree(kind, body, depth + 1)]
                        case Leaf => [])
  {
    hide Parts;
  }

  /** Parsing what was composed gives its tree, as far as the depth limit lets it. */
  lemma {:induction false} TreeOfComposed(kind: string -> Kind, c: Composed, depth: nat)
    requires ComposedOk(kind, c) && depth <= MAX_DEPTH
    ensures Tree(kind, Render(c), depth) == Cut(Shape(c), MAX_DEPTH - depth)
    decreases c
  {
    hide Tree, Trees, MixedBody, Sections, Parts, Joined, SectionOk, NoMarkerLine, OnOneLine, Marker;
    if depth == MAX_DEPTH {
      TreeEnds(kind, Render(c));
    } else {
      TreeUnfolds(kind, Render(c), depth);
      match c
      case Plain(_) =>
      case Around(_, inner) =>
        TreeOfComposed(kind, inner, depth + 1);
        CutOne(Shape(inner), MAX_DEPTH - depth - 1);
      case Mixed(_, boundary, _, parts, _) =>
        BodyParts(c);
        TreesOfComposed(kind, parts, depth + 1);
    }
  }

  lemma TreeEnds(kind: string -> Kind, source: string)
    ensures Tree(kind, source, MAX_DEPTH) == Entity(source, [])
  {
  }

  lemma BodyParts(c: Composed)
    requires c.Mixed? && c.boundary != "" && OnOneLine(c.boundary)
    requires c.preamble == "" || (c.preamble[|c.preamble| - 1] == '\n' && NoMarkerLine(Marker(c.boundary), c.preamble))
    requires forall k :: 0 <= k < |c.parts| ==> SectionOk(Marker(c.boundary), Sections(c.parts)[k])
    ensures Parts(MixedBody(c), c.boundary) == Texts(Sections(c.parts))
  {
    hide Parts, Joined, SectionOk, NoMarkerLine, OnOneLine, Marker;
    SplitUndoesJoin(c.boundary, c.preamble, Sections(c.parts), c.epilogue);
  }

  lemma CutOne(e: Entity, n: nat)
    ensures CutAll([e], n) == [Cut(e, n)]
  {
  }

  lemma {:induction false} TreesOfComposed(kind: string -> Kind, parts: seq<Part>, depth: nat)
    requires PartsOk(kind, parts) && depth <= MAX_DEPTH
    ensures Trees(kind, Texts(Sections(parts)), depth) == CutAll(Shapes(parts), MAX_DEPTH - depth)
    decreases parts
  {
    hide Tree, Cut, Render, Shape, ComposedOk;
    if parts != [] {
      TreeOfComposed(kind, parts[0].entity, depth);
      TreesOfComposed(kind, parts[1..], depth);
      TextsStep(parts);
      ShapesStep(parts);
    }
  }

  lemma TextsStep(parts: seq<Part>)
    requires parts != []
    ensures Texts(Sections(parts)) == [Render(parts[0].entity)] + Texts(Sections(parts[1..]))
  {
    hide Render;
  }

  lemma ShapesStep(parts: seq<Part>)
    requires parts != []
    ensures Shapes(parts)[0] == Shape(parts[0].entity) && Shapes(parts)[1..] == Shapes(parts[1..])
  {
    hide Shape;
  }

  /** A message comes back as it was put together exactly when it nests no deeper than the limit. */
  lemma ComposedRoundTrip(kind: string -> Kind, c: Composed)
    requires ComposedOk(kind, c)
    ensures Tree(kind, Render(c), 0) == Shape(c) <==> Height(Shape(c)) <= MAX_DEPTH
  {
    TreeOfComposed(kind, c, 0);
    CutKeeps(Shape(c), MAX_DEPTH);
  }
}
