/** Reading the bodies out of a FETCH response (section 7.4.2 of RFC 3501). */
module ImapFetch {
  import opened Wrappers
  import opened ImapText
  import opened ImapLines

  const U32: nat := 0x1_0000_0000

  // ------------------------------------------------------------- astrings

  predicate IsBlank(c: char) { c == ' ' || c == '\t' }

  function SkipSpace(s: string, i: nat): (j: nat)
    requires i <= |s|
    ensures i <= j <= |s| && (j < |s| ==> !IsBlank(s[j]))
    decreases |s| - i
  {
    if i < |s| && IsBlank(s[i]) then SkipSpace(s, i + 1) else i
  }

  /** The characters that end an atom. */
  predicate EndsAtom(c: char) { c == ' ' || c == '\r' || c == '\n' || c == '(' || c == ')' }

  function AtomEnd(s: string, i: nat): (j: nat)
    requires i <= |s|
    ensures i <= j <= |s| && (j < |s| ==> EndsAtom(s[j])) && forall k :: i <= k < j ==> !EndsAtom(s[k])
    decreases |s| - i
  {
    if i < |s| && !EndsAtom(s[i]) then AtomEnd(s, i + 1) else i
  }

  /** A quoted string from behind its opening quote: what it says and where it ends. */
  function Quoted(s: string, i: nat): (p: (string, nat))
    requires i <= |s|
    ensures i <= p.1 <= |s|
    decreases |s| - i
  {
    if i == |s| then ("", i)
    else if s[i] == '"' then ("", i + 1)
    else
      var k := if s[i] == '\\' && i + 1 < |s| then i + 1 else i;
      var (text, j) := Quoted(s, k + 1);
      ([s[k]] + text, j)
  }

  function Escaped(c: char): string { if c == '"' || c == '\\' then ['\\', c] else [c] }

  /** The quoted form of a text: quotes and backslashes behind a backslash. */
  function Escape(text: string): string { if text == "" then "" else Escaped(text[0]) + Escape(text[1..]) }

  lemma QuotedStep(s: string, i: nat, c: char)
    requires i + |Escaped(c)| <= |s| && forall k :: 0 <= k < |Escaped(c)| ==> s[i + k] == Escaped(c)[k]
    ensures Quoted(s, i) == ([c] + Quoted(s, i + |Escaped(c)|).0, Quoted(s, i + |Escaped(c)|).1)
  {
    assert s[i + 0] == Escaped(c)[0];
    if |Escaped(c)| == 2 { assert s[i + 1] == Escaped(c)[1]; }
  }

  lemma QuotedEnds(s: string, i: nat)
    requires i < |s| && s[i] == '"'
    ensures Quoted(s, i) == ("", i + 1)
  {
  }

  /** Reading undoes quoting, whatever the text and whatever follows. */
  lemma {:induction false} QuotedReads(before: string, text: string, rest: string)
    ensures Quoted(before + Escape(text) + ['"'] + rest, |before|) == (text, |before| + |Escape(text)| + 1)
    decreases |text|
  {
    hide Quoted, Escaped;
    var s := before + Escape(text) + ['"'] + rest;
    if text == "" {
      QuotedEnds(s, |before|);
    } else {
      var head := Escaped(text[0]);
      assert s == (before + head) + Escape(text[1..]) + ['"'] + rest;
      QuotedReads(before + head, text[1..], rest);
      QuotedStep(s, |before|, text[0]);
      assert [text[0]] + text[1..] == text;
    }
  }

  /** So a quoted text is read back as it was, from its opening quote. */
  lemma QuotedRoundTrip(before: string, text: string, rest: string)
    ensures ReadAstring(before + ['"'] + Escape(text) + ['"'] + rest, |before|) == Found(text, |before| + |Escape(text)| + 2)
  {
    var s := before + ['"'] + Escape(text) + ['"'] + rest;
    assert s[|before|] == '"';
    QuotedReads(before + ['"'], text, rest);
  }

  datatype Astring = Found(text: string, next: nat) | Missing(at: nat)

  /** A quoted string, a literal, or an atom; what is missing leaves the position behind
      the blanks. */
  function ReadAstring(s: string, i: nat): (r: Astring)
    requires i <= |s|
    ensures r.Found? ==> i < r.next <= |s|
    ensures r.Missing? ==> i <= r.at <= |s|
  {
    var at := SkipSpace(s, i);
    if at == |s| then Missing(at)
    else if s[at] == '"' then var (text, next) := Quoted(s, at + 1); Found(text, next)
    else if s[at] == '{' then
      var close := FindChar(s, '}', at);
      if close == |s| then Missing(at)
      else
        var n := Number(s[at + 1..]);
        var a := close + 1;
        var b := if a < |s| && s[a] == '\r' then a + 1 else a;
        var start := if b < |s| && s[b] == '\n' then b + 1 else b;
        if start + n > |s| then Missing(at) else Found(s[start..start + n], start + n)
    else
      var end := AtomEnd(s, at);
      if end == at then Missing(at) else Found(s[at..end], end)
  }

  // ------------------------------------------------------------ attributes

  datatype Seen = Seen(uid: Option<nat>, body: Option<string>)

  predicate IsBodyKey(key: string) { Matches(Lower(key), 0, "body[") || Lower(key) == "rfc822" }

  /** The attributes of a FETCH line from `i` on. A value that cannot be read ends the
      line, unless it was a UID's or a body's. */
  function Attributes(s: string, i: nat, seen: Seen): Seen
    requires i <= |s|
    decreases |s| - i
  {
    var at := SkipSpace(s, i);
    if at == |s| then seen
    else if s[at] == '(' || s[at] == ')' then Attributes(s, at + 1, seen)
    else
      match ReadAstring(s, at)
      case Missing(_) => seen
      case Found(key, next) =>
        match ReadAstring(s, next)
        case Missing(behind) =>
          if Lower(key) == "uid" || IsBodyKey(key) then Attributes(s, behind, seen) else seen
        case Found(value, after) =>
          if Lower(key) == "uid" then Attributes(s, after, seen.(uid := Some(Number(value) % U32)))
          else if IsBodyKey(key) then Attributes(s, after, seen.(body := Some(value)))
          else Attributes(s, after, seen)
  }

  datatype FetchedBody = FetchedBody(uid: nat, rfc822: string)

  const FETCH: string := " fetch "

  /** The body a line delivers, if it names a message and delivers one. */
  function BodyOf(line: string): Option<FetchedBody> {
    if line == "" || line[0] != '*' then None
    else
      match FindText(Lower(line), FETCH, 0)
      case None => None
      case Some(fetch) =>
        var seen := Attributes(line, fetch + 7, Seen(None, None));
        if seen.uid.Some? && seen.body.Some? then Some(FetchedBody(seen.uid.value, seen.body.value)) else None
  }

  function Bodies(lines: seq<string>): seq<FetchedBody> {
    if lines == [] then []
    else
      match BodyOf(lines[0])
      case None => Bodies(lines[1..])
      case Some(b) => [b] + Bodies(lines[1..])
  }

  // --------------------------------------------------------------- the code

  method ReadQuoted(s: string, start: nat) returns (text: string, i: nat)
    requires start <= |s|
    ensures (text, i) == Quoted(s, start)
  {
    hide Quoted;
    text, i := "", start;
    assert "" + Quoted(s, start).0 == Quoted(s, start).0;
    while i < |s| && s[i] != '"'
      invariant start <= i <= |s|
      invariant Quoted(s, start) == (text + Quoted(s, i).0, Quoted(s, i).1)
      decreases |s| - i
    {
      QuotedTakes(s, i, text);
      if s[i] == '\\' && i + 1 < |s| {
        i := i + 1;
      }
      text := text + [s[i]];
      i := i + 1;
    }
    assert text + "" == text;
    QuotedStops(s, i);
    if i < |s| {
      i := i + 1;
    }
  }

  /** One character more of a quoted string. */
  lemma QuotedTakes(s: string, i: nat, text: string)
    requires i < |s| && s[i] != '"'
    ensures var k := if s[i] == '\\' && i + 1 < |s| then i + 1 else i;
            text + Quoted(s, i).0 == (text + [s[k]]) + Quoted(s, k + 1).0 && Quoted(s, i).1 == Quoted(s, k + 1).1
  {
    var k := if s[i] == '\\' && i + 1 < |s| then i + 1 else i;
    assert Quoted(s, i) == ([s[k]] + Quoted(s, k + 1).0, Quoted(s, k + 1).1);
    assert text + ([s[k]] + Quoted(s, k + 1).0) == (text + [s[k]]) + Quoted(s, k + 1).0;
  }

  lemma QuotedStops(s: string, i: nat)
    requires i == |s| || (i < |s| && s[i] == '"')
    ensures Quoted(s, i) == ("", if i < |s| then i + 1 else i)
  {
  }

  /** One value. */
  method ReadValue(s: string, start: nat) returns (r: Astring)
    requires start <= |s|
    ensures r == ReadAstring(s, start)
  {
    hide Quoted, Number, SkipSpace, AtomEnd, FindChar, IsBlank, EndsAtom;
    var at := SkipSpace(s, start);
    if at == |s| {
      return Missing(at);
    }
    if s[at] == '"' {
      var text, next := ReadQuoted(s, at + 1);
      return Found(text, next);
    }
    if s[at] == '{' {
      var close := FindChar(s, '}', at);
      if close == |s| {
        return Missing(at);
      }
      var n := Number(s[at + 1..]);
      var body := close + 1;
      if body < |s| && s[body] == '\r' { body := body + 1; }
      if body < |s| && s[body] == '\n' { body := body + 1; }
      if body + n > |s| {
        return Missing(at);
      }
      return Found(s[body..body + n], body + n);
    }
    var end := AtomEnd(s, at);
    if end == at {
      return Missing(at);
    }
    return Found(s[at..end], end);
  }

  method ReadFetchAttributes(line: string, start: nat) returns (seen: Seen)
    requires start <= |line|
    ensures seen == Attributes(line, start, Seen(None, None))
  {
    hide ReadAstring, IsBodyKey, Number;
    seen := Seen(None, None);
    var i := start;
    while i < |line|
      invariant i <= |line| && Attributes(line, i, seen) == Attributes(line, start, Seen(None, None))
      decreases |line| - i
    {
      i := SkipSpace(line, i);
      if i >= |line| {
        break;
      }
      SkippedOnce(line, i);
      if line[i] == '(' || line[i] == ')' {
        i := i + 1;
        continue;
      }
      var key := ReadValue(line, i);
      if key.Missing? {
        break;
      }
      var value := ReadValue(line, key.next);
      if Lower(key.text) == "uid" {
        if value.Found? {
          seen := seen.(uid := Some(Number(value.text) % U32));
        }
      } else if IsBodyKey(key.text) {
        if value.Found? {
          seen := seen.(body := Some(value.text));
        }
      } else if value.Missing? {
        break;
      }
      i := if value.Found? then value.next else value.at;
    }
  }

  lemma SkippedOnce(s: string, i: nat)
    requires i < |s| && !IsBlank(s[i])
    ensures SkipSpace(s, i) == i
  {
  }

  method ParseFetchBodies(response: string) returns (out: seq<FetchedBody>)
    ensures out == Bodies(Lines(response, 0))
  {
    hide Attributes, Lower, Lines;
    out := [];
    var lines := SplitLines(response);
    for i := 0 to |lines|
      invariant out + Bodies(lines[i..]) == Bodies(lines)
    {
      var line := lines[i];
      assert lines[i..][1..] == lines[i + 1..];
      if line == "" || line[0] != '*' {
        continue;
      }
      var fetch := FindText(Lower(line), FETCH, 0);
      if fetch.None? {
        continue;
      }
      var seen := ReadFetchAttributes(line, fetch.value + 7);
      if seen.uid.Some? && seen.body.Some? {
        var b := FetchedBody(seen.uid.value, seen.body.value);
        assert out + ([b] + Bodies(lines[i + 1..])) == (out + [b]) + Bodies(lines[i + 1..]);
        out := out + [b];
      }
    }
    assert out + [] == out;
  }
}
