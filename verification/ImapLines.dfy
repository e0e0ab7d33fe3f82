/** Cutting an IMAP response into lines, each with the literals it introduces (section 4.3
    of RFC 3501). */
module ImapLines {
  import opened Wrappers
  import opened ImapText

  const CRLF: string := "\r\n"

  /** The octet count of a literal that a line ends by announcing. */
  function Announced(line: string): (n: Option<nat>) {
    if line == [] || line[|line| - 1] != '}' then None
    else
      match FindLast(line, '{')
      case None => None
      case Some(brace) =>
        var digits := line[brace + 1..|line| - 1];
        if digits == [] || exists k :: 0 <= k < |digits| && !IsDigit(digits[k]) then None else Some(Number(digits))
  }

  function Chop(line: string): string {
    if line != [] && line[|line| - 1] == '\r' then line[..|line| - 1] else line
  }

  /** What is left of the line from `i` on, and where the next one starts. */
  function LineAt(r: string, i: nat): (p: (string, nat))
    requires i <= |r|
    ensures i < p.1 <= |r| + 1
  {
    var eol := FindChar(r, '\n', i);
    (Chop(r[i..eol]), eol + 1)
  }

  /** A line with the literals that follow it. */
  function WithLiterals(r: string, line: string, i: nat): (p: (string, nat))
    requires i <= |r| + 1
    ensures i <= p.1 <= |r| + 1
    decreases |r| + 1 - i
  {
    match Announced(line)
    case None => (line, i)
    case Some(n) =>
      if i + n > |r| then (line, i)
      else
        var (rest, next) := LineAt(r, i + n);
        WithLiterals(r, line + CRLF + r[i..i + n] + rest, next)
  }

  function Lines(r: string, i: nat): seq<string>
    decreases |r| - i
  {
    if i >= |r| then []
    else
      var (line, j) := LineAt(r, i);
      var (full, k) := WithLiterals(r, line, j);
      [full] + Lines(r, k)
  }

  /** std::all_of with isdigit. */
  method AllDigits(s: string) returns (b: bool)
    ensures b <==> forall k :: 0 <= k < |s| ==> IsDigit(s[k])
  {
    for k := 0 to |s|
      invariant forall j :: 0 <= j < k ==> IsDigit(s[j])
    {
      if !IsDigit(s[k]) {
        return false;
      }
    }
    return true;
  }

  /** The count a line ends by announcing, tested step by step. */
  method ReadAnnounced(line: string) returns (n: Option<nat>)
    ensures n == Announced(line)
  {
    if line == [] || line[|line| - 1] != '}' {
      return None;
    }
    var brace := FindLast(line, '{');
    if brace.None? {
      return None;
    }
    var digits := line[brace.value + 1..|line| - 1];
    var good := AllDigits(digits);
    if digits == [] || !good {
      return None;
    }
    return Some(Number(digits));
  }

  /** The inner loop: as long as the line ends by announcing a literal, that many octets
      and the rest of their line are taken in. */
  method AttachLiterals(response: string, first: string, start: nat) returns (line: string, i: nat)
    requires start <= |response| + 1
    ensures (line, i) == WithLiterals(response, first, start)
  {
    hide Announced, Chop;
    line, i := first, start;
    while true
      invariant i <= |response| + 1 && WithLiterals(response, line, i) == WithLiterals(response, first, start)
      decreases |response| + 1 - i
    {
      var n := ReadAnnounced(line);
      if n.None? || i + n.value > |response| {
        break;
      }
      line := line + CRLF + response[i..i + n.value];
      i := i + n.value;
      var eol := FindChar(response, '\n', i);
      line := line + Chop(response[i..eol]);
      i := eol + 1;
    }
  }

  method SplitLines(response: string) returns (lines: seq<string>)
    ensures lines == Lines(response, 0)
  {
    hide WithLiterals, Chop;
    lines := [];
    var i := 0;
    while i < |response|
      invariant lines + Lines(response, i) == Lines(response, 0)
      decreases |response| - i
    {
      var eol := FindChar(response, '\n', i);
      var line, next := AttachLiterals(response, Chop(response[i..eol]), eol + 1);
      assert Lines(response, i) == [line] + Lines(response, next);
      Regroup(lines, line, Lines(response, next));
      lines := lines + [line];
      i := next;
    }
    Regroup(lines, [], []);
  }

  lemma Regroup(a: seq<string>, x: string, b: seq<string>)
    ensures (a + [x]) + b == a + ([x] + b) && a + [] == a
  {
  }

  // ------------------------------------------------------ rendered responses

  /** A line as a server sends it: text, then literals, each followed by more text. */
  datatype Piece = Piece(data: string, rest: string)

  function Whole(head: string, pieces: seq<Piece>): (line: string)
    decreases |pieces|
  {
    if pieces == [] then head else Whole(head + CRLF + pieces[0].data + pieces[0].rest, pieces[1..])
  }

  /** Text without a line break. */
  predicate OneLine(s: string) {
    (forall i :: 0 <= i < |s| ==> s[i] != '\n') && (s != [] ==> s[|s| - 1] != '\r')
  }

  /** Each piece of text announces the literal after it, and the last announces none. */
  predicate Framed(head: string, pieces: seq<Piece>)
    decreases |pieces|
  {
    if pieces == [] then Announced(head) == None
    else
      && Announced(head) == Some(|pieces[0].data|) && OneLine(pieces[0].rest)
      && Framed(head + CRLF + pieces[0].data + pieces[0].rest, pieces[1..])
  }

  /** What follows the head on the wire. */
  function Tail(pieces: seq<Piece>): string
  {
    if pieces == [] then CRLF else CRLF + pieces[0].data + pieces[0].rest + Tail(pieces[1..])
  }

  lemma {:induction false} WholeText(head: string, pieces: seq<Piece>)
    ensures head + Tail(pieces) == Whole(head, pieces) + CRLF
    decreases |pieces|
  {
    if pieces != [] {
      WholeText(head + CRLF + pieces[0].data + pieces[0].rest, pieces[1..]);
      var a, b, c, t := CRLF, pieces[0].data, pieces[0].rest, Tail(pieces[1..]);
      assert head + (a + b + c + t) == head + a + b + c + t;
    }
  }

  lemma Before(r: string, i: nat, text: string)
    requires Matches(r, i, text) && forall j :: 0 <= j < |text| ==> text[j] != '\n'
    ensures forall j :: i <= j < i + |text| ==> r[j] != '\n'
  {
    forall j | i <= j < i + |text| ensures r[j] != '\n' { MatchesAt(r, i, text, j - i); }
  }

  lemma ChopCr(text: string)
    ensures Chop(text + "\r") == text
  {
    var s := text + "\r";
    assert s[|s| - 1] == '\r' && s[..|s| - 1] == text;
  }

  /** The text up to a line break is read as one line. */
  lemma LineEnds(r: string, i: nat, text: string)
    requires OneLine(text) && Matches(r, i, text) && Matches(r, i + |text|, CRLF)
    ensures i <= |r| && LineAt(r, i) == (text, i + |text| + 2)
  {
    var eol := i + |text| + 1;
    Before(r, i, text);
    MatchesAt(r, i + |text|, CRLF, 0);
    MatchesAt(r, i + |text|, CRLF, 1);
    FindCharIs(r, '\n', i, eol);
    assert r[i..eol] == r[i..i + |text|] + [r[i + |text|]];
    assert r[i..eol] == text + "\r";
    ChopCr(text);
  }

  /** One literal and the text behind it. */
  lemma LiteralRead(r: string, head: string, data: string, rest: string, i: nat)
    requires i <= |r| && Announced(head) == Some(|data|) && OneLine(rest)
    requires Matches(r, i, data) && Matches(r, i + |data|, rest) && Matches(r, i + |data| + |rest|, CRLF)
    ensures i + |data| + |rest| + 2 <= |r|
    ensures WithLiterals(r, head, i) == WithLiterals(r, head + CRLF + data + rest, i + |data| + |rest| + 2)
  {
    hide Announced, LineAt, OneLine;
    LineEnds(r, i + |data|, rest);
  }

  lemma TailStep(pieces: seq<Piece>)
    ensures |Tail(pieces)| == if pieces == [] then 2 else 2 + |pieces[0].data| + |pieces[0].rest| + |Tail(pieces[1..])|
  {
  }

  /** Literals are taken by their count, whatever bytes they hold. */
  lemma {:induction false} LiteralsRead(r: string, head: string, pieces: seq<Piece>, i: nat)
    requires i <= |r| && Framed(head, pieces)
    requires pieces != [] ==> Matches(r, i, pieces[0].data + (pieces[0].rest + Tail(pieces[1..])))
    ensures WithLiterals(r, head, i) == (Whole(head, pieces), i + if pieces == [] then 0 else |Tail(pieces)| - 2)
    decreases |pieces|
  {
    hide Announced, LineAt, OneLine, Tail, Matches;
    TailStep(pieces);
    if pieces != [] {
      var data, rest, more := pieces[0].data, pieces[0].rest, Tail(pieces[1..]);
      MatchesSplit(r, i, data, rest + more);
      MatchesSplit(r, i + |data|, rest, more);
      var next := i + |data| + |rest|;
      TailParts(r, next, pieces[1..]);
      LiteralRead(r, head, data, rest, i);
      TailStep(pieces[1..]);
      LiteralsRead(r, head + CRLF + data + rest, pieces[1..], next + 2);
    }
  }

  /** What follows a line on the wire: a line break, and the next literal if there is one. */
  lemma TailParts(r: string, i: nat, pieces: seq<Piece>)
    requires Matches(r, i, Tail(pieces))
    ensures i + 2 <= |r| && Matches(r, i, CRLF)
    ensures pieces != [] ==> Matches(r, i + 2, pieces[0].data + (pieces[0].rest + Tail(pieces[1..])))
  {
    if pieces != [] {
      var d, e, t := pieces[0].data, pieces[0].rest, Tail(pieces[1..]);
      assert CRLF + d + e + t == CRLF + (d + (e + t));
      MatchesSplit(r, i, CRLF, d + (e + t));
    }
  }

  /** A line on the wire is read back whole, and reading goes on behind it. */
  lemma LineReads(r: string, head: string, pieces: seq<Piece>, i: nat)
    requires OneLine(head) && Framed(head, pieces) && Matches(r, i, head + Tail(pieces))
    ensures i < |r| && Lines(r, i) == [Whole(head, pieces)] + Lines(r, i + |head| + |Tail(pieces)|)
  {
    hide LineAt, OneLine, Framed, WithLiterals, Lines, Tail, Matches, Whole;
    MatchesSplit(r, i, head, Tail(pieces));
    TailParts(r, i + |head|, pieces);
    TailStep(pieces);
    LineEnds(r, i, head);
    LiteralsRead(r, head, pieces, i + |head| + 2);
    LinesStep(r, i);
  }

  lemma LinesStep(r: string, i: nat)
    requires i < |r|
    ensures var p := LineAt(r, i); var q := WithLiterals(r, p.0, p.1); Lines(r, i) == [q.0] + Lines(r, q.1)
  {
    hide LineAt, WithLiterals;
  }

  lemma {:induction false} LastIs(s: string, c: char, k: nat)
    requires k < |s| && s[k] == c && forall j :: k < j < |s| ==> s[j] != c
    ensures FindLast(s, c) == Some(k)
  {
  }

  lemma AnnouncedIs(line: string, brace: nat, digits: string)
    requires brace + 1 < |line| && line[|line| - 1] == '}' && FindLast(line, '{') == Some(brace) && line[brace + 1..|line| - 1] == digits
    requires digits != "" && forall k :: 0 <= k < |digits| ==> IsDigit(digits[k])
    ensures Announced(line) == Some(Number(digits))
  {
    hide FindLast, Number;
  }

  /** Text that ends by announcing `n` octets. */
  lemma Announces(text: string, n: nat)
    ensures Announced(text + "{" + Dec(n) + "}") == Some(n)
  {
    hide FindLast, Number, Dec;
    var d := Dec(n);
    var line := text + "{" + d + "}";
    assert |line| == |text| + |d| + 2 && line[|text|] == '{' && line[|line| - 1] == '}';
    assert line[|text| + 1..|line| - 1] == d;
    forall j | |text| < j < |line| ensures line[j] != '{' {
      if j < |line| - 1 { assert line[j] == d[j - |text| - 1]; }
    }
    LastIs(line, '{', |text|);
    AnnouncedIs(line, |text|, d);
    NumberOfDec(n);
  }
}
