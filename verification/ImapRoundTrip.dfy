/** The parser gets out of a response exactly the bodies it delivers, whatever bytes they
    hold. */
module ImapRoundTrip {
  import opened Wrappers
  import opened ImapText
  import opened ImapLines
  import opened ImapFetch
  import opened ImapResponse

  // ------------------------------------------------------- reading one value

  lemma SkipNothing(s: string, i: nat)
    requires i < |s| && !IsBlank(s[i])
    ensures SkipSpace(s, i) == i
  {
  }

  lemma SkipOne(s: string, i: nat)
    requires i + 1 < |s| && s[i] == ' ' && !IsBlank(s[i + 1])
    ensures SkipSpace(s, i) == i + 1
  {
    SkipNothing(s, i + 1);
  }

  lemma {:induction false} AtomEndIs(s: string, i: nat, j: nat)
    requires i <= j < |s| && EndsAtom(s[j]) && forall k :: i <= k < j ==> !EndsAtom(s[k])
    ensures AtomEnd(s, i) == j
    decreases j - i
  {
    if i < j { AtomEndIs(s, i + 1, j); }
  }

  lemma AtomChars(s: string, at: nat, atom: string)
    requires Matches(s, at, atom)
    ensures at + |atom| <= |s| && forall k :: at <= k < at + |atom| ==> s[k] == atom[k - at]
  {
    forall k | at <= k < at + |atom| ensures s[k] == atom[k - at] { MatchesAt(s, at, atom, k - at); }
  }

  /** An atom at the position, or behind one blank. */
  lemma AtomReads(s: string, i: nat, at: nat, atom: string)
    requires AtomText(atom) && Matches(s, at, atom) && at + |atom| < |s| && EndsAtom(s[at + |atom|])
    requires i == at || (i + 1 == at && s[i] == ' ')
    ensures ReadAstring(s, i) == Found(atom, at + |atom|)
  {
    AtomChars(s, at, atom);
    assert s[at] == atom[0];
    if i < at { SkipOne(s, i); } else { SkipNothing(s, at); }
    AtomEndIs(s, at, at + |atom|);
  }

  lemma DigitsAtom(n: nat)
    ensures AtomText(Dec(n))
  {
    assert IsDigit(Dec(n)[0]);
  }

  lemma {:induction false} NumberStops(digits: string, rest: string)
    requires forall k :: 0 <= k < |digits| ==> IsDigit(digits[k])
    requires rest == "" || !IsDigit(rest[0])
    ensures Number(digits + rest) == Number(digits)
  {
    NumberSplit(digits, rest, 0);
    NumberSplit(digits, "", 0);
    assert digits + "" == digits;
  }

  lemma BraceReads(s: string, i: nat, close: nat, n: nat)
    requires i + 1 < close && close + 3 + n <= |s| && s[i] == ' ' && s[i + 1] == '{' && FindChar(s, '}', i + 1) == close
    requires Number(s[i + 2..]) == n && s[close + 1] == '\r' && s[close + 2] == '\n'
    ensures ReadAstring(s, i) == Found(s[close + 3..close + 3 + n], close + 3 + n)
  {
    hide Number, FindChar;
    SkipOne(s, i);
  }

  lemma LiteralParts(s: string, i: nat, d: string, data: string)
    requires Matches(s, i, " {" + d + "}" + CRLF + data)
    ensures Matches(s, i, " {") && Matches(s, i + 2, d) && Matches(s, i + 2 + |d|, "}") && Matches(s, i + 3 + |d|, CRLF)
    ensures Matches(s, i + 5 + |d|, data)
  {
    hide Matches;
    MatchesSplit(s, i, " {" + d + "}" + CRLF, data);
    MatchesSplit(s, i, " {" + d + "}", CRLF);
    MatchesSplit(s, i, " {" + d, "}");
    MatchesSplit(s, i, " {", d);
  }

  /** A literal behind one blank: as many octets as announced, whatever they are. */
  lemma LiteralReads(s: string, i: nat, data: string)
    requires Matches(s, i, " {" + Dec(|data|) + "}" + CRLF + data)
    ensures ReadAstring(s, i) == Found(data, i + |" {" + Dec(|data|) + "}" + CRLF + data|)
  {
    hide Number, FindChar, Dec, ReadAstring;
    var d := Dec(|data|);
    var close := i + 2 + |d|;
    LiteralParts(s, i, d, data);
    LiteralFields(s, i, d);
    FindCharIs(s, '}', i + 1, close);
    NumberAt(s, i + 2, d);
    NumberOfDec(|data|);
    BraceReads(s, i, close, |data|);
  }

  lemma LiteralFields(s: string, i: nat, d: string)
    requires Matches(s, i, " {") && Matches(s, i + 2, d) && Matches(s, i + 2 + |d|, "}") && Matches(s, i + 3 + |d|, CRLF)
    requires forall k :: 0 <= k < |d| ==> IsDigit(d[k])
    ensures i + 5 + |d| <= |s| && s[i] == ' ' && s[i + 1] == '{' && s[i + 2 + |d|] == '}'
    ensures s[i + 3 + |d|] == '\r' && s[i + 4 + |d|] == '\n' && forall k :: i + 1 <= k < i + 2 + |d| ==> s[k] != '}'
  {
    MatchesAt(s, i, " {", 0);
    MatchesAt(s, i, " {", 1);
    MatchesAt(s, i + 2 + |d|, "}", 0);
    MatchesAt(s, i + 3 + |d|, CRLF, 0);
    MatchesAt(s, i + 3 + |d|, CRLF, 1);
    AtomChars(s, i + 2, d);
  }

  lemma NumberAt(s: string, i: nat, d: string)
    requires Matches(s, i, d) && i + |d| < |s| && s[i + |d|] == '}' && forall k :: 0 <= k < |d| ==> IsDigit(d[k])
    ensures Number(s[i..]) == Number(d)
  {
    assert s[i..] == d + s[i + |d|..];
    NumberStops(d, s[i + |d|..]);
  }

  // --------------------------------------------------- reading the attributes

  /** Where a value ends the next attribute or the closing parenthesis begins. */
  lemma TextFollows(s: string, i: nat, attrs: seq<Attr>)
    requires Matches(s, i, AttrsText(attrs, false))
    ensures i < |s| && (s[i] == ' ' || s[i] == ')')
  {
    hide AttrText;
    MatchesAt(s, i, AttrsText(attrs, false), 0);
  }

  lemma KeyStart(a: Attr)
    requires AttrOk(a)
    ensures Opening(a) != "" && !IsBlank(Opening(a)[0]) && Opening(a)[0] != '(' && Opening(a)[0] != ')'
  {
    hide IsBodyKey;
  }

  /** A key and its value, both atoms with a blank between them. */
  lemma PlainReads(s: string, at: nat, key: string, value: string)
    requires AtomText(key) && AtomText(value) && Matches(s, at, key + " " + value)
    requires at + |key| + 1 + |value| < |s| && EndsAtom(s[at + |key| + 1 + |value|])
    ensures ReadAstring(s, at) == Found(key, at + |key|)
    ensures ReadAstring(s, at + |key|) == Found(value, at + |key + " " + value|)
  {
    hide ReadAstring, Matches;
    MatchesSplit(s, at, key + " ", value);
    MatchesSplit(s, at, key, " ");
    MatchesAt(s, at + |key|, " ", 0);
    AtomReads(s, at, at, key);
    AtomReads(s, at + |key|, at + |key| + 1, value);
  }

  lemma BodyReads(s: string, at: nat, tail: string, data: string)
    requires AttrOk(Body(tail, data)) && Matches(s, at, AttrText(Body(tail, data)))
    ensures ReadAstring(s, at) == Found("BODY[" + tail, at + 5 + |tail|)
    ensures ReadAstring(s, at + 5 + |tail|) == Found(data, at + |AttrText(Body(tail, data))|)
    ensures IsBodyKey("BODY[" + tail)
  {
    hide ReadAstring, Matches, Lower;
    var key, literal := "BODY[" + tail, " {" + Dec(|data|) + "}" + CRLF + data;
    BodyText(tail, data);
    MatchesSplit(s, at, key, literal);
    MatchesAt(s, at + |key|, literal, 0);
    BodyKey(tail);
    AtomReads(s, at, at, key);
    LiteralReads(s, at + |key|, data);
  }

  lemma BodyText(tail: string, data: string)
    ensures AttrText(Body(tail, data)) == ("BODY[" + tail) + (" {" + Dec(|data|) + "}" + CRLF + data)
  {
    GlueFive("BODY[" + tail, " {", Dec(|data|), "}", CRLF, data);
  }

  lemma GlueFive(a: string, b: string, c: string, d: string, e: string, f: string)
    ensures a + b + c + d + e + f == a + (b + c + d + e + f)
  {
    Glue(a, b, c);
    Glue(a, b + c, d);
    Glue(a, b + c + d, e);
    Glue(a, b + c + d + e, f);
  }

  lemma BodyKey(tail: string)
    requires forall i :: 0 <= i < |tail| ==> !EndsAtom(tail[i]) && !IsBlank(tail[i])
    ensures IsBodyKey("BODY[" + tail) && AtomText("BODY[" + tail) && Lower("BODY[" + tail) != "uid"
  {
    var l := Lower("BODY[" + tail);
    assert l[0..5] == "body[";
    assert |l| >= 5;
  }

  /** A key with its value. */
  lemma PairReads(s: string, at: nat, key: string, next: nat, value: string, after: nat, seen: Seen)
    requires at < |s| && !IsBlank(s[at]) && s[at] != '(' && s[at] != ')'
    requires ReadAstring(s, at) == Found(key, next) && next <= |s| && ReadAstring(s, next) == Found(value, after)
    ensures after <= |s|
    ensures Attributes(s, at, seen) ==
            if Lower(key) == "uid" then Attributes(s, after, seen.(uid := Some(Number(value) % U32)))
            else if IsBodyKey(key) then Attributes(s, after, seen.(body := Some(value)))
            else Attributes(s, after, seen)
  {
    hide ReadAstring, IsBodyKey, Number, Lower;
    SkipNothing(s, at);
  }

  /** A key without a value. */
  lemma KeyAlone(s: string, at: nat, key: string, next: nat, seen: Seen)
    requires at < |s| && !IsBlank(s[at]) && s[at] != '(' && s[at] != ')'
    requires ReadAstring(s, at) == Found(key, next) && next <= |s| && ReadAstring(s, next).Missing?
    requires Lower(key) != "uid" && !IsBodyKey(key)
    ensures Attributes(s, at, seen) == seen
  {
    hide ReadAstring, IsBodyKey, Number, Lower;
    SkipNothing(s, at);
  }

  lemma UidReads(s: string, at: nat, n: nat, seen: Seen)
    requires n < U32 && Matches(s, at, AttrText(Uid(n))) && at + |AttrText(Uid(n))| < |s| && EndsAtom(s[at + |AttrText(Uid(n))|])
    ensures Attributes(s, at, seen) == Attributes(s, at + |AttrText(Uid(n))|, seen.(uid := Some(n)))
  {
    hide ReadAstring, IsBodyKey, Dec, Number, Matches, Attributes, Lower, AtomText, AttrText;
    KeyStart(Uid(n));
    AttrStarts(s, at, Uid(n));
    DigitsAtom(n);
    UidKey();
    UidText(n);
    PlainReads(s, at, "UID", Dec(n));
    NumberOfDec(n);
    PairReads(s, at, "UID", at + 3, Dec(n), at + |AttrText(Uid(n))|, seen);
  }

  lemma BodyAttrReads(s: string, at: nat, tail: string, data: string, seen: Seen)
    requires AttrOk(Body(tail, data)) && Matches(s, at, AttrText(Body(tail, data)))
    ensures at + |AttrText(Body(tail, data))| <= |s|
    ensures Attributes(s, at, seen) == Attributes(s, at + |AttrText(Body(tail, data))|, seen.(body := Some(data)))
  {
    hide ReadAstring, IsBodyKey, Number, Attributes, Lower, AttrText, AttrOk;
    KeyStart(Body(tail, data));
    AttrStarts(s, at, Body(tail, data));
    BodyReads(s, at, tail, data);
    TailOk(tail, data);
    BodyKey(tail);
    PairReads(s, at, "BODY[" + tail, at + 5 + |tail|, data, at + |AttrText(Body(tail, data))|, seen);
  }

  lemma TailOk(tail: string, data: string)
    requires AttrOk(Body(tail, data))
    ensures forall i :: 0 <= i < |tail| ==> !EndsAtom(tail[i]) && !IsBlank(tail[i])
  {
  }

  lemma PlainAttrReads(s: string, at: nat, key: string, value: string, seen: Seen)
    requires AttrOk(Plain(key, value)) && Matches(s, at, AttrText(Plain(key, value)))
    requires at + |AttrText(Plain(key, value))| < |s| && EndsAtom(s[at + |AttrText(Plain(key, value))|])
    ensures Attributes(s, at, seen)
            == Attributes(s, at + |AttrText(Plain(key, value))|, if IsBodyKey(key) then seen.(body := Some(value)) else seen)
  {
    hide ReadAstring, IsBodyKey, Number, Matches, Attributes, Lower, AtomText;
    KeyStart(Plain(key, value));
    AttrStarts(s, at, Plain(key, value));
    PlainReads(s, at, key, value);
    PairReads(s, at, key, at + |key|, value, at + |AttrText(Plain(key, value))|, seen);
  }

  lemma QuoteAttrReads(s: string, at: nat, key: string, text: string, seen: Seen)
    requires AttrOk(Quote(key, text)) && Matches(s, at, AttrText(Quote(key, text)))
    ensures at + |AttrText(Quote(key, text))| <= |s|
    ensures Attributes(s, at, seen)
            == Attributes(s, at + |AttrText(Quote(key, text))|, if IsBodyKey(key) then seen.(body := Some(text)) else seen)
  {
    hide ReadAstring, IsBodyKey, Number, Matches, Attributes, Lower, AtomText, Escape;
    KeyStart(Quote(key, text));
    AttrStarts(s, at, Quote(key, text));
    QuoteReads(s, at, key, text);
    PairReads(s, at, key, at + |key|, text, at + |AttrText(Quote(key, text))|, seen);
  }

  /** A key and a quoted string with a blank between them. */
  lemma QuoteReads(s: string, at: nat, key: string, text: string)
    requires AtomText(key) && Matches(s, at, key + " " + (['"'] + Escape(text) + ['"']))
    ensures at + |key| < |s| && ReadAstring(s, at) == Found(key, at + |key|)
    ensures ReadAstring(s, at + |key|) == Found(text, at + |key| + 1 + |Escape(text)| + 2)
  {
    hide ReadAstring, Matches, Escape;
    var quoted := ['"'] + Escape(text) + ['"'];
    MatchesSplit(s, at, key + " ", quoted);
    MatchesSplit(s, at, key, " ");
    MatchesAt(s, at + |key|, " ", 0);
    MatchesAt(s, at + |key| + 1, quoted, 0);
    AtomReads(s, at, at, key);
    QuotedHere(s, at + |key| + 1, text);
    BlankBefore(s, at + |key|);
  }

  lemma BlankBefore(s: string, i: nat)
    requires i + 1 < |s| && s[i] == ' ' && !IsBlank(s[i + 1])
    ensures ReadAstring(s, i) == ReadAstring(s, i + 1)
  {
    hide ReadAstring;
    SkipOne(s, i);
    SkipNothing(s, i + 1);
    SameStart(s, i, i + 1);
  }

  lemma SameStart(s: string, i: nat, j: nat)
    requires i <= |s| && j <= |s| && SkipSpace(s, i) == SkipSpace(s, j)
    ensures ReadAstring(s, i) == ReadAstring(s, j)
  {
    hide SkipSpace, Quoted, Number, FindChar, AtomEnd;
  }

  lemma QuotedHere(s: string, i: nat, text: string)
    requires Matches(s, i, ['"'] + Escape(text) + ['"'])
    ensures i <= |s| && ReadAstring(s, i) == Found(text, i + |Escape(text)| + 2)
  {
    hide ReadAstring, Escape;
    var n := |Escape(text)| + 2;
    assert s == s[..i] + s[i..i + n] + s[i + n..];
    var l := s[..i] + ['"'] + Escape(text) + ['"'] + s[i + n..];
    assert s == l;
    QuotedRoundTrip(s[..i], text, s[i + n..]);
  }

  lemma ListedAttrReads(s: string, at: nat, key: string, inner: string, seen: Seen)
    requires AttrOk(Listed(key, inner)) && Matches(s, at, AttrText(Listed(key, inner)))
    ensures at <= |s| && Attributes(s, at, seen) == seen
  {
    hide ReadAstring, IsBodyKey, Number, Matches, Attributes, Lower, AtomText;
    KeyStart(Listed(key, inner));
    AttrStarts(s, at, Listed(key, inner));
    ListedReads(s, at, key, inner);
    KeyAlone(s, at, key, at + |key|, seen);
  }

  /** One attribute is taken in, and reading goes on behind it; a parenthesised value ends
      the reading. */
  lemma AttrReads(s: string, at: nat, a: Attr, seen: Seen)
    requires AttrOk(a) && Matches(s, at, AttrText(a)) && at + |AttrText(a)| < |s| && EndsAtom(s[at + |AttrText(a)|])
    ensures Attributes(s, at, seen) ==
            match a
            case Uid(n) => Attributes(s, at + |AttrText(a)|, seen.(uid := Some(n)))
            case Body(_, data) => Attributes(s, at + |AttrText(a)|, seen.(body := Some(data)))
            case Plain(key, value) => Attributes(s, at + |AttrText(a)|, if IsBodyKey(key) then seen.(body := Some(value)) else seen)
            case Quote(key, text) => Attributes(s, at + |AttrText(a)|, if IsBodyKey(key) then seen.(body := Some(text)) else seen)
            case Listed(_, _) => seen
  {
    hide Matches, Attributes, AttrText, EndsAtom, IsBodyKey, AtomText;
    match a
    case Uid(n) => UidReads(s, at, n, seen);
    case Body(tail, data) => BodyAttrReads(s, at, tail, data, seen);
    case Plain(key, value) => PlainAttrReads(s, at, key, value, seen);
    case Quote(key, text) => QuoteAttrReads(s, at, key, text, seen);
    case Listed(key, inner) => ListedAttrReads(s, at, key, inner, seen);
  }

  lemma UidText(n: nat)
    ensures AttrText(Uid(n)) == "UID" + " " + Dec(n)
  {
    assert "UID" + " " == "UID ";
  }

  lemma AttrStarts(s: string, at: nat, a: Attr)
    requires Opening(a) != "" && Matches(s, at, AttrText(a))
    ensures at < |s| && s[at] == Opening(a)[0]
  {
    hide Opening;
    MatchesAt(s, at, AttrText(a), 0);
  }

  lemma UidKey()
    ensures AtomText("UID") && Lower("UID") == "uid"
  {
  }

  lemma ListedReads(s: string, at: nat, key: string, inner: string)
    requires AtomText(key) && Matches(s, at, key + " (" + inner + ")")
    ensures ReadAstring(s, at) == Found(key, at + |key|)
    ensures ReadAstring(s, at + |key|).Missing?
  {
    hide ReadAstring, Matches;
    var rest := " (" + inner + ")";
    Glue(key, " (", inner);
    Glue(key, " (" + inner, ")");
    MatchesSplit(s, at, key, rest);
    MatchesAt(s, at + |key|, rest, 0);
    MatchesAt(s, at + |key|, rest, 1);
    AtomReads(s, at, at, key);
    BlankBefore(s, at + |key|);
    NoValue(s, at + |key| + 1);
  }

  /** A parenthesis is no value. */
  lemma NoValue(s: string, i: nat)
    requires i < |s| && s[i] == '('
    ensures ReadAstring(s, i).Missing?
  {
    hide Quoted, Number, FindChar;
    SkipNothing(s, i);
    AtomEndIs(s, i, i);
  }

  /** All attributes: what is delivered is what is read. */
  lemma {:induction false} AttrsRead(s: string, i: nat, attrs: seq<Attr>, first: bool, seen: Seen)
    requires AttrsOk(attrs) && Matches(s, i, AttrsText(attrs, first)) && i + |AttrsText(attrs, first)| == |s|
    ensures Attributes(s, i, seen) == Delivered(attrs, seen)
    decreases |attrs|
  {
    hide Matches, AttrOk, AttrText, Attributes;
    if attrs == [] {
      MatchesAt(s, i, ")", 0);
      EndReads(s, i, seen);
    } else {
      var a, text := attrs[0], AttrsText(attrs[1..], false);
      assert AttrOk(a) && AttrsOk(attrs[1..]);
      var at := i + |Gap(first)|;
      MatchesSplit(s, i, Gap(first) + AttrText(a), text);
      MatchesSplit(s, i, Gap(first), AttrText(a));
      TextFollows(s, at + |AttrText(a)|, attrs[1..]);
      if !first { MatchesAt(s, i, " ", 0); }
      GapReads(s, i, a, first, seen);
      AttrReads(s, at, a, seen);
      if !a.Listed? {
        AttrsRead(s, at + |AttrText(a)|, attrs[1..], false, Delivered([a], seen));
        DeliveredStep(attrs, seen);
      }
    }
  }

  lemma DeliveredStep(attrs: seq<Attr>, seen: Seen)
    requires attrs != [] && !attrs[0].Listed?
    ensures Delivered(attrs, seen) == Delivered(attrs[1..], Delivered([attrs[0]], seen))
    ensures Delivered([attrs[0]], seen) == match attrs[0]
                                           case Uid(n) => seen.(uid := Some(n))
                                           case Body(_, data) => seen.(body := Some(data))
                                           case Plain(key, value) => if IsBodyKey(key) then seen.(body := Some(value)) else seen
                                           case Quote(key, text) => if IsBodyKey(key) then seen.(body := Some(text)) else seen
                                           case Listed(_, _) => seen
  {
  }

  lemma EndReads(s: string, i: nat, seen: Seen)
    requires i + 1 == |s| && s[i] == ')'
    ensures Attributes(s, i, seen) == seen
  {
    SkipNothing(s, i);
  }

  lemma GapReads(s: string, i: nat, a: Attr, first: bool, seen: Seen)
    requires AttrOk(a) && i + |Gap(first)| <= |s| && Matches(s, i + |Gap(first)|, AttrText(a)) && (!first ==> s[i] == ' ')
    ensures Attributes(s, i, seen) == Attributes(s, i + |Gap(first)|, seen)
  {
    hide ReadAstring, IsBodyKey, Matches, Lower, Opening;
    if !first {
      KeyStart(a);
      AttrStarts(s, i + 1, a);
      SkipOne(s, i);
      SkipNothing(s, i + 1);
    }
  }

  // ------------------------------------------------------------ whole lines

  lemma FetchText()
    ensures Lower(" FETCH (")[..7] == FETCH
  {
    var l := Lower(" FETCH (");
    assert l[0] == ' ' && l[1] == 'f' && l[2] == 'e' && l[3] == 't' && l[4] == 'c' && l[5] == 'h' && l[6] == ' ';
  }

  /** The first " fetch " of a line is the one behind the message number. */
  lemma FetchFound(number: nat, text: string)
    ensures var line := Prefix(number) + text;
            line[0] == '*' && FindText(Lower(line), FETCH, 0) == Some(2 + |Dec(number)|) && |Prefix(number)| == 2 + |Dec(number)| + 8
  {
    hide Dec, Prefix, FindText, Matches, LowerChar;
    var d := Dec(number);
    var line := Prefix(number) + text;
    var at := 2 + |d|;
    PrefixChars(number, text);
    LowerSlice(line, at, at + 8);
    FetchText();
    FetchThere(Lower(line), at);
    forall j | 0 <= j < at ensures !Matches(Lower(line), j, FETCH) {
      NoFetchAt(line, j, d);
    }
    FindTextIs(Lower(line), FETCH, 0, at);
  }

  lemma FetchThere(l: string, at: nat)
    requires at + 8 <= |l| && l[at..at + 8][..7] == FETCH
    ensures Matches(l, at, FETCH)
  {
    assert l[at..at + 7] == l[at..at + 8][..7];
  }

  lemma NoFetchAt(line: string, j: nat, d: string)
    requires |line| >= 10 + |d| && line[0] == '*' && d != "" && j < 2 + |d|
    requires forall k :: 0 <= k < |d| ==> IsDigit(d[k]) && line[2 + k] == d[k]
    ensures !Matches(Lower(line), j, FETCH)
  {
    hide Matches;
    assert IsDigit(d[0]) && IsDigit(line[2]);
    if j >= 2 { assert IsDigit(d[j - 2]) && IsDigit(line[j]); }
    if Matches(Lower(line), j, FETCH) {
      MatchesAt(Lower(line), j, FETCH, 0);
      MatchesAt(Lower(line), j, FETCH, 1);
    }
  }

  lemma PrefixChars(number: nat, text: string)
    ensures var line, d := Prefix(number) + text, Dec(number);
            && |line| >= 10 + |d| && line[0] == '*' && line[1] == ' ' && |Prefix(number)| == 10 + |d|
            && (forall k :: 0 <= k < |d| ==> line[2 + k] == d[k]) && line[2 + |d|..10 + |d|] == " FETCH ("
  {
    hide Dec;
  }

  /** A line of a response delivers what its item delivers. */
  lemma LineDelivers(item: Item)
    requires AttrsOk(item.attrs)
    ensures BodyOf(Prefix(item.number) + AttrsText(item.attrs, true)) == DeliveredBody(item)
  {
    hide AttrsOk, AttrsText, Attributes, FindText, Lower, Delivered, Prefix, Dec;
    var p, text := Prefix(item.number), AttrsText(item.attrs, true);
    FetchFound(item.number, text);
    PrefixChars(item.number, text);
    var line := p + text;
    var at := 2 + |Dec(item.number)| + 7;
    assert line[at] == '(' by { assert line[2 + |Dec(item.number)|..at + 1][7] == '('; }
    OpenParen(line, at, Seen(None, None));
    assert line[at + 1..] == text;
    AttrsRead(line, at + 1, item.attrs, true, Seen(None, None));
  }

  lemma OpenParen(s: string, at: nat, seen: Seen)
    requires at < |s| && s[at] == '('
    ensures Attributes(s, at, seen) == Attributes(s, at + 1, seen)
  {
    SkipNothing(s, at);
  }

  lemma {:induction false} LinesDeliver(items: seq<Item>)
    requires forall k :: 0 <= k < |items| ==> AttrsOk(items[k].attrs)
    ensures Bodies(ItemLines(items)) == DeliveredBodies(items)
  {
    hide AttrsOk, BodyOf, DeliveredBody, Prefix, AttrsText;
    if items != [] {
      LineDelivers(items[0]);
      LinesDeliver(items[1..]);
    }
  }

  /** Parsing a response gives what its items deliver, in order: a literal's bytes are
      never taken for structure. */
  lemma ParseDelivers(items: seq<Item>)
    requires forall k :: 0 <= k < |items| ==> AttrsOk(items[k].attrs)
    ensures Bodies(Lines(Response(items), 0)) == DeliveredBodies(items)
  {
    hide AttrsOk, Lines, Bodies, DeliveredBodies, Response, ItemLines;
    var r := Response(items);
    assert r[0..0 + |r|] == r;
    ResponseLines(r, items, 0);
    LinesDeliver(items);
  }

  // -------------------------------------------------------- what is delivered

  /** The attributes in front of the first parenthesised value. */
  function Readable(attrs: seq<Attr>): seq<Attr> {
    if attrs == [] || attrs[0].Listed? then [] else [attrs[0]] + Readable(attrs[1..])
  }

  lemma {:induction false} DeliveredWhen(attrs: seq<Attr>, seen: Seen)
    ensures Delivered(attrs, seen).uid.Some? <==> seen.uid.Some? || exists a :: a in Readable(attrs) && a.Uid?
    ensures Delivered(attrs, seen).body.Some? <==> seen.body.Some? || exists a :: a in Readable(attrs) && HasBody(a)
  {
    if attrs != [] && !attrs[0].Listed? {
      DeliveredStep(attrs, seen);
      DeliveredWhen(attrs[1..], Delivered([attrs[0]], seen));
      assert forall a :: a in Readable(attrs) <==> a == attrs[0] || a in Readable(attrs[1..]);
      assert attrs[0] in Readable(attrs);
    }
  }

  /** A message's body is found if and only if its UID and a body section both come before
      any parenthesised value. */
  lemma FoundIff(item: Item)
    ensures DeliveredBody(item).Some? <==>
            (exists a :: a in Readable(item.attrs) && a.Uid?) && (exists a :: a in Readable(item.attrs) && HasBody(a))
  {
    hide Delivered, Readable;
    DeliveredWhen(item.attrs, Seen(None, None));
  }

  /** A legal answer that is lost: the flags come first. */
  lemma FlagsFirstLost()
    ensures var item := Item(1, [Listed("FLAGS", "\\Seen"), Uid(7), Body("]", "mail")]);
            AttrsOk(item.attrs) && DeliveredBody(item) == None
  {
    var l := Lower("FLAGS");
    assert l[0] == 'f';
    assert !Matches(l, 0, "body[") by { if Matches(l, 0, "body[") { MatchesAt(l, 0, "body[", 0); } }
    assert l != "rfc822" && l != "uid";
  }

  /** NIL, which says that there is no body, is taken for a body of those three letters. */
  lemma NilIsText(number: nat, uid: nat)
    requires uid < U32
    ensures var item := Item(number, [Uid(uid), Plain("BODY[]", "NIL")]);
            AttrsOk(item.attrs) && DeliveredBody(item) == Some(FetchedBody(uid, "NIL"))
  {
    hide IsBodyKey, Lower;
    assert "BODY[" + "]" == "BODY[]";
    BodyKey("]");
    var item := Item(number, [Uid(uid), Plain("BODY[]", "NIL")]);
    DeliveredStep(item.attrs, Seen(None, None));
    DeliveredStep(item.attrs[1..], Seen(Some(uid), None));
  }

  /** The answer the fetch command asks for: one UID and one body a message. */
  function Answer(numbers: seq<nat>, bodies: seq<FetchedBody>): (items: seq<Item>)
    requires |numbers| == |bodies|
    ensures |items| == |bodies|
  {
    if bodies == [] then []
    else [Item(numbers[0], [Uid(bodies[0].uid), Body("]", bodies[0].rfc822)])] + Answer(numbers[1..], bodies[1..])
  }

  lemma {:induction false} AnswerOk(numbers: seq<nat>, bodies: seq<FetchedBody>)
    requires |numbers| == |bodies| && forall k :: 0 <= k < |bodies| ==> bodies[k].uid < U32
    ensures forall k :: 0 <= k < |bodies| ==> AttrsOk(Answer(numbers, bodies)[k].attrs)
    ensures DeliveredBodies(Answer(numbers, bodies)) == bodies
  {
    if bodies != [] {
      AnswerOk(numbers[1..], bodies[1..]);
      var item := Item(numbers[0], [Uid(bodies[0].uid), Body("]", bodies[0].rfc822)]);
      DeliveredStep(item.attrs, Seen(None, None));
      DeliveredStep(item.attrs[1..], Seen(Some(bodies[0].uid), None));
      assert DeliveredBody(item) == Some(bodies[0]);
      assert Answer(numbers, bodies)[1..] == Answer(numbers[1..], bodies[1..]);
    }
  }

  /** Any list of bodies comes back from its response exactly. */
  lemma BodiesRoundTrip(numbers: seq<nat>, bodies: seq<FetchedBody>)
    requires |numbers| == |bodies| && forall k :: 0 <= k < |bodies| ==> bodies[k].uid < U32
    ensures Bodies(Lines(Response(Answer(numbers, bodies)), 0)) == bodies
  {
    hide Bodies, Lines, Response, Answer, DeliveredBodies, AttrsOk;
    AnswerOk(numbers, bodies);
    ParseDelivers(Answer(numbers, bodies));
  }
}
