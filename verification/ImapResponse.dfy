/** FETCH responses as a server sends them, and what the parser makes of them. */
module ImapResponse {
  import opened Wrappers
  import opened ImapText
  import opened ImapLines
  import opened ImapFetch

  /** An attribute of a message: its UID, a body section sent as a literal, anything with an
      atom (NIL among them) or a quoted string for a value, or with a parenthesised list such
      as FLAGS. */
  datatype Attr =
    | Uid(n: nat)
    | Body(tail: string, data: string)
    | Plain(key: string, value: string)
    | Quote(key: string, text: string)
    | Listed(key: string, inner: string)

  datatype Item = Item(number: nat, attrs: seq<Attr>)

  predicate AtomText(s: string) {
    s != "" && s[0] != '"' && s[0] != '{' && forall i :: 0 <= i < |s| ==> !EndsAtom(s[i]) && !IsBlank(s[i])
  }

  predicate NotUid(key: string) { AtomText(key) && Lower(key) != "uid" }

  predicate OtherKey(key: string) { NotUid(key) && !IsBodyKey(key) }

  predicate AttrOk(a: Attr) {
    match a
    case Uid(n) => n < U32
    case Body(tail, _) => forall i :: 0 <= i < |tail| ==> !EndsAtom(tail[i]) && !IsBlank(tail[i])
    case Plain(key, value) => NotUid(key) && AtomText(value)
    case Quote(key, text) => NotUid(key) && NoBreak(text)
    case Listed(key, inner) => OtherKey(key) && NoBreak(inner)
  }

  predicate AttrsOk(attrs: seq<Attr>) { forall i :: 0 <= i < |attrs| ==> AttrOk(attrs[i]) }

  /** The text in front of an attribute's literal, or all of it. */
  function Opening(a: Attr): string {
    match a
    case Uid(n) => "UID " + Dec(n)
    case Body(tail, data) => "BODY[" + tail + " {" + Dec(|data|) + "}"
    case Plain(key, value) => key + " " + value
    case Quote(key, text) => key + " " + (['"'] + Escape(text) + ['"'])
    case Listed(key, inner) => key + " (" + inner + ")"
  }

  function AttrText(a: Attr): string {
    if a.Body? then Opening(a) + CRLF + a.data else Opening(a)
  }

  function Gap(first: bool): string { if first then "" else " " }

  /** The attributes and the closing parenthesis. */
  function AttrsText(attrs: seq<Attr>, first: bool): string {
    if attrs == [] then ")" else Gap(first) + AttrText(attrs[0]) + AttrsText(attrs[1..], false)
  }

  function Prefix(number: nat): string { "* " + Dec(number) + " FETCH (" }

  function ItemText(item: Item): string { Prefix(item.number) + AttrsText(item.attrs, true) + CRLF }

  function Response(items: seq<Item>): string {
    if items == [] then "" else ItemText(items[0]) + Response(items[1..])
  }

  /** What the parser gets out of the attributes: everything up to a parenthesised value. */
  function Delivered(attrs: seq<Attr>, seen: Seen): Seen {
    if attrs == [] then seen
    else
      match attrs[0]
      case Uid(n) => Delivered(attrs[1..], seen.(uid := Some(n)))
      case Body(_, data) => Delivered(attrs[1..], seen.(body := Some(data)))
      case Plain(key, value) => Delivered(attrs[1..], if IsBodyKey(key) then seen.(body := Some(value)) else seen)
      case Quote(key, text) => Delivered(attrs[1..], if IsBodyKey(key) then seen.(body := Some(text)) else seen)
      case Listed(_, _) => seen
  }

  /** The attribute carries a body. */
  predicate HasBody(a: Attr) { a.Body? || ((a.Plain? || a.Quote?) && IsBodyKey(a.key)) }

  function DeliveredBody(item: Item): Option<FetchedBody> {
    var seen := Delivered(item.attrs, Seen(None, None));
    if seen.uid.Some? && seen.body.Some? then Some(FetchedBody(seen.uid.value, seen.body.value)) else None
  }

  function DeliveredBodies(items: seq<Item>): seq<FetchedBody> {
    if items == [] then []
    else
      match DeliveredBody(items[0])
      case None => DeliveredBodies(items[1..])
      case Some(b) => [b] + DeliveredBodies(items[1..])
  }

  // ------------------------------------------------------- lines of the wire

  /** The item cut at its literals: `acc` is the text since the last one. */
  function Cut(acc: string, attrs: seq<Attr>, first: bool): (p: (string, seq<Piece>))
    decreases |attrs|
  {
    if attrs == [] then (acc + ")", [])
    else
      var head := acc + (Gap(first) + Opening(attrs[0]));
      if attrs[0].Body? then
        var (rest, pieces) := Cut("", attrs[1..], false);
        (head, [Piece(attrs[0].data, rest)] + pieces)
      else Cut(head, attrs[1..], false)
  }

  lemma {:induction false} WholePrefix(x: string, head: string, pieces: seq<Piece>)
    ensures Whole(x + head, pieces) == x + Whole(head, pieces)
    decreases |pieces|
  {
    if pieces != [] {
      var d, r := pieces[0].data, pieces[0].rest;
      assert x + head + CRLF + d + r == x + (head + CRLF + d + r);
      WholePrefix(x, head + CRLF + d + r, pieces[1..]);
    }
  }

  lemma Glue(a: string, b: string, c: string)
    ensures (a + b) + c == a + (b + c)
  {
  }

  lemma GlueBody(acc: string, gap: string, open: string, crlf: string, data: string, text: string)
    ensures acc + (gap + open) + crlf + data + text == acc + (gap + (open + crlf + data) + text)
  {
    var l, r := acc + (gap + open) + crlf + data + text, acc + (gap + (open + crlf + data) + text);
    Glue(acc, gap + open, crlf);
    Glue(acc, gap + open + crlf, data);
    Glue(acc, gap + open + crlf + data, text);
    Glue(gap, open, crlf);
    Glue(gap, open + crlf, data);
  }

  lemma GlueText(acc: string, gap: string, open: string, text: string)
    ensures acc + (gap + open) + text == acc + (gap + open + text) && "" + text == text
  {
  }

  lemma WholeStep(head: string, data: string, rest: string, pieces: seq<Piece>)
    ensures Whole(head, [Piece(data, rest)] + pieces) == head + CRLF + data + Whole(rest, pieces)
  {
    assert ([Piece(data, rest)] + pieces)[1..] == pieces;
    WholePrefix(head + CRLF + data, rest, pieces);
  }

  lemma {:induction false} CutWhole(acc: string, attrs: seq<Attr>, first: bool)
    ensures var (head, pieces) := Cut(acc, attrs, first); Whole(head, pieces) == acc + AttrsText(attrs, first)
    decreases |attrs|
  {
    hide Opening, Gap;
    if attrs != [] {
      var open := Gap(first) + Opening(attrs[0]);
      var text := AttrsText(attrs[1..], false);
      if attrs[0].Body? {
        var (rest, pieces) := Cut("", attrs[1..], false);
        CutWhole("", attrs[1..], false);
        GlueText(acc, Gap(first), Opening(attrs[0]), text);
        WholeStep(acc + open, attrs[0].data, rest, pieces);
        GlueBody(acc, Gap(first), Opening(attrs[0]), CRLF, attrs[0].data, text);
      } else {
        CutWhole(acc + open, attrs[1..], false);
        GlueText(acc, Gap(first), Opening(attrs[0]), text);
      }
    }
  }

  predicate NoBreak(s: string) { forall i :: 0 <= i < |s| ==> s[i] != '\n' }

  lemma JoinNoBreak(a: string, b: string)
    requires NoBreak(a) && NoBreak(b)
    ensures NoBreak(a + b)
  {
  }

  lemma OpeningNoBreak(a: Attr, first: bool)
    requires AttrOk(a)
    ensures NoBreak(Gap(first) + Opening(a))
  {
    hide NotUid, OtherKey, IsBodyKey, Dec, Escape, AtomText;
    match a
    case Uid(n) => DecNoBreak(n);
    case Body(tail, data) => DecNoBreak(|data|);
    case Plain(key, value) => AtomNoBreak(key); AtomNoBreak(value);
    case Quote(key, text) =>
      AtomNoBreak(key);
      EscapeNoBreak(text);
      JoinNoBreak(['"'] + Escape(text), ['"']);
      JoinNoBreak(key + " ", ['"'] + Escape(text) + ['"']);
    case Listed(key, inner) => AtomNoBreak(key);
  }

  lemma DecNoBreak(n: nat)
    ensures NoBreak(Dec(n))
  {
  }

  lemma {:induction false} EscapeNoBreak(text: string)
    requires NoBreak(text)
    ensures NoBreak(Escape(text))
  {
    if text != "" { EscapeNoBreak(text[1..]); }
  }

  lemma AtomNoBreak(s: string)
    requires AtomText(s) || NotUid(s) || OtherKey(s)
    ensures NoBreak(s)
  {
  }

  lemma Closed(x: string)
    ensures Announced(x + ")") == None
    ensures NoBreak(x) ==> OneLine(x + ")")
  {
  }

  lemma BodyOpens(x: string, a: Attr)
    requires a.Body?
    ensures Announced(x + Opening(a)) == Some(|a.data|)
    ensures x + Opening(a) != "" && (x + Opening(a))[|x + Opening(a)| - 1] == '}'
  {
    hide Announced;
    Announces(x + ("BODY[" + a.tail + " "), |a.data|);
    assert x + ("BODY[" + a.tail + " ") + "{" + Dec(|a.data|) + "}" == x + Opening(a);
  }

  /** Every cut line is framed: text announces each literal's size, and the rest of the
      line announces none. */
  lemma {:induction false} CutFramed(x: string, acc: string, attrs: seq<Attr>, first: bool)
    requires AttrsOk(attrs) && NoBreak(acc)
    ensures var (head, pieces) := Cut(acc, attrs, first); Framed(x + head, pieces) && OneLine(head)
    decreases |attrs|
  {
    hide Announced, Opening, Gap, AttrOk;
    if attrs == [] {
      Closed(acc);
      Closed(x + acc);
      Glue(x, acc, ")");
    } else {
      var open := Gap(first) + Opening(attrs[0]);
      assert AttrOk(attrs[0]) && AttrsOk(attrs[1..]);
      OpeningNoBreak(attrs[0], first);
      assert NoBreak(acc + open);
      if attrs[0].Body? {
        var (rest, pieces) := Cut("", attrs[1..], false);
        var head := acc + open;
        BodyOpens(x + (acc + Gap(first)), attrs[0]);
        BodyOpens(acc + Gap(first), attrs[0]);
        Glue(x, acc + Gap(first), Opening(attrs[0]));
        Glue(acc, Gap(first), Opening(attrs[0]));
        CutFramed(x + head + CRLF + attrs[0].data, "", attrs[1..], false);
        assert ([Piece(attrs[0].data, rest)] + pieces)[1..] == pieces;
      } else {
        CutFramed(x, acc + open, attrs[1..], false);
      }
    }
  }

  /** An item on the wire is read as one line, literals and all. */
  lemma ItemReads(r: string, item: Item, i: nat)
    requires AttrsOk(item.attrs) && Matches(r, i, ItemText(item))
    ensures i < |r| && Lines(r, i) == [Prefix(item.number) + AttrsText(item.attrs, true)] + Lines(r, i + |ItemText(item)|)
  {
    hide AttrsOk, AttrsText, Lines, Matches, Prefix, Whole, Tail, Framed;
    var p := Prefix(item.number);
    PrefixNoBreak(item.number);
    CutWhole(p, item.attrs, true);
    CutFramed("", p, item.attrs, true);
    var (head, pieces) := Cut(p, item.attrs, true);
    assert "" + head == head;
    WholeText(head, pieces);
    LineReads(r, head, pieces, i);
  }

  lemma PrefixNoBreak(number: nat)
    ensures NoBreak(Prefix(number))
  {
  }

  /** A response is read as its items, one line each. */
  lemma {:induction false} ResponseLines(r: string, items: seq<Item>, i: nat)
    requires forall k :: 0 <= k < |items| ==> AttrsOk(items[k].attrs)
    requires Matches(r, i, Response(items)) && i + |Response(items)| == |r|
    ensures Lines(r, i) == ItemLines(items)
    decreases |items|
  {
    hide AttrsOk, ItemText, Matches, Lines;
    NoLines(r);
    if items != [] {
      MatchesSplit(r, i, ItemText(items[0]), Response(items[1..]));
      ItemReads(r, items[0], i);
      ResponseLines(r, items[1..], i + |ItemText(items[0])|);
    }
  }

  lemma NoLines(r: string)
    ensures Lines(r, |r|) == []
  {
  }

  function ItemLines(items: seq<Item>): seq<string> {
    if items == [] then [] else [Prefix(items[0].number) + AttrsText(items[0].attrs, true)] + ItemLines(items[1..])
  }
}
