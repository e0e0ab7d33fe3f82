/** Characters, decimal numbers and searching, as the IMAP response parser uses them. A
    character stands for a byte of the response. */
module ImapText {
  import opened Wrappers

  predicate IsDigit(c: char) { '0' <= c <= '9' }

  function DigitChar(d: nat): (c: char)
    requires d < 10
    ensures IsDigit(c) && c as int - '0' as int == d
  {
    ('0' as int + d) as char
  }

  /** std::to_string. */
  function Dec(n: nat): (s: string)
    ensures s != [] && forall i :: 0 <= i < |s| ==> IsDigit(s[i])
  {
    if n < 10 then [DigitChar(n)] else Dec(n / 10) + [DigitChar(n % 10)]
  }

  /** The number a string of digits denotes; reading stops at the first other character,
      as strtoul does. */
  function Number(s: string): nat { NumberFrom(s, 0) }

  function NumberFrom(s: string, acc: nat): nat
    decreases |s|
  {
    if s == [] || !IsDigit(s[0]) then acc else NumberFrom(s[1..], 10 * acc + (s[0] as int - '0' as int))
  }

  lemma {:induction false} NumberSplit(a: string, b: string, acc: nat)
    requires forall i :: 0 <= i < |a| ==> IsDigit(a[i])
    ensures NumberFrom(a + b, acc) == NumberFrom(b, NumberFrom(a, acc))
  {
    if a == [] {
      assert a + b == b;
    } else {
      assert (a + b)[1..] == a[1..] + b;
      NumberSplit(a[1..], b, 10 * acc + (a[0] as int - '0' as int));
    }
  }

  lemma {:induction false} NumberOfDec(n: nat)
    ensures Number(Dec(n)) == n
  {
    if n >= 10 {
      NumberOfDec(n / 10);
      var last := [DigitChar(n % 10)];
      NumberSplit(Dec(n / 10), last, 0);
      assert NumberFrom(last, n / 10) == NumberFrom(last[1..], 10 * (n / 10) + n % 10);
    } else {
      assert NumberFrom([DigitChar(n)], 0) == NumberFrom([DigitChar(n)][1..], n);
    }
  }

  function LowerChar(c: char): char {
    if 'A' <= c <= 'Z' then (c as int - 'A' as int + 'a' as int) as char else c
  }

  function Lower(s: string): (r: string)
    ensures |r| == |s|
  {
    seq(|s|, i requires 0 <= i < |s| => LowerChar(s[i]))
  }

  /** The first place of a character from `i` on, or the length. */
  function FindChar(s: string, c: char, i: nat): (k: nat)
    requires i <= |s|
    ensures i <= k <= |s| && (forall j :: i <= j < k ==> s[j] != c) && (k < |s| ==> s[k] == c)
    decreases |s| - i
  {
    if i == |s| || s[i] == c then i else FindChar(s, c, i + 1)
  }

  lemma FindCharIs(s: string, c: char, i: nat, k: nat)
    requires i <= k < |s| && s[k] == c && forall j :: i <= j < k ==> s[j] != c
    ensures FindChar(s, c, i) == k
  {
  }

  /** The last place of a character. */
  function FindLast(s: string, c: char): (k: Option<nat>)
    ensures k.Some? ==> k.value < |s| && s[k.value] == c && forall j :: k.value < j < |s| ==> s[j] != c
    ensures k.None? ==> c !in s
  {
    if s == [] then None
    else if s[|s| - 1] == c then Some(|s| - 1)
    else FindLast(s[..|s| - 1], c)
  }

  predicate Matches(s: string, i: nat, pattern: string) {
    i + |pattern| <= |s| && s[i..i + |pattern|] == pattern
  }

  /** The first place of a substring from `i` on. */
  function FindText(s: string, pattern: string, i: nat): (k: Option<nat>)
    ensures k.Some? ==> Matches(s, k.value, pattern) && i <= k.value && forall j :: i <= j < k.value ==> !Matches(s, j, pattern)
    ensures k.None? ==> forall j :: i <= j ==> !Matches(s, j, pattern)
    decreases |s| - i
  {
    if i + |pattern| > |s| then None
    else if Matches(s, i, pattern) then Some(i)
    else FindText(s, pattern, i + 1)
  }

  /** Text in a row matches part by part. */
  lemma MatchesSplit(s: string, i: nat, a: string, b: string)
    ensures Matches(s, i, a + b) <==> Matches(s, i, a) && Matches(s, i + |a|, b)
  {
    var n := |a| + |b|;
    if i + n <= |s| {
      var whole := s[i..i + n];
      assert whole[..|a|] == s[i..i + |a|] && whole[|a|..] == s[i + |a|..i + n];
      assert (a + b)[..|a|] == a && (a + b)[|a|..] == b;
      assert whole == whole[..|a|] + whole[|a|..];
    }
  }

  lemma MatchesAt(s: string, i: nat, a: string, k: nat)
    requires Matches(s, i, a) && k < |a|
    ensures i + |a| <= |s| && s[i + k] == a[k]
  {
    assert s[i..i + |a|][k] == a[k];
  }

  lemma {:induction false} FindTextIs(s: string, pattern: string, i: nat, k: nat)
    requires i <= k && Matches(s, k, pattern) && forall j :: i <= j < k ==> !Matches(s, j, pattern)
    ensures FindText(s, pattern, i) == Some(k)
    decreases k - i
  {
    if i < k { FindTextIs(s, pattern, i + 1, k); }
  }

  lemma LowerSlice(s: string, a: nat, b: nat)
    requires a <= b <= |s|
    ensures Lower(s)[a..b] == Lower(s[a..b])
  {
  }
}
