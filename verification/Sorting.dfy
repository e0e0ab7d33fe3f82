/** `std::sort` by a numeric key. Any sorted permutation may come out for equal
    keys; every theorem that depends on the order asks for distinct keys. */
module Sorting {

  predicate StrictlyAscending<T>(s: seq<T>, key: T -> nat) {
    forall i, j :: 0 <= i < j < |s| ==> key(s[i]) < key(s[j])
  }

  predicate DistinctKeys<T>(s: seq<T>, key: T -> nat) {
    forall i, j :: 0 <= i < j < |s| ==> key(s[i]) != key(s[j])
  }

  function Insert<T>(x: T, s: seq<T>, key: T -> nat): (r: seq<T>)
    ensures |r| == |s| + 1
    ensures multiset(r) == multiset(s) + multiset{x}
  {
    if s == [] then [x]
    else if key(x) <= key(s[0]) then [x] + s
    else
      assert s == [s[0]] + s[1..];
      [s[0]] + Insert(x, s[1..], key)
  }

  function SortBy<T>(s: seq<T>, key: T -> nat): (r: seq<T>)
    ensures |r| == |s|
    ensures multiset(r) == multiset(s)
  {
    if s == [] then []
    else
      assert s == [s[0]] + s[1..];
      Insert(s[0], SortBy(s[1..], key), key)
  }

  lemma SameMember<T>(a: seq<T>, b: seq<T>, x: T)
    requires multiset(a) == multiset(b) && x in a
    ensures x in b
  {
    assert x in multiset(a);
    assert x in multiset(b);
  }

  lemma Inserted<T>(x: T, s: seq<T>, key: T -> nat, i: nat)
    requires i <= |s|
    ensures Insert(x, s, key)[i] == x || Insert(x, s, key)[i] in s
  {
    var r := Insert(x, s, key);
    assert r[i] in multiset(r);
    assert r[i] == x || r[i] in multiset(s);
  }

  lemma InFront<T>(x: T, s: seq<T>, key: T -> nat)
    requires StrictlyAscending(s, key) && forall i :: 0 <= i < |s| ==> key(x) < key(s[i])
    ensures StrictlyAscending([x] + s, key)
  {
  }

  lemma {:induction false} InsertStrict<T>(x: T, s: seq<T>, key: T -> nat)
    requires StrictlyAscending(s, key)
    requires forall i :: 0 <= i < |s| ==> key(s[i]) != key(x)
    ensures StrictlyAscending(Insert(x, s, key), key)
  {
    if s != [] && key(s[0]) < key(x) {
      var r := Insert(x, s[1..], key);
      InsertStrict(x, s[1..], key);
      forall i | 0 <= i < |r| ensures key(s[0]) < key(r[i]) { Inserted(x, s[1..], key, i); }
      InFront(s[0], r, key);
    }
  }

  /** Sorting records with distinct keys puts them in strictly ascending order. */
  lemma {:induction false} SortByStrict<T>(s: seq<T>, key: T -> nat)
    requires DistinctKeys(s, key)
    ensures StrictlyAscending(SortBy(s, key), key)
  {
    if s != [] {
      var rest := SortBy(s[1..], key);
      SortByStrict(s[1..], key);
      forall i | 0 <= i < |rest| ensures key(rest[i]) != key(s[0]) {
        SameMember(rest, s[1..], rest[i]);
        var j :| 0 <= j < |s[1..]| && s[1..][j] == rest[i];
        assert s[j + 1] == rest[i];
      }
      InsertStrict(s[0], rest, key);
    }
  }

  lemma InsertFront<T>(x: T, s: seq<T>, key: T -> nat)
    requires s != [] ==> key(x) <= key(s[0])
    ensures Insert(x, s, key) == [x] + s
  {
  }

  /** A sequence already in strict order is left as it is. */
  lemma {:induction false} SortByIdentity<T>(s: seq<T>, key: T -> nat)
    requires StrictlyAscending(s, key)
    ensures SortBy(s, key) == s
  {
    if s != [] {
      SortByIdentity(s[1..], key);
      InsertFront(s[0], s[1..], key);
      assert s == [s[0]] + s[1..];
    }
  }
}
