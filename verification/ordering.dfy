/** Total orders, sorting and lexicographic comparison.
    `Vec::sort` is specified by what it returns: the sorted permutation of its input. */
module Ordering {

  ghost predicate TotalOrder<T(!new)>(le: (T, T) -> bool) {
    && (forall a :: le(a, a))
    && (forall a, b :: le(a, b) || le(b, a))
    && (forall a, b :: le(a, b) && le(b, a) ==> a == b)
    && (forall a, b, c :: le(a, b) && le(b, c) ==> le(a, c))
  }

  ghost predicate SortedBy<T>(s: seq<T>, le: (T, T) -> bool) {
    forall i, j :: 0 <= i < j < |s| ==> le(s[i], s[j])
  }

  lemma SortedCons<T>(h: T, s: seq<T>, le: (T, T) -> bool)
    requires SortedBy(s, le)
    requires forall y :: y in s ==> le(h, y)
    ensures SortedBy([h] + s, le)
  {
    var r := [h] + s;
    forall i, j | 0 <= i < j < |r| ensures le(r[i], r[j]) {
      assert r[j] == s[j - 1];
      if i > 0 { assert r[i] == s[i - 1]; }
    }
  }

  lemma BelowHead<T(!new)>(x: T, s: seq<T>, le: (T, T) -> bool)
    requires TotalOrder(le) && SortedBy(s, le) && s != [] && le(x, s[0])
    ensures forall y :: y in s ==> le(x, y)
  {
    forall y | y in s ensures le(x, y) {
      var k :| 0 <= k < |s| && s[k] == y;
      assert k == 0 || le(s[0], s[k]);
    }
  }

  function Insert<T(!new)>(x: T, s: seq<T>, le: (T, T) -> bool): (r: seq<T>)
    requires TotalOrder(le) && SortedBy(s, le)
    ensures SortedBy(r, le)
    ensures multiset(r) == multiset{x} + multiset(s)
    ensures forall y :: y in r ==> y == x || y in s
  {
    if s == [] then [x]
    else if le(x, s[0]) then
      BelowHead(x, s, le);
      SortedCons(x, s, le);
      [x] + s
    else
      var rest := Insert(x, s[1..], le);
      assert s == [s[0]] + s[1..];
      SortedCons(s[0], rest, le);
      [s[0]] + rest
  }

  function Sort<T(!new)>(s: seq<T>, le: (T, T) -> bool): (r: seq<T>)
    requires TotalOrder(le)
    ensures SortedBy(r, le)
    ensures multiset(r) == multiset(s)
  {
    if s == [] then []
    else
      assert s == [s[0]] + s[1..];
      Insert(s[0], Sort(s[1..], le), le)
  }

  lemma {:induction false} SortedUnique<T(!new)>(a: seq<T>, b: seq<T>, le: (T, T) -> bool)
    requires TotalOrder(le) && SortedBy(a, le) && SortedBy(b, le)
    requires multiset(a) == multiset(b)
    ensures a == b
  {
    assert |a| == |multiset(a)| == |multiset(b)| == |b|;
    if a != [] {
      assert a[0] in multiset(b) && b[0] in multiset(a);
      assert le(a[0], b[0]) && le(b[0], a[0]);
      assert a == [a[0]] + a[1..] && b == [b[0]] + b[1..];
      assert multiset(a[1..]) == multiset(a) - multiset{a[0]};
      assert multiset(b[1..]) == multiset(b) - multiset{b[0]};
      SortedUnique(a[1..], b[1..], le);
    }
  }

  ghost predicate StrictlySorted<T>(s: seq<T>, le: (T, T) -> bool) {
    forall i, j :: 0 <= i < j < |s| ==> le(s[i], s[j]) && s[i] != s[j]
  }

  /** A strictly sorted sequence is determined by its set of elements. */
  lemma {:induction false} StrictlySortedUnique<T(!new)>(a: seq<T>, b: seq<T>, le: (T, T) -> bool)
    requires TotalOrder(le) && StrictlySorted(a, le) && StrictlySorted(b, le)
    requires forall x :: x in a <==> x in b
    ensures a == b
  {
    assert b != [] ==> b[0] in a;
    if a != [] {
      assert a[0] in b;
      assert a[0] == b[0];
      forall x ensures x in a[1..] <==> x in b[1..] {
        assert x in a[1..] ==> x in a && x != a[0];
        assert x in b[1..] ==> x in b && x != b[0];
        assert x in a && x != a[0] ==> x in a[1..];
        assert x in b && x != b[0] ==> x in b[1..];
      }
      StrictlySortedUnique(a[1..], b[1..], le);
    }
  }

  /** `Vec::dedup` after a sort: drops every element equal to its predecessor. */
  method DedupSorted<T(!new,==)>(s: seq<T>, ghost le: (T, T) -> bool) returns (r: seq<T>)
    requires TotalOrder(le) && SortedBy(s, le)
    ensures StrictlySorted(r, le)
    ensures forall x :: x in r <==> x in s
  {
    r := [];
    for i := 0 to |s|
      invariant StrictlySorted(r, le)
      invariant forall x :: x in r <==> x in s[..i]
      invariant i > 0 ==> r != [] && r[|r| - 1] == s[i - 1]
    {
      assert s[..i + 1] == s[..i] + [s[i]];
      if i == 0 || s[i] != s[i - 1] {
        forall k | 0 <= k < |r| ensures le(r[k], s[i]) && r[k] != s[i] {
          assert r[k] in s[..i];
          if k < |r| - 1 {
            assert le(r[k], r[|r| - 1]) && r[k] != r[|r| - 1];
          }
        }
        r := r + [s[i]];
      }
    }
    assert s[..|s|] == s;
  }

  /** Some element of a set, in no particular order. */
  method AnyOf<T(==)>(s: set<T>) returns (x: T)
    requires s != {}
    ensures x in s
  {
    x :| x in s;
  }

  predicate Lex<T(==)>(le: (T, T) -> bool, a: seq<T>, b: seq<T>) {
    if a == [] then true
    else if b == [] then false
    else if a[0] == b[0] then Lex(le, a[1..], b[1..])
    else le(a[0], b[0])
  }

  lemma {:induction false} LexReflexive<T(!new)>(le: (T, T) -> bool, a: seq<T>)
    ensures Lex(le, a, a)
  {
    if a != [] { LexReflexive(le, a[1..]); }
  }

  lemma {:induction false} LexTotalPair<T(!new)>(le: (T, T) -> bool, a: seq<T>, b: seq<T>)
    requires TotalOrder(le)
    ensures Lex(le, a, b) || Lex(le, b, a)
    ensures Lex(le, a, b) && Lex(le, b, a) ==> a == b
  {
    if a != [] && b != [] && a[0] == b[0] {
      LexTotalPair(le, a[1..], b[1..]);
      assert a == [a[0]] + a[1..] && b == [b[0]] + b[1..];
    }
  }

  lemma {:induction false} LexTransitive<T(!new)>(le: (T, T) -> bool, a: seq<T>, b: seq<T>, c: seq<T>)
    requires TotalOrder(le)
    requires Lex(le, a, b) && Lex(le, b, c)
    ensures Lex(le, a, c)
  {
    if a != [] && a[0] == b[0] && b[0] == c[0] {
      LexTransitive(le, a[1..], b[1..], c[1..]);
    }
  }

  /** A prefix compares below every extension of it. */
  lemma {:induction false} LexPrefix<T(!new)>(le: (T, T) -> bool, a: seq<T>, b: seq<T>)
    requires a <= b
    ensures Lex(le, a, b)
  {
    if a != [] { LexPrefix(le, a[1..], b[1..]); }
  }

  const CharLe: (char, char) -> bool := (a: char, b: char) => a <= b

  const StringLe: (string, string) -> bool := (a: string, b: string) => Lex(CharLe, a, b)

  const PathLe: (seq<string>, seq<string>) -> bool := (a: seq<string>, b: seq<string>) => Lex(StringLe, a, b)

  lemma StringOrder()
    ensures TotalOrder(StringLe)
  {
    forall a: string, b: string, c: string
      ensures StringLe(a, a)
      ensures StringLe(a, b) || StringLe(b, a)
      ensures StringLe(a, b) && StringLe(b, a) ==> a == b
      ensures StringLe(a, b) && StringLe(b, c) ==> StringLe(a, c)
    {
      LexReflexive(CharLe, a);
      LexTotalPair(CharLe, a, b);
      if StringLe(a, b) && StringLe(b, c) { LexTransitive(CharLe, a, b, c); }
    }
  }

  lemma PathOrder()
    ensures TotalOrder(PathLe)
  {
    StringOrder();
    forall a: seq<string>, b: seq<string>, c: seq<string>
      ensures PathLe(a, a)
      ensures PathLe(a, b) || PathLe(b, a)
      ensures PathLe(a, b) && PathLe(b, a) ==> a == b
      ensures PathLe(a, b) && PathLe(b, c) ==> PathLe(a, c)
    {
      LexReflexive(StringLe, a);
      LexTotalPair(StringLe, a, b);
      if PathLe(a, b) && PathLe(b, c) { LexTransitive(StringLe, a, b, c); }
    }
  }
}
