/** Sorting by a total order, and the lexicographic orders of strings and paths. */
module Sorting {

  ghost predicate TotalOrder<T(!new)>(le: (T, T) -> bool) {
    && (forall x, y :: le(x, y) || le(y, x))
    && (forall x, y :: le(x, y) && le(y, x) ==> x == y)
    && (forall x, y, z :: le(x, y) && le(y, z) ==> le(x, z))
  }

  ghost predicate Sorted<T(!new)>(le: (T, T) -> bool, s: seq<T>) {
    forall i, j :: 0 <= i < j < |s| ==> le(s[i], s[j])
  }

  ghost predicate Distinct<T>(s: seq<T>) {
    forall i, j :: 0 <= i < j < |s| ==> s[i] != s[j]
  }

  ghost function Elements<T>(s: seq<T>): set<T> { set x | x in s }

  lemma AppendDistinct<T>(s: seq<T>, x: T)
    requires Distinct(s) && x !in Elements(s)
    ensures Distinct(s + [x])
    ensures Elements(s + [x]) == Elements(s) + {x}
  {
    var r := s + [x];
    forall i, j | 0 <= i < j < |r| ensures r[i] != r[j] {
      assert s[i] in Elements(s);
    }
    assert forall y :: y in r <==> y in s || y == x;
  }

  function Insert<T>(le: (T, T) -> bool, x: T, s: seq<T>): (r: seq<T>)
    ensures multiset(r) == multiset{x} + multiset(s)
  {
    if s == [] then [x]
    else if le(x, s[0]) then [x] + s
    else
      assert s == [s[0]] + s[1..];
      [s[0]] + Insert(le, x, s[1..])
  }

  /** Python's `sorted`. */
  function Sort<T>(le: (T, T) -> bool, s: seq<T>): (r: seq<T>)
    ensures multiset(r) == multiset(s)
  {
    if s == [] then [] else
      assert s == [s[0]] + s[1..];
      Insert(le, s[0], Sort(le, s[1..]))
  }

  lemma {:induction false} InsertSorts<T(!new)>(le: (T, T) -> bool, x: T, s: seq<T>)
    requires TotalOrder(le) && Sorted(le, s)
    ensures Sorted(le, Insert(le, x, s))
  {
    if s != [] && !le(x, s[0]) {
      InsertSorts(le, x, s[1..]);
      var r := Insert(le, x, s[1..]);
      forall y | y in r ensures le(s[0], y) {
        assert y in multiset(r);
        assert y == x || y in s[1..];
      }
    }
  }

  lemma {:induction false} SortSorts<T(!new)>(le: (T, T) -> bool, s: seq<T>)
    requires TotalOrder(le)
    ensures Sorted(le, Sort(le, s))
  {
    if s != [] {
      SortSorts(le, s[1..]);
      InsertSorts(le, s[0], Sort(le, s[1..]));
    }
  }

  lemma SmallestFirst<T(!new)>(le: (T, T) -> bool, a: seq<T>, b: seq<T>)
    requires TotalOrder(le) && Sorted(le, a) && Sorted(le, b)
    requires multiset(a) == multiset(b) && a != [] && b != []
    ensures le(a[0], b[0])
  {
    assert b[0] in multiset(a);
    var i :| 0 <= i < |a| && a[i] == b[0];
    assert i == 0 || le(a[0], a[i]);
  }

  lemma RestOf<T>(s: seq<T>)
    requires s != []
    ensures s == [s[0]] + s[1..] && multiset(s[1..]) == multiset(s) - multiset{s[0]}
  {
    assert s == [s[0]] + s[1..];
  }

  /** A multiset has one sorted listing. */
  lemma {:induction false} SortedIsUnique<T(!new)>(le: (T, T) -> bool, a: seq<T>, b: seq<T>)
    requires TotalOrder(le) && Sorted(le, a) && Sorted(le, b) && multiset(a) == multiset(b)
    ensures a == b
  {
    assert |a| == |multiset(a)| == |multiset(b)| == |b|;
    if a != [] {
      SmallestFirst(le, a, b);
      SmallestFirst(le, b, a);
      RestOf(a);
      RestOf(b);
      SortedIsUnique(le, a[1..], b[1..]);
    }
  }

  ghost function Listing<T(!new)>(s: set<T>): (r: seq<T>)
    ensures multiset(r) == multiset(s) && Elements(r) == s
  {
    if s == {} then [] else
      var x :| x in s;
      assert s == (s - {x}) + {x};
      [x] + Listing(s - {x})
  }

  /** The sorted listing of a set. */
  ghost function SortedSet<T(!new)>(le: (T, T) -> bool, s: set<T>): (r: seq<T>)
    ensures multiset(r) == multiset(s)
  {
    Sort(le, Listing(s))
  }

  lemma {:induction false} DistinctMultiset<T>(s: seq<T>)
    requires Distinct(s)
    ensures multiset(s) == multiset(Elements(s))
  {
    if s != [] {
      var n := |s| - 1;
      DistinctMultiset(s[..n]);
      assert s == s[..n] + [s[n]];
      assert Elements(s) == Elements(s[..n]) + {s[n]};
    }
  }

  /** Sorting a list without repetitions depends only on what it contains. */
  lemma SortOfDistinct<T(!new)>(le: (T, T) -> bool, s: seq<T>)
    requires TotalOrder(le) && Distinct(s)
    ensures Sort(le, s) == SortedSet(le, Elements(s))
  {
    DistinctMultiset(s);
    SortSorts(le, s);
    SortSorts(le, Listing(Elements(s)));
    SortedIsUnique(le, Sort(le, s), SortedSet(le, Elements(s)));
  }

  lemma CountedTwice<T>(r: seq<T>, i: nat, j: nat)
    requires i < j < |r| && r[i] == r[j]
    ensures multiset(r)[r[i]] >= 2
  {
    assert r == r[..j] + r[j..];
    assert r[i] in r[..j] && r[j] in r[j..];
  }

  lemma SortedSetIsSorted<T(!new)>(le: (T, T) -> bool, s: set<T>)
    requires TotalOrder(le)
    ensures Sorted(le, SortedSet(le, s)) && Elements(SortedSet(le, s)) == s && Distinct(SortedSet(le, s))
  {
    SortSorts(le, Listing(s));
    var r := SortedSet(le, s);
    forall x ensures x in r <==> x in s { assert x in multiset(r) <==> x in multiset(s); }
    forall i, j | 0 <= i < j < |r| ensures r[i] != r[j] {
      if r[i] == r[j] { CountedTwice(r, i, j); }
    }
  }

  predicate Lex<T(==)>(le: (T, T) -> bool, a: seq<T>, b: seq<T>) {
    if a == [] then true
    else if b == [] then false
    else if a[0] != b[0] then le(a[0], b[0])
    else Lex(le, a[1..], b[1..])
  }

  lemma {:induction false} LexTotal<T(!new)>(le: (T, T) -> bool, a: seq<T>, b: seq<T>)
    requires TotalOrder(le)
    ensures Lex(le, a, b) || Lex(le, b, a)
    ensures Lex(le, a, b) && Lex(le, b, a) ==> a == b
  {
    if a != [] && b != [] && a[0] == b[0] {
      LexTotal(le, a[1..], b[1..]);
      assert a == [a[0]] + a[1..] && b == [b[0]] + b[1..];
    }
  }

  lemma {:induction false} LexTransitive<T(!new)>(le: (T, T) -> bool, a: seq<T>, b: seq<T>, c: seq<T>)
    requires TotalOrder(le) && Lex(le, a, b) && Lex(le, b, c)
    ensures Lex(le, a, c)
  {
    if a != [] && a[0] == b[0] == c[0] {
      LexTransitive(le, a[1..], b[1..], c[1..]);
    }
  }

  lemma LexIsTotalOrder<T(!new)>(le: (T, T) -> bool, lex: (seq<T>, seq<T>) -> bool)
    requires TotalOrder(le) && forall a, b :: lex(a, b) <==> Lex(le, a, b)
    ensures TotalOrder(lex)
  {
    forall a, b ensures (lex(a, b) || lex(b, a)) && (lex(a, b) && lex(b, a) ==> a == b) { LexTotal(le, a, b); }
    forall a, b, c | lex(a, b) && lex(b, c) ensures lex(a, c) { LexTransitive(le, a, b, c); }
  }

  /** The first place where two texts differ decides; without one the shorter comes first. */
  ghost predicate DiffersAt<T>(a: seq<T>, b: seq<T>, k: nat) {
    k < |a| && k < |b| && a[..k] == b[..k] && a[k] != b[k]
  }

  lemma SameHead<T>(a: seq<T>, b: seq<T>, k: nat)
    requires 0 < k <= |a| && k <= |b| && a[..k] == b[..k]
    ensures a[0] == b[0]
  {
    assert a[..k][0] == b[..k][0];
  }

  lemma {:induction false} LexIs<T(!new)>(le: (T, T) -> bool, a: seq<T>, b: seq<T>)
    ensures a <= b ==> Lex(le, a, b)
    ensures b < a ==> !Lex(le, a, b)
    ensures forall k: nat :: DiffersAt(a, b, k) ==> (Lex(le, a, b) <==> le(a[k], b[k]))
  {
    if a != [] && b != [] && a[0] == b[0] {
      LexIs(le, a[1..], b[1..]);
      forall k: nat | DiffersAt(a, b, k) ensures k != 0 && DiffersAt(a[1..], b[1..], k - 1) {
        assert a[1..][..k - 1] == a[..k][1..] && b[1..][..k - 1] == b[..k][1..];
      }
    } else if a != [] && b != [] {
      forall k: nat | DiffersAt(a, b, k) ensures k == 0 { if k != 0 { SameHead(a, b, k); } }
    }
  }

  predicate CharLe(a: char, b: char) { a <= b }

  /** Python's order on strings: by code point, lexicographically. */
  predicate StringLe(a: string, b: string) { Lex(CharLe, a, b) }

  /** The order of `pathlib` paths: by their parts, lexicographically. */
  predicate PathLe(a: seq<string>, b: seq<string>) { Lex(StringLe, a, b) }

  /** Python's orders: a beginning comes first; else the first character, or the first part, that differs
      decides, a character by its code point and a part as a text. */
  lemma PythonOrders(a: string, b: string, p: seq<string>, q: seq<string>, k: nat)
    ensures a <= b ==> StringLe(a, b)
    ensures DiffersAt(a, b, k) ==> (StringLe(a, b) <==> a[k] < b[k])
    ensures p <= q ==> PathLe(p, q)
    ensures DiffersAt(p, q, k) ==> (PathLe(p, q) <==> StringLe(p[k], q[k]))
  {
    LexIs(CharLe, a, b);
    LexIs(StringLe, p, q);
  }

  lemma StringOrder()
    ensures TotalOrder(StringLe)
  {
    LexIsTotalOrder(CharLe, StringLe);
  }

  lemma PathOrder()
    ensures TotalOrder(PathLe)
  {
    StringOrder();
    LexIsTotalOrder(StringLe, PathLe);
  }
}
