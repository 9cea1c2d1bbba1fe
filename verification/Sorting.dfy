/**
 Rust's library sorts, as the editor, the catalog and the ranking use them.  `Sort` is one stable
 sort; `SortedUnique` shows that when no two elements tie every correct sort gives this same sequence,
 so nothing proved about it depends on the algorithm.
 */
module Sorting {

  ghost predicate TotalPreorder<T(!new)>(le: (T, T) -> bool) {
    && (forall x, y :: le(x, y) || le(y, x))
    && (forall x, y, z :: le(x, y) && le(y, z) ==> le(x, z))
  }

  /** No two different elements of `s` tie. */
  ghost predicate NoTies<T>(le: (T, T) -> bool, s: seq<T>) {
    forall x, y :: x in s && y in s && le(x, y) && le(y, x) ==> x == y
  }

  ghost predicate Sorted<T>(le: (T, T) -> bool, s: seq<T>) {
    forall i, j :: 0 <= i < j < |s| ==> le(s[i], s[j])
  }

  ghost predicate Distinct<T>(s: seq<T>) {
    forall i, j :: 0 <= i < j < |s| ==> s[i] != s[j]
  }

  /** Puts `x` in front of the first element it may precede. */
  function Insert<T>(le: (T, T) -> bool, x: T, s: seq<T>): seq<T> {
    if s == [] then [x]
    else if le(x, s[0]) then [x] + s
    else [s[0]] + Insert(le, x, s[1..])
  }

  function Sort<T>(le: (T, T) -> bool, s: seq<T>): seq<T> {
    if s == [] then [] else Insert(le, s[0], Sort(le, s[1..]))
  }

  function Filter<T>(p: T -> bool, s: seq<T>): seq<T> {
    if s == [] then []
    else (if p(s[0]) then [s[0]] else []) + Filter(p, s[1..])
  }

  lemma {:induction false} FilterMembers<T(!new)>(p: T -> bool, s: seq<T>)
    ensures forall x :: x in Filter(p, s) <==> x in s && p(x)
  {
    if s != [] {
      FilterMembers(p, s[1..]);
      assert s == [s[0]] + s[1..];
    }
  }

  lemma FilterHead<T(!new)>(p: T -> bool, x: T, s: seq<T>)
    ensures Filter(p, [x] + s) == (if p(x) then [x] else []) + Filter(p, s)
  {
    assert ([x] + s)[1..] == s;
  }

  lemma Associates<T(!new)>(a: seq<T>, b: seq<T>, c: seq<T>)
    ensures a + (b + c) == (a + b) + c
  {
  }

  lemma {:induction false} FilterConcat<T(!new)>(p: T -> bool, a: seq<T>, b: seq<T>)
    ensures Filter(p, a + b) == Filter(p, a) + Filter(p, b)
  {
    if a == [] {
      assert a + b == b;
    } else {
      var x, rest := a[0], a[1..];
      assert a == [x] + rest && a + b == [x] + (rest + b);
      FilterConcat(p, rest, b);
      FilterHead(p, x, rest + b);
      Associates(if p(x) then [x] else [], Filter(p, rest), Filter(p, b));
    }
  }

  lemma {:induction false} InsertPermutes<T(!new)>(le: (T, T) -> bool, x: T, s: seq<T>)
    ensures multiset(Insert(le, x, s)) == multiset([x]) + multiset(s)
    ensures |Insert(le, x, s)| == |s| + 1
  {
    if s != [] && !le(x, s[0]) {
      InsertPermutes(le, x, s[1..]);
      assert s == [s[0]] + s[1..];
    }
  }

  lemma {:induction false} SortPermutes<T(!new)>(le: (T, T) -> bool, s: seq<T>)
    ensures multiset(Sort(le, s)) == multiset(s)
    ensures |Sort(le, s)| == |s|
  {
    if s != [] {
      SortPermutes(le, s[1..]);
      InsertPermutes(le, s[0], Sort(le, s[1..]));
      assert s == [s[0]] + s[1..];
    }
  }

  lemma SameMembers<T(!new)>(s: seq<T>, t: seq<T>)
    requires multiset(s) == multiset(t)
    ensures forall x :: x in s <==> x in t
  {
    forall x ensures x in s <==> x in t {
      assert x in s <==> x in multiset(s);
      assert x in t <==> x in multiset(t);
    }
  }

  lemma SortMembers<T(!new)>(le: (T, T) -> bool, s: seq<T>)
    ensures forall x :: x in Sort(le, s) <==> x in s
  {
    SortPermutes(le, s);
    SameMembers(Sort(le, s), s);
  }

  lemma {:induction false} InsertSorts<T(!new)>(le: (T, T) -> bool, x: T, s: seq<T>)
    requires TotalPreorder(le) && Sorted(le, s)
    ensures Sorted(le, Insert(le, x, s))
  {
    if s != [] && !le(x, s[0]) {
      InsertSorts(le, x, s[1..]);
      InsertPermutes(le, x, s[1..]);
      var r := Insert(le, x, s[1..]);
      SameMembers(r, [x] + s[1..]);
      forall y | y in r ensures le(s[0], y) { assert y in [x] + s[1..]; }
    }
  }

  lemma {:induction false} SortSorts<T(!new)>(le: (T, T) -> bool, s: seq<T>)
    requires TotalPreorder(le)
    ensures Sorted(le, Sort(le, s))
  {
    if s != [] {
      SortSorts(le, s[1..]);
      InsertSorts(le, s[0], Sort(le, s[1..]));
    }
  }

  lemma {:induction false} SortOfSorted<T(!new)>(le: (T, T) -> bool, s: seq<T>)
    requires Sorted(le, s)
    ensures Sort(le, s) == s
  {
    if s != [] {
      SortOfSorted(le, s[1..]);
      assert s == [s[0]] + s[1..];
    }
  }

  /** Without ties a multiset has exactly one sorted arrangement. */
  lemma {:induction false} SortedUnique<T(!new)>(le: (T, T) -> bool, s: seq<T>, t: seq<T>)
    requires NoTies(le, s) && Sorted(le, s) && Sorted(le, t)
    requires multiset(s) == multiset(t)
    ensures s == t
  {
    SameLength(s, t);
    if s != [] {
      SameHead(le, s, t);
      CutAt(s, 0);
      CutAt(t, 0);
      TailSorted(le, s);
      TailSorted(le, t);
      SortedUnique(le, s[1..], t[1..]);
    }
  }

  lemma SameLength<T(!new)>(s: seq<T>, t: seq<T>)
    requires multiset(s) == multiset(t)
    ensures |s| == |t|
  {
    assert |s| == |multiset(s)| && |t| == |multiset(t)|;
  }

  lemma TailSorted<T(!new)>(le: (T, T) -> bool, s: seq<T>)
    requires s != []
    ensures NoTies(le, s) ==> NoTies(le, s[1..])
    ensures Sorted(le, s) ==> Sorted(le, s[1..])
  {
  }

  lemma SameHead<T(!new)>(le: (T, T) -> bool, s: seq<T>, t: seq<T>)
    requires NoTies(le, s) && Sorted(le, s) && Sorted(le, t) && multiset(s) == multiset(t) && |s| == |t| > 0
    ensures s[0] == t[0]
  {
    SameMembers(s, t);
    assert s[0] in t && t[0] in s;
  }

  lemma CutAt<T(!new)>(s: seq<T>, i: nat)
    requires i < |s|
    ensures s == s[..i] + ([s[i]] + s[i + 1..])
    ensures multiset(s[..i] + s[i + 1..]) == multiset(s) - multiset{s[i]}
    ensures i == 0 ==> s[..i] + s[i + 1..] == s[1..]
  {
    assert s == s[..i] + ([s[i]] + s[i + 1..]);
  }

  lemma {:induction false} InsertStable<T(!new)>(le: (T, T) -> bool, p: T -> bool, x: T, s: seq<T>)
    requires p(x) ==> forall y :: y in s && p(y) ==> le(x, y)
    ensures Filter(p, Insert(le, x, s)) == (if p(x) then [x] else []) + Filter(p, s)
  {
    if s != [] && !le(x, s[0]) {
      var y, rest := s[0], s[1..];
      assert s == [y] + rest && (p(x) ==> !p(y));
      InsertStable(le, p, x, rest);
      FilterHead(p, y, Insert(le, x, rest));
      FilterHead(p, y, rest);
      Passes(if p(x) then [x] else [], if p(y) then [y] else [], Filter(p, rest));
    } else {
      FilterHead(p, x, s);
    }
  }

  /** Two lists, one of them empty, may change places. */
  lemma Passes<T(!new)>(a: seq<T>, b: seq<T>, c: seq<T>)
    requires a == [] || b == []
    ensures a + (b + c) == b + (a + c)
  {
  }

  /** Stability: elements that tie keep their order. */
  lemma {:induction false} SortStable<T(!new)>(le: (T, T) -> bool, p: T -> bool, s: seq<T>)
    requires forall x, y :: x in s && y in s && p(x) && p(y) ==> le(x, y)
    ensures Filter(p, Sort(le, s)) == Filter(p, s)
  {
    if s != [] {
      SortStable(le, p, s[1..]);
      var r := Sort(le, s[1..]);
      SortPermutes(le, s[1..]);
      SameMembers(r, s[1..]);
      forall y | y in r && p(s[0]) && p(y) ensures le(s[0], y) {
        assert y in s[1..];
      }
      InsertStable(le, p, s[0], r);
    }
  }

  lemma {:induction false} DistinctCounts<T(!new)>(s: seq<T>)
    requires Distinct(s)
    ensures forall x :: multiset(s)[x] <= 1
  {
    if s != [] {
      var rest := s[1..];
      DistinctCounts(rest);
      assert s == [s[0]] + rest;
      assert s[0] !in rest;
    }
  }

  lemma RepeatCounts<T(!new)>(t: seq<T>, i: nat, j: nat)
    requires i < j < |t| && t[i] == t[j]
    ensures multiset(t)[t[i]] >= 2
  {
    assert t == t[..i] + [t[i]] + t[i + 1..j] + [t[j]] + t[j + 1..];
  }

  lemma PermutationDistinct<T(!new)>(s: seq<T>, t: seq<T>)
    requires Distinct(s) && multiset(s) == multiset(t)
    ensures Distinct(t)
  {
    DistinctCounts(s);
    forall i, j | 0 <= i < j < |t| ensures t[i] != t[j] {
      if t[i] == t[j] { RepeatCounts(t, i, j); }
    }
  }

  /** Where a permutation has the first element, and what is left without it. */
  lemma RemoveFirst<T(!new)>(a: seq<T>, b: seq<T>) returns (i: nat)
    requires a != [] && multiset(a) == multiset(b)
    ensures i < |b| && b[i] == a[0]
    ensures multiset(b[..i] + b[i + 1..]) == multiset(a[1..])
    ensures a == [a[0]] + a[1..] && b == b[..i] + ([b[i]] + b[i + 1..])
  {
    SameMembers(a, b);
    assert a[0] in b;
    i :| 0 <= i < |b| && b[i] == a[0];
    CutAt(a, 0);
    CutAt(b, i);
  }
}
