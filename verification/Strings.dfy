/** The order of Rust strings: by code point, a proper prefix first. */
module Strings {
  import opened Sorting

  predicate StrLe(a: string, b: string) {
    a == [] || (b != [] && (a[0] < b[0] || (a[0] == b[0] && StrLe(a[1..], b[1..]))))
  }

  predicate StrLt(a: string, b: string) { StrLe(a, b) && a != b }

  lemma {:induction false} StrTotal(a: string, b: string)
    ensures StrLe(a, b) || StrLe(b, a)
  {
    if a != [] && b != [] { StrTotal(a[1..], b[1..]); }
  }

  lemma {:induction false} StrTransitive(a: string, b: string, c: string)
    requires StrLe(a, b) && StrLe(b, c)
    ensures StrLe(a, c)
  {
    if a != [] && a[0] == b[0] == c[0] { StrTransitive(a[1..], b[1..], c[1..]); }
  }

  lemma {:induction false} StrAntisymmetric(a: string, b: string)
    requires StrLe(a, b) && StrLe(b, a)
    ensures a == b
  {
    if a != [] {
      StrAntisymmetric(a[1..], b[1..]);
      assert a == [a[0]] + a[1..] && b == [b[0]] + b[1..];
    }
  }

  lemma StrOrder()
    ensures TotalPreorder(StrLe)
    ensures forall a, b :: StrLe(a, b) && StrLe(b, a) ==> a == b
  {
    forall a, b ensures StrLe(a, b) || StrLe(b, a) { StrTotal(a, b); }
    forall a, b, c | StrLe(a, b) && StrLe(b, c) ensures StrLe(a, c) { StrTransitive(a, b, c); }
    forall a, b | StrLe(a, b) && StrLe(b, a) ensures a == b { StrAntisymmetric(a, b); }
  }

  /** `dedup`: drops an element equal to the one before it. */
  function Dedup<T(==)>(s: seq<T>): seq<T> {
    if |s| < 2 then s
    else if s[0] == s[1] then Dedup(s[1..])
    else [s[0]] + Dedup(s[1..])
  }

  lemma {:induction false} DedupMembers<T(!new)>(s: seq<T>)
    ensures forall x :: x in Dedup(s) <==> x in s
    ensures s != [] ==> Dedup(s) != [] && Dedup(s)[0] == s[0]
  {
    if |s| >= 2 {
      DedupMembers(s[1..]);
      assert s == [s[0]] + s[1..];
    }
  }

  /** On a sorted list without ties between different elements `dedup` leaves each element once. */
  lemma {:induction false} DedupDistinct<T(!new)>(le: (T, T) -> bool, s: seq<T>)
    requires Sorted(le, s) && NoTies(le, s)
    ensures Distinct(Dedup(s)) && Sorted(le, Dedup(s))
  {
    if |s| >= 2 {
      var rest := s[1..];
      assert s == [s[0]] + rest;
      DedupDistinct(le, rest);
      DedupMembers(rest);
      if s[0] != s[1] {
        forall x | x in rest ensures x != s[0] && le(s[0], x) {
          var i :| 0 <= i < |rest| && rest[i] == x;
          assert le(s[0], s[1]) && le(s[0], s[i + 1]) && (i > 0 ==> le(s[1], s[i + 1]));
        }
      }
    }
  }
}
