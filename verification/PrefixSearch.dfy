/** The bounded prefix search over the sorted folded names (`CatalogCache::prefix_search`). */
module PrefixSearch {
  import opened CatalogCache
  import SchemaObjects
  import opened Sorting
  import opened Strings

  lemma {:induction false} PrefixFollows(p: string, s: string)
    requires p <= s
    ensures StrLe(p, s)
  {
    if p != [] { PrefixFollows(p[1..], s[1..]); }
  }

  /** Past the first name that no longer starts with `p`, none does: the matches form one block. */
  lemma {:induction false} BlockEnds(p: string, a: string, b: string)
    requires StrLe(p, a) && StrLe(a, b) && !(p <= a)
    ensures !(p <= b)
  {
    if p <= b {
      assert p != [] && a != [] && b != [];
      assert p[0] == b[0];
      if a[0] == p[0] {
        assert p == [p[0]] + p[1..] && a == [a[0]] + a[1..] && b == [b[0]] + b[1..];
        assert !(p[1..] <= a[1..]) && p[1..] <= b[1..];
        BlockEnds(p[1..], a[1..], b[1..]);
      }
    }
  }

  ghost predicate ByName(order: seq<(string, nat)>) { Sorted(NameLe, order) }

  /** Linear scan of the sorted names. */
  function PrefixMatches(order: seq<(string, nat)>, p: string): seq<nat> {
    if order == [] then []
    else (if p <= order[0].0 then [order[0].1] else []) + PrefixMatches(order[1..], p)
  }

  lemma {:induction false} NoMatches(order: seq<(string, nat)>, p: string)
    requires forall i :: 0 <= i < |order| ==> !(p <= order[i].0)
    ensures PrefixMatches(order, p) == []
  {
    if order != [] { NoMatches(order[1..], p); }
  }

  lemma {:induction false} MatchesConcat(a: seq<(string, nat)>, b: seq<(string, nat)>, p: string)
    ensures PrefixMatches(a + b, p) == PrefixMatches(a, p) + PrefixMatches(b, p)
  {
    if a == [] {
      assert a + b == b;
    } else {
      assert (a + b)[1..] == a[1..] + b;
      MatchesConcat(a[1..], b, p);
    }
  }

  /** `partition_point`: binary search for the first name not below `p`. */
  method PartitionPoint(order: seq<(string, nat)>, p: string) returns (lo: nat)
    requires ByName(order)
    ensures lo <= |order|
    ensures forall i :: 0 <= i < lo ==> StrLt(order[i].0, p)
    ensures forall i :: lo <= i < |order| ==> StrLe(p, order[i].0)
  {
    StrOrder();
    lo := 0;
    var hi := |order|;
    while lo < hi
      invariant lo <= hi <= |order|
      invariant forall i :: 0 <= i < lo ==> StrLt(order[i].0, p)
      invariant forall i :: hi <= i < |order| ==> StrLe(p, order[i].0)
    {
      var mid := (lo + hi) / 2;
      forall i | 0 <= i < |order|
        ensures i <= mid ==> StrLe(order[i].0, order[mid].0)
        ensures mid <= i ==> StrLe(order[mid].0, order[i].0)
      {
        if i < mid { assert NameLe(order[i], order[mid]); }
        if mid < i { assert NameLe(order[mid], order[i]); }
      }
      if StrLt(order[mid].0, p) {
        BelowPoint(order, p, mid);
        lo := mid + 1;
      } else {
        hi := mid;
      }
    }
  }

  lemma BelowPoint(order: seq<(string, nat)>, p: string, mid: nat)
    requires mid < |order| && StrLt(order[mid].0, p)
    requires forall i :: 0 <= i <= mid ==> StrLe(order[i].0, order[mid].0)
    ensures forall i :: 0 <= i <= mid ==> StrLt(order[i].0, p)
  {
    StrOrder();
    forall i | 0 <= i <= mid ensures StrLt(order[i].0, p) {
      StrTransitive(order[i].0, order[mid].0, p);
    }
  }

  /** `prefix_search`: the first `cap` matches in (folded name, index) order, and whether there are more. */
  method PrefixSearch(order: seq<(string, nat)>, p: string, cap: nat) returns (out: seq<nat>, more: bool)
    requires ByName(order)
    ensures var all := PrefixMatches(order, p);
            && out == all[..if |all| < cap then |all| else cap]
            && (more <==> |all| > cap)
  {
    var start := PartitionPoint(order, p);
    StartOfBlock(order, p, start);
    out := [];
    ghost var all := PrefixMatches(order, p);
    for i := start to |order|
      invariant |out| <= cap
      invariant all == out + PrefixMatches(order[i..], p)
    {
      MatchStep(order, p, i);
      if !(p <= order[i].0) {
        EndOfBlock(order, p, i);
        return out, false;
      }
      if |out| == cap {
        assert all[..cap] == out;
        return out, true;
      }
      OneMore(out, order[i].1, PrefixMatches(order[i + 1..], p));
      out := out + [order[i].1];
    }
    more := false;
  }

  lemma MatchStep(order: seq<(string, nat)>, p: string, i: nat)
    requires i < |order|
    ensures PrefixMatches(order[i..], p) == (if p <= order[i].0 then [order[i].1] else []) + PrefixMatches(order[i + 1..], p)
  {
    assert order[i..][1..] == order[i + 1..];
  }

  lemma OneMore(a: seq<nat>, x: nat, b: seq<nat>)
    ensures a + ([x] + b) == (a + [x]) + b
  {
  }

  lemma StartOfBlock(order: seq<(string, nat)>, p: string, start: nat)
    requires start <= |order| && forall i :: 0 <= i < start ==> StrLt(order[i].0, p)
    ensures PrefixMatches(order, p) == PrefixMatches(order[start..], p)
  {
    StrOrder();
    forall i | 0 <= i < start ensures !(p <= order[i].0) {
      if p <= order[i].0 { PrefixFollows(p, order[i].0); }
    }
    NoMatches(order[..start], p);
    MatchesConcat(order[..start], order[start..], p);
    assert order == order[..start] + order[start..];
  }

  lemma EndOfBlock(order: seq<(string, nat)>, p: string, i: nat)
    requires ByName(order) && i < |order| && StrLe(p, order[i].0) && !(p <= order[i].0)
    ensures PrefixMatches(order[i..], p) == []
  {
    forall j | i <= j < |order| ensures !(p <= order[j].0) {
      if i < j {
        assert NameLe(order[i], order[j]);
        StrOrder();
        BlockEnds(p, order[i].0, order[j].0);
      }
    }
    NoMatches(order[i..], p);
  }

  // --- on a built catalog ---

  /** `all` lists the head slots whose folded name starts with `p`, each once, by (folded name, index). */
  ghost predicate ListsMatches(fold: Folding, heads: seq<Slot>, p: string, all: seq<nat>) {
    && (forall i: nat :: i in all <==> i < |heads| && p <= fold(heads[i].item.name))
    && (forall j :: 0 <= j < |all| ==> all[j] < |heads|)
    && Distinct(all)
    && forall j, k :: 0 <= j < k < |all| ==>
         var x, y := fold(heads[all[j]].item.name), fold(heads[all[k]].item.name);
         (StrLe(x, y) && x != y) || (x == y && all[j] < all[k])
  }

  /** The searched list is the sorted list of all folded relation and function names. */
  lemma NamesSorted(c: Catalog, fold: Folding, objects: seq<SchemaObjects.SchemaObject>)
    requires Built(c, fold, objects)
    ensures ByName(c.nameOrder)
    ensures forall x :: x in c.nameOrder <==> x.1 < |Heads(objects)| && x == Named(fold, Heads(objects), x.1)
    ensures forall i, j :: 0 <= i < j < |c.nameOrder| ==> c.nameOrder[i].1 != c.nameOrder[j].1
  {
    var names := FoldedNames(fold, Heads(objects));
    NameOrder();
    SortSorts(NameLe, names);
    SortMembers(NameLe, names);
    SortPermutes(NameLe, names);
    PermutationDistinct(names, c.nameOrder);
    forall i, j | 0 <= i < j < |c.nameOrder| ensures c.nameOrder[i].1 != c.nameOrder[j].1 {
      assert c.nameOrder[i] in c.nameOrder && c.nameOrder[j] in c.nameOrder;
    }
  }

  /** The matches of sorted names come in name order, each where it was. */
  lemma {:induction false} MatchesAre(order: seq<(string, nat)>, p: string)
    ensures |PrefixMatches(order, p)| <= |order|
    ensures forall i: nat :: i in PrefixMatches(order, p) <==> exists x :: x in order && x.1 == i && p <= x.0
  {
    if order != [] {
      MatchesAre(order[1..], p);
      assert forall x :: x in order <==> x == order[0] || x in order[1..];
    }
  }

  lemma {:induction false} MatchesInOrder(order: seq<(string, nat)>, fold: Folding, heads: seq<Slot>, p: string)
    requires ByName(order) && forall x :: x in order ==> x.1 < |heads| && x == Named(fold, heads, x.1)
    requires forall i, j :: 0 <= i < j < |order| ==> order[i].1 != order[j].1
    ensures
      var all := PrefixMatches(order, p);
      && (forall j :: 0 <= j < |all| ==> all[j] < |heads|)
      && Distinct(all)
      && forall j, k :: 0 <= j < k < |all| ==> NameLe(Named(fold, heads, all[j]), Named(fold, heads, all[k]))
  {
    MatchesAre(order, p);
    if order != [] {
      var rest := order[1..];
      MatchesAre(rest, p);
      MatchesInOrder(rest, fold, heads, p);
      var all, more := PrefixMatches(order, p), PrefixMatches(rest, p);
      forall k | 0 <= k < |more| ensures more[k] != order[0].1 && NameLe(order[0], Named(fold, heads, more[k])) {
        assert more[k] in more;
        var x :| x in rest && x.1 == more[k] && p <= x.0;
        var i :| 0 <= i < |rest| && rest[i] == x;
        assert order[i + 1] == x && x in order;
      }
      assert order[0] in order;
    }
  }

  lemma CatalogMatches(c: Catalog, fold: Folding, objects: seq<SchemaObjects.SchemaObject>, p: string)
    requires Built(c, fold, objects)
    ensures ByName(c.nameOrder) && ListsMatches(fold, Heads(objects), p, PrefixMatches(c.nameOrder, p))
  {
    var heads, all := Heads(objects), PrefixMatches(c.nameOrder, p);
    NamesSorted(c, fold, objects);
    MatchesAre(c.nameOrder, p);
    MatchesInOrder(c.nameOrder, fold, heads, p);
    forall i: nat ensures i in all <==> i < |heads| && p <= fold(heads[i].item.name) {
      if i < |heads| { assert Named(fold, heads, i) in c.nameOrder; }
    }
  }

  /** `prefix_search` on a catalog: the first `cap` of all matches of the folded prefix, and whether there are more. */
  method SearchCatalog(c: Catalog, fold: Folding, ghost objects: seq<SchemaObjects.SchemaObject>, prefix: string, cap: nat)
    returns (out: seq<nat>, more: bool)
    requires Built(c, fold, objects)
    ensures exists all :: ListsMatches(fold, Heads(objects), fold(prefix), all)
                          && out == all[..if |all| < cap then |all| else cap] && (more <==> |all| > cap)
  {
    CatalogMatches(c, fold, objects, fold(prefix));
    out, more := PrefixSearch(c.nameOrder, fold(prefix), cap);
  }
}
