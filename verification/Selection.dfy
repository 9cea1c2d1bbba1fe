/** Cursors with an optional selection, and their normal form (`tempr_editor/src/selection.rs`). */
module Selections {
  import opened Sorting

  /** `head` is where the cursor is, `anchor` where the selection started. */
  datatype Selection = Selection(anchor: nat, head: nat) {
    predicate IsEmpty() { anchor == head }

    function Start(): nat { if anchor <= head then anchor else head }

    function End(): nat { if anchor <= head then head else anchor }

    predicate Reversed() { head < anchor }
  }

  function Cursor(offset: nat): Selection { Selection(offset, offset) }

  predicate KeyLe(a: Selection, b: Selection) {
    a.Start() < b.Start() || (a.Start() == b.Start() && a.End() <= b.End())
  }

  /** Two ranges merge when they overlap; two cursors merge when they coincide. */
  predicate Merges(last: Selection, s: Selection) {
    s.Start() < last.End() || (s.IsEmpty() && s.Start() == last.End() && last.IsEmpty())
  }

  function Merge(last: Selection, s: Selection): Selection {
    var end := if last.End() < s.End() then s.End() else last.End();
    if last.Reversed() then Selection(end, last.Start()) else Selection(last.Start(), end)
  }

  /** One step of the merge: `s` joins the last kept selection or is kept by itself. */
  function Absorb(out: seq<Selection>, s: Selection): seq<Selection> {
    if out != [] && Merges(out[|out| - 1], s)
    then out[..|out| - 1] + [Merge(out[|out| - 1], s)]
    else out + [s]
  }

  function AbsorbAll(out: seq<Selection>, rest: seq<Selection>): seq<Selection>
    decreases |rest|
  {
    if rest == [] then out else AbsorbAll(Absorb(out, rest[0]), rest[1..])
  }

  function Normalized(sels: seq<Selection>): seq<Selection> {
    AbsorbAll([], Sort(KeyLe, sels))
  }

  method Normalize(sels: seq<Selection>) returns (out: seq<Selection>)
    ensures out == Normalized(sels)
  {
    var sorted := Sort(KeyLe, sels);
    out := [];
    for i := 0 to |sorted|
      invariant AbsorbAll(out, sorted[i..]) == Normalized(sels)
    {
      var s := sorted[i];
      assert sorted[i..][1..] == sorted[i + 1..];
      assert AbsorbAll(out, sorted[i..]) == AbsorbAll(Absorb(out, s), sorted[i + 1..]);
      if out != [] && Merges(out[|out| - 1], s) {
        out := out[..|out| - 1] + [Merge(out[|out| - 1], s)];
      } else {
        out := out + [s];
      }
    }
  }

  // --- what a normalized list is ---

  /** Ascending, never overlapping, and never two cursors at one offset. */
  ghost predicate Separated(s: seq<Selection>) {
    forall i, j :: 0 <= i < j < |s| ==>
      s[i].End() <= s[j].Start() && !(s[i].IsEmpty() && s[i] == s[j])
  }

  ghost predicate Covers(s: seq<Selection>, p: nat) {
    exists t :: t in s && t.Start() <= p < t.End()
  }

  /** `p` lies strictly inside a selection. */
  ghost predicate Interior(s: seq<Selection>, p: nat) {
    exists t :: t in s && t.Start() < p < t.End()
  }

  /** `out` says the same as `sels`: the same bytes are selected, a seam is closed only where ranges
      overlap across it, and a cursor disappears only strictly inside a selection. */
  ghost predicate SameMeaning(sels: seq<Selection>, out: seq<Selection>) {
    && (forall p: nat :: Covers(out, p) <==> Covers(sels, p))
    && (forall p: nat :: Interior(out, p) <==> Interior(sels, p))
    && (forall p: nat :: Cursor(p) in out <==> Cursor(p) in sels && !Interior(sels, p))
  }

  ghost predicate Progress(done: seq<Selection>, out: seq<Selection>) {
    && Separated(out)
    && SameMeaning(done, out)
    && (out != [] ==> exists d :: d in done && d.Start() == out[|out| - 1].Start())
    && (forall t :: t in out ==> exists a, b :: a in done && b in done && a.Start() == t.Start() && b.End() == t.End())
  }

  lemma AbsorbKeepsOrder(out: seq<Selection>, s: Selection)
    requires Separated(out) && (out != [] ==> out[|out| - 1].Start() <= s.Start())
    ensures Separated(Absorb(out, s))
  {
  }

  lemma Appended(a: seq<Selection>, s: Selection)
    ensures forall x :: x in a + [s] <==> x in a || x == s
    ensures forall p: nat :: Covers(a + [s], p) <==> Covers(a, p) || s.Start() <= p < s.End()
    ensures forall p: nat :: Interior(a + [s], p) <==> Interior(a, p) || s.Start() < p < s.End()
  {
    forall p: nat
      ensures Covers(a + [s], p) <==> Covers(a, p) || s.Start() <= p < s.End()
      ensures Interior(a + [s], p) <==> Interior(a, p) || s.Start() < p < s.End()
    {
      assert s in a + [s];
      if t :| t in a && t.Start() <= p < t.End() { assert t in a + [s]; }
      if t :| t in a && t.Start() < p < t.End() { assert t in a + [s]; }
    }
  }

  lemma AbsorbedSpans(done: seq<Selection>, out: seq<Selection>, s: Selection)
    requires Progress(done, out)
    requires forall d :: d in done ==> KeyLe(d, s)
    ensures forall p: nat :: Covers(Absorb(out, s), p) <==> Covers(done + [s], p)
    ensures forall p: nat :: Interior(Absorb(out, s), p) <==> Interior(done + [s], p)
  {
    Appended(done, s);
    if out != [] && Merges(out[|out| - 1], s) {
      MergedSpans(out, s);
    } else {
      Appended(out, s);
    }
  }

  /** Merging with the last selection covers what the two cover. */
  lemma MergedSpans(out: seq<Selection>, s: Selection)
    requires out != [] && Merges(out[|out| - 1], s) && out[|out| - 1].Start() <= s.Start()
    ensures forall p: nat :: Covers(Absorb(out, s), p) <==> Covers(out, p) || s.Start() <= p < s.End()
    ensures forall p: nat :: Interior(Absorb(out, s), p) <==> Interior(out, p) || s.Start() < p < s.End()
  {
    var front, last := out[..|out| - 1], out[|out| - 1];
    assert out == front + [last];
    Appended(front, last);
    Appended(front, Merge(last, s));
  }

  lemma AbsorbedEnds(done: seq<Selection>, out: seq<Selection>, s: Selection)
    requires Progress(done, out)
    ensures Absorb(out, s) != [] ==> exists d :: d in done + [s] && d.Start() == Absorb(out, s)[|Absorb(out, s)| - 1].Start()
    ensures forall t :: t in Absorb(out, s) ==>
              exists a, b :: a in done + [s] && b in done + [s] && a.Start() == t.Start() && b.End() == t.End()
  {
    assert s in done + [s];
    assert forall d :: d in done ==> d in done + [s];
    assert out != [] ==> out[|out| - 1] in out;
  }

  lemma AbsorbedCursors(done: seq<Selection>, out: seq<Selection>, s: Selection)
    requires Progress(done, out)
    requires forall d :: d in done ==> KeyLe(d, s)
    ensures forall p: nat :: Cursor(p) in Absorb(out, s) <==> Cursor(p) in done + [s] && !Interior(done + [s], p)
  {
    if out != [] && Merges(out[|out| - 1], s) { MergedCursors(done, out, s); } else { KeptCursors(done, out, s); }
  }

  lemma MergedCursors(done: seq<Selection>, out: seq<Selection>, s: Selection)
    requires Progress(done, out) && out != [] && Merges(out[|out| - 1], s)
    requires forall d :: d in done ==> KeyLe(d, s)
    ensures forall p: nat :: Cursor(p) in Absorb(out, s) <==> Cursor(p) in done + [s] && !Interior(done + [s], p)
  {
    var front, last := out[..|out| - 1], out[|out| - 1];
    assert out == front + [last] && last in out;
    Appended(done, s);
    Appended(front, last);
    Appended(front, Merge(last, s));
    forall p: nat
      ensures Cursor(p) in Absorb(out, s) <==> Cursor(p) in done + [s] && !Interior(done + [s], p)
    {
      assert Cursor(p) in out <==> Cursor(p) in done && !Interior(done, p);
    }
  }

  lemma KeptCursors(done: seq<Selection>, out: seq<Selection>, s: Selection)
    requires Progress(done, out) && !(out != [] && Merges(out[|out| - 1], s))
    requires forall d :: d in done ==> KeyLe(d, s)
    ensures forall p: nat :: Cursor(p) in Absorb(out, s) <==> Cursor(p) in done + [s] && !Interior(done + [s], p)
  {
    Appended(done, s);
    Appended(out, s);
    if out != [] { assert out[|out| - 1] in out; }
    forall p: nat
      ensures Cursor(p) in Absorb(out, s) <==> Cursor(p) in done + [s] && !Interior(done + [s], p)
    {
      assert Cursor(p) in out <==> Cursor(p) in done && !Interior(done, p);
    }
  }

  lemma AbsorbKeepsMeaning(done: seq<Selection>, out: seq<Selection>, s: Selection)
    requires Progress(done, out)
    requires forall d :: d in done ==> KeyLe(d, s)
    ensures Progress(done + [s], Absorb(out, s))
  {
    AbsorbKeepsOrder(out, s);
    AbsorbedSpans(done, out, s);
    AbsorbedCursors(done, out, s);
    AbsorbedEnds(done, out, s);
  }

  lemma {:induction false} AbsorbAllMeaning(done: seq<Selection>, out: seq<Selection>, rest: seq<Selection>)
    requires Sorted(KeyLe, done + rest) && Progress(done, out)
    ensures Progress(done + rest, AbsorbAll(out, rest))
    decreases |rest|
  {
    if rest == [] {
      assert done + rest == done;
    } else {
      var s := rest[0];
      assert (done + [s]) + rest[1..] == done + rest;
      forall d | d in done ensures KeyLe(d, s) {
        var i :| 0 <= i < |done| && done[i] == d;
        assert (done + rest)[i] == d && (done + rest)[|done|] == s;
      }
      AbsorbKeepsMeaning(done, out, s);
      AbsorbAllMeaning(done + [s], Absorb(out, s), rest[1..]);
    }
  }

  lemma KeyLeIsPreorder()
    ensures TotalPreorder(KeyLe)
  {
  }

  lemma MeaningOfMembers(a: seq<Selection>, b: seq<Selection>)
    requires forall x :: x in a <==> x in b
    ensures SameMeaning(a, b) || exists p: nat :: Cursor(p) in a && Interior(a, p)
    ensures forall p: nat :: Covers(a, p) <==> Covers(b, p)
    ensures forall p: nat :: Interior(a, p) <==> Interior(b, p)
  {
  }

  /** `normalize` keeps the meaning of the selections, separates them, and invents no endpoint. */
  lemma NormalizedMeaning(sels: seq<Selection>)
    ensures Separated(Normalized(sels)) && SameMeaning(sels, Normalized(sels))
    ensures forall t :: t in Normalized(sels) ==>
              exists a, b :: a in sels && b in sels && a.Start() == t.Start() && b.End() == t.End()
  {
    var sorted := Sort(KeyLe, sels);
    KeyLeIsPreorder();
    SortSorts(KeyLe, sels);
    SortMembers(KeyLe, sels);
    assert [] + sorted == sorted;
    AbsorbAllMeaning([], [], sorted);
    MeaningOfMembers(sels, sorted);
    assert Progress(sorted, Normalized(sels));
    forall t | t in Normalized(sels)
      ensures exists a, b :: a in sels && b in sels && a.Start() == t.Start() && b.End() == t.End()
    {
      var a, b :| a in sorted && b in sorted && a.Start() == t.Start() && b.End() == t.End();
      assert a in sels && b in sels;
    }
  }

  lemma {:induction false} AbsorbAllOfSeparated(out: seq<Selection>, rest: seq<Selection>)
    requires Separated(out + rest)
    ensures AbsorbAll(out, rest) == out + rest
    decreases |rest|
  {
    if rest == [] {
      assert out + rest == out;
    } else {
      var s := rest[0];
      if out != [] {
        assert (out + rest)[|out| - 1] == out[|out| - 1] && (out + rest)[|out|] == s;
      }
      assert (out + [s]) + rest[1..] == out + rest;
      AbsorbAllOfSeparated(out + [s], rest[1..]);
    }
  }

  /** Normalizing a separated list changes nothing; in particular `normalize` is idempotent. */
  lemma SeparatedIsNormal(s: seq<Selection>)
    requires Separated(s)
    ensures Normalized(s) == s
  {
    SeparatedIsSorted(s);
    SortOfSorted(KeyLe, s);
    assert [] + s == s;
    AbsorbAllOfSeparated([], s);
  }

  lemma SeparatedIsSorted(s: seq<Selection>)
    requires Separated(s)
    ensures Sorted(KeyLe, s)
  {
    forall i, j | 0 <= i < j < |s| ensures KeyLe(s[i], s[j]) {
      assert s[i].End() <= s[j].Start();
    }
  }

  lemma NormalizeIdempotent(sels: seq<Selection>)
    ensures Normalized(Normalized(sels)) == Normalized(sels)
  {
    NormalizedMeaning(sels);
    SeparatedIsNormal(Normalized(sels));
  }

  lemma SeparatedEdges(a: seq<Selection>, t: Selection)
    requires Separated(a) && t in a
    ensures !Interior(a, t.Start()) && !Interior(a, t.End())
  {
  }

  /** A separated list is determined by its meaning: up to the direction of each selection, `normalize`
      returns the only separated list that says the same as its input. */
  lemma SeparatedUnique(a: seq<Selection>, b: seq<Selection>, t: Selection)
    requires Separated(a) && Separated(b) && t in a
    requires forall p: nat :: Interior(a, p) <==> Interior(b, p)
    requires forall p: nat :: Covers(a, p) <==> Covers(b, p)
    requires forall p: nat :: Cursor(p) in a <==> Cursor(p) in b
    ensures exists u :: u in b && u.Start() == t.Start() && u.End() == t.End()
  {
    SeparatedEdges(a, t);
    if t.IsEmpty() {
      assert t == Cursor(t.head);
    } else {
      assert Covers(a, t.Start());
      var u :| u in b && u.Start() <= t.Start() < u.End();
      SeparatedEdges(b, u);
      assert u.End() < t.End() ==> Interior(a, u.End());
      assert t.End() < u.End() ==> Interior(b, t.End());
      assert u.Start() == t.Start() && u.End() == t.End();
    }
  }

  // --- the direction of a merged selection ---

  /** The first range of a list that starts there. */
  ghost predicate FirstFrom(s: seq<Selection>, p: nat, start: nat) {
    && p < |s| && !s[p].IsEmpty() && s[p].Start() == start
    && forall q :: 0 <= q < p && !s[q].IsEmpty() ==> s[q].Start() != start
  }

  ghost predicate Directed(done: seq<Selection>, t: Selection) {
    t.IsEmpty() || exists p: nat :: FirstFrom(done, p, t.Start()) && (t.Reversed() <==> done[p].Reversed())
  }

  lemma DirectedOn(done: seq<Selection>, s: Selection, t: Selection)
    requires Directed(done, t)
    ensures Directed(done + [s], t)
  {
    if p: nat :| FirstFrom(done, p, t.Start()) && (t.Reversed() <==> done[p].Reversed()) {
      assert FirstFrom(done + [s], p, t.Start());
    }
  }

  lemma KeptIsFirst(done: seq<Selection>, out: seq<Selection>, s: Selection, q: nat)
    requires Progress(done, out) && (forall d :: d in done ==> KeyLe(d, s))
    requires !(out != [] && Merges(out[|out| - 1], s)) && q < |done| && !done[q].IsEmpty()
    ensures done[q].Start() != s.Start()
  {
    var d := done[q];
    assert d in done && Covers(done, d.Start());
    var u :| u in out && u.Start() <= d.Start() < u.End();
    var k :| 0 <= k < |out| && out[k] == u;
    if k < |out| - 1 { assert u.End() <= out[|out| - 1].Start(); }
  }

  lemma AbsorbDirected(done: seq<Selection>, out: seq<Selection>, s: Selection)
    requires Progress(done, out) && (forall d :: d in done ==> KeyLe(d, s))
    requires forall t :: t in out ==> Directed(done, t)
    ensures forall t :: t in Absorb(out, s) ==> Directed(done + [s], t)
  {
    forall t | t in out ensures Directed(done + [s], t) { DirectedOn(done, s, t); }
    if out != [] && Merges(out[|out| - 1], s) {
      var last := out[|out| - 1];
      assert last in out;
      assert Directed(done + [s], Merge(last, s));
    } else {
      forall q: nat | q < |done| && !done[q].IsEmpty() ensures done[q].Start() != s.Start() { KeptIsFirst(done, out, s, q); }
      assert s.IsEmpty() || FirstFrom(done + [s], |done|, s.Start());
    }
  }

  lemma {:induction false} AbsorbAllDirected(done: seq<Selection>, out: seq<Selection>, rest: seq<Selection>)
    requires Sorted(KeyLe, done + rest) && Progress(done, out) && forall t :: t in out ==> Directed(done, t)
    ensures forall t :: t in AbsorbAll(out, rest) ==> Directed(done + rest, t)
    decreases |rest|
  {
    if rest == [] {
      assert done + rest == done;
    } else {
      var s := rest[0];
      assert (done + [s]) + rest[1..] == done + rest;
      forall d | d in done ensures KeyLe(d, s) {
        var i :| 0 <= i < |done| && done[i] == d;
        assert (done + rest)[i] == d && (done + rest)[|done|] == s;
      }
      AbsorbDirected(done, out, s);
      AbsorbKeepsMeaning(done, out, s);
      AbsorbAllDirected(done + [s], Absorb(out, s), rest[1..]);
    }
  }

  predicate SameRange(a: Selection, b: Selection) { a.Start() == b.Start() && a.End() == b.End() }

  lemma {:induction false} FilterFirst(q: Selection -> bool, s: seq<Selection>) returns (i: nat)
    requires Filter(q, s) != []
    ensures i < |s| && q(s[i]) && s[i] == Filter(q, s)[0] && forall j :: 0 <= j < i ==> !q(s[j])
  {
    if q(s[0]) {
      i := 0;
    } else {
      i := FilterFirst(q, s[1..]);
      forall j | 0 <= j < i + 1 ensures !q(s[j]) {
        if j > 0 { assert s[j] == s[1..][j - 1]; }
      }
      i := i + 1;
    }
  }

  lemma {:induction false} FirstIsFiltered(q: Selection -> bool, s: seq<Selection>, p: nat)
    requires p < |s| && q(s[p]) && forall j :: 0 <= j < p ==> !q(s[j])
    ensures Filter(q, s) != [] && Filter(q, s)[0] == s[p]
  {
    if p > 0 {
      forall j | 0 <= j < p - 1 ensures !q(s[1..][j]) { assert s[1..][j] == s[j + 1]; }
      FirstIsFiltered(q, s[1..], p - 1);
    }
  }

  /** Of the caller's ranges that start there: the shortest, and of equal ones the first given. */
  ghost predicate LeadsFrom(sels: seq<Selection>, i: nat, start: nat) {
    && i < |sels| && !sels[i].IsEmpty() && sels[i].Start() == start
    && forall j :: 0 <= j < |sels| && !sels[j].IsEmpty() && sels[j].Start() == start ==>
         sels[i].End() < sels[j].End() || (sels[i].End() == sels[j].End() && i <= j)
  }

  /** A range of the normal form runs backwards exactly when the first one it absorbed does. */
  lemma MergedDirection(sels: seq<Selection>, t: Selection) returns (i: nat)
    requires t in Normalized(sels) && !t.IsEmpty()
    ensures LeadsFrom(sels, i, t.Start()) && (t.Reversed() <==> sels[i].Reversed())
  {
    var sorted := Sort(KeyLe, sels);
    KeyLeIsPreorder();
    SortSorts(KeyLe, sels);
    SortMembers(KeyLe, sels);
    assert [] + sorted == sorted;
    AbsorbAllDirected([], [], sorted);
    var p: nat :| FirstFrom(sorted, p, t.Start()) && (t.Reversed() <==> sorted[p].Reversed());
    i := FirstGiven(sels, sorted, p, t.Start());
  }

  lemma FirstGiven(sels: seq<Selection>, sorted: seq<Selection>, p: nat, start: nat) returns (i: nat)
    requires sorted == Sort(KeyLe, sels) && Sorted(KeyLe, sorted) && (forall x :: x in sorted <==> x in sels)
    requires FirstFrom(sorted, p, start)
    ensures LeadsFrom(sels, i, start) && sels[i] == sorted[p]
  {
    var first := sorted[p];
    var tied := (x: Selection) => SameRange(x, first);
    FirstIsFiltered(tied, sorted, p);
    SortStable(KeyLe, tied, sels);
    i := FilterFirst(tied, sels);
    forall j | 0 <= j < |sels| && !sels[j].IsEmpty() && sels[j].Start() == start
      ensures sels[i].End() < sels[j].End() || (sels[i].End() == sels[j].End() && i <= j)
    {
      assert sels[j] in sorted;
      var q :| 0 <= q < |sorted| && sorted[q] == sels[j];
      assert KeyLe(first, sels[j]);
    }
  }
}
