/**
 A batch of replacements against one text (`Buffer::edit_inner`): the order in which the buffer
 applies them, the overlap check it makes on neighbours, and the simultaneous replacement that
 the result is proved to be.
 */
module EditBatch {
  import opened Sorting
  import opened Utf8
  import opened Wrappers

  /** Replace bytes `start..end` of the current text by `text`. */
  datatype Edit = Edit(start: nat, end: nat, text: Text) {
    predicate InText(t: Text) { start <= end <= |t| }
  }

  datatype Indexed = Indexed(index: nat, edit: Edit)

  datatype EditError =
    | OutOfBounds(start: nat, end: nat, len: nat)
    | InvertedRange(start: nat, end: nat)
    | NotCharBoundary(offset: nat)
    | Overlapping(aStart: nat, aEnd: nat, bStart: nat, bEnd: nat)

  function Replace(t: Text, start: nat, end: nat, ins: Text): Text
    requires start <= end <= |t|
  {
    t[..start] + ins + t[end..]
  }

  // --- validation ---

  predicate ValidRange(t: Text, start: nat, end: nat) {
    start <= end <= |t| && Boundary(t, start) && Boundary(t, end)
  }

  /** `char_range`: the first thing wrong with a range, if anything is. */
  function RangeError(t: Text, start: nat, end: nat): (e: Option<EditError>)
    requires ValidUtf8(t)
    ensures e.None? <==> ValidRange(t, start, end)
    ensures e.Some? ==> !e.value.Overlapping?
  {
    RoundTrips(t);
    if start > end then Some(InvertedRange(start, end))
    else if end > |t| then Some(OutOfBounds(start, end, |t|))
    else if CharToByte(t, ByteToChar(t, start)) != start then Some(NotCharBoundary(start))
    else if CharToByte(t, ByteToChar(t, end)) != end then Some(NotCharBoundary(end))
    else None
  }

  /** What is wrong with a range: the wrong order first, then a place behind the end, then a start or an end inside a
      character. */
  lemma RangeErrorSays(t: Text, start: nat, end: nat)
    requires ValidUtf8(t)
    ensures start > end ==> RangeError(t, start, end) == Some(InvertedRange(start, end))
    ensures start <= end && end > |t| ==> RangeError(t, start, end) == Some(OutOfBounds(start, end, |t|))
    ensures start <= end <= |t| && !Boundary(t, start) ==> RangeError(t, start, end) == Some(NotCharBoundary(start))
    ensures start <= end <= |t| && Boundary(t, start) && !Boundary(t, end) ==> RangeError(t, start, end) == Some(NotCharBoundary(end))
  {
    RoundTrips(t);
  }

  lemma RoundTrips(t: Text)
    requires ValidUtf8(t)
    ensures forall b: nat :: b <= |t| ==> (CharToByte(t, ByteToChar(t, b)) == b <==> Boundary(t, b))
  {
    forall b: nat | b <= |t| ensures CharToByte(t, ByteToChar(t, b)) == b <==> Boundary(t, b) {
      RoundTripIffBoundary(t, b);
    }
  }

  predicate ValidRanges(t: Text, edits: seq<Edit>) {
    forall i :: 0 <= i < |edits| ==> ValidRange(t, edits[i].start, edits[i].end)
  }

  // --- application order ---

  /** Start descending, then end descending, then the later caller entry first. */
  predicate Before(a: Indexed, b: Indexed) {
    || a.edit.start > b.edit.start
    || (a.edit.start == b.edit.start && a.edit.end > b.edit.end)
    || (a.edit.start == b.edit.start && a.edit.end == b.edit.end && a.index >= b.index)
  }

  function Number(edits: seq<Edit>, from: nat): (ix: seq<Indexed>)
    ensures |ix| == |edits|
    ensures forall i :: 0 <= i < |edits| ==> ix[i] == Indexed(from + i, edits[i])
  {
    if edits == [] then [] else [Indexed(from, edits[0])] + Number(edits[1..], from + 1)
  }

  function Order(edits: seq<Edit>): seq<Indexed> {
    Sort(Before, Number(edits, 0))
  }

  /** Two replacements conflict when they share a byte, or when one inserts strictly inside the other. */
  predicate Overlap(a: Edit, b: Edit) {
    a.start < b.end && b.start < a.end
  }

  ghost predicate Compatible(edits: seq<Edit>) {
    forall i, j :: 0 <= i < j < |edits| ==> !Overlap(edits[i], edits[j])
  }

  /** The test on one pair of neighbours in application order (`lo` follows `hi`). */
  predicate Clash(hi: Edit, lo: Edit) {
    lo.end > hi.start || (lo.start == hi.start && lo.start != lo.end && hi.start != hi.end)
  }

  /** The first clash between neighbours from position `k` on, as the error it raises. */
  function FirstClash(s: seq<Indexed>, k: nat): (e: Option<EditError>)
    ensures e.None? <==> forall i :: k <= i < |s| - 1 ==> !Clash(s[i].edit, s[i + 1].edit)
    decreases |s| - k
  {
    if k + 1 >= |s| then None
    else if Clash(s[k].edit, s[k + 1].edit) then
      Some(Overlapping(s[k + 1].edit.start, s[k + 1].edit.end, s[k].edit.start, s[k].edit.end))
    else FirstClash(s, k + 1)
  }

  lemma OrderIsSorted(edits: seq<Edit>)
    requires forall i :: 0 <= i < |edits| ==> edits[i].start <= edits[i].end
    ensures Sorted(Before, Order(edits)) && Distinct(Order(edits)) && |Order(edits)| == |edits|
    ensures multiset(Order(edits)) == multiset(Number(edits, 0))
    ensures forall x :: x in Order(edits) <==> x in Number(edits, 0)
  {
    var n := Number(edits, 0);
    SortSorts(Before, n);
    SortPermutes(Before, n);
    SortMembers(Before, n);
    PermutationDistinct(n, Order(edits));
  }

  /** The order is the only one a correct sort can produce. */
  lemma OrderUnique(edits: seq<Edit>, s: seq<Indexed>)
    requires forall i :: 0 <= i < |edits| ==> edits[i].start <= edits[i].end
    requires multiset(s) == multiset(Number(edits, 0)) && Sorted(Before, s)
    ensures s == Order(edits)
  {
    OrderIsSorted(edits);
    SameMembers(s, Number(edits, 0));
    SortedUnique(Before, s, Order(edits));
  }

  lemma {:induction false} NeighboursDecide(s: seq<Indexed>, i: nat, j: nat)
    requires Sorted(Before, s) && i < j < |s|
    requires forall k :: 0 <= k < |s| - 1 ==> !Clash(s[k].edit, s[k + 1].edit)
    ensures s[j].edit.end <= s[i].edit.start
  {
    assert !Clash(s[j - 1].edit, s[j].edit);
    if i < j - 1 { assert Before(s[i], s[j - 1]); }
  }

  lemma PositionOf(edits: seq<Edit>, i: nat) returns (k: nat)
    requires forall m :: 0 <= m < |edits| ==> edits[m].start <= edits[m].end
    requires i < |edits|
    ensures k < |Order(edits)| && Order(edits)[k] == Indexed(i, edits[i])
  {
    OrderIsSorted(edits);
    assert Number(edits, 0)[i] in Order(edits);
    k :| 0 <= k < |Order(edits)| && Order(edits)[k] == Indexed(i, edits[i]);
  }

  lemma AcceptedIsCompatible(edits: seq<Edit>, i: nat, j: nat)
    requires forall m :: 0 <= m < |edits| ==> edits[m].start <= edits[m].end
    requires FirstClash(Order(edits), 0).None? && i < j < |edits|
    ensures !Overlap(edits[i], edits[j])
  {
    OrderIsSorted(edits);
    var k := PositionOf(edits, i);
    var l := PositionOf(edits, j);
    if k < l { NeighboursDecide(Order(edits), k, l); } else { NeighboursDecide(Order(edits), l, k); }
  }

  lemma ClashIsOverlap(edits: seq<Edit>, k: nat)
    requires forall m :: 0 <= m < |edits| ==> edits[m].start <= edits[m].end
    requires k + 1 < |Order(edits)| && Clash(Order(edits)[k].edit, Order(edits)[k + 1].edit)
    ensures !Compatible(edits)
  {
    var n, s := Number(edits, 0), Order(edits);
    OrderIsSorted(edits);
    var hi, lo := s[k], s[k + 1];
    assert Before(hi, lo) && hi != lo;
    assert hi in n && lo in n;
    assert edits[hi.index] == hi.edit && edits[lo.index] == lo.edit;
    assert Overlap(hi.edit, lo.edit) && Overlap(lo.edit, hi.edit);
  }

  /** The clash that is reported: two edits of the batch that overlap, the lower one first. */
  lemma ClashReported(edits: seq<Edit>) returns (i: nat, j: nat)
    requires (forall m :: 0 <= m < |edits| ==> edits[m].start <= edits[m].end) && FirstClash(Order(edits), 0).Some?
    ensures i < |edits| && j < |edits| && i != j && Overlap(edits[i], edits[j]) && edits[i].start <= edits[j].start
    ensures FirstClash(Order(edits), 0) == Some(Overlapping(edits[i].start, edits[i].end, edits[j].start, edits[j].end))
  {
    var n, s := Number(edits, 0), Order(edits);
    OrderIsSorted(edits);
    var k := WhereClash(s, 0);
    assert Before(s[k], s[k + 1]) && s[k] != s[k + 1] && s[k] in n && s[k + 1] in n;
    i, j := s[k + 1].index, s[k].index;
  }

  lemma {:induction false} WhereClash(s: seq<Indexed>, from: nat) returns (k: nat)
    requires FirstClash(s, from).Some?
    ensures from <= k < |s| - 1 && Clash(s[k].edit, s[k + 1].edit)
    ensures FirstClash(s, from)
         == Some(Overlapping(s[k + 1].edit.start, s[k + 1].edit.end, s[k].edit.start, s[k].edit.end))
    decreases |s| - from
  {
    if Clash(s[from].edit, s[from + 1].edit) { k := from; } else { k := WhereClash(s, from + 1); }
  }

  /** Looking only at neighbours accepts exactly the batches without any overlapping pair. */
  lemma NeighbourCheckExact(edits: seq<Edit>)
    requires forall i :: 0 <= i < |edits| ==> edits[i].start <= edits[i].end
    ensures FirstClash(Order(edits), 0).None? <==> Compatible(edits)
  {
    if FirstClash(Order(edits), 0).None? {
      forall i, j | 0 <= i < j < |edits| ensures !Overlap(edits[i], edits[j]) {
        AcceptedIsCompatible(edits, i, j);
      }
    } else {
      var s := Order(edits);
      var k :| 0 <= k < |s| - 1 && Clash(s[k].edit, s[k + 1].edit);
      ClashIsOverlap(edits, k);
    }
  }

  // --- applying in order ---

  function Edits(s: seq<Indexed>): (es: seq<Edit>)
    ensures |es| == |s| && forall i :: 0 <= i < |s| ==> es[i] == s[i].edit
  {
    seq(|s|, i requires 0 <= i < |s| => s[i].edit)
  }

  /** Each edit ends at or before the start of the one applied before it. */
  ghost predicate Descending(es: seq<Edit>) {
    forall i, j :: 0 <= i < j < |es| ==> es[j].end <= es[i].start
  }

  ghost predicate AllInText(t: Text, es: seq<Edit>) {
    forall i :: 0 <= i < |es| ==> es[i].InText(t)
  }

  /** The text after applying `es` from front to back; meaningful when they descend. */
  ghost function ApplyDesc(t: Text, es: seq<Edit>): (r: Text)
    requires Descending(es) && AllInText(t, es)
    ensures es == [] ==> r == t
    ensures es != [] ==> var s := es[|es| - 1].start; s <= |r| && r[..s] == t[..s]
    decreases |es|
  {
    if es == [] then t
    else
      var lo := es[|es| - 1];
      var above := ApplyDesc(t, es[..|es| - 1]);
      assert lo.start <= lo.end <= |above| && above[..lo.start] == t[..lo.start] by {
        if |es| > 1 { ShorterPrefix(above, t, es[|es| - 2].start, lo.start); }
      }
      Replace(above, lo.start, lo.end, lo.text)
  }

  lemma ShorterPrefix(a: Text, b: Text, m: nat, n: nat)
    requires n <= m <= |a| && m <= |b| && a[..m] == b[..m]
    ensures a[..n] == b[..n]
  {
    assert a[..m][..n] == a[..n] && b[..m][..n] == b[..n];
  }

  /** Below every edit the text is untouched. */
  lemma PrefixKept(t: Text, es: seq<Edit>, m: nat)
    requires Descending(es) && AllInText(t, es) && m <= |t|
    requires es != [] ==> m <= es[|es| - 1].start
    ensures m <= |ApplyDesc(t, es)| && ApplyDesc(t, es)[..m] == t[..m]
  {
    if es != [] { ShorterPrefix(ApplyDesc(t, es), t, es[|es| - 1].start, m); }
  }

  // --- simultaneous replacement ---

  predicate StartsAt(e: Edit, p: nat, insert: bool) {
    e.start == p && (e.start == e.end) == insert
  }

  /** The texts, in the order of the list, of the inserts (or of the replacements) that start at `p`. */
  function TextsAt(edits: seq<Edit>, p: nat, insert: bool): Text {
    if edits == [] then []
    else (if StartsAt(edits[0], p, insert) then edits[0].text else []) + TextsAt(edits[1..], p, insert)
  }

  predicate Removed(edits: seq<Edit>, p: nat) {
    exists e :: e in edits && e.start <= p < e.end
  }

  function KeptAt(t: Text, edits: seq<Edit>, p: nat): Text
    requires p < |t|
  {
    if Removed(edits, p) then [] else [t[p]]
  }

  /** What offset `p` turns into: first the inserts, in caller order, then the replacement of the range that starts
      there, then the original byte unless a range removes it. */
  function Here(t: Text, edits: seq<Edit>, p: nat): Text
    requires p <= |t|
  {
    TextsAt(edits, p, true) + TextsAt(edits, p, false) + (if p == |t| then [] else KeptAt(t, edits, p))
  }

  /** The pieces at `p` to `n`, one after the other. */
  function Gather(piece: nat -> Text, p: nat, n: nat): Text
    decreases n + 1 - p
  {
    if p > n then [] else piece(p) + Gather(piece, p + 1, n)
  }

  function Pieces(t: Text, edits: seq<Edit>): nat -> Text {
    (q: nat) => if q <= |t| then Here(t, edits, q) else []
  }

  /** What the original text from offset `p` on turns into when every edit is read against the original. */
  function Simultaneous(t: Text, edits: seq<Edit>, p: nat): Text
    requires p <= |t|
  {
    Gather(Pieces(t, edits), p, |t|)
  }

  function Reverse(es: seq<Edit>): (r: seq<Edit>)
    ensures |r| == |es| && forall i :: 0 <= i < |es| ==> r[i] == es[|es| - 1 - i]
  {
    seq(|es|, i requires 0 <= i < |es| => es[|es| - 1 - i])
  }

  lemma {:induction false} NothingStarts(edits: seq<Edit>, p: nat, insert: bool)
    requires forall e :: e in edits ==> !StartsAt(e, p, insert)
    ensures TextsAt(edits, p, insert) == []
  {
    if edits != [] {
      assert edits[0] in edits;
      NothingStarts(edits[1..], p, insert);
    }
  }

  lemma {:induction false} GatherSame(f: nat -> Text, g: nat -> Text, p: nat, n: nat)
    requires forall q: nat :: p <= q <= n ==> f(q) == g(q)
    ensures Gather(f, p, n) == Gather(g, p, n)
    decreases n + 1 - p
  {
    if p <= n { GatherSame(f, g, p + 1, n); }
  }

  lemma {:induction false} GatherCopies(f: nat -> Text, t: Text, p: nat, r: nat, n: nat)
    requires p <= r <= n && r <= |t| && forall q: nat :: p <= q < r ==> f(q) == [t[q]]
    ensures Gather(f, p, n) == t[p..r] + Gather(f, r, n)
    decreases r - p
  {
    if p < r {
      GatherCopies(f, t, p + 1, r, n);
      assert t[p..r] == [t[p]] + t[p + 1..r];
      Associates([t[p]], t[p + 1..r], Gather(f, r, n));
    }
  }

  lemma {:induction false} GatherNothing(f: nat -> Text, p: nat, r: nat, n: nat)
    requires p <= r <= n && forall q: nat :: p <= q < r ==> f(q) == []
    ensures Gather(f, p, n) == Gather(f, r, n)
    decreases r - p
  {
    if p < r { GatherNothing(f, p + 1, r, n); }
  }

  lemma GatherFront(f: nat -> Text, g: nat -> Text, p: nat, n: nat, x: Text)
    requires p <= n && f(p) == x + g(p) && forall q: nat :: p < q <= n ==> f(q) == g(q)
    ensures Gather(f, p, n) == x + Gather(g, p, n)
  {
    GatherSame(f, g, p + 1, n);
    Associates(x, g(p), Gather(g, p + 1, n));
  }

  lemma GatherRange(f: nat -> Text, g: nat -> Text, p: nat, r: nat, n: nat)
    requires p < r <= n && forall q: nat :: p < q < r ==> f(q) == []
    requires forall q: nat :: r <= q <= n ==> f(q) == g(q)
    ensures Gather(f, p, n) == f(p) + Gather(g, r, n)
  {
    GatherNothing(f, p + 1, r, n);
    GatherSame(f, g, r, n);
  }

  lemma QuietHere(t: Text, edits: seq<Edit>, p: nat)
    requires p < |t| && forall e :: e in edits ==> e.start != p
    ensures Here(t, edits, p) == KeptAt(t, edits, p)
  {
    NothingStarts(edits, p, true);
    NothingStarts(edits, p, false);
  }

  /** Where no edit starts or removes anything, the text is copied. */
  lemma CopiedSpan(t: Text, edits: seq<Edit>, p: nat, r: nat)
    requires p <= r <= |t| && forall e :: e in edits ==> r <= e.start
    ensures Simultaneous(t, edits, p) == t[p..r] + Simultaneous(t, edits, r)
  {
    forall q: nat | p <= q < r ensures Pieces(t, edits)(q) == [t[q]] {
      QuietHere(t, edits, q);
      assert !Removed(edits, q);
    }
    GatherCopies(Pieces(t, edits), t, p, r, |t|);
  }

  lemma TextsAtCons(lo: Edit, rest: seq<Edit>, p: nat, insert: bool)
    ensures TextsAt([lo] + rest, p, insert) == (if StartsAt(lo, p, insert) then lo.text else []) + TextsAt(rest, p, insert)
  {
    assert ([lo] + rest)[1..] == rest;
  }

  /** An edit has no effect past its end. */
  lemma HerePastEnd(t: Text, lo: Edit, rest: seq<Edit>, p: nat)
    requires lo.start < p <= |t| && lo.end <= p
    ensures Here(t, [lo] + rest, p) == Here(t, rest, p)
  {
    TextsAtCons(lo, rest, p, true);
    TextsAtCons(lo, rest, p, false);
    assert forall e :: e in [lo] + rest <==> e == lo || e in rest;
    assert p < |t| ==> (Removed([lo] + rest, p) <==> Removed(rest, p));
  }

  lemma InsertHere(t: Text, lo: Edit, rest: seq<Edit>)
    requires lo.InText(t) && lo.start == lo.end
    ensures Here(t, [lo] + rest, lo.start) == lo.text + Here(t, rest, lo.start)
  {
    var all, p := [lo] + rest, lo.start;
    TextsAtCons(lo, rest, p, true);
    TextsAtCons(lo, rest, p, false);
    assert forall e :: e in all <==> e == lo || e in rest;
    assert p < |t| ==> KeptAt(t, all, p) == KeptAt(t, rest, p);
  }

  lemma Associates(a: Text, b: Text, c: Text)
    ensures (a + b) + c == a + (b + c)
  {
  }

  lemma LowestInsert(t: Text, lo: Edit, rest: seq<Edit>)
    requires lo.InText(t) && lo.start == lo.end
    ensures Simultaneous(t, [lo] + rest, lo.start) == lo.text + Simultaneous(t, rest, lo.start)
  {
    InsertHere(t, lo, rest);
    forall q: nat | lo.start < q <= |t| ensures Pieces(t, [lo] + rest)(q) == Pieces(t, rest)(q) { HerePastEnd(t, lo, rest, q); }
    GatherFront(Pieces(t, [lo] + rest), Pieces(t, rest), lo.start, |t|, lo.text);
  }

  lemma RangeHere(t: Text, lo: Edit, rest: seq<Edit>)
    requires lo.InText(t) && lo.start < lo.end && forall e :: e in rest ==> lo.end <= e.start
    ensures Here(t, [lo] + rest, lo.start) == lo.text
  {
    var all, p := [lo] + rest, lo.start;
    TextsAtCons(lo, rest, p, true);
    TextsAtCons(lo, rest, p, false);
    NothingStarts(rest, p, true);
    NothingStarts(rest, p, false);
    assert lo in all;
    assert KeptAt(t, all, p) == [];
  }

  lemma LowestRange(t: Text, lo: Edit, rest: seq<Edit>)
    requires lo.InText(t) && lo.start < lo.end && forall e :: e in rest ==> lo.end <= e.start
    ensures Simultaneous(t, [lo] + rest, lo.start) == lo.text + Simultaneous(t, rest, lo.end)
  {
    var all := [lo] + rest;
    RangeHere(t, lo, rest);
    forall q: nat | lo.start < q < lo.end ensures Pieces(t, all)(q) == [] { InsideRange(t, lo, rest, q); }
    forall q: nat | lo.end <= q <= |t| ensures Pieces(t, all)(q) == Pieces(t, rest)(q) { HerePastEnd(t, lo, rest, q); }
    GatherRange(Pieces(t, all), Pieces(t, rest), lo.start, lo.end, |t|);
  }

  /** Inside a removed range nothing is produced. */
  lemma InsideRange(t: Text, lo: Edit, rest: seq<Edit>, q: nat)
    requires lo.start < q < lo.end <= |t| && forall e :: e in rest ==> lo.end <= e.start
    ensures Here(t, [lo] + rest, q) == []
  {
    var all := [lo] + rest;
    assert forall e :: e in all <==> e == lo || e in rest;
    QuietHere(t, all, q);
    assert lo in all && Removed(all, q);
  }

  /** The lowest edit of a list is applied, and what follows its end is left to the others. */
  lemma LowestEdit(t: Text, lo: Edit, rest: seq<Edit>, q: nat)
    requires q <= lo.start && lo.InText(t) && forall e :: e in rest ==> lo.end <= e.start
    ensures Simultaneous(t, [lo] + rest, q) == t[q..lo.start] + (lo.text + Simultaneous(t, rest, lo.end))
  {
    assert forall e :: e in [lo] + rest <==> e == lo || e in rest;
    CopiedSpan(t, [lo] + rest, q, lo.start);
    if lo.start == lo.end { LowestInsert(t, lo, rest); } else { LowestRange(t, lo, rest); }
  }

  lemma ReplaceFront(t: Text, lo: Edit, tail: Text)
    requires lo.InText(t)
    ensures Replace(t[..lo.end] + tail, lo.start, lo.end, lo.text) == t[..lo.start] + lo.text + tail
  {
    var x := t[..lo.end] + tail;
    assert x[..lo.start] == t[..lo.start];
    assert x[lo.end..] == tail;
  }

  /** Applying highest start first is the simultaneous replacement. */
  lemma {:induction false} DescendingIsSimultaneous(t: Text, es: seq<Edit>, q: nat)
    requires Descending(es) && AllInText(t, es) && q <= |t|
    requires forall e :: e in es ==> q <= e.start
    ensures ApplyDesc(t, es) == t[..q] + Simultaneous(t, Reverse(es), q)
    decreases |es|
  {
    if es == [] {
      NoEdits(t, q);
    } else {
      var n := |es| - 1;
      var lo, above := es[n], es[..n];
      assert lo in es;
      DescendingIsSimultaneous(t, above, lo.end);
      ReplaceFront(t, lo, Simultaneous(t, Reverse(above), lo.end));
      LowestFirst(t, es, q);
      Regroup(t, q, lo.start, lo.text, Simultaneous(t, Reverse(above), lo.end));
    }
  }

  lemma Regroup(t: Text, q: nat, s: nat, a: Text, b: Text)
    requires q <= s <= |t|
    ensures t[..s] + a + b == t[..q] + (t[q..s] + (a + b))
  {
    assert t[..s] == t[..q] + t[q..s];
  }

  lemma NoEdits(t: Text, q: nat)
    requires q <= |t|
    ensures t == t[..q] + Simultaneous(t, [], q)
  {
    CopyRest(t, q);
    assert t == t[..q] + t[q..];
  }

  lemma CopyRest(t: Text, q: nat)
    requires q <= |t|
    ensures Simultaneous(t, [], q) == t[q..]
  {
    CopiedSpan(t, [], q, |t|);
    assert Pieces(t, [])(|t|) == [];
    assert Simultaneous(t, [], |t|) == Pieces(t, [])(|t|) + Gather(Pieces(t, []), |t| + 1, |t|) == [];
    assert t[q..|t|] + [] == t[q..];
  }

  lemma ReversedLast(es: seq<Edit>)
    requires es != []
    ensures Reverse(es) == [es[|es| - 1]] + Reverse(es[..|es| - 1])
  {
  }

  lemma ReversedFirst(first: Edit, rest: seq<Edit>)
    ensures Reverse([first] + rest) == Reverse(rest) + [first]
  {
  }

  lemma ReversedAbove(es: seq<Edit>, above: seq<Edit>, e: Edit)
    requires Descending(es) && es != [] && above == es[..|es| - 1] && e in Reverse(above)
    ensures es[|es| - 1].end <= e.start
  {
    var r := Reverse(above);
    var k :| 0 <= k < |r| && r[k] == e;
    var i := |above| - 1 - k;
    assert above[i] == e && es[i] == e;
  }

  lemma LowestFirst(t: Text, es: seq<Edit>, q: nat)
    requires Descending(es) && AllInText(t, es) && es != [] && q <= es[|es| - 1].start
    ensures var lo := es[|es| - 1];
            Simultaneous(t, Reverse(es), q)
            == t[q..lo.start] + (lo.text + Simultaneous(t, Reverse(es[..|es| - 1]), lo.end))
  {
    ReversedLast(es);
    forall e | e in Reverse(es[..|es| - 1]) ensures es[|es| - 1].end <= e.start { ReversedAbove(es, es[..|es| - 1], e); }
    LowestEdit(t, es[|es| - 1], Reverse(es[..|es| - 1]), q);
  }

  // --- the caller's order of the list is immaterial, except between inserts at one offset ---

  function TextsBack(s: seq<Indexed>, p: nat, insert: bool): Text {
    if s == [] then []
    else TextsBack(s[1..], p, insert) + (if StartsAt(s[0].edit, p, insert) then s[0].edit.text else [])
  }

  lemma {:induction false} TextsAtConcat(a: seq<Edit>, b: seq<Edit>, p: nat, insert: bool)
    ensures TextsAt(a + b, p, insert) == TextsAt(a, p, insert) + TextsAt(b, p, insert)
  {
    if a == [] {
      assert a + b == b;
    } else {
      assert (a + b)[1..] == a[1..] + b;
      TextsAtConcat(a[1..], b, p, insert);
    }
  }

  lemma {:induction false} TextsBackIsReverse(s: seq<Indexed>, p: nat, insert: bool)
    ensures TextsAt(Reverse(Edits(s)), p, insert) == TextsBack(s, p, insert)
  {
    if s != [] {
      assert Reverse(Edits(s)) == Reverse(Edits(s[1..])) + [s[0].edit];
      TextsAtConcat(Reverse(Edits(s[1..])), [s[0].edit], p, insert);
      TextsBackIsReverse(s[1..], p, insert);
    }
  }

  lemma {:induction false} NoneBack(s: seq<Indexed>, p: nat, insert: bool)
    requires forall y :: y in s ==> !StartsAt(y.edit, p, insert)
    ensures TextsBack(s, p, insert) == []
  {
    if s != [] {
      assert s[0] in s;
      NoneBack(s[1..], p, insert);
    }
  }

  lemma TextsBackFront(x: Indexed, s: seq<Indexed>, p: nat, insert: bool)
    requires Sorted(Before, s) && s != [] && Before(x, s[0])
    requires forall y :: y in s && StartsAt(y.edit, p, insert) ==> !Before(x, y)
    ensures TextsBack(s, p, insert) == []
  {
    forall y | y in s ensures Before(x, y) {
      var k :| 0 <= k < |s| && s[k] == y;
      assert k > 0 ==> Before(s[0], s[k]);
    }
    NoneBack(s, p, insert);
  }

  function OwnText(x: Indexed, p: nat, insert: bool): Text {
    if StartsAt(x.edit, p, insert) then x.edit.text else []
  }

  lemma TextsBackCons(x: Indexed, s: seq<Indexed>, p: nat, insert: bool)
    ensures TextsBack([x] + s, p, insert) == TextsBack(s, p, insert) + OwnText(x, p, insert)
  {
    assert ([x] + s)[1..] == s;
  }

  lemma {:induction false} TextsBackInsert(x: Indexed, s: seq<Indexed>, p: nat, insert: bool)
    requires Sorted(Before, s)
    requires StartsAt(x.edit, p, insert) ==>
               forall y :: y in s && StartsAt(y.edit, p, insert) ==> !Before(x, y)
    ensures TextsBack(Insert(Before, x, s), p, insert) == OwnText(x, p, insert) + TextsBack(s, p, insert)
  {
    if s == [] {
      TextsBackCons(x, s, p, insert);
    } else if Before(x, s[0]) {
      TextsBackCons(x, s, p, insert);
      if StartsAt(x.edit, p, insert) { TextsBackFront(x, s, p, insert); }
    } else {
      TailSorted(s);
      TextsBackInsert(x, s[1..], p, insert);
      TextsBackCons(s[0], Insert(Before, x, s[1..]), p, insert);
      Associates(OwnText(x, p, insert), TextsBack(s[1..], p, insert), OwnText(s[0], p, insert));
    }
  }

  lemma TailSorted(s: seq<Indexed>)
    requires Sorted(Before, s) && s != []
    ensures Sorted(Before, s[1..]) && forall y :: y in s[1..] ==> y in s
  {
  }

  lemma LaterNotBefore(edits: seq<Edit>, from: nat, y: Indexed, p: nat, insert: bool)
    requires forall i :: 0 <= i < |edits| ==> edits[i].start <= edits[i].end
    requires edits != [] && Compatible(edits) && y in Number(edits[1..], from + 1)
    requires StartsAt(edits[0], p, insert) && StartsAt(y.edit, p, insert)
    ensures !Before(Indexed(from, edits[0]), y)
  {
    var rest := Number(edits[1..], from + 1);
    var i :| 0 <= i < |rest| && rest[i] == y;
    assert edits[1..][i] == edits[i + 1] && !Overlap(edits[0], edits[i + 1]);
  }

  lemma {:induction false} SortedTexts(edits: seq<Edit>, from: nat, p: nat, insert: bool)
    requires forall i :: 0 <= i < |edits| ==> edits[i].start <= edits[i].end
    requires Compatible(edits)
    ensures TextsBack(Sort(Before, Number(edits, from)), p, insert) == TextsAt(edits, p, insert)
  {
    if edits != [] {
      var n := Number(edits, from);
      var rest := Number(edits[1..], from + 1);
      var s := Sort(Before, rest);
      assert n[1..] == rest;
      SortedTexts(edits[1..], from + 1, p, insert);
      SortSorts(Before, rest);
      SortMembers(Before, rest);
      forall y | y in s && StartsAt(n[0].edit, p, insert) && StartsAt(y.edit, p, insert)
        ensures !Before(n[0], y)
      {
        LaterNotBefore(edits, from, y, p, insert);
      }
      TextsBackInsert(n[0], s, p, insert);
    }
  }

  lemma HereSame(t: Text, a: seq<Edit>, b: seq<Edit>, q: nat)
    requires q <= |t| && forall e :: e in a <==> e in b
    requires TextsAt(a, q, true) == TextsAt(b, q, true) && TextsAt(a, q, false) == TextsAt(b, q, false)
    ensures Here(t, a, q) == Here(t, b, q)
  {
    assert Removed(a, q) <==> Removed(b, q);
  }

  lemma SimultaneousSame(t: Text, a: seq<Edit>, b: seq<Edit>, p: nat)
    requires p <= |t|
    requires forall q: nat, insert: bool :: TextsAt(a, q, insert) == TextsAt(b, q, insert)
    requires forall e :: e in a <==> e in b
    ensures Simultaneous(t, a, p) == Simultaneous(t, b, p)
  {
    forall q: nat | p <= q <= |t| ensures Pieces(t, a)(q) == Pieces(t, b)(q) { HereSame(t, a, b, q); }
    GatherSame(Pieces(t, a), Pieces(t, b), p, |t|);
  }

  lemma InOrder(edits: seq<Edit>, e: Edit)
    requires forall i :: 0 <= i < |edits| ==> edits[i].start <= edits[i].end
    requires e in edits
    ensures e in Reverse(Edits(Order(edits)))
  {
    var i :| 0 <= i < |edits| && edits[i] == e;
    var k := PositionOf(edits, i);
    var es := Edits(Order(edits));
    assert Reverse(es)[|es| - 1 - k] == e;
  }

  lemma FromOrder(edits: seq<Edit>, e: Edit)
    requires forall i :: 0 <= i < |edits| ==> edits[i].start <= edits[i].end
    requires e in Reverse(Edits(Order(edits)))
    ensures e in edits
  {
    var order := Order(edits);
    var x := BehindReverse(order, e);
    OrderIsSorted(edits);
    assert x in Number(edits, 0);
    assert edits[x.index] == e;
  }

  lemma BehindReverse(s: seq<Indexed>, e: Edit) returns (x: Indexed)
    requires e in Reverse(Edits(s))
    ensures x in s && x.edit == e
  {
    var es := Edits(s);
    var k :| 0 <= k < |es| && Reverse(es)[k] == e;
    x := s[|es| - 1 - k];
  }

  lemma AcceptedDescends(t: Text, edits: seq<Edit>)
    requires AllInText(t, edits) && Compatible(edits)
    ensures Descending(Edits(Order(edits))) && AllInText(t, Edits(Order(edits)))
  {
    var s := Order(edits);
    OrderIsSorted(edits);
    NeighbourCheckExact(edits);
    forall i, j | 0 <= i < j < |s| ensures s[j].edit.end <= s[i].edit.start {
      NeighboursDecide(s, i, j);
    }
    forall i | 0 <= i < |s| ensures s[i].edit.InText(t) {
      assert s[i] in Number(edits, 0);
    }
  }

  /** An accepted batch, applied highest start first, is one simultaneous replacement against the
      original text, whatever order the caller listed the replacements in. */
  lemma BatchIsSimultaneous(t: Text, edits: seq<Edit>)
    requires AllInText(t, edits) && Compatible(edits)
    ensures Descending(Edits(Order(edits))) && AllInText(t, Edits(Order(edits)))
    ensures ApplyDesc(t, Edits(Order(edits))) == Simultaneous(t, edits, 0)
  {
    var es := Edits(Order(edits));
    AcceptedDescends(t, edits);
    DescendingIsSimultaneous(t, es, 0);
    forall q: nat, insert: bool ensures TextsAt(Reverse(es), q, insert) == TextsAt(edits, q, insert) {
      TextsBackIsReverse(Order(edits), q, insert);
      SortedTexts(edits, 0, q, insert);
    }
    forall e ensures e in Reverse(es) <==> e in edits {
      if e in edits { InOrder(edits, e); }
      if e in Reverse(es) { FromOrder(edits, e); }
    }
    SimultaneousSame(t, Reverse(es), edits, 0);
  }
}
