/** Exchanging neighbouring groups of lines: what it does to the lines, to the text, and to positions in it. */
module LineMoves {
  import opened EditBatch
  import opened Lines
  import opened Utf8

  /** Lines `x` to `y` change places with lines `y` to `z`. */
  datatype Exchange = Exchange(x: nat, y: nat, z: nat) {
    predicate Within(n: nat) { x < y < z <= n }

    /** Where the line now at `i` comes from. */
    function Source(i: nat): nat
      requires x < y < z
    {
      if x <= i < x + (z - y) then i + (y - x)
      else if x + (z - y) <= i < z then i - (z - y)
      else i
    }

    function Inverse(): Exchange
      requires x < y < z
    {
      Exchange(x, x + (z - y), z)
    }
  }

  function Swap(ls: seq<Text>, e: Exchange): (r: seq<Text>)
    requires e.Within(|ls|)
    ensures |r| == |ls|
  {
    ls[..e.x] + (ls[e.y..e.z] + ls[e.x..e.y]) + ls[e.z..]
  }

  lemma SwapAt(ls: seq<Text>, e: Exchange)
    requires e.Within(|ls|)
    ensures forall i :: 0 <= i < |ls| ==> Swap(ls, e)[i] == ls[e.Source(i)]
  {
  }

  ghost predicate AllWithin(es: seq<Exchange>, n: nat) {
    forall i :: 0 <= i < |es| ==> es[i].x < es[i].y < es[i].z <= n
  }

  /** One after the other, none reaching into the next. */
  ghost predicate Ascending(es: seq<Exchange>, n: nat) {
    && AllWithin(es, n)
    && (forall i, j :: 0 <= i < j < |es| ==> es[i].z <= es[j].x)
  }

  function SwapAll(ls: seq<Text>, es: seq<Exchange>): (r: seq<Text>)
    requires AllWithin(es, |ls|)
    ensures |r| == |ls|
  {
    if es == [] then ls else Swap(SwapAll(ls, es[1..]), es[0])
  }

  // --- the lines ---

  lemma {:induction false} BelowUntouched(ls: seq<Text>, es: seq<Exchange>, n: nat)
    requires Ascending(es, |ls|) && n <= |ls| && (es != [] ==> n <= es[0].x)
    ensures SwapAll(ls, es)[..n] == ls[..n]
  {
    if es != [] {
      BelowUntouched(ls, es[1..], n);
      SwapBelow(SwapAll(ls, es[1..]), es[0], n);
    }
  }

  lemma SwapBelow(ls: seq<Text>, e: Exchange, n: nat)
    requires e.Within(|ls|) && n <= e.x
    ensures Swap(ls, e)[..n] == ls[..n]
  {
  }

  /** The lines of the first exchange are still the original ones when it is made. */
  lemma FirstStillOriginal(ls: seq<Text>, es: seq<Exchange>)
    requires Ascending(es, |ls|) && es != []
    ensures SwapAll(ls, es[1..])[..es[0].z] == ls[..es[0].z]
  {
    BelowUntouched(ls, es[1..], es[0].z);
  }

  lemma {:induction false} SwapAllPlain(ls: seq<Text>, es: seq<Exchange>)
    requires Plain(ls) && Ascending(es, |ls|)
    ensures Plain(SwapAll(ls, es))
  {
    if es != [] {
      SwapAllPlain(ls, es[1..]);
      SwapAt(SwapAll(ls, es[1..]), es[0]);
    }
  }

  lemma Rejoin<T>(a: seq<T>, b: seq<T>, c: seq<T>, d: seq<T>)
    ensures multiset(a + (c + b) + d) == multiset(a + b + c + d)
  {
  }

  lemma SwapPermutes(ls: seq<Text>, e: Exchange)
    requires e.Within(|ls|)
    ensures multiset(Swap(ls, e)) == multiset(ls)
  {
    Rejoin(ls[..e.x], ls[e.x..e.y], ls[e.y..e.z], ls[e.z..]);
    InParts(ls, e.x, e.y, e.z);
  }

  lemma InParts(ls: seq<Text>, x: nat, y: nat, z: nat)
    requires x <= y <= z <= |ls|
    ensures ls == ls[..x] + ls[x..y] + ls[y..z] + ls[z..]
  {
  }

  /** The lines are permuted. */
  lemma {:induction false} SwapAllPermutes(ls: seq<Text>, es: seq<Exchange>)
    requires Ascending(es, |ls|)
    ensures multiset(SwapAll(ls, es)) == multiset(ls)
  {
    if es != [] {
      SwapAllPermutes(ls, es[1..]);
      SwapPermutes(SwapAll(ls, es[1..]), es[0]);
    }
  }

  lemma SwapsCommute(ls: seq<Text>, d: Exchange, e: Exchange)
    requires d.Within(|ls|) && e.Within(|ls|) && d.z <= e.x
    ensures Swap(Swap(ls, d), e) == Swap(Swap(ls, e), d)
  {
    SwapAt(ls, d);
    SwapAt(ls, e);
    SwapAt(Swap(ls, d), e);
    SwapAt(Swap(ls, e), d);
    forall i | 0 <= i < |ls| ensures Swap(Swap(ls, d), e)[i] == Swap(Swap(ls, e), d)[i] {
      assert d.Source(e.Source(i)) == e.Source(d.Source(i));
    }
  }

  lemma {:induction false} FirstLast(ls: seq<Text>, d: Exchange, es: seq<Exchange>)
    requires d.Within(|ls|) && Ascending(es, |ls|) && forall e :: e in es ==> d.z <= e.x
    ensures SwapAll(Swap(ls, d), es) == Swap(SwapAll(ls, es), d)
  {
    if es != [] {
      FirstLast(ls, d, es[1..]);
      SwapsCommute(SwapAll(ls, es[1..]), d, es[0]);
    }
  }

  function Inverses(es: seq<Exchange>): (r: seq<Exchange>)
    requires forall i :: 0 <= i < |es| ==> es[i].x < es[i].y < es[i].z
    ensures |r| == |es| && forall i :: 0 <= i < |es| ==> r[i] == es[i].Inverse()
  {
    seq(|es|, i requires 0 <= i < |es| => es[i].Inverse())
  }

  /** Exchanging back restores every line. */
  lemma {:induction false} InversesRestore(ls: seq<Text>, es: seq<Exchange>)
    requires Ascending(es, |ls|)
    ensures Ascending(Inverses(es), |ls|)
    ensures SwapAll(SwapAll(ls, es), Inverses(es)) == ls
  {
    if es != [] {
      var rest := SwapAll(ls, es[1..]);
      InversesRestore(ls, es[1..]);
      assert Inverses(es)[1..] == Inverses(es[1..]);
      FirstLast(rest, es[0], Inverses(es[1..]));
      SwapTwice(ls, es[0]);
    }
  }

  lemma SwapTwice(ls: seq<Text>, e: Exchange)
    requires e.Within(|ls|)
    ensures Swap(Swap(ls, e), e.Inverse()) == ls
  {
    SwapAt(ls, e);
    SwapAt(Swap(ls, e), e.Inverse());
    forall i | 0 <= i < |ls| ensures Swap(Swap(ls, e), e.Inverse())[i] == ls[i] {
      assert e.Source(e.Inverse().Source(i)) == i;
    }
  }

  // --- where lines start ---

  lemma {:induction false} SameSpan(ls: seq<Text>, i: nat, ms: seq<Text>, j: nat, n: nat)
    requires i + n <= |ls| && j + n <= |ms| && ls[i..i + n] == ms[j..j + n]
    ensures Start(ls, i + n) - Start(ls, i) == Start(ms, j + n) - Start(ms, j)
  {
    if n > 0 {
      assert ls[i..i + n][..n - 1] == ls[i..i + n - 1] && ms[j..j + n][..n - 1] == ms[j..j + n - 1];
      SameSpan(ls, i, ms, j, n - 1);
      assert ls[i + n - 1] == ls[i..i + n][n - 1] && ms[j + n - 1] == ms[j..j + n][n - 1];
    }
  }

  /** `m` has the groups of `e` exchanged. */
  ghost predicate Exchanged(ls: seq<Text>, e: Exchange, m: seq<Text>) {
    && e.Within(|ls|) && |m| == |ls|
    && m[..e.x] == ls[..e.x] && m[e.z..] == ls[e.z..]
    && m[e.x..e.x + (e.z - e.y)] == ls[e.y..e.z] && m[e.x + (e.z - e.y)..e.z] == ls[e.x..e.y]
  }

  lemma SwapExchanges(ls: seq<Text>, e: Exchange)
    requires e.Within(|ls|)
    ensures Exchanged(ls, e, Swap(ls, e))
  {
  }

  lemma SamePrefixStarts(ls: seq<Text>, ms: seq<Text>, n: nat, i: nat)
    requires i <= n <= |ls| && n <= |ms| && ls[..n] == ms[..n]
    ensures Start(ls, i) == Start(ms, i)
  {
    assert ls[..n][..i] == ls[..i] && ms[..n][..i] == ms[..i];
    assert ls[0..i] == ls[..i] && ms[0..i] == ms[..i];
    SameSpan(ls, 0, ms, 0, i);
  }

  /** Inside equal stretches positions differ by a constant. */
  lemma SameStretch(ls: seq<Text>, i: nat, ms: seq<Text>, j: nat, n: nat, d: nat)
    requires i + n <= |ls| && j + n <= |ms| && ls[i..i + n] == ms[j..j + n] && d <= n
    ensures Start(ls, i + d) - Start(ls, i) == Start(ms, j + d) - Start(ms, j)
  {
    assert ls[i..i + n][..d] == ls[i..i + d] && ms[j..j + n][..d] == ms[j..j + d];
    SameSpan(ls, i, ms, j, d);
  }

  lemma LowStart(ls: seq<Text>, e: Exchange, m: seq<Text>)
    requires Exchanged(ls, e, m)
    ensures Start(m, e.x) == Start(ls, e.x)
  {
    SamePrefixStarts(ls, m, e.x, e.x);
  }

  lemma HighGroupStarts(ls: seq<Text>, e: Exchange, m: seq<Text>, i: nat)
    requires Exchanged(ls, e, m) && e.y <= i <= e.z
    ensures Start(m, i - (e.y - e.x)) == Start(ls, i) - (Start(ls, e.y) - Start(ls, e.x))
  {
    LowStart(ls, e, m);
    SameStretch(ls, e.y, m, e.x, e.z - e.y, i - e.y);
  }

  lemma LowGroupStarts(ls: seq<Text>, e: Exchange, m: seq<Text>, i: nat)
    requires Exchanged(ls, e, m) && e.x <= i <= e.y
    ensures Start(m, i + (e.z - e.y)) == Start(ls, i) + Start(ls, e.z) - Start(ls, e.y)
  {
    HighGroupStarts(ls, e, m, e.z);
    SameStretch(ls, e.x, m, e.x + (e.z - e.y), e.y - e.x, i - e.x);
  }

  lemma OutsideStarts(ls: seq<Text>, e: Exchange, m: seq<Text>, i: nat)
    requires Exchanged(ls, e, m) && i <= |ls| && (i <= e.x || e.z <= i)
    ensures Start(m, i) == Start(ls, i)
  {
    if i <= e.x {
      SamePrefixStarts(ls, m, e.x, i);
    } else {
      EndStarts(ls, e, m);
      BehindStarts(ls, e, m, i);
    }
  }

  lemma EndStarts(ls: seq<Text>, e: Exchange, m: seq<Text>)
    requires Exchanged(ls, e, m)
    ensures Start(m, e.z) == Start(ls, e.z)
  {
    LowGroupStarts(ls, e, m, e.y);
    assert e.y + (e.z - e.y) == e.z;
  }

  lemma BehindStarts(ls: seq<Text>, e: Exchange, m: seq<Text>, i: nat)
    requires Exchanged(ls, e, m) && e.z <= i <= |ls|
    ensures Start(m, i) - Start(m, e.z) == Start(ls, i) - Start(ls, e.z)
  {
    assert ls[e.z..e.z + (|ls| - e.z)] == m[e.z..e.z + (|ls| - e.z)];
    SameStretch(ls, e.z, m, e.z, |ls| - e.z, i - e.z);
  }

  /** Where line `i` goes, and by how much its start moves. */
  function Moved(es: seq<Exchange>, i: nat): nat
    requires forall k :: 0 <= k < |es| ==> es[k].x < es[k].y < es[k].z
  {
    if es == [] then i
    else if es[0].x <= i < es[0].y then i + (es[0].z - es[0].y)
    else if es[0].y <= i < es[0].z then i - (es[0].y - es[0].x)
    else Moved(es[1..], i)
  }

  function ShiftOf(ls: seq<Text>, es: seq<Exchange>, i: nat): int
    requires AllWithin(es, |ls|)
  {
    if es == [] then 0
    else if es[0].x <= i < es[0].y then Start(ls, es[0].z) - Start(ls, es[0].y)
    else if es[0].y <= i < es[0].z then Start(ls, es[0].x) - Start(ls, es[0].y)
    else ShiftOf(ls, es[1..], i)
  }

  lemma {:induction false} MovedBeyond(es: seq<Exchange>, n: nat, from: nat, i: nat)
    requires Ascending(es, n) && (es != [] ==> from <= es[0].x) && from <= i < n
    ensures from <= Moved(es, i) < n
  {
    if es != [] { MovedBeyond(es[1..], n, from, i); }
  }

  lemma MovedByFirst(ls: seq<Text>, es: seq<Exchange>, i: nat)
    requires AllWithin(es, |ls|) && es != [] && es[0].x <= i < es[0].z
    ensures
      var e := es[0];
      && Moved(es, i) == (if i < e.y then i + (e.z - e.y) else i - (e.y - e.x))
      && ShiftOf(ls, es, i) == (if i < e.y then Start(ls, e.z) - Start(ls, e.y) else Start(ls, e.x) - Start(ls, e.y))
  {
  }

  lemma GroupArrives(ls: seq<Text>, rest: seq<Text>, e: Exchange, m: seq<Text>, i: nat)
    requires Exchanged(rest, e, m) && |ls| == |rest| && rest[..e.z] == ls[..e.z] && e.x <= i < e.z
    ensures
      var j := if i < e.y then i + (e.z - e.y) else i - (e.y - e.x);
      && m[j] == ls[i]
      && Start(m, j) == Start(ls, i) + if i < e.y then Start(ls, e.z) - Start(ls, e.y) else Start(ls, e.x) - Start(ls, e.y)
  {
    AtOfPrefix(rest, ls, e.z, i);
    SamePrefixStarts(rest, ls, e.z, i);
    SamePrefixStarts(rest, ls, e.z, e.x);
    SamePrefixStarts(rest, ls, e.z, e.y);
    SamePrefixStarts(rest, ls, e.z, e.z);
    if i < e.y {
      LowGroupStarts(rest, e, m, i);
      assert m[e.x + (e.z - e.y)..e.z][i - e.x] == rest[e.x..e.y][i - e.x];
    } else {
      HighGroupStarts(rest, e, m, i);
      assert m[e.x..e.x + (e.z - e.y)][i - e.y] == rest[e.y..e.z][i - e.y];
    }
  }

  /** A line of the first exchange, which is made last. */
  lemma FirstArrives(ls: seq<Text>, rest: seq<Text>, es: seq<Exchange>, i: nat, m: seq<Text>, j: nat)
    requires AllWithin(es, |ls|) && es != [] && es[0].x <= i < es[0].z
    requires Exchanged(rest, es[0], m) && |rest| == |ls| && rest[..es[0].z] == ls[..es[0].z] && j == Moved(es, i)
    ensures j < |m| && m[j] == ls[i] && Start(m, j) == Start(ls, i) + ShiftOf(ls, es, i)
  {
    MovedByFirst(ls, es, i);
    GroupArrives(ls, rest, es[0], m, i);
  }

  /** Line `i` is found, unchanged, at its new place. */
  lemma {:induction false} LineArrives(ls: seq<Text>, es: seq<Exchange>, i: nat)
    requires Ascending(es, |ls|) && i < |ls|
    ensures Moved(es, i) < |ls| && SwapAll(ls, es)[Moved(es, i)] == ls[i]
    ensures Start(SwapAll(ls, es), Moved(es, i)) == Start(ls, i) + ShiftOf(ls, es, i)
  {
    if es != [] {
      var e, rest := es[0], SwapAll(ls, es[1..]);
      if e.x <= i < e.z {
        FirstStillOriginal(ls, es);
        SwapExchanges(rest, e);
        FirstArrives(ls, rest, es, i, Swap(rest, e), Moved(es, i));
      } else {
        LineArrives(ls, es[1..], i);
        if i < e.x { Elsewhere(ls, es[1..], i); } else { MovedBeyond(es[1..], |ls|, e.z, i); }
        OutsideArrives(rest, e, Moved(es[1..], i));
      }
    }
  }

  lemma OutsideArrives(ls: seq<Text>, e: Exchange, i: nat)
    requires e.Within(|ls|) && i < |ls| && (i < e.x || e.z <= i)
    ensures Swap(ls, e)[i] == ls[i] && Start(Swap(ls, e), i) == Start(ls, i)
  {
    SwapExchanges(ls, e);
    OutsideStarts(ls, e, Swap(ls, e), i);
    SwapAt(ls, e);
  }

  lemma {:induction false} Elsewhere(ls: seq<Text>, es: seq<Exchange>, i: nat)
    requires AllWithin(es, |ls|) && forall k :: 0 <= k < |es| ==> i < es[k].x || es[k].z <= i
    ensures Moved(es, i) == i && ShiftOf(ls, es, i) == 0
  {
    if es != [] { Elsewhere(ls, es[1..], i); }
  }

  // --- the text ---

  /** One replacement that exchanges the groups; the last break stays where it is. */
  function EditOf(ls: seq<Text>, e: Exchange): Edit
    requires e.Within(|ls|)
  {
    Edit(Start(ls, e.x), End(ls, e.z - 1), Join(ls[e.y..e.z]) + [LF] + Join(ls[e.x..e.y]))
  }

  function EditsOf(ls: seq<Text>, es: seq<Exchange>): (r: seq<Edit>)
    requires AllWithin(es, |ls|)
    ensures |r| == |es| && forall i :: 0 <= i < |es| ==> r[i] == EditOf(ls, es[i])
  {
    seq(|es|, i requires 0 <= i < |es| => EditOf(ls, es[i]))
  }

  lemma ReplaceParts(t: Text, a: Text, b: Text, c: Text, d: Edit, r: Text)
    requires t == a + b + c && d.start == |a| && d.end == |a| + |b| && r == a + d.text + c
    ensures d.InText(t) && Replace(t, d.start, d.end, d.text) == r
  {
    assert t[..d.start] == a && t[d.end..] == c;
  }

  lemma JoinBoth(xs: seq<Text>, ys: seq<Text>)
    requires xs != [] && ys != []
    ensures Join(xs + ys) == Join(xs) + [LF] + Join(ys)
  {
    JoinConcat(xs, ys);
    TerminatedJoin(xs);
  }

  lemma NewParts(ls: seq<Text>, e: Exchange)
    requires e.Within(|ls|)
    ensures Join(Swap(ls, e)) == Terminated(ls[..e.x]) + EditOf(ls, e).text + After(ls, e.z)
  {
    ThreeParts(Swap(ls, e), e.x, e.z);
    SwapMiddle(ls, e);
  }

  lemma OldParts(ls: seq<Text>, e: Exchange)
    requires e.Within(|ls|)
    ensures
      var a, b, d := Terminated(ls[..e.x]), Join(ls[e.x..e.z]), EditOf(ls, e);
      Join(ls) == a + b + After(ls, e.z) && d.start == |a| && d.end == |a| + |b|
  {
    ThreeParts(ls, e.x, e.z);
  }

  lemma SwapIsReplace(ls: seq<Text>, e: Exchange)
    requires e.Within(|ls|)
    ensures var d := EditOf(ls, e); d.InText(Join(ls)) && Replace(Join(ls), d.start, d.end, d.text) == Join(Swap(ls, e))
  {
    OldParts(ls, e);
    NewParts(ls, e);
    ReplaceParts(Join(ls), Terminated(ls[..e.x]), Join(ls[e.x..e.z]), After(ls, e.z), EditOf(ls, e), Join(Swap(ls, e)));
  }

  lemma SwapMiddle(ls: seq<Text>, e: Exchange)
    requires e.Within(|ls|)
    ensures
      var m := Swap(ls, e);
      && m[..e.x] == ls[..e.x] && After(m, e.z) == After(ls, e.z) && Join(m[e.x..e.z]) == EditOf(ls, e).text
  {
    var m := Swap(ls, e);
    assert m[..e.x] == ls[..e.x] && m[e.z..] == ls[e.z..];
    assert m[e.x..e.z] == ls[e.y..e.z] + ls[e.x..e.y];
    JoinBoth(ls[e.y..e.z], ls[e.x..e.y]);
  }

  lemma SameEdit(ls: seq<Text>, ms: seq<Text>, e: Exchange)
    requires e.Within(|ls|) && |ms| == |ls| && ms[..e.z] == ls[..e.z]
    ensures EditOf(ms, e) == EditOf(ls, e)
  {
    SamePrefixStarts(ms, ls, e.z, e.x);
    SamePrefixStarts(ms, ls, e.z, e.z);
    SliceOfPrefix(ms, ls, e.z, e.x, e.y);
    SliceOfPrefix(ms, ls, e.z, e.y, e.z);
    AtOfPrefix(ms, ls, e.z, e.z - 1);
  }

  lemma SliceOfPrefix(s: seq<Text>, t: seq<Text>, n: nat, i: nat, j: nat)
    requires i <= j <= n <= |s| && n <= |t| && s[..n] == t[..n]
    ensures s[i..j] == t[i..j]
  {
    assert s[..n][i..j] == s[i..j] && t[..n][i..j] == t[i..j];
  }

  lemma AtOfPrefix(s: seq<Text>, t: seq<Text>, n: nat, i: nat)
    requires i < n <= |s| && n <= |t| && s[..n] == t[..n]
    ensures s[i] == t[i]
  {
    assert s[..n][i] == s[i] && t[..n][i] == t[i];
  }

  lemma EditsApart(ls: seq<Text>, es: seq<Exchange>, i: nat, j: nat)
    requires Ascending(es, |ls|) && i < j < |es|
    ensures EditOf(ls, es[i]).start <= EditOf(ls, es[i]).end < EditOf(ls, es[j]).start
  {
    if es[i].x < es[i].z - 1 { StartMonotone(ls, es[i].x, es[i].z - 1); }
    StartMonotone(ls, es[i].z - 1, es[j].x);
  }

  lemma ReverseDescends(edits: seq<Edit>)
    requires forall i, j :: 0 <= i < j < |edits| ==> edits[i].end <= edits[j].start
    ensures Descending(Reverse(edits))
  {
    var down, n := Reverse(edits), |edits|;
    forall i, j | 0 <= i < j < n ensures down[j].end <= down[i].start {
      assert down[i] == edits[n - 1 - i] && down[j] == edits[n - 1 - j];
    }
  }

  lemma ReverseInText(t: Text, edits: seq<Edit>)
    requires forall i :: 0 <= i < |edits| ==> edits[i].InText(t)
    ensures AllInText(t, Reverse(edits))
  {
  }

  lemma InOrder(t: Text, edits: seq<Edit>)
    requires forall i, j :: 0 <= i < j < |edits| ==> edits[i].end <= edits[j].start
    requires forall i :: 0 <= i < |edits| ==> edits[i].InText(t)
    ensures Descending(Reverse(edits)) && AllInText(t, Reverse(edits)) && Compatible(edits)
  {
    ReverseDescends(edits);
    ReverseInText(t, edits);
  }

  lemma EditsOrdered(ls: seq<Text>, es: seq<Exchange>)
    requires Ascending(es, |ls|)
    ensures forall i, j :: 0 <= i < j < |es| ==> EditsOf(ls, es)[i].end <= EditsOf(ls, es)[j].start
  {
    forall i, j | 0 <= i < j < |es| ensures EditsOf(ls, es)[i].end <= EditsOf(ls, es)[j].start { EditsApart(ls, es, i, j); }
  }

  lemma EditInText(ls: seq<Text>, e: Exchange)
    requires e.Within(|ls|)
    ensures EditOf(ls, e).InText(Join(ls))
  {
    SwapIsReplace(ls, e);
  }

  lemma EditsInText(ls: seq<Text>, es: seq<Exchange>)
    requires AllWithin(es, |ls|) && ls != []
    ensures forall i :: 0 <= i < |es| ==> EditsOf(ls, es)[i].InText(Join(ls))
  {
    forall i | 0 <= i < |es| ensures EditOf(ls, es[i]).InText(Join(ls)) { EditInText(ls, es[i]); }
  }

  /** The edits can be applied from the last to the first, and none touches another. */
  lemma EditsDescend(ls: seq<Text>, es: seq<Exchange>)
    requires Ascending(es, |ls|) && ls != []
    ensures Descending(Reverse(EditsOf(ls, es))) && AllInText(Join(ls), Reverse(EditsOf(ls, es)))
    ensures Compatible(EditsOf(ls, es))
  {
    EditsOrdered(ls, es);
    EditsInText(ls, es);
    InOrder(Join(ls), EditsOf(ls, es));
  }

  lemma EditsOfCons(ls: seq<Text>, es: seq<Exchange>)
    requires AllWithin(es, |ls|) && es != []
    ensures EditsOf(ls, es) == [EditOf(ls, es[0])] + EditsOf(ls, es[1..])
  {
    var all, rest := EditsOf(ls, es), EditsOf(ls, es[1..]);
    forall i | 0 < i < |es| ensures all[i] == rest[i - 1] { assert es[1..][i - 1] == es[i]; }
  }

  lemma ReverseFront(ls: seq<Text>, es: seq<Exchange>)
    requires AllWithin(es, |ls|) && es != []
    ensures Reverse(EditsOf(ls, es)) == Reverse(EditsOf(ls, es[1..])) + [EditOf(ls, es[0])]
  {
    EditsOfCons(ls, es);
    ReversedFirst(EditOf(ls, es[0]), EditsOf(ls, es[1..]));
  }

  lemma FirstReplaces(ls: seq<Text>, es: seq<Exchange>)
    requires Ascending(es, |ls|) && es != []
    ensures
      var d, rest := EditOf(ls, es[0]), SwapAll(ls, es[1..]);
      d.InText(Join(rest)) && Replace(Join(rest), d.start, d.end, d.text) == Join(SwapAll(ls, es))
  {
    var rest := SwapAll(ls, es[1..]);
    FirstStillOriginal(ls, es);
    SameEdit(ls, rest, es[0]);
    SwapIsReplace(rest, es[0]);
  }

  lemma {:induction false} SwapAllApplies(ls: seq<Text>, es: seq<Exchange>, t: Text, down: seq<Edit>)
    requires Ascending(es, |ls|) && ls != [] && t == Join(ls) && down == Reverse(EditsOf(ls, es))
    requires Descending(down) && AllInText(t, down)
    ensures ApplyDesc(t, down) == Join(SwapAll(ls, es))
    decreases |es|
  {
    if es != [] {
      var above, lo := Reverse(EditsOf(ls, es[1..])), EditOf(ls, es[0]);
      ReverseFront(ls, es);
      FrontDescends(t, above, lo);
      SwapAllApplies(ls, es[1..], t, above);
      FirstReplaces(ls, es);
      ApplyLast(t, above, lo);
    }
  }

  lemma FrontDescends(t: Text, above: seq<Edit>, lo: Edit)
    requires Descending(above + [lo]) && AllInText(t, above + [lo])
    ensures Descending(above) && AllInText(t, above)
  {
    forall i | 0 <= i < |above| ensures (above + [lo])[i] == above[i] {}
  }

  lemma ApplyLast(t: Text, above: seq<Edit>, lo: Edit)
    requires Descending(above + [lo]) && AllInText(t, above + [lo]) && Descending(above) && AllInText(t, above)
    requires lo.InText(ApplyDesc(t, above))
    ensures ApplyDesc(t, above + [lo]) == Replace(ApplyDesc(t, above), lo.start, lo.end, lo.text)
  {
    assert (above + [lo])[..|above|] == above;
  }

  lemma ReverseTwice(es: seq<Edit>)
    ensures Reverse(Reverse(es)) == es
  {
  }

  /** Replacing all the groups at once gives the text of the exchanged lines. */
  lemma EditsAreSwaps(ls: seq<Text>, es: seq<Exchange>)
    requires Ascending(es, |ls|) && ls != []
    ensures Simultaneous(Join(ls), EditsOf(ls, es), 0) == Join(SwapAll(ls, es))
    ensures Compatible(EditsOf(ls, es))
  {
    EditsDescend(ls, es);
    var down := Reverse(EditsOf(ls, es));
    SwapAllApplies(ls, es, Join(ls), down);
    DescendingIsSimultaneous(Join(ls), down, 0);
    ReverseTwice(EditsOf(ls, es));
    assert Join(ls)[..0] + Simultaneous(Join(ls), EditsOf(ls, es), 0) == Simultaneous(Join(ls), EditsOf(ls, es), 0);
  }

  // --- character boundaries ---

  lemma {:induction false} AfterBreak(t: Text, i: nat)
    requires ValidUtf8(t) && i < |t| && t[i] == LF
    ensures Boundary(t, i) && Boundary(t, i + 1)
  {
    var n := CharLen(t);
    if i < n {
      assert i == 0 && n == 1;
      if |t| > 1 { assert CharLen(t[1..]) > 0 && t[1..][0] == t[1]; }
    } else {
      assert t[n..][i - n] == t[i];
      AfterBreak(t[n..], i - n);
      if i + 1 < |t| { assert t[n..][i + 1 - n] == t[i + 1]; }
    }
  }

  lemma LineBoundaries(ls: seq<Text>, i: nat)
    requires i < |ls| && ValidUtf8(Join(ls))
    ensures Start(ls, i) <= End(ls, i) <= |Join(ls)|
    ensures Boundary(Join(ls), Start(ls, i)) && Boundary(Join(ls), End(ls, i))
  {
    var t := Join(ls);
    SliceOfLines(ls, i, i + 1);
    if i > 0 {
      ThreeParts(ls, i - 1, i);
      assert t[End(ls, i - 1)] == LF;
      AfterBreak(t, End(ls, i - 1));
    }
    if i + 1 < |ls| {
      ThreeParts(ls, i, i + 1);
      assert t[End(ls, i)] == LF;
    } else {
      JoinLength(ls);
    }
  }

  lemma SliceBoundaries(ls: seq<Text>, x: nat, z: nat)
    requires x < z <= |ls| && ValidUtf8(Join(ls))
    ensures Start(ls, x) <= End(ls, z - 1) <= |Join(ls)|
    ensures Boundary(Join(ls), Start(ls, x)) && Boundary(Join(ls), End(ls, z - 1))
  {
    SliceOfLines(ls, x, z);
    LineBoundaries(ls, x);
    LineBoundaries(ls, z - 1);
  }

  /** A slice from the start of one line to the end of another is valid text. */
  lemma LinesAreValid(ls: seq<Text>, x: nat, z: nat)
    requires x < z <= |ls| && ValidUtf8(Join(ls))
    ensures ValidUtf8(Join(ls[x..z]))
  {
    SliceOfLines(ls, x, z);
    SliceBoundaries(ls, x, z);
    ValidSlice(Join(ls), Start(ls, x), End(ls, z - 1));
  }

  lemma ValidWithBreak(a: Text, b: Text)
    requires ValidUtf8(a) && ValidUtf8(b)
    ensures ValidUtf8(a + [LF] + b)
  {
    assert ValidUtf8([LF]) by { assert CharLen([LF]) == 1 && [LF][1..] == []; }
    ValidConcat(a, [LF]);
    ValidConcat(a + [LF], b);
  }

  lemma EditRangeValid(ls: seq<Text>, e: Exchange, t: Text, d: Edit)
    requires e.Within(|ls|) && t == Join(ls) && ValidUtf8(t) && d == EditOf(ls, e)
    ensures ValidRange(t, d.start, d.end)
  {
    SpanBoundaries(ls, e.x, e.z, t, d.start, d.end);
  }

  lemma SpanBoundaries(ls: seq<Text>, x: nat, z: nat, t: Text, start: nat, end: nat)
    requires x < z <= |ls| && t == Join(ls) && ValidUtf8(t) && start == Start(ls, x) && end == End(ls, z - 1)
    ensures ValidRange(t, start, end)
  {
    SliceBoundaries(ls, x, z);
  }

  lemma EditTextValid(ls: seq<Text>, e: Exchange)
    requires e.Within(|ls|) && ValidUtf8(Join(ls))
    ensures ValidUtf8(EditOf(ls, e).text)
  {
    LinesAreValid(ls, e.y, e.z);
    LinesAreValid(ls, e.x, e.y);
    ValidWithBreak(Join(ls[e.y..e.z]), Join(ls[e.x..e.y]));
  }
}
