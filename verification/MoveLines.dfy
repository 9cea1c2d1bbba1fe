/** `move_lines` (`tempr_editor/src/edit_ops.rs`) for cursors, on text without carriage returns. */
module MoveLines {
  import opened Buffers
  import opened EditBatch
  import EditOps
  import opened LineMoves
  import opened Lines
  import opened Selections
  import opened Utf8
  import opened Wrappers

  datatype Direction = Up | Down

  // --- runs of touched lines ---

  /** Lines `first` to `last`, both included. */
  datatype Run = Run(first: nat, last: nat) {
    predicate Has(l: nat) { first <= l <= last }
  }

  /** Lines joined into runs: one that is in or next to the last run extends it. */
  function Runs(lines: seq<nat>): seq<Run> {
    if lines == [] then [] else Extend(Runs(lines[..|lines| - 1]), lines[|lines| - 1])
  }

  function Extend(runs: seq<Run>, l: nat): seq<Run> {
    if runs != [] && l <= runs[|runs| - 1].last + 1 then
      var r := runs[|runs| - 1];
      runs[..|runs| - 1] + [Run(r.first, if r.last < l then l else r.last)]
    else runs + [Run(l, l)]
  }

  ghost predicate Rising(lines: seq<nat>) { forall i, j :: 0 <= i < j < |lines| ==> lines[i] <= lines[j] }

  /** Runs within `n` lines, at least one line apart. */
  ghost predicate Apart(runs: seq<Run>, n: nat) {
    && (forall k :: 0 <= k < |runs| ==> runs[k].first <= runs[k].last < n)
    && (forall j, k :: 0 <= j < k < |runs| ==> runs[j].last + 1 < runs[k].first)
  }

  ghost predicate InRuns(runs: seq<Run>, l: nat) { exists k :: 0 <= k < |runs| && runs[k].Has(l) }

  lemma ExtendKeeps(runs: seq<Run>, l: nat, n: nat)
    requires Apart(runs, n) && l < n && (runs != [] ==> runs[|runs| - 1].last <= l)
    ensures Apart(Extend(runs, l), n) && Extend(runs, l) != [] && Extend(runs, l)[|Extend(runs, l)| - 1].last == l
    ensures forall m :: InRuns(Extend(runs, l), m) <==> InRuns(runs, m) || m == l
  {
    var out := Extend(runs, l);
    var top := |out| - 1;
    assert out[top].Has(l);
    forall m ensures InRuns(out, m) <==> InRuns(runs, m) || m == l {
      if k :| 0 <= k < |out| && out[k].Has(m) {
        assert (k < |runs| && runs[k].Has(m)) || m == l;
      }
      if k :| 0 <= k < |runs| && runs[k].Has(m) {
        assert out[k].Has(m);
      }
    }
  }

  /** The runs are the maximal stretches of touched lines. */
  lemma {:induction false} RunsExact(lines: seq<nat>, n: nat)
    requires Rising(lines) && forall i :: 0 <= i < |lines| ==> lines[i] < n
    ensures Apart(Runs(lines), n)
    ensures forall m :: InRuns(Runs(lines), m) <==> m in lines
    ensures lines != [] ==> Runs(lines) != [] && Runs(lines)[|Runs(lines)| - 1].last == lines[|lines| - 1]
    ensures lines == [] ==> Runs(lines) == []
  {
    if lines != [] {
      var k := |lines| - 1;
      RunsExact(lines[..k], n);
      LastOfRuns(lines);
      ExtendKeeps(Runs(lines[..k]), lines[k], n);
      InFront(lines);
    }
  }

  lemma InFront(lines: seq<nat>)
    requires lines != []
    ensures forall m :: m in lines <==> m in lines[..|lines| - 1] || m == lines[|lines| - 1]
  {
    assert lines == lines[..|lines| - 1] + [lines[|lines| - 1]];
  }

  lemma LastOfRuns(lines: seq<nat>)
    requires Rising(lines) && lines != []
    ensures
      var front := lines[..|lines| - 1];
      Rising(front) && (front != [] ==> front[|front| - 1] <= lines[|lines| - 1])
  {
  }

  function Later(lines: seq<nat>): (r: seq<nat>)
    ensures |r| == |lines| && forall i :: 0 <= i < |r| ==> r[i] == lines[i] + 1
  {
    seq(|lines|, i requires 0 <= i < |lines| => lines[i] + 1)
  }

  function LaterRuns(runs: seq<Run>): (r: seq<Run>)
    ensures |r| == |runs| && forall i :: 0 <= i < |r| ==> r[i] == Run(runs[i].first + 1, runs[i].last + 1)
  {
    seq(|runs|, i requires 0 <= i < |runs| => Run(runs[i].first + 1, runs[i].last + 1))
  }

  lemma ExtendLater(runs: seq<Run>, l: nat)
    ensures Extend(LaterRuns(runs), l + 1) == LaterRuns(Extend(runs, l))
  {
    var a, b := Extend(LaterRuns(runs), l + 1), LaterRuns(Extend(runs, l));
    assert |a| == |b|;
    forall i | 0 <= i < |a| ensures a[i] == b[i] {}
  }

  lemma LaterAppend(lines: seq<nat>, l: nat)
    ensures Later(lines + [l]) == Later(lines) + [l + 1]
  {
  }

  lemma RunsAppend(lines: seq<nat>, l: nat)
    ensures Runs(lines + [l]) == Extend(Runs(lines), l)
  {
    assert (lines + [l])[..|lines|] == lines;
  }

  lemma {:induction false} RunsLater(lines: seq<nat>)
    ensures Runs(Later(lines)) == LaterRuns(Runs(lines))
  {
    if lines != [] {
      var front, l := lines[..|lines| - 1], lines[|lines| - 1];
      assert lines == front + [l];
      RunsLater(front);
      LaterAppend(front, l);
      RunsAppend(front, l);
      RunsAppend(Later(front), l + 1);
      ExtendLater(Runs(front), l);
    }
  }

  // --- which exchange moves a run ---

  /** Nothing above the first line; nothing below the last, nor below when only an empty line is left there. */
  function Move(ls: seq<Text>, r: Run, d: Direction): Option<Exchange>
    requires ls != []
  {
    match d
    case Up => if r.first > 0 then Some(Exchange(r.first - 1, r.first, r.last + 1)) else None
    case Down =>
      if r.last + 1 < |ls| && Start(ls, r.last + 1) < Total(ls) then Some(Exchange(r.first, r.last + 1, r.last + 2)) else None
  }

  function Moves(ls: seq<Text>, runs: seq<Run>, d: Direction): seq<Exchange>
    requires ls != []
  {
    if runs == [] then []
    else
      (match Move(ls, runs[0], d) case Some(e) => [e] case None => []) + Moves(ls, runs[1..], d)
  }

  lemma ApartTail(runs: seq<Run>, n: nat)
    requires Apart(runs, n) && runs != []
    ensures Apart(runs[1..], n)
    ensures forall r :: r in runs[1..] ==> runs[0].last + 1 < r.first
  {
  }

  lemma {:induction false} MovesFollow(ls: seq<Text>, runs: seq<Run>, d: Direction, from: nat)
    requires ls != [] && Apart(runs, |ls|) && forall r :: r in runs ==> from < r.first
    ensures forall e :: e in Moves(ls, runs, d) ==> from <= e.x < e.y < e.z <= |ls| && (d.Down? ==> from < e.x)
  {
    if runs != [] {
      ApartTail(runs, |ls|);
      MovesFollow(ls, runs[1..], d, from);
    }
  }

  lemma {:induction false} MovesAscend(ls: seq<Text>, runs: seq<Run>, d: Direction)
    requires ls != [] && Apart(runs, |ls|)
    ensures Ascending(Moves(ls, runs, d), |ls|)
  {
    if runs != [] {
      ApartTail(runs, |ls|);
      MovesAscend(ls, runs[1..], d);
      MovesFollow(ls, runs[1..], d, runs[0].last + 1);
      var e, rest := Move(ls, runs[0], d), Moves(ls, runs[1..], d);
      if e.Some? {
        LowestAscends(e.value, rest, |ls|);
        assert Moves(ls, runs, d) == [e.value] + rest;
      } else {
        assert Moves(ls, runs, d) == rest;
      }
    }
  }

  lemma LowestAscends(e: Exchange, rest: seq<Exchange>, n: nat)
    requires Ascending(rest, n) && e.Within(n) && forall x :: x in rest ==> e.z <= x.x
    ensures Ascending([e] + rest, n)
  {
    assert forall i :: 0 <= i < |rest| ==> rest[i] in rest;
  }

  /** By how much the lines of a run move. */
  function Distance(ls: seq<Text>, r: Run, d: Direction): int
    requires ls != [] && r.first <= r.last < |ls|
  {
    if Move(ls, r, d).None? then 0
    else if d.Up? then Start(ls, r.first - 1) - Start(ls, r.first)
    else Start(ls, r.last + 2) - Start(ls, r.last + 1)
  }

  lemma MovesHead(ls: seq<Text>, runs: seq<Run>, d: Direction)
    requires ls != [] && Apart(runs, |ls|) && runs != []
    ensures AllWithin(Moves(ls, runs, d), |ls|) && AllWithin(Moves(ls, runs[1..], d), |ls|)
    ensures
      var move, rest, all := Move(ls, runs[0], d), Moves(ls, runs[1..], d), Moves(ls, runs, d);
      if move.Some? then all != [] && all[0] == move.value && all[1..] == rest else all == rest
  {
    MovesAscend(ls, runs, d);
    ApartTail(runs, |ls|);
    MovesAscend(ls, runs[1..], d);
  }

  /** Lines behind the first exchange do not see it. */
  lemma BehindFirst(ls: seq<Text>, runs: seq<Run>, d: Direction, l: nat)
    requires ls != [] && Apart(runs, |ls|) && runs != []
    requires runs[0].last < l && (d.Down? ==> runs[0].last + 1 < l)
    ensures AllWithin(Moves(ls, runs, d), |ls|) && AllWithin(Moves(ls, runs[1..], d), |ls|)
    ensures ShiftOf(ls, Moves(ls, runs, d), l) == ShiftOf(ls, Moves(ls, runs[1..], d), l)
    ensures Moved(Moves(ls, runs, d), l) == Moved(Moves(ls, runs[1..], d), l)
  {
    MovesHead(ls, runs, d);
  }

  lemma ShiftOfFirst(ls: seq<Text>, runs: seq<Run>, d: Direction, l: nat)
    requires ls != [] && Apart(runs, |ls|) && runs != [] && runs[0].Has(l)
    ensures AllWithin(Moves(ls, runs, d), |ls|)
    ensures ShiftOf(ls, Moves(ls, runs, d), l) == Distance(ls, runs[0], d)
    ensures Moved(Moves(ls, runs, d), l) == if Move(ls, runs[0], d).None? then l else if d.Up? then l - 1 else l + 1
  {
    MovesHead(ls, runs, d);
    if Move(ls, runs[0], d).None? {
      RestElsewhere(ls, runs, d, l);
    } else {
      ShiftOfMoved(ls, Moves(ls, runs, d), runs[0], d, l);
    }
  }

  lemma ShiftOfMoved(ls: seq<Text>, es: seq<Exchange>, r: Run, d: Direction, l: nat)
    requires ls != [] && r.first <= r.last < |ls| && AllWithin(es, |ls|) && es != []
    requires Move(ls, r, d) == Some(es[0]) && r.Has(l)
    ensures ShiftOf(ls, es, l) == Distance(ls, r, d)
    ensures Moved(es, l) == if d.Up? then l - 1 else l + 1
  {
    MovedByFirst(ls, es, l);
  }

  lemma RestElsewhere(ls: seq<Text>, runs: seq<Run>, d: Direction, l: nat)
    requires ls != [] && Apart(runs, |ls|) && runs != [] && runs[0].Has(l)
    ensures AllWithin(Moves(ls, runs[1..], d), |ls|)
    ensures ShiftOf(ls, Moves(ls, runs[1..], d), l) == 0 && Moved(Moves(ls, runs[1..], d), l) == l
  {
    ApartTail(runs, |ls|);
    MovesAscend(ls, runs[1..], d);
    MovesFollow(ls, runs[1..], d, runs[0].last + 1);
    var rest := Moves(ls, runs[1..], d);
    assert forall i :: 0 <= i < |rest| ==> rest[i] in rest;
    Elsewhere(ls, rest, l);
  }

  /** Where the lines of a run go, and by how much their start moves. */
  lemma {:induction false} ShiftOfRun(ls: seq<Text>, runs: seq<Run>, d: Direction, k: nat, l: nat)
    requires ls != [] && Apart(runs, |ls|) && k < |runs| && runs[k].Has(l)
    ensures AllWithin(Moves(ls, runs, d), |ls|)
    ensures ShiftOf(ls, Moves(ls, runs, d), l) == Distance(ls, runs[k], d)
    ensures Moved(Moves(ls, runs, d), l) == if Move(ls, runs[k], d).None? then l else if d.Up? then l - 1 else l + 1
  {
    if k == 0 {
      ShiftOfFirst(ls, runs, d, l);
    } else {
      ApartTail(runs, |ls|);
      ShiftOfRun(ls, runs[1..], d, k - 1, l);
      BehindFirst(ls, runs, d, l);
    }
  }

  // --- the specification ---

  ghost predicate Cursors(t: Text, cs: seq<Selection>) {
    forall c :: c in cs ==> c.IsEmpty() && c.head <= |t|
  }

  function Touched(ls: seq<Text>, cs: seq<Selection>): (r: seq<nat>)
    requires ls != []
    ensures |r| == |cs| && forall i :: 0 <= i < |r| ==> r[i] == LineAt(ls, cs[i].head)
  {
    seq(|cs|, i requires 0 <= i < |cs| => LineAt(ls, cs[i].head))
  }

  function RunsOf(t: Text, cs: seq<Selection>): seq<Run> { Runs(Touched(LinesOf(t), cs)) }

  function MovesOf(t: Text, cs: seq<Selection>, d: Direction): seq<Exchange> { Moves(LinesOf(t), RunsOf(t, cs), d) }

  lemma TouchedRising(t: Text, cs: seq<Selection>)
    requires Cursors(t, cs) && Separated(cs)
    ensures Rising(Touched(LinesOf(t), cs)) && Apart(RunsOf(t, cs), |LinesOf(t)|)
    ensures forall m :: InRuns(RunsOf(t, cs), m) <==> m in Touched(LinesOf(t), cs)
  {
    var ls := LinesOf(t);
    JoinLines(t);
    JoinLength(ls);
    forall i, j | 0 <= i < j < |cs| ensures LineAt(ls, cs[i].head) <= LineAt(ls, cs[j].head) {
      assert cs[i] in cs && cs[j] in cs;
      LineAtMonotone(ls, cs[i].head, cs[j].head);
    }
    RunsExact(Touched(ls, cs), |ls|);
  }

  lemma MovesOfAscend(t: Text, cs: seq<Selection>, d: Direction)
    requires Cursors(t, cs) && Separated(cs)
    ensures Ascending(MovesOf(t, cs, d), |LinesOf(t)|)
  {
    TouchedRising(t, cs);
    MovesAscend(LinesOf(t), RunsOf(t, cs), d);
  }

  function MovedText(t: Text, cs: seq<Selection>, d: Direction): Text
    requires Cursors(t, cs) && Separated(cs)
  {
    MovesOfAscend(t, cs, d);
    Join(SwapAll(LinesOf(t), MovesOf(t, cs, d)))
  }

  /** Where the text at `p` is after the exchanges. */
  function Land(ls: seq<Text>, es: seq<Exchange>, p: nat): nat
    requires ls != [] && Ascending(es, |ls|) && p <= Total(ls)
  {
    LineAtHolds(ls, p);
    LineArrives(ls, es, LineAt(ls, p));
    p + ShiftOf(ls, es, LineAt(ls, p))
  }

  /** The same column of the same line. */
  lemma LandsInPlace(ls: seq<Text>, es: seq<Exchange>, p: nat)
    requires ls != [] && Ascending(es, |ls|) && p <= Total(ls)
    ensures
      var i, m := LineAt(ls, p), SwapAll(ls, es);
      var j := LineAt(m, Land(ls, es, p));
      && j == Moved(es, i) && m[j] == ls[i]
      && Land(ls, es, p) - Start(m, j) == p - Start(ls, i)
      && Land(ls, es, p) <= Total(m)
  {
    var i, m := LineAt(ls, p), SwapAll(ls, es);
    LineAtHolds(ls, p);
    LineArrives(ls, es, i);
    LineAtUnique(m, Land(ls, es, p), Moved(es, i));
    EndBound(m, Moved(es, i));
  }

  lemma InBounds(t: Text)
    ensures |t| == Total(LinesOf(t))
  {
    JoinLines(t);
    JoinLength(LinesOf(t));
  }

  function MovedCursors(t: Text, cs: seq<Selection>, d: Direction): (r: seq<Selection>)
    requires Cursors(t, cs) && Separated(cs)
    ensures |r| == |cs|
  {
    MovesOfAscend(t, cs, d);
    InBounds(t);
    seq(|cs|, i requires 0 <= i < |cs| => Cursor(Land(LinesOf(t), MovesOf(t, cs, d), cs[i].head)))
  }

  // --- what a move does ---

  function NewIndex(d: Direction, l: nat): int { if d.Up? then l - 1 else l + 1 }

  lemma LineOfBlock(ls: seq<Text>, runs: seq<Run>, d: Direction, k: nat, l: nat)
    requires ls != [] && Apart(runs, |ls|) && k < |runs| && Move(ls, runs[k], d).Some? && runs[k].Has(l)
    ensures Ascending(Moves(ls, runs, d), |ls|)
    ensures 0 <= NewIndex(d, l) < |ls| && SwapAll(ls, Moves(ls, runs, d))[NewIndex(d, l)] == ls[l]
  {
    MovesAscend(ls, runs, d);
    ShiftOfRun(ls, runs, d, k, l);
    LineArrives(ls, Moves(ls, runs, d), l);
  }

  /** The neighbour a run changes places with. */
  function Neighbour(r: Run, d: Direction): int { if d.Up? then r.first - 1 else r.last + 1 }

  lemma {:induction false} NeighbourMoves(ls: seq<Text>, runs: seq<Run>, d: Direction, k: nat, n: nat)
    requires ls != [] && Apart(runs, |ls|) && k < |runs| && Move(ls, runs[k], d).Some? && n == Neighbour(runs[k], d)
    ensures AllWithin(Moves(ls, runs, d), |ls|)
    ensures Moved(Moves(ls, runs, d), n) == if d.Up? then runs[k].last else runs[k].first
  {
    if k == 0 {
      MovesHead(ls, runs, d);
    } else {
      ApartTail(runs, |ls|);
      NeighbourMoves(ls, runs[1..], d, k - 1, n);
      BehindFirst(ls, runs, d, n);
    }
  }

  /** In `m` the lines of `r` and the line above or below it have changed places. */
  predicate ChangedPlaces(ls: seq<Text>, m: seq<Text>, r: Run, d: Direction) {
    && |m| == |ls| && r.first <= r.last < |ls| && 0 <= Neighbour(r, d) < |ls|
    && if d.Up? then m[r.first - 1..r.last + 1] == ls[r.first..r.last + 1] + [ls[r.first - 1]]
       else m[r.first..r.last + 2] == [ls[r.last + 1]] + ls[r.first..r.last + 1]
  }

  /** A moved block has changed places with its own neighbour. */
  lemma BlockAndNeighbour(ls: seq<Text>, runs: seq<Run>, d: Direction, k: nat)
    requires ls != [] && Apart(runs, |ls|) && k < |runs| && Move(ls, runs[k], d).Some?
    ensures Ascending(Moves(ls, runs, d), |ls|)
    ensures ChangedPlaces(ls, SwapAll(ls, Moves(ls, runs, d)), runs[k], d)
  {
    MovesAscend(ls, runs, d);
    BlockLines(ls, runs, d, k);
    BlockSlices(ls, SwapAll(ls, Moves(ls, runs, d)), runs[k], d);
  }

  lemma BlockLines(ls: seq<Text>, runs: seq<Run>, d: Direction, k: nat)
    requires ls != [] && Apart(runs, |ls|) && k < |runs| && Move(ls, runs[k], d).Some?
    ensures Ascending(Moves(ls, runs, d), |ls|) && 0 <= Neighbour(runs[k], d) < |ls|
    ensures
      var r, m := runs[k], SwapAll(ls, Moves(ls, runs, d));
      && (forall l: nat :: r.first <= l <= r.last ==> 0 <= NewIndex(d, l) < |m| && m[NewIndex(d, l)] == ls[l])
      && m[if d.Up? then r.last else r.first] == ls[Neighbour(r, d)]
  {
    var r, es, n: nat := runs[k], Moves(ls, runs, d), Neighbour(runs[k], d);
    MovesAscend(ls, runs, d);
    var m := SwapAll(ls, es);
    forall l: nat | r.first <= l <= r.last ensures 0 <= NewIndex(d, l) < |m| && m[NewIndex(d, l)] == ls[l] {
      LineOfBlock(ls, runs, d, k, l);
    }
    NeighbourMoves(ls, runs, d, k, n);
    LineArrives(ls, es, n);
  }

  lemma BlockSlices(ls: seq<Text>, m: seq<Text>, r: Run, d: Direction)
    requires |m| == |ls| && r.first <= r.last < |ls| && 0 <= Neighbour(r, d) < |ls|
    requires forall l: nat :: r.first <= l <= r.last ==> 0 <= NewIndex(d, l) < |m| && m[NewIndex(d, l)] == ls[l]
    requires m[if d.Up? then r.last else r.first] == ls[Neighbour(r, d)]
    ensures ChangedPlaces(ls, m, r, d)
  {
    if d.Up? {
      var a, b := m[r.first - 1..r.last + 1], ls[r.first..r.last + 1] + [ls[r.first - 1]];
      forall i | 0 <= i < |a| ensures a[i] == b[i] {
        if i < |a| - 1 { assert m[NewIndex(d, r.first + i)] == ls[r.first + i]; }
      }
    } else {
      var a, b := m[r.first..r.last + 2], [ls[r.last + 1]] + ls[r.first..r.last + 1];
      forall i | 0 <= i < |a| ensures a[i] == b[i] {
        if i > 0 { assert m[NewIndex(d, r.first + i - 1)] == ls[r.first + i - 1]; }
      }
    }
  }

  /** The lines are permuted, and every cursor is at the same column of the same line. */
  lemma CursorsTravel(t: Text, cs: seq<Selection>, d: Direction, i: nat)
    requires Cursors(t, cs) && Separated(cs) && i < |cs|
    ensures multiset(LinesOf(MovedText(t, cs, d))) == multiset(LinesOf(t))
    ensures
      var ls, m, p, q := LinesOf(t), LinesOf(MovedText(t, cs, d)), cs[i].head, MovedCursors(t, cs, d)[i].head;
      && q <= |MovedText(t, cs, d)| && m[LineAt(m, q)] == ls[LineAt(ls, p)]
      && q - Start(m, LineAt(m, q)) == p - Start(ls, LineAt(ls, p))
  {
    var ls, es := LinesOf(t), MovesOf(t, cs, d);
    MovesOfAscend(t, cs, d);
    InBounds(t);
    MovedLines(t, cs, d);
    SwapAllPermutes(ls, es);
    JoinLength(SwapAll(ls, es));
    assert cs[i] in cs;
    LandsInPlace(ls, es, cs[i].head);
  }

  lemma MovedLines(t: Text, cs: seq<Selection>, d: Direction)
    requires Cursors(t, cs) && Separated(cs)
    ensures Ascending(MovesOf(t, cs, d), |LinesOf(t)|)
    ensures LinesOf(MovedText(t, cs, d)) == SwapAll(LinesOf(t), MovesOf(t, cs, d))
  {
    MovesOfAscend(t, cs, d);
    JoinLines(t);
    SwapAllPlain(LinesOf(t), MovesOf(t, cs, d));
    LinesJoin(SwapAll(LinesOf(t), MovesOf(t, cs, d)));
  }

  // --- down, then up ---

  /** Every block has a line below it to change places with. */
  ghost predicate AllMove(t: Text, cs: seq<Selection>) {
    forall r :: r in RunsOf(t, cs) ==> Move(LinesOf(t), r, Down).Some?
  }

  lemma {:induction false} AllMoves(ls: seq<Text>, runs: seq<Run>, d: Direction)
    requires ls != [] && forall r :: r in runs ==> Move(ls, r, d).Some?
    ensures |Moves(ls, runs, d)| == |runs|
    ensures forall k :: 0 <= k < |runs| ==> Some(Moves(ls, runs, d)[k]) == Move(ls, runs[k], d)
  {
    if runs != [] { AllMoves(ls, runs[1..], d); }
  }

  lemma UpAgain(ls: seq<Text>, m: seq<Text>, runs: seq<Run>)
    requires ls != [] && m != [] && Apart(runs, |ls|) && forall r :: r in runs ==> Move(ls, r, Down).Some?
    ensures Ascending(Moves(ls, runs, Down), |ls|)
    ensures Moves(m, LaterRuns(runs), Up) == Inverses(Moves(ls, runs, Down))
  {
    MovesAscend(ls, runs, Down);
    AllMoves(ls, runs, Down);
    AllMoves(m, LaterRuns(runs), Up);
    var down, up := Moves(ls, runs, Down), Moves(m, LaterRuns(runs), Up);
    forall k | 0 <= k < |runs| ensures up[k] == Inverses(down)[k] {
      assert Some(down[k]) == Move(ls, runs[k], Down) && Some(up[k]) == Move(m, LaterRuns(runs)[k], Up);
    }
  }

  lemma {:induction false} MovedBack(es: seq<Exchange>, n: nat, i: nat)
    requires Ascending(es, n) && i < n
    ensures Moved(Inverses(es), Moved(es, i)) == i
  {
    if es != [] {
      assert Inverses(es)[1..] == Inverses(es[1..]);
      MovedBack(es[1..], n, i);
      if i < es[0].x {
        BelowStays(es[1..], i);
      } else if es[0].z <= i {
        MovedBeyond(es[1..], n, es[0].z, i);
      }
    }
  }

  lemma {:induction false} BelowStays(es: seq<Exchange>, i: nat)
    requires forall k :: 0 <= k < |es| ==> i < es[k].x < es[k].y < es[k].z
    ensures Moved(es, i) == i
  {
    if es != [] { BelowStays(es[1..], i); }
  }

  lemma LandBack(ls: seq<Text>, es: seq<Exchange>, p: nat)
    requires ls != [] && Ascending(es, |ls|) && p <= Total(ls)
    ensures Ascending(Inverses(es), |ls|) && Land(ls, es, p) <= Total(SwapAll(ls, es))
    ensures Land(SwapAll(ls, es), Inverses(es), Land(ls, es, p)) == p
  {
    var i, m := LineAt(ls, p), SwapAll(ls, es);
    InversesRestore(ls, es);
    LandsInPlace(ls, es, p);
    LineArrives(ls, es, i);
    LineArrives(m, Inverses(es), Moved(es, i));
    MovedBack(es, |ls|, i);
  }

  lemma LineGoesDown(t: Text, cs: seq<Selection>, i: nat)
    requires Cursors(t, cs) && Separated(cs) && AllMove(t, cs) && i < |cs|
    ensures
      LineAt(LinesOf(MovedText(t, cs, Down)), MovedCursors(t, cs, Down)[i].head) == LineAt(LinesOf(t), cs[i].head) + 1
  {
    var ls, es, p := LinesOf(t), MovesOf(t, cs, Down), cs[i].head;
    var k := RunOfCursor(t, cs, i);
    assert RunsOf(t, cs)[k] in RunsOf(t, cs);
    MovedLines(t, cs, Down);
    InBounds(t);
    assert cs[i] in cs;
    LandsInPlace(ls, es, p);
    ShiftOfRun(ls, RunsOf(t, cs), Down, k, LineAt(ls, p));
  }

  lemma TouchedLater(t: Text, cs: seq<Selection>)
    requires Cursors(t, cs) && Separated(cs) && AllMove(t, cs)
    ensures
      var u, moved := MovedText(t, cs, Down), MovedCursors(t, cs, Down);
      Touched(LinesOf(u), moved) == Later(Touched(LinesOf(t), cs))
  {
    forall i | 0 <= i < |cs|
      ensures LineAt(LinesOf(MovedText(t, cs, Down)), MovedCursors(t, cs, Down)[i].head) == LineAt(LinesOf(t), cs[i].head) + 1
    {
      LineGoesDown(t, cs, i);
    }
  }

  lemma MovedSeparated(t: Text, cs: seq<Selection>)
    requires Cursors(t, cs) && Separated(cs) && AllMove(t, cs)
    ensures Cursors(MovedText(t, cs, Down), MovedCursors(t, cs, Down)) && Separated(MovedCursors(t, cs, Down))
  {
    var ls, es := LinesOf(t), MovesOf(t, cs, Down);
    var moved, u := MovedCursors(t, cs, Down), MovedText(t, cs, Down);
    MovesOfAscend(t, cs, Down);
    MovedLines(t, cs, Down);
    InBounds(t);
    InBounds(u);
    TouchedRising(t, cs);
    TouchedLater(t, cs);
    forall i | 0 <= i < |cs| ensures moved[i].head <= |u| && moved[i].IsEmpty() {
      assert cs[i] in cs;
      LandsInPlace(ls, es, cs[i].head);
    }
    forall i, j | 0 <= i < j < |cs| ensures moved[i].head < moved[j].head {
      MovedInOrder(t, cs, i, j);
    }
  }

  lemma MovedInOrder(t: Text, cs: seq<Selection>, i: nat, j: nat)
    requires Cursors(t, cs) && Separated(cs) && AllMove(t, cs) && i < j < |cs|
    ensures MovedCursors(t, cs, Down)[i].head < MovedCursors(t, cs, Down)[j].head
  {
    var ls, es := LinesOf(t), MovesOf(t, cs, Down);
    MovesOfAscend(t, cs, Down);
    MovedLines(t, cs, Down);
    InBounds(t);
    TouchedRising(t, cs);
    TouchedLater(t, cs);
    assert cs[i] in cs && cs[j] in cs && cs[i].head < cs[j].head;
    assert Touched(ls, cs)[i] <= Touched(ls, cs)[j];
    var m, moved := SwapAll(ls, es), MovedCursors(t, cs, Down);
    assert Touched(m, moved)[i] == Touched(ls, cs)[i] + 1;
    assert Touched(m, moved)[j] == Touched(ls, cs)[j] + 1;
    LandInOrder(ls, es, cs[i].head, cs[j].head);
  }

  lemma LandInOrder(ls: seq<Text>, es: seq<Exchange>, p: nat, q: nat)
    requires ls != [] && Ascending(es, |ls|) && p < q <= Total(ls)
    requires
      var m := SwapAll(ls, es);
      LineAt(m, Land(ls, es, p)) - LineAt(ls, p) == LineAt(m, Land(ls, es, q)) - LineAt(ls, q)
    ensures Land(ls, es, p) < Land(ls, es, q)
  {
    var m := SwapAll(ls, es);
    LandsInPlace(ls, es, p);
    LandsInPlace(ls, es, q);
    LineAtMonotone(ls, p, q);
    if LineAt(m, Land(ls, es, p)) < LineAt(m, Land(ls, es, q)) { LaterLineIsBehind(m, Land(ls, es, p), Land(ls, es, q)); }
  }

  lemma LaterLineIsBehind(m: seq<Text>, p: nat, q: nat)
    requires m != [] && p <= Total(m) && q <= Total(m) && LineAt(m, p) < LineAt(m, q)
    ensures p < q
  {
    if q <= p { LineAtMonotone(m, q, p); }
  }

  /** Down and then up on the returned cursors gives back the text and the cursors, for any set of cursors, whenever
      every block moved down. */
  lemma DownThenUp(t: Text, cs: seq<Selection>)
    requires Cursors(t, cs) && Separated(cs) && AllMove(t, cs)
    ensures
      var u, moved := MovedText(t, cs, Down), MovedCursors(t, cs, Down);
      && Cursors(u, moved) && Separated(moved)
      && MovedText(u, moved, Up) == t
      && MovedCursors(u, moved, Up) == cs
  {
    var ls, runs, es := LinesOf(t), RunsOf(t, cs), MovesOf(t, cs, Down);
    var u, moved := MovedText(t, cs, Down), MovedCursors(t, cs, Down);
    MovedSeparated(t, cs);
    TouchedLater(t, cs);
    TouchedRising(t, cs);
    MovedLines(t, cs, Down);
    RunsLater(Touched(ls, cs));
    UpAgain(ls, LinesOf(u), runs);
    assert MovesOf(u, moved, Up) == Inverses(es);
    InversesRestore(ls, es);
    JoinLines(t);
    InBounds(t);
    InBounds(u);
    forall i | 0 <= i < |cs| ensures MovedCursors(u, moved, Up)[i] == cs[i] {
      assert cs[i] in cs;
      LandBack(ls, es, cs[i].head);
    }
  }

  // --- the operation, by offsets ---

  /** What the buffer answers about lines: `point_for_offset`, `line_start_of` and `line_end`. */
  function LineOf(t: Text, offset: nat): nat { LineAt(LinesOf(t), if offset < |t| then offset else |t|) }

  function LineStartOf(t: Text, line: nat): nat {
    var ls := LinesOf(t);
    Start(ls, if line < |ls| then line else |ls| - 1)
  }

  function LineEnd(t: Text, offset: nat): nat { End(LinesOf(t), LineOf(t, offset)) }

  datatype Block = Block(start: nat, end: nat, hasBreak: bool)

  function BlockOf(ls: seq<Text>, r: Run): Block
    requires r.first <= r.last < |ls|
  {
    Block(Start(ls, r.first), if r.last + 1 < |ls| then Start(ls, r.last + 1) else Total(ls), r.last + 1 < |ls|)
  }

  function BlocksOf(ls: seq<Text>, runs: seq<Run>): (r: seq<Block>)
    requires forall k :: 0 <= k < |runs| ==> runs[k].first <= runs[k].last < |ls|
    ensures |r| == |runs| && forall k :: 0 <= k < |r| ==> r[k] == BlockOf(ls, runs[k])
  {
    seq(|runs|, k requires 0 <= k < |runs| => BlockOf(ls, runs[k]))
  }

  /** One step of the loop, on offsets. */
  function ExtendBlocks(blocks: seq<Block>, b: Block): seq<Block> {
    if blocks != [] && b.start <= blocks[|blocks| - 1].end then
      var last := blocks[|blocks| - 1];
      blocks[..|blocks| - 1] + [Block(last.start, if last.end < b.end then b.end else last.end, b.hasBreak)]
    else blocks + [b]
  }

  /** The loop compares offsets where `Extend` compares lines. */
  lemma BlocksExtend(ls: seq<Text>, runs: seq<Run>, l: nat)
    requires ls != [] && Apart(runs, |ls|) && l < |ls| && (runs != [] ==> runs[|runs| - 1].last <= l)
    ensures Apart(Extend(runs, l), |ls|)
    ensures BlocksOf(ls, Extend(runs, l)) == ExtendBlocks(BlocksOf(ls, runs), BlockOf(ls, Run(l, l)))
  {
    ExtendKeeps(runs, l, |ls|);
    if runs == [] {
      assert Extend(runs, l) == [] + [Run(l, l)];
      BlocksAppend(ls, [], Run(l, l));
    } else {
      JoinsByOffset(ls, runs[|runs| - 1], l);
      if l <= runs[|runs| - 1].last + 1 { LastGrows(ls, runs, l); } else { BlocksAppend(ls, runs, Run(l, l)); }
    }
  }

  lemma LastGrows(ls: seq<Text>, runs: seq<Run>, l: nat)
    requires ls != [] && Apart(runs, |ls|) && runs != [] && runs[|runs| - 1].last <= l < |ls| && l <= runs[|runs| - 1].last + 1
    ensures Apart(Extend(runs, l), |ls|)
    ensures
      var blocks, b := BlocksOf(ls, runs), BlockOf(ls, Run(l, l));
      BlocksOf(ls, Extend(runs, l)) == blocks[..|blocks| - 1] + [b.(start := blocks[|blocks| - 1].start)]
  {
    var k := |runs| - 1;
    ExtendKeeps(runs, l, |ls|);
    assert Extend(runs, l) == runs[..k] + [Run(runs[k].first, l)];
    BlocksAppend(ls, runs[..k], Run(runs[k].first, l));
    assert BlocksOf(ls, runs)[..k] == BlocksOf(ls, runs[..k]);
    JoinsByOffset(ls, runs[k], l);
  }

  lemma BlocksAppend(ls: seq<Text>, runs: seq<Run>, r: Run)
    requires forall k :: 0 <= k < |runs| ==> runs[k].first <= runs[k].last < |ls|
    requires r.first <= r.last < |ls|
    ensures BlocksOf(ls, runs + [r]) == BlocksOf(ls, runs) + [BlockOf(ls, r)]
  {
  }

  lemma JoinsByOffset(ls: seq<Text>, r: Run, l: nat)
    requires r.first <= r.last <= l < |ls|
    ensures Start(ls, l) <= BlockOf(ls, r).end <==> l <= r.last + 1
    ensures BlockOf(ls, r).end <= BlockOf(ls, Run(l, l)).end
    ensures BlockOf(ls, Run(r.first, l)) == BlockOf(ls, Run(l, l)).(start := BlockOf(ls, r).start)
  {
    TouchesByOffset(ls, r, l);
    EndsByOffset(ls, r, l);
  }

  lemma TouchesByOffset(ls: seq<Text>, r: Run, l: nat)
    requires r.first <= r.last <= l < |ls|
    ensures Start(ls, l) <= BlockOf(ls, r).end <==> l <= r.last + 1
  {
    if r.last + 1 < l {
      StartMonotone(ls, r.last + 1, l);
    } else if r.last + 1 == l {
    } else {
      EndBound(ls, l);
    }
  }

  lemma EndsByOffset(ls: seq<Text>, r: Run, l: nat)
    requires r.first <= r.last <= l < |ls|
    ensures BlockOf(ls, r).end <= BlockOf(ls, Run(l, l)).end
  {
    if r.last < l {
      if l + 1 < |ls| { StartMonotone(ls, r.last + 1, l + 1); } else { EndBound(ls, r.last + 1); }
    }
  }

  /** The block of one cursor, from what the buffer answers. */
  method BlockAt(t: Text, s: Selection) returns (b: Block)
    requires s.IsEmpty() && s.head <= |t|
    ensures var l := LineAt(LinesOf(t), s.head); b == BlockOf(LinesOf(t), Run(l, l))
  {
    InBounds(t);
    var first, last := LineOf(t, s.Start()), LineOf(t, s.End());
    var start := LineStartOf(t, first);
    if last + 1 < |LinesOf(t)| { return Block(start, LineStartOf(t, last + 1), true); }
    return Block(start, |t|, false);
  }

  /** `line_blocks`. */
  method LineBlocks(t: Text, selections: seq<Selection>) returns (blocks: seq<Block>)
    requires Cursors(t, selections) && Separated(selections)
    ensures Apart(RunsOf(t, selections), |LinesOf(t)|)
    ensures blocks == BlocksOf(LinesOf(t), RunsOf(t, selections))
  {
    var sels := Normalize(selections);
    SeparatedIsNormal(selections);
    ghost var ls, lines := LinesOf(t), Touched(LinesOf(t), selections);
    TouchedRising(t, selections);
    assert lines[..|sels|] == lines;
    blocks := [];
    for i := 0 to |sels|
      invariant Apart(Runs(lines[..i]), |ls|)
      invariant blocks == BlocksOf(ls, Runs(lines[..i]))
    {
      assert sels[i] in selections;
      var b := BlockAt(t, sels[i]);
      RunsStep(lines, i, |ls|);
      BlocksExtend(ls, Runs(lines[..i]), lines[i]);
      blocks := AddBlock(blocks, b);
    }
  }

  /** The last block grows, or a new one starts. */
  method AddBlock(blocks: seq<Block>, b: Block) returns (r: seq<Block>)
    ensures r == ExtendBlocks(blocks, b)
  {
    if blocks != [] && b.start <= blocks[|blocks| - 1].end {
      var last := blocks[|blocks| - 1];
      return blocks[..|blocks| - 1] + [Block(last.start, if last.end < b.end then b.end else last.end, b.hasBreak)];
    }
    return blocks + [b];
  }

  lemma RunsStep(lines: seq<nat>, i: nat, n: nat)
    requires Rising(lines) && i < |lines| && forall k :: 0 <= k < |lines| ==> lines[k] < n
    ensures Runs(lines[..i + 1]) == Extend(Runs(lines[..i]), lines[i])
    ensures Runs(lines[..i]) != [] ==> Runs(lines[..i])[|Runs(lines[..i])| - 1].last <= lines[i]
  {
    assert lines[..i + 1][..i] == lines[..i];
    RunsExact(lines[..i], n);
  }

  /** How far the cursors in a byte range move. */
  datatype Delta = Delta(start: nat, end: nat, distance: int)

  function DeltaOf(ls: seq<Text>, r: Run, d: Direction): Delta
    requires ls != [] && r.first <= r.last < |ls|
  {
    Delta(Start(ls, r.first), Start(ls, r.last + 1), Distance(ls, r, d))
  }

  function OptionalDelta(ls: seq<Text>, r: Run, d: Direction): seq<Delta>
    requires ls != [] && r.first <= r.last < |ls|
  {
    if Move(ls, r, d).Some? then [DeltaOf(ls, r, d)] else []
  }

  function DeltasOf(ls: seq<Text>, runs: seq<Run>, d: Direction): seq<Delta>
    requires ls != [] && forall k :: 0 <= k < |runs| ==> runs[k].first <= runs[k].last < |ls|
  {
    if runs == [] then []
    else OptionalDelta(ls, runs[0], d) + DeltasOf(ls, runs[1..], d)
  }

  function FindDelta(deltas: seq<Delta>, p: nat, contentEnd: nat): int {
    if deltas == [] then 0
    else if deltas[0].start <= p < deltas[0].end || (p == deltas[0].end && deltas[0].end == contentEnd) then deltas[0].distance
    else FindDelta(deltas[1..], p, contentEnd)
  }

  predicate Hit(d: Delta, p: nat, contentEnd: nat) { d.start <= p < d.end || (p == d.end && d.end == contentEnd) }

  lemma FindInTail(ls: seq<Text>, runs: seq<Run>, d: Direction, p: nat, contentEnd: nat)
    requires ls != [] && Apart(runs, |ls|) && runs != []
    ensures
      FindDelta(DeltasOf(ls, runs, d), p, contentEnd) ==
        if Move(ls, runs[0], d).Some? && Hit(DeltaOf(ls, runs[0], d), p, contentEnd) then Distance(ls, runs[0], d)
        else FindDelta(DeltasOf(ls, runs[1..], d), p, contentEnd)
  {
    var rest := DeltasOf(ls, runs[1..], d);
    assert ([DeltaOf(ls, runs[0], d)] + rest)[1..] == rest;
    assert [] + rest == rest;
  }

  ghost predicate AllBehind(ls: seq<Text>, runs: seq<Run>, p: nat) {
    forall k :: 0 <= k < |runs| ==> runs[k].first <= |ls| && p < Start(ls, runs[k].first)
  }

  lemma MissesRun(ls: seq<Text>, r: Run, d: Direction, p: nat, contentEnd: nat)
    requires ls != [] && r.first <= r.last < |ls| && p < Start(ls, r.first)
    ensures !Hit(DeltaOf(ls, r, d), p, contentEnd)
  {
    StartMonotone(ls, r.first, r.last + 1);
  }

  lemma {:induction false} NoDelta(ls: seq<Text>, runs: seq<Run>, d: Direction, p: nat, contentEnd: nat)
    requires ls != [] && Apart(runs, |ls|) && AllBehind(ls, runs, p)
    ensures FindDelta(DeltasOf(ls, runs, d), p, contentEnd) == 0
  {
    if runs != [] {
      ApartTail(runs, |ls|);
      FindInTail(ls, runs, d, p, contentEnd);
      MissesRun(ls, runs[0], d, p, contentEnd);
      NoDelta(ls, runs[1..], d, p, contentEnd);
    }
  }

  lemma RunsAfterFirst(ls: seq<Text>, runs: seq<Run>, p: nat)
    requires ls != [] && Apart(runs, |ls|) && runs != [] && p < Start(ls, runs[0].last + 1)
    ensures AllBehind(ls, runs[1..], p)
  {
    forall k | 0 <= k < |runs[1..]| ensures runs[1..][k].first <= |ls| && p < Start(ls, runs[1..][k].first) {
      LaterRunBehind(ls, runs, k + 1, p);
    }
  }

  lemma LaterRunBehind(ls: seq<Text>, runs: seq<Run>, k: nat, p: nat)
    requires Apart(runs, |ls|) && 0 < k < |runs| && p < Start(ls, runs[0].last + 1)
    ensures runs[k].first <= |ls| && p < Start(ls, runs[k].first)
  {
    StartMonotone(ls, runs[0].last + 1, runs[k].first);
  }

  lemma FirstDelta(ls: seq<Text>, runs: seq<Run>, d: Direction, p: nat)
    requires ls != [] && Apart(runs, |ls|) && runs != []
    requires Start(ls, runs[0].first) <= p < Start(ls, runs[0].last + 1)
    ensures FindDelta(DeltasOf(ls, runs, d), p, Total(ls)) == Distance(ls, runs[0], d)
  {
    FindInTail(ls, runs, d, p, Total(ls));
    if Move(ls, runs[0], d).None? {
      ApartTail(runs, |ls|);
      RunsAfterFirst(ls, runs, p);
      NoDelta(ls, runs[1..], d, p, Total(ls));
    }
  }

  lemma NoHit(ls: seq<Text>, first: Run, r: Run, d: Direction, p: nat)
    requires ls != [] && first.first <= first.last && first.last + 1 < r.first < |ls| && Start(ls, r.first) <= p
    ensures !Hit(DeltaOf(ls, first, d), p, Total(ls))
  {
    StartMonotone(ls, first.last + 1, r.first);
  }

  /** The cursors of a run find their own run's distance. */
  lemma {:induction false} FindIsDistance(ls: seq<Text>, runs: seq<Run>, d: Direction, k: nat, p: nat)
    requires ls != [] && Apart(runs, |ls|) && k < |runs|
    requires Start(ls, runs[k].first) <= p < Start(ls, runs[k].last + 1)
    ensures FindDelta(DeltasOf(ls, runs, d), p, Total(ls)) == Distance(ls, runs[k], d)
  {
    if k == 0 {
      FirstDelta(ls, runs, d, p);
    } else {
      ApartTail(runs, |ls|);
      FindIsDistance(ls, runs[1..], d, k - 1, p);
      FindInTail(ls, runs, d, p, Total(ls));
      NoHit(ls, runs[0], runs[k], d, p);
    }
  }

  function TrimBreaks(s: Text): (r: Text)
    ensures |r| <= |s| && s[..|r|] == r
  {
    if s != [] && (s[|s| - 1] == LF || s[|s| - 1] == CR) then TrimBreaks(s[..|s| - 1]) else s
  }

  lemma TrimLine(l: Text)
    requires LF !in l && CR !in l
    ensures TrimBreaks(l + [LF]) == l
  {
    assert (l + [LF])[..|l|] == l;
    if l != [] { assert l[|l| - 1] in l; }
  }

  lemma PlainLine(t: Text, i: nat)
    requires CR !in t && i < |LinesOf(t)|
    ensures LF !in LinesOf(t)[i] && CR !in LinesOf(t)[i]
  {
    JoinLines(t);
    SliceOfLines(LinesOf(t), i, i + 1);
    assert LinesOf(t)[i..i + 1] == [LinesOf(t)[i]];
    var line := LinesOf(t)[i];
    assert line == t[Start(LinesOf(t), i)..End(LinesOf(t), i)];
    forall c | c in line ensures c in t { }
  }

  /** A line with its break, and the break alone, by offsets. */
  lemma LineSlices(t: Text, i: nat)
    requires i + 1 < |LinesOf(t)|
    ensures
      var ls := LinesOf(t);
      && Start(ls, i) <= End(ls, i) < Start(ls, i + 1) <= |t|
      && t[Start(ls, i)..Start(ls, i + 1)] == ls[i] + [LF] && t[End(ls, i)..Start(ls, i + 1)] == [LF]
  {
    var ls := LinesOf(t);
    JoinLines(t);
    ThreeParts(ls, i, i + 1);
    assert ls[i..i + 1] == [ls[i]];
  }

  lemma LinesSlice(t: Text, x: nat, z: nat)
    requires x < z <= |LinesOf(t)|
    ensures
      var ls := LinesOf(t);
      Start(ls, x) <= End(ls, z - 1) <= |t| && t[Start(ls, x)..End(ls, z - 1)] == Join(ls[x..z])
  {
    JoinLines(t);
    SliceOfLines(LinesOf(t), x, z);
  }

  function OneLess(n: nat): nat { if n == 0 then 0 else n - 1 }

  /** Where a block's last line ends, as the loop computes it. */
  function BlockEnd(t: Text, b: Block): nat { if b.hasBreak then LineEnd(t, OneLess(b.end)) else b.end }

  lemma LineAtStart(t: Text, i: nat)
    requires i < |LinesOf(t)|
    ensures var ls := LinesOf(t); LineOf(t, Start(ls, i)) == i && LineOf(t, End(ls, i)) == i && End(ls, i) <= |t|
    ensures LineStartOf(t, i) == Start(LinesOf(t), i)
  {
    var ls := LinesOf(t);
    InBounds(t);
    EndBound(ls, i);
    LineAtUnique(ls, Start(ls, i), i);
    LineAtUnique(ls, End(ls, i), i);
  }

  lemma BlockEnds(t: Text, r: Run)
    requires r.first <= r.last < |LinesOf(t)|
    ensures
      var ls := LinesOf(t);
      BlockEnd(t, BlockOf(ls, r)) == End(ls, r.last) && (Start(ls, r.first) == 0 <==> r.first == 0)
  {
    LastLineEnds(t, r);
    OnlyFirstAtZero(LinesOf(t), r.first);
  }

  lemma LastLineEnds(t: Text, r: Run)
    requires r.first <= r.last < |LinesOf(t)|
    ensures BlockEnd(t, BlockOf(LinesOf(t), r)) == End(LinesOf(t), r.last)
  {
    LineAtStart(t, r.last);
  }

  lemma OnlyFirstAtZero(ls: seq<Text>, i: nat)
    requires i < |ls|
    ensures Start(ls, i) == 0 <==> i == 0
  {
    if i > 0 { StartMonotone(ls, 0, i); }
  }

  lemma SingleLine(ls: seq<Text>, i: nat)
    requires i < |ls|
    ensures Join(ls[i..i + 1]) == ls[i]
  {
    assert ls[i..i + 1] == [ls[i]];
  }

  lemma UpPieces(t: Text, i: nat)
    requires CR !in t && 0 < i < |LinesOf(t)|
    ensures
      var ls := LinesOf(t);
      var previous := ls[i - 1] + [LF];
      && LineOf(t, Start(ls, i)) == i && LineStartOf(t, i - 1) == Start(ls, i - 1) <= Start(ls, i) <= |t|
      && t[Start(ls, i - 1)..Start(ls, i)] == previous
      && TrimBreaks(previous) == ls[i - 1] && previous[|ls[i - 1]|..] == [LF]
  {
    LineAtStart(t, i);
    LineAtStart(t, i - 1);
    LineSlices(t, i - 1);
    PlainLine(t, i - 1);
    TrimLine(LinesOf(t)[i - 1]);
  }

  lemma UpEdit(ls: seq<Text>, r: Run)
    requires 0 < r.first <= r.last < |ls|
    ensures EditOf(ls, Exchange(r.first - 1, r.first, r.last + 1))
         == Edit(Start(ls, r.first - 1), End(ls, r.last), Join(ls[r.first..r.last + 1]) + [LF] + ls[r.first - 1])
    ensures DeltaOf(ls, r, Up) == Delta(Start(ls, r.first), Start(ls, r.last + 1), -(|ls[r.first - 1]| + 1))
  {
    SingleLine(ls, r.first - 1);
  }

  lemma BlockBounds(t: Text, r: Run)
    requires r.first <= r.last < |LinesOf(t)|
    ensures
      var ls := LinesOf(t);
      var b := BlockOf(ls, r);
      && Start(ls, r.last + 1) == End(ls, r.last) + 1
      && (b.hasBreak ==> b.end == Start(ls, r.last + 1)) && (!b.hasBreak ==> b.end == End(ls, r.last) == |t|)
  {
    InBounds(t);
  }

  /** The part of the loop for `Up`. */
  method PlanUp(t: Text, b: Block, blockEnd: nat, blockText: Text, ghost r: Run) returns (plan: (Edit, Delta))
    requires CR !in t && 0 < r.first <= r.last < |LinesOf(t)| && b == BlockOf(LinesOf(t), r)
    requires blockEnd == End(LinesOf(t), r.last) && blockText == Join(LinesOf(t)[r.first..r.last + 1])
    ensures plan.0 == EditOf(LinesOf(t), Exchange(r.first - 1, r.first, r.last + 1))
    ensures plan.1 == DeltaOf(LinesOf(t), r, Up)
  {
    UpPieces(t, r.first);
    BlockBounds(t, r);
    UpEdit(LinesOf(t), r);
    var previousStart := LineStartOf(t, LineOf(t, b.start) - 1);
    var previous := t[previousStart..b.start];
    var content := TrimBreaks(previous);
    var lineBreak := previous[|content|..];
    var delta := Delta(b.start, if b.end < blockEnd + 1 then blockEnd + 1 else b.end, -|previous|);
    return (Edit(previousStart, blockEnd, blockText + lineBreak + content), delta);
  }

  lemma DownPieces(t: Text, i: nat)
    requires i + 1 < |LinesOf(t)|
    ensures
      var ls := LinesOf(t);
      && End(ls, i) <= Start(ls, i + 1) <= LineEnd(t, Start(ls, i + 1)) == End(ls, i + 1) <= |t|
      && t[End(ls, i)..Start(ls, i + 1)] == [LF] && t[Start(ls, i + 1)..End(ls, i + 1)] == ls[i + 1]
  {
    LineAtStart(t, i + 1);
    LineSlices(t, i);
    LinesSlice(t, i + 1, i + 2);
    SingleLine(LinesOf(t), i + 1);
  }

  lemma DownEdit(ls: seq<Text>, r: Run)
    requires r.first <= r.last && r.last + 1 < |ls| && Move(ls, r, Down).Some?
    ensures EditOf(ls, Exchange(r.first, r.last + 1, r.last + 2))
         == Edit(Start(ls, r.first), End(ls, r.last + 1), ls[r.last + 1] + [LF] + Join(ls[r.first..r.last + 1]))
    ensures DeltaOf(ls, r, Down) == Delta(Start(ls, r.first), Start(ls, r.last + 1), |ls[r.last + 1]| + 1)
  {
    SingleLine(ls, r.last + 1);
  }

  /** The part of the loop for `Down`. */
  method PlanDown(t: Text, b: Block, blockEnd: nat, blockText: Text, ghost r: Run) returns (plan: (Edit, Delta))
    requires r.first <= r.last < |LinesOf(t)| && b == BlockOf(LinesOf(t), r) && Move(LinesOf(t), r, Down).Some?
    requires blockEnd == End(LinesOf(t), r.last) && blockText == Join(LinesOf(t)[r.first..r.last + 1])
    ensures plan.0 == EditOf(LinesOf(t), Exchange(r.first, r.last + 1, r.last + 2))
    ensures plan.1 == DeltaOf(LinesOf(t), r, Down)
  {
    var nextEnd, lineBreak, next := NextLine(t, b, blockEnd, r);
    DownEdit(LinesOf(t), r);
    return (Edit(b.start, nextEnd, next + lineBreak + blockText), Delta(b.start, b.end, |next| + |lineBreak|));
  }

  /** The line below the block, and the break between them. */
  method NextLine(t: Text, b: Block, blockEnd: nat, ghost r: Run) returns (nextEnd: nat, lineBreak: Text, next: Text)
    requires r.first <= r.last < |LinesOf(t)| && b == BlockOf(LinesOf(t), r) && Move(LinesOf(t), r, Down).Some?
    requires blockEnd == End(LinesOf(t), r.last)
    ensures nextEnd == End(LinesOf(t), r.last + 1) && lineBreak == [LF] && next == LinesOf(t)[r.last + 1]
  {
    DownPieces(t, r.last);
    nextEnd := LineEnd(t, b.end);
    lineBreak, next := t[blockEnd..b.end], t[b.end..nextEnd];
  }

  /** A run that moves has its edit and its delta, and one that stays has neither. */
  ghost predicate Planned(ls: seq<Text>, r: Run, d: Direction, plan: Option<(Edit, Delta)>)
    requires r.first <= r.last < |ls|
  {
    match Move(ls, r, d)
    case None => plan.None?
    case Some(e) => e.Within(|ls|) && plan == Some((EditOf(ls, e), DeltaOf(ls, r, d)))
  }

  /** One block of the loop: its edit and its delta, if it has anywhere to go. */
  method PlanBlock(t: Text, b: Block, d: Direction, ghost r: Run) returns (plan: Option<(Edit, Delta)>)
    requires CR !in t && r.first <= r.last < |LinesOf(t)| && b == BlockOf(LinesOf(t), r)
    ensures Planned(LinesOf(t), r, d, plan)
  {
    BlockFacts(t, r);
    var blockEnd := BlockEnd(t, b);
    if d.Up? {
      plan := PlanUpBlock(t, b, blockEnd, t[b.start..blockEnd], r);
    } else {
      plan := PlanDownBlock(t, b, blockEnd, t[b.start..blockEnd], r);
    }
  }

  method PlanUpBlock(t: Text, b: Block, blockEnd: nat, blockText: Text, ghost r: Run) returns (plan: Option<(Edit, Delta)>)
    requires CR !in t && r.first <= r.last < |LinesOf(t)| && b == BlockOf(LinesOf(t), r)
    requires blockEnd == End(LinesOf(t), r.last) && blockText == Join(LinesOf(t)[r.first..r.last + 1])
    requires Move(LinesOf(t), r, Up).Some? <==> b.start != 0
    ensures Planned(LinesOf(t), r, Up, plan)
  {
    if b.start == 0 { return None; }
    var up := PlanUp(t, b, blockEnd, blockText, r);
    return Some(up);
  }

  method PlanDownBlock(t: Text, b: Block, blockEnd: nat, blockText: Text, ghost r: Run) returns (plan: Option<(Edit, Delta)>)
    requires r.first <= r.last < |LinesOf(t)| && b == BlockOf(LinesOf(t), r)
    requires blockEnd == End(LinesOf(t), r.last) && blockText == Join(LinesOf(t)[r.first..r.last + 1])
    requires Move(LinesOf(t), r, Down).Some? <==> b.hasBreak && b.end < |t|
    ensures Planned(LinesOf(t), r, Down, plan)
  {
    if !b.hasBreak || b.end >= |t| { return None; }
    var down := PlanDown(t, b, blockEnd, blockText, r);
    return Some(down);
  }

  lemma BlockFacts(t: Text, r: Run)
    requires r.first <= r.last < |LinesOf(t)|
    ensures
      var ls := LinesOf(t);
      var b := BlockOf(ls, r);
      && b.start <= BlockEnd(t, b) == End(ls, r.last) <= |t| && t[b.start..BlockEnd(t, b)] == Join(ls[r.first..r.last + 1])
      && (Move(ls, r, Up).Some? <==> b.start != 0)
      && (Move(ls, r, Down).Some? <==> b.hasBreak && b.end < |t|)
  {
    BlockEnds(t, r);
    LinesSlice(t, r.first, r.last + 1);
    DownGuard(t, r);
  }

  lemma DownGuard(t: Text, r: Run)
    requires r.first <= r.last < |LinesOf(t)|
    ensures
      var b := BlockOf(LinesOf(t), r);
      Move(LinesOf(t), r, Down).Some? <==> b.hasBreak && b.end < |t|
  {
    InBounds(t);
  }

  function OptionalMove(ls: seq<Text>, r: Run, d: Direction): seq<Exchange>
    requires ls != []
  {
    match Move(ls, r, d) case Some(e) => [e] case None => []
  }

  lemma {:induction false} MovesAppend(ls: seq<Text>, runs: seq<Run>, r: Run, d: Direction)
    requires ls != []
    ensures Moves(ls, runs + [r], d) == Moves(ls, runs, d) + OptionalMove(ls, r, d)
  {
    var all := runs + [r];
    if runs == [] {
      assert all == [r] && all[1..] == [];
      assert Moves(ls, all[1..], d) == [];
    } else {
      assert all[0] == runs[0] && all[1..] == runs[1..] + [r];
      MovesAppend(ls, runs[1..], r, d);
      GlueMoves(OptionalMove(ls, runs[0], d), Moves(ls, runs[1..], d), OptionalMove(ls, r, d));
    }
  }

  lemma GlueMoves(a: seq<Exchange>, b: seq<Exchange>, c: seq<Exchange>)
    ensures a + (b + c) == (a + b) + c
  {
  }

  lemma {:induction false} DeltasAppend(ls: seq<Text>, runs: seq<Run>, r: Run, d: Direction)
    requires ls != [] && r.first <= r.last < |ls|
    requires forall k :: 0 <= k < |runs| ==> runs[k].first <= runs[k].last < |ls|
    ensures DeltasOf(ls, runs + [r], d) == DeltasOf(ls, runs, d) + OptionalDelta(ls, r, d)
  {
    var all := runs + [r];
    if runs == [] {
      assert all == [r] && all[1..] == [];
    } else {
      assert all[1..] == runs[1..] + [r];
      DeltasAppend(ls, runs[1..], r, d);
    }
  }

  lemma ApartPrefix(runs: seq<Run>, n: nat, k: nat)
    requires Apart(runs, n) && k < |runs|
    ensures Apart(runs[..k], n) && Apart(runs[..k + 1], n) && runs[..k + 1] == runs[..k] + [runs[k]]
  {
  }

  lemma EditsAppend(ls: seq<Text>, es: seq<Exchange>, e: Exchange)
    requires AllWithin(es, |ls|) && e.Within(|ls|)
    ensures AllWithin(es + [e], |ls|) && EditsOf(ls, es + [e]) == EditsOf(ls, es) + [EditOf(ls, e)]
  {
    var a, b := EditsOf(ls, es + [e]), EditsOf(ls, es) + [EditOf(ls, e)];
    forall i | 0 <= i < |a| ensures a[i] == b[i] {}
  }

  /** One more run adds its edit and its delta, if it moves. */
  lemma PlanGrows(ls: seq<Text>, runs: seq<Run>, k: nat, d: Direction, plan: Option<(Edit, Delta)>)
    requires ls != [] && Apart(runs, |ls|) && k < |runs| && AllWithin(Moves(ls, runs[..k], d), |ls|)
    requires Planned(ls, runs[k], d, plan)
    ensures AllWithin(Moves(ls, runs[..k + 1], d), |ls|) && Apart(runs[..k], |ls|) && Apart(runs[..k + 1], |ls|)
    ensures EditsOf(ls, Moves(ls, runs[..k + 1], d))
         == EditsOf(ls, Moves(ls, runs[..k], d)) + if plan.Some? then [plan.value.0] else []
    ensures DeltasOf(ls, runs[..k + 1], d) == DeltasOf(ls, runs[..k], d) + if plan.Some? then [plan.value.1] else []
  {
    ApartPrefix(runs, |ls|, k);
    assert runs[..k + 1] == runs[..k] + [runs[k]];
    MovesAppend(ls, runs[..k], runs[k], d);
    DeltasAppend(ls, runs[..k], runs[k], d);
    if plan.Some? { EditsAppend(ls, Moves(ls, runs[..k], d), Move(ls, runs[k], d).value); }
  }

  /** The loop over the blocks: one edit and one delta for each that moves. */
  method Plan(t: Text, blocks: seq<Block>, d: Direction, ghost runs: seq<Run>) returns (edits: seq<Edit>, deltas: seq<Delta>)
    requires CR !in t && Apart(runs, |LinesOf(t)|) && blocks == BlocksOf(LinesOf(t), runs)
    ensures Ascending(Moves(LinesOf(t), runs, d), |LinesOf(t)|)
    ensures edits == EditsOf(LinesOf(t), Moves(LinesOf(t), runs, d))
    ensures deltas == DeltasOf(LinesOf(t), runs, d)
  {
    edits, deltas := [], [];
    ghost var ls := LinesOf(t);
    assert runs[..|blocks|] == runs;
    for k := 0 to |blocks|
      invariant AllWithin(Moves(ls, runs[..k], d), |ls|)
      invariant edits == EditsOf(ls, Moves(ls, runs[..k], d))
      invariant deltas == DeltasOf(ls, runs[..k], d)
    {
      var plan := PlanBlock(t, blocks[k], d, runs[k]);
      PlanGrows(ls, runs, k, d, plan);
      if plan.Some? {
        edits := edits + [plan.value.0];
        deltas := deltas + [plan.value.1];
      }
    }
    MovesAscend(ls, runs, d);
  }

  /** The run that touches a cursor's line. */
  lemma RunOfCursor(t: Text, cs: seq<Selection>, i: nat) returns (k: nat)
    requires Cursors(t, cs) && Separated(cs) && i < |cs|
    ensures Apart(RunsOf(t, cs), |LinesOf(t)|) && k < |RunsOf(t, cs)|
    ensures RunsOf(t, cs)[k].Has(LineAt(LinesOf(t), cs[i].head))
  {
    TouchedRising(t, cs);
    assert Touched(LinesOf(t), cs)[i] in Touched(LinesOf(t), cs);
    assert InRuns(RunsOf(t, cs), Touched(LinesOf(t), cs)[i]);
    k :| 0 <= k < |RunsOf(t, cs)| && RunsOf(t, cs)[k].Has(LineAt(LinesOf(t), cs[i].head));
  }

  /** The distance found by offset is how far the line at that offset moves. */
  lemma FoundIsShift(ls: seq<Text>, runs: seq<Run>, d: Direction, k: nat, p: nat)
    requires ls != [] && Apart(runs, |ls|) && k < |runs| && p <= Total(ls) && runs[k].Has(LineAt(ls, p))
    ensures AllWithin(Moves(ls, runs, d), |ls|)
    ensures FindDelta(DeltasOf(ls, runs, d), p, Total(ls)) == ShiftOf(ls, Moves(ls, runs, d), LineAt(ls, p))
  {
    var l := LineAt(ls, p);
    LineAtHolds(ls, p);
    if runs[k].first < l { StartMonotone(ls, runs[k].first, l); }
    StartMonotone(ls, l, runs[k].last + 1);
    FindIsDistance(ls, runs, d, k, p);
    ShiftOfRun(ls, runs, d, k, l);
  }

  /** Adding the distance found by offset lands the cursor where its line goes. */
  lemma FoundIsLanding(t: Text, cs: seq<Selection>, d: Direction, i: nat)
    requires Cursors(t, cs) && Separated(cs) && i < |cs|
    ensures Apart(RunsOf(t, cs), |LinesOf(t)|)
    ensures
      var p := cs[i].head + FindDelta(DeltasOf(LinesOf(t), RunsOf(t, cs), d), cs[i].head, |t|);
      p >= 0 && MovedCursors(t, cs, d)[i] == Selection(p, p)
  {
    FoundForCursor(t, cs, d, i);
    LandingOf(t, cs, d, i);
  }

  lemma FoundForCursor(t: Text, cs: seq<Selection>, d: Direction, i: nat)
    requires Cursors(t, cs) && Separated(cs) && i < |cs|
    ensures Apart(RunsOf(t, cs), |LinesOf(t)|) && AllWithin(MovesOf(t, cs, d), |LinesOf(t)|)
    ensures FindDelta(DeltasOf(LinesOf(t), RunsOf(t, cs), d), cs[i].head, |t|)
         == ShiftOf(LinesOf(t), MovesOf(t, cs, d), LineAt(LinesOf(t), cs[i].head))
  {
    var k := RunOfCursor(t, cs, i);
    InBounds(t);
    assert cs[i] in cs;
    FoundIsShift(LinesOf(t), RunsOf(t, cs), d, k, cs[i].head);
  }

  lemma LandingOf(t: Text, cs: seq<Selection>, d: Direction, i: nat)
    requires Cursors(t, cs) && Separated(cs) && i < |cs|
    ensures AllWithin(MovesOf(t, cs, d), |LinesOf(t)|)
    ensures
      var p := cs[i].head + ShiftOf(LinesOf(t), MovesOf(t, cs, d), LineAt(LinesOf(t), cs[i].head));
      p >= 0 && MovedCursors(t, cs, d)[i] == Selection(p, p)
  {
    MovesOfAscend(t, cs, d);
    InBounds(t);
    assert cs[i] in cs;
    var p := Land(LinesOf(t), MovesOf(t, cs, d), cs[i].head);
    assert MovedCursors(t, cs, d)[i] == Cursor(p);
  }

  /** The cursors after the move. */
  method Travel(t: Text, cs: seq<Selection>, d: Direction, deltas: seq<Delta>) returns (after: seq<Selection>)
    requires Cursors(t, cs) && Separated(cs) && Apart(RunsOf(t, cs), |LinesOf(t)|)
    requires deltas == DeltasOf(LinesOf(t), RunsOf(t, cs), d)
    ensures after == MovedCursors(t, cs, d)
  {
    after := [];
    ghost var moved := MovedCursors(t, cs, d);
    for i := 0 to |cs|
      invariant after == moved[..i]
    {
      var s := TravelOne(t, cs, d, deltas, i);
      after := after + [s];
    }
  }

  /** One cursor of the loop. */
  method TravelOne(t: Text, cs: seq<Selection>, d: Direction, deltas: seq<Delta>, i: nat) returns (s: Selection)
    requires Cursors(t, cs) && Separated(cs) && Apart(RunsOf(t, cs), |LinesOf(t)|) && i < |cs|
    requires deltas == DeltasOf(LinesOf(t), RunsOf(t, cs), d)
    ensures s == MovedCursors(t, cs, d)[i]
  {
    assert cs[i] in cs;
    FoundIsLanding(t, cs, d, i);
    var delta := FindDelta(deltas, cs[i].Start(), |t|);
    return Selection(cs[i].anchor + delta, cs[i].head + delta);
  }

  lemma NothingMoves(t: Text, cs: seq<Selection>, d: Direction)
    requires Cursors(t, cs) && Separated(cs) && MovesOf(t, cs, d) == []
    ensures MovedText(t, cs, d) == t && MovedCursors(t, cs, d) == cs
  {
    MovesOfAscend(t, cs, d);
    JoinLines(t);
    InBounds(t);
    forall i | 0 <= i < |cs| ensures MovedCursors(t, cs, d)[i] == cs[i] { assert cs[i] in cs; }
  }

  lemma EditsAccepted(t: Text, es: seq<Exchange>)
    requires ValidUtf8(t) && Ascending(es, |LinesOf(t)|)
    ensures ValidRanges(t, EditsOf(LinesOf(t), es)) && Compatible(EditsOf(LinesOf(t), es))
    ensures forall e :: e in EditsOf(LinesOf(t), es) ==> ValidUtf8(e.text)
    ensures Simultaneous(t, EditsOf(LinesOf(t), es), 0) == Join(SwapAll(LinesOf(t), es))
  {
    JoinLines(t);
    EditsAreSwaps(LinesOf(t), es);
    forall i | 0 <= i < |es|
      ensures var d := EditOf(LinesOf(t), es[i]); ValidRange(t, d.start, d.end) && ValidUtf8(d.text)
    {
      EditRangeValid(LinesOf(t), es[i], t, EditOf(LinesOf(t), es[i]));
      EditTextValid(LinesOf(t), es[i]);
    }
  }

  lemma NormalizedAreCursors(t: Text, selections: seq<Selection>)
    requires Cursors(t, selections)
    ensures Cursors(t, Normalized(selections)) && Separated(Normalized(selections))
  {
    EditOps.NormalizedCursors(selections);
    NormalizedMeaning(selections);
  }

  /** `move_lines`: never refused, and one transaction when any block moves. */
  method MoveTouched(b: Buffer, selections: seq<Selection>, d: Direction) returns (r: Result<EditOps.EditOutcome, EditError>)
    requires b.Valid() && CR !in b.text && Cursors(b.text, selections)
    modifies b, b.source
    ensures b.Valid() && Cursors(old(b.text), Normalized(selections)) && Separated(Normalized(selections)) && r.Ok?
    ensures b.text == MovedText(old(b.text), Normalized(selections), d)
    ensures r.value.selections == MovedCursors(old(b.text), Normalized(selections), d)
    ensures MovesOf(old(b.text), Normalized(selections), d) == [] ==> b.Same() && r.value.edit == None
    ensures Ascending(MovesOf(old(b.text), Normalized(selections), d), |LinesOf(old(b.text))|)
    ensures MovesOf(old(b.text), Normalized(selections), d) != [] ==>
      b.Edited(EditsOf(LinesOf(old(b.text)), MovesOf(old(b.text), Normalized(selections), d)),
               Some(SelectionSnapshot(Normalized(selections), r.value.selections)), Ok(r.value.edit))
  {
    var before := Normalize(selections);
    NormalizedAreCursors(b.text, selections);
    var blocks := LineBlocks(b.text, before);
    MovesOfAscend(b.text, before, d);
    var edits, deltas := Plan(b.text, blocks, d, RunsOf(b.text, before));
    if edits == [] {
      NothingMoves(b.text, before, d);
      return Ok(EditOps.EditOutcome(None, before));
    }
    var after := Travel(b.text, before, d, deltas);
    EditsAccepted(b.text, MovesOf(b.text, before, d));
    var edit := b.EditWithSelections(edits, before, after);
    return Ok(EditOps.EditOutcome(edit.value, after));
  }
}
