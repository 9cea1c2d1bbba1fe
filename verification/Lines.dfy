/**
 Lines of a text without carriage returns, as the rope counts them: a line feed ends a line, and what follows the
 last line feed, possibly nothing, is the last line.
 */
module Lines {
  import opened Utf8

  const LF: byte := 0x0A
  const CR: byte := 0x0D

  function LinesOf(t: Text): (ls: seq<Text>)
    ensures ls != []
  {
    if t == [] then [[]]
    else
      var rest := LinesOf(t[1..]);
      if t[0] == LF then [[]] + rest else [[t[0]] + rest[0]] + rest[1..]
  }

  ghost predicate Plain(ls: seq<Text>) {
    ls != [] && forall i :: 0 <= i < |ls| ==> LF !in ls[i]
  }

  function Join(ls: seq<Text>): Text
    requires ls != []
  {
    if |ls| == 1 then ls[0] else ls[0] + [LF] + Join(ls[1..])
  }

  /** Every line with its break. */
  function Terminated(ls: seq<Text>): Text {
    if ls == [] then [] else ls[0] + [LF] + Terminated(ls[1..])
  }

  lemma {:induction false} JoinLines(t: Text)
    ensures Join(LinesOf(t)) == t && Plain(LinesOf(t))
  {
    if t != [] {
      JoinLines(t[1..]);
      var rest := LinesOf(t[1..]);
      assert t == [t[0]] + t[1..];
      if t[0] == LF {
        assert ([[]] + rest)[1..] == rest;
      } else {
        var ls := [[t[0]] + rest[0]] + rest[1..];
        assert ls[1..] == rest[1..];
        if |rest| > 1 { Associates([t[0]], rest[0], [LF], Join(rest[1..])); }
      }
    }
  }

  lemma Associates(a: Text, b: Text, c: Text, d: Text)
    ensures (a + b) + c + d == a + (b + c + d)
  {
  }

  /** A text has only one reading as lines. */
  lemma {:induction false} LinesJoin(ls: seq<Text>)
    requires Plain(ls)
    ensures LinesOf(Join(ls)) == ls
    decreases |ls|, |ls[0]|
  {
    if ls[0] != [] {
      var c, short := ls[0][0], [ls[0][1..]] + ls[1..];
      assert c in ls[0];
      LinesJoin(short);
      assert ls[0] == [c] + ls[0][1..];
      assert short[1..] == ls[1..];
      if |ls| > 1 { Associates([c], ls[0][1..], [LF], Join(ls[1..])); }
      assert Join(ls) == [c] + Join(short);
      assert Join(ls)[1..] == Join(short);
    } else if |ls| > 1 {
      LinesJoin(ls[1..]);
      assert Join(ls) == [LF] + Join(ls[1..]);
      assert Join(ls)[1..] == Join(ls[1..]);
    }
  }

  // --- offsets ---

  /** Where line `i` starts; one past the text's end for `i == |ls|`. */
  function Start(ls: seq<Text>, i: nat): nat
    requires i <= |ls|
  {
    if i == 0 then 0 else Start(ls, i - 1) + |ls[i - 1]| + 1
  }

  function End(ls: seq<Text>, i: nat): nat
    requires i < |ls|
  {
    Start(ls, i) + |ls[i]|
  }

  function Total(ls: seq<Text>): nat
    requires ls != []
  {
    End(ls, |ls| - 1)
  }

  lemma {:induction false} StartMonotone(ls: seq<Text>, i: nat, j: nat)
    requires i < j <= |ls|
    ensures End(ls, i) < Start(ls, j)
    ensures j < |ls| ==> End(ls, i) < End(ls, j) <= Total(ls)
  {
    if i < j - 1 { StartMonotone(ls, i, j - 1); }
    if j < |ls| - 1 { EndBound(ls, j); }
  }

  lemma {:induction false} EndBound(ls: seq<Text>, i: nat)
    requires i < |ls|
    ensures End(ls, i) <= Total(ls)
    decreases |ls| - i
  {
    if i < |ls| - 1 { EndBound(ls, i + 1); }
  }

  lemma {:induction false} StartTail(ls: seq<Text>, i: nat)
    requires 0 < i <= |ls|
    ensures Start(ls, i) == |ls[0]| + 1 + Start(ls[1..], i - 1)
  {
    if i > 1 { StartTail(ls, i - 1); }
  }

  lemma {:induction false} JoinLength(ls: seq<Text>)
    requires ls != []
    ensures |Join(ls)| == Total(ls)
  {
    if |ls| > 1 {
      JoinLength(ls[1..]);
      StartTail(ls, |ls| - 1);
    }
  }

  /** `byte_to_line`: the line that holds the offset. */
  function LineAt(ls: seq<Text>, offset: nat): (i: nat)
    requires ls != []
    ensures i < |ls|
  {
    if |ls| == 1 || offset <= |ls[0]| then 0 else 1 + LineAt(ls[1..], offset - |ls[0]| - 1)
  }

  lemma {:induction false} LineAtHolds(ls: seq<Text>, offset: nat)
    requires ls != [] && offset <= Total(ls)
    ensures Start(ls, LineAt(ls, offset)) <= offset <= End(ls, LineAt(ls, offset))
  {
    if |ls| > 1 && offset > |ls[0]| {
      StartTail(ls, |ls| - 1);
      LineAtHolds(ls[1..], offset - |ls[0]| - 1);
      StartTail(ls, LineAt(ls, offset));
    }
  }

  lemma LineAtUnique(ls: seq<Text>, offset: nat, i: nat)
    requires i < |ls| && Start(ls, i) <= offset <= End(ls, i)
    ensures LineAt(ls, offset) == i
  {
    EndBound(ls, i);
    LineAtHolds(ls, offset);
    var j := LineAt(ls, offset);
    if i < j { StartMonotone(ls, i, j); } else if j < i { StartMonotone(ls, j, i); }
  }

  lemma LineAtMonotone(ls: seq<Text>, p: nat, q: nat)
    requires ls != [] && p <= q <= Total(ls)
    ensures LineAt(ls, p) <= LineAt(ls, q)
  {
    LineAtHolds(ls, p);
    LineAtHolds(ls, q);
    if LineAt(ls, q) < LineAt(ls, p) { StartMonotone(ls, LineAt(ls, q), LineAt(ls, p)); }
  }

  // --- slices ---

  lemma {:induction false} JoinConcat(xs: seq<Text>, ys: seq<Text>)
    requires ys != []
    ensures Join(xs + ys) == Terminated(xs) + Join(ys)
  {
    if xs == [] {
      assert xs + ys == ys;
    } else {
      assert (xs + ys)[1..] == xs[1..] + ys;
      JoinConcat(xs[1..], ys);
      Associates([], xs[0] + [LF], Terminated(xs[1..]), Join(ys));
    }
  }

  lemma {:induction false} TerminatedJoin(xs: seq<Text>)
    requires xs != []
    ensures Terminated(xs) == Join(xs) + [LF]
  {
    if |xs| == 1 {
      assert xs[1..] == [];
    } else {
      TerminatedJoin(xs[1..]);
    }
  }

  lemma {:induction false} TerminatedLength(ls: seq<Text>, i: nat)
    requires i <= |ls|
    ensures |Terminated(ls[..i])| == Start(ls, i)
    decreases |ls|
  {
    if i > 0 {
      TerminatedLength(ls[1..], i - 1);
      assert ls[..i][1..] == ls[1..][..i - 1];
      StartTail(ls, i);
    }
  }

  lemma FromLine(ls: seq<Text>, x: nat, z: nat)
    requires x < z <= |ls|
    ensures Join(ls[x..]) == Join(ls[x..z]) + After(ls, z)
  {
    if z < |ls| {
      assert ls[x..] == ls[x..z] + ls[z..];
      JoinConcat(ls[x..z], ls[z..]);
      TerminatedJoin(ls[x..z]);
    } else {
      assert ls[x..] == ls[x..z];
    }
  }

  /** The text as the lines before `x`, lines `x` to `z`, and the rest with the break before it. */
  lemma ThreeParts(ls: seq<Text>, x: nat, z: nat)
    requires x < z <= |ls|
    ensures Join(ls) == Terminated(ls[..x]) + Join(ls[x..z]) + After(ls, z)
    ensures |Terminated(ls[..x])| == Start(ls, x) && |Join(ls[x..z])| == End(ls, z - 1) - Start(ls, x)
  {
    TerminatedLength(ls, x);
    FromStart(ls, x);
    FromLine(ls, x, z);
    JoinSliceLength(ls, x, z);
    GlueThree(Terminated(ls[..x]), Join(ls[x..z]), After(ls, z), Join(ls[x..]));
  }

  lemma FromStart(ls: seq<Text>, x: nat)
    requires x < |ls|
    ensures Join(ls) == Terminated(ls[..x]) + Join(ls[x..])
  {
    assert ls == ls[..x] + ls[x..];
    JoinConcat(ls[..x], ls[x..]);
  }

  lemma GlueThree(a: Text, b: Text, c: Text, bc: Text)
    requires bc == b + c
    ensures a + bc == a + b + c
  {
  }

  function After(ls: seq<Text>, z: nat): Text
    requires z <= |ls|
  {
    if z == |ls| then [] else [LF] + Join(ls[z..])
  }

  lemma JoinSliceLength(ls: seq<Text>, x: nat, z: nat)
    requires x < z <= |ls|
    ensures |Join(ls[x..z])| == End(ls, z - 1) - Start(ls, x)
  {
    TerminatedLength(ls, x);
    TerminatedLength(ls, z);
    assert ls[..z] == ls[..x] + ls[x..z];
    JoinConcat(ls[..x], ls[x..z]);
    TerminatedJoin(ls[..z]);
  }

  lemma SliceOfLines(ls: seq<Text>, x: nat, z: nat)
    requires x < z <= |ls|
    ensures Start(ls, x) <= End(ls, z - 1) <= |Join(ls)|
    ensures Join(ls)[Start(ls, x)..End(ls, z - 1)] == Join(ls[x..z])
  {
    ThreeParts(ls, x, z);
  }
}
