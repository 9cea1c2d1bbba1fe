/** Multi-cursor typing and deleting (`tempr_editor/src/edit_ops.rs`). */
module EditOps {
  import opened Buffers
  import opened EditBatch
  import opened Selections
  import opened Utf8
  import opened Wrappers

  datatype EditOutcome = EditOutcome(edit: Option<nat>, selections: seq<Selection>)

  /** One replacement by `ins` per selection. */
  function Replacements(sels: seq<Selection>, ins: Text): (es: seq<Edit>)
    ensures |es| == |sels|
    ensures forall i :: 0 <= i < |sels| ==> es[i] == Edit(sels[i].Start(), sels[i].End(), ins)
  {
    seq(|sels|, i requires 0 <= i < |sels| => Edit(sels[i].Start(), sels[i].End(), ins))
  }

  /** How far replacing `sels` by `len` bytes each moves what follows them. */
  function Shift(sels: seq<Selection>, len: nat): int {
    if sels == [] then 0
    else Shift(sels[..|sels| - 1], len) + len - (sels[|sels| - 1].End() - sels[|sels| - 1].Start())
  }

  function EndOf(sels: seq<Selection>): nat {
    if sels == [] then 0 else sels[|sels| - 1].End()
  }

  /** All but the last of separated selections, and where they end. */
  lemma Front(sels: seq<Selection>, k: nat)
    requires Separated(sels) && k < |sels|
    ensures Separated(sels[..k]) && EndOf(sels[..k]) <= sels[k].Start() <= sels[k].End()
    ensures forall s :: s in sels[..k] ==> s in sels
    ensures sels[..k + 1][..k] == sels[..k]
  {
    if k > 0 { assert sels[k - 1].End() <= sels[k].Start(); }
  }

  lemma {:induction false} ShiftBound(sels: seq<Selection>, len: nat)
    requires Separated(sels)
    ensures EndOf(sels) + Shift(sels, len) >= 0
    decreases |sels|
  {
    if sels != [] {
      Front(sels, |sels| - 1);
      ShiftBound(sels[..|sels| - 1], len);
    }
  }

  /** The cursor after replacement `k`. */
  function CursorAfter(sels: seq<Selection>, len: nat, k: nat): Selection
    requires Separated(sels) && k < |sels|
  {
    Front(sels, k);
    ShiftBound(sels[..k], len);
    Cursor(sels[k].Start() + Shift(sels[..k], len) + len)
  }

  function CursorsAfter(sels: seq<Selection>, len: nat): (out: seq<Selection>)
    requires Separated(sels)
    ensures |out| == |sels| && forall k :: 0 <= k < |sels| ==> out[k] == CursorAfter(sels, len, k)
  {
    seq(|sels|, k requires 0 <= k < |sels| => CursorAfter(sels, len, k))
  }

  /** `cursors_after_replacements`, with its running shift. */
  method CursorsAfterReplacements(sels: seq<Selection>, len: nat) returns (out: seq<Selection>)
    requires Separated(sels)
    ensures out == CursorsAfter(sels, len)
  {
    out := [];
    var shift: int := 0;
    ghost var all := CursorsAfter(sels, len);
    for i := 0 to |sels|
      invariant shift == Shift(sels[..i], len)
      invariant out == all[..i]
    {
      var s := sels[i];
      Front(sels, i);
      ShiftBound(sels[..i], len);
      assert all[i] == CursorAfter(sels, len, i);
      var start: nat := s.Start() + shift;
      out := out + [Cursor(start + len)];
      shift := shift + len - (s.End() - s.Start());
    }
  }

  // --- the replacements never overlap, and each cursor follows its own copy ---

  lemma SelectionsCompatible(sels: seq<Selection>, ins: Text)
    requires Separated(sels)
    ensures Compatible(Replacements(sels, ins))
  {
  }

  ghost predicate InBounds(t: Text, sels: seq<Selection>) {
    Separated(sels) && EndOf(sels) <= |t|
  }

  lemma FrontInBounds(t: Text, sels: seq<Selection>, k: nat)
    requires InBounds(t, sels) && k < |sels|
    ensures InBounds(t, sels[..k + 1]) && InBounds(t, sels[..k]) && sels[k].End() <= |t|
    ensures EndOf(sels[..k]) <= sels[k].Start() && sels[..k + 1][..k] == sels[..k]
  {
    Front(sels, k);
    if k < |sels| - 1 {
      Front(sels, k + 1);
      assert sels[k].End() <= sels[|sels| - 1].Start();
    }
  }

  /** What ascending, separated replacements make of the text up to the end of the last one. */
  function Prefix(t: Text, sels: seq<Selection>, ins: Text): Text
    requires InBounds(t, sels)
    decreases |sels|
  {
    if sels == [] then []
    else
      var k := |sels| - 1;
      FrontInBounds(t, sels, k);
      Prefix(t, sels[..k], ins) + t[EndOf(sels[..k])..sels[k].Start()] + ins
  }

  lemma {:induction false} PrefixLength(t: Text, sels: seq<Selection>, ins: Text)
    requires InBounds(t, sels)
    ensures |Prefix(t, sels, ins)| == EndOf(sels) + Shift(sels, |ins|)
    decreases |sels|
  {
    if sels != [] {
      FrontInBounds(t, sels, |sels| - 1);
      PrefixLength(t, sels[..|sels| - 1], ins);
    }
  }

  lemma SplitFirst(sels: seq<Selection>, ins: Text, k: nat)
    requires Separated(sels) && k < |sels|
    ensures Replacements(sels[k..], ins) == [Edit(sels[k].Start(), sels[k].End(), ins)] + Replacements(sels[k + 1..], ins)
    ensures forall e :: e in Replacements(sels[k + 1..], ins) ==> sels[k].End() <= e.start
  {
    var rest := Replacements(sels[k + 1..], ins);
    forall e | e in rest ensures sels[k].End() <= e.start {
      var i :| 0 <= i < |rest| && rest[i] == e;
      assert sels[k + 1..][i] == sels[k + 1 + i];
    }
  }

  /** The result is the prefix made by the first `k` replacements followed by what the others make of the
      text after the `k`th. */
  lemma SplitStep(t: Text, sels: seq<Selection>, ins: Text, j: nat, r: Text)
    requires InBounds(t, sels) && j < |sels| && InBounds(t, sels[..j])
    requires r == Prefix(t, sels[..j], ins) + Simultaneous(t, Replacements(sels[j..], ins), EndOf(sels[..j]))
    ensures InBounds(t, sels[..j + 1])
    ensures r == Prefix(t, sels[..j + 1], ins) + Simultaneous(t, Replacements(sels[j + 1..], ins), EndOf(sels[..j + 1]))
  {
    FrontInBounds(t, sels, j);
    SplitFirst(sels, ins, j);
    var lo, from := Edit(sels[j].Start(), sels[j].End(), ins), EndOf(sels[..j]);
    var rest := Replacements(sels[j + 1..], ins);
    LowestEdit(t, lo, rest, from);
    Fourfold(r, Prefix(t, sels[..j], ins), Simultaneous(t, [lo] + rest, from),
             t[from..lo.start], ins, Simultaneous(t, rest, lo.end));
    PrefixStep(t, sels, ins, j);
  }

  lemma PrefixStep(t: Text, sels: seq<Selection>, ins: Text, j: nat)
    requires InBounds(t, sels) && j < |sels|
    ensures InBounds(t, sels[..j + 1]) && InBounds(t, sels[..j]) && EndOf(sels[..j]) <= sels[j].Start() <= |t|
    ensures Prefix(t, sels[..j + 1], ins) == Prefix(t, sels[..j], ins) + t[EndOf(sels[..j])..sels[j].Start()] + ins
  {
    FrontInBounds(t, sels, j);
  }

  /** The result is the prefix made by the first `k` replacements followed by what the others make of the
      text after the `k`th. */
  lemma {:induction false} SplitResult(t: Text, sels: seq<Selection>, ins: Text, k: nat)
    requires InBounds(t, sels) && k <= |sels|
    ensures InBounds(t, sels[..k])
    ensures Simultaneous(t, Replacements(sels, ins), 0)
            == Prefix(t, sels[..k], ins) + Simultaneous(t, Replacements(sels[k..], ins), EndOf(sels[..k]))
    decreases k
  {
    if k == 0 {
      assert sels[0..] == sels && sels[..0] == [];
    } else {
      SplitResult(t, sels, ins, k - 1);
      SplitStep(t, sels, ins, k - 1, Simultaneous(t, Replacements(sels, ins), 0));
    }
  }

  lemma Fourfold(x: Text, a: Text, y: Text, b: Text, c: Text, d: Text)
    requires x == a + y && y == b + (c + d)
    ensures x == (a + b + c) + d
  {
  }

  /** Cursor `k` sits right after copy `k`: the inserted text ends there, and what follows is what the
      remaining replacements make of the text after selection `k`. */
  lemma CursorFollowsCopy(t: Text, sels: seq<Selection>, ins: Text, k: nat)
    requires InBounds(t, sels) && k < |sels|
    ensures sels[k].End() <= |t|
    ensures var r, c := Simultaneous(t, Replacements(sels, ins), 0), CursorAfter(sels, |ins|, k).head;
            && |ins| <= c <= |r| && r[c - |ins|..c] == ins
            && r[c..] == Simultaneous(t, Replacements(sels[k + 1..], ins), sels[k].End())
  {
    FrontInBounds(t, sels, k);
    SplitResult(t, sels, ins, k + 1);
    PrefixLength(t, sels[..k + 1], ins);
    EndsWith(Prefix(t, sels[..k], ins) + t[EndOf(sels[..k])..sels[k].Start()], ins,
             Simultaneous(t, Replacements(sels[k + 1..], ins), sels[k].End()));
  }

  lemma EndsWith(a: Text, b: Text, c: Text)
    ensures ((a + b) + c)[|a|..|a| + |b|] == b && ((a + b) + c)[|a| + |b|..] == c
  {
  }

  /** The same for the list the operations return: normalizing the cursors only drops repetitions. */
  lemma NormalizedCursors(cursors: seq<Selection>)
    requires forall c :: c in cursors ==> c.IsEmpty()
    ensures forall c :: c in Normalized(cursors) <==> c in cursors
  {
    NormalizedMeaning(cursors);
    var out := Normalized(cursors);
    forall c ensures c in out <==> c in cursors {
      if c in out && !c.IsEmpty() { assert Covers(out, c.Start()); }
      if c.IsEmpty() { assert c == Cursor(c.head); }
    }
  }

  /** Every returned cursor follows an inserted copy, and every copy is followed by a returned cursor. */
  lemma ReturnedCursors(t: Text, sels: seq<Selection>, ins: Text)
    requires InBounds(t, sels)
    ensures forall c :: c in Normalized(CursorsAfter(sels, |ins|)) ==> FollowsCopy(Simultaneous(t, Replacements(sels, ins), 0), ins, c)
    ensures forall k :: 0 <= k < |sels| ==> CursorAfter(sels, |ins|, k) in Normalized(CursorsAfter(sels, |ins|))
  {
    var cursors := CursorsAfter(sels, |ins|);
    NormalizedCursors(cursors);
    forall c | c in cursors ensures FollowsCopy(Simultaneous(t, Replacements(sels, ins), 0), ins, c) {
      CursorFollows(t, sels, ins, c);
    }
    forall k | 0 <= k < |sels| ensures CursorAfter(sels, |ins|, k) in Normalized(cursors) {
      assert cursors[k] in cursors;
    }
  }

  lemma CursorFollows(t: Text, sels: seq<Selection>, ins: Text, c: Selection)
    requires InBounds(t, sels) && c in CursorsAfter(sels, |ins|)
    ensures FollowsCopy(Simultaneous(t, Replacements(sels, ins), 0), ins, c)
  {
    var k: nat :| k < |sels| && CursorsAfter(sels, |ins|)[k] == c;
    FollowsAt(t, sels, ins, k);
  }

  lemma FollowsAt(t: Text, sels: seq<Selection>, ins: Text, k: nat)
    requires InBounds(t, sels) && k < |sels|
    ensures FollowsCopy(Simultaneous(t, Replacements(sels, ins), 0), ins, CursorAfter(sels, |ins|, k))
  {
    CursorFollowsCopy(t, sels, ins, k);
  }

  predicate FollowsCopy(r: Text, ins: Text, c: Selection) {
    c.IsEmpty() && |ins| <= c.head <= |r| && r[c.head - |ins|..c.head] == ins
  }

  // --- the operations ---

  /** Selections lie in the text, on character boundaries. */
  ghost predicate Placed(t: Text, sels: seq<Selection>) {
    forall s :: s in sels ==> ValidRange(t, s.Start(), s.End())
  }

  lemma NormalizedPlaced(t: Text, sels: seq<Selection>)
    requires Placed(t, sels)
    ensures Placed(t, Normalized(sels)) && Separated(Normalized(sels))
  {
    NormalizedMeaning(sels);
  }

  /** Where the cursors are after replacing `selections` by `len` bytes each. */
  function Landing(selections: seq<Selection>, len: nat): seq<Selection> {
    NormalizedMeaning(selections);
    Normalized(CursorsAfter(Normalized(selections), len))
  }

  /** Replaces every one of the normalized `sels` by `ins` in one transaction that remembers `before`. */
  method ReplaceEach(b: Buffer, sels: seq<Selection>, ins: Text, before: seq<Selection>)
    returns (r: Result<EditOutcome, EditError>)
    requires b.Valid() && ValidUtf8(ins) && Separated(sels)
    modifies b, b.source
    ensures b.Valid()
    ensures r.Err? <==> !Placed(old(b.text), sels)
    ensures r.Err? ==> !r.error.Overlapping?
    ensures r.Ok? ==> r.value.selections == Normalized(CursorsAfter(sels, |ins|))
    ensures r.Ok? ==> b.text == Simultaneous(old(b.text), Replacements(sels, ins), 0)
    ensures b.Edited(Replacements(sels, ins), Some(SelectionSnapshot(before, Normalized(CursorsAfter(sels, |ins|)))),
                     if r.Ok? then Ok(r.value.edit) else Err(r.error))
  {
    var edits := Replacements(sels, ins);
    var cursors := CursorsAfterReplacements(sels, |ins|);
    var after := Normalize(cursors);
    SelectionsCompatible(sels, ins);
    RangesOfSelections(b.text, sels, ins);
    var edit := b.EditWithSelections(edits, before, after);
    match edit
    case Err(e) => r := Err(e);
    case Ok(id) => r := Ok(EditOutcome(id, after));
  }

  lemma RangesOfSelections(t: Text, sels: seq<Selection>, ins: Text)
    ensures ValidRanges(t, Replacements(sels, ins)) <==> Placed(t, sels)
  {
    var es := Replacements(sels, ins);
    if ValidRanges(t, es) {
      forall s | s in sels ensures ValidRange(t, s.Start(), s.End()) {
        var i :| 0 <= i < |sels| && sels[i] == s;
        assert ValidRange(t, es[i].start, es[i].end);
      }
    }
  }

  /** `insert_at`: selections that lie in the text on character boundaries are never refused. */
  method InsertAt(b: Buffer, selections: seq<Selection>, ins: Text) returns (r: Result<EditOutcome, EditError>)
    requires b.Valid() && ValidUtf8(ins)
    modifies b, b.source
    ensures b.Valid()
    ensures r.Err? <==> !Placed(old(b.text), Normalized(selections))
    ensures r.Err? ==> !r.error.Overlapping?
    ensures r.Ok? ==> r.value.selections == Landing(selections, |ins|)
    ensures r.Ok? ==> b.text == Simultaneous(old(b.text), Replacements(Normalized(selections), ins), 0)
    ensures b.Edited(Replacements(Normalized(selections), ins), Some(SelectionSnapshot(Normalized(selections), Landing(selections, |ins|))),
                     if r.Ok? then Ok(r.value.edit) else Err(r.error))
    ensures Placed(old(b.text), selections) ==> r.Ok?
  {
    var sels := Normalize(selections);
    NormalizedMeaning(selections);
    ghost var t := b.text;
    if Placed(t, selections) { NormalizedPlaced(t, selections); }
    r := ReplaceEach(b, sels, ins, sels);
  }

  /** `delete_ranges`: deletes `ranges`; `before` is what undo brings back. */
  method DeleteRanges(b: Buffer, ranges: seq<Selection>, before: seq<Selection>)
    returns (r: Result<EditOutcome, EditError>)
    requires b.Valid()
    modifies b, b.source
    ensures b.Valid()
    ensures r.Err? <==> !Placed(old(b.text), Normalized(ranges))
    ensures r.Err? ==> !r.error.Overlapping?
    ensures r.Ok? ==> r.value.selections == Landing(ranges, 0)
    ensures r.Ok? ==> b.text == Simultaneous(old(b.text), Replacements(Normalized(ranges), []), 0)
    ensures b.Edited(Replacements(Normalized(ranges), []), Some(SelectionSnapshot(before, Landing(ranges, 0))),
                     if r.Ok? then Ok(r.value.edit) else Err(r.error))
  {
    var sels := Normalize(ranges);
    NormalizedMeaning(ranges);
    r := ReplaceEach(b, sels, [], before);
  }
}
