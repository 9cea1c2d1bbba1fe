/**
 The editor buffer (`tempr_editor/src/buffer.rs`): text, undo/redo stacks and revision counter.
 The stacks store single replacements; the timeline stores whole texts.  The class keeps both and
 every operation is specified on the timeline.
 */
module Buffers {
  import opened EditBatch
  import opened Selections
  import opened Utf8
  import opened Wrappers

  /** One replacement inside a transaction, remembered for undo/redo. */
  datatype Change = Change(start: nat, removed: Text, inserted: Text)

  datatype SelectionSnapshot = SelectionSnapshot(before: seq<Selection>, after: seq<Selection>)

  datatype Transaction = Transaction(id: nat, changes: seq<Change>, selections: Option<SelectionSnapshot>)

  // --- changes ---

  /** The change replaces what stands at its start. */
  predicate Fits(t: Text, c: Change) {
    c.start + |c.removed| <= |t| && t[c.start..c.start + |c.removed|] == c.removed
  }

  function Forward(t: Text, c: Change): Text
    requires Fits(t, c)
  {
    Replace(t, c.start, c.start + |c.removed|, c.inserted)
  }

  /** `changes`, each fitting the text it meets, lead from `t` to `u`. */
  predicate Leads(t: Text, changes: seq<Change>, u: Text)
    decreases |changes|
  {
    if changes == [] then t == u
    else Fits(t, changes[0]) && Leads(Forward(t, changes[0]), changes[1..], u)
  }

  lemma {:induction false} LeadsAppend(t: Text, changes: seq<Change>, u: Text, c: Change)
    requires Leads(t, changes, u) && Fits(u, c)
    ensures Leads(t, changes + [c], Forward(u, c))
    decreases |changes|
  {
    if changes != [] {
      assert (changes + [c])[1..] == changes[1..] + [c];
      LeadsAppend(Forward(t, changes[0]), changes[1..], u, c);
    }
  }

  /** A change is undone exactly: what it inserted stands at `start` again, and replacing it by what it
      removed gives the text before. */
  lemma BackAgain(t: Text, c: Change)
    requires Fits(t, c)
    ensures var u := Forward(t, c);
            && c.start + |c.inserted| <= |u|
            && u[c.start..c.start + |c.inserted|] == c.inserted
            && Replace(u, c.start, c.start + |c.inserted|, c.removed) == t
  {
    var u := Forward(t, c);
    assert u[..c.start] == t[..c.start];
    assert u[c.start + |c.inserted|..] == t[c.start + |c.removed|..];
    assert t == t[..c.start] + c.removed + t[c.start + |c.removed|..];
  }

  /** A change sequence leads from `t` to one text only, through a text before its last change. */
  lemma {:induction false} LastChange(t: Text, changes: seq<Change>, u: Text) returns (v: Text)
    requires changes != [] && Leads(t, changes, u)
    ensures Leads(t, changes[..|changes| - 1], v)
    ensures Fits(v, changes[|changes| - 1]) && Forward(v, changes[|changes| - 1]) == u
    decreases |changes|
  {
    if |changes| == 1 {
      v := t;
    } else {
      v := LastChange(Forward(t, changes[0]), changes[1..], u);
      assert changes[1..][..|changes| - 2] == changes[..|changes| - 1][1..];
    }
  }

  // --- checking and applying a batch ---

  predicate NoOp(t: Text, e: Edit) {
    e.InText(t) && t[e.start..e.end] == e.text
  }

  function FirstRangeError(t: Text, edits: seq<Edit>, i: nat): (e: Option<EditError>)
    requires ValidUtf8(t)
    ensures e.None? <==> forall k :: i <= k < |edits| ==> ValidRange(t, edits[k].start, edits[k].end)
    ensures e.Some? ==> !e.value.Overlapping?
    decreases |edits| - i
  {
    if i >= |edits| then None
    else
      var e := RangeError(t, edits[i].start, edits[i].end);
      if e.Some? then e else FirstRangeError(t, edits, i + 1)
  }

  /** Why a batch is refused, if it is: the first bad range in caller order, else the first clash in
      application order. */
  function BatchError(t: Text, edits: seq<Edit>): (e: Option<EditError>)
    requires ValidUtf8(t)
    ensures e.None? <==> ValidRanges(t, edits) && Compatible(edits)
    ensures e.Some? && e.value.Overlapping? ==> !Compatible(edits)
  {
    var bad := FirstRangeError(t, edits, 0);
    if bad.Some? then bad
    else
      NeighbourCheckExact(edits);
      FirstClash(Order(edits), 0)
  }

  /** The first bad range in caller order is the one reported. */
  lemma {:induction false} FirstBadRange(t: Text, edits: seq<Edit>, from: nat, i: nat)
    requires ValidUtf8(t) && from <= i < |edits| && !ValidRange(t, edits[i].start, edits[i].end)
    requires forall k :: from <= k < i ==> ValidRange(t, edits[k].start, edits[k].end)
    ensures FirstRangeError(t, edits, from) == RangeError(t, edits[i].start, edits[i].end)
    decreases i - from
  {
    if from < i { FirstBadRange(t, edits, from + 1, i); }
  }

  /** Why a batch is refused: the first bad range in caller order, or else two of its edits that overlap. */
  lemma RefusalSays(t: Text, edits: seq<Edit>)
    requires ValidUtf8(t)
    ensures forall i :: 0 <= i < |edits| && !ValidRange(t, edits[i].start, edits[i].end)
                        && (forall k :: 0 <= k < i ==> ValidRange(t, edits[k].start, edits[k].end)) ==>
              BatchError(t, edits) == RangeError(t, edits[i].start, edits[i].end)
    ensures ValidRanges(t, edits) && !Compatible(edits) ==>
              exists i, j ::
                && 0 <= i < |edits| && 0 <= j < |edits| && i != j && Overlap(edits[i], edits[j]) && edits[i].start <= edits[j].start
                && BatchError(t, edits) == Some(Overlapping(edits[i].start, edits[i].end, edits[j].start, edits[j].end))
  {
    forall i | 0 <= i < |edits| && !ValidRange(t, edits[i].start, edits[i].end)
               && forall k :: 0 <= k < i ==> ValidRange(t, edits[k].start, edits[k].end)
      ensures BatchError(t, edits) == RangeError(t, edits[i].start, edits[i].end)
    {
      FirstBadRange(t, edits, 0, i);
    }
    if ValidRanges(t, edits) && !Compatible(edits) {
      NeighbourCheckExact(edits);
      var i, j := ClashReported(edits);
    }
  }

  /** While the edits descend, the part of the text below the last one is still the original. */
  lemma StillOriginal(t: Text, es: seq<Edit>, k: nat)
    requires Descending(es) && AllInText(t, es) && k < |es|
    ensures var u := ApplyDesc(t, es[..k]);
            && es[k].end <= |u| && u[es[k].start..es[k].end] == t[es[k].start..es[k].end]
            && ApplyDesc(t, es[..k + 1]) == Replace(u, es[k].start, es[k].end, es[k].text)
  {
    var u, e := ApplyDesc(t, es[..k]), es[k].end;
    assert es[..k + 1][..k] == es[..k];
    PrefixKept(t, es[..k], e);
    assert u[es[k].start..e] == u[..e][es[k].start..];
    assert t[es[k].start..e] == t[..e][es[k].start..];
  }

  lemma {:induction false} ApplyDescValid(t: Text, es: seq<Edit>, m: nat)
    requires ValidUtf8(t) && Descending(es) && AllInText(t, es) && ValidRanges(t, es)
    requires forall e :: e in es ==> ValidUtf8(e.text) && m <= e.start
    requires m <= |t| && Boundary(t, m)
    ensures m <= |ApplyDesc(t, es)| && ValidUtf8(ApplyDesc(t, es)[m..])
    decreases |es|
  {
    if es == [] {
      ValidSplit(t, m);
    } else {
      var lo, above := es[|es| - 1], es[..|es| - 1];
      assert lo in es;
      ApplyDescValid(t, above, lo.end);
      PrefixKept(t, above, lo.end);
      var a := ApplyDesc(t, above);
      ValidSlice(t, m, lo.start);
      ValidConcat(t[m..lo.start], lo.text);
      ValidConcat(t[m..lo.start] + lo.text, a[lo.end..]);
      TailOfReplace(t, a, lo, m);
    }
  }

  lemma TailOfReplace(t: Text, a: Text, lo: Edit, m: nat)
    requires m <= lo.start <= lo.end <= |t| && lo.end <= |a| && a[..lo.end] == t[..lo.end]
    ensures m <= |Replace(a, lo.start, lo.end, lo.text)|
    ensures Replace(a, lo.start, lo.end, lo.text)[m..] == t[m..lo.start] + lo.text + a[lo.end..]
  {
    assert a[..lo.start] == a[..lo.end][..lo.start] == t[..lo.end][..lo.start] == t[..lo.start];
    assert t[..lo.start] == t[..m] + t[m..lo.start];
  }

  lemma AcceptedIsValid(t: Text, edits: seq<Edit>)
    requires ValidUtf8(t) && ValidRanges(t, edits) && Compatible(edits)
    requires forall e :: e in edits ==> ValidUtf8(e.text)
    ensures ValidUtf8(Simultaneous(t, edits, 0))
  {
    var es := Edits(Order(edits));
    BatchIsSimultaneous(t, edits);
    forall k | 0 <= k < |es| ensures es[k] in edits && ValidRange(t, es[k].start, es[k].end) {
      OrderedFrom(edits, k);
    }
    ApplyDescValid(t, es, 0);
    assert ApplyDesc(t, es)[0..] == ApplyDesc(t, es);
  }

  lemma OrderedFrom(edits: seq<Edit>, k: nat)
    requires forall i :: 0 <= i < |edits| ==> edits[i].start <= edits[i].end
    requires k < |Order(edits)|
    ensures Order(edits)[k].edit in edits
  {
    OrderIsSorted(edits);
    var x := Order(edits)[k];
    assert x in Number(edits, 0);
    assert edits[x.index] == x.edit;
  }

  lemma NoOpsInOrder(t: Text, edits: seq<Edit>)
    requires AllInText(t, edits)
    ensures (forall k :: 0 <= k < |Order(edits)| ==> NoOp(t, Order(edits)[k].edit)) <==>
            (forall i :: 0 <= i < |edits| ==> NoOp(t, edits[i]))
  {
    var s := Order(edits);
    if forall k :: 0 <= k < |s| ==> NoOp(t, s[k].edit) {
      forall i | 0 <= i < |edits| ensures NoOp(t, edits[i]) {
        var k := PositionOf(edits, i);
        assert NoOp(t, s[k].edit);
      }
    }
    if forall i :: 0 <= i < |edits| ==> NoOp(t, edits[i]) {
      forall k | 0 <= k < |s| ensures NoOp(t, s[k].edit) {
        OrderedFrom(edits, k);
      }
    }
  }

  // --- the timeline ---

  /** What one transaction is known by: its id and the cursors around it. */
  datatype Entry = Entry(id: nat, selections: Option<SelectionSnapshot>)

  /** All texts the buffer can reach with undo and redo, and where it stands: `entries[k]` leads from
      `texts[k]` to `texts[k + 1]`. */
  datatype Timeline = Timeline(texts: seq<Text>, entries: seq<Entry>, at: nat) {
    predicate Sound() { |texts| == |entries| + 1 && at <= |entries| }

    function Now(): Text requires Sound() { texts[at] }

    /** A real edit forgets what was undone and adds one text. */
    function Record(t: Text, e: Entry): (r: Timeline)
      requires Sound()
    {
      Timeline(texts[..at + 1] + [t], entries[..at] + [e], at + 1)
    }
  }

  function Opened(t: Text): Timeline { Timeline([t], [], 0) }

  /** The transaction that leads from `texts[k]` to `texts[k + 1]`: the undo stack grows to the right, the
      redo stack to the left. */
  function Step(undo: seq<Transaction>, redo: seq<Transaction>, k: nat): Transaction
    requires k < |undo| + |redo|
  {
    if k < |undo| then undo[k] else redo[|undo| + |redo| - 1 - k]
  }

  predicate Links(tl: Timeline, tx: Transaction, k: nat)
    requires tl.Sound() && k < |tl.entries|
  {
    && tx.id == tl.entries[k].id
    && tx.selections == tl.entries[k].selections
    && Leads(tl.texts[k], tx.changes, tl.texts[k + 1])
  }

  /** Text, stacks and id counter are what the timeline says. */
  ghost predicate Consistent(tl: Timeline, text: Text, undo: seq<Transaction>, redo: seq<Transaction>, nextEdit: nat) {
    && tl.Sound()
    && text == tl.Now()
    && (forall k :: 0 <= k < |tl.texts| ==> ValidUtf8(tl.texts[k]))
    && |undo| == tl.at && |undo| + |redo| == |tl.entries|
    && (forall k :: 0 <= k < |tl.entries| ==> Links(tl, Step(undo, redo, k), k))
    && (forall k :: 0 <= k < |tl.entries| ==> tl.entries[k].id < nextEdit)
    && (forall j, k :: 0 <= j < k < |tl.entries| ==> tl.entries[j].id < tl.entries[k].id)
  }

  lemma RecordKeeps(tl: Timeline, text: Text, undo: seq<Transaction>, redo: seq<Transaction>, tx: Transaction, t: Text)
    requires Consistent(tl, text, undo, redo, tx.id)
    requires Leads(text, tx.changes, t) && ValidUtf8(t)
    ensures Consistent(tl.Record(t, Entry(tx.id, tx.selections)), t, undo + [tx], [], tx.id + 1)
  {
    var next := tl.Record(t, Entry(tx.id, tx.selections));
    forall k | 0 <= k < |next.entries| ensures Links(next, Step(undo + [tx], [], k), k) {
      if k < tl.at { assert Links(tl, Step(undo, redo, k), k); }
    }
  }

  lemma UndoKeeps(tl: Timeline, text: Text, undo: seq<Transaction>, redo: seq<Transaction>, nextEdit: nat)
    requires Consistent(tl, text, undo, redo, nextEdit) && undo != []
    ensures var tx := undo[|undo| - 1];
            && Links(tl, tx, tl.at - 1)
            && Consistent(tl.(at := tl.at - 1), tl.texts[tl.at - 1], undo[..|undo| - 1], redo + [tx], nextEdit)
  {
    var n := |undo| - 1;
    var next, undo', redo' := tl.(at := tl.at - 1), undo[..n], redo + [undo[n]];
    forall k | 0 <= k < |tl.entries| ensures Links(next, Step(undo', redo', k), k) {
      assert Links(tl, Step(undo, redo, k), k);
      assert Step(undo', redo', k) == Step(undo, redo, k);
    }
    assert Step(undo, redo, n) == undo[n];
  }

  lemma RedoKeeps(tl: Timeline, text: Text, undo: seq<Transaction>, redo: seq<Transaction>, nextEdit: nat)
    requires Consistent(tl, text, undo, redo, nextEdit) && redo != []
    ensures var tx := redo[|redo| - 1];
            && Links(tl, tx, tl.at)
            && Consistent(tl.(at := tl.at + 1), tl.texts[tl.at + 1], undo + [tx], redo[..|redo| - 1], nextEdit)
  {
    var n := |redo| - 1;
    var next, undo', redo' := tl.(at := tl.at + 1), undo + [redo[n]], redo[..n];
    forall k | 0 <= k < |tl.entries| ensures Links(next, Step(undo', redo', k), k) {
      assert Links(tl, Step(undo, redo, k), k);
      assert Step(undo', redo', k) == Step(undo, redo, k);
    }
    assert Step(undo, redo, tl.at) == redo[n];
  }

  /** The test loops of `edit_inner`, before anything is touched. */
  method CheckBatch(t: Text, edits: seq<Edit>, order: seq<Indexed>) returns (e: Option<EditError>)
    requires ValidUtf8(t) && order == Order(edits)
    ensures e == BatchError(t, edits)
  {
    for i := 0 to |edits|
      invariant FirstRangeError(t, edits, 0) == FirstRangeError(t, edits, i)
    {
      e := RangeError(t, edits[i].start, edits[i].end);
      if e.Some? { return; }
    }
    var k := 0;
    while k + 1 < |order|
      invariant FirstClash(order, 0) == FirstClash(order, k)
    {
      var hi, lo := order[k].edit, order[k + 1].edit;
      if Clash(hi, lo) { return Some(Overlapping(lo.start, lo.end, hi.start, hi.end)); }
      k := k + 1;
    }
    e := None;
  }

  /** `u` and `changes` are what applying the first `k` edits of `es` to `t` leaves. */
  ghost predicate Applied(t: Text, es: seq<Edit>, k: nat, u: Text, changes: seq<Change>)
    requires Descending(es) && AllInText(t, es) && k <= |es|
  {
    && u == ApplyDesc(t, es[..k])
    && Leads(t, changes, u)
    && (changes == [] <==> forall i :: 0 <= i < k ==> NoOp(t, es[i]))
  }

  lemma StepSkipped(t: Text, es: seq<Edit>, k: nat, u: Text, changes: seq<Change>)
    requires Descending(es) && AllInText(t, es) && k < |es| && Applied(t, es, k, u, changes)
    requires NoOp(t, es[k])
    ensures Applied(t, es, k + 1, u, changes)
  {
    StillOriginal(t, es, k);
    SameReplaced(u, es[k].start, es[k].end);
  }

  lemma SameReplaced(u: Text, start: nat, end: nat)
    requires start <= end <= |u|
    ensures Replace(u, start, end, u[start..end]) == u
  {
  }

  lemma StepApplied(t: Text, es: seq<Edit>, k: nat, u: Text, changes: seq<Change>)
    requires Descending(es) && AllInText(t, es) && k < |es| && Applied(t, es, k, u, changes)
    requires !NoOp(t, es[k]) && es[k].end <= |u|
    ensures Applied(t, es, k + 1, Replace(u, es[k].start, es[k].end, es[k].text),
                    changes + [Change(es[k].start, u[es[k].start..es[k].end], es[k].text)])
  {
    StillOriginal(t, es, k);
    EditIsForward(u, es[k]);
    LeadsAppend(t, changes, u, Change(es[k].start, u[es[k].start..es[k].end], es[k].text));
  }

  lemma EditIsForward(u: Text, e: Edit)
    requires e.InText(u)
    ensures
      var c := Change(e.start, u[e.start..e.end], e.text);
      Fits(u, c) && Forward(u, c) == Replace(u, e.start, e.end, e.text)
  {
  }

  lemma SliceKept(t: Text, es: seq<Edit>, k: nat, u: Text, changes: seq<Change>)
    requires Descending(es) && AllInText(t, es) && k < |es| && Applied(t, es, k, u, changes)
    ensures es[k].end <= |u| && u[es[k].start..es[k].end] == t[es[k].start..es[k].end]
  {
    StillOriginal(t, es, k);
  }

  lemma NothingApplied(t: Text, es: seq<Edit>)
    requires Descending(es) && AllInText(t, es)
    ensures Applied(t, es, 0, t, [])
  {
    assert es[..0] == [];
  }

  /** What the buffer knows once a batch has passed the checks. */
  lemma Accepted(t: Text, edits: seq<Edit>)
    requires ValidUtf8(t) && BatchError(t, edits).None? && forall e :: e in edits ==> ValidUtf8(e.text)
    ensures Descending(Edits(Order(edits))) && AllInText(t, Edits(Order(edits)))
    ensures ValidUtf8(Simultaneous(t, edits, 0))
    ensures |Edits(Order(edits))| == |edits|
  {
    BatchIsSimultaneous(t, edits);
    AcceptedIsValid(t, edits);
    OrderIsSorted(edits);
  }

  lemma AllApplied(t: Text, edits: seq<Edit>, u: Text, changes: seq<Change>)
    requires AllInText(t, edits) && Compatible(edits)
    requires Descending(Edits(Order(edits))) && AllInText(t, Edits(Order(edits)))
    requires Applied(t, Edits(Order(edits)), |Edits(Order(edits))|, u, changes)
    ensures u == Simultaneous(t, edits, 0)
    ensures changes == [] ==> u == t
    ensures changes == [] <==> forall i :: 0 <= i < |edits| ==> NoOp(t, edits[i])
  {
    BatchIsSimultaneous(t, edits);
    NoOpsInOrder(t, edits);
    var es := Edits(Order(edits));
    assert es[..|es|] == es;
    assert forall i :: 0 <= i < |es| ==> es[i] == Order(edits)[i].edit;
  }

  /** The process-wide revision counter. */
  class RevisionSource {
    var next: nat

    constructor ()
      ensures next == 1
    {
      next := 1;
    }
  }

  class Buffer {
    var text: Text
    var undo: seq<Transaction>
    var redo: seq<Transaction>
    var nextEdit: nat
    var revision: nat
    const source: RevisionSource
    ghost var timeline: Timeline

    ghost predicate Valid()
      reads this, source
    {
      Consistent(timeline, text, undo, redo, nextEdit) && revision < source.next
    }

    constructor (t: Text, source: RevisionSource)
      requires ValidUtf8(t)
      modifies source
      ensures Valid() && this.source == source
      ensures timeline == Opened(t) && nextEdit == 1
      ensures revision == old(source.next) && source.next == old(source.next) + 1
    {
      text, undo, redo, nextEdit := t, [], [], 1;
      this.source := source;
      revision := source.next;
      timeline := Opened(t);
      new;
      source.next := source.next + 1;
    }

    /** `next_revision`. */
    method Touch()
      modifies this`revision, source
      ensures revision == old(source.next) && source.next == old(source.next) + 1
    {
      revision := source.next;
      source.next := source.next + 1;
    }

    /** `replace_bytes`: replaces a validated range and returns what stood there. */
    method ReplaceBytes(start: nat, end: nat, ins: Text) returns (removed: Text)
      requires start <= end <= |text|
      modifies this`text
      ensures removed == old(text)[start..end]
      ensures text == Replace(old(text), start, end, ins)
    {
      removed := text[start..end];
      if start != end {
        text := text[..start] + text[end..];
      }
      if ins != [] {
        text := text[..start] + ins + text[start..];
      }
    }

    /** Nothing was touched, not even the revision counter. */
    twostate predicate Same()
      reads this, source
    {
      unchanged(this) && unchanged(source)
    }

    /** The text moved under one fresh revision; ids and source stay in place. */
    twostate predicate Moved()
      reads this, source
    {
      && revision == old(source.next) && source.next == old(source.next) + 1
    }

    /** `t` became the current text as transaction `id`, and what was undone is forgotten. */
    twostate predicate Recorded(t: Text, selections: Option<SelectionSnapshot>, id: nat)
      requires old(timeline.Sound())
      reads this, source
    {
      && id == old(nextEdit) && nextEdit == id + 1
      && timeline == old(timeline).Record(t, Entry(id, selections))
      && Moved()
    }

    /** All-or-nothing: refused exactly when a range is bad or two ranges overlap; nothing happens when every
        replacement equals what it replaces; otherwise one transaction with the simultaneous result. */
    twostate predicate Edited(edits: seq<Edit>, selections: Option<SelectionSnapshot>, new r: Result<Option<nat>, EditError>)
      requires old(Valid())
      reads this, source
    {
      && (r.Err? <==> !(ValidRanges(old(text), edits) && Compatible(edits)))
      && (r.Err? ==> Some(r.error) == BatchError(old(text), edits) && Same())
      && (r.Ok? ==> text == Simultaneous(old(text), edits, 0))
      && (r.Ok? ==> (r.value.None? <==> forall i :: 0 <= i < |edits| ==> NoOp(old(text), edits[i])))
      && (r.Ok? && r.value.None? ==> Same())
      && (r.Ok? && r.value.Some? ==> Recorded(Simultaneous(old(text), edits, 0), selections, r.value.value))
    }

    /** `edit_inner`. */
    method EditInner(edits: seq<Edit>, selections: Option<SelectionSnapshot>)
      returns (r: Result<Option<nat>, EditError>)
      requires Valid() && forall e :: e in edits ==> ValidUtf8(e.text)
      modifies this, source
      ensures Valid()
      ensures Edited(edits, selections, r)
    {
      var order := Order(edits);
      var e := CheckBatch(text, edits, order);
      if e.Some? { return Err(e.value); }
      ghost var was := text;
      Accepted(was, edits);
      var changes := ApplyOrdered(order);
      AllApplied(was, edits, text, changes);
      if changes == [] { return Ok(None); }

      var id := Commit(changes, selections, was);
      r := Ok(Some(id));
    }

    /** The last part of `edit_inner`: one undo transaction, and nothing left to redo. */
    method Commit(changes: seq<Change>, selections: Option<SelectionSnapshot>, ghost was: Text) returns (id: nat)
      requires Consistent(timeline, was, undo, redo, nextEdit)
      requires Leads(was, changes, text) && ValidUtf8(text)
      modifies this, source
      ensures Valid() && text == old(text)
      ensures Recorded(old(text), selections, id)
    {
      id := nextEdit;
      var tx := Transaction(id, changes, selections);
      RecordKeeps(timeline, was, undo, redo, tx, text);
      nextEdit := nextEdit + 1;
      Touch();
      undo := undo + [tx];
      redo := [];
      timeline := timeline.Record(text, Entry(id, selections));
    }

    /** The application loop of `edit_inner`: replaces what differs, highest start first. */
    method ApplyOrdered(order: seq<Indexed>) returns (changes: seq<Change>)
      requires Descending(Edits(order)) && AllInText(text, Edits(order))
      modifies this`text
      ensures Applied(old(text), Edits(order), |order|, text, changes)
    {
      ghost var t, es := text, Edits(order);
      changes := [];
      NothingApplied(t, es);
      for k := 0 to |order|
        invariant Applied(t, es, k, text, changes)
      {
        var e := order[k].edit;
        SliceKept(t, es, k, text, changes);
        if text[e.start..e.end] == e.text {
          StepSkipped(t, es, k, text, changes);
        } else {
          StepApplied(t, es, k, text, changes);
          var removed := ReplaceBytes(e.start, e.end, e.text);
          changes := changes + [Change(e.start, removed, e.text)];
        }
      }
    }

    /** `undo`: back to the text before, under a fresh revision. */
    method Undo() returns (id: Option<nat>)
      requires Valid()
      modifies this, source
      ensures Valid()
      ensures id.None? <==> old(timeline.at) == 0
      ensures id.None? ==> Same()
      ensures id.Some? ==>
                && id.value == old(timeline.entries[timeline.at - 1].id)
                && timeline == old(timeline).(at := old(timeline.at) - 1)
                && nextEdit == old(nextEdit) && Moved()
    {
      if undo == [] { return None; }
      var tx := undo[|undo| - 1];
      UndoKeeps(timeline, text, undo, redo, nextEdit);
      undo := undo[..|undo| - 1];
      RevertChanges(tx.changes, timeline.texts[timeline.at - 1]);
      Touch();
      redo := redo + [tx];
      timeline := timeline.(at := timeline.at - 1);
      id := Some(tx.id);
    }

    /** The loop of `undo`: last change first. */
    method RevertChanges(changes: seq<Change>, ghost before: Text)
      requires Leads(before, changes, text)
      modifies this`text
      ensures text == before
    {
      assert changes[..|changes|] == changes;
      var i := |changes|;
      while i > 0
        invariant 0 <= i <= |changes| && Leads(before, changes[..i], text)
      {
        i := i - 1;
        var change := changes[i];
        ghost var v := LastChange(before, changes[..i + 1], text);
        BackAgain(v, change);
        assert changes[..i + 1][..i] == changes[..i];
        var _ := ReplaceBytes(change.start, change.start + |change.inserted|, change.removed);
      }
    }

    /** The loop of `redo`. */
    method ReapplyChanges(changes: seq<Change>, ghost after: Text)
      requires Leads(text, changes, after)
      modifies this`text
      ensures text == after
    {
      for i := 0 to |changes|
        invariant Leads(text, changes[i..], after)
      {
        var change := changes[i];
        assert changes[i..][0] == change && changes[i..][1..] == changes[i + 1..];
        var _ := ReplaceBytes(change.start, change.start + |change.removed|, change.inserted);
      }
    }

    /** `redo`: on to the text after, under a fresh revision. */
    method Redo() returns (id: Option<nat>)
      requires Valid()
      modifies this, source
      ensures Valid()
      ensures id.None? <==> old(timeline.at) == |old(timeline.entries)|
      ensures id.None? ==> Same()
      ensures id.Some? ==>
                && id.value == old(timeline.entries[timeline.at].id)
                && timeline == old(timeline).(at := old(timeline.at) + 1)
                && nextEdit == old(nextEdit) && Moved()
    {
      if redo == [] { return None; }
      var tx := redo[|redo| - 1];
      RedoKeeps(timeline, text, undo, redo, nextEdit);
      redo := redo[..|redo| - 1];
      ReapplyChanges(tx.changes, timeline.texts[timeline.at + 1]);
      Touch();
      undo := undo + [tx];
      timeline := timeline.(at := timeline.at + 1);
      id := Some(tx.id);
    }

    method EditPlain(edits: seq<Edit>) returns (r: Result<Option<nat>, EditError>)
      requires Valid() && forall e :: e in edits ==> ValidUtf8(e.text)
      modifies this, source
      ensures Valid()
      ensures Edited(edits, None, r)
    {
      r := EditInner(edits, None);
    }

    method EditWithSelections(edits: seq<Edit>, before: seq<Selection>, after: seq<Selection>)
      returns (r: Result<Option<nat>, EditError>)
      requires Valid() && forall e :: e in edits ==> ValidUtf8(e.text)
      modifies this, source
      ensures Valid()
      ensures Edited(edits, Some(SelectionSnapshot(before, after)), r)
    {
      r := EditInner(edits, Some(SelectionSnapshot(before, after)));
    }

    /** Undo, and the cursors recorded before the reverted transaction. */
    method UndoWithSelections() returns (r: Option<(nat, Option<seq<Selection>>)>)
      requires Valid()
      modifies this, source
      ensures Valid()
      ensures r.None? <==> old(timeline.at) == 0
      ensures r.None? ==> Same()
      ensures r.Some? ==>
                && r.value.0 == old(timeline.entries[timeline.at - 1].id)
                && (r.value.1.Some? <==> old(timeline.entries[timeline.at - 1].selections.Some?))
                && (r.value.1.Some? ==> r.value.1.value == old(timeline.entries[timeline.at - 1].selections.value.before))
                && timeline == old(timeline).(at := old(timeline.at) - 1)
                && nextEdit == old(nextEdit) && Moved()
    {
      var id := Undo();
      if id.None? { return None; }
      var tx := redo[|redo| - 1];
      assert Links(timeline, Step(undo, redo, timeline.at), timeline.at);
      r := Some((id.value, if tx.selections.Some? then Some(tx.selections.value.before) else None));
    }

    /** Redo, and the cursors recorded after the re-applied transaction. */
    method RedoWithSelections() returns (r: Option<(nat, Option<seq<Selection>>)>)
      requires Valid()
      modifies this, source
      ensures Valid()
      ensures r.None? <==> old(timeline.at) == |old(timeline.entries)|
      ensures r.None? ==> Same()
      ensures r.Some? ==>
                && r.value.0 == old(timeline.entries[timeline.at].id)
                && (r.value.1.Some? <==> old(timeline.entries[timeline.at].selections.Some?))
                && (r.value.1.Some? ==> r.value.1.value == old(timeline.entries[timeline.at].selections.value.after))
                && timeline == old(timeline).(at := old(timeline.at) + 1)
                && nextEdit == old(nextEdit) && Moved()
    {
      var id := Redo();
      if id.None? { return None; }
      var tx := undo[|undo| - 1];
      assert Links(timeline, Step(undo, redo, timeline.at - 1), timeline.at - 1);
      r := Some((id.value, if tx.selections.Some? then Some(tx.selections.value.after) else None));
    }
  }
}
