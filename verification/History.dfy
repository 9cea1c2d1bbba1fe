/**
 Whole runs of a buffer, on its timeline: where the texts that undo and redo return come from.
 `Next` is the timeline effect that the class `Buffers.Buffer` proves of its methods.
 */
module History {
  import opened Buffers
  import opened EditBatch
  import opened Selections
  import opened Utf8
  import opened Wrappers

  datatype Action =
    | Batch(edits: seq<Edit>, selections: Option<SelectionSnapshot>)
    | Undo
    | Redo

  datatype State = State(tl: Timeline, nextEdit: nat)

  /** A batch that is accepted and changes something. */
  ghost predicate Real(t: Text, edits: seq<Edit>) {
    && ValidRanges(t, edits) && Compatible(edits)
    && exists i :: 0 <= i < |edits| && !NoOp(t, edits[i])
  }

  ghost function Next(s: State, a: Action): (r: State)
    requires s.tl.Sound()
    ensures r.tl.Sound()
  {
    match a
    case Batch(edits, sel) =>
      if Real(s.tl.Now(), edits)
      then State(s.tl.Record(Simultaneous(s.tl.Now(), edits, 0), Entry(s.nextEdit, sel)), s.nextEdit + 1)
      else s
    case Undo => if s.tl.at == 0 then s else s.(tl := s.tl.(at := s.tl.at - 1))
    case Redo => if s.tl.at == |s.tl.entries| then s else s.(tl := s.tl.(at := s.tl.at + 1))
  }

  ghost function Run(t: Text, actions: seq<Action>): (r: State)
    ensures r.tl.Sound()
  {
    if actions == [] then State(Opened(t), 1)
    else Next(Run(t, actions[..|actions| - 1]), actions[|actions| - 1])
  }

  /** Transaction `k` of the final timeline is the real batch that was action `i`, and the texts around it
      are the texts that were current just before and just after that action. */
  ghost predicate Origin(t: Text, actions: seq<Action>, k: nat, i: nat)
    requires k < |Run(t, actions).tl.entries|
  {
    var tl := Run(t, actions).tl;
    && i < |actions| && actions[i].Batch?
    && Real(Run(t, actions[..i]).tl.Now(), actions[i].edits)
    && tl.entries[k] == Entry(Run(t, actions[..i]).nextEdit, actions[i].selections)
    && tl.texts[k] == Run(t, actions[..i]).tl.Now()
    && tl.texts[k + 1] == Run(t, actions[..i + 1]).tl.Now()
  }

  ghost predicate Records(s: State, a: Action, k: nat)
    requires s.tl.Sound()
  {
    a.Batch? && Real(s.tl.Now(), a.edits) && k == s.tl.at
  }

  /** An action leaves every transaction and the texts around it alone, but the one it records. */
  lemma EntryStays(s: State, a: Action, k: nat)
    requires s.tl.Sound() && k < |Next(s, a).tl.entries| && !Records(s, a, k)
    ensures
      var n := Next(s, a);
      && k < |s.tl.entries| && n.tl.entries[k] == s.tl.entries[k]
      && n.tl.texts[k] == s.tl.texts[k] && n.tl.texts[k + 1] == s.tl.texts[k + 1]
  {
  }

  lemma EntryRecorded(s: State, a: Action, k: nat)
    requires s.tl.Sound() && Records(s, a, k)
    ensures
      var n := Next(s, a);
      && k < |n.tl.entries| && n.tl.entries[k] == Entry(s.nextEdit, a.selections)
      && n.tl.texts[k] == s.tl.Now() && n.tl.texts[k + 1] == n.tl.Now()
  {
  }

  /** Every transaction on the timeline of any run is a batch of that run. */
  lemma {:induction false} EveryEntryHasOrigin(t: Text, actions: seq<Action>, k: nat) returns (i: nat)
    requires k < |Run(t, actions).tl.entries|
    ensures Origin(t, actions, k, i)
    decreases |actions|
  {
    var n := |actions| - 1;
    var before := actions[..n];
    var s, a := Run(t, before), actions[n];
    if Records(s, a, k) {
      i := n;
      EntryRecorded(s, a, k);
      assert actions[..n + 1] == actions;
    } else {
      EntryStays(s, a, k);
      i := EveryEntryHasOrigin(t, before, k);
      assert actions[..i] == before[..i] && actions[..i + 1] == before[..i + 1];
    }
  }

  /** Ids are handed out once, in order, along the timeline. */
  lemma {:induction false} IdsIncrease(t: Text, actions: seq<Action>)
    ensures Increasing(Run(t, actions))
    decreases |actions|
  {
    if actions != [] {
      IdsIncrease(t, actions[..|actions| - 1]);
      NextIncreases(Run(t, actions[..|actions| - 1]), actions[|actions| - 1]);
    }
  }

  ghost predicate Increasing(s: State) {
    && (forall k :: 0 <= k < |s.tl.entries| ==> s.tl.entries[k].id < s.nextEdit)
    && (forall j, k :: 0 <= j < k < |s.tl.entries| ==> s.tl.entries[j].id < s.tl.entries[k].id)
  }

  lemma NextIncreases(s: State, a: Action)
    requires s.tl.Sound() && Increasing(s)
    ensures Increasing(Next(s, a))
  {
  }

  /** In any run, undo gives back exactly the text that was current before the transaction it reverts was
      applied, and the transaction it reverts is the one that action recorded. */
  lemma UndoRestores(t: Text, actions: seq<Action>) returns (i: nat)
    requires Run(t, actions).tl.at > 0
    ensures i < |actions| && actions[i].Batch?
    ensures var s, u := Run(t, actions), Run(t, actions + [Undo]);
            && u.tl.Now() == Run(t, actions[..i]).tl.Now()
            && s.tl.Now() == Run(t, actions[..i + 1]).tl.Now()
            && s.tl.entries[s.tl.at - 1].id == Run(t, actions[..i]).nextEdit
            && s.tl.entries[s.tl.at - 1].selections == actions[i].selections
  {
    UndoneRun(t, actions);
    i := EntryTexts(t, actions, Run(t, actions).tl.at - 1);
  }

  /** Where transaction `k` of a run's timeline comes from, and the texts around it. */
  lemma EntryTexts(t: Text, actions: seq<Action>, k: nat) returns (i: nat)
    requires k < |Run(t, actions).tl.entries|
    ensures i < |actions| && actions[i].Batch?
    ensures var tl := Run(t, actions).tl;
            && tl.texts[k] == Run(t, actions[..i]).tl.Now() && tl.texts[k + 1] == Run(t, actions[..i + 1]).tl.Now()
            && tl.entries[k] == Entry(Run(t, actions[..i]).nextEdit, actions[i].selections)
  {
    i := EveryEntryHasOrigin(t, actions, k);
  }

  /** One more undo steps the timeline back. */
  lemma UndoneRun(t: Text, actions: seq<Action>)
    requires Run(t, actions).tl.at > 0
    ensures var s := Run(t, actions); Run(t, actions + [Undo]) == s.(tl := s.tl.(at := s.tl.at - 1))
  {
    RunStep(t, actions, Undo);
  }

  lemma RunStep(t: Text, actions: seq<Action>, a: Action)
    ensures Run(t, actions + [a]) == Next(Run(t, actions), a)
  {
    assert (actions + [a])[..|actions|] == actions;
  }

  /** In any run, redo gives exactly the text that the transaction it re-applies once produced, and that
      transaction is the one the action recorded. */
  lemma RedoRestores(t: Text, actions: seq<Action>) returns (i: nat)
    requires Run(t, actions).tl.at < |Run(t, actions).tl.entries|
    ensures i < |actions| && actions[i].Batch?
    ensures var s, u := Run(t, actions), Run(t, actions + [Redo]);
            && u.tl.Now() == Run(t, actions[..i + 1]).tl.Now()
            && s.tl.Now() == Run(t, actions[..i]).tl.Now()
            && s.tl.entries[s.tl.at].id == Run(t, actions[..i]).nextEdit
            && s.tl.entries[s.tl.at].selections == actions[i].selections
  {
    RedoneRun(t, actions);
    i := EntryTexts(t, actions, Run(t, actions).tl.at);
  }

  /** One more redo steps the timeline forward. */
  lemma RedoneRun(t: Text, actions: seq<Action>)
    requires Run(t, actions).tl.at < |Run(t, actions).tl.entries|
    ensures var s := Run(t, actions); Run(t, actions + [Redo]) == s.(tl := s.tl.(at := s.tl.at + 1))
  {
    RunStep(t, actions, Redo);
  }

  ghost function Repeat(a: Action, n: nat): seq<Action> { seq(n, i => a) }

  lemma {:induction false} RunRepeat(t: Text, actions: seq<Action>, a: Action, n: nat)
    requires a.Undo? || a.Redo?
    requires a.Undo? ==> n <= Run(t, actions).tl.at
    requires a.Redo? ==> Run(t, actions).tl.at + n <= |Run(t, actions).tl.entries|
    ensures var s := Run(t, actions);
            Run(t, actions + Repeat(a, n)) == s.(tl := s.tl.(at := if a.Undo? then s.tl.at - n else s.tl.at + n))
  {
    if n == 0 {
      assert actions + Repeat(a, 0) == actions;
    } else {
      var all := actions + Repeat(a, n);
      assert all[..|all| - 1] == actions + Repeat(a, n - 1);
      RunRepeat(t, actions, a, n - 1);
    }
  }

  /** Any number of undos followed by as many redos changes nothing at all. */
  lemma UndoThenRedo(t: Text, actions: seq<Action>, n: nat)
    requires n <= Run(t, actions).tl.at
    ensures Run(t, actions + Repeat(Undo, n) + Repeat(Redo, n)) == Run(t, actions)
  {
    RunRepeat(t, actions, Undo, n);
    RunRepeat(t, actions + Repeat(Undo, n), Redo, n);
  }

  /** Something undone stays redoable until a real edit, and only a real edit forgets it. */
  lemma OnlyRealEditsForget(t: Text, actions: seq<Action>, a: Action)
    ensures var s, u := Run(t, actions), Run(t, actions + [a]);
            s.tl.texts <= u.tl.texts && s.tl.entries <= u.tl.entries
            <==> s.tl.at == |s.tl.entries| || !(a.Batch? && Real(s.tl.Now(), a.edits))
  {
    var s := Run(t, actions);
    RunStep(t, actions, a);
    IdsIncrease(t, actions);
    if a.Batch? && Real(s.tl.Now(), a.edits) { RealEditForgets(s, a); }
  }

  lemma RealEditForgets(s: State, a: Action)
    requires s.tl.Sound() && a.Batch? && Real(s.tl.Now(), a.edits)
    requires forall k :: 0 <= k < |s.tl.entries| ==> s.tl.entries[k].id < s.nextEdit
    ensures s.tl.texts <= Next(s, a).tl.texts && s.tl.entries <= Next(s, a).tl.entries <==> s.tl.at == |s.tl.entries|
  {
    var u := Next(s, a);
    if s.tl.at == |s.tl.entries| {
      assert s.tl.texts[..s.tl.at + 1] == s.tl.texts && s.tl.entries[..s.tl.at] == s.tl.entries;
    } else {
      assert u.tl.entries[s.tl.at].id == s.nextEdit;
    }
  }

  // --- the buffer runs this history ---

  ghost predicate Proper(a: Action) {
    a.Batch? ==> forall e :: e in a.edits ==> ValidUtf8(e.text)
  }

  method Perform(b: Buffer, a: Action)
    requires b.Valid() && Proper(a)
    modifies b, b.source
    ensures b.Valid()
    ensures State(b.timeline, b.nextEdit) == Next(old(State(b.timeline, b.nextEdit)), a)
  {
    match a
    case Batch(edits, selections) => var _ := b.EditInner(edits, selections);
    case Undo => var _ := b.Undo();
    case Redo => var _ := b.Redo();
  }

  /** Every run of a freshly opened buffer is the run of the timeline from its first text. */
  method Drive(t: Text, source: RevisionSource, actions: seq<Action>) returns (b: Buffer)
    requires ValidUtf8(t) && forall a :: a in actions ==> Proper(a)
    modifies source
    ensures fresh(b) && b.Valid() && b.source == source
    ensures State(b.timeline, b.nextEdit) == Run(t, actions) && b.text == Run(t, actions).tl.Now()
  {
    b := new Buffer(t, source);
    for i := 0 to |actions|
      invariant fresh(b) && b.Valid() && b.source == source
      invariant State(b.timeline, b.nextEdit) == Run(t, actions[..i])
    {
      assert actions[..i + 1][..i] == actions[..i];
      Perform(b, actions[i]);
    }
    assert actions[..|actions|] == actions;
  }

  /** After any run, undo leaves the text that was current before one batch of the run, with the id that batch was given
      and the cursors that came with it as those before it; or there is nothing to undo. */
  method UndoAfter(t: Text, source: RevisionSource, actions: seq<Action>)
    returns (b: Buffer, r: Option<(nat, Option<seq<Selection>>)>, ghost i: nat)
    requires ValidUtf8(t) && forall a :: a in actions ==> Proper(a)
    modifies source
    ensures r.None? <==> Run(t, actions).tl.at == 0
    ensures r.None? ==> b.text == Run(t, actions).tl.Now()
    ensures r.Some? ==>
              && i < |actions| && actions[i].Batch?
              && b.text == Run(t, actions[..i]).tl.Now() && Run(t, actions).tl.Now() == Run(t, actions[..i + 1]).tl.Now()
              && r.value.0 == Run(t, actions[..i]).nextEdit
              && (r.value.1.Some? <==> actions[i].selections.Some?)
              && (r.value.1.Some? ==> r.value.1.value == actions[i].selections.value.before)
  {
    b := Drive(t, source, actions);
    ghost var tl := b.timeline;
    r := b.UndoWithSelections();
    i := 0;
    if tl.at > 0 {
      i := EntryTexts(t, actions, tl.at - 1);
      assert b.text == tl.texts[tl.at - 1];
    }
  }

  /** After any run, redo leaves the text that one batch of the run produced, with that batch's id and the cursors that
      came with it as those after it; or there is nothing to redo. */
  method RedoAfter(t: Text, source: RevisionSource, actions: seq<Action>)
    returns (b: Buffer, r: Option<(nat, Option<seq<Selection>>)>, ghost i: nat)
    requires ValidUtf8(t) && forall a :: a in actions ==> Proper(a)
    modifies source
    ensures r.None? <==> Run(t, actions).tl.at == |Run(t, actions).tl.entries|
    ensures r.None? ==> b.text == Run(t, actions).tl.Now()
    ensures r.Some? ==>
              && i < |actions| && actions[i].Batch?
              && b.text == Run(t, actions[..i + 1]).tl.Now() && Run(t, actions).tl.Now() == Run(t, actions[..i]).tl.Now()
              && r.value.0 == Run(t, actions[..i]).nextEdit
              && (r.value.1.Some? <==> actions[i].selections.Some?)
              && (r.value.1.Some? ==> r.value.1.value == actions[i].selections.value.after)
  {
    b := Drive(t, source, actions);
    ghost var tl := b.timeline;
    r := b.RedoWithSelections();
    i := 0;
    if tl.at < |tl.entries| {
      i := EntryTexts(t, actions, tl.at);
      assert b.text == tl.texts[tl.at + 1];
    }
  }
}
