/** Bindings, frames, scopes and diagnostics (`tempr_intel/src/analysis.rs`), and the lookups over a chain of
    frames (`tempr_intel/src/semantic.rs`). */
module Scopes {
  import opened Sorting
  import opened Strings
  import opened Wrappers

  /** What the walk reads of the catalog, and the case folding it compares with. */
  datatype View = View(
    loaded: bool,
    fold: string -> string,
    resolve: (Option<string>, string) -> Option<nat>,
    nameOf: nat -> string,
    schemaOf: nat -> string,
    columnsOf: nat -> seq<nat>)

  datatype ColumnRef = CatalogColumn(index: nat) | Local(name: string)

  datatype Binding = Binding(alias: Option<string>, name: Option<string>, schema: Option<string>, relation: Option<nat>,
                             columns: seq<ColumnRef>, start: nat, end: nat)
  {
    /** An alias replaces the source's own name. */
    predicate Answers(v: View, qualifier: string) {
      match alias
      case Some(a) => v.fold(a) == v.fold(qualifier)
      case None => name.Some? && v.fold(name.value) == v.fold(qualifier)
    }

    function Label(): string {
      if alias.Some? then alias.value else if name.Some? then name.value else ""
    }
  }

  datatype DiagnosticKind = SyntaxError | UnknownRelation | UnknownColumn | AmbiguousColumn

  datatype Diagnostic = Diagnostic(kind: DiagnosticKind, start: nat, end: nat, message: string)

  datatype Frame = Frame(ctes: seq<Binding>, bindings: seq<Binding>)

  datatype Scope = Scope(start: nat, end: nat, ctes: seq<Binding>, bindings: seq<Binding>, children: seq<Scope>)

  function NameOfColumn(v: View, c: ColumnRef): string {
    match c
    case CatalogColumn(i) => v.nameOf(i)
    case Local(name) => name
  }

  /** `column_hits`: how many columns of the list fold to the name. */
  function HitCount(v: View, columns: seq<ColumnRef>, name: string): nat {
    if columns == [] then 0
    else (if v.fold(NameOfColumn(v, columns[0])) == v.fold(name) then 1 else 0) + HitCount(v, columns[1..], name)
  }

  /** The first binding of a list that answers. */
  function FirstAnswer(v: View, bindings: seq<Binding>, qualifier: string): (r: Option<Binding>)
    ensures r.Some? ==> r.value in bindings && r.value.Answers(v, qualifier)
    ensures r.None? ==> forall b :: b in bindings ==> !b.Answers(v, qualifier)
  {
    if bindings == [] then None
    else if bindings[0].Answers(v, qualifier) then Some(bindings[0])
    else FirstAnswer(v, bindings[1..], qualifier)
  }

  /** `Frame::qualifier`: CTEs shadow bindings. */
  function InFrame(v: View, f: Frame, qualifier: string): Option<Binding> {
    var cte := FirstAnswer(v, f.ctes, qualifier);
    if cte.Some? then cte else FirstAnswer(v, f.bindings, qualifier)
  }

  /** `lookup_qualifier`: nearest frame first. */
  function Lookup(v: View, frames: seq<Frame>, qualifier: string): Option<Binding> {
    if frames == [] then None
    else
      var b := InFrame(v, frames[0], qualifier);
      if b.Some? then b else Lookup(v, frames[1..], qualifier)
  }

  /** The labels of the bindings that provide the column, in binding order. */
  function Hits(v: View, bindings: seq<Binding>, name: string): seq<string> {
    if bindings == [] then []
    else (if HitCount(v, bindings[0].columns, name) > 0 then [bindings[0].Label()] else []) + Hits(v, bindings[1..], name)
  }

  predicate AnyColumns(bindings: seq<Binding>) {
    exists b :: b in bindings && b.columns != []
  }

  function Join(parts: seq<string>, sep: string): string {
    if parts == [] then ""
    else if |parts| == 1 then parts[0]
    else parts[0] + sep + Join(parts[1..], sep)
  }

  /** `resolve_bare` from one frame outwards: the nearest level with a match decides. */
  function Bare(v: View, frames: seq<Frame>, name: string, start: nat, end: nat, any: bool): seq<Diagnostic> {
    if frames == [] then
      if any then [Diagnostic(UnknownColumn, start, end, "unknown column `" + name + "`")] else []
    else
      var hits := Hits(v, frames[0].bindings, name);
      if |hits| == 0 then Bare(v, frames[1..], name, start, end, any || AnyColumns(frames[0].bindings))
      else if |hits| == 1 then []
      else [Diagnostic(AmbiguousColumn, start, end, AmbiguousMessage(name, hits))]
  }

  function AmbiguousMessage(name: string, hits: seq<string>): string {
    "ambiguous column `" + name + "` (matches " + Join(Dedup(Sort(StrLe, hits)), ", ") + ")"
  }

  lemma AnyColumnsSplit(front: seq<Binding>, b: Binding)
    ensures AnyColumns(front + [b]) <==> AnyColumns(front) || b.columns != []
  {
    if b.columns != [] { assert b in front + [b]; }
    if AnyColumns(front) {
      var c :| c in front && c.columns != [];
      assert c in front + [b];
    }
  }

  lemma HitsStep(v: View, bindings: seq<Binding>, i: nat, name: string, hits: seq<string>)
    requires i < |bindings|
    ensures hits + Hits(v, bindings[i..], name)
         == (if HitCount(v, bindings[i].columns, name) > 0 then hits + [bindings[i].Label()] else hits)
            + Hits(v, bindings[i + 1..], name)
  {
    var rest := Hits(v, bindings[i + 1..], name);
    assert bindings[i..][0] == bindings[i] && bindings[i..][1..] == bindings[i + 1..];
    assert hits + ([bindings[i].Label()] + rest) == (hits + [bindings[i].Label()]) + rest && [] + rest == rest;
  }

  /** One level of `resolve_bare`: the sources that provide the column, and whether any source has columns. */
  method HitsOfLevel(v: View, bindings: seq<Binding>, name: string, known: bool) returns (hits: seq<string>, anyColumns: bool)
    ensures hits == Hits(v, bindings, name)
    ensures anyColumns <==> known || AnyColumns(bindings)
  {
    hits, anyColumns := [], known;
    ghost var all := Hits(v, bindings, name);
    assert bindings[0..] == bindings && [] + all == all;
    for i := 0 to |bindings|
      invariant hits + Hits(v, bindings[i..], name) == all
      invariant anyColumns <==> known || AnyColumns(bindings[..i])
    {
      var b := bindings[i];
      HitsStep(v, bindings, i, name, hits);
      AnyColumnsSplit(bindings[..i], b);
      assert bindings[..i + 1] == bindings[..i] + [b];
      if b.columns != [] {
        anyColumns := true;
        if HitCount(v, b.columns, name) > 0 { hits := hits + [b.Label()]; }
      }
    }
    assert bindings[..|bindings|] == bindings && hits + [] == hits;
  }

  /** `resolve_bare`: the loop over the levels, innermost first. */
  method ResolveBare(v: View, frames: seq<Frame>, name: string, start: nat, end: nat) returns (diags: seq<Diagnostic>)
    ensures diags == Bare(v, frames, name, start, end, false)
  {
    var anyColumns := false;
    assert frames[0..] == frames;
    for i := 0 to |frames|
      invariant Bare(v, frames, name, start, end, false) == Bare(v, frames[i..], name, start, end, anyColumns)
    {
      var hits;
      assert frames[i..][1..] == frames[i + 1..];
      hits, anyColumns := HitsOfLevel(v, frames[i].bindings, name, anyColumns);
      if |hits| == 1 { return []; }
      if |hits| > 1 { return [Diagnostic(AmbiguousColumn, start, end, AmbiguousMessage(name, hits))]; }
    }
    return if anyColumns then [Diagnostic(UnknownColumn, start, end, "unknown column `" + name + "`")] else [];
  }

  ghost predicate Unprovided(v: View, frames: seq<Frame>, name: string) {
    forall i :: 0 <= i < |frames| ==> Hits(v, frames[i].bindings, name) == []
  }

  ghost predicate SomeColumns(frames: seq<Frame>) {
    exists i :: 0 <= i < |frames| && AnyColumns(frames[i].bindings)
  }

  lemma SomeColumnsCons(frames: seq<Frame>)
    requires frames != []
    ensures SomeColumns(frames) <==> AnyColumns(frames[0].bindings) || SomeColumns(frames[1..])
  {
    if SomeColumns(frames) && !AnyColumns(frames[0].bindings) {
      var i :| 0 <= i < |frames| && AnyColumns(frames[i].bindings);
      assert frames[1..][i - 1] == frames[i];
    }
    if SomeColumns(frames[1..]) {
      var i :| 0 <= i < |frames[1..]| && AnyColumns(frames[1..][i].bindings);
      assert frames[i + 1] == frames[1..][i];
    }
  }

  lemma UnprovidedCons(v: View, frames: seq<Frame>, name: string)
    requires frames != []
    ensures Unprovided(v, frames, name) <==> Hits(v, frames[0].bindings, name) == [] && Unprovided(v, frames[1..], name)
  {
    if Hits(v, frames[0].bindings, name) == [] && Unprovided(v, frames[1..], name) {
      forall i | 0 <= i < |frames| ensures Hits(v, frames[i].bindings, name) == [] {
        if i > 0 { assert frames[1..][i - 1] == frames[i]; }
      }
    }
  }

  /** A bare column is reported as unknown exactly when no level provides it and some level has columns. */
  lemma {:induction false} UnknownBare(v: View, frames: seq<Frame>, name: string, start: nat, end: nat, any: bool)
    ensures (exists d :: d in Bare(v, frames, name, start, end, any) && d.kind == UnknownColumn)
       <==> Unprovided(v, frames, name) && (any || SomeColumns(frames))
    decreases |frames|
  {
    if frames == [] {
      var d := Diagnostic(UnknownColumn, start, end, "unknown column `" + name + "`");
      if any { assert d in Bare(v, frames, name, start, end, any); }
    } else {
      SomeColumnsCons(frames);
      UnprovidedCons(v, frames, name);
      if Hits(v, frames[0].bindings, name) == [] {
        UnknownBare(v, frames[1..], name, start, end, any || AnyColumns(frames[0].bindings));
      }
    }
  }

  // --- frames that differ only in the order of their bindings ---

  ghost predicate Unambiguous(v: View, bindings: seq<Binding>) {
    forall i, j, q :: 0 <= i < j < |bindings| ==> !(bindings[i].Answers(v, q) && bindings[j].Answers(v, q))
  }

  ghost predicate Similar(v: View, f: Frame, g: Frame) {
    f == g || (f.ctes == g.ctes && multiset(f.bindings) == multiset(g.bindings) && Unambiguous(v, f.bindings))
  }

  ghost predicate SimilarAll(v: View, fs: seq<Frame>, gs: seq<Frame>) {
    |fs| == |gs| && forall i :: 0 <= i < |fs| ==> Similar(v, fs[i], gs[i])
  }

  lemma {:induction false} HitsSplit(v: View, a: seq<Binding>, b: seq<Binding>, name: string)
    ensures Hits(v, a + b, name) == Hits(v, a, name) + Hits(v, b, name)
  {
    if a == [] {
      assert a + b == b;
    } else {
      assert (a + b)[1..] == a[1..] + b;
      HitsSplit(v, a[1..], b, name);
    }
  }

  lemma HitsAt(v: View, a: seq<Binding>, b: Binding, c: seq<Binding>, name: string)
    ensures multiset(Hits(v, a + ([b] + c), name)) == multiset(Hits(v, [b], name)) + multiset(Hits(v, a + c, name))
  {
    HitsSplit(v, a, [b] + c, name);
    HitsSplit(v, [b], c, name);
    HitsSplit(v, a, c, name);
  }

  lemma {:induction false} HitsPermute(v: View, a: seq<Binding>, b: seq<Binding>, name: string)
    requires multiset(a) == multiset(b)
    ensures multiset(Hits(v, a, name)) == multiset(Hits(v, b, name))
  {
    if a == [] {
      assert |multiset(b)| == 0;
      assert b == [];
    } else {
      var i := RemoveFirst(a, b);
      HitsPermute(v, a[1..], b[..i] + b[i + 1..], name);
      HitsSplit(v, [a[0]], a[1..], name);
      HitsAt(v, b[..i], b[i], b[i + 1..], name);
    }
  }

  /** The answer to a qualifier does not depend on the order of unambiguous bindings. */
  lemma AnswerPermutes(v: View, a: seq<Binding>, b: seq<Binding>, q: string)
    requires multiset(a) == multiset(b) && Unambiguous(v, a)
    ensures FirstAnswer(v, a, q) == FirstAnswer(v, b, q)
  {
    SameMembers(a, b);
    var x, y := FirstAnswer(v, a, q), FirstAnswer(v, b, q);
    if x.Some? && y.Some? {
      var i :| 0 <= i < |a| && a[i] == x.value;
      var j :| 0 <= j < |a| && a[j] == y.value;
    }
  }

  /** Exactly when a qualifier's answer does not depend on the order of the bindings: when all bindings that answer it
      are the same. */
  lemma AnswerOrderFree(v: View, bindings: seq<Binding>, q: string)
    ensures (forall p :: multiset(p) == multiset(bindings) ==> FirstAnswer(v, p, q) == FirstAnswer(v, bindings, q))
       <==> (forall a, b :: a in bindings && b in bindings && a.Answers(v, q) && b.Answers(v, q) ==> a == b)
  {
    if forall a, b :: a in bindings && b in bindings && a.Answers(v, q) && b.Answers(v, q) ==> a == b {
      forall p | multiset(p) == multiset(bindings) ensures FirstAnswer(v, p, q) == FirstAnswer(v, bindings, q) {
        SameMembers(p, bindings);
      }
    } else {
      var a, b :| a in bindings && b in bindings && a.Answers(v, q) && b.Answers(v, q) && a != b;
      var p := MovedToFront(v, bindings, a, q);
      var r := MovedToFront(v, bindings, b, q);
      assert multiset(p) == multiset(bindings) == multiset(r) && FirstAnswer(v, p, q) != FirstAnswer(v, r, q);
    }
  }

  lemma MovedToFront(v: View, bindings: seq<Binding>, b: Binding, q: string) returns (p: seq<Binding>)
    requires b in bindings && b.Answers(v, q)
    ensures multiset(p) == multiset(bindings) && FirstAnswer(v, p, q) == Some(b)
  {
    var i :| 0 <= i < |bindings| && bindings[i] == b;
    p := [b] + (bindings[..i] + bindings[i + 1..]);
    assert bindings == bindings[..i] + [b] + bindings[i + 1..];
  }

  lemma {:induction false} LookupSimilar(v: View, fs: seq<Frame>, gs: seq<Frame>, q: string)
    requires SimilarAll(v, fs, gs)
    ensures Lookup(v, fs, q) == Lookup(v, gs, q)
  {
    if fs != [] {
      assert Similar(v, fs[0], gs[0]);
      if fs[0] != gs[0] { AnswerPermutes(v, fs[0].bindings, gs[0].bindings, q); }
      LookupSimilar(v, fs[1..], gs[1..], q);
    }
  }

  lemma SortedSame(a: seq<string>, b: seq<string>)
    requires multiset(a) == multiset(b)
    ensures Sort(StrLe, a) == Sort(StrLe, b)
  {
    StrOrder();
    SortSorts(StrLe, a);
    SortSorts(StrLe, b);
    SortPermutes(StrLe, a);
    SortPermutes(StrLe, b);
    SortedUnique(StrLe, Sort(StrLe, a), Sort(StrLe, b));
  }

  lemma {:induction false} BareSimilar(v: View, fs: seq<Frame>, gs: seq<Frame>, name: string, start: nat, end: nat, any: bool)
    requires SimilarAll(v, fs, gs)
    ensures Bare(v, fs, name, start, end, any) == Bare(v, gs, name, start, end, any)
    decreases |fs|
  {
    if fs != [] {
      assert Similar(v, fs[0], gs[0]);
      var a, b := fs[0].bindings, gs[0].bindings;
      HitsPermute(v, a, b, name);
      assert |Hits(v, a, name)| == |multiset(Hits(v, a, name))| == |Hits(v, b, name)|;
      SortedSame(Hits(v, a, name), Hits(v, b, name));
      SameMembers(a, b);
      BareSimilar(v, fs[1..], gs[1..], name, start, end, any || AnyColumns(a));
    }
  }
}
