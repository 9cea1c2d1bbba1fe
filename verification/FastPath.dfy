/**
 Completion's shortcut: after an edit only the statements that can matter at the cursor are analyzed
 (`tempr_intel/src/semantic.rs`), and what completion reads of the result (`completion.rs`, `analysis.rs`) is the same
 as from the full analysis.
 */
module FastPath {
  import opened Scopes
  import opened Sorting
  import opened SyntaxTree
  import opened Utf8
  import opened Walker
  import opened Wrappers

  // --- the two analyses ---

  /** `regions`: the root's children without separators and childless tokens. */
  function Regions(root: Node): seq<Node> {
    Filter((n: Node) => !n.kind.Separator? && n.kids != [], root.kids)
  }

  function Statements(regions: seq<Node>): seq<Node> {
    Filter((n: Node) => !n.kind.ErrorNode?, regions)
  }

  /** A statement's scope; it spans the statement. */
  function TopScope(v: View, n: Node): (s: Scope)
    ensures s.start == n.start && s.end == n.end
  {
    WalkRegion(v, n, []).0
  }

  function ScopesOf(v: View, statements: seq<Node>): (r: seq<Scope>)
    ensures |r| == |statements|
    ensures forall i :: 0 <= i < |r| ==> r[i].start == statements[i].start && r[i].end == statements[i].end
  {
    seq(|statements|, i requires 0 <= i < |statements| => TopScope(v, statements[i]))
  }

  /** `DiagnosticKind::sort_key`: the one warning sorts last. */
  function SortKey(k: DiagnosticKind): nat {
    match k
    case SyntaxError => 0
    case UnknownRelation => 1
    case UnknownColumn => 2
    case AmbiguousColumn => 3
  }

  /** Syntax errors before unknown relations, those before unknown columns, and the warning last. */
  predicate Before(a: DiagnosticKind, b: DiagnosticKind) {
    || (a.SyntaxError? && !b.SyntaxError?)
    || (a.UnknownRelation? && (b.UnknownColumn? || b.AmbiguousColumn?))
    || (a.UnknownColumn? && b.AmbiguousColumn?)
  }

  function DiagnosticLe(): (Diagnostic, Diagnostic) -> bool {
    (a: Diagnostic, b: Diagnostic) => a.start < b.start || (a.start == b.start && SortKey(a.kind) <= SortKey(b.kind))
  }

  function ReportsOf(v: View, regions: seq<Node>): seq<Diagnostic> {
    if regions == [] then [] else ReportsOf(v, regions[..|regions| - 1]) + WalkRegion(v, regions[|regions| - 1], []).1
  }

  lemma FilterStep(p: Node -> bool, s: seq<Node>, i: nat)
    requires i < |s|
    ensures Filter(p, s[..i + 1]) == Filter(p, s[..i]) + (if p(s[i]) then [s[i]] else [])
  {
    assert s[..i + 1] == s[..i] + [s[i]];
    FilterConcat(p, s[..i], [s[i]]);
    assert [s[i]][1..] == [];
  }

  /** `analyze_now`: every statement's scope, and the diagnostics of all regions by position and severity. */
  method AnalyzeNow(v: View, root: Node) returns (scopes: seq<Scope>, diagnostics: seq<Diagnostic>)
    ensures scopes == ScopesOf(v, Statements(Regions(root)))
    ensures multiset(diagnostics) == multiset(ReportsOf(v, Regions(root)))
    ensures Sorted(DiagnosticLe(), diagnostics)
    ensures forall i, j :: 0 <= i < j < |diagnostics| ==>
              diagnostics[i].start < diagnostics[j].start ||
              (diagnostics[i].start == diagnostics[j].start && !Before(diagnostics[j].kind, diagnostics[i].kind))
  {
    var regions := Regions(root);
    scopes := WalkStatements(v, regions);
    var diags := ReportRegions(v, regions);
    SortSorts(DiagnosticLe(), diags);
    SortPermutes(DiagnosticLe(), diags);
    diagnostics := Sort(DiagnosticLe(), diags);
    InOrder(diagnostics);
  }

  lemma InOrder(diags: seq<Diagnostic>)
    requires Sorted(DiagnosticLe(), diags)
    ensures forall i, j :: 0 <= i < j < |diags| ==>
              diags[i].start < diags[j].start || (diags[i].start == diags[j].start && !Before(diags[j].kind, diags[i].kind))
  {
    forall i, j | 0 <= i < j < |diags|
      ensures diags[i].start < diags[j].start || (diags[i].start == diags[j].start && !Before(diags[j].kind, diags[i].kind))
    {
      assert DiagnosticLe()(diags[i], diags[j]);
    }
  }

  /** The scopes the loop over the regions pushes: a broken top-level fragment is reported but is no statement. */
  method WalkStatements(v: View, regions: seq<Node>) returns (scopes: seq<Scope>)
    ensures scopes == ScopesOf(v, Statements(regions))
  {
    scopes := [];
    assert regions[..|regions|] == regions;
    for i := 0 to |regions|
      invariant scopes == ScopesOf(v, Statements(regions[..i]))
    {
      FilterStep((n: Node) => !n.kind.ErrorNode?, regions, i);
      if !regions[i].kind.ErrorNode? { scopes := scopes + [TopScope(v, regions[i])]; }
    }
  }

  /** The diagnostics the same loop pushes. */
  method ReportRegions(v: View, regions: seq<Node>) returns (diags: seq<Diagnostic>)
    ensures diags == ReportsOf(v, regions)
  {
    diags := [];
    assert regions[..|regions|] == regions;
    for i := 0 to |regions|
      invariant diags == ReportsOf(v, regions[..i])
    {
      assert regions[..i + 1][..i] == regions[..i];
      diags := diags + if regions[i].kind.ErrorNode? then [SyntaxErrorAt(regions[i])] else WalkRegion(v, regions[i], []).1;
    }
  }

  /** `rposition`: the last statement that starts at or before the offset. */
  function Fallback(statements: seq<Node>, offset: nat): (r: Option<nat>)
    ensures r.Some? ==> r.value < |statements| && statements[r.value].start <= offset
    ensures forall i :: (if r.Some? then r.value + 1 else 0) <= i < |statements| ==> statements[i].start > offset
  {
    if statements == [] then None
    else if statements[|statements| - 1].start <= offset then Some(|statements| - 1)
    else Fallback(statements[..|statements| - 1], offset)
  }

  predicate Wanted(statements: seq<Node>, i: nat, offset: nat, fallback: Option<nat>)
    requires i < |statements|
  {
    statements[i].start <= offset <= statements[i].end || fallback == Some(i)
  }

  /** The scopes of the wanted statements among the first `count`, in order. */
  function Kept(statements: seq<Node>, scopes: seq<Scope>, offset: nat, fallback: Option<nat>, count: nat): seq<Scope>
    requires count <= |statements| == |scopes|
  {
    if count == 0 then []
    else
      Kept(statements, scopes, offset, fallback, count - 1)
      + (if Wanted(statements, count - 1, offset, fallback) then [scopes[count - 1]] else [])
  }

  function Fast(v: View, statements: seq<Node>, offset: nat): seq<Scope> {
    Kept(statements, ScopesOf(v, statements), offset, Fallback(statements, offset), |statements|)
  }

  /** `analyze_region_now`: only the statements that contain the offset, and the one completion falls back to. */
  method AnalyzeRegionNow(v: View, root: Node, offset: nat) returns (scopes: seq<Scope>)
    ensures scopes == Fast(v, Statements(Regions(root)), offset)
  {
    var statements := Statements(Regions(root));
    scopes := WalkWanted(v, statements, offset, Fallback(statements, offset));
  }

  lemma KeptNext(v: View, statements: seq<Node>, offset: nat, fallback: Option<nat>, i: nat)
    requires i < |statements|
    ensures
      var scopes := ScopesOf(v, statements);
      Kept(statements, scopes, offset, fallback, i + 1)
      == Kept(statements, scopes, offset, fallback, i)
         + if Wanted(statements, i, offset, fallback) then [TopScope(v, statements[i])] else []
  {
  }

  /** The loop over the statements. */
  method WalkWanted(v: View, statements: seq<Node>, offset: nat, fallback: Option<nat>) returns (scopes: seq<Scope>)
    ensures scopes == Kept(statements, ScopesOf(v, statements), offset, fallback, |statements|)
  {
    scopes := [];
    for i := 0 to |statements|
      invariant scopes == Kept(statements, ScopesOf(v, statements), offset, fallback, i)
    {
      KeptNext(v, statements, offset, fallback, i);
      var contains := statements[i].start <= offset && offset <= statements[i].end;
      if contains || fallback == Some(i) {
        scopes := scopes + [TopScope(v, statements[i])];
      }
    }
  }

  // --- what completion reads ---

  predicate Contains(s: Scope, offset: nat) { s.start <= offset <= s.end }

  function LastContaining(scopes: seq<Scope>, offset: nat): (r: Option<Scope>)
    ensures r.Some? ==> r.value in scopes && Contains(r.value, offset)
    ensures r.None? ==> forall s :: s in scopes ==> !Contains(s, offset)
  {
    if scopes == [] then None
    else if Contains(scopes[|scopes| - 1], offset) then Some(scopes[|scopes| - 1])
    else LastContaining(scopes[..|scopes| - 1], offset)
  }

  function LastBefore(scopes: seq<Scope>, offset: nat): (r: Option<Scope>)
    ensures r.Some? ==> r.value in scopes && r.value.start <= offset
    ensures r.None? ==> forall s :: s in scopes ==> s.start > offset
  {
    if scopes == [] then None
    else if scopes[|scopes| - 1].start <= offset then Some(scopes[|scopes| - 1])
    else LastBefore(scopes[..|scopes| - 1], offset)
  }

  /** `scope_chain`, outermost first. */
  function ScopeChain(scopes: seq<Scope>, offset: nat): seq<Scope>
    decreases scopes
  {
    match LastContaining(scopes, offset)
    case None => []
    case Some(s) => [s] + ScopeChain(s.children, offset)
  }

  /** The chain goes down the tree through containing scopes and stops only where no child contains the offset. */
  lemma {:induction false} ChainDescends(scopes: seq<Scope>, offset: nat)
    ensures
      var chain := ScopeChain(scopes, offset);
      && (forall i :: 0 <= i < |chain| ==> Contains(chain[i], offset))
      && (chain == [] <==> forall s :: s in scopes ==> !Contains(s, offset))
      && (chain != [] ==> chain[0] in scopes)
      && (forall i :: 0 < i < |chain| ==> chain[i] in chain[i - 1].children)
      && (chain != [] ==> forall s :: s in chain[|chain| - 1].children ==> !Contains(s, offset))
    decreases scopes
  {
    var top := LastContaining(scopes, offset);
    if top.Some? {
      ChainDescends(top.value.children, offset);
      var rest := ScopeChain(top.value.children, offset);
      assert ScopeChain(scopes, offset) == [top.value] + rest;
    }
  }

  function Reverse(s: seq<Scope>): seq<Scope> {
    if s == [] then [] else Reverse(s[1..]) + [s[0]]
  }

  predicate BindsNothing(s: Scope) { s.bindings == [] && s.ctes == [] }

  /** `Buffer::slice`: an error unless both ends are in order, in range and on character boundaries. */
  function Slice(text: Text, start: nat, end: nat): Option<Text> {
    if start <= end <= |text| && Boundary(text, start) && Boundary(text, end) then Some(text[start..end]) else None
  }

  const SEMICOLON: byte := 0x3B

  /** `trails_a_statement`. */
  predicate TrailsAStatement(text: Text, end: nat, offset: nat) {
    var from := if end > offset then (if offset > |text| then |text| else offset) else if end > |text| then |text| else end;
    match Slice(text, from, offset)
    case None => true
    case Some(between) => SEMICOLON in between
  }

  /** `frame_chain`: innermost first, falling back to the statement the cursor trails. */
  function FrameChain(scopes: seq<Scope>, text: Text, offset: nat): seq<Scope> {
    var chain := Reverse(ScopeChain(scopes, offset));
    if exists s :: s in chain && !BindsNothing(s) then chain
    else
      match LastBefore(scopes, offset)
      case Some(s) => if TrailsAStatement(text, s.end, offset) then chain else [s]
      case None => chain
  }

  function StatementStart(scopes: seq<Scope>, offset: nat): nat {
    match LastBefore(scopes, offset)
    case Some(s) => s.start
    case None => 0
  }

  /** `complete_with`: everything after the scopes are known is `finish` of the frames, the text before the cursor
      and where it starts. */
  function CompleteWith<T>(scopes: seq<Scope>, text: Text, offset: nat, finish: (seq<Scope>, Text, nat) -> T): T {
    var start := StatementStart(scopes, offset);
    var before := Slice(text, start, offset);
    finish(FrameChain(scopes, text, offset), if before.Some? then before.value else [], start)
  }

  // --- the shortcut agrees ---

  ghost predicate Spans(statements: seq<Node>, scopes: seq<Scope>) {
    && |scopes| == |statements|
    && forall i :: 0 <= i < |scopes| ==> scopes[i].start == statements[i].start && scopes[i].end == statements[i].end
  }

  lemma KeptStep(statements: seq<Node>, scopes: seq<Scope>, offset: nat, fallback: Option<nat>, n: nat)
    requires 0 < n <= |statements| == |scopes|
    ensures
      var kept := Kept(statements, scopes, offset, fallback, n - 1);
      Kept(statements, scopes, offset, fallback, n)
      == if Wanted(statements, n - 1, offset, fallback) then kept + [scopes[n - 1]] else kept
    ensures scopes[..n] == scopes[..n - 1] + [scopes[n - 1]]
  {
  }

  lemma Appended(s: seq<Scope>, last: Scope, offset: nat)
    ensures LastContaining(s + [last], offset) == if Contains(last, offset) then Some(last) else LastContaining(s, offset)
    ensures LastBefore(s + [last], offset) == if last.start <= offset then Some(last) else LastBefore(s, offset)
  {
    assert (s + [last])[..|s|] == s;
  }

  lemma {:induction false} LastContainingKept(statements: seq<Node>, scopes: seq<Scope>, offset: nat, fallback: Option<nat>, n: nat)
    requires Spans(statements, scopes) && n <= |statements|
    ensures LastContaining(Kept(statements, scopes, offset, fallback, n), offset) == LastContaining(scopes[..n], offset)
  {
    if n > 0 {
      LastContainingKept(statements, scopes, offset, fallback, n - 1);
      var kept, last := Kept(statements, scopes, offset, fallback, n - 1), scopes[n - 1];
      KeptStep(statements, scopes, offset, fallback, n);
      Appended(scopes[..n - 1], last, offset);
      Appended(kept, last, offset);
    }
  }

  ghost predicate StartAfter(statements: seq<Node>, from: nat, offset: nat) {
    forall i :: from <= i < |statements| ==> statements[i].start > offset
  }

  lemma {:induction false} LastBeforeKept(statements: seq<Node>, scopes: seq<Scope>, offset: nat, fallback: Option<nat>, n: nat)
    requires Spans(statements, scopes) && n <= |statements| && StartAfter(statements, n, offset)
    requires StartAfter(statements, if fallback.Some? then fallback.value + 1 else 0, offset)
    requires fallback.Some? ==> fallback.value < |statements| && statements[fallback.value].start <= offset
    ensures LastBefore(Kept(statements, scopes, offset, fallback, n), offset) == LastBefore(scopes[..n], offset)
  {
    if n > 0 {
      KeptStep(statements, scopes, offset, fallback, n);
      if statements[n - 1].start > offset {
        LastBeforeKept(statements, scopes, offset, fallback, n - 1);
        Appended(scopes[..n - 1], scopes[n - 1], offset);
      } else {
        assert fallback == Some(n - 1);
        Appended(scopes[..n - 1], scopes[n - 1], offset);
        Appended(Kept(statements, scopes, offset, fallback, n - 1), scopes[n - 1], offset);
      }
    }
  }

  /** For any tree, text and offset, and whatever is done with them: the shortcut's completion is the full one's. */
  lemma RegionCompletionIsFull<T>(v: View, root: Node, text: Text, offset: nat, finish: (seq<Scope>, Text, nat) -> T)
    ensures
      var statements := Statements(Regions(root));
      && var full, fast := ScopesOf(v, statements), Fast(v, statements, offset);
      && ScopeChain(fast, offset) == ScopeChain(full, offset)
      && StatementStart(fast, offset) == StatementStart(full, offset)
      && FrameChain(fast, text, offset) == FrameChain(full, text, offset)
      && CompleteWith(fast, text, offset, finish) == CompleteWith(full, text, offset, finish)
  {
    var statements := Statements(Regions(root));
    FastAgrees(v, statements, offset);
  }

  lemma FastAgrees(v: View, statements: seq<Node>, offset: nat)
    ensures LastContaining(Fast(v, statements, offset), offset) == LastContaining(ScopesOf(v, statements), offset)
    ensures LastBefore(Fast(v, statements, offset), offset) == LastBefore(ScopesOf(v, statements), offset)
  {
    var scopes, fallback := ScopesOf(v, statements), Fallback(statements, offset);
    assert scopes[..|scopes|] == scopes;
    LastContainingKept(statements, scopes, offset, fallback, |statements|);
    LastBeforeKept(statements, scopes, offset, fallback, |statements|);
  }

  /** The statement a fallback needs is kept even when the cursor is outside it: without it the bindings are lost. */
  lemma FallbackIsNeeded(s: Scope, text: Text, offset: nat)
    requires s.end < offset <= |text| && s.start <= s.end
    requires Boundary(text, s.end) && Boundary(text, offset) && SEMICOLON !in text[s.end..offset]
    ensures FrameChain([s], text, offset) == [s]
    ensures FrameChain([], text, offset) == []
  {
    assert LastContaining([s][..0], offset) == None;
    assert ScopeChain([s], offset) == [];
  }

  // --- what the frames are ---

  /** The last of the list that contains the offset. */
  ghost predicate LastThere(scopes: seq<Scope>, s: Scope, offset: nat) {
    exists k :: 0 <= k < |scopes| && scopes[k] == s && s.start <= offset <= s.end
             && forall m :: k < m < |scopes| ==> !(scopes[m].start <= offset <= scopes[m].end)
  }

  /** From the innermost scope at the offset outwards: each is the last containing child of the next, the last one the last
      containing scope of all, and the first has no child there. */
  ghost predicate InnermostFirst(scopes: seq<Scope>, f: seq<Scope>, offset: nat) {
    && (forall i :: 0 <= i < |f| - 1 ==> LastThere(f[i + 1].children, f[i], offset))
    && (if f == [] then forall s :: s in scopes ==> !(s.start <= offset <= s.end) else
        && LastThere(scopes, f[|f| - 1], offset)
        && forall s :: s in f[0].children ==> !(s.start <= offset <= s.end))
  }

  lemma {:induction false} LastContainingIsLast(scopes: seq<Scope>, offset: nat)
    ensures
      var r := LastContaining(scopes, offset);
      if r.Some? then LastThere(scopes, r.value, offset) else forall s :: s in scopes ==> !(s.start <= offset <= s.end)
  {
    if scopes != [] {
      var n := |scopes| - 1;
      if Contains(scopes[n], offset) {
        assert scopes[n].start <= offset <= scopes[n].end;
      } else {
        LastContainingIsLast(scopes[..n], offset);
        assert scopes == scopes[..n] + [scopes[n]];
        var r := LastContaining(scopes[..n], offset);
        if r.Some? {
          var k :| 0 <= k < n && scopes[..n][k] == r.value && r.value.start <= offset <= r.value.end
                && forall m :: k < m < n ==> !(scopes[..n][m].start <= offset <= scopes[..n][m].end);
          assert scopes[k] == r.value;
          forall m | k < m < |scopes| ensures !(scopes[m].start <= offset <= scopes[m].end) {
            if m < n { assert scopes[m] == scopes[..n][m]; }
          }
        }
      }
    }
  }

  lemma {:induction false} ChainIsInnermostFirst(scopes: seq<Scope>, offset: nat)
    ensures InnermostFirst(scopes, Reverse(ScopeChain(scopes, offset)), offset)
    decreases scopes
  {
    var top := LastContaining(scopes, offset);
    LastContainingIsLast(scopes, offset);
    if top.Some? {
      var rest := ScopeChain(top.value.children, offset);
      ChainIsInnermostFirst(top.value.children, offset);
      assert ([top.value] + rest)[1..] == rest;
      var f, inner := Reverse(ScopeChain(scopes, offset)), Reverse(rest);
      assert f == inner + [top.value];
      forall i | 0 <= i < |f| - 1 ensures LastThere(f[i + 1].children, f[i], offset) {
        assert f[i] == inner[i];
        assert i + 1 < |inner| ==> f[i + 1] == inner[i + 1];
      }
    }
  }

  lemma OneLast(scopes: seq<Scope>, s: Scope, t: Scope, offset: nat)
    requires LastThere(scopes, s, offset) && LastThere(scopes, t, offset)
    ensures s == t
  {
  }

  /** There is one such path. */
  lemma {:induction false} OnePath(scopes: seq<Scope>, f: seq<Scope>, g: seq<Scope>, offset: nat)
    requires InnermostFirst(scopes, f, offset) && InnermostFirst(scopes, g, offset)
    ensures f == g
    decreases |f|
  {
    if f != [] && g != [] {
      var top := f[|f| - 1];
      OneLast(scopes, top, g[|g| - 1], offset);
      Outermost(scopes, f, offset);
      Outermost(scopes, g, offset);
      OnePath(top.children, f[..|f| - 1], g[..|g| - 1], offset);
      assert f == f[..|f| - 1] + [top] && g == g[..|g| - 1] + [top];
    }
  }

  lemma Outermost(scopes: seq<Scope>, f: seq<Scope>, offset: nat)
    requires f != [] && InnermostFirst(scopes, f, offset)
    ensures InnermostFirst(f[|f| - 1].children, f[..|f| - 1], offset)
  {
    var rest := f[..|f| - 1];
    forall i | 0 <= i < |rest| - 1 ensures LastThere(rest[i + 1].children, rest[i], offset) {
      assert rest[i] == f[i] && rest[i + 1] == f[i + 1];
    }
    if rest != [] { assert LastThere(f[|rest| - 1 + 1].children, f[|rest| - 1], offset); }
  }

  /** The last scope that starts at or before the offset. */
  ghost predicate LastStarted(scopes: seq<Scope>, k: nat, offset: nat) {
    k < |scopes| && scopes[k].start <= offset && forall m :: k < m < |scopes| ==> scopes[m].start > offset
  }

  lemma {:induction false} LastBeforeIs(scopes: seq<Scope>, offset: nat)
    ensures forall k: nat :: LastStarted(scopes, k, offset) ==> LastBefore(scopes, offset) == Some(scopes[k])
    ensures LastBefore(scopes, offset).None? <==> forall k: nat :: !LastStarted(scopes, k, offset)
  {
    if scopes != [] {
      var n := |scopes| - 1;
      if scopes[n].start <= offset {
        assert LastStarted(scopes, n, offset);
      } else {
        LastBeforeIs(scopes[..n], offset);
        forall k: nat ensures LastStarted(scopes, k, offset) <==> LastStarted(scopes[..n], k, offset) {
          if k < n { assert forall m :: k < m < n ==> scopes[..n][m] == scopes[m]; }
        }
      }
    }
  }

  /** No semicolon between the two places, which are places of the text. */
  predicate Unseparated(text: Text, end: nat, offset: nat) {
    var from := if end < offset then end else offset;
    && offset <= |text| && Boundary(text, from) && Boundary(text, offset)
    && forall i :: from <= i < offset ==> text[i] != 0x3B
  }

  lemma TrailsIs(text: Text, end: nat, offset: nat)
    ensures TrailsAStatement(text, end, offset) <==> !Unseparated(text, end, offset)
  {
    var from := if end < offset then end else offset;
    if offset <= |text| {
      var between := text[from..offset];
      assert forall i :: from <= i < offset ==> text[i] == between[i - from];
      assert forall i :: 0 <= i < |between| ==> between[i] == text[i + from];
    }
  }

  /**
   The frames completion reads.  They are the scopes at the offset, innermost first, when one of them binds something;
   otherwise the last statement that starts at or before the offset, exactly when no semicolon separates the two.
   */
  lemma FramesAre(scopes: seq<Scope>, text: Text, offset: nat, path: seq<Scope>)
    requires InnermostFirst(scopes, path, offset)
    ensures (exists s :: s in path && (s.bindings != [] || s.ctes != [])) ==> FrameChain(scopes, text, offset) == path
    ensures (forall s :: s in path ==> s.bindings == [] && s.ctes == []) ==>
              && (forall k: nat :: LastStarted(scopes, k, offset) ==>
                    FrameChain(scopes, text, offset) == if Unseparated(text, scopes[k].end, offset) then [scopes[k]] else path)
              && ((forall k: nat :: !LastStarted(scopes, k, offset)) ==> FrameChain(scopes, text, offset) == path)
  {
    ChainIsInnermostFirst(scopes, offset);
    OnePath(scopes, path, Reverse(ScopeChain(scopes, offset)), offset);
    LastBeforeIs(scopes, offset);
    forall k: nat | LastStarted(scopes, k, offset) ensures LastBefore(scopes, offset) == Some(scopes[k]) {
      TrailsIs(text, scopes[k].end, offset);
    }
    var last := LastBefore(scopes, offset);
    if last.Some? { TrailsIs(text, last.value.end, offset); }
  }

  /** There always is such a path. */
  lemma PathExists(scopes: seq<Scope>, offset: nat) returns (path: seq<Scope>)
    ensures InnermostFirst(scopes, path, offset)
  {
    path := Reverse(ScopeChain(scopes, offset));
    ChainIsInnermostFirst(scopes, offset);
  }

  /** Completion reads the text from the last statement that starts at or before the offset, or from the first byte, up to
      the offset. */
  lemma CompletionReads<T>(scopes: seq<Scope>, text: Text, offset: nat, finish: (seq<Scope>, Text, nat) -> T)
    requires offset <= |text| && Boundary(text, offset)
    ensures forall k: nat :: LastStarted(scopes, k, offset) && Boundary(text, scopes[k].start) ==>
              CompleteWith(scopes, text, offset, finish)
              == finish(FrameChain(scopes, text, offset), text[scopes[k].start..offset], scopes[k].start)
    ensures (forall k: nat :: !LastStarted(scopes, k, offset)) ==>
              CompleteWith(scopes, text, offset, finish) == finish(FrameChain(scopes, text, offset), text[..offset], 0)
  {
    LastBeforeIs(scopes, offset);
    assert text[0..offset] == text[..offset];
  }

  // --- which statements ---

  /** The statements of a document: the root's children but separators, childless tokens and broken fragments, in order. */
  lemma {:induction false} StatementsAre(ns: seq<Node>)
    ensures
      var p := (n: Node) => !n.kind.Separator? && n.kids != [];
      var q := (n: Node) => !n.kind.Separator? && n.kids != [] && !n.kind.ErrorNode?;
      Statements(Filter(p, ns)) == Filter(q, ns)
  {
    if ns != [] {
      StatementsAre(ns[1..]);
      var p := (n: Node) => !n.kind.Separator? && n.kids != [];
      if p(ns[0]) { assert Filter(p, ns)[1..] == Filter(p, ns[1..]); } else { assert Filter(p, ns) == Filter(p, ns[1..]); }
    }
  }

  /** The statement the cursor is in, or trails. */
  ghost predicate Near(statements: seq<Node>, i: nat, offset: nat)
    requires i < |statements|
  {
    || statements[i].start <= offset <= statements[i].end
    || (statements[i].start <= offset && forall j :: i < j < |statements| ==> statements[j].start > offset)
  }

  lemma WantedIsNear(statements: seq<Node>, i: nat, offset: nat)
    requires i < |statements|
    ensures Wanted(statements, i, offset, Fallback(statements, offset)) <==> Near(statements, i, offset)
  {
  }

  /** `picked` are the statements near the cursor among the first `count`, in order, and `kept` their scopes. */
  ghost predicate PicksNear(statements: seq<Node>, scopes: seq<Scope>, offset: nat, count: nat, kept: seq<Scope>, picked: seq<nat>)
    requires count <= |statements| == |scopes|
  {
    && |kept| == |picked|
    && (forall k :: 0 <= k < |picked| ==> picked[k] < count && Near(statements, picked[k], offset) && kept[k] == scopes[picked[k]])
    && (forall i: nat :: i < count && Near(statements, i, offset) ==> i in picked)
    && forall j, k :: 0 <= j < k < |picked| ==> picked[j] < picked[k]
  }

  lemma PickNext(statements: seq<Node>, scopes: seq<Scope>, offset: nat, n: nat, kept: seq<Scope>, picked: seq<nat>)
    requires n < |statements| == |scopes| && PicksNear(statements, scopes, offset, n, kept, picked)
    ensures Near(statements, n, offset) ==> PicksNear(statements, scopes, offset, n + 1, kept + [scopes[n]], picked + [n])
    ensures !Near(statements, n, offset) ==> PicksNear(statements, scopes, offset, n + 1, kept, picked)
  {
  }

  lemma {:induction false} KeptIsNear(statements: seq<Node>, scopes: seq<Scope>, offset: nat, count: nat) returns (picked: seq<nat>)
    requires count <= |statements| == |scopes|
    ensures PicksNear(statements, scopes, offset, count, Kept(statements, scopes, offset, Fallback(statements, offset), count), picked)
  {
    if count == 0 {
      picked := [];
    } else {
      picked := KeptIsNear(statements, scopes, offset, count - 1);
      PickNext(statements, scopes, offset, count - 1,
               Kept(statements, scopes, offset, Fallback(statements, offset), count - 1), picked);
      WantedIsNear(statements, count - 1, offset);
      KeptStep(statements, scopes, offset, Fallback(statements, offset), count);
      if Near(statements, count - 1, offset) { picked := picked + [count - 1]; }
    }
  }

  /** The shortcut analyzes exactly the statements near the cursor, in order. */
  lemma FastIsNear(v: View, statements: seq<Node>, offset: nat) returns (picked: seq<nat>)
    ensures PicksNear(statements, ScopesOf(v, statements), offset, |statements|, Fast(v, statements, offset), picked)
  {
    picked := KeptIsNear(statements, ScopesOf(v, statements), offset, |statements|);
  }
}
