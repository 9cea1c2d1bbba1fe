/**
 The names a query gives its columns: identifiers in source order, the select list, and the head of a CTE
 (`collect_identifier_ranges`, `find_select`, `select_list_columns` and `cte_binding` in `tempr_intel/src/semantic.rs`).
 */
module OutputColumns {
  import opened Identifiers
  import opened Scopes
  import opened SyntaxTree
  import opened Walker
  import opened WalkerBindings
  import opened WalkerRanges
  import opened Wrappers

  // --- identifiers ---

  /** An identifier below the nodes, outside nested subqueries and CTEs. */
  predicate IdentifierBelow(m: Node, ns: seq<Node>)
    decreases SizeAll(ns)
  {
    ns != [] &&
    (assert Size(ns[0]) > SizeAll(ns[0].kids);
     || (if ns[0].kind.Identifier? then m == ns[0]
         else !ns[0].kind.Subquery? && !ns[0].kind.Cte? && IdentifierBelow(m, ns[0].kids))
     || IdentifierBelow(m, ns[1..]))
  }

  lemma {:induction false} IdentifiersExact(ns: seq<Node>, m: Node)
    ensures m in IdentifiersIn(ns) <==> IdentifierBelow(m, ns)
    decreases SizeAll(ns)
  {
    if ns != [] {
      assert Size(ns[0]) > SizeAll(ns[0].kids);
      IdentifiersExact(ns[0].kids, m);
      IdentifiersExact(ns[1..], m);
    }
  }

  ghost predicate InOrder(ids: seq<Node>, lo: nat, hi: nat) {
    && (forall i :: 0 <= i < |ids| ==> lo <= ids[i].start <= ids[i].end <= hi)
    && forall i, j :: 0 <= i < j < |ids| ==> ids[i].end <= ids[j].start
  }

  /** In a tree whose nodes are in order, identifiers come in the order of the text. */
  lemma {:induction false} IdentifiersInOrder(ns: seq<Node>, lo: nat, hi: nat)
    requires PlacedIn(ns, lo, hi)
    ensures InOrder(IdentifiersIn(ns), lo, hi)
    decreases SizeAll(ns)
  {
    if ns != [] {
      assert Size(ns[0]) > SizeAll(ns[0].kids);
      IdentifiersInOrder(ns[0].kids, ns[0].start, ns[0].end);
      IdentifiersInOrder(ns[1..], ns[0].end, hi);
      FirstThenRest(ns);
      OrderJoins(IdentifiersAt(ns[0]), IdentifiersIn(ns[1..]), lo, ns[0].start, ns[0].end, hi);
    }
  }

  function IdentifiersAt(n: Node): seq<Node> {
    if n.kind.Identifier? then [n] else if n.kind.Subquery? || n.kind.Cte? then [] else IdentifiersIn(n.kids)
  }

  lemma FirstThenRest(ns: seq<Node>)
    requires ns != []
    ensures IdentifiersIn(ns) == IdentifiersAt(ns[0]) + IdentifiersIn(ns[1..])
  {
  }

  lemma OrderJoins(a: seq<Node>, b: seq<Node>, lo: nat, start: nat, end: nat, hi: nat)
    requires InOrder(a, start, end) && InOrder(b, end, hi) && lo <= start <= end <= hi
    ensures InOrder(a + b, lo, hi)
  {
  }

  // --- the top select ---

  predicate Wraps(k: Kind) { k.Statement? || k.SetOperation? || k.Subquery? }

  /** The selects a list of siblings leads to through statements, set operations and subqueries, in document order. */
  function SelectsAmong(ns: seq<Node>): seq<Node>
    decreases SizeAll(ns)
  {
    if ns == [] then []
    else
      assert Size(ns[0]) > SizeAll(ns[0].kids);
      (if ns[0].kind.Select? then [ns[0]] else if Wraps(ns[0].kind) then SelectsAmong(ns[0].kids) else []) + SelectsAmong(ns[1..])
  }

  function SelectsOf(n: Node): seq<Node> { if n.kind.Select? then [n] else SelectsAmong(n.kids) }

  lemma {:induction false} FirstSelectAmong(ns: seq<Node>)
    ensures FindSelectIn(ns) == First(SelectsAmong(ns))
    decreases SizeAll(ns)
  {
    if ns != [] {
      assert Size(ns[0]) > SizeAll(ns[0].kids);
      FirstSelectAmong(ns[0].kids);
      FirstSelectAmong(ns[1..]);
    }
  }

  lemma FirstSelect(n: Node)
    ensures FindSelect(n) == First(SelectsOf(n))
  {
    FirstSelectAmong(n.kids);
  }

  // --- the select list ---

  /** A term that is a plain field names a column: its last identifier. */
  predicate NamesColumn(t: Node) {
    t.kind.Term? && IdentifiersIn(t.kids) != [] && exists m :: m in t.kids && m.kind == Field
  }

  function LastIdentifier(t: Node): string
    requires IdentifiersIn(t.kids) != []
  {
    IdentifiersIn(t.kids)[|IdentifiersIn(t.kids)| - 1].text
  }

  /** The columns of the terms among the nodes, in order. */
  function ColumnsAmong(ns: seq<Node>): seq<ColumnRef> {
    if ns == [] then []
    else (if NamesColumn(ns[0]) then [Local(LastIdentifier(ns[0]))] else []) + ColumnsAmong(ns[1..])
  }

  lemma {:induction false} TermsAre(ns: seq<Node>)
    ensures TermColumns(OfKind(ns, Term)) == ColumnsAmong(ns)
    decreases |ns|
  {
    if ns != [] {
      TermsAre(ns[1..]);
      KindOfTail(ns, Term);
      if ns[0].kind == Term { FirstTerm(ns[0], OfKind(ns[1..], Term)); } else { assert [] + OfKind(ns[1..], Term) == OfKind(ns[1..], Term); }
    }
  }

  lemma FirstTerm(t: Node, rest: seq<Node>)
    requires t.kind.Term?
    ensures TermColumns([t] + rest) == (if NamesColumn(t) then [Local(LastIdentifier(t))] else []) + TermColumns(rest)
  {
    NoneOfKind(t.kids, Field);
    assert ([t] + rest)[1..] == rest;
  }

  /**
   The columns of a region: those of the first select expression of its first top select.  A region without one has no
   known columns.
   */
  lemma SelectListIs(region: Node)
    ensures
      var selects := SelectsOf(region);
      if selects == [] || NoKid(selects[0], SelectExpression) then SelectListColumns(region) == []
      else exists e :: FirstKid(selects[0], SelectExpression, e) && SelectListColumns(region) == ColumnsAmong(e.kids)
  {
    FirstSelect(region);
    var selects := SelectsOf(region);
    if selects != [] {
      KidsEnds(selects[0], SelectExpression);
      var e := First(Direct(selects[0], SelectExpression));
      if e.Some? { TermsAre(e.value.kids); }
    }
  }

  // --- the head of a CTE ---

  /** How many parentheses are open before child `k`; a closing one too many is ignored. */
  function Depth(kids: seq<Node>, k: nat): nat
    requires k <= |kids|
  {
    if k == 0 then 0
    else
      var d := Depth(kids, k - 1);
      if kids[k - 1].kind.Open? then d + 1
      else if kids[k - 1].kind.Close? && d > 0 then d - 1
      else d
  }

  predicate BeforeAs(kids: seq<Node>, k: nat)
    requires k <= |kids|
  {
    forall j :: 0 <= j < k ==> kids[j].kind != Keyword("as")
  }

  /** The name: the first identifier before `AS` outside parentheses. */
  predicate NameAt(kids: seq<Node>, k: nat) {
    && k < |kids| && kids[k].kind.Identifier? && Depth(kids, k) == 0 && BeforeAs(kids, k)
    && forall j :: 0 <= j < k ==> !(kids[j].kind.Identifier? && Depth(kids, j) == 0)
  }

  /** The listed columns: behind the name, before `AS`, in one pair of parentheses. */
  predicate ListedAt(kids: seq<Node>, k: nat) {
    && k < |kids| && kids[k].kind.Identifier? && Depth(kids, k) == 1 && BeforeAs(kids, k)
    && exists j :: 0 <= j < k && kids[j].kind.Identifier? && Depth(kids, j) == 0
  }

  function Listed(kids: seq<Node>, upto: nat): seq<ColumnRef>
    requires upto <= |kids|
  {
    if upto == 0 then []
    else Listed(kids, upto - 1) + (if ListedAt(kids, upto - 1) then [Local(kids[upto - 1].text)] else [])
  }

  /** What the scan has seen after the first `i` children. */
  ghost predicate Scanned(kids: seq<Node>, i: nat, c: CteScan)
    requires i <= |kids|
  {
    && c.depth == Depth(kids, i)
    && (c.afterAs <==> !BeforeAs(kids, i))
    && (if c.name.Some? then exists k: nat :: k < i && NameAt(kids, k) && c.name.value == kids[k]
        else forall k: nat :: k < i ==> !NameAt(kids, k))
    && c.explicit == Listed(kids, i)
    && (if c.body.Some? then exists k: nat :: k < i && FirstAt(kids, Statement, k) && c.body.value == kids[k]
        else forall k: nat :: k < i ==> kids[k].kind != Statement)
  }

  /** One turn of the scan. */
  function Turn(c: CteScan, n: Node): CteScan {
    match n.kind
    case Open => c.(depth := c.depth + 1)
    case Close => c.(depth := if c.depth > 0 then c.depth - 1 else 0)
    case Keyword(k) => if k == "as" then c.(afterAs := true) else c
    case Identifier =>
      if c.name.None? && c.depth == 0 && !c.afterAs then c.(name := Some(n))
      else if c.name.Some? && c.depth == 1 && !c.afterAs then c.(explicit := c.explicit + [Local(n.text)])
      else c
    case Statement => if c.body.None? then c.(body := Some(n)) else c
    case _ => c
  }

  lemma DepthStep(kids: seq<Node>, i: nat, c: CteScan)
    requires i < |kids| && c.depth == Depth(kids, i) && (c.afterAs <==> !BeforeAs(kids, i))
    ensures Turn(c, kids[i]).depth == Depth(kids, i + 1)
    ensures Turn(c, kids[i]).afterAs <==> !BeforeAs(kids, i + 1)
  {
    assert BeforeAs(kids, i + 1) <==> BeforeAs(kids, i) && kids[i].kind != Keyword("as");
  }

  lemma ListedStep(kids: seq<Node>, i: nat, c: CteScan)
    requires i < |kids| && c.depth == Depth(kids, i) && (c.afterAs <==> !BeforeAs(kids, i)) && c.explicit == Listed(kids, i)
    requires BeforeAs(kids, i) ==> (c.name.Some? <==> exists j :: 0 <= j < i && kids[j].kind.Identifier? && Depth(kids, j) == 0)
    ensures Turn(c, kids[i]).explicit == Listed(kids, i + 1)
  {
  }

  /** With nothing but names before `AS`, the scan has a name exactly when an identifier outside parentheses was there. */
  lemma NameSeen(kids: seq<Node>, i: nat, c: CteScan)
    requires i < |kids| && Scanned(kids, i, c)
    ensures BeforeAs(kids, i) ==> (c.name.Some? <==> exists j :: 0 <= j < i && kids[j].kind.Identifier? && Depth(kids, j) == 0)
  {
    if BeforeAs(kids, i) && exists j :: 0 <= j < i && kids[j].kind.Identifier? && Depth(kids, j) == 0 {
      var j := FirstOutside(kids, i);
      assert NameAt(kids, j);
    }
  }

  lemma {:induction false} FirstOutside(kids: seq<Node>, i: nat) returns (j: nat)
    requires i <= |kids| && exists j :: 0 <= j < i && kids[j].kind.Identifier? && Depth(kids, j) == 0
    ensures j < i && kids[j].kind.Identifier? && Depth(kids, j) == 0
    ensures forall h :: 0 <= h < j ==> !(kids[h].kind.Identifier? && Depth(kids, h) == 0)
  {
    if exists h :: 0 <= h < i - 1 && kids[h].kind.Identifier? && Depth(kids, h) == 0 {
      j := FirstOutside(kids, i - 1);
    } else {
      j := i - 1;
    }
  }

  lemma NameStep(kids: seq<Node>, i: nat, c: CteScan)
    requires i < |kids| && Scanned(kids, i, c)
    ensures
      var d := Turn(c, kids[i]);
      if d.name.Some? then exists k: nat :: k < i + 1 && NameAt(kids, k) && d.name.value == kids[k]
      else forall k: nat :: k < i + 1 ==> !NameAt(kids, k)
  {
    NameSeen(kids, i, c);
    if c.name.Some? {
      var k: nat :| k < i && NameAt(kids, k) && c.name.value == kids[k];
      assert Turn(c, kids[i]).name == c.name;
    } else if kids[i].kind.Identifier? && c.depth == 0 && !c.afterAs {
      assert NameAt(kids, i);
    }
  }

  lemma BodyStep(kids: seq<Node>, i: nat, c: CteScan)
    requires i < |kids| && Scanned(kids, i, c)
    ensures
      var d := Turn(c, kids[i]);
      if d.body.Some? then exists k: nat :: k < i + 1 && FirstAt(kids, Statement, k) && d.body.value == kids[k]
      else forall k: nat :: k < i + 1 ==> kids[k].kind != Statement
  {
    if c.body.Some? {
      var k: nat :| k < i && FirstAt(kids, Statement, k) && c.body.value == kids[k];
      assert Turn(c, kids[i]).body == c.body;
    } else if kids[i].kind.Statement? {
      assert FirstAt(kids, Statement, i);
    }
  }

  lemma {:induction false} ScanFrom(kids: seq<Node>, i: nat, c: CteScan)
    requires i <= |kids| && Scanned(kids, i, c)
    ensures Scanned(kids, |kids|, ScanCte(kids[i..], c))
    decreases |kids| - i
  {
    if i < |kids| {
      DepthStep(kids, i, c);
      NameSeen(kids, i, c);
      ListedStep(kids, i, c);
      NameStep(kids, i, c);
      BodyStep(kids, i, c);
      ScanFrom(kids, i + 1, Turn(c, kids[i]));
      TurnIs(kids[i..], c);
      assert kids[i..][1..] == kids[i + 1..];
    } else {
      assert kids[i..] == [];
    }
  }

  lemma TurnIs(ns: seq<Node>, c: CteScan)
    requires ns != []
    ensures ScanCte(ns, c) == ScanCte(ns[1..], Turn(c, ns[0]))
  {
  }

  /** The columns of a CTE: the listed ones, or else those of its body's select list. */
  ghost predicate CteColumns(n: Node, columns: seq<ColumnRef>) {
    if Listed(n.kids, |n.kids|) != [] then columns == Listed(n.kids, |n.kids|)
    else if NoKid(n, Statement) then columns == []
    else exists m :: FirstKid(n, Statement, m) && columns == SelectListColumns(m)
  }

  /** A CTE binds its name and columns. */
  ghost predicate CteStands(n: Node, b: Binding) {
    && b.alias.None? && b.schema.None? && b.relation.None? && CteColumns(n, b.columns)
    && if exists k: nat :: NameAt(n.kids, k) then
         exists k: nat :: NameAt(n.kids, k) && b.name == Some(n.kids[k].text) && b.start == n.kids[k].start && b.end == n.kids[k].end
       else b.name.None? && b.start == n.start && b.end == n.end
  }

  lemma CteBindingStands(n: Node)
    ensures CteStands(n, CteBinding(n))
  {
    var init := CteScan(0, false, None, [], None);
    var c := ScanCte(n.kids, init);
    assert n.kids[0..] == n.kids && Listed(n.kids, 0) == [] && BeforeAs(n.kids, 0);
    ScanFrom(n.kids, 0, init);
    if c.body.None? { assert NoKid(n, Statement); }
    if c.name.Some? {
      var k: nat :| k < |n.kids| && NameAt(n.kids, k) && c.name.value == n.kids[k];
    }
    if c.body.Some? {
      var k: nat :| k < |n.kids| && FirstAt(n.kids, Statement, k) && c.body.value == n.kids[k];
      assert n.kids[k] in n.kids && FirstKid(n, Statement, n.kids[k]);
    }
  }

  /** A CTE answers exactly the qualifiers that fold to its name. */
  lemma CteAnswers(v: View, n: Node, q: string)
    ensures CteBinding(n).Answers(v, q) <==> exists k: nat :: NameAt(n.kids, k) && v.fold(n.kids[k].text) == v.fold(q)
  {
    CteBindingStands(n);
    if k: nat, j: nat :| NameAt(n.kids, k) && NameAt(n.kids, j) && j != k { assert false; }
  }
}
