/**
 What a region binds, read off the tree: one binding for each relation, lateral item and statement target its clauses
 lead to, and the qualifiers each of them answers.
 */
module WalkerBindings {
  import opened Identifiers
  import opened Scopes
  import opened SyntaxTree
  import opened Walker
  import opened Wrappers

  // --- the sources of a region ---

  datatype Source = Item(node: Node) | Lateral(node: Node) | Deleted(node: Node) | Inserted(node: Node)

  /** Clauses lead on to their children; expressions, keywords, bodies and broken fragments do not. */
  predicate LeadsOn(k: Kind) {
    || k.Statement? || k.Select? || k.SelectExpression? || k.Term? || k.ObjectReference? || k.Identifier? || k.From?
    || k.Insert? || k.Delete? || k.Open? || k.Close? || k.Separator? || k.Other?
  }

  /** The sources below a list of siblings, in document order. */
  function SourcesIn(ns: seq<Node>): seq<Source>
    decreases SizeAll(ns), 1
  {
    SourcesAmong(ns, exists n :: n in ns && n.kind == Delete)
  }

  function SourcesAmong(ns: seq<Node>, besideDelete: bool): seq<Source>
    decreases SizeAll(ns), 0
  {
    if ns == [] then []
    else
      var n := ns[0];
      assert Size(n) > SizeAll(n.kids);
      (match n.kind
       case Relation => [Item(n)]
       case LateralJoin => [Lateral(n)]
       case LateralCrossJoin => [Lateral(n)]
       case From => (if besideDelete then [Deleted(n)] else []) + SourcesIn(n.kids)
       case Insert => [Inserted(n)] + SourcesIn(n.kids)
       case _ => if LeadsOn(n.kind) then SourcesIn(n.kids) else [])
      + SourcesAmong(ns[1..], besideDelete)
  }

  predicate FirstAt(ns: seq<Node>, kind: Kind, k: nat) {
    k < |ns| && ns[k].kind == kind && forall j :: 0 <= j < k ==> ns[j].kind != kind
  }

  predicate LastAt(ns: seq<Node>, kind: Kind, k: nat) {
    k < |ns| && ns[k].kind == kind && forall j :: k < j < |ns| ==> ns[j].kind != kind
  }

  /** The first and the last child of a kind. */
  ghost predicate FirstKid(n: Node, kind: Kind, m: Node) { exists k: nat :: FirstAt(n.kids, kind, k) && n.kids[k] == m }

  ghost predicate LastKid(n: Node, kind: Kind, m: Node) { exists k: nat :: LastAt(n.kids, kind, k) && n.kids[k] == m }

  ghost predicate NoKid(n: Node, kind: Kind) { forall m :: m in n.kids ==> m.kind != kind }

  lemma {:induction false} NoneOfKind(ns: seq<Node>, kind: Kind)
    ensures OfKind(ns, kind) == [] <==> forall m :: m in ns ==> m.kind != kind
  {
    if ns != [] {
      NoneOfKind(ns[1..], kind);
      assert forall m :: m in ns <==> m == ns[0] || m in ns[1..];
    }
  }

  lemma {:induction false} FirstOfKind(ns: seq<Node>, kind: Kind) returns (k: nat)
    requires OfKind(ns, kind) != []
    ensures FirstAt(ns, kind, k) && ns[k] == OfKind(ns, kind)[0]
  {
    if ns[0].kind == kind {
      k := 0;
    } else {
      k := FirstOfKind(ns[1..], kind);
      k := k + 1;
      assert forall j :: 0 < j < k ==> ns[j] == ns[1..][j - 1];
    }
  }

  lemma {:induction false} LastOfKind(ns: seq<Node>, kind: Kind) returns (k: nat)
    requires OfKind(ns, kind) != []
    ensures LastAt(ns, kind, k) && Last(OfKind(ns, kind)) == Some(ns[k])
    decreases |ns|
  {
    KindOfTail(ns, kind);
    if OfKind(ns[1..], kind) == [] {
      k := 0;
      OnlyTheFirst(ns, kind);
    } else {
      k := LastOfKind(ns[1..], kind);
      LastOfTail(ns, kind, k);
      k := k + 1;
    }
  }

  lemma KindOfTail(ns: seq<Node>, kind: Kind)
    requires ns != []
    ensures OfKind(ns, kind) == (if ns[0].kind == kind then [ns[0]] else []) + OfKind(ns[1..], kind)
    ensures Last(OfKind(ns, kind)) ==
            if OfKind(ns[1..], kind) != [] then Last(OfKind(ns[1..], kind)) else if ns[0].kind == kind then Some(ns[0]) else None
  {
  }

  lemma OnlyTheFirst(ns: seq<Node>, kind: Kind)
    requires ns != [] && ns[0].kind == kind && OfKind(ns[1..], kind) == []
    ensures LastAt(ns, kind, 0)
  {
    NoneOfKind(ns[1..], kind);
    forall j | 0 < j < |ns| ensures ns[j].kind != kind { assert ns[j] == ns[1..][j - 1]; }
  }

  lemma LastOfTail(ns: seq<Node>, kind: Kind, k: nat)
    requires ns != [] && LastAt(ns[1..], kind, k)
    ensures LastAt(ns, kind, k + 1)
  {
    forall j | k + 1 < j < |ns| ensures ns[j].kind != kind { assert ns[j] == ns[1..][j - 1]; }
  }

  lemma KidsEnds(n: Node, kind: Kind)
    ensures First(Direct(n, kind)).None? <==> NoKid(n, kind)
    ensures Last(Direct(n, kind)).None? <==> NoKid(n, kind)
    ensures First(Direct(n, kind)).Some? ==> FirstKid(n, kind, First(Direct(n, kind)).value)
    ensures Last(Direct(n, kind)).Some? ==> LastKid(n, kind, Last(Direct(n, kind)).value)
  {
    NoneOfKind(n.kids, kind);
    if OfKind(n.kids, kind) != [] {
      var f := FirstOfKind(n.kids, kind);
      var l := LastOfKind(n.kids, kind);
    }
  }

  lemma OneFirst(n: Node, kind: Kind, m: Node)
    ensures FirstKid(n, kind, m) <==> First(Direct(n, kind)) == Some(m)
  {
    KidsEnds(n, kind);
    if k: nat :| FirstAt(n.kids, kind, k) && n.kids[k] == m {
      assert n.kids[k] in n.kids;
      var f := FirstOfKind(n.kids, kind);
    }
  }

  lemma OneLast(n: Node, kind: Kind, m: Node)
    ensures LastKid(n, kind, m) <==> Last(Direct(n, kind)) == Some(m)
  {
    KidsEnds(n, kind);
    if k: nat :| LastAt(n.kids, kind, k) && n.kids[k] == m {
      assert n.kids[k] in n.kids;
      var l := LastOfKind(n.kids, kind);
    }
  }

  // --- what a name refers to ---

  /** The CTE lists a name is looked up in: the region's own, then those of the enclosing frames. */
  function Chain(ctes: seq<Binding>, outer: seq<Frame>): seq<seq<Binding>> { [ctes] + CtesOf(outer) }

  /** The nearest CTE that answers, and the first of its list. */
  ghost predicate CteAt(v: View, chain: seq<seq<Binding>>, name: string, i: nat, j: nat) {
    && i < |chain| && j < |chain[i]| && chain[i][j].Answers(v, name)
    && (forall b :: b in chain[i][..j] ==> !b.Answers(v, name))
    && forall h, b :: 0 <= h < i && b in chain[h] ==> !b.Answers(v, name)
  }

  lemma {:induction false} FirstAnswerAt(v: View, bindings: seq<Binding>, name: string) returns (j: nat)
    requires FirstAnswer(v, bindings, name).Some?
    ensures j < |bindings| && bindings[j] == FirstAnswer(v, bindings, name).value && bindings[j].Answers(v, name)
    ensures forall b :: b in bindings[..j] ==> !b.Answers(v, name)
  {
    if bindings[0].Answers(v, name) {
      j := 0;
    } else {
      j := FirstAnswerAt(v, bindings[1..], name);
      assert bindings[..j + 1] == [bindings[0]] + bindings[1..][..j];
      j := j + 1;
    }
  }

  lemma {:induction false} CteOfIs(v: View, chain: seq<seq<Binding>>, name: string) returns (i: nat, j: nat)
    requires CteOf(v, chain, name).Some?
    ensures CteAt(v, chain, name, i, j) && CteOf(v, chain, name) == Some(chain[i][j])
  {
    if FirstAnswer(v, chain[0], name).Some? {
      i := 0;
      j := FirstAnswerAt(v, chain[0], name);
    } else {
      i, j := CteOfIs(v, chain[1..], name);
      forall h, b | 0 <= h < i + 1 && b in chain[h] ensures !b.Answers(v, name) {
        if h > 0 { assert chain[h] == chain[1..][h - 1]; }
      }
      i := i + 1;
    }
  }

  lemma NoCteOf(v: View, chain: seq<seq<Binding>>, name: string)
    requires CteOf(v, chain, name).None?
    ensures forall i: nat, j: nat :: !CteAt(v, chain, name, i, j)
  {
    forall i: nat, j: nat | i < |chain| && j < |chain[i]| ensures !chain[i][j].Answers(v, name) { NoCteAt(v, chain, name, i, j); }
  }

  lemma {:induction false} NoCteAt(v: View, chain: seq<seq<Binding>>, name: string, i: nat, j: nat)
    requires CteOf(v, chain, name).None? && i < |chain| && j < |chain[i]|
    ensures !chain[i][j].Answers(v, name)
  {
    if i == 0 {
      assert chain[0][j] in chain[0];
    } else {
      assert chain[1..][i - 1] == chain[i];
      NoCteAt(v, chain[1..], name, i - 1, j);
    }
  }

  // --- what a source binds ---

  ghost predicate SomeCte(v: View, chain: seq<seq<Binding>>, name: string) {
    exists i: nat, j: nat :: CteAt(v, chain, name, i, j)
  }

  /** The catalog relation a name of one or more parts is looked up as; a third part from the right is not read. */
  function InCatalog(v: View, parts: seq<Part>): Option<nat>
    requires parts != []
  {
    v.resolve(if |parts| == 1 then None else Some(parts[|parts| - 2].name), parts[|parts| - 1].name)
  }

  /** The binding is of the CTE the name refers to, or else of the relation. */
  ghost predicate OfName(v: View, chain: seq<seq<Binding>>, parts: seq<Part>, b: Binding)
    requires parts != []
  {
    && b.start == parts[0].start && b.end == parts[|parts| - 1].end
    && if |parts| == 1 && SomeCte(v, chain, parts[0].name) then
         exists i: nat, j: nat ::
           && CteAt(v, chain, parts[0].name, i, j)
           && b.name == chain[i][j].name && b.columns == chain[i][j].columns && b.schema.None? && b.relation.None?
       else
         match InCatalog(v, parts)
         case Some(r) =>
           && b.relation == Some(r) && b.name == Some(v.nameOf(r)) && b.schema == Some(v.schemaOf(r))
           && |b.columns| == |v.columnsOf(r)|
           && forall k :: 0 <= k < |b.columns| ==> b.columns[k] == CatalogColumn(v.columnsOf(r)[k])
         case None => b.relation.None? && b.schema.None? && b.name == Some(parts[|parts| - 1].name) && b.columns == []
  }

  ghost predicate Refers(v: View, chain: seq<seq<Binding>>, parts: seq<Part>)
    requires parts != []
  {
    (|parts| == 1 && SomeCte(v, chain, parts[0].name)) || InCatalog(v, parts).Some?
  }

  /** The binding's alias is the text of that child. */
  ghost predicate AliasFrom(n: Node, last: bool, b: Binding) {
    if NoKid(n, Identifier) then b.alias.None?
    else exists m :: (if last then LastKid(n, Identifier, m) else FirstKid(n, Identifier, m)) && b.alias == Some(m.text)
  }

  ghost predicate NamedBy(v: View, chain: seq<seq<Binding>>, n: Node, reference: Node, b: Binding) {
    reference in n.kids && PartsOf(reference) != [] && OfName(v, chain, PartsOf(reference), b)
  }

  /** An item of FROM: its subquery's columns, or what its last reference names. */
  ghost predicate ItemBinds(v: View, chain: seq<seq<Binding>>, n: Node, b: Binding) {
    && AliasFrom(n, true, b)
    && if NoKid(n, Subquery) then exists m :: LastKid(n, ObjectReference, m) && NamedBy(v, chain, n, m, b)
       else
         && b.name.None? && b.schema.None? && b.relation.None? && b.start == n.start && b.end == n.end
         && exists m :: LastKid(n, Subquery, m) && b.columns == SelectListColumns(m)
  }

  ghost predicate LateralBinds(n: Node, b: Binding) {
    && AliasFrom(n, false, b) && b.name.None? && b.schema.None? && b.relation.None? && b.start == n.start && b.end == n.end
    && if NoKid(n, Subquery) then b.columns == []
       else exists m :: FirstKid(n, Subquery, m) && b.columns == SelectListColumns(m)
  }

  ghost predicate TargetBinds(v: View, chain: seq<seq<Binding>>, n: Node, b: Binding) {
    exists m :: FirstKid(n, ObjectReference, m) && NamedBy(v, chain, n, m, b)
  }

  /** The binding is the one the source stands for. */
  ghost predicate StandsFor(v: View, chain: seq<seq<Binding>>, s: Source, b: Binding) {
    match s
    case Item(n) => ItemBinds(v, chain, n, b)
    case Lateral(n) => LateralBinds(n, b)
    case Deleted(n) => AliasFrom(n, false, b) && TargetBinds(v, chain, n, b)
    case Inserted(n) => b.alias.None? && TargetBinds(v, chain, n, b)
  }

  /** Does the source bind anything?  An item with a name or a subquery does, a target only when its name refers to
      something. */
  ghost predicate Binds(v: View, chain: seq<seq<Binding>>, s: Source) {
    match s
    case Item(n) => !NoKid(n, Subquery) || exists m :: LastKid(n, ObjectReference, m) && PartsOf(m) != []
    case Lateral(n) => !NoKid(n, Identifier) || exists m :: FirstKid(n, Subquery, m) && SelectListColumns(m) != []
    case Deleted(n) => TargetRefers(v, chain, n)
    case Inserted(n) => TargetRefers(v, chain, n)
  }

  ghost predicate TargetRefers(v: View, chain: seq<seq<Binding>>, n: Node) {
    exists m :: FirstKid(n, ObjectReference, m) && PartsOf(m) != [] && Refers(v, chain, PartsOf(m))
  }

  ghost function Bound(v: View, chain: seq<seq<Binding>>, sources: seq<Source>): seq<Source> {
    if sources == [] then []
    else (if Binds(v, chain, sources[0]) then [sources[0]] else []) + Bound(v, chain, sources[1..])
  }

  /** One binding for each source that binds, in document order. */
  ghost predicate OneEach(v: View, chain: seq<seq<Binding>>, sources: seq<Source>, bindings: seq<Binding>) {
    Matches(v, chain, Bound(v, chain, sources), bindings)
  }

  ghost predicate Matches(v: View, chain: seq<seq<Binding>>, bound: seq<Source>, bindings: seq<Binding>) {
    |bindings| == |bound| && forall i :: 0 <= i < |bound| ==> StandsFor(v, chain, bound[i], bindings[i])
  }

  lemma MatchesConcat(v: View, chain: seq<seq<Binding>>, a: seq<Source>, b: seq<Source>, x: seq<Binding>, y: seq<Binding>)
    requires Matches(v, chain, a, x) && Matches(v, chain, b, y)
    ensures Matches(v, chain, a + b, x + y)
  {
    PairedConcat((s, t) => StandsFor(v, chain, s, t), a, b, x, y);
  }

  ghost predicate Paired<S, T>(p: (S, T) -> bool, s: seq<S>, t: seq<T>) {
    |s| == |t| && forall i :: 0 <= i < |s| ==> p(s[i], t[i])
  }

  lemma PairedConcat<S, T>(p: (S, T) -> bool, a: seq<S>, b: seq<S>, x: seq<T>, y: seq<T>)
    requires Paired(p, a, x) && Paired(p, b, y)
    ensures Paired(p, a + b, x + y)
  {
  }

  lemma {:induction false} BindingConcat(v: View, chain: seq<seq<Binding>>, a: seq<Source>, b: seq<Source>)
    ensures Bound(v, chain, a + b) == Bound(v, chain, a) + Bound(v, chain, b)
  {
    if a == [] {
      assert a + b == b;
    } else {
      assert (a + b)[1..] == a[1..] + b;
      BindingConcat(v, chain, a[1..], b);
    }
  }

  lemma EachConcat(v: View, chain: seq<seq<Binding>>, a: seq<Source>, b: seq<Source>, x: seq<Binding>, y: seq<Binding>)
    requires OneEach(v, chain, a, x) && OneEach(v, chain, b, y)
    ensures OneEach(v, chain, a + b, x + y)
  {
    BindingConcat(v, chain, a, b);
    MatchesConcat(v, chain, Bound(v, chain, a), Bound(v, chain, b), x, y);
  }

  lemma EachOne(v: View, chain: seq<seq<Binding>>, s: Source, bindings: seq<Binding>)
    requires if Binds(v, chain, s) then |bindings| == 1 && StandsFor(v, chain, s, bindings[0]) else bindings == []
    ensures OneEach(v, chain, [s], bindings)
  {
    assert [s][1..] == [] && Bound(v, chain, []) == [];
  }

  /** What a source of that name binds, and whether the name refers to anything. */
  lemma SourceOfName(v: View, parts: seq<Part>, alias: Option<string>, ctes: seq<Binding>, outer: seq<Frame>, bindAnyway: bool)
    requires parts != []
    ensures
      var r := BindSource(v, parts, alias, ctes, outer, bindAnyway);
      var refers := Refers(v, Chain(ctes, outer), parts);
      && (refers || bindAnyway ==> |r.0| == 1 && r.0[0].alias == alias && OfName(v, Chain(ctes, outer), parts, r.0[0]))
      && (!refers && !bindAnyway ==> r.0 == [])
      && (refers ==> r.1 == [])
      && (!refers && v.loaded ==> |r.1| == 1)
  {
    var chain, names := Chain(ctes, outer), Names(parts);
    if |parts| == 1 {
      if CteOf(v, chain, names[0]).Some? {
        var i, j := CteOfIs(v, chain, names[0]);
      } else {
        NoCteOf(v, chain, names[0]);
      }
    }
  }

  lemma ItemStands(v: View, n: Node, ctes: seq<Binding>, outer: seq<Frame>)
    ensures OneEach(v, Chain(ctes, outer), [Item(n)], RelationItem(v, n, ctes, outer).0)
  {
    var chain, bindings := Chain(ctes, outer), RelationItem(v, n, ctes, outer).0;
    KidsEnds(n, Identifier);
    KidsEnds(n, Subquery);
    KidsEnds(n, ObjectReference);
    var reference, sub := Last(Direct(n, ObjectReference)), Last(Direct(n, Subquery));
    if sub.None? && reference.Some? {
      OneLast(n, ObjectReference, reference.value);
      ItemOfName(v, n, reference.value, ctes, outer);
    } else if sub.None? {
      assert forall m :: !LastKid(n, ObjectReference, m) by {
        forall m ensures !LastKid(n, ObjectReference, m) { OneLast(n, ObjectReference, m); }
      }
    }
    EachOne(v, chain, Item(n), bindings);
  }

  lemma ItemOfName(v: View, n: Node, reference: Node, ctes: seq<Binding>, outer: seq<Frame>)
    requires NoKid(n, Subquery) && Last(Direct(n, ObjectReference)) == Some(reference)
    ensures
      var chain, bindings := Chain(ctes, outer), RelationItem(v, n, ctes, outer).0;
      if Binds(v, chain, Item(n)) then |bindings| == 1 && StandsFor(v, chain, Item(n), bindings[0]) else bindings == []
  {
    KidsEnds(n, Subquery);
    OnlyLast(n, ObjectReference, reference);
    if PartsOf(reference) != [] { ItemNamed(v, n, reference, ctes, outer); } else { ItemUnnamed(v, n, reference, ctes, outer); }
  }

  lemma ItemUnnamed(v: View, n: Node, reference: Node, ctes: seq<Binding>, outer: seq<Frame>)
    requires NoKid(n, Subquery) && Last(Direct(n, ObjectReference)) == Some(reference) && PartsOf(reference) == []
    ensures RelationItem(v, n, ctes, outer).0 == []
  {
    KidsEnds(n, Subquery);
  }

  lemma OnlyLast(n: Node, kind: Kind, m: Node)
    requires Last(Direct(n, kind)) == Some(m)
    ensures LastKid(n, kind, m) && forall k :: LastKid(n, kind, k) ==> k == m
  {
    forall k ensures LastKid(n, kind, k) <==> k == m { OneLast(n, kind, k); }
  }

  lemma ItemNamed(v: View, n: Node, reference: Node, ctes: seq<Binding>, outer: seq<Frame>)
    requires NoKid(n, Subquery) && Last(Direct(n, ObjectReference)) == Some(reference)
    requires LastKid(n, ObjectReference, reference) && PartsOf(reference) != []
    ensures
      var bindings := RelationItem(v, n, ctes, outer).0;
      |bindings| == 1 && ItemBinds(v, Chain(ctes, outer), n, bindings[0])
  {
    var aliasNode := Last(Direct(n, Identifier));
    KidsEnds(n, Identifier);
    KidsEnds(n, Subquery);
    SourceOfName(v, PartsOf(reference), if aliasNode.Some? then Some(aliasNode.value.text) else None, ctes, outer, true);
  }

  lemma LateralStands(v: View, n: Node, chain: seq<seq<Binding>>)
    ensures OneEach(v, chain, [Lateral(n)], LateralItem(n))
  {
    KidsEnds(n, Identifier);
    KidsEnds(n, Subquery);
    forall m ensures FirstKid(n, Subquery, m) <==> First(Direct(n, Subquery)) == Some(m) { OneFirst(n, Subquery, m); }
    EachOne(v, chain, Lateral(n), LateralItem(n));
  }

  lemma TargetStands(v: View, n: Node, alias: Option<string>, ctes: seq<Binding>, outer: seq<Frame>)
    ensures
      var chain, bindings := Chain(ctes, outer), BindTarget(v, First(Direct(n, ObjectReference)), alias, ctes, outer).0;
      if TargetRefers(v, chain, n) then |bindings| == 1 && bindings[0].alias == alias && TargetBinds(v, chain, n, bindings[0])
      else bindings == []
  {
    KidsEnds(n, ObjectReference);
    forall m ensures FirstKid(n, ObjectReference, m) <==> First(Direct(n, ObjectReference)) == Some(m) { OneFirst(n, ObjectReference, m); }
    var target := First(Direct(n, ObjectReference));
    if target.Some? && PartsOf(target.value) != [] { SourceOfName(v, PartsOf(target.value), alias, ctes, outer, false); }
  }

  lemma DeletedStands(v: View, n: Node, ctes: seq<Binding>, outer: seq<Frame>)
    ensures OneEach(v, Chain(ctes, outer), [Deleted(n)], DmlFrom(v, n, ctes, outer).0)
  {
    var aliasNode := First(Direct(n, Identifier));
    KidsEnds(n, Identifier);
    TargetStands(v, n, if aliasNode.Some? then Some(aliasNode.value.text) else None, ctes, outer);
    EachOne(v, Chain(ctes, outer), Deleted(n), DmlFrom(v, n, ctes, outer).0);
  }

  lemma InsertedStands(v: View, n: Node, ctes: seq<Binding>, outer: seq<Frame>)
    ensures OneEach(v, Chain(ctes, outer), [Inserted(n)], BindTarget(v, First(Direct(n, ObjectReference)), None, ctes, outer).0)
  {
    TargetStands(v, n, None, ctes, outer);
    EachOne(v, Chain(ctes, outer), Inserted(n), BindTarget(v, First(Direct(n, ObjectReference)), None, ctes, outer).0);
  }

  /** The sources at one node. */
  function SourcesAt(n: Node, besideDelete: bool): seq<Source> {
    match n.kind
    case Relation => [Item(n)]
    case LateralJoin => [Lateral(n)]
    case LateralCrossJoin => [Lateral(n)]
    case From => (if besideDelete then [Deleted(n)] else []) + SourcesIn(n.kids)
    case Insert => [Inserted(n)] + SourcesIn(n.kids)
    case _ => if LeadsOn(n.kind) then SourcesIn(n.kids) else []
  }

  /** The target a clause binds before its children. */
  function OwnSource(n: Node, besideDelete: bool): seq<Source> {
    if n.kind.From? && besideDelete then [Deleted(n)] else if n.kind.Insert? then [Inserted(n)] else []
  }

  lemma OwnStands(v: View, n: Node, inDelete: bool, ctes: seq<Binding>, outer: seq<Frame>)
    ensures OneEach(v, Chain(ctes, outer), OwnSource(n, inDelete), OwnTarget(v, n, inDelete, ctes, outer).0)
  {
    if n.kind.From? && inDelete {
      DeletedStands(v, n, ctes, outer);
    } else if n.kind.Insert? {
      InsertedStands(v, n, ctes, outer);
    }
  }

  lemma ClauseSources(n: Node, besideDelete: bool)
    requires LeadsOn(n.kind)
    ensures SourcesAt(n, besideDelete) == OwnSource(n, besideDelete) + SourcesIn(n.kids)
  {
    assert [] + SourcesIn(n.kids) == SourcesIn(n.kids);
  }

  lemma ClauseBindings(v: View, n: Node, inDelete: bool, ctes: seq<Binding>, outer: seq<Frame>)
    requires LeadsOn(n.kind)
    ensures PhaseA(v, n, inDelete, ctes, outer).0
         == OwnTarget(v, n, inDelete, ctes, outer).0 + PhaseAll(v, n.kids, HasKind(n.kids, Delete), ctes, outer).0
  {
    DescendsThrough(n.kind);
    PhaseAThrough(v, n, inDelete, ctes, outer);
  }

  lemma DescendsThrough(k: Kind)
    ensures LeadsOn(k) <==> !BindsNothingBelow(k) && !k.Relation? && !k.LateralJoin? && !k.LateralCrossJoin?
  {
  }

  lemma PhaseAThrough(v: View, n: Node, inDelete: bool, ctes: seq<Binding>, outer: seq<Frame>)
    requires !BindsNothingBelow(n.kind) && !n.kind.Relation? && !n.kind.LateralJoin? && !n.kind.LateralCrossJoin?
    ensures PhaseA(v, n, inDelete, ctes, outer)
         == Plus(OwnTarget(v, n, inDelete, ctes, outer), PhaseAll(v, n.kids, HasKind(n.kids, Delete), ctes, outer))
  {
  }

  lemma {:induction false} NodeStands(v: View, n: Node, inDelete: bool, ctes: seq<Binding>, outer: seq<Frame>)
    ensures OneEach(v, Chain(ctes, outer), SourcesAt(n, inDelete), PhaseA(v, n, inDelete, ctes, outer).0)
    decreases Size(n), 0
  {
    if LeadsOn(n.kind) {
      AllStand(v, n.kids, HasKind(n.kids, Delete), ctes, outer);
      ClauseStands(v, n, inDelete, ctes, outer);
    } else {
      LeafStands(v, n, inDelete, ctes, outer);
    }
  }

  lemma LeafStands(v: View, n: Node, inDelete: bool, ctes: seq<Binding>, outer: seq<Frame>)
    requires !LeadsOn(n.kind)
    ensures OneEach(v, Chain(ctes, outer), SourcesAt(n, inDelete), PhaseA(v, n, inDelete, ctes, outer).0)
  {
    if n.kind.Relation? {
      ItemStands(v, n, ctes, outer);
    } else if n.kind.LateralJoin? || n.kind.LateralCrossJoin? {
      LateralStands(v, n, Chain(ctes, outer));
    } else {
      assert SourcesAt(n, inDelete) == [] && PhaseA(v, n, inDelete, ctes, outer).0 == [];
    }
  }

  lemma ClauseStands(v: View, n: Node, inDelete: bool, ctes: seq<Binding>, outer: seq<Frame>)
    requires LeadsOn(n.kind)
    requires OneEach(v, Chain(ctes, outer), SourcesIn(n.kids), PhaseAll(v, n.kids, HasKind(n.kids, Delete), ctes, outer).0)
    ensures OneEach(v, Chain(ctes, outer), SourcesAt(n, inDelete), PhaseA(v, n, inDelete, ctes, outer).0)
  {
    OwnStands(v, n, inDelete, ctes, outer);
    ClauseSources(n, inDelete);
    ClauseBindings(v, n, inDelete, ctes, outer);
    EachConcat(v, Chain(ctes, outer), OwnSource(n, inDelete), SourcesIn(n.kids),
               OwnTarget(v, n, inDelete, ctes, outer).0, PhaseAll(v, n.kids, HasKind(n.kids, Delete), ctes, outer).0);
  }

  /** Phase A: one binding for each source that binds. */
  lemma {:induction false} AllStand(v: View, ns: seq<Node>, inDelete: bool, ctes: seq<Binding>, outer: seq<Frame>)
    ensures OneEach(v, Chain(ctes, outer), SourcesAmong(ns, inDelete), PhaseAll(v, ns, inDelete, ctes, outer).0)
    decreases SizeAll(ns), 1
  {
    if ns != [] {
      NodeStands(v, ns[0], inDelete, ctes, outer);
      AllStand(v, ns[1..], inDelete, ctes, outer);
      EachConcat(v, Chain(ctes, outer), SourcesAt(ns[0], inDelete), SourcesAmong(ns[1..], inDelete),
                 PhaseA(v, ns[0], inDelete, ctes, outer).0, PhaseAll(v, ns[1..], inDelete, ctes, outer).0);
    }
  }

  // --- the qualifiers a source answers ---

  /** A relation found under a name has that name up to folding. */
  ghost predicate Faithful(v: View) {
    forall schema, name :: v.resolve(schema, name).Some? ==> v.fold(v.nameOf(v.resolve(schema, name).value)) == v.fold(name)
  }

  /** CTEs answer by their own names. */
  ghost predicate Unaliased(chain: seq<seq<Binding>>) {
    forall i, b :: 0 <= i < |chain| && b in chain[i] ==> b.alias.None?
  }

  /** The name a reference ends in. */
  ghost predicate EndsIn(reference: Node, name: string) {
    PartsOf(reference) != [] && name == PartsOf(reference)[|PartsOf(reference)| - 1].name
  }

  /** The text a source answers to: its alias, or the name it refers by where it has none. */
  ghost predicate AnswersTo(s: Source, name: string) {
    match s
    case Item(n) =>
      if NoKid(n, Identifier) then NoKid(n, Subquery) && exists m :: LastKid(n, ObjectReference, m) && EndsIn(m, name)
      else exists m :: LastKid(n, Identifier, m) && m.text == name
    case Lateral(n) => exists m :: FirstKid(n, Identifier, m) && m.text == name
    case Deleted(n) =>
      if NoKid(n, Identifier) then exists m :: FirstKid(n, ObjectReference, m) && EndsIn(m, name)
      else exists m :: FirstKid(n, Identifier, m) && m.text == name
    case Inserted(n) => exists m :: FirstKid(n, ObjectReference, m) && EndsIn(m, name)
  }

  lemma NameAnswers(v: View, chain: seq<seq<Binding>>, parts: seq<Part>, b: Binding)
    requires Faithful(v) && Unaliased(chain) && parts != [] && OfName(v, chain, parts, b)
    ensures b.name.Some? && v.fold(b.name.value) == v.fold(parts[|parts| - 1].name)
  {
    if |parts| == 1 && SomeCte(v, chain, parts[0].name) {
      var i: nat, j: nat :| CteAt(v, chain, parts[0].name, i, j) && b.name == chain[i][j].name;
      assert chain[i][j] in chain[i];
    }
  }

  lemma OneFirstKid(n: Node, kind: Kind, a: Node, b: Node)
    requires FirstKid(n, kind, a) && FirstKid(n, kind, b)
    ensures a == b
  {
    OneFirst(n, kind, a);
    OneFirst(n, kind, b);
  }

  lemma OneLastKid(n: Node, kind: Kind, a: Node, b: Node)
    requires LastKid(n, kind, a) && LastKid(n, kind, b)
    ensures a == b
  {
    OneLast(n, kind, a);
    OneLast(n, kind, b);
  }

  /** The binding has the alias, or the folded name, that the source answers to; a source answers to one text at most. */
  ghost predicate Labelled(v: View, s: Source, b: Binding) {
    && (forall name :: AnswersTo(s, name) ==>
          b.alias == Some(name) || (b.alias.None? && b.name.Some? && v.fold(b.name.value) == v.fold(name)))
    && ((forall name :: !AnswersTo(s, name)) ==> b.alias.None? && b.name.None?)
  }

  lemma ItemLabelled(v: View, chain: seq<seq<Binding>>, n: Node, b: Binding)
    requires Faithful(v) && Unaliased(chain) && ItemBinds(v, chain, n, b)
    ensures Labelled(v, Item(n), b)
  {
    if !NoKid(n, Identifier) {
      var m :| LastKid(n, Identifier, m) && b.alias == Some(m.text);
      AliasLabels(v, n, m, b);
    } else if NoKid(n, Subquery) {
      var m :| LastKid(n, ObjectReference, m) && NamedBy(v, chain, n, m, b);
      NameAnswers(v, chain, PartsOf(m), b);
      NameLabels(v, n, m, b);
    }
  }

  lemma AliasLabels(v: View, n: Node, m: Node, b: Binding)
    requires !NoKid(n, Identifier) && LastKid(n, Identifier, m) && b.alias == Some(m.text)
    ensures Labelled(v, Item(n), b)
  {
    forall name | AnswersTo(Item(n), name) ensures name == m.text {
      var k :| LastKid(n, Identifier, k) && k.text == name;
      OneLastKid(n, Identifier, m, k);
    }
    assert AnswersTo(Item(n), m.text);
  }

  lemma NameLabels(v: View, n: Node, m: Node, b: Binding)
    requires NoKid(n, Identifier) && NoKid(n, Subquery) && LastKid(n, ObjectReference, m) && PartsOf(m) != []
    requires b.alias.None? && b.name.Some? && v.fold(b.name.value) == v.fold(PartsOf(m)[|PartsOf(m)| - 1].name)
    ensures Labelled(v, Item(n), b)
  {
    var own := PartsOf(m)[|PartsOf(m)| - 1].name;
    forall name | AnswersTo(Item(n), name) ensures name == own {
      var k :| LastKid(n, ObjectReference, k) && EndsIn(k, name);
      OneLastKid(n, ObjectReference, m, k);
    }
    assert EndsIn(m, own) && AnswersTo(Item(n), own);
  }

  lemma LateralLabelled(v: View, n: Node, b: Binding)
    requires LateralBinds(n, b)
    ensures Labelled(v, Lateral(n), b)
  {
    KidsEnds(n, Identifier);
    if NoKid(n, Identifier) {
      forall m ensures !FirstKid(n, Identifier, m) { OneFirst(n, Identifier, m); }
    } else {
      var m :| FirstKid(n, Identifier, m) && b.alias == Some(m.text);
      FirstAliasLabels(v, Lateral(n), m, b);
    }
  }

  lemma FirstAliasLabels(v: View, s: Source, m: Node, b: Binding)
    requires (s.Lateral? || s.Deleted?) && !NoKid(s.node, Identifier)
    requires FirstKid(s.node, Identifier, m) && b.alias == Some(m.text)
    ensures Labelled(v, s, b)
  {
    forall name | AnswersTo(s, name) ensures name == m.text {
      var k :| FirstKid(s.node, Identifier, k) && k.text == name;
      OneFirstKid(s.node, Identifier, m, k);
    }
    assert AnswersTo(s, m.text);
  }

  /** A target without an alias answers to the name it refers by. */
  lemma TargetLabelled(v: View, chain: seq<seq<Binding>>, n: Node, b: Binding) returns (name: string)
    requires Faithful(v) && Unaliased(chain) && TargetBinds(v, chain, n, b)
    ensures b.name.Some? && v.fold(b.name.value) == v.fold(name)
    ensures exists m :: FirstKid(n, ObjectReference, m) && EndsIn(m, name)
    ensures forall m, other :: FirstKid(n, ObjectReference, m) && EndsIn(m, other) ==> other == name
  {
    var m :| FirstKid(n, ObjectReference, m) && NamedBy(v, chain, n, m, b);
    NameAnswers(v, chain, PartsOf(m), b);
    name := PartsOf(m)[|PartsOf(m)| - 1].name;
    forall k, other | FirstKid(n, ObjectReference, k) && EndsIn(k, other) ensures other == name {
      OneFirstKid(n, ObjectReference, m, k);
    }
    assert EndsIn(m, name);
  }

  lemma DeletedLabelled(v: View, chain: seq<seq<Binding>>, n: Node, b: Binding)
    requires Faithful(v) && Unaliased(chain) && AliasFrom(n, false, b) && TargetBinds(v, chain, n, b)
    ensures Labelled(v, Deleted(n), b)
  {
    var name := TargetLabelled(v, chain, n, b);
    if NoKid(n, Identifier) {
      assert AnswersTo(Deleted(n), name);
    } else {
      var m :| FirstKid(n, Identifier, m) && b.alias == Some(m.text);
      FirstAliasLabels(v, Deleted(n), m, b);
    }
  }

  lemma InsertedLabelled(v: View, chain: seq<seq<Binding>>, n: Node, b: Binding)
    requires Faithful(v) && Unaliased(chain) && b.alias.None? && TargetBinds(v, chain, n, b)
    ensures Labelled(v, Inserted(n), b)
  {
    var name := TargetLabelled(v, chain, n, b);
    assert AnswersTo(Inserted(n), name);
  }

  /** A source's binding answers exactly the qualifiers that fold to its alias, or to its name where it has none. */
  lemma AnswersExactly(v: View, chain: seq<seq<Binding>>, s: Source, b: Binding)
    requires Faithful(v) && Unaliased(chain) && StandsFor(v, chain, s, b)
    ensures forall q :: b.Answers(v, q) <==> exists name :: AnswersTo(s, name) && v.fold(name) == v.fold(q)
  {
    match s {
      case Item(n) => ItemLabelled(v, chain, n, b);
      case Lateral(n) => LateralLabelled(v, n, b);
      case Deleted(n) => DeletedLabelled(v, chain, n, b);
      case Inserted(n) => InsertedLabelled(v, chain, n, b);
    }
    LabelAnswers(v, s, b);
  }

  lemma LabelAnswers(v: View, s: Source, b: Binding)
    requires Labelled(v, s, b)
    ensures forall q :: b.Answers(v, q) <==> exists name :: AnswersTo(s, name) && v.fold(name) == v.fold(q)
  {
    if name :| AnswersTo(s, name) {
      assert forall q :: b.Answers(v, q) <==> v.fold(name) == v.fold(q);
    }
  }
}
