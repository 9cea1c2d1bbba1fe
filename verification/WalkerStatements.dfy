/**
 Whole statements: what their scopes bind, that an alias reaches its relation, and that a statement without nested
 bodies is reported exactly when one of its names or columns is at fault.
 */
module WalkerStatements {
  import opened CatalogCache
  import opened Identifiers
  import opened OutputColumns
  import opened RelationNames
  import opened SchemaObjects
  import opened Scopes
  import opened SyntaxTree
  import opened Walker
  import opened WalkerBindings
  import opened WalkerCatalog
  import opened WalkerJustified
  import opened WalkerSources
  import opened Wrappers

  // --- what a region's scope binds ---

  predicate Plainly(region: Node) { !region.kind.ErrorNode? && !region.kind.SetOperation? && forall m :: m in region.kids ==> !m.kind.SetOperation? }

  /** The CTEs of a region stand for its CTE nodes, in order. */
  lemma RegionCtes(v: View, region: Node, outer: seq<Frame>)
    requires !region.kind.ErrorNode?
    ensures
      var ctes, nodes := WalkRegion(v, region, outer).0.ctes, OfKind(region.kids, Cte);
      |ctes| == |nodes| && forall i :: 0 <= i < |ctes| ==> CteStands(nodes[i], ctes[i])
  {
    var nodes := Direct(region, Cte);
    forall i | 0 <= i < |nodes| ensures CteStands(nodes[i], CteBindings(nodes)[i]) { CteBindingStands(nodes[i]); }
  }

  /** A region binds each source its clauses lead to; one with a set operation leaves that to the sides. */
  lemma RegionBinds(v: View, region: Node, outer: seq<Frame>)
    requires !region.kind.ErrorNode?
    ensures
      var s := WalkRegion(v, region, outer).0;
      if Plainly(region) then OneEach(v, Chain(s.ctes, outer), SourcesIn(region.kids), s.bindings) else s.bindings == []
  {
    NoneOfKind(region.kids, SetOperation);
    var ctes := CteBindings(Direct(region, Cte));
    AllStand(v, region.kids, HasKind(region.kids, Delete), ctes, outer);
  }

  /** Each side of a set operation binds its own sources. */
  lemma {:induction false} SidesBind(v: View, sides: seq<seq<Node>>, inDelete: bool, full: seq<Frame>)
    ensures
      var scopes := WalkSides(v, sides, inDelete, full).scopes;
      |scopes| == |sides| &&
      forall k :: 0 <= k < |sides| ==>
        scopes[k].ctes == [] && OneEach(v, Chain([], full), SourcesAmong(sides[k], inDelete), scopes[k].bindings)
  {
    if sides != [] {
      AllStand(v, sides[0], inDelete, [], full);
      SidesBind(v, sides[1..], inDelete, full);
    }
  }

  /** The sides of a set operation are walked below it, behind the bodies of its CTEs. */
  lemma OperationBinds(v: View, region: Node, outer: seq<Frame>) returns (bodies: seq<Scope>, sides: seq<Scope>)
    requires region.kind.SetOperation?
    ensures
      var s := WalkRegion(v, region, outer).0;
      var full := [Frame(s.ctes, [])] + outer;
      var parts, besideDelete := Sides(region.kids, []), exists n :: n in region.kids && n.kind == Delete;
      && s.children == bodies + sides && |sides| == |parts|
      && forall k :: 0 <= k < |parts| ==>
           sides[k].ctes == [] && OneEach(v, Chain([], full), SourcesAmong(parts[k], besideDelete), sides[k].bindings)
  {
    var ctes := CteBindings(Direct(region, Cte));
    bodies := CteBodies(v, Direct(region, Cte), ctes, 0, outer).scopes;
    sides := WalkSides(v, Sides(region.kids, []), HasKind(region.kids, Delete), [Frame(ctes, [])] + outer).scopes;
    SidesBind(v, Sides(region.kids, []), HasKind(region.kids, Delete), [Frame(ctes, [])] + outer);
  }

  // --- an alias reaches its source ---

  lemma {:induction false} FirstAnswerIs(v: View, bindings: seq<Binding>, k: nat, q: string)
    requires k < |bindings| && bindings[k].Answers(v, q) && forall j :: 0 <= j < k ==> !bindings[j].Answers(v, q)
    ensures FirstAnswer(v, bindings, q) == Some(bindings[k])
  {
    if k > 0 {
      assert !bindings[0].Answers(v, q);
      forall j | 0 <= j < k - 1 ensures !bindings[1..][j].Answers(v, q) { assert bindings[1..][j] == bindings[j + 1]; }
      FirstAnswerIs(v, bindings[1..], k - 1, q);
    }
  }

  /** The source answers the qualifier. */
  ghost predicate Answering(v: View, s: Source, q: string) {
    exists name :: AnswersTo(s, name) && v.fold(name) == v.fold(q)
  }

  /** Of the sources that bind, `k` is the first that answers the qualifier. */
  ghost predicate FirstAnswering(v: View, bound: seq<Source>, k: nat, q: string) {
    k < |bound| && Answering(v, bound[k], q) && forall j :: 0 <= j < k ==> !Answering(v, bound[j], q)
  }

  lemma QualifierFinds(v: View, chain: seq<seq<Binding>>, bound: seq<Source>, bindings: seq<Binding>, k: nat, q: string)
    requires Faithful(v) && Unaliased(chain) && Matches(v, chain, bound, bindings) && FirstAnswering(v, bound, k, q)
    ensures FirstAnswer(v, bindings, q) == Some(bindings[k])
  {
    forall j | 0 <= j <= k ensures bindings[j].Answers(v, q) <==> Answering(v, bound[j], q) {
      AnswersExactly(v, chain, bound[j], bindings[j]);
    }
    FirstAnswerIs(v, bindings, k, q);
  }

  /** An alias in quotes answers the name inside them, which is what a quoted qualifier reads as, exactly when folding takes
      the quotes away. */
  lemma QuotedAliasMissed(v: View, chain: seq<seq<Binding>>, n: Node, alias: Node, b: Binding, name: string)
    requires Faithful(v) && Unaliased(chain) && StandsFor(v, chain, Item(n), b)
    requires LastKid(n, Identifier, alias) && alias.text == "\"" + Doubled(name) + "\""
    ensures NormalizeIdentifier(alias.text) == name
    ensures b.Answers(v, name) <==> v.fold("\"" + Doubled(name) + "\"") == v.fold(name)
  {
    AnswersExactly(v, chain, Item(n), b);
    assert alias.text[1..|alias.text| - 1] == Doubled(name);
    HalvedDoubled(name);
    var k: nat :| LastAt(n.kids, Identifier, k) && n.kids[k] == alias;
    assert !NoKid(n, Identifier) && AnswersTo(Item(n), alias.text);
    forall other | AnswersTo(Item(n), other) ensures other == alias.text {
      var m :| LastKid(n, Identifier, m) && m.text == other;
      OneLastKid(n, Identifier, m, alias);
    }
  }

  /** The frames a plain region's own references are resolved over. */
  function OwnFrames(v: View, region: Node, outer: seq<Frame>): seq<Frame> {
    var s := WalkRegion(v, region, outer).0;
    [Frame(s.ctes, s.bindings)] + outer
  }

  lemma CtesUnaliased(v: View, region: Node, outer: seq<Frame>)
    requires !region.kind.ErrorNode? && forall f, b :: f in outer && b in f.ctes ==> b.alias.None?
    ensures Unaliased(Chain(WalkRegion(v, region, outer).0.ctes, outer))
  {
    var ctes := WalkRegion(v, region, outer).0.ctes;
    RegionCtes(v, region, outer);
    forall i, b | 0 <= i < |Chain(ctes, outer)| && b in Chain(ctes, outer)[i] ensures b.alias.None? {
      if i > 0 {
        assert Chain(ctes, outer)[i] == CtesOf(outer)[i - 1] == outer[i - 1].ctes && outer[i - 1] in outer;
      } else {
        var j :| 0 <= j < |ctes| && ctes[j] == b;
      }
    }
  }

  /**
   In a region without CTEs a qualifier reaches the first source that answers to it, by its alias or, without one, by its
   name: that source's binding is the one found.
   */
  lemma QualifierReaches(v: View, region: Node, outer: seq<Frame>, k: nat, q: string)
    requires Faithful(v) && Plainly(region) && OfKind(region.kids, Cte) == []
    requires forall f, b :: f in outer && b in f.ctes ==> b.alias.None?
    requires FirstAnswering(v, Bound(v, Chain([], outer), SourcesIn(region.kids)), k, q)
    ensures
      var s, bound := WalkRegion(v, region, outer).0, Bound(v, Chain([], outer), SourcesIn(region.kids));
      k < |s.bindings| && StandsFor(v, Chain([], outer), bound[k], s.bindings[k])
      && Lookup(v, OwnFrames(v, region, outer), q) == Some(s.bindings[k])
  {
    var s := WalkRegion(v, region, outer).0;
    RegionCtes(v, region, outer);
    RegionBinds(v, region, outer);
    CtesUnaliased(v, region, outer);
    assert s.ctes == [];
    QualifierFinds(v, Chain([], outer), Bound(v, Chain([], outer), SourcesIn(region.kids)), s.bindings, k, q);
    assert OwnFrames(v, region, outer)[0] == Frame([], s.bindings);
  }

  lemma CatalogIsFaithful(c: Catalog, fold: Folding, objects: seq<SchemaObject>)
    requires Built(c, fold, objects) && AllRelations(Relations(objects)) && UniqueNames(Relations(objects))
    ensures Faithful(CatalogView(c, fold, objects))
  {
    forall schema, name | ResolveIn(c, fold, objects, schema, name).Some?
      ensures fold(NameIn(c, ResolveIn(c, fold, objects, schema, name).value)) == fold(name)
    {
      var r := ResolveIn(c, fold, objects, schema, name).value;
      NameStands(c, fold, objects, schema, name, r);
      RelationSlot(c, fold, objects, r);
    }
  }

  /** The reference a source names its relation by. */
  ghost predicate ReferenceOf(s: Source, m: Node) {
    match s
    case Item(n) => NoKid(n, Subquery) && LastKid(n, ObjectReference, m)
    case Lateral(_) => false
    case Deleted(n) => FirstKid(n, ObjectReference, m)
    case Inserted(n) => FirstKid(n, ObjectReference, m)
  }

  /** The reference stands for relation `r` of the snapshot. */
  ghost predicate RefersTo(fold: Folding, objects: seq<SchemaObject>, m: Node, r: nat)
    requires AllRelations(Relations(objects))
  {
    var parts := PartsOf(m);
    && parts != []
    && if |parts| == 1 then StandsAlone(fold, objects, parts[0].name, r)
       else Stands(fold, objects, parts[|parts| - 2].name, parts[|parts| - 1].name, r)
  }

  lemma ReferenceFound(c: Catalog, fold: Folding, objects: seq<SchemaObject>, m: Node, r: nat)
    requires Built(c, fold, objects) && AllRelations(Relations(objects)) && UniqueNames(Relations(objects))
    requires RefersTo(fold, objects, m, r)
    ensures PartsOf(m) != [] && InCatalog(CatalogView(c, fold, objects), PartsOf(m)) == Some(r) && r < |Relations(objects)|
  {
    PartsStand(c, fold, objects, m, r);
  }

  lemma PartsStand(c: Catalog, fold: Folding, objects: seq<SchemaObject>, m: Node, r: nat)
    requires Built(c, fold, objects) && AllRelations(Relations(objects)) && UniqueNames(Relations(objects)) && PartsOf(m) != []
    ensures InCatalog(CatalogView(c, fold, objects), PartsOf(m)) == Some(r) <==> RefersTo(fold, objects, m, r)
    ensures RefersTo(fold, objects, m, r) ==> r < |Relations(objects)|
  {
    InCatalogIs(c, fold, objects, PartsOf(m));
    NameStands(c, fold, objects, SchemaPart(PartsOf(m)), LastName(PartsOf(m)), r);
    RefersIs(fold, objects, m, r);
  }

  /** The schema a name of several parts is looked up in, and the name looked up. */
  function SchemaPart(parts: seq<Part>): Option<string> {
    if |parts| <= 1 then None else Some(parts[|parts| - 2].name)
  }

  function LastName(parts: seq<Part>): string
    requires parts != []
  {
    parts[|parts| - 1].name
  }

  lemma InCatalogIs(c: Catalog, fold: Folding, objects: seq<SchemaObject>, parts: seq<Part>)
    requires parts != []
    ensures InCatalog(CatalogView(c, fold, objects), parts) == ResolveIn(c, fold, objects, SchemaPart(parts), LastName(parts))
  {
  }

  lemma RefersIs(fold: Folding, objects: seq<SchemaObject>, m: Node, r: nat)
    requires AllRelations(Relations(objects)) && PartsOf(m) != []
    ensures RefersTo(fold, objects, m, r) <==>
              if SchemaPart(PartsOf(m)).None? then StandsAlone(fold, objects, LastName(PartsOf(m)), r)
              else Stands(fold, objects, SchemaPart(PartsOf(m)).value, LastName(PartsOf(m)), r)
  {
  }

  lemma SourceOfRelation(v: View, chain: seq<seq<Binding>>, s: Source, b: Binding, m: Node, r: nat)
    requires StandsFor(v, chain, s, b) && ReferenceOf(s, m) && PartsOf(m) != [] && InCatalog(v, PartsOf(m)) == Some(r)
    requires |PartsOf(m)| == 1 ==> !SomeCte(v, chain, PartsOf(m)[0].name)
    ensures b.relation == Some(r) && b.columns == CatalogColumns(v, r)
  {
    var n := s.node;
    var k :| (if s.Item? then LastKid(n, ObjectReference, k) else FirstKid(n, ObjectReference, k)) && NamedBy(v, chain, n, k, b);
    if s.Item? { OneLastKid(n, ObjectReference, k, m); } else { OneFirstKid(n, ObjectReference, k, m); }
    assert b.columns == CatalogColumns(v, r);
  }

  /**
   Over the catalog of a snapshot, in a region without CTEs: a reference `q.column`, where the first source that answers
   to `q` refers to a relation of the snapshot with exactly one column of that name, is not reported.
   */
  lemma AliasedColumn(c: Catalog, fold: Folding, objects: seq<SchemaObject>, region: Node, outer: seq<Frame>, k: nat, m: Node, r: nat, n: Node)
    requires Built(c, fold, objects) && UniqueIds(objects) && AllRelations(Relations(objects)) && UniqueNames(Relations(objects))
    requires Plainly(region) && OfKind(region.kids, Cte) == []
    requires forall f, b :: f in outer && b in f.ctes ==> b.alias.None?
    requires |PartsOf(n)| == 2 && FirstAnswering(CatalogView(c, fold, objects), SourcesBound(c, fold, objects, region, outer), k, PartsOf(n)[0].name)
    requires ReferenceOf(SourcesBound(c, fold, objects, region, outer)[k], m) && RefersTo(fold, objects, m, r)
    requires |PartsOf(m)| == 1 ==> !SomeCte(CatalogView(c, fold, objects), Chain([], outer), PartsOf(m)[0].name)
    requires r < |Relations(objects)| && OneColumn(fold, objects, r, PartsOf(n)[1].name)
    ensures ResolveField(CatalogView(c, fold, objects), n, OwnFrames(CatalogView(c, fold, objects), region, outer)) == []
  {
    var v := CatalogView(c, fold, objects);
    CatalogIsFaithful(c, fold, objects);
    var b := AliasBinding(c, fold, objects, region, outer, k, m, r, PartsOf(n)[0].name);
    BoundColumn(c, fold, objects, b, r, PartsOf(n)[1], PartsOf(n)[0].name);
    FoundIsJudged(v, n, OwnFrames(v, region, outer), b);
  }

  lemma FoundIsJudged(v: View, n: Node, full: seq<Frame>, b: Binding)
    requires |PartsOf(n)| == 2 && Lookup(v, full, PartsOf(n)[0].name) == Some(b)
    requires Against(v, b, PartsOf(n)[1], PartsOf(n)[0].name) == []
    ensures ResolveField(v, n, full) == []
  {
  }

  /** The binding a qualifier reaches is of the relation its source refers to. */
  lemma AliasBinding(c: Catalog, fold: Folding, objects: seq<SchemaObject>, region: Node, outer: seq<Frame>, k: nat, m: Node, r: nat,
                     q: string) returns (b: Binding)
    requires Built(c, fold, objects) && AllRelations(Relations(objects)) && UniqueNames(Relations(objects))
    requires Faithful(CatalogView(c, fold, objects)) && Plainly(region) && OfKind(region.kids, Cte) == []
    requires forall f, d :: f in outer && d in f.ctes ==> d.alias.None?
    requires FirstAnswering(CatalogView(c, fold, objects), SourcesBound(c, fold, objects, region, outer), k, q)
    requires ReferenceOf(SourcesBound(c, fold, objects, region, outer)[k], m) && RefersTo(fold, objects, m, r)
    requires |PartsOf(m)| == 1 ==> !SomeCte(CatalogView(c, fold, objects), Chain([], outer), PartsOf(m)[0].name)
    ensures b.relation == Some(r) && b.columns == CatalogColumns(CatalogView(c, fold, objects), r)
    ensures Lookup(CatalogView(c, fold, objects), OwnFrames(CatalogView(c, fold, objects), region, outer), q) == Some(b)
  {
    var v := CatalogView(c, fold, objects);
    QualifierReaches(v, region, outer, k, q);
    ReferenceFound(c, fold, objects, m, r);
    b := WalkRegion(v, region, outer).0.bindings[k];
    SourceOfRelation(v, Chain([], outer), SourcesBound(c, fold, objects, region, outer)[k], b, m, r);
  }

  /** The sources of a region without CTEs that bind. */
  ghost function SourcesBound(c: Catalog, fold: Folding, objects: seq<SchemaObject>, region: Node, outer: seq<Frame>): seq<Source> {
    Bound(CatalogView(c, fold, objects), Chain([], outer), SourcesIn(region.kids))
  }

  // --- a statement without nested bodies ---

  ghost predicate Flatly(ns: seq<Node>) {
    forall m :: BelowAny(m, ns) ==> !m.kind.Subquery? && !m.kind.Cte? && !m.kind.ErrorNode? && !m.kind.SetOperation?
  }

  /** The names a source has refer to something. */
  ghost predicate SourceRefers(v: View, chain: seq<seq<Binding>>, s: Source) {
    forall m :: ReferenceOf(s, m) && PartsOf(m) != [] ==> Refers(v, chain, PartsOf(m))
  }

  ghost predicate AllRefer(v: View, chain: seq<seq<Binding>>, sources: seq<Source>) {
    forall s :: s in sources ==> SourceRefers(v, chain, s)
  }

  lemma ItemReports(v: View, n: Node, ctes: seq<Binding>, outer: seq<Frame>)
    requires v.loaded
    ensures RelationItem(v, n, ctes, outer).1 == [] <==> SourceRefers(v, Chain(ctes, outer), Item(n))
  {
    KidsEnds(n, Subquery);
    forall m ensures LastKid(n, ObjectReference, m) <==> Last(Direct(n, ObjectReference)) == Some(m) {
      WalkerBindings.OneLast(n, ObjectReference, m);
    }
    var reference, aliasNode := Last(Direct(n, ObjectReference)), Last(Direct(n, Identifier));
    if reference.Some? && PartsOf(reference.value) != [] {
      SourceOfName(v, PartsOf(reference.value), if aliasNode.Some? then Some(aliasNode.value.text) else None, ctes, outer, true);
    }
  }

  lemma TargetReports(v: View, n: Node, alias: Option<string>, ctes: seq<Binding>, outer: seq<Frame>)
    requires v.loaded
    ensures BindTarget(v, First(Direct(n, ObjectReference)), alias, ctes, outer).1 == [] <==>
            forall m :: FirstKid(n, ObjectReference, m) && PartsOf(m) != [] ==> Refers(v, Chain(ctes, outer), PartsOf(m))
  {
    forall m ensures FirstKid(n, ObjectReference, m) <==> First(Direct(n, ObjectReference)) == Some(m) { OneFirst(n, ObjectReference, m); }
    var target := First(Direct(n, ObjectReference));
    if target.Some? && PartsOf(target.value) != [] { SourceOfName(v, PartsOf(target.value), alias, ctes, outer, false); }
  }

  lemma OwnReports(v: View, n: Node, inDelete: bool, ctes: seq<Binding>, outer: seq<Frame>)
    requires v.loaded
    ensures OwnTarget(v, n, inDelete, ctes, outer).1 == [] <==> AllRefer(v, Chain(ctes, outer), OwnSource(n, inDelete))
  {
    if n.kind.From? && inDelete {
      var aliasNode := First(Direct(n, Identifier));
      TargetReports(v, n, if aliasNode.Some? then Some(aliasNode.value.text) else None, ctes, outer);
      OneRefers(v, Chain(ctes, outer), Deleted(n));
    } else if n.kind.Insert? {
      TargetReports(v, n, None, ctes, outer);
      OneRefers(v, Chain(ctes, outer), Inserted(n));
    }
  }

  lemma OneRefers(v: View, chain: seq<seq<Binding>>, s: Source)
    ensures AllRefer(v, chain, [s]) <==> SourceRefers(v, chain, s)
  {
    assert s in [s];
  }

  lemma ReferConcat(v: View, chain: seq<seq<Binding>>, a: seq<Source>, b: seq<Source>)
    ensures AllRefer(v, chain, a + b) <==> AllRefer(v, chain, a) && AllRefer(v, chain, b)
  {
  }

  lemma {:induction false} NodeReports(v: View, n: Node, inDelete: bool, ctes: seq<Binding>, outer: seq<Frame>)
    requires v.loaded
    ensures PhaseA(v, n, inDelete, ctes, outer).1 == [] <==> AllRefer(v, Chain(ctes, outer), SourcesAt(n, inDelete))
    decreases Size(n), 0
  {
    DescendsThrough(n.kind);
    if n.kind.Relation? {
      ItemReports(v, n, ctes, outer);
      OneRefers(v, Chain(ctes, outer), Item(n));
    } else if LeadsOn(n.kind) {
      PhaseAThrough(v, n, inDelete, ctes, outer);
      OwnReports(v, n, inDelete, ctes, outer);
      AllReport(v, n.kids, HasKind(n.kids, Delete), ctes, outer);
      ClauseSources(n, inDelete);
      ReferConcat(v, Chain(ctes, outer), OwnSource(n, inDelete), SourcesIn(n.kids));
    }
  }

  /** Phase A reports nothing exactly when every source's name refers to something. */
  lemma {:induction false} AllReport(v: View, ns: seq<Node>, inDelete: bool, ctes: seq<Binding>, outer: seq<Frame>)
    requires v.loaded
    ensures PhaseAll(v, ns, inDelete, ctes, outer).1 == [] <==> AllRefer(v, Chain(ctes, outer), SourcesAmong(ns, inDelete))
    decreases SizeAll(ns), 1
  {
    if ns != [] {
      NodeReports(v, ns[0], inDelete, ctes, outer);
      AllReport(v, ns[1..], inDelete, ctes, outer);
      ReferConcat(v, Chain(ctes, outer), SourcesAt(ns[0], inDelete), SourcesAmong(ns[1..], inDelete));
    }
  }

  ghost predicate FieldsQuiet(v: View, ns: seq<Node>, full: seq<Frame>) {
    forall m :: BelowAny(m, ns) && m.kind.Field? ==> ResolveField(v, m, full) == []
  }

  lemma BelowSplit(ns: seq<Node>)
    requires ns != []
    ensures forall m :: BelowAny(m, ns) <==> BelowAny(m, [ns[0]]) || BelowAny(m, ns[1..])
    ensures forall m :: BelowAny(m, [ns[0]]) <==> m == ns[0] || BelowAny(m, ns[0].kids)
  {
    assert [ns[0]][1..] == [];
  }

  lemma QuietSplit(v: View, ns: seq<Node>, full: seq<Frame>)
    requires ns != []
    ensures FieldsQuiet(v, ns, full) <==> FieldsQuiet(v, [ns[0]], full) && FieldsQuiet(v, ns[1..], full)
    ensures FieldsQuiet(v, [ns[0]], full) <==> (ns[0].kind.Field? ==> ResolveField(v, ns[0], full) == []) && FieldsQuiet(v, ns[0].kids, full)
    ensures Flatly(ns) ==> Flatly([ns[0]]) && Flatly(ns[0].kids) && Flatly(ns[1..])
  {
    BelowSplit(ns);
  }

  lemma FlatKind(ns: seq<Node>)
    requires ns != [] && Flatly(ns)
    ensures var k := ns[0].kind; !k.Subquery? && !k.Cte? && !k.ErrorNode? && !k.SetOperation?
  {
    BelowSplit(ns);
    assert BelowAny(ns[0], ns);
  }

  lemma {:induction false} FlatNodes(v: View, ns: seq<Node>, full: seq<Frame>)
    requires Flatly(ns)
    ensures SubqueriesIn(v, ns, full) == Found([], [])
    ensures ResolveNodes(v, ns, full) == [] <==> FieldsQuiet(v, ns, full)
    decreases SizeAll(ns), 1
  {
    if ns != [] {
      QuietSplit(v, ns, full);
      FlatNode(v, ns[0], full);
      FlatNodes(v, ns[1..], full);
    }
  }

  lemma {:induction false} FlatNode(v: View, n: Node, full: seq<Frame>)
    requires Flatly([n])
    ensures Subqueries(v, n, full) == Found([], [])
    ensures ResolveNode(v, n, full) == [] <==> FieldsQuiet(v, [n], full)
    decreases Size(n), 0
  {
    QuietSplit(v, [n], full);
    FlatKind([n]);
    FlatNodes(v, n.kids, full);
  }

  lemma {:induction false} FlatParts(v: View, parts: seq<Node>, full: seq<Frame>)
    requires Flatly(parts)
    ensures WalkNested(v, parts, full) == Found([], [])
    ensures ResolveParts(v, parts, full) == [] <==> FieldsQuiet(v, parts, full)
    decreases |parts|
  {
    if parts != [] {
      QuietSplit(v, parts, full);
      FlatKind(parts);
      FlatNode(v, parts[0], full);
      FlatParts(v, parts[1..], full);
    }
  }

  /** The walk of such a region. */
  lemma FlatWalk(v: View, region: Node, outer: seq<Frame>)
    requires Plainly(region) && Flatly(region.kids)
    ensures
      var a := PhaseAll(v, region.kids, HasKind(region.kids, Delete), [], outer);
      var full := [Frame([], a.0)] + outer;
      WalkRegion(v, region, outer) == (Scope(region.start, region.end, [], a.0, []), a.1 + ResolveParts(v, region.kids, full))
  {
    forall m | m in region.kids ensures !m.kind.Cte? {
      assert Below(m, m);
      BelowMember(m, region.kids);
    }
    NoneOfKind(region.kids, Cte);
    NoneOfKind(region.kids, SetOperation);
    var a := PhaseAll(v, region.kids, HasKind(region.kids, Delete), [], outer);
    FlatParts(v, region.kids, [Frame([], a.0)] + outer);
    PartsWithoutBodies(v, region.kids, HasKind(region.kids, Delete), region.start, region.end, outer);
  }

  lemma PartsWithoutBodies(v: View, parts: seq<Node>, inDelete: bool, start: nat, end: nat, outer: seq<Frame>)
    requires OfKind(parts, Cte) == []
    requires WalkNested(v, parts, [Frame([], PhaseAll(v, parts, inDelete, [], outer).0)] + outer) == Found([], [])
    ensures
      var a := PhaseAll(v, parts, inDelete, [], outer);
      WalkParts(v, parts, inDelete, start, end, [], true, outer)
      == (Scope(start, end, [], a.0, []), a.1 + ResolveParts(v, parts, [Frame([], a.0)] + outer))
  {
    var a := PhaseAll(v, parts, inDelete, [], outer);
    assert a.1 + [] + [] == a.1;
  }

  /** A region without nested bodies reports nothing exactly when the names of its sources refer to something and no
      column reference below it is at fault in its own frames. */
  lemma FlatRegion(v: View, region: Node, outer: seq<Frame>)
    requires v.loaded && Plainly(region) && Flatly(region.kids)
    ensures
      WalkRegion(v, region, outer).1 == [] <==>
        AllRefer(v, Chain([], outer), SourcesIn(region.kids)) && FieldsQuiet(v, region.kids, OwnFrames(v, region, outer))
  {
    FlatWalk(v, region, outer);
    AllReport(v, region.kids, HasKind(region.kids, Delete), [], outer);
    FlatParts(v, region.kids, OwnFrames(v, region, outer));
  }

  /**
   Over the catalog of a snapshot with relations, such a region reports nothing exactly when every name its sources refer
   by is a CTE's or stands for a relation, and no column reference below it is at fault.
   */
  lemma FlatStatement(c: Catalog, fold: Folding, objects: seq<SchemaObject>, region: Node, outer: seq<Frame>)
    requires Built(c, fold, objects) && UniqueIds(objects) && AllRelations(Relations(objects)) && UniqueNames(Relations(objects))
    requires Relations(objects) != [] && Plainly(region) && Flatly(region.kids)
    requires FramesGrounded(CatalogView(c, fold, objects), |Relations(objects)|, outer)
    ensures
      var v := CatalogView(c, fold, objects);
      WalkRegion(v, region, outer).1 == [] <==>
        && (forall s, m :: s in SourcesIn(region.kids) && ReferenceOf(s, m) && PartsOf(m) != [] ==>
              || (|PartsOf(m)| == 1 && SomeCte(v, Chain([], outer), PartsOf(m)[0].name))
              || exists r: nat :: RefersTo(fold, objects, m, r))
        && (forall m, d :: BelowAny(m, region.kids) && m.kind.Field? ==> !FieldFault(v, objects, m, OwnFrames(v, region, outer), d))
  {
    var v := CatalogView(c, fold, objects);
    FlatRegion(v, region, outer);
    CatalogIsBounded(c, fold, objects);
    RegionSound(v, |Relations(objects)|, region, outer);
    SourcesRefer(c, fold, objects, SourcesIn(region.kids), Chain([], outer));
    FieldsFaultless(c, fold, objects, region.kids, OwnFrames(v, region, outer));
  }

  lemma SourcesRefer(c: Catalog, fold: Folding, objects: seq<SchemaObject>, sources: seq<Source>, chain: seq<seq<Binding>>)
    requires Built(c, fold, objects) && AllRelations(Relations(objects)) && UniqueNames(Relations(objects))
    ensures AllRefer(CatalogView(c, fold, objects), chain, sources) <==>
              forall s, m :: s in sources && ReferenceOf(s, m) && PartsOf(m) != [] ==>
                || (|PartsOf(m)| == 1 && SomeCte(CatalogView(c, fold, objects), chain, PartsOf(m)[0].name))
                || exists r: nat :: RefersTo(fold, objects, m, r)
  {
    forall m | PartsOf(m) != []
      ensures InCatalog(CatalogView(c, fold, objects), PartsOf(m)).Some? <==> exists r: nat :: RefersTo(fold, objects, m, r)
    {
      FoundRefers(c, fold, objects, m);
    }
  }

  lemma FieldsFaultless(c: Catalog, fold: Folding, objects: seq<SchemaObject>, ns: seq<Node>, frames: seq<Frame>)
    requires Built(c, fold, objects) && UniqueIds(objects) && AllRelations(Relations(objects)) && UniqueNames(Relations(objects))
    requires Relations(objects) != [] && FramesGrounded(CatalogView(c, fold, objects), |Relations(objects)|, frames)
    ensures FieldsQuiet(CatalogView(c, fold, objects), ns, frames) <==>
              forall m, d :: BelowAny(m, ns) && m.kind.Field? ==> !FieldFault(CatalogView(c, fold, objects), objects, m, frames, d)
  {
    var v := CatalogView(c, fold, objects);
    forall m | BelowAny(m, ns) && m.kind.Field?
      ensures ResolveField(v, m, frames) == [] <==> forall d :: !FieldFault(v, objects, m, frames, d)
    {
      FieldExactly(c, fold, objects, m, frames);
    }
  }

  lemma FoundRefers(c: Catalog, fold: Folding, objects: seq<SchemaObject>, m: Node)
    requires Built(c, fold, objects) && AllRelations(Relations(objects)) && UniqueNames(Relations(objects)) && PartsOf(m) != []
    ensures InCatalog(CatalogView(c, fold, objects), PartsOf(m)).Some? <==> exists r: nat :: RefersTo(fold, objects, m, r)
  {
    if r: nat :| RefersTo(fold, objects, m, r) { PartsStand(c, fold, objects, m, r); }
    var found := InCatalog(CatalogView(c, fold, objects), PartsOf(m));
    if found.Some? { PartsStand(c, fold, objects, m, found.value); }
  }
}
