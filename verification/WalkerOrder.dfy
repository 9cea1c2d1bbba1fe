/**
 What the walk depends on: enclosing frames that differ only in the order of unambiguous bindings give the same
 result, so the order of a statement's clauses does not change what is reported, at any depth of nesting.
 */
module WalkerOrder {
  import opened Scopes
  import opened Sorting
  import opened SyntaxTree
  import opened Walker
  import opened Wrappers

  // --- similar enclosing frames give equal results ---

  lemma CtesSimilar(v: View, fs: seq<Frame>, gs: seq<Frame>)
    requires SimilarAll(v, fs, gs)
    ensures CtesOf(fs) == CtesOf(gs)
  {
    forall i | 0 <= i < |fs| ensures CtesOf(fs)[i] == CtesOf(gs)[i] {
      assert Similar(v, fs[i], gs[i]);
    }
  }

  lemma SimilarUnder(v: View, f: Frame, fs: seq<Frame>, gs: seq<Frame>)
    requires SimilarAll(v, fs, gs)
    ensures SimilarAll(v, [f] + fs, [f] + gs)
  {
  }

  lemma BindSourceSimilar(v: View, parts: seq<Part>, alias: Option<string>, ctes: seq<Binding>,
                          fs: seq<Frame>, gs: seq<Frame>, bindAnyway: bool)
    requires parts != [] && CtesOf(fs) == CtesOf(gs)
    ensures BindSource(v, parts, alias, ctes, fs, bindAnyway) == BindSource(v, parts, alias, ctes, gs, bindAnyway)
  {
  }

  lemma RelationItemSimilar(v: View, n: Node, ctes: seq<Binding>, fs: seq<Frame>, gs: seq<Frame>)
    requires CtesOf(fs) == CtesOf(gs)
    ensures RelationItem(v, n, ctes, fs) == RelationItem(v, n, ctes, gs)
  {
    forall parts, alias | parts != [] ensures
      BindSource(v, parts, alias, ctes, fs, true) == BindSource(v, parts, alias, ctes, gs, true)
    {
      BindSourceSimilar(v, parts, alias, ctes, fs, gs, true);
    }
  }

  lemma BindTargetSimilar(v: View, target: Option<Node>, alias: Option<string>, ctes: seq<Binding>,
                          fs: seq<Frame>, gs: seq<Frame>)
    requires CtesOf(fs) == CtesOf(gs)
    ensures BindTarget(v, target, alias, ctes, fs) == BindTarget(v, target, alias, ctes, gs)
  {
    var parts := if target.Some? then PartsOf(target.value) else [];
    if parts != [] { BindSourceSimilar(v, parts, alias, ctes, fs, gs, false); }
  }

  lemma DmlFromSimilar(v: View, n: Node, ctes: seq<Binding>, fs: seq<Frame>, gs: seq<Frame>)
    requires CtesOf(fs) == CtesOf(gs)
    ensures DmlFrom(v, n, ctes, fs) == DmlFrom(v, n, ctes, gs)
  {
    var alias := First(Direct(n, Identifier));
    BindTargetSimilar(v, First(Direct(n, ObjectReference)), if alias.Some? then Some(alias.value.text) else None, ctes, fs, gs);
  }

  lemma OwnTargetSimilar(v: View, n: Node, inDelete: bool, ctes: seq<Binding>, fs: seq<Frame>, gs: seq<Frame>)
    requires CtesOf(fs) == CtesOf(gs)
    ensures OwnTarget(v, n, inDelete, ctes, fs) == OwnTarget(v, n, inDelete, ctes, gs)
  {
    DmlFromSimilar(v, n, ctes, fs, gs);
    BindTargetSimilar(v, First(Direct(n, ObjectReference)), None, ctes, fs, gs);
  }

  lemma {:induction false} PhaseASimilar(v: View, n: Node, inDelete: bool, ctes: seq<Binding>, fs: seq<Frame>, gs: seq<Frame>)
    requires CtesOf(fs) == CtesOf(gs)
    ensures PhaseA(v, n, inDelete, ctes, fs) == PhaseA(v, n, inDelete, ctes, gs)
    decreases Size(n), 0
  {
    if n.kind.Relation? {
      RelationItemSimilar(v, n, ctes, fs, gs);
    } else if !BindsNothingBelow(n.kind) && !n.kind.LateralJoin? && !n.kind.LateralCrossJoin? {
      OwnTargetSimilar(v, n, inDelete, ctes, fs, gs);
      PhaseAllSimilar(v, n.kids, HasKind(n.kids, Delete), ctes, fs, gs);
    }
  }

  lemma {:induction false} PhaseAllSimilar(v: View, ns: seq<Node>, inDelete: bool, ctes: seq<Binding>,
                                           fs: seq<Frame>, gs: seq<Frame>)
    requires CtesOf(fs) == CtesOf(gs)
    ensures PhaseAll(v, ns, inDelete, ctes, fs) == PhaseAll(v, ns, inDelete, ctes, gs)
    decreases SizeAll(ns), 1
  {
    if ns != [] {
      PhaseASimilar(v, ns[0], inDelete, ctes, fs, gs);
      PhaseAllSimilar(v, ns[1..], inDelete, ctes, fs, gs);
    }
  }

  lemma ResolveFieldSimilar(v: View, n: Node, fs: seq<Frame>, gs: seq<Frame>)
    requires SimilarAll(v, fs, gs)
    ensures ResolveField(v, n, fs) == ResolveField(v, n, gs)
  {
    var refs := PartsOf(n);
    if refs != [] {
      BareSimilar(v, fs, gs, refs[0].name, refs[0].start, refs[0].end, false);
      LookupSimilar(v, fs, gs, refs[0].name);
    }
  }

  lemma {:induction false} ResolveNodeSimilar(v: View, n: Node, fs: seq<Frame>, gs: seq<Frame>)
    requires SimilarAll(v, fs, gs)
    ensures ResolveNode(v, n, fs) == ResolveNode(v, n, gs)
    decreases Size(n), 0
  {
    ResolveFieldSimilar(v, n, fs, gs);
    ResolveNodesSimilar(v, n.kids, fs, gs);
  }

  lemma {:induction false} ResolveNodesSimilar(v: View, ns: seq<Node>, fs: seq<Frame>, gs: seq<Frame>)
    requires SimilarAll(v, fs, gs)
    ensures ResolveNodes(v, ns, fs) == ResolveNodes(v, ns, gs)
    decreases SizeAll(ns), 1
  {
    if ns != [] {
      ResolveNodeSimilar(v, ns[0], fs, gs);
      ResolveNodesSimilar(v, ns[1..], fs, gs);
    }
  }

  lemma {:induction false} ResolvePartsSimilar(v: View, ns: seq<Node>, fs: seq<Frame>, gs: seq<Frame>)
    requires SimilarAll(v, fs, gs)
    ensures ResolveParts(v, ns, fs) == ResolveParts(v, ns, gs)
  {
    if ns != [] {
      ResolveNodeSimilar(v, ns[0], fs, gs);
      ResolvePartsSimilar(v, ns[1..], fs, gs);
    }
  }

  /** A region's result depends on the enclosing frames only up to the order of unambiguous bindings. */
  lemma {:induction false} RegionSimilar(v: View, region: Node, fs: seq<Frame>, gs: seq<Frame>)
    requires SimilarAll(v, fs, gs)
    ensures WalkRegion(v, region, fs) == WalkRegion(v, region, gs)
    decreases Size(region), 3
  {
    if !region.kind.ErrorNode? {
      var cteNodes, nested := Direct(region, Cte), Direct(region, SetOperation);
      var ctes := CteBindings(cteNodes);
      if region.kind.SetOperation? || nested != [] {
        CteBodiesSimilar(v, cteNodes, ctes, 0, fs, gs);
        SimilarUnder(v, Frame(ctes, []), fs, gs);
        if region.kind.SetOperation? {
          SidesSimilar(v, Sides(region.kids, []), HasKind(region.kids, Delete), [Frame(ctes, [])] + fs, [Frame(ctes, [])] + gs);
        } else {
          OpsSimilar(v, nested, [Frame(ctes, [])] + fs, [Frame(ctes, [])] + gs);
        }
      } else {
        PartsSimilar(v, region.kids, HasKind(region.kids, Delete), region.start, region.end, ctes, true, fs, gs);
      }
    }
  }

  lemma {:induction false} OpsSimilar(v: View, ops: seq<Node>, fs: seq<Frame>, gs: seq<Frame>)
    requires SimilarAll(v, fs, gs)
    ensures WalkOps(v, ops, fs) == WalkOps(v, ops, gs)
    decreases SizeAll(ops), 2
  {
    if ops != [] {
      SidesSimilar(v, Sides(ops[0].kids, []), HasKind(ops[0].kids, Delete), fs, gs);
      OpsSimilar(v, ops[1..], fs, gs);
    }
  }

  lemma {:induction false} SidesSimilar(v: View, sides: seq<seq<Node>>, inDelete: bool, fs: seq<Frame>, gs: seq<Frame>)
    requires SimilarAll(v, fs, gs)
    ensures WalkSides(v, sides, inDelete, fs) == WalkSides(v, sides, inDelete, gs)
    decreases SizeSides(sides), 7, |sides|
  {
    if sides != [] {
      var side := sides[0];
      var start, end := if side == [] then 0 else side[0].start, if side == [] then 0 else side[|side| - 1].end;
      PartsSimilar(v, side, inDelete, start, end, [], false, fs, gs);
      SidesSimilar(v, sides[1..], inDelete, fs, gs);
    }
  }

  lemma {:induction false} PartsSimilar(v: View, parts: seq<Node>, inDelete: bool, start: nat, end: nat, ctes: seq<Binding>,
                                        owner: bool, fs: seq<Frame>, gs: seq<Frame>)
    requires SimilarAll(v, fs, gs)
    requires owner ==> |ctes| == |OfKind(parts, Cte)|
    ensures WalkParts(v, parts, inDelete, start, end, ctes, owner, fs) == WalkParts(v, parts, inDelete, start, end, ctes, owner, gs)
    decreases SizeAll(parts), 6
  {
    CtesSimilar(v, fs, gs);
    PhaseAllSimilar(v, parts, inDelete, ctes, fs, gs);
    var frame := Frame(ctes, PhaseAll(v, parts, inDelete, ctes, fs).0);
    SimilarUnder(v, frame, fs, gs);
    if owner { CteBodiesSimilar(v, OfKind(parts, Cte), ctes, 0, fs, gs); }
    NestedSimilar(v, parts, [frame] + fs, [frame] + gs);
    ResolvePartsSimilar(v, parts, [frame] + fs, [frame] + gs);
  }

  lemma {:induction false} CteBodiesSimilar(v: View, nodes: seq<Node>, ctes: seq<Binding>, i: nat, fs: seq<Frame>, gs: seq<Frame>)
    requires i + |nodes| <= |ctes| && SimilarAll(v, fs, gs)
    ensures CteBodies(v, nodes, ctes, i, fs) == CteBodies(v, nodes, ctes, i, gs)
    decreases SizeAll(nodes), 1
  {
    if nodes != [] {
      var f := Frame(ctes[..i], []);
      CteBodiesSimilar(v, nodes[1..], ctes, i + 1, fs, gs);
      SimilarUnder(v, f, fs, gs);
      BodySimilar(v, nodes[0], [f] + fs, [f] + gs);
    }
  }

  lemma {:induction false} BodySimilar(v: View, cte: Node, fs: seq<Frame>, gs: seq<Frame>)
    requires SimilarAll(v, fs, gs)
    ensures
      var body := First(Direct(cte, Statement));
      body.Some? ==> WalkRegion(v, body.value, fs) == WalkRegion(v, body.value, gs)
    decreases Size(cte), 0
  {
    var body := First(Direct(cte, Statement));
    if body.Some? { RegionSimilar(v, body.value, fs, gs); }
  }

  lemma {:induction false} NestedSimilar(v: View, parts: seq<Node>, fs: seq<Frame>, gs: seq<Frame>)
    requires SimilarAll(v, fs, gs)
    ensures WalkNested(v, parts, fs) == WalkNested(v, parts, gs)
    decreases SizeAll(parts), 5
  {
    if parts != [] {
      PartSimilar(v, parts[0], fs, gs);
      NestedSimilar(v, parts[1..], fs, gs);
    }
  }

  lemma {:induction false} PartSimilar(v: View, part: Node, fs: seq<Frame>, gs: seq<Frame>)
    requires SimilarAll(v, fs, gs)
    ensures WalkPart(v, part, fs) == WalkPart(v, part, gs)
    decreases Size(part), 4, 1
  {
    if part.kind.SetOperation? { RegionSimilar(v, part, fs, gs); } else { SubqueriesSimilar(v, part, fs, gs); }
  }

  lemma {:induction false} SubqueriesSimilar(v: View, n: Node, fs: seq<Frame>, gs: seq<Frame>)
    requires SimilarAll(v, fs, gs)
    ensures Subqueries(v, n, fs) == Subqueries(v, n, gs)
    decreases Size(n), 4, 0
  {
    if n.kind.Subquery? { RegionSimilar(v, n, fs, gs); } else { SubqueriesInSimilar(v, n.kids, fs, gs); }
  }

  lemma {:induction false} SubqueriesInSimilar(v: View, ns: seq<Node>, fs: seq<Frame>, gs: seq<Frame>)
    requires SimilarAll(v, fs, gs)
    ensures SubqueriesIn(v, ns, fs) == SubqueriesIn(v, ns, gs)
    decreases SizeAll(ns), 5
  {
    if ns != [] {
      SubqueriesSimilar(v, ns[0], fs, gs);
      SubqueriesInSimilar(v, ns[1..], fs, gs);
    }
  }

  // --- what the parts contribute does not depend on their order ---

  lemma PlusAssociates(a: (seq<Binding>, seq<Diagnostic>), b: (seq<Binding>, seq<Diagnostic>), c: (seq<Binding>, seq<Diagnostic>))
    ensures Plus(Plus(a, b), c) == Plus(a, Plus(b, c))
    ensures Plus(([], []), a) == a
  {
    assert [] + a.0 == a.0 && [] + a.1 == a.1;
    assert (a.0 + b.0) + c.0 == a.0 + (b.0 + c.0);
    assert (a.1 + b.1) + c.1 == a.1 + (b.1 + c.1);
  }

  lemma BothAssociates(a: Found, b: Found, c: Found)
    ensures Both(Both(a, b), c) == Both(a, Both(b, c))
    ensures Both(Found([], []), a) == a
  {
    assert (a.scopes + b.scopes) + c.scopes == a.scopes + (b.scopes + c.scopes);
    assert (a.diags + b.diags) + c.diags == a.diags + (b.diags + c.diags);
  }

  lemma {:induction false} PhaseAllSplit(v: View, a: seq<Node>, b: seq<Node>, inDelete: bool, ctes: seq<Binding>, outer: seq<Frame>)
    ensures PhaseAll(v, a + b, inDelete, ctes, outer)
         == Plus(PhaseAll(v, a, inDelete, ctes, outer), PhaseAll(v, b, inDelete, ctes, outer))
    decreases |a|
  {
    if a == [] {
      assert a + b == b;
      PlusAssociates(PhaseAll(v, b, inDelete, ctes, outer), ([], []), ([], []));
    } else {
      assert (a + b)[1..] == a[1..] + b;
      PhaseAllSplit(v, a[1..], b, inDelete, ctes, outer);
      PlusAssociates(PhaseA(v, a[0], inDelete, ctes, outer), PhaseAll(v, a[1..], inDelete, ctes, outer),
                     PhaseAll(v, b, inDelete, ctes, outer));
    }
  }

  lemma {:induction false} NestedSplit(v: View, a: seq<Node>, b: seq<Node>, full: seq<Frame>)
    ensures WalkNested(v, a + b, full) == Both(WalkNested(v, a, full), WalkNested(v, b, full))
    decreases |a|
  {
    if a == [] {
      assert a + b == b;
      BothAssociates(WalkNested(v, b, full), Found([], []), Found([], []));
    } else {
      assert (a + b)[1..] == a[1..] + b;
      NestedSplit(v, a[1..], b, full);
      BothAssociates(WalkPart(v, a[0], full), WalkNested(v, a[1..], full), WalkNested(v, b, full));
    }
  }

  lemma {:induction false} ResolvePartsSplit(v: View, a: seq<Node>, b: seq<Node>, full: seq<Frame>)
    ensures ResolveParts(v, a + b, full) == ResolveParts(v, a, full) + ResolveParts(v, b, full)
    decreases |a|
  {
    if a == [] {
      assert a + b == b;
    } else {
      assert (a + b)[1..] == a[1..] + b;
      ResolvePartsSplit(v, a[1..], b, full);
    }
  }

  /** What a list of parts contributes, as multisets. */
  datatype Bag = Bag(bindings: multiset<Binding>, scopes: multiset<Scope>, diags: multiset<Diagnostic>)

  function Add(a: Bag, b: Bag): Bag { Bag(a.bindings + b.bindings, a.scopes + b.scopes, a.diags + b.diags) }

  function BagOf(a: (seq<Binding>, seq<Diagnostic>), nested: Found, resolved: seq<Diagnostic>): Bag {
    Bag(multiset(a.0), multiset(nested.scopes), multiset(a.1) + multiset(nested.diags) + multiset(resolved))
  }

  function Contribution(v: View, parts: seq<Node>, inDelete: bool, ctes: seq<Binding>, outer: seq<Frame>, full: seq<Frame>): Bag {
    BagOf(PhaseAll(v, parts, inDelete, ctes, outer), WalkNested(v, parts, full), ResolveParts(v, parts, full))
  }

  lemma BagOfSum(a: (seq<Binding>, seq<Diagnostic>), b: (seq<Binding>, seq<Diagnostic>), m: Found, n: Found,
                 r: seq<Diagnostic>, t: seq<Diagnostic>)
    ensures BagOf(Plus(a, b), Both(m, n), r + t) == Add(BagOf(a, m, r), BagOf(b, n, t))
  {
  }

  lemma ContributionSplit(v: View, a: seq<Node>, b: seq<Node>, inDelete: bool, ctes: seq<Binding>, outer: seq<Frame>, full: seq<Frame>)
    ensures Contribution(v, a + b, inDelete, ctes, outer, full)
         == Add(Contribution(v, a, inDelete, ctes, outer, full), Contribution(v, b, inDelete, ctes, outer, full))
  {
    PhaseAllSplit(v, a, b, inDelete, ctes, outer);
    NestedSplit(v, a, b, full);
    ResolvePartsSplit(v, a, b, full);
    BagOfSum(PhaseAll(v, a, inDelete, ctes, outer), PhaseAll(v, b, inDelete, ctes, outer),
             WalkNested(v, a, full), WalkNested(v, b, full), ResolveParts(v, a, full), ResolveParts(v, b, full));
  }

  lemma AddAround(a: Bag, b: Bag, c: Bag)
    ensures Add(a, Add(b, c)) == Add(b, Add(a, c))
  {
  }

  lemma ContributionAt(v: View, a: seq<Node>, n: Node, c: seq<Node>, inDelete: bool, ctes: seq<Binding>,
                       outer: seq<Frame>, full: seq<Frame>)
    ensures Contribution(v, a + ([n] + c), inDelete, ctes, outer, full)
         == Add(Contribution(v, [n], inDelete, ctes, outer, full), Contribution(v, a + c, inDelete, ctes, outer, full))
  {
    ContributionSplit(v, a, [n] + c, inDelete, ctes, outer, full);
    ContributionSplit(v, [n], c, inDelete, ctes, outer, full);
    ContributionSplit(v, a, c, inDelete, ctes, outer, full);
    AddAround(Contribution(v, a, inDelete, ctes, outer, full), Contribution(v, [n], inDelete, ctes, outer, full),
              Contribution(v, c, inDelete, ctes, outer, full));
  }

  lemma {:induction false} ContributionPermutes(v: View, a: seq<Node>, b: seq<Node>, inDelete: bool, ctes: seq<Binding>,
                                                outer: seq<Frame>, full: seq<Frame>)
    requires multiset(a) == multiset(b)
    ensures Contribution(v, a, inDelete, ctes, outer, full) == Contribution(v, b, inDelete, ctes, outer, full)
    decreases |a|
  {
    if a == [] {
      assert |multiset(b)| == 0;
      assert b == [];
    } else {
      var i := RemoveFirst(a, b);
      ContributionPermutes(v, a[1..], b[..i] + b[i + 1..], inDelete, ctes, outer, full);
      ContributionSplit(v, [a[0]], a[1..], inDelete, ctes, outer, full);
      ContributionAt(v, b[..i], b[i], b[i + 1..], inDelete, ctes, outer, full);
    }
  }

  /** Both lists hold the same nodes, and the same CTEs in the same order. */
  ghost predicate Reordered(a: seq<Node>, b: seq<Node>) {
    multiset(a) == multiset(b) && OfKind(a, Cte) == OfKind(b, Cte)
  }

  ghost predicate SameReport(a: (Scope, seq<Diagnostic>), b: (Scope, seq<Diagnostic>)) {
    && a.0.ctes == b.0.ctes
    && multiset(a.0.bindings) == multiset(b.0.bindings)
    && multiset(a.0.children) == multiset(b.0.children)
    && multiset(a.1) == multiset(b.1)
  }

  /** A region's report is what its CTE bodies and its parts contribute. */
  ghost predicate Reports(r: (Scope, seq<Diagnostic>), ctes: seq<Binding>, bodies: Found, bag: Bag) {
    && r.0.ctes == ctes
    && multiset(r.0.bindings) == bag.bindings
    && multiset(r.0.children) == multiset(bodies.scopes) + bag.scopes
    && multiset(r.1) == multiset(bodies.diags) + bag.diags
  }

  lemma SameBag(r: (Scope, seq<Diagnostic>), s: (Scope, seq<Diagnostic>), ctes: seq<Binding>, bodies: Found, bag: Bag)
    requires Reports(r, ctes, bodies, bag) && Reports(s, ctes, bodies, bag)
    ensures SameReport(r, s)
  {
  }

  /** `walk_parts` of a region, from what its parts contribute. */
  lemma PartsContribute(v: View, parts: seq<Node>, inDelete: bool, start: nat, end: nat, ctes: seq<Binding>, outer: seq<Frame>)
    requires |ctes| == |OfKind(parts, Cte)|
    ensures
      Reports(WalkParts(v, parts, inDelete, start, end, ctes, true, outer), ctes, CteBodies(v, OfKind(parts, Cte), ctes, 0, outer),
              Contribution(v, parts, inDelete, ctes, outer, [Frame(ctes, PhaseAll(v, parts, inDelete, ctes, outer).0)] + outer))
  {
    var a := PhaseAll(v, parts, inDelete, ctes, outer);
    var full := [Frame(ctes, a.0)] + outer;
    var bodies, nested, own := CteBodies(v, OfKind(parts, Cte), ctes, 0, outer), WalkNested(v, parts, full), ResolveParts(v, parts, full);
    ReportOfPieces(WalkParts(v, parts, inDelete, start, end, ctes, true, outer), start, end, ctes, a, bodies, nested, own);
  }

  lemma ReportOfPieces(r: (Scope, seq<Diagnostic>), start: nat, end: nat, ctes: seq<Binding>, a: (seq<Binding>, seq<Diagnostic>),
                       bodies: Found, nested: Found, own: seq<Diagnostic>)
    requires r == (Scope(start, end, ctes, a.0, bodies.scopes + nested.scopes), a.1 + bodies.diags + nested.diags + own)
    ensures Reports(r, ctes, bodies, BagOf(a, nested, own))
  {
  }

  lemma ContributionSimilar(v: View, parts: seq<Node>, inDelete: bool, ctes: seq<Binding>, outer: seq<Frame>,
                            full: seq<Frame>, other: seq<Frame>)
    requires SimilarAll(v, full, other)
    ensures Contribution(v, parts, inDelete, ctes, outer, full) == Contribution(v, parts, inDelete, ctes, outer, other)
  {
    NestedSimilar(v, parts, full, other);
    ResolvePartsSimilar(v, parts, full, other);
  }

  lemma BindingsPermute(v: View, a: seq<Node>, b: seq<Node>, inDelete: bool, ctes: seq<Binding>, outer: seq<Frame>)
    requires multiset(a) == multiset(b)
    ensures multiset(PhaseAll(v, a, inDelete, ctes, outer).0) == multiset(PhaseAll(v, b, inDelete, ctes, outer).0)
  {
    ContributionPermutes(v, a, b, inDelete, ctes, outer, []);
    assert Contribution(v, a, inDelete, ctes, outer, []).bindings == Contribution(v, b, inDelete, ctes, outer, []).bindings;
  }

  lemma BagsAgree(v: View, a: seq<Node>, b: seq<Node>, inDelete: bool, ctes: seq<Binding>, outer: seq<Frame>, f: Frame, g: Frame)
    requires multiset(a) == multiset(b)
    requires f == Frame(ctes, PhaseAll(v, a, inDelete, ctes, outer).0) && g == Frame(ctes, PhaseAll(v, b, inDelete, ctes, outer).0)
    requires Unambiguous(v, f.bindings)
    ensures Contribution(v, a, inDelete, ctes, outer, [f] + outer) == Contribution(v, b, inDelete, ctes, outer, [g] + outer)
  {
    ContributionPermutes(v, a, b, inDelete, ctes, outer, [f] + outer);
    BindingsPermute(v, a, b, inDelete, ctes, outer);
    SimilarFront(v, f, g, outer);
    ContributionSimilar(v, b, inDelete, ctes, outer, [f] + outer, [g] + outer);
  }

  lemma SimilarFront(v: View, f: Frame, g: Frame, outer: seq<Frame>)
    requires f.ctes == g.ctes && multiset(f.bindings) == multiset(g.bindings) && Unambiguous(v, f.bindings)
    ensures SimilarAll(v, [f] + outer, [g] + outer)
  {
    assert Similar(v, f, g);
  }

  lemma ReorderedParts(v: View, a: seq<Node>, b: seq<Node>, inDelete: bool, start: nat, end: nat, ctes: seq<Binding>, outer: seq<Frame>)
    requires Reordered(a, b) && |ctes| == |OfKind(a, Cte)|
    requires Unambiguous(v, PhaseAll(v, a, inDelete, ctes, outer).0)
    ensures SameReport(WalkParts(v, a, inDelete, start, end, ctes, true, outer),
                       WalkParts(v, b, inDelete, start, end, ctes, true, outer))
  {
    var f := Frame(ctes, PhaseAll(v, a, inDelete, ctes, outer).0);
    var g := Frame(ctes, PhaseAll(v, b, inDelete, ctes, outer).0);
    BagsAgree(v, a, b, inDelete, ctes, outer, f, g);
    PartsContribute(v, a, inDelete, start, end, ctes, outer);
    PartsContribute(v, b, inDelete, start, end, ctes, outer);
    SameBag(WalkParts(v, a, inDelete, start, end, ctes, true, outer), WalkParts(v, b, inDelete, start, end, ctes, true, outer),
            ctes, CteBodies(v, OfKind(a, Cte), ctes, 0, outer), Contribution(v, a, inDelete, ctes, outer, [f] + outer));
  }

  /**
   Permuting the clauses of a statement without a set operation, its CTEs kept in order, changes neither the
   multiset of diagnostics nor the bindings and nested scopes, whatever subqueries the clauses hold, when no two
   of its bindings answer the same qualifier.
   */
  lemma ClauseOrderIrrelevant(v: View, a: Node, b: Node, outer: seq<Frame>)
    requires a.kind == b.kind && !a.kind.ErrorNode? && !a.kind.SetOperation?
    requires Reordered(a.kids, b.kids) && Direct(a, SetOperation) == []
    requires Unambiguous(v, PhaseAll(v, a.kids, HasKind(a.kids, Delete), CteBindings(Direct(a, Cte)), outer).0)
    ensures SameReport(WalkRegion(v, a, outer), WalkRegion(v, b, outer))
  {
    SameMembers(a.kids, b.kids);
    RegionOfParts(v, a, outer);
    NoneOfKind(a.kids, b.kids, SetOperation);
    RegionOfParts(v, b, outer);
    var ctes, inDelete := CteBindings(Direct(a, Cte)), HasKind(a.kids, Delete);
    assert HasKind(b.kids, Delete) == inDelete;
    ReorderedParts(v, a.kids, b.kids, inDelete, 0, 0, ctes, outer);
  }

  lemma NoneOfKind(a: seq<Node>, b: seq<Node>, kind: Kind)
    requires OfKind(a, kind) == [] && forall n :: n in b ==> n in a
    ensures OfKind(b, kind) == []
  {
    var r := OfKind(b, kind);
    assert |r| > 0 ==> r[0] in r;
    OfKindMembers(a, kind);
  }

  lemma RegionOfParts(v: View, a: Node, outer: seq<Frame>)
    requires !a.kind.ErrorNode? && !a.kind.SetOperation? && Direct(a, SetOperation) == []
    ensures
      var r := WalkRegion(v, a, outer);
      r == WalkParts(v, a.kids, HasKind(a.kids, Delete), a.start, a.end, CteBindings(Direct(a, Cte)), true, outer)
    ensures
      var r := WalkRegion(v, a, outer);
      SameReport(r, WalkParts(v, a.kids, HasKind(a.kids, Delete), 0, 0, CteBindings(Direct(a, Cte)), true, outer))
  {
  }

  lemma {:induction false} OfKindMembers(ns: seq<Node>, kind: Kind)
    ensures forall n :: n in ns && n.kind == kind ==> n in OfKind(ns, kind)
  {
    if ns != [] { OfKindMembers(ns[1..], kind); }
  }

  // --- the loop that resolves ---

  function OnStack(v: View, stack: seq<Node>, full: seq<Frame>): multiset<Diagnostic> {
    multiset(ResolveNodes(v, stack, full))
  }

  lemma {:induction false} ResolveNodesSplit(v: View, a: seq<Node>, b: seq<Node>, full: seq<Frame>)
    ensures ResolveNodes(v, a + b, full) == ResolveNodes(v, a, full) + ResolveNodes(v, b, full)
    decreases |a|
  {
    if a == [] {
      assert a + b == b;
    } else {
      assert (a + b)[1..] == a[1..] + b;
      ResolveNodesSplit(v, a[1..], b, full);
    }
  }

  lemma ResolveOne(v: View, n: Node, full: seq<Frame>)
    ensures ResolveNodes(v, [n], full) == ResolveNode(v, n, full)
    ensures SizeAll([n]) == Size(n)
  {
    assert [n][1..] == [];
  }

  /** What visiting the top of the stack reports, and what it leaves to do. */
  function Reported(v: View, n: Node, full: seq<Frame>): seq<Diagnostic> {
    if n.kind.ErrorNode? then [SyntaxErrorAt(n)] else if n.kind.Field? then ResolveField(v, n, full) else []
  }

  function Pushed(n: Node): seq<Node> {
    if n.kind.ErrorNode? || n.kind.Subquery? || n.kind.Cte? then [] else n.kids
  }

  lemma NodeReports(v: View, n: Node, full: seq<Frame>)
    ensures ResolveNode(v, n, full) == Reported(v, n, full) + ResolveNodes(v, Pushed(n), full)
  {
    if n.kind.Field? {
    } else if n.kind.ErrorNode? || n.kind.Subquery? || n.kind.Cte? {
    } else {
      assert ResolveNode(v, n, full) == ResolveNodes(v, n.kids, full);
    }
  }

  lemma PushedSmaller(n: Node)
    ensures SizeAll(Pushed(n)) < Size(n)
  {
  }

  lemma PopStack(v: View, rest: seq<Node>, n: Node, full: seq<Frame>)
    ensures OnStack(v, rest + [n], full) == multiset(Reported(v, n, full)) + OnStack(v, rest + Pushed(n), full)
    ensures SizeAll(rest + Pushed(n)) < SizeAll(rest + [n])
  {
    var next := Pushed(n);
    ResolveNodesSplit(v, rest, [n], full);
    ResolveNodesSplit(v, rest, next, full);
    ResolveOne(v, n, full);
    SizeConcat(rest, [n]);
    SizeConcat(rest, next);
    PushedSmaller(n);
    NodeReports(v, n, full);
  }

  /** `resolve_parts` on one part: an explicit last-in first-out stack reports what the recursive reading does. */
  method ResolveWithStack(v: View, part: Node, full: seq<Frame>) returns (diags: seq<Diagnostic>)
    ensures multiset(diags) == multiset(ResolveNode(v, part, full))
  {
    var stack := [part];
    diags := [];
    ResolveOne(v, part, full);
    while stack != []
      invariant multiset(diags) + OnStack(v, stack, full) == multiset(ResolveNode(v, part, full))
      decreases SizeAll(stack)
    {
      var rest, node := stack[..|stack| - 1], stack[|stack| - 1];
      assert stack == rest + [node];
      PopStack(v, rest, node, full);
      stack := rest;
      if node.kind.ErrorNode? {
        diags := diags + [SyntaxErrorAt(node)];
      } else if !node.kind.Subquery? && !node.kind.Cte? {
        if node.kind.Field? { diags := diags + ResolveField(v, node, full); }
        stack := stack + node.kids;
      }
      assert stack == rest + Pushed(node);
    }
  }
}
