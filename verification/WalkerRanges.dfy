/**
 Where the walk's results lie: over a tree whose nodes hold their children in order, scopes nest within their
 regions and every diagnostic lies in the region it was found in.
 */
module WalkerRanges {
  import opened FastPath
  import opened Scopes
  import opened Sorting
  import opened SyntaxTree
  import opened Walker
  import opened Wrappers

  // --- placed trees ---

  /** A node's children lie in its range, in order and without overlap, all the way down. */
  predicate Placed(n: Node)
    decreases Size(n), 0
  {
    n.start <= n.end && PlacedIn(n.kids, n.start, n.end)
  }

  predicate PlacedIn(ns: seq<Node>, lo: nat, hi: nat)
    decreases SizeAll(ns), 1
  {
    ns == [] || (lo <= ns[0].start && ns[0].end <= hi && Placed(ns[0]) && PlacedIn(ns[1..], ns[0].end, hi))
  }

  lemma {:induction false} PlacedWider(ns: seq<Node>, lo: nat, hi: nat, low: nat, high: nat)
    requires PlacedIn(ns, lo, hi) && low <= lo && hi <= high
    ensures PlacedIn(ns, low, high)
    decreases |ns|
  {
    if ns != [] { PlacedWider(ns[1..], ns[0].end, hi, ns[0].end, high); }
  }

  lemma {:induction false} PlacedMember(ns: seq<Node>, lo: nat, hi: nat, n: Node)
    requires PlacedIn(ns, lo, hi) && n in ns
    ensures Placed(n) && lo <= n.start <= n.end <= hi
    decreases |ns|
  {
    if n != ns[0] { PlacedMember(ns[1..], ns[0].end, hi, n); }
  }

  lemma {:induction false} OfKindPlaced(ns: seq<Node>, lo: nat, hi: nat, kind: Kind)
    requires PlacedIn(ns, lo, hi)
    ensures PlacedIn(OfKind(ns, kind), lo, hi)
    decreases |ns|
  {
    if ns != [] {
      OfKindPlaced(ns[1..], ns[0].end, hi, kind);
      if ns[0].kind == kind {
        assert OfKind(ns, kind)[1..] == OfKind(ns[1..], kind);
      } else {
        PlacedWider(OfKind(ns[1..], kind), ns[0].end, hi, lo, hi);
      }
    }
  }

  lemma {:induction false} PlacedAppend(ns: seq<Node>, lo: nat, hi: nat, n: Node)
    requires PlacedIn(ns, lo, hi) && lo <= hi <= n.start && Placed(n)
    ensures PlacedIn(ns + [n], lo, n.end)
    decreases |ns|
  {
    if ns == [] {
      assert ns + [n] == [n] && [n][1..] == [];
    } else {
      assert (ns + [n])[1..] == ns[1..] + [n];
      PlacedAppend(ns[1..], ns[0].end, hi, n);
    }
  }

  // --- sides of a set operation ---

  /** A side is placed between its first part's start and its last part's end. */
  predicate SidePlaced(side: seq<Node>, lo: nat, hi: nat) {
    && side != []
    && lo <= side[0].start <= side[|side| - 1].end <= hi
    && PlacedIn(side, side[0].start, side[|side| - 1].end)
  }

  predicate SidesPlaced(sides: seq<seq<Node>>, lo: nat, hi: nat) {
    forall k :: 0 <= k < |sides| ==> SidePlaced(sides[k], lo, hi)
  }

  lemma OneIsASide(n: Node, lo: nat, hi: nat)
    requires Placed(n) && lo <= n.start && n.end <= hi
    ensures SidePlaced([n], lo, hi)
  {
    assert [n][1..] == [];
  }

  lemma SideGrowsInPlace(side: seq<Node>, lo: nat, mid: nat, n: Node, hi: nat)
    requires SidePlaced(side, lo, mid) && mid <= n.start && Placed(n) && n.end <= hi
    ensures SidePlaced(side + [n], lo, hi)
  {
    PlacedAppend(side, side[0].start, side[|side| - 1].end, n);
  }

  lemma {:induction false} SidesInPlace(ns: seq<Node>, sides: seq<seq<Node>>, lo: nat, mid: nat, hi: nat)
    requires SidesPlaced(sides, lo, mid) && PlacedIn(ns, mid, hi) && lo <= mid <= hi
    ensures SidesPlaced(Sides(ns, sides), lo, hi)
    decreases |ns|
  {
    if ns != [] {
      var n := ns[0];
      assert SidesPlaced(sides, lo, n.end);
      if n.kind.Select? || n.kind.SetOperation? {
        OneIsASide(n, lo, n.end);
        SidesInPlace(ns[1..], sides + [[n]], lo, n.end, hi);
      } else if n.kind.Keyword? || n.kind.Open? || n.kind.Close? || sides == [] {
        SidesInPlace(ns[1..], sides, lo, n.end, hi);
      } else {
        var front, last := sides[..|sides| - 1], sides[|sides| - 1];
        SideGrowsInPlace(last, lo, mid, n, n.end);
        assert forall k :: 0 <= k < |front| ==> front[k] == sides[k];
        SidesInPlace(ns[1..], front + [last + [n]], lo, n.end, hi);
      }
    }
  }

  // --- where diagnostics lie ---

  predicate Inside(ds: seq<Diagnostic>, lo: nat, hi: nat) {
    forall d :: d in ds ==> lo <= d.start && d.end <= hi
  }

  lemma {:induction false} IdentifiersInside(ns: seq<Node>, lo: nat, hi: nat)
    requires PlacedIn(ns, lo, hi)
    ensures forall id :: id in IdentifiersIn(ns) ==> lo <= id.start <= id.end <= hi
    decreases SizeAll(ns)
  {
    if ns != [] {
      assert Size(ns[0]) > SizeAll(ns[0].kids);
      IdentifiersInside(ns[0].kids, ns[0].start, ns[0].end);
      IdentifiersInside(ns[1..], ns[0].end, hi);
    }
  }

  lemma PartsInside(n: Node)
    requires Placed(n)
    ensures forall p :: p in PartsOf(n) ==> n.start <= p.start && p.end <= n.end
  {
    IdentifiersInside(n.kids, n.start, n.end);
    var ids := IdentifiersIn(n.kids);
    assert forall i :: 0 <= i < |ids| ==> ids[i] in ids;
  }

  lemma {:induction false} BareInside(v: View, frames: seq<Frame>, name: string, start: nat, end: nat, any: bool)
    ensures Inside(Bare(v, frames, name, start, end, any), start, end)
    decreases |frames|
  {
    if frames != [] { BareInside(v, frames[1..], name, start, end, any || AnyColumns(frames[0].bindings)); }
  }

  lemma InsideWider(ds: seq<Diagnostic>, lo: nat, hi: nat, low: nat, high: nat)
    requires Inside(ds, lo, hi) && low <= lo && hi <= high
    ensures Inside(ds, low, high)
  {
  }

  lemma ColumnInside(v: View, b: Binding, index: nat, column: Part, qualifier: string)
    ensures Inside(Against(v, b, column, qualifier), column.start, column.end)
    ensures Inside(AgainstCatalog(v, index, column), column.start, column.end)
  {
  }

  lemma FieldInside(v: View, n: Node, full: seq<Frame>)
    requires Placed(n)
    ensures Inside(ResolveField(v, n, full), n.start, n.end)
  {
    PartsInside(n);
    var refs := PartsOf(n);
    if v.loaded && refs != [] {
      var last := |refs| - 1;
      var first, column := refs[0], refs[last];
      assert first in refs && column in refs;
      if last == 0 {
        BareInside(v, full, first.name, first.start, first.end, false);
        InsideWider(ResolveField(v, n, full), first.start, first.end, n.start, n.end);
      } else if last == 1 {
        var b := Lookup(v, full, first.name);
        if b.Some? { ColumnInside(v, b.value, 0, column, first.name); }
      } else {
        var schema, rel := refs[last - 2], refs[last - 1];
        assert schema in refs && rel in refs;
        var i := v.resolve(Some(schema.name), rel.name);
        if i.Some? {
          ColumnInside(v, Binding(None, None, None, None, [], 0, 0), i.value, column, "");
          InsideWider(AgainstCatalog(v, i.value, column), column.start, column.end, n.start, n.end);
        }
      }
    }
  }

  lemma SourceInside(v: View, n: Node, alias: Option<string>, ctes: seq<Binding>, outer: seq<Frame>, bindAnyway: bool)
    requires Placed(n) && PartsOf(n) != []
    ensures Inside(BindSource(v, PartsOf(n), alias, ctes, outer, bindAnyway).1, n.start, n.end)
  {
    PartsInside(n);
    var parts := PartsOf(n);
    assert parts[0] in parts && parts[|parts| - 1] in parts;
  }

  lemma TargetInside(v: View, n: Node, alias: Option<string>, ctes: seq<Binding>, outer: seq<Frame>)
    requires Placed(n)
    ensures Inside(BindTarget(v, First(Direct(n, ObjectReference)), alias, ctes, outer).1, n.start, n.end)
  {
    var target := First(Direct(n, ObjectReference));
    if target.Some? {
      PlacedMember(n.kids, n.start, n.end, target.value);
      if PartsOf(target.value) != [] { SourceInside(v, target.value, alias, ctes, outer, false); }
    }
  }

  lemma RelationInside(v: View, n: Node, ctes: seq<Binding>, outer: seq<Frame>)
    requires Placed(n)
    ensures Inside(RelationItem(v, n, ctes, outer).1, n.start, n.end)
  {
    var reference, aliasNode := Last(Direct(n, ObjectReference)), Last(Direct(n, Identifier));
    if reference.Some? && PartsOf(reference.value) != [] {
      var alias := if aliasNode.Some? then Some(aliasNode.value.text) else None;
      PlacedMember(n.kids, n.start, n.end, reference.value);
      SourceInside(v, reference.value, alias, ctes, outer, true);
      InsideWider(BindSource(v, PartsOf(reference.value), alias, ctes, outer, true).1, reference.value.start, reference.value.end,
                  n.start, n.end);
    }
  }

  lemma {:induction false} PhaseAInside(v: View, n: Node, inDelete: bool, ctes: seq<Binding>, outer: seq<Frame>)
    requires Placed(n)
    ensures Inside(PhaseA(v, n, inDelete, ctes, outer).1, n.start, n.end)
    decreases Size(n), 0
  {
    if n.kind.Relation? {
      RelationInside(v, n, ctes, outer);
    } else if !BindsNothingBelow(n.kind) && !n.kind.LateralJoin? && !n.kind.LateralCrossJoin? {
      var aliasNode := First(Direct(n, Identifier));
      TargetInside(v, n, if aliasNode.Some? then Some(aliasNode.value.text) else None, ctes, outer);
      TargetInside(v, n, None, ctes, outer);
      PhaseAllInside(v, n.kids, HasKind(n.kids, Delete), ctes, outer, n.start, n.end);
    }
  }

  lemma {:induction false} PhaseAllInside(v: View, ns: seq<Node>, inDelete: bool, ctes: seq<Binding>, outer: seq<Frame>,
                                          lo: nat, hi: nat)
    requires PlacedIn(ns, lo, hi)
    ensures Inside(PhaseAll(v, ns, inDelete, ctes, outer).1, lo, hi)
    decreases SizeAll(ns), 1
  {
    if ns != [] {
      PhaseAInside(v, ns[0], inDelete, ctes, outer);
      PhaseAllInside(v, ns[1..], inDelete, ctes, outer, ns[0].end, hi);
    }
  }

  lemma {:induction false} ResolveInside(v: View, n: Node, full: seq<Frame>)
    requires Placed(n)
    ensures Inside(ResolveNode(v, n, full), n.start, n.end)
    decreases Size(n), 0
  {
    ResolveAllInside(v, n.kids, full, n.start, n.end);
    if n.kind.Field? { FieldInside(v, n, full); }
  }

  lemma {:induction false} ResolveAllInside(v: View, ns: seq<Node>, full: seq<Frame>, lo: nat, hi: nat)
    requires PlacedIn(ns, lo, hi)
    ensures Inside(ResolveNodes(v, ns, full), lo, hi)
    decreases SizeAll(ns), 1
  {
    if ns != [] {
      ResolveInside(v, ns[0], full);
      ResolveAllInside(v, ns[1..], full, ns[0].end, hi);
    }
  }

  lemma {:induction false} ResolvePartsInside(v: View, ns: seq<Node>, full: seq<Frame>, lo: nat, hi: nat)
    requires PlacedIn(ns, lo, hi)
    ensures Inside(ResolveParts(v, ns, full), lo, hi)
    decreases |ns|
  {
    if ns != [] {
      ResolveInside(v, ns[0], full);
      ResolvePartsInside(v, ns[1..], full, ns[0].end, hi);
    }
  }

  // --- where scopes lie ---

  /** Every scope lies in the range, and its children in its own, all the way down. */
  predicate Nest(scopes: seq<Scope>, lo: nat, hi: nat)
    decreases scopes
  {
    forall i :: 0 <= i < |scopes| ==>
      lo <= scopes[i].start && scopes[i].end <= hi && Nest(scopes[i].children, scopes[i].start, scopes[i].end)
  }

  predicate FoundIn(f: Found, lo: nat, hi: nat) { Nest(f.scopes, lo, hi) && Inside(f.diags, lo, hi) }

  lemma BothIn(a: Found, b: Found, lo: nat, hi: nat)
    requires FoundIn(a, lo, hi) && FoundIn(b, lo, hi)
    ensures FoundIn(Both(a, b), lo, hi)
  {
  }

  lemma FoundWider(f: Found, lo: nat, hi: nat, low: nat, high: nat)
    requires FoundIn(f, lo, hi) && low <= lo && hi <= high
    ensures FoundIn(f, low, high)
  {
  }

  lemma OneNests(s: Scope, diags: seq<Diagnostic>)
    requires FoundIn(Found(s.children, diags), s.start, s.end)
    ensures FoundIn(One((s, diags)), s.start, s.end)
  {
  }

  /** A region's scope tree nests within the region, and so do its diagnostics. */
  lemma {:induction false} RegionNests(v: View, region: Node, outer: seq<Frame>)
    requires Placed(region)
    ensures
      var r := WalkRegion(v, region, outer);
      FoundIn(One(r), region.start, region.end) && FoundIn(Found(r.0.children, r.1), region.start, region.end)
    decreases Size(region), 3
  {
    var ctes, r := CteBindings(Direct(region, Cte)), WalkRegion(v, region, outer);
    if region.kind.ErrorNode? {
    } else if region.kind.SetOperation? || Direct(region, SetOperation) != [] {
      SetOperationNests(v, region, ctes, outer);
      OneNests(r.0, r.1);
    } else {
      PartsNest(v, region.kids, HasKind(region.kids, Delete), region.start, region.end, ctes, true, outer);
    }
  }

  /** The CTE bodies and the sides of a region that is, or holds, a set operation. */
  lemma {:induction false} SetOperationNests(v: View, region: Node, ctes: seq<Binding>, outer: seq<Frame>)
    requires Placed(region) && |ctes| == |Direct(region, Cte)|
    ensures
      var full := [Frame(ctes, [])] + outer;
      var sides := if region.kind.SetOperation? then WalkSides(v, Sides(region.kids, []), HasKind(region.kids, Delete), full)
                   else WalkOps(v, Direct(region, SetOperation), full);
      FoundIn(Both(CteBodies(v, Direct(region, Cte), ctes, 0, outer), sides), region.start, region.end)
    decreases Size(region), 2
  {
    var full := [Frame(ctes, [])] + outer;
    var bodies := CteBodies(v, Direct(region, Cte), ctes, 0, outer);
    OfKindPlaced(region.kids, region.start, region.end, Cte);
    BodiesNest(v, Direct(region, Cte), ctes, 0, outer, region.start, region.end);
    if region.kind.SetOperation? {
      var sides, inDelete := Sides(region.kids, []), HasKind(region.kids, Delete);
      SidesInPlace(region.kids, [], region.start, region.start, region.end);
      SidesNest(v, sides, inDelete, full, region.start, region.end);
      BothIn(bodies, WalkSides(v, sides, inDelete, full), region.start, region.end);
    } else {
      OfKindPlaced(region.kids, region.start, region.end, SetOperation);
      OpsNest(v, Direct(region, SetOperation), full, region.start, region.end);
      BothIn(bodies, WalkOps(v, Direct(region, SetOperation), full), region.start, region.end);
    }
  }

  lemma {:induction false} OpsNest(v: View, ops: seq<Node>, full: seq<Frame>, lo: nat, hi: nat)
    requires PlacedIn(ops, lo, hi)
    ensures FoundIn(WalkOps(v, ops, full), lo, hi)
    decreases SizeAll(ops), 2
  {
    if ops != [] {
      var op := ops[0];
      SidesInPlace(op.kids, [], op.start, op.start, op.end);
      SidesNest(v, Sides(op.kids, []), HasKind(op.kids, Delete), full, op.start, op.end);
      OpsNest(v, ops[1..], full, op.end, hi);
      FoundWider(WalkSides(v, Sides(op.kids, []), HasKind(op.kids, Delete), full), op.start, op.end, lo, hi);
      FoundWider(WalkOps(v, ops[1..], full), op.end, hi, lo, hi);
    }
  }

  lemma {:induction false} SidesNest(v: View, sides: seq<seq<Node>>, inDelete: bool, full: seq<Frame>, lo: nat, hi: nat)
    requires SidesPlaced(sides, lo, hi)
    ensures FoundIn(WalkSides(v, sides, inDelete, full), lo, hi)
    decreases SizeSides(sides), 7, |sides|
  {
    if sides != [] {
      var side := sides[0];
      var start, end := side[0].start, side[|side| - 1].end;
      PartsNest(v, side, inDelete, start, end, [], false, full);
      SidesNest(v, sides[1..], inDelete, full, lo, hi);
      FoundWider(One(WalkParts(v, side, inDelete, start, end, [], false, full)), start, end, lo, hi);
    }
  }

  lemma {:induction false} PartsNest(v: View, parts: seq<Node>, inDelete: bool, start: nat, end: nat, ctes: seq<Binding>,
                                     owner: bool, outer: seq<Frame>)
    requires owner ==> |ctes| == |OfKind(parts, Cte)|
    requires PlacedIn(parts, start, end)
    ensures
      var r := WalkParts(v, parts, inDelete, start, end, ctes, owner, outer);
      FoundIn(One(r), start, end) && FoundIn(Found(r.0.children, r.1), start, end)
    decreases SizeAll(parts), 6
  {
    var a := PhaseAll(v, parts, inDelete, ctes, outer);
    var full := [Frame(ctes, a.0)] + outer;
    PhaseAllInside(v, parts, inDelete, ctes, outer, start, end);
    ResolvePartsInside(v, parts, full, start, end);
    NestedNest(v, parts, full, start, end);
    if owner {
      OfKindPlaced(parts, start, end, Cte);
      BodiesNest(v, OfKind(parts, Cte), ctes, 0, outer, start, end);
      BothIn(CteBodies(v, OfKind(parts, Cte), ctes, 0, outer), WalkNested(v, parts, full), start, end);
    }
  }

  lemma {:induction false} BodiesNest(v: View, nodes: seq<Node>, ctes: seq<Binding>, i: nat, outer: seq<Frame>, lo: nat, hi: nat)
    requires i + |nodes| <= |ctes| && PlacedIn(nodes, lo, hi)
    ensures FoundIn(CteBodies(v, nodes, ctes, i, outer), lo, hi)
    decreases SizeAll(nodes), 1
  {
    if nodes != [] {
      var cte := nodes[0];
      var rest := CteBodies(v, nodes[1..], ctes, i + 1, outer);
      BodiesNest(v, nodes[1..], ctes, i + 1, outer, cte.end, hi);
      FoundWider(rest, cte.end, hi, lo, hi);
      var body := First(Direct(cte, Statement));
      if body.Some? {
        var frames := [Frame(ctes[..i], [])] + outer;
        PlacedMember(cte.kids, cte.start, cte.end, body.value);
        RegionNests(v, body.value, frames);
        FoundWider(One(WalkRegion(v, body.value, frames)), body.value.start, body.value.end, lo, hi);
        BothIn(One(WalkRegion(v, body.value, frames)), rest, lo, hi);
      }
    }
  }

  lemma {:induction false} NestedNest(v: View, parts: seq<Node>, full: seq<Frame>, lo: nat, hi: nat)
    requires PlacedIn(parts, lo, hi)
    ensures FoundIn(WalkNested(v, parts, full), lo, hi)
    decreases SizeAll(parts), 5
  {
    if parts != [] {
      PartNests(v, parts[0], full);
      NestedNest(v, parts[1..], full, parts[0].end, hi);
      FoundWider(WalkPart(v, parts[0], full), parts[0].start, parts[0].end, lo, hi);
      FoundWider(WalkNested(v, parts[1..], full), parts[0].end, hi, lo, hi);
    }
  }

  lemma {:induction false} PartNests(v: View, part: Node, full: seq<Frame>)
    requires Placed(part)
    ensures FoundIn(WalkPart(v, part, full), part.start, part.end)
    decreases Size(part), 4, 1
  {
    if part.kind.SetOperation? { RegionNests(v, part, full); } else { SubqueriesNest(v, part, full); }
  }

  lemma {:induction false} SubqueriesNest(v: View, n: Node, full: seq<Frame>)
    requires Placed(n)
    ensures FoundIn(Subqueries(v, n, full), n.start, n.end)
    decreases Size(n), 4, 0
  {
    if n.kind.Subquery? {
      RegionNests(v, n, full);
    } else if !n.kind.ErrorNode? && !n.kind.Cte? {
      SubqueriesInNest(v, n.kids, full, n.start, n.end);
    }
  }

  lemma {:induction false} SubqueriesInNest(v: View, ns: seq<Node>, full: seq<Frame>, lo: nat, hi: nat)
    requires PlacedIn(ns, lo, hi)
    ensures FoundIn(SubqueriesIn(v, ns, full), lo, hi)
    decreases SizeAll(ns), 5
  {
    if ns != [] {
      SubqueriesNest(v, ns[0], full);
      SubqueriesInNest(v, ns[1..], full, ns[0].end, hi);
      FoundWider(Subqueries(v, ns[0], full), ns[0].start, ns[0].end, lo, hi);
      FoundWider(SubqueriesIn(v, ns[1..], full), ns[0].end, hi, lo, hi);
    }
  }

  // --- the chain at an offset ---

  /** All scopes of a placed document nest. */
  lemma DocumentNests(v: View, root: Node)
    requires Placed(root)
    ensures Nest(ScopesOf(v, Statements(Regions(root))), root.start, root.end)
  {
    var statements := Statements(Regions(root));
    FilterMembers((n: Node) => !n.kind.Separator? && n.kids != [], root.kids);
    FilterMembers((n: Node) => !n.kind.ErrorNode?, Regions(root));
    forall i | 0 <= i < |statements|
      ensures root.start <= statements[i].start && statements[i].end <= root.end
      ensures Nest(TopScope(v, statements[i]).children, statements[i].start, statements[i].end)
    {
      assert statements[i] in statements;
      PlacedMember(root.kids, root.start, root.end, statements[i]);
      RegionNests(v, statements[i], []);
    }
    assert forall i :: 0 <= i < |statements| ==> ScopesOf(v, statements)[i] == TopScope(v, statements[i]);
  }

  /** Each scope of the chain lies in the one before it. */
  lemma {:induction false} ChainNarrows(scopes: seq<Scope>, offset: nat, lo: nat, hi: nat)
    requires Nest(scopes, lo, hi)
    ensures
      var chain := ScopeChain(scopes, offset);
      && (chain != [] ==> lo <= chain[0].start && chain[0].end <= hi)
      && forall i :: 0 < i < |chain| ==> chain[i - 1].start <= chain[i].start && chain[i].end <= chain[i - 1].end
    decreases scopes
  {
    var top := LastContaining(scopes, offset);
    if top.Some? {
      ChainNarrows(top.value.children, offset, top.value.start, top.value.end);
      assert ScopeChain(scopes, offset) == [top.value] + ScopeChain(top.value.children, offset);
    }
  }
}
