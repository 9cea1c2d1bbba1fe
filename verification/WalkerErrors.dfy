/**
 Syntax errors in the walk: whatever the frames and the catalog, each broken fragment of the tree is reported at
 most once, and the fragments that are not reported are exactly those in the places the walk passes over.
 */
module WalkerErrors {
  import opened Scopes
  import opened SyntaxTree
  import opened Walker
  import opened Wrappers

  // --- counting at one range ---

  type Range = (nat, nat)

  /** How many syntax errors the diagnostics report at the range. */
  function Reported(ds: seq<Diagnostic>, at: Range): nat {
    if ds == [] then 0
    else (if ds[0].kind == SyntaxError && (ds[0].start, ds[0].end) == at then 1 else 0) + Reported(ds[1..], at)
  }

  /** How many outermost broken fragments the tree has at the range. */
  function Errors(n: Node, at: Range): nat
    decreases Size(n), 0
  {
    if n.kind.ErrorNode? then (if (n.start, n.end) == at then 1 else 0) else ErrorsAll(n.kids, at)
  }

  function ErrorsAll(ns: seq<Node>, at: Range): nat
    decreases SizeAll(ns), 1
  {
    if ns == [] then 0 else Errors(ns[0], at) + ErrorsAll(ns[1..], at)
  }

  lemma {:induction false} ReportedConcat(a: seq<Diagnostic>, b: seq<Diagnostic>, at: Range)
    ensures Reported(a + b, at) == Reported(a, at) + Reported(b, at)
  {
    if a == [] {
      assert a + b == b;
    } else {
      assert (a + b)[1..] == a[1..] + b;
      ReportedConcat(a[1..], b, at);
    }
  }

  lemma ReportedOfFour(a: seq<Diagnostic>, b: seq<Diagnostic>, c: seq<Diagnostic>, d: seq<Diagnostic>, at: Range)
    ensures Reported(a + b + c + d, at) == Reported(a, at) + Reported(b, at) + Reported(c, at) + Reported(d, at)
  {
    ReportedConcat(a + b + c, d, at);
    ReportedConcat(a + b, c, at);
    ReportedConcat(a, b, at);
  }

  // --- the places the walk passes over ---

  /** The errors of the nodes that are no CTEs. */
  function Outside(ns: seq<Node>, at: Range): nat {
    if ns == [] then 0 else (if ns[0].kind.Cte? then 0 else Errors(ns[0], at)) + Outside(ns[1..], at)
  }

  function OutsideSides(sides: seq<seq<Node>>, at: Range): nat {
    if sides == [] then 0 else Outside(sides[0], at) + OutsideSides(sides[1..], at)
  }

  /** The children of a set operation that belong to no side. */
  function Dropped(ns: seq<Node>, started: bool): seq<Node> {
    if ns == [] then []
    else if ns[0].kind.Select? || ns[0].kind.SetOperation? then Dropped(ns[1..], true)
    else if ns[0].kind.Keyword? || ns[0].kind.Open? || ns[0].kind.Close? || !started then [ns[0]] + Dropped(ns[1..], started)
    else Dropped(ns[1..], started)
  }

  /** The clauses beside the set operations of a statement. */
  function Beside(ns: seq<Node>, at: Range): nat {
    if ns == [] then 0
    else (if ns[0].kind.Cte? || ns[0].kind.SetOperation? then 0 else Errors(ns[0], at)) + Beside(ns[1..], at)
  }

  /** A CTE's children other than its body. */
  function BesideBody(ns: seq<Node>, at: Range): nat {
    if ns == [] then 0
    else if ns[0].kind.Statement? then ErrorsAll(ns[1..], at)
    else Errors(ns[0], at) + BesideBody(ns[1..], at)
  }

  /**
   The unreported fragments: in a CTE beside its body or below a clause, between the sides of a set operation, and
   in the clauses beside a statement's set operation.
   */
  function Skipped(region: Node, at: Range): nat
    decreases Size(region), 3
  {
    if region.kind.ErrorNode? then 0
    else
      var nested := Direct(region, SetOperation);
      SkippedInCtes(Direct(region, Cte), at)
      + if region.kind.SetOperation? then SkippedInSides(Sides(region.kids, []), at) + Outside(Dropped(region.kids, false), at)
        else if nested != [] then SkippedInOps(nested, at) + Beside(region.kids, at)
        else SkippedInParts(region.kids, at)
  }

  function SkippedInCtes(ctes: seq<Node>, at: Range): nat
    decreases SizeAll(ctes), 1
  {
    if ctes == [] then 0
    else
      var body := First(Direct(ctes[0], Statement));
      BesideBody(ctes[0].kids, at) + (if body.Some? then Skipped(body.value, at) else 0) + SkippedInCtes(ctes[1..], at)
  }

  function SkippedInOps(ops: seq<Node>, at: Range): nat
    decreases SizeAll(ops), 2
  {
    if ops == [] then 0
    else
      SkippedInSides(Sides(ops[0].kids, []), at) + Outside(Dropped(ops[0].kids, false), at)
      + ErrorsAll(Direct(ops[0], Cte), at) + SkippedInOps(ops[1..], at)
  }

  function SkippedInSides(sides: seq<seq<Node>>, at: Range): nat
    decreases SizeSides(sides), 7, |sides|
  {
    if sides == [] then 0 else SkippedInParts(sides[0], at) + SkippedInSides(sides[1..], at)
  }

  function SkippedInParts(parts: seq<Node>, at: Range): nat
    decreases SizeAll(parts), 5
  {
    if parts == [] then 0
    else
      (if parts[0].kind.Cte? then 0 else if parts[0].kind.SetOperation? then Skipped(parts[0], at) else SkippedBelow(parts[0], at))
      + SkippedInParts(parts[1..], at)
  }

  function SkippedBelow(n: Node, at: Range): nat
    decreases Size(n), 4
  {
    match n.kind
    case Subquery => Skipped(n, at)
    case ErrorNode => 0
    case Cte => Errors(n, at)
    case _ => SkippedBelowAll(n.kids, at)
  }

  function SkippedBelowAll(ns: seq<Node>, at: Range): nat
    decreases SizeAll(ns), 5
  {
    if ns == [] then 0 else SkippedBelow(ns[0], at) + SkippedBelowAll(ns[1..], at)
  }

  // --- each node is on one of the lists ---

  lemma {:induction false} CtesApart(ns: seq<Node>, at: Range)
    ensures ErrorsAll(ns, at) == Outside(ns, at) + ErrorsAll(OfKind(ns, Cte), at)
  {
    if ns != [] {
      CtesApart(ns[1..], at);
      if ns[0].kind.Cte? { assert OfKind(ns, Cte)[1..] == OfKind(ns[1..], Cte); }
    }
  }

  lemma {:induction false} OpsApart(ns: seq<Node>, at: Range)
    ensures Outside(ns, at) == Beside(ns, at) + ErrorsAll(OfKind(ns, SetOperation), at)
  {
    if ns != [] {
      OpsApart(ns[1..], at);
      if ns[0].kind.SetOperation? { assert OfKind(ns, SetOperation)[1..] == OfKind(ns[1..], SetOperation); }
    }
  }

  lemma {:induction false} BodyApart(ns: seq<Node>, at: Range)
    ensures
      var body := First(OfKind(ns, Statement));
      ErrorsAll(ns, at) == BesideBody(ns, at) + if body.Some? then Errors(body.value, at) else 0
  {
    if ns != [] && !ns[0].kind.Statement? { BodyApart(ns[1..], at); }
  }

  lemma {:induction false} OutsideConcat(a: seq<Node>, b: seq<Node>, at: Range)
    ensures Outside(a + b, at) == Outside(a, at) + Outside(b, at)
  {
    if a == [] {
      assert a + b == b;
    } else {
      assert (a + b)[1..] == a[1..] + b;
      OutsideConcat(a[1..], b, at);
    }
  }

  lemma {:induction false} OutsideSidesAppend(sides: seq<seq<Node>>, side: seq<Node>, at: Range)
    ensures OutsideSides(sides + [side], at) == OutsideSides(sides, at) + Outside(side, at)
  {
    if sides == [] {
      assert (sides + [side])[1..] == [];
    } else {
      assert (sides + [side])[1..] == sides[1..] + [side];
      OutsideSidesAppend(sides[1..], side, at);
    }
  }

  lemma SideGrows(sides: seq<seq<Node>>, n: Node, at: Range)
    requires sides != []
    ensures
      var front, last := sides[..|sides| - 1], sides[|sides| - 1];
      OutsideSides(front + [last + [n]], at) == OutsideSides(sides, at) + Outside([n], at)
  {
    var front, last := sides[..|sides| - 1], sides[|sides| - 1];
    assert sides == front + [last];
    OutsideSidesAppend(front, last, at);
    OutsideSidesAppend(front, last + [n], at);
    OutsideConcat(last, [n], at);
  }

  lemma {:induction false} SidesKeep(ns: seq<Node>, sides: seq<seq<Node>>, at: Range)
    ensures OutsideSides(Sides(ns, sides), at) + Outside(Dropped(ns, sides != []), at) == OutsideSides(sides, at) + Outside(ns, at)
    decreases |ns|
  {
    if ns != [] {
      var n := ns[0];
      if n.kind.Select? || n.kind.SetOperation? {
        OutsideSidesAppend(sides, [n], at);
        SidesKeep(ns[1..], sides + [[n]], at);
      } else if n.kind.Keyword? || n.kind.Open? || n.kind.Close? || sides == [] {
        assert ([n] + Dropped(ns[1..], sides != []))[1..] == Dropped(ns[1..], sides != []);
        SidesKeep(ns[1..], sides, at);
      } else {
        SideGrows(sides, n, at);
        SidesKeep(ns[1..], sides[..|sides| - 1] + [sides[|sides| - 1] + [n]], at);
      }
    }
  }

  // --- what reports no syntax errors ---

  /** No diagnostic is a syntax error. */
  predicate Silent(ds: seq<Diagnostic>) { forall d :: d in ds ==> d.kind != SyntaxError }

  lemma {:induction false} SilentReports(ds: seq<Diagnostic>, at: Range)
    requires Silent(ds)
    ensures Reported(ds, at) == 0
  {
    if ds != [] { SilentReports(ds[1..], at); }
  }

  lemma {:induction false} BareSilent(v: View, frames: seq<Frame>, name: string, start: nat, end: nat, any: bool)
    ensures Silent(Bare(v, frames, name, start, end, any))
    decreases |frames|
  {
    if frames != [] { BareSilent(v, frames[1..], name, start, end, any || AnyColumns(frames[0].bindings)); }
  }

  lemma FieldSilent(v: View, n: Node, full: seq<Frame>)
    ensures Silent(ResolveField(v, n, full))
  {
    var refs := PartsOf(n);
    if |refs| == 1 { BareSilent(v, full, refs[0].name, refs[0].start, refs[0].end, false); }
  }

  lemma SourceSilent(v: View, parts: seq<Part>, alias: Option<string>, ctes: seq<Binding>, outer: seq<Frame>, bindAnyway: bool)
    requires parts != []
    ensures Silent(BindSource(v, parts, alias, ctes, outer, bindAnyway).1)
  {
  }

  lemma TargetSilent(v: View, target: Option<Node>, alias: Option<string>, ctes: seq<Binding>, outer: seq<Frame>)
    ensures Silent(BindTarget(v, target, alias, ctes, outer).1)
  {
    var parts := if target.Some? then PartsOf(target.value) else [];
    if parts != [] { SourceSilent(v, parts, alias, ctes, outer, false); }
  }

  lemma OwnTargetSilent(v: View, n: Node, inDelete: bool, ctes: seq<Binding>, outer: seq<Frame>)
    ensures Silent(OwnTarget(v, n, inDelete, ctes, outer).1)
  {
    var alias := First(Direct(n, Identifier));
    TargetSilent(v, First(Direct(n, ObjectReference)), if alias.Some? then Some(alias.value.text) else None, ctes, outer);
    TargetSilent(v, First(Direct(n, ObjectReference)), None, ctes, outer);
  }

  lemma RelationSilent(v: View, n: Node, ctes: seq<Binding>, outer: seq<Frame>)
    ensures Silent(RelationItem(v, n, ctes, outer).1)
  {
    var reference, aliasNode := Last(Direct(n, ObjectReference)), Last(Direct(n, Identifier));
    var parts := if reference.Some? then PartsOf(reference.value) else [];
    if parts != [] {
      SourceSilent(v, parts, if aliasNode.Some? then Some(aliasNode.value.text) else None, ctes, outer, true);
    }
  }

  lemma {:induction false} PhaseASilent(v: View, n: Node, inDelete: bool, ctes: seq<Binding>, outer: seq<Frame>)
    ensures Silent(PhaseA(v, n, inDelete, ctes, outer).1)
    decreases Size(n), 0
  {
    if n.kind.Relation? {
      RelationSilent(v, n, ctes, outer);
    } else if !BindsNothingBelow(n.kind) && !n.kind.LateralJoin? && !n.kind.LateralCrossJoin? {
      OwnTargetSilent(v, n, inDelete, ctes, outer);
      PhaseAllSilent(v, n.kids, HasKind(n.kids, Delete), ctes, outer);
    }
  }

  lemma {:induction false} PhaseAllSilent(v: View, ns: seq<Node>, inDelete: bool, ctes: seq<Binding>, outer: seq<Frame>)
    ensures Silent(PhaseAll(v, ns, inDelete, ctes, outer).1)
    decreases SizeAll(ns), 1
  {
    if ns != [] {
      PhaseASilent(v, ns[0], inDelete, ctes, outer);
      PhaseAllSilent(v, ns[1..], inDelete, ctes, outer);
    }
  }

  // --- the account ---

  /** Every broken fragment of a region is reported once or stands in a skipped place, and nothing else is reported. */
  lemma {:induction false} RegionAccounts(v: View, region: Node, outer: seq<Frame>, at: Range)
    ensures Reported(WalkRegion(v, region, outer).1, at) + Skipped(region, at) == Errors(region, at)
    decreases Size(region), 3
  {
    if !region.kind.ErrorNode? {
      var cteNodes, nested := Direct(region, Cte), Direct(region, SetOperation);
      var ctes := CteBindings(cteNodes);
      CtesApart(region.kids, at);
      CtesAccount(v, cteNodes, ctes, 0, outer, at);
      if region.kind.SetOperation? || nested != [] {
        var full := [Frame(ctes, [])] + outer;
        SidesKeep(region.kids, [], at);
        OpsApart(region.kids, at);
        if region.kind.SetOperation? {
          SidesAccount(v, Sides(region.kids, []), HasKind(region.kids, Delete), full, at);
        } else {
          OpsAccount(v, nested, full, at);
        }
        var sides := if region.kind.SetOperation? then WalkSides(v, Sides(region.kids, []), HasKind(region.kids, Delete), full)
                     else WalkOps(v, nested, full);
        ReportedConcat(CteBodies(v, cteNodes, ctes, 0, outer).diags, sides.diags, at);
      } else {
        PartsAccount(v, region.kids, HasKind(region.kids, Delete), region.start, region.end, ctes, true, outer, at);
      }
    }
  }

  lemma {:induction false} OpsAccount(v: View, ops: seq<Node>, full: seq<Frame>, at: Range)
    requires forall op :: op in ops ==> op.kind.SetOperation?
    ensures Reported(WalkOps(v, ops, full).diags, at) + SkippedInOps(ops, at) == ErrorsAll(ops, at)
    decreases SizeAll(ops), 2
  {
    if ops != [] {
      var op := ops[0];
      var inDelete := HasKind(op.kids, Delete);
      SidesAccount(v, Sides(op.kids, []), inDelete, full, at);
      SidesKeep(op.kids, [], at);
      CtesApart(op.kids, at);
      OpsAccount(v, ops[1..], full, at);
      ReportedConcat(WalkSides(v, Sides(op.kids, []), inDelete, full).diags, WalkOps(v, ops[1..], full).diags, at);
    }
  }

  lemma {:induction false} SidesAccount(v: View, sides: seq<seq<Node>>, inDelete: bool, full: seq<Frame>, at: Range)
    ensures Reported(WalkSides(v, sides, inDelete, full).diags, at) + SkippedInSides(sides, at) == OutsideSides(sides, at)
    decreases SizeSides(sides), 7, |sides|
  {
    if sides != [] {
      var side := sides[0];
      var start, end := if side == [] then 0 else side[0].start, if side == [] then 0 else side[|side| - 1].end;
      PartsAccount(v, side, inDelete, start, end, [], false, full, at);
      SidesAccount(v, sides[1..], inDelete, full, at);
      ReportedConcat(WalkParts(v, side, inDelete, start, end, [], false, full).1, WalkSides(v, sides[1..], inDelete, full).diags, at);
    }
  }

  /** The parts of a region; with `owner` the bodies of its CTEs are among what is reported. */
  lemma {:induction false} PartsAccount(v: View, parts: seq<Node>, inDelete: bool, start: nat, end: nat, ctes: seq<Binding>,
                                        owner: bool, outer: seq<Frame>, at: Range)
    requires owner ==> |ctes| == |OfKind(parts, Cte)|
    ensures Reported(WalkParts(v, parts, inDelete, start, end, ctes, owner, outer).1, at) + SkippedInParts(parts, at)
         == Outside(parts, at) + if owner then Reported(CteBodies(v, OfKind(parts, Cte), ctes, 0, outer).diags, at) else 0
    decreases SizeAll(parts), 6
  {
    var a := PhaseAll(v, parts, inDelete, ctes, outer);
    var full := [Frame(ctes, a.0)] + outer;
    var bodies := if owner then CteBodies(v, OfKind(parts, Cte), ctes, 0, outer) else Found([], []);
    PhaseAllSilent(v, parts, inDelete, ctes, outer);
    SilentReports(a.1, at);
    NestedAccount(v, parts, full, at);
    ReportedOfFour(a.1, bodies.diags, WalkNested(v, parts, full).diags, ResolveParts(v, parts, full), at);
  }

  /** What the body of the first CTE reports comes before what the others report. */
  lemma FirstBody(v: View, nodes: seq<Node>, ctes: seq<Binding>, i: nat, outer: seq<Frame>)
    requires nodes != [] && i + |nodes| <= |ctes|
    ensures
      var body, rest := First(Direct(nodes[0], Statement)), CteBodies(v, nodes[1..], ctes, i + 1, outer).diags;
      CteBodies(v, nodes, ctes, i, outer).diags
      == if body.Some? then WalkRegion(v, body.value, [Frame(ctes[..i], [])] + outer).1 + rest else rest
  {
  }

  lemma {:induction false} CteAccounts(v: View, cte: Node, frames: seq<Frame>, at: Range)
    requires cte.kind.Cte?
    ensures
      var body := First(Direct(cte, Statement));
      Errors(cte, at)
      == BesideBody(cte.kids, at) + if body.Some? then Reported(WalkRegion(v, body.value, frames).1, at) + Skipped(body.value, at) else 0
    decreases Size(cte), 0
  {
    BodyApart(cte.kids, at);
    var body := First(Direct(cte, Statement));
    if body.Some? { RegionAccounts(v, body.value, frames, at); }
  }

  lemma {:induction false} CtesAccount(v: View, nodes: seq<Node>, ctes: seq<Binding>, i: nat, outer: seq<Frame>, at: Range)
    requires i + |nodes| <= |ctes| && forall n :: n in nodes ==> n.kind.Cte?
    ensures Reported(CteBodies(v, nodes, ctes, i, outer).diags, at) + SkippedInCtes(nodes, at) == ErrorsAll(nodes, at)
    decreases SizeAll(nodes), 1
  {
    if nodes != [] {
      var frames := [Frame(ctes[..i], [])] + outer;
      CtesAccount(v, nodes[1..], ctes, i + 1, outer, at);
      FirstBody(v, nodes, ctes, i, outer);
      CteAccounts(v, nodes[0], frames, at);
      var body := First(Direct(nodes[0], Statement));
      if body.Some? {
        ReportedConcat(WalkRegion(v, body.value, frames).1, CteBodies(v, nodes[1..], ctes, i + 1, outer).diags, at);
      }
    }
  }

  lemma {:induction false} NestedAccount(v: View, parts: seq<Node>, full: seq<Frame>, at: Range)
    ensures Reported(WalkNested(v, parts, full).diags, at) + Reported(ResolveParts(v, parts, full), at) + SkippedInParts(parts, at)
         == Outside(parts, at)
    decreases SizeAll(parts), 5
  {
    if parts != [] {
      PartAccounts(v, parts[0], full, at);
      NestedAccount(v, parts[1..], full, at);
      ReportedConcat(WalkPart(v, parts[0], full).diags, WalkNested(v, parts[1..], full).diags, at);
      ReportedConcat(ResolvePart(v, parts[0], full), ResolveParts(v, parts[1..], full), at);
    }
  }

  lemma {:induction false} PartAccounts(v: View, part: Node, full: seq<Frame>, at: Range)
    ensures
      Reported(WalkPart(v, part, full).diags, at) + Reported(ResolvePart(v, part, full), at)
      + (if part.kind.Cte? then 0 else if part.kind.SetOperation? then Skipped(part, at) else SkippedBelow(part, at))
      == if part.kind.Cte? then 0 else Errors(part, at)
    decreases Size(part), 4, 1
  {
    if part.kind.SetOperation? {
      RegionAccounts(v, part, full, at);
    } else {
      NodeAccounts(v, part, full, at);
    }
  }

  lemma {:induction false} NodeAccounts(v: View, n: Node, full: seq<Frame>, at: Range)
    ensures Reported(Subqueries(v, n, full).diags, at) + Reported(ResolveNode(v, n, full), at) + SkippedBelow(n, at) == Errors(n, at)
    decreases Size(n), 4, 0
  {
    if n.kind.Subquery? {
      RegionAccounts(v, n, full, at);
    } else if !n.kind.ErrorNode? && !n.kind.Cte? {
      NodesAccount(v, n.kids, full, at);
      if n.kind.Field? { FieldAdds(v, n, full, at); }
    }
  }

  /** A field's own report adds no syntax error. */
  lemma FieldAdds(v: View, n: Node, full: seq<Frame>, at: Range)
    requires n.kind.Field?
    ensures Reported(ResolveNode(v, n, full), at) == Reported(ResolveNodes(v, n.kids, full), at)
  {
    FieldSilent(v, n, full);
    SilentReports(ResolveField(v, n, full), at);
    ReportedConcat(ResolveField(v, n, full), ResolveNodes(v, n.kids, full), at);
  }

  lemma {:induction false} NodesAccount(v: View, ns: seq<Node>, full: seq<Frame>, at: Range)
    ensures Reported(SubqueriesIn(v, ns, full).diags, at) + Reported(ResolveNodes(v, ns, full), at) + SkippedBelowAll(ns, at)
         == ErrorsAll(ns, at)
    decreases SizeAll(ns), 5
  {
    if ns != [] {
      NodeAccounts(v, ns[0], full, at);
      NodesAccount(v, ns[1..], full, at);
      ReportedConcat(Subqueries(v, ns[0], full).diags, SubqueriesIn(v, ns[1..], full).diags, at);
      ReportedConcat(ResolveNode(v, ns[0], full), ResolveNodes(v, ns[1..], full), at);
    }
  }

  // --- when every fragment is reported ---

  /** No CTE and no set operation in the tree. */
  predicate Plain(n: Node)
    decreases Size(n), 0
  {
    !n.kind.Cte? && !n.kind.SetOperation? && PlainAll(n.kids)
  }

  predicate PlainAll(ns: seq<Node>)
    decreases SizeAll(ns), 1
  {
    ns == [] || (Plain(ns[0]) && PlainAll(ns[1..]))
  }

  lemma {:induction false} PlainHas(ns: seq<Node>)
    requires PlainAll(ns)
    ensures OfKind(ns, Cte) == [] && OfKind(ns, SetOperation) == []
  {
    if ns != [] { PlainHas(ns[1..]); }
  }

  lemma {:induction false} PlainSkipsNothing(n: Node, at: Range)
    requires Plain(n)
    ensures Skipped(n, at) == 0
    decreases Size(n), 3
  {
    PlainHas(n.kids);
    PlainPartsSkipNothing(n.kids, at);
  }

  lemma {:induction false} PlainPartsSkipNothing(ns: seq<Node>, at: Range)
    requires PlainAll(ns)
    ensures SkippedInParts(ns, at) == 0 && SkippedBelowAll(ns, at) == 0
    decreases SizeAll(ns), 5
  {
    if ns != [] {
      PlainPartsSkipNothing(ns[1..], at);
      if ns[0].kind.Subquery? {
        PlainSkipsNothing(ns[0], at);
      } else {
        PlainPartsSkipNothing(ns[0].kids, at);
      }
    }
  }

  /** Without CTEs and set operations every broken fragment is reported, once. */
  lemma PlainReportsAll(v: View, region: Node, outer: seq<Frame>, at: Range)
    requires Plain(region)
    ensures Reported(WalkRegion(v, region, outer).1, at) == Errors(region, at)
  {
    RegionAccounts(v, region, outer, at);
    PlainSkipsNothing(region, at);
  }

  lemma OneNode(n: Node, at: Range)
    ensures ErrorsAll([n], at) == Errors(n, at)
    ensures !n.kind.Cte? && !n.kind.SetOperation? ==> Beside([n], at) == Errors(n, at)
  {
    assert [n][1..] == [];
  }

  /** A broken fragment behind a set operation goes unreported. */
  lemma BehindUnionIsSilent(v: View, outer: seq<Frame>)
    ensures
      var select := Node(Select, 0, 8, "", []);
      var union := Node(SetOperation, 0, 8, "", [select]);
      var broken := Node(ErrorNode, 9, 12, "", []);
      var region := Node(Statement, 0, 12, "", [union, broken]);
      Errors(region, (9, 12)) == 1 && Reported(WalkRegion(v, region, outer).1, (9, 12)) == 0
  {
    var select := Node(Select, 0, 8, "", []);
    var union := Node(SetOperation, 0, 8, "", [select]);
    var broken := Node(ErrorNode, 9, 12, "", []);
    var region := Node(Statement, 0, 12, "", [union, broken]);
    var at := (9, 12);
    assert Errors(region, at) == 1 && Beside(region.kids, at) == 1 by {
      assert region.kids[1..] == [broken];
      OneNode(broken, at);
      OneNode(select, at);
      assert Errors(select, at) == ErrorsAll([], at) == 0;
      assert Errors(union, at) == ErrorsAll([select], at) == 0;
    }
    assert union in Direct(region, SetOperation);
    RegionAccounts(v, region, outer, at);
  }

  // --- before a catalog is loaded ---

  predicate SyntaxOnly(ds: seq<Diagnostic>) { forall d :: d in ds ==> d.kind == SyntaxError }

  lemma TargetQuiet(v: View, target: Option<Node>, alias: Option<string>, ctes: seq<Binding>, outer: seq<Frame>)
    requires !v.loaded
    ensures BindTarget(v, target, alias, ctes, outer).1 == []
  {
  }

  lemma BindQuiet(v: View, parts: seq<Part>, alias: Option<string>, ctes: seq<Binding>, outer: seq<Frame>)
    requires !v.loaded && parts != []
    ensures BindSource(v, parts, alias, ctes, outer, true).1 == []
  {
  }

  lemma RelationQuiet(v: View, n: Node, ctes: seq<Binding>, outer: seq<Frame>)
    requires !v.loaded
    ensures RelationItem(v, n, ctes, outer).1 == []
  {
    var reference, aliasNode := Last(Direct(n, ObjectReference)), Last(Direct(n, Identifier));
    var parts := if reference.Some? then PartsOf(reference.value) else [];
    if parts != [] {
      var alias := if aliasNode.Some? then Some(aliasNode.value.text) else None;
      BindQuiet(v, parts, alias, ctes, outer);
    }
  }

  lemma SourceQuiet(v: View, n: Node, inDelete: bool, ctes: seq<Binding>, outer: seq<Frame>)
    requires !v.loaded
    ensures OwnTarget(v, n, inDelete, ctes, outer).1 == []
  {
    var alias := First(Direct(n, Identifier));
    TargetQuiet(v, First(Direct(n, ObjectReference)), if alias.Some? then Some(alias.value.text) else None, ctes, outer);
    TargetQuiet(v, First(Direct(n, ObjectReference)), None, ctes, outer);
  }

  lemma {:induction false} PhaseAQuiet(v: View, n: Node, inDelete: bool, ctes: seq<Binding>, outer: seq<Frame>)
    requires !v.loaded
    ensures PhaseA(v, n, inDelete, ctes, outer).1 == []
    decreases Size(n), 0
  {
    SourceQuiet(v, n, inDelete, ctes, outer);
    RelationQuiet(v, n, ctes, outer);
    if !BindsNothingBelow(n.kind) && !n.kind.Relation? && !n.kind.LateralJoin? && !n.kind.LateralCrossJoin? {
      PhaseAllQuiet(v, n.kids, HasKind(n.kids, Delete), ctes, outer);
    }
  }

  lemma {:induction false} PhaseAllQuiet(v: View, ns: seq<Node>, inDelete: bool, ctes: seq<Binding>, outer: seq<Frame>)
    requires !v.loaded
    ensures PhaseAll(v, ns, inDelete, ctes, outer).1 == []
    decreases SizeAll(ns), 1
  {
    if ns != [] {
      PhaseAQuiet(v, ns[0], inDelete, ctes, outer);
      PhaseAllQuiet(v, ns[1..], inDelete, ctes, outer);
    }
  }

  lemma {:induction false} NodeQuiet(v: View, n: Node, full: seq<Frame>)
    requires !v.loaded
    ensures SyntaxOnly(ResolveNode(v, n, full)) && SyntaxOnly(Subqueries(v, n, full).diags)
    decreases Size(n), 4, 0
  {
    if n.kind.Subquery? {
      RegionQuiet(v, n, full);
    } else if !n.kind.ErrorNode? && !n.kind.Cte? {
      NodesQuiet(v, n.kids, full);
    }
  }

  lemma {:induction false} NodesQuiet(v: View, ns: seq<Node>, full: seq<Frame>)
    requires !v.loaded
    ensures SyntaxOnly(ResolveNodes(v, ns, full)) && SyntaxOnly(SubqueriesIn(v, ns, full).diags)
    decreases SizeAll(ns), 5
  {
    if ns != [] {
      NodeQuiet(v, ns[0], full);
      NodesQuiet(v, ns[1..], full);
    }
  }

  lemma {:induction false} PartQuiet(v: View, part: Node, full: seq<Frame>)
    requires !v.loaded
    ensures SyntaxOnly(ResolvePart(v, part, full)) && SyntaxOnly(WalkPart(v, part, full).diags)
    decreases Size(part), 4, 1
  {
    if part.kind.SetOperation? { RegionQuiet(v, part, full); } else { NodeQuiet(v, part, full); }
  }

  lemma {:induction false} NestedQuiet(v: View, parts: seq<Node>, full: seq<Frame>)
    requires !v.loaded
    ensures SyntaxOnly(ResolveParts(v, parts, full)) && SyntaxOnly(WalkNested(v, parts, full).diags)
    decreases SizeAll(parts), 5
  {
    if parts != [] {
      PartQuiet(v, parts[0], full);
      NestedQuiet(v, parts[1..], full);
    }
  }

  lemma {:induction false} PartsQuiet(v: View, parts: seq<Node>, inDelete: bool, start: nat, end: nat, ctes: seq<Binding>,
                                      owner: bool, outer: seq<Frame>)
    requires !v.loaded && (owner ==> |ctes| == |OfKind(parts, Cte)|)
    ensures SyntaxOnly(WalkParts(v, parts, inDelete, start, end, ctes, owner, outer).1)
    decreases SizeAll(parts), 6
  {
    PhaseAllQuiet(v, parts, inDelete, ctes, outer);
    NestedQuiet(v, parts, [Frame(ctes, PhaseAll(v, parts, inDelete, ctes, outer).0)] + outer);
    if owner { BodiesQuiet(v, OfKind(parts, Cte), ctes, 0, outer); }
  }

  lemma {:induction false} BodyQuiet(v: View, cte: Node, frames: seq<Frame>)
    requires !v.loaded
    ensures
      var body := First(Direct(cte, Statement));
      body.Some? ==> SyntaxOnly(WalkRegion(v, body.value, frames).1)
    decreases Size(cte), 0
  {
    var body := First(Direct(cte, Statement));
    if body.Some? { RegionQuiet(v, body.value, frames); }
  }

  lemma {:induction false} BodiesQuiet(v: View, nodes: seq<Node>, ctes: seq<Binding>, i: nat, outer: seq<Frame>)
    requires !v.loaded && i + |nodes| <= |ctes|
    ensures SyntaxOnly(CteBodies(v, nodes, ctes, i, outer).diags)
    decreases SizeAll(nodes), 1
  {
    if nodes != [] {
      BodiesQuiet(v, nodes[1..], ctes, i + 1, outer);
      BodyQuiet(v, nodes[0], [Frame(ctes[..i], [])] + outer);
      FirstBody(v, nodes, ctes, i, outer);
    }
  }

  lemma {:induction false} SidesQuiet(v: View, sides: seq<seq<Node>>, inDelete: bool, full: seq<Frame>)
    requires !v.loaded
    ensures SyntaxOnly(WalkSides(v, sides, inDelete, full).diags)
    decreases SizeSides(sides), 7, |sides|
  {
    if sides != [] {
      var side := sides[0];
      var start, end := if side == [] then 0 else side[0].start, if side == [] then 0 else side[|side| - 1].end;
      PartsQuiet(v, side, inDelete, start, end, [], false, full);
      SidesQuiet(v, sides[1..], inDelete, full);
    }
  }

  lemma {:induction false} OpsQuiet(v: View, ops: seq<Node>, full: seq<Frame>)
    requires !v.loaded
    ensures SyntaxOnly(WalkOps(v, ops, full).diags)
    decreases SizeAll(ops), 2
  {
    if ops != [] {
      SidesQuiet(v, Sides(ops[0].kids, []), HasKind(ops[0].kids, Delete), full);
      OpsQuiet(v, ops[1..], full);
    }
  }

  /** Without a catalog nothing but syntax errors is reported, at any depth. */
  lemma {:induction false} RegionQuiet(v: View, region: Node, outer: seq<Frame>)
    requires !v.loaded
    ensures SyntaxOnly(WalkRegion(v, region, outer).1)
    decreases Size(region), 3
  {
    if !region.kind.ErrorNode? {
      var cteNodes, nested := Direct(region, Cte), Direct(region, SetOperation);
      var ctes := CteBindings(cteNodes);
      var full := [Frame(ctes, [])] + outer;
      if region.kind.SetOperation? || nested != [] {
        BodiesQuiet(v, cteNodes, ctes, 0, outer);
        if region.kind.SetOperation? {
          SidesQuiet(v, Sides(region.kids, []), HasKind(region.kids, Delete), full);
        } else {
          OpsQuiet(v, nested, full);
        }
      } else {
        PartsQuiet(v, region.kids, HasKind(region.kids, Delete), region.start, region.end, ctes, true, outer);
      }
    }
  }
}
