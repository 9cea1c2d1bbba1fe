/**
 The two-phase binding walk (`Walker` in `tempr_intel/src/semantic.rs`): phase A collects a region's bindings,
 phase B analyzes nested bodies and resolves references over the complete frame.  Each function returns what
 the walker pushes.
 */
module Walker {
  import opened Scopes
  import opened SyntaxTree
  import opened Wrappers

  // --- relations ---

  datatype Resolution = ToCte(binding: Binding) | ToCatalog(index: nat) | Unresolved

  /** The first CTE that answers, own CTEs first, then the enclosing frames' nearest first. */
  function CteOf(v: View, chain: seq<seq<Binding>>, name: string): Option<Binding> {
    if chain == [] then None
    else
      var b := FirstAnswer(v, chain[0], name);
      if b.Some? then b else CteOf(v, chain[1..], name)
  }

  function CtesOf(frames: seq<Frame>): (r: seq<seq<Binding>>)
    ensures |r| == |frames| && forall i :: 0 <= i < |r| ==> r[i] == frames[i].ctes
  {
    seq(|frames|, i requires 0 <= i < |frames| => frames[i].ctes)
  }

  function Names(parts: seq<Part>): (r: seq<string>)
    ensures |r| == |parts|
  {
    seq(|parts|, i requires 0 <= i < |parts| => parts[i].name)
  }

  /** `resolve_relation`: CTEs shadow the catalog at the unqualified level. */
  function ResolveRelation(v: View, names: seq<string>, ctes: seq<Binding>, outer: seq<Frame>): Resolution {
    if names == [] then Unresolved
    else
      var cte := if |names| == 1 then CteOf(v, [ctes] + CtesOf(outer), names[0]) else None;
      if cte.Some? then ToCte(cte.value)
      else
        var schema := if |names| >= 2 then Some(names[|names| - 2]) else None;
        match v.resolve(schema, names[|names| - 1])
        case Some(i) => ToCatalog(i)
        case None => Unresolved
  }

  function CatalogColumns(v: View, index: nat): (r: seq<ColumnRef>) {
    seq(|v.columnsOf(index)|, i requires 0 <= i < |v.columnsOf(index)| => CatalogColumn(v.columnsOf(index)[i]))
  }

  function UnknownRelationAt(names: seq<string>, start: nat, end: nat): Diagnostic {
    Diagnostic(UnknownRelation, start, end, "unknown relation `" + Join(names, ".") + "`")
  }

  /** What a resolved source binds; an unresolved one binds its name without columns when `bindAnyway`. */
  function BindSource(v: View, parts: seq<Part>, alias: Option<string>, ctes: seq<Binding>, outer: seq<Frame>, bindAnyway: bool)
    : (seq<Binding>, seq<Diagnostic>)
    requires parts != []
  {
    var names := Names(parts);
    var start, end := parts[0].start, parts[|parts| - 1].end;
    match ResolveRelation(v, names, ctes, outer)
    case ToCte(c) => ([Binding(alias, c.name, None, None, c.columns, start, end)], [])
    case ToCatalog(i) => ([Binding(alias, Some(v.nameOf(i)), Some(v.schemaOf(i)), Some(i), CatalogColumns(v, i), start, end)], [])
    case Unresolved =>
      (if bindAnyway then [Binding(alias, Some(names[|names| - 1]), None, None, [], start, end)] else [],
       if v.loaded then [UnknownRelationAt(names, start, end)] else [])
  }

  /** `select_list_columns`: the last identifier of every plain-field term of the top select list. */
  function SelectListColumns(region: Node): seq<ColumnRef> {
    match FindSelect(region)
    case None => []
    case Some(select) =>
      match First(Direct(select, SelectExpression))
      case None => []
      case Some(expr) => TermColumns(Direct(expr, Term))
  }

  function TermColumns(terms: seq<Node>): seq<ColumnRef> {
    if terms == [] then []
    else
      var ids := IdentifiersIn(terms[0].kids);
      (if Direct(terms[0], Field) == [] || ids == [] then [] else [Local(ids[|ids| - 1].text)]) + TermColumns(terms[1..])
  }

  /** The last child of a kind, as the loops over children keep it. */
  function Last(ns: seq<Node>): Option<Node> { if ns == [] then None else Some(ns[|ns| - 1]) }

  /** `relation_item`. */
  function RelationItem(v: View, n: Node, ctes: seq<Binding>, outer: seq<Frame>): (seq<Binding>, seq<Diagnostic>) {
    var reference, aliasNode, sub := Last(Direct(n, ObjectReference)), Last(Direct(n, Identifier)), Last(Direct(n, Subquery));
    var alias := if aliasNode.Some? then Some(aliasNode.value.text) else None;
    if sub.Some? then ([Binding(alias, None, None, None, SelectListColumns(sub.value), n.start, n.end)], [])
    else
      var parts := if reference.Some? then PartsOf(reference.value) else [];
      if parts == [] then ([], []) else BindSource(v, parts, alias, ctes, outer, true)
  }

  /** `lateral_item`. */
  function LateralItem(n: Node): seq<Binding> {
    var aliasNode, sub := First(Direct(n, Identifier)), First(Direct(n, Subquery));
    var columns := if sub.Some? then SelectListColumns(sub.value) else [];
    if aliasNode.None? && columns == [] then []
    else [Binding(if aliasNode.Some? then Some(aliasNode.value.text) else None, None, None, None, columns, n.start, n.end)]
  }

  /** `bind_target`: an unresolved target reports but does not bind. */
  function BindTarget(v: View, target: Option<Node>, alias: Option<string>, ctes: seq<Binding>, outer: seq<Frame>)
    : (seq<Binding>, seq<Diagnostic>)
  {
    var parts := if target.Some? then PartsOf(target.value) else [];
    if parts == [] then ([], []) else BindSource(v, parts, alias, ctes, outer, false)
  }

  function DmlFrom(v: View, n: Node, ctes: seq<Binding>, outer: seq<Frame>): (seq<Binding>, seq<Diagnostic>) {
    var aliasNode := First(Direct(n, Identifier));
    BindTarget(v, First(Direct(n, ObjectReference)), if aliasNode.Some? then Some(aliasNode.value.text) else None, ctes, outer)
  }

  // --- phase A ---

  function Plus(a: (seq<Binding>, seq<Diagnostic>), b: (seq<Binding>, seq<Diagnostic>)): (seq<Binding>, seq<Diagnostic>) {
    (a.0 + b.0, a.1 + b.1)
  }

  /** Expressions, keywords, broken fragments, and the bodies left to phase B. */
  predicate BindsNothingBelow(k: Kind) {
    || k.Field? || k.Literal? || k.Parameter? || k.AllFields? || k.Invocation? || k.CaseNode?
    || k.Subquery? || k.Cte? || k.ErrorNode? || k.SetOperation? || k.Keyword?
  }

  /** What a `from` or `insert` node binds before its children: the target of the statement. */
  function OwnTarget(v: View, n: Node, inDelete: bool, ctes: seq<Binding>, outer: seq<Frame>): (seq<Binding>, seq<Diagnostic>) {
    if n.kind.From? && inDelete then DmlFrom(v, n, ctes, outer)
    else if n.kind.Insert? then BindTarget(v, First(Direct(n, ObjectReference)), None, ctes, outer)
    else ([], [])
  }

  /** `phase_a` on one node; `inDelete` says whether a `delete` node is among its siblings. */
  function PhaseA(v: View, n: Node, inDelete: bool, ctes: seq<Binding>, outer: seq<Frame>): (seq<Binding>, seq<Diagnostic>)
    decreases Size(n), 0
  {
    if BindsNothingBelow(n.kind) then ([], [])
    else if n.kind.Relation? then RelationItem(v, n, ctes, outer)
    else if n.kind.LateralJoin? || n.kind.LateralCrossJoin? then (LateralItem(n), [])
    else
      Plus(OwnTarget(v, n, inDelete, ctes, outer), PhaseAll(v, n.kids, HasKind(n.kids, Delete), ctes, outer))
  }

  function PhaseAll(v: View, ns: seq<Node>, inDelete: bool, ctes: seq<Binding>, outer: seq<Frame>): (seq<Binding>, seq<Diagnostic>)
    decreases SizeAll(ns), 1
  {
    if ns == [] then ([], [])
    else Plus(PhaseA(v, ns[0], inDelete, ctes, outer), PhaseAll(v, ns[1..], inDelete, ctes, outer))
  }

  // --- CTE bindings ---

  /** What `cte_binding` has seen so far. */
  datatype CteScan = CteScan(depth: nat, afterAs: bool, name: Option<Node>, explicit: seq<ColumnRef>, body: Option<Node>)

  function ScanCte(ns: seq<Node>, c: CteScan): CteScan
    decreases |ns|
  {
    if ns == [] then c
    else
      var n := ns[0];
      ScanCte(ns[1..],
        match n.kind
        case Open => c.(depth := c.depth + 1)
        case Close => c.(depth := if c.depth > 0 then c.depth - 1 else 0)
        case Keyword(k) => if k == "as" then c.(afterAs := true) else c
        case Identifier =>
          if c.name.None? && c.depth == 0 && !c.afterAs then c.(name := Some(n))
          else if c.name.Some? && c.depth == 1 && !c.afterAs then c.(explicit := c.explicit + [Local(n.text)])
          else c
        case Statement => if c.body.None? then c.(body := Some(n)) else c
        case _ => c)
  }

  /** `cte_binding`. */
  function CteBinding(n: Node): Binding {
    var c := ScanCte(n.kids, CteScan(0, false, None, [], None));
    var columns := if c.explicit != [] then c.explicit else if c.body.Some? then SelectListColumns(c.body.value) else [];
    Binding(None, if c.name.Some? then Some(c.name.value.text) else None, None, None, columns,
            if c.name.Some? then c.name.value.start else n.start, if c.name.Some? then c.name.value.end else n.end)
  }

  function CteBindings(ctes: seq<Node>): (r: seq<Binding>)
    ensures |r| == |ctes|
  {
    seq(|ctes|, i requires 0 <= i < |ctes| => CteBinding(ctes[i]))
  }

  // --- resolution ---

  function SyntaxErrorAt(n: Node): Diagnostic { Diagnostic(SyntaxError, n.start, n.end, "syntax error") }

  /** `resolve_against`. */
  function Against(v: View, b: Binding, column: Part, qualifier: string): seq<Diagnostic> {
    if b.columns == [] then []
    else if HitCount(v, b.columns, column.name) == 0 then
      [Diagnostic(UnknownColumn, column.start, column.end, "column `" + column.name + "` not found in `" + qualifier + "`")]
    else if HitCount(v, b.columns, column.name) == 1 then []
    else [Diagnostic(AmbiguousColumn, column.start, column.end, "ambiguous column `" + column.name + "` within `" + qualifier + "`")]
  }

  /** `resolve_catalog_columns`. */
  function AgainstCatalog(v: View, index: nat, column: Part): seq<Diagnostic> {
    var hits := HitCount(v, CatalogColumns(v, index), column.name);
    if hits == 0 then [Diagnostic(UnknownColumn, column.start, column.end, "column `" + column.name + "` not found")]
    else if hits == 1 then []
    else [Diagnostic(AmbiguousColumn, column.start, column.end, "ambiguous column `" + column.name + "`")]
  }

  /** `resolve_field`. */
  function ResolveField(v: View, n: Node, full: seq<Frame>): seq<Diagnostic> {
    var refs := PartsOf(n);
    if !v.loaded || refs == [] then []
    else
      var last := |refs| - 1;
      if last == 0 then Bare(v, full, refs[0].name, refs[0].start, refs[0].end, false)
      else if last == 1 then
        match Lookup(v, full, refs[0].name)
        case Some(b) => Against(v, b, refs[1], refs[0].name)
        case None => [Diagnostic(UnknownRelation, refs[0].start, refs[0].end, "unknown relation or alias `" + refs[0].name + "`")]
      else
        match v.resolve(Some(refs[last - 2].name), refs[last - 1].name)
        case Some(i) => AgainstCatalog(v, i, refs[last])
        case None => [UnknownRelationAt([refs[last - 2].name, refs[last - 1].name], refs[last - 2].start, refs[last - 1].end)]
  }

  /** The references of a subtree, without nested bodies and broken fragments. */
  function ResolveNode(v: View, n: Node, full: seq<Frame>): seq<Diagnostic>
    decreases Size(n), 0
  {
    match n.kind
    case Subquery => []
    case Cte => []
    case ErrorNode => [SyntaxErrorAt(n)]
    case Field => ResolveField(v, n, full) + ResolveNodes(v, n.kids, full)
    case _ => ResolveNodes(v, n.kids, full)
  }

  function ResolveNodes(v: View, ns: seq<Node>, full: seq<Frame>): seq<Diagnostic>
    decreases SizeAll(ns), 1
  {
    if ns == [] then [] else ResolveNode(v, ns[0], full) + ResolveNodes(v, ns[1..], full)
  }

  /** `resolve_parts`: a nested set operation owns its sides' references. */
  function ResolvePart(v: View, n: Node, full: seq<Frame>): seq<Diagnostic> {
    if n.kind.SetOperation? then [] else ResolveNode(v, n, full)
  }

  function ResolveParts(v: View, ns: seq<Node>, full: seq<Frame>): seq<Diagnostic> {
    if ns == [] then [] else ResolvePart(v, ns[0], full) + ResolveParts(v, ns[1..], full)
  }

  // --- regions ---

  datatype Found = Found(scopes: seq<Scope>, diags: seq<Diagnostic>)

  function Both(a: Found, b: Found): Found { Found(a.scopes + b.scopes, a.diags + b.diags) }

  function One(r: (Scope, seq<Diagnostic>)): Found { Found([r.0], r.1) }

  /** `walk_region`. */
  function WalkRegion(v: View, region: Node, outer: seq<Frame>): (r: (Scope, seq<Diagnostic>))
    ensures r.0.start == region.start && r.0.end == region.end
    decreases Size(region), 3
  {
    if region.kind.ErrorNode? then (Scope(region.start, region.end, [], [], []), [SyntaxErrorAt(region)])
    else
      var cteNodes, nested := Direct(region, Cte), Direct(region, SetOperation);
      var ctes := CteBindings(cteNodes);
      if region.kind.SetOperation? || nested != [] then
        var frame := Frame(ctes, []);
        var bodies := CteBodies(v, cteNodes, ctes, 0, outer);
        var sides := if region.kind.SetOperation? then WalkSides(v, Sides(region.kids, []), HasKind(region.kids, Delete), [frame] + outer)
                     else WalkOps(v, nested, [frame] + outer);
        (Scope(region.start, region.end, ctes, [], bodies.scopes + sides.scopes), bodies.diags + sides.diags)
      else WalkParts(v, region.kids, HasKind(region.kids, Delete), region.start, region.end, ctes, true, outer)
  }

  function WalkOps(v: View, ops: seq<Node>, full: seq<Frame>): Found
    decreases SizeAll(ops), 2
  {
    if ops == [] then Found([], [])
    else Both(WalkSides(v, Sides(ops[0].kids, []), HasKind(ops[0].kids, Delete), full), WalkOps(v, ops[1..], full))
  }

  function WalkSides(v: View, sides: seq<seq<Node>>, inDelete: bool, full: seq<Frame>): Found
    decreases SizeSides(sides), 7, |sides|
  {
    if sides == [] then Found([], [])
    else
      var side := sides[0];
      var start, end := if side == [] then 0 else side[0].start, if side == [] then 0 else side[|side| - 1].end;
      Both(One(WalkParts(v, side, inDelete, start, end, [], false, full)), WalkSides(v, sides[1..], inDelete, full))
  }

  /** `walk_parts`; `owner` says whether the parts are a region that owns its CTE bodies. */
  function WalkParts(v: View, parts: seq<Node>, inDelete: bool, start: nat, end: nat, ctes: seq<Binding>, owner: bool, outer: seq<Frame>)
    : (r: (Scope, seq<Diagnostic>))
    requires owner ==> |ctes| == |OfKind(parts, Cte)|
    ensures r.0.start == start && r.0.end == end
    decreases SizeAll(parts), 6
  {
    var a := PhaseAll(v, parts, inDelete, ctes, outer);
    var full := [Frame(ctes, a.0)] + outer;
    var bodies := if owner then CteBodies(v, OfKind(parts, Cte), ctes, 0, outer) else Found([], []);
    var nested := WalkNested(v, parts, full);
    (Scope(start, end, ctes, a.0, bodies.scopes + nested.scopes), a.1 + bodies.diags + nested.diags + ResolveParts(v, parts, full))
  }

  /** `cte_body_scopes`: inside a body only the earlier CTEs are visible. */
  function CteBodies(v: View, nodes: seq<Node>, ctes: seq<Binding>, i: nat, outer: seq<Frame>): Found
    requires i + |nodes| <= |ctes|
    decreases SizeAll(nodes), 1
  {
    if nodes == [] then Found([], [])
    else
      var rest := CteBodies(v, nodes[1..], ctes, i + 1, outer);
      match First(Direct(nodes[0], Statement))
      case None => rest
      case Some(body) =>
        var sub := WalkRegion(v, body, [Frame(ctes[..i], [])] + outer);
        Both(Found([sub.0.(start := body.start, end := body.end)], sub.1), rest)
  }

  /** The nested scopes of a region's parts: set operations and the subqueries of the other parts. */
  function WalkNested(v: View, parts: seq<Node>, full: seq<Frame>): Found
    decreases SizeAll(parts), 5
  {
    if parts == [] then Found([], [])
    else
      Both(WalkPart(v, parts[0], full), WalkNested(v, parts[1..], full))
  }

  function WalkPart(v: View, part: Node, full: seq<Frame>): Found
    decreases Size(part), 4, 1
  {
    if part.kind.SetOperation? then One(WalkRegion(v, part, full)) else Subqueries(v, part, full)
  }

  /** `collect_subqueries`. */
  function Subqueries(v: View, n: Node, full: seq<Frame>): Found
    decreases Size(n), 4, 0
  {
    match n.kind
    case Subquery => One(WalkRegion(v, n, full))
    case ErrorNode => Found([], [])
    case Cte => Found([], [])
    case _ => SubqueriesIn(v, n.kids, full)
  }

  function SubqueriesIn(v: View, ns: seq<Node>, full: seq<Frame>): Found
    decreases SizeAll(ns), 5
  {
    if ns == [] then Found([], []) else Both(Subqueries(v, ns[0], full), SubqueriesIn(v, ns[1..], full))
  }
}
