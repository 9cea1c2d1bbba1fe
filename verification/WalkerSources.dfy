/**
 Where the walk's diagnostics come from: over a whole tree each is what one node reports over the frames of one scope
 of the result, and every binding of the result is grounded.
 */
module WalkerSources {
  import opened Scopes
  import opened SyntaxTree
  import opened Walker
  import opened Wrappers

  // --- the nodes of a tree ---

  predicate Below(n: Node, root: Node)
    decreases Size(root), 0
  {
    n == root || BelowAny(n, root.kids)
  }

  predicate BelowAny(n: Node, ns: seq<Node>)
    decreases SizeAll(ns), 1
  {
    ns != [] && (Below(n, ns[0]) || BelowAny(n, ns[1..]))
  }

  lemma {:induction false} BelowMember(n: Node, ns: seq<Node>)
    ensures BelowAny(n, ns) <==> exists m :: m in ns && Below(n, m)
  {
    if ns != [] {
      BelowMember(n, ns[1..]);
      if Below(n, ns[0]) {
        assert ns[0] in ns && BelowAny(n, ns);
      } else {
        assert BelowAny(n, ns) <==> BelowAny(n, ns[1..]);
        if m :| m in ns && Below(n, m) { assert m in ns[1..]; }
      }
    }
  }

  /** Everything below the first nodes is below the second. */
  ghost predicate Covered(ns: seq<Node>, all: seq<Node>) {
    forall n :: BelowAny(n, ns) ==> BelowAny(n, all)
  }

  lemma MembersCovered(ns: seq<Node>, all: seq<Node>)
    requires forall m :: m in ns ==> m in all
    ensures Covered(ns, all)
  {
    forall n | BelowAny(n, ns) ensures BelowAny(n, all) {
      BelowMember(n, ns);
      BelowMember(n, all);
    }
  }

  lemma OneCovered(m: Node, all: seq<Node>)
    requires m in all
    ensures Covered([m], all) && Covered(m.kids, all)
  {
    MembersCovered([m], all);
    forall n | BelowAny(n, m.kids) ensures BelowAny(n, all) {
      assert Below(n, m);
      BelowMember(n, all);
    }
  }

  lemma {:induction false} SidesMembers(ns: seq<Node>, sides: seq<seq<Node>>, all: seq<Node>)
    requires forall n :: n in ns ==> n in all
    requires forall side, n :: side in sides && n in side ==> n in all
    ensures forall side, n :: side in Sides(ns, sides) && n in side ==> n in all
    decreases |ns|
  {
    if ns != [] {
      var n := ns[0];
      assert n in ns;
      if n.kind.Select? || n.kind.SetOperation? {
        SidesMembers(ns[1..], sides + [[n]], all);
      } else if n.kind.Keyword? || n.kind.Open? || n.kind.Close? || sides == [] {
        SidesMembers(ns[1..], sides, all);
      } else {
        var front, last := sides[..|sides| - 1], sides[|sides| - 1];
        assert last in sides;
        SidesMembers(ns[1..], front + [last + [n]], all);
      }
    }
  }

  // --- the frames of a result ---

  /** The frames a CTE body sees: the CTEs before it, and what encloses the region. */
  function Prefixed(full: seq<Frame>, k: nat): seq<Frame>
    requires full != [] && k <= |full[0].ctes|
  {
    [Frame(full[0].ctes[..k], [])] + full[1..]
  }

  /** The frames of a scope or of one inside it, when `outer` encloses it. */
  ghost predicate Visible(s: Scope, outer: seq<Frame>, frames: seq<Frame>)
    decreases s, 1
  {
    var full := [Frame(s.ctes, s.bindings)] + outer;
    frames == full || exists c :: c in s.children && VisibleIn(c, full, frames)
  }

  /** A nested scope sees the frames of its region, or as a CTE body the CTEs before it. */
  ghost predicate VisibleIn(s: Scope, full: seq<Frame>, frames: seq<Frame>)
    requires full != []
    decreases s, 2
  {
    Visible(s, full, frames) || exists k :: 0 <= k < |full[0].ctes| && Visible(s, Prefixed(full, k), frames)
  }

  // --- what bindings are made of ---

  predicate LocalColumns(b: Binding) { b.relation.None? && forall c :: c in b.columns ==> c.Local? }

  /** A binding of a relation of the catalog under its own name and schema with its columns, or one with local columns. */
  predicate Grounded(v: View, limit: nat, b: Binding) {
    match b.relation
    case None => LocalColumns(b)
    case Some(r) =>
      r < limit && b.name == Some(v.nameOf(r)) && b.schema == Some(v.schemaOf(r)) && b.columns == CatalogColumns(v, r)
  }

  ghost predicate AllGrounded(v: View, limit: nat, bindings: seq<Binding>) {
    forall b :: b in bindings ==> Grounded(v, limit, b)
  }

  ghost predicate AllLocal(ctes: seq<Binding>) { forall b :: b in ctes ==> LocalColumns(b) }

  ghost predicate FramesGrounded(v: View, limit: nat, frames: seq<Frame>) {
    forall f :: f in frames ==> AllLocal(f.ctes) && AllGrounded(v, limit, f.bindings)
  }

  /** Every binding of the scope and of those inside it. */
  ghost predicate ScopeGrounded(v: View, limit: nat, s: Scope) {
    AllLocal(s.ctes) && AllGrounded(v, limit, s.bindings) && forall c :: c in s.children ==> ScopeGrounded(v, limit, c)
  }

  ghost predicate ScopesGrounded(v: View, limit: nat, scopes: seq<Scope>) {
    forall s :: s in scopes ==> ScopeGrounded(v, limit, s)
  }

  /** The catalog's lookups stay within its relations. */
  ghost predicate Bounded(v: View, limit: nat) {
    forall schema, name :: v.resolve(schema, name).Some? ==> v.resolve(schema, name).value < limit
  }

  lemma {:induction false} VisibleGrounded(v: View, limit: nat, s: Scope, outer: seq<Frame>, frames: seq<Frame>)
    requires ScopeGrounded(v, limit, s) && FramesGrounded(v, limit, outer) && Visible(s, outer, frames)
    ensures FramesGrounded(v, limit, frames)
    decreases s
  {
    var full := [Frame(s.ctes, s.bindings)] + outer;
    assert FramesGrounded(v, limit, full);
    if frames != full {
      var c :| c in s.children && VisibleIn(c, full, frames);
      if Visible(c, full, frames) {
        VisibleGrounded(v, limit, c, full, frames);
      } else {
        var k :| 0 <= k < |full[0].ctes| && Visible(c, Prefixed(full, k), frames);
        assert full[1..] == outer;
        VisibleGrounded(v, limit, c, Prefixed(full, k), frames);
      }
    }
  }

  // --- what one node reports ---

  /** What an object reference reports where CTEs and enclosing frames are known. */
  function ReferenceReports(v: View, n: Node, ctes: seq<Binding>, outer: seq<Frame>): seq<Diagnostic> {
    if PartsOf(n) == [] then [] else BindSource(v, PartsOf(n), None, ctes, outer, true).1
  }

  function ReportsAt(v: View, n: Node, frames: seq<Frame>): seq<Diagnostic>
    requires frames != []
  {
    match n.kind
    case ErrorNode => [SyntaxErrorAt(n)]
    case Field => ResolveField(v, n, frames)
    case ObjectReference => ReferenceReports(v, n, frames[0].ctes, frames[1..])
    case _ => []
  }

  /** Reported by a node below the list, over the frames. */
  ghost predicate Raised(v: View, d: Diagnostic, ns: seq<Node>, frames: seq<Frame>) {
    frames != [] && exists n :: BelowAny(n, ns) && d in ReportsAt(v, n, frames)
  }

  ghost predicate AllRaised(v: View, ds: seq<Diagnostic>, ns: seq<Node>, frames: seq<Frame>) {
    forall d :: d in ds ==> Raised(v, d, ns, frames)
  }

  /** Reported by a node below the list, over the frames of the scope or of one inside it. */
  ghost predicate Caused(v: View, d: Diagnostic, ns: seq<Node>, s: Scope, outer: seq<Frame>) {
    exists frames :: Visible(s, outer, frames) && Raised(v, d, ns, frames)
  }

  ghost predicate CausedIn(v: View, d: Diagnostic, ns: seq<Node>, scopes: seq<Scope>, full: seq<Frame>)
    requires full != []
  {
    exists c, frames :: c in scopes && VisibleIn(c, full, frames) && Raised(v, d, ns, frames)
  }

  ghost predicate AllCaused(v: View, f: Found, ns: seq<Node>, full: seq<Frame>)
    requires full != []
  {
    forall d :: d in f.diags ==> CausedIn(v, d, ns, f.scopes, full)
  }

  /** What is found below a list of nodes: grounded scopes, and diagnostics their frames explain. */
  ghost predicate Sound(v: View, limit: nat, f: Found, ns: seq<Node>, full: seq<Frame>)
    requires full != []
  {
    ScopesGrounded(v, limit, f.scopes) && AllCaused(v, f, ns, full)
  }

  lemma RaisedWider(v: View, d: Diagnostic, ns: seq<Node>, all: seq<Node>, frames: seq<Frame>)
    requires Raised(v, d, ns, frames) && Covered(ns, all)
    ensures Raised(v, d, all, frames)
  {
  }

  lemma AllRaisedWider(v: View, ds: seq<Diagnostic>, ns: seq<Node>, all: seq<Node>, frames: seq<Frame>)
    requires AllRaised(v, ds, ns, frames) && Covered(ns, all)
    ensures AllRaised(v, ds, all, frames)
  {
    forall d | d in ds ensures Raised(v, d, all, frames) { RaisedWider(v, d, ns, all, frames); }
  }

  lemma SoundWider(v: View, limit: nat, f: Found, ns: seq<Node>, all: seq<Node>, full: seq<Frame>)
    requires full != [] && Sound(v, limit, f, ns, full) && Covered(ns, all)
    ensures Sound(v, limit, f, all, full)
  {
    forall d | d in f.diags ensures CausedIn(v, d, all, f.scopes, full) {
      var c, frames :| c in f.scopes && VisibleIn(c, full, frames) && Raised(v, d, ns, frames);
      RaisedWider(v, d, ns, all, frames);
    }
  }

  lemma SoundBoth(v: View, limit: nat, a: Found, b: Found, ns: seq<Node>, full: seq<Frame>)
    requires full != [] && Sound(v, limit, a, ns, full) && Sound(v, limit, b, ns, full)
    ensures Sound(v, limit, Both(a, b), ns, full)
  {
    forall d | d in Both(a, b).diags ensures CausedIn(v, d, ns, Both(a, b).scopes, full) {
      var scopes := if d in a.diags then a.scopes else b.scopes;
      var c, frames :| c in scopes && VisibleIn(c, full, frames) && Raised(v, d, ns, frames);
      assert c in Both(a, b).scopes;
    }
  }

  lemma SoundPair(v: View, limit: nat, a: Found, b: Found, ns: seq<Node>, full: seq<Frame>)
    requires full != [] && ns != [] && Sound(v, limit, a, [ns[0]], full) && Sound(v, limit, b, ns[1..], full)
    ensures Sound(v, limit, Both(a, b), ns, full)
  {
    OneCovered(ns[0], ns);
    MembersCovered(ns[1..], ns);
    SoundWider(v, limit, a, [ns[0]], ns, full);
    SoundWider(v, limit, b, ns[1..], ns, full);
    SoundBoth(v, limit, a, b, ns, full);
  }

  /** A region's result as one nested scope. */
  lemma SoundOne(v: View, limit: nat, r: (Scope, seq<Diagnostic>), ns: seq<Node>, full: seq<Frame>)
    requires full != [] && RegionIsSound(v, limit, r, ns, full)
    ensures Sound(v, limit, One(r), ns, full)
  {
    forall d | d in r.1 ensures CausedIn(v, d, ns, [r.0], full) {
      var frames :| Visible(r.0, full, frames) && Raised(v, d, ns, frames);
      assert r.0 in [r.0] && VisibleIn(r.0, full, frames);
    }
  }

  ghost predicate RegionIsSound(v: View, limit: nat, r: (Scope, seq<Diagnostic>), ns: seq<Node>, outer: seq<Frame>) {
    ScopeGrounded(v, limit, r.0) && forall d :: d in r.1 ==> Caused(v, d, ns, r.0, outer)
  }

  // --- phase A ---

  /** What phase A makes of a list of nodes: grounded bindings, and reports of object references below. */
  ghost predicate BindsSoundly(v: View, limit: nat, r: (seq<Binding>, seq<Diagnostic>), ns: seq<Node>,
                               ctes: seq<Binding>, outer: seq<Frame>) {
    && AllGrounded(v, limit, r.0)
    && forall d :: d in r.1 ==> Referred(v, d, ns, ctes, outer)
  }

  ghost predicate Referred(v: View, d: Diagnostic, ns: seq<Node>, ctes: seq<Binding>, outer: seq<Frame>) {
    exists n :: BelowAny(n, ns) && n.kind.ObjectReference? && d in ReferenceReports(v, n, ctes, outer)
  }

  lemma BindsWider(v: View, limit: nat, r: (seq<Binding>, seq<Diagnostic>), ns: seq<Node>, all: seq<Node>,
                   ctes: seq<Binding>, outer: seq<Frame>)
    requires BindsSoundly(v, limit, r, ns, ctes, outer) && Covered(ns, all)
    ensures BindsSoundly(v, limit, r, all, ctes, outer)
  {
    forall d | d in r.1 ensures Referred(v, d, all, ctes, outer) {
      var n :| BelowAny(n, ns) && n.kind.ObjectReference? && d in ReferenceReports(v, n, ctes, outer);
    }
  }

  lemma BindsPlus(v: View, limit: nat, a: (seq<Binding>, seq<Diagnostic>), b: (seq<Binding>, seq<Diagnostic>),
                  ns: seq<Node>, ctes: seq<Binding>, outer: seq<Frame>)
    requires BindsSoundly(v, limit, a, ns, ctes, outer) && BindsSoundly(v, limit, b, ns, ctes, outer)
    ensures BindsSoundly(v, limit, Plus(a, b), ns, ctes, outer)
  {
  }

  lemma {:induction false} CteIsLocal(v: View, chain: seq<seq<Binding>>, name: string)
    requires forall ctes :: ctes in chain ==> AllLocal(ctes)
    ensures CteOf(v, chain, name).Some? ==> LocalColumns(CteOf(v, chain, name).value)
  {
    if chain != [] {
      assert chain[0] in chain;
      CteIsLocal(v, chain[1..], name);
    }
  }

  /** A source binds grounded bindings, whatever its alias, and reports what the reference alone would. */
  lemma SourceIsSound(v: View, limit: nat, n: Node, alias: Option<string>, ctes: seq<Binding>, outer: seq<Frame>,
                      bindAnyway: bool)
    requires Bounded(v, limit) && AllLocal(ctes) && FramesGrounded(v, limit, outer) && PartsOf(n) != []
    ensures
      var r := BindSource(v, PartsOf(n), alias, ctes, outer, bindAnyway);
      AllGrounded(v, limit, r.0) && r.1 == ReferenceReports(v, n, ctes, outer)
  {
    var names := Names(PartsOf(n));
    forall c | c in [ctes] + CtesOf(outer) ensures AllLocal(c) {
      if c != ctes {
        var i :| 0 <= i < |outer| && CtesOf(outer)[i] == c;
        assert outer[i] in outer;
      }
    }
    CteIsLocal(v, [ctes] + CtesOf(outer), names[0]);
  }

  lemma SourceBinds(v: View, limit: nat, n: Node, alias: Option<string>, ctes: seq<Binding>, outer: seq<Frame>,
                    bindAnyway: bool,
                    ns: seq<Node>)
    requires Bounded(v, limit) && AllLocal(ctes) && FramesGrounded(v, limit, outer) && PartsOf(n) != []
    requires n in ns && n.kind.ObjectReference?
    ensures BindsSoundly(v, limit, BindSource(v, PartsOf(n), alias, ctes, outer, bindAnyway), ns, ctes, outer)
  {
    SourceIsSound(v, limit, n, alias, ctes, outer, bindAnyway);
    assert Below(n, n);
    BelowMember(n, ns);
  }

  lemma {:induction false} TermsAreLocal(terms: seq<Node>)
    ensures forall c :: c in TermColumns(terms) ==> c.Local?
  {
    if terms != [] { TermsAreLocal(terms[1..]); }
  }

  lemma SelectListIsLocal(region: Node)
    ensures forall c :: c in SelectListColumns(region) ==> c.Local?
  {
    var select := FindSelect(region);
    if select.Some? {
      var expr := First(Direct(select.value, SelectExpression));
      if expr.Some? { TermsAreLocal(Direct(expr.value, Term)); }
    }
  }

  lemma TargetBinds(v: View, limit: nat, n: Node, alias: Option<string>, ctes: seq<Binding>, outer: seq<Frame>)
    requires Bounded(v, limit) && AllLocal(ctes) && FramesGrounded(v, limit, outer)
    ensures BindsSoundly(v, limit, BindTarget(v, First(Direct(n, ObjectReference)), alias, ctes, outer), n.kids, ctes, outer)
  {
    var target := First(Direct(n, ObjectReference));
    if target.Some? && PartsOf(target.value) != [] {
      assert target.value in Direct(n, ObjectReference);
      SourceBinds(v, limit, target.value, alias, ctes, outer, false, n.kids);
    }
  }

  lemma OwnTargetBinds(v: View, limit: nat, n: Node, inDelete: bool, ctes: seq<Binding>, outer: seq<Frame>)
    requires Bounded(v, limit) && AllLocal(ctes) && FramesGrounded(v, limit, outer)
    ensures BindsSoundly(v, limit, OwnTarget(v, n, inDelete, ctes, outer), n.kids, ctes, outer)
  {
    if n.kind.From? && inDelete {
      var aliasNode := First(Direct(n, Identifier));
      TargetBinds(v, limit, n, if aliasNode.Some? then Some(aliasNode.value.text) else None, ctes, outer);
    } else if n.kind.Insert? {
      TargetBinds(v, limit, n, None, ctes, outer);
    }
  }

  lemma ItemBinds(v: View, limit: nat, n: Node, ctes: seq<Binding>, outer: seq<Frame>)
    requires Bounded(v, limit) && AllLocal(ctes) && FramesGrounded(v, limit, outer)
    ensures BindsSoundly(v, limit, RelationItem(v, n, ctes, outer), n.kids, ctes, outer)
  {
    var reference, sub := Last(Direct(n, ObjectReference)), Last(Direct(n, Subquery));
    if sub.Some? {
      SelectListIsLocal(sub.value);
    } else if reference.Some? && PartsOf(reference.value) != [] {
      assert reference.value in Direct(n, ObjectReference);
      var aliasNode := Last(Direct(n, Identifier));
      SourceBinds(v, limit, reference.value, if aliasNode.Some? then Some(aliasNode.value.text) else None, ctes, outer, true, n.kids);
    }
  }

  lemma LateralBinds(v: View, limit: nat, n: Node)
    ensures AllGrounded(v, limit, LateralItem(n))
  {
    var sub := First(Direct(n, Subquery));
    if sub.Some? { SelectListIsLocal(sub.value); }
  }

  lemma {:induction false} PhaseABinds(v: View, limit: nat, n: Node, inDelete: bool, ctes: seq<Binding>,
                                       outer: seq<Frame>)
    requires Bounded(v, limit) && AllLocal(ctes) && FramesGrounded(v, limit, outer)
    ensures BindsSoundly(v, limit, PhaseA(v, n, inDelete, ctes, outer), n.kids, ctes, outer)
    decreases Size(n), 0
  {
    if BindsNothingBelow(n.kind) {
    } else if n.kind.Relation? {
      ItemBinds(v, limit, n, ctes, outer);
    } else if n.kind.LateralJoin? || n.kind.LateralCrossJoin? {
      LateralBinds(v, limit, n);
    } else {
      OwnTargetBinds(v, limit, n, inDelete, ctes, outer);
      PhaseAllBinds(v, limit, n.kids, HasKind(n.kids, Delete), ctes, outer);
      BindsPlus(v, limit, OwnTarget(v, n, inDelete, ctes, outer), PhaseAll(v, n.kids, HasKind(n.kids, Delete), ctes, outer),
                n.kids, ctes, outer);
    }
  }

  lemma {:induction false} PhaseAllBinds(v: View, limit: nat, ns: seq<Node>, inDelete: bool, ctes: seq<Binding>,
                                         outer: seq<Frame>)
    requires Bounded(v, limit) && AllLocal(ctes) && FramesGrounded(v, limit, outer)
    ensures BindsSoundly(v, limit, PhaseAll(v, ns, inDelete, ctes, outer), ns, ctes, outer)
    decreases SizeAll(ns), 1
  {
    if ns != [] {
      var a, b := PhaseA(v, ns[0], inDelete, ctes, outer), PhaseAll(v, ns[1..], inDelete, ctes, outer);
      PhaseABinds(v, limit, ns[0], inDelete, ctes, outer);
      PhaseAllBinds(v, limit, ns[1..], inDelete, ctes, outer);
      OneCovered(ns[0], ns);
      MembersCovered(ns[1..], ns);
      BindsWider(v, limit, a, ns[0].kids, ns, ctes, outer);
      BindsWider(v, limit, b, ns[1..], ns, ctes, outer);
      BindsPlus(v, limit, a, b, ns, ctes, outer);
    }
  }

  lemma {:induction false} ScanIsLocal(ns: seq<Node>, c: CteScan)
    requires forall x :: x in c.explicit ==> x.Local?
    ensures forall x :: x in ScanCte(ns, c).explicit ==> x.Local?
    decreases |ns|
  {
    if ns != [] {
      var n := ns[0];
      match n.kind
      case Open => ScanIsLocal(ns[1..], c.(depth := c.depth + 1));
      case Close => ScanIsLocal(ns[1..], c.(depth := if c.depth > 0 then c.depth - 1 else 0));
      case Keyword(k) => ScanIsLocal(ns[1..], if k == "as" then c.(afterAs := true) else c);
      case Identifier =>
        ScanIsLocal(ns[1..],
          if c.name.None? && c.depth == 0 && !c.afterAs then c.(name := Some(n))
          else if c.name.Some? && c.depth == 1 && !c.afterAs then c.(explicit := c.explicit + [Local(n.text)])
          else c);
      case Statement => ScanIsLocal(ns[1..], if c.body.None? then c.(body := Some(n)) else c);
      case _ => ScanIsLocal(ns[1..], c);
    }
  }

  lemma CtesAreLocal(nodes: seq<Node>)
    ensures AllLocal(CteBindings(nodes))
  {
    forall n | n in nodes ensures LocalColumns(CteBinding(n)) {
      var c := ScanCte(n.kids, CteScan(0, false, None, [], None));
      ScanIsLocal(n.kids, CteScan(0, false, None, [], None));
      if c.body.Some? { SelectListIsLocal(c.body.value); }
    }
  }

  // --- regions ---

  lemma ResolvedHere(v: View, n: Node, full: seq<Frame>)
    requires full != []
    ensures AllRaised(v, ReportsAt(v, n, full), [n], full)
  {
    assert Below(n, n) && BelowAny(n, [n]);
  }

  lemma {:induction false} NodeSound(v: View, limit: nat, n: Node, full: seq<Frame>)
    requires Bounded(v, limit) && full != [] && FramesGrounded(v, limit, full)
    ensures AllRaised(v, ResolveNode(v, n, full), [n], full) && Sound(v, limit, Subqueries(v, n, full), [n], full)
    decreases Size(n), 4, 0
  {
    if n.kind.Subquery? {
      RegionSound(v, limit, n, full);
      SoundOne(v, limit, WalkRegion(v, n, full), [n], full);
    } else if n.kind.ErrorNode? {
      ResolvedHere(v, n, full);
    } else if !n.kind.Cte? {
      NodesSound(v, limit, n.kids, full);
      OneCovered(n, [n]);
      AllRaisedWider(v, ResolveNodes(v, n.kids, full), n.kids, [n], full);
      SoundWider(v, limit, SubqueriesIn(v, n.kids, full), n.kids, [n], full);
      ResolvedHere(v, n, full);
    }
  }

  lemma {:induction false} NodesSound(v: View, limit: nat, ns: seq<Node>, full: seq<Frame>)
    requires Bounded(v, limit) && full != [] && FramesGrounded(v, limit, full)
    ensures AllRaised(v, ResolveNodes(v, ns, full), ns, full) && Sound(v, limit, SubqueriesIn(v, ns, full), ns, full)
    decreases SizeAll(ns), 5
  {
    if ns != [] {
      NodeSound(v, limit, ns[0], full);
      NodesSound(v, limit, ns[1..], full);
      RaisedPair(v, ResolveNode(v, ns[0], full), ResolveNodes(v, ns[1..], full), ns, full);
      SoundPair(v, limit, Subqueries(v, ns[0], full), SubqueriesIn(v, ns[1..], full), ns, full);
    }
  }

  lemma RaisedPair(v: View, a: seq<Diagnostic>, b: seq<Diagnostic>, ns: seq<Node>, full: seq<Frame>)
    requires ns != [] && AllRaised(v, a, [ns[0]], full) && AllRaised(v, b, ns[1..], full)
    ensures AllRaised(v, a + b, ns, full)
  {
    OneCovered(ns[0], ns);
    MembersCovered(ns[1..], ns);
    AllRaisedWider(v, a, [ns[0]], ns, full);
    AllRaisedWider(v, b, ns[1..], ns, full);
  }

  lemma {:induction false} PartSound(v: View, limit: nat, part: Node, full: seq<Frame>)
    requires Bounded(v, limit) && full != [] && FramesGrounded(v, limit, full)
    ensures AllRaised(v, ResolvePart(v, part, full), [part], full) && Sound(v, limit, WalkPart(v, part, full), [part], full)
    decreases Size(part), 4, 1
  {
    if part.kind.SetOperation? {
      RegionSound(v, limit, part, full);
      SoundOne(v, limit, WalkRegion(v, part, full), [part], full);
    } else {
      NodeSound(v, limit, part, full);
    }
  }

  lemma {:induction false} NestedSound(v: View, limit: nat, parts: seq<Node>, full: seq<Frame>)
    requires Bounded(v, limit) && full != [] && FramesGrounded(v, limit, full)
    ensures AllRaised(v, ResolveParts(v, parts, full), parts, full) && Sound(v, limit, WalkNested(v, parts, full), parts, full)
    decreases SizeAll(parts), 5
  {
    if parts != [] {
      PartSound(v, limit, parts[0], full);
      NestedSound(v, limit, parts[1..], full);
      RaisedPair(v, ResolvePart(v, parts[0], full), ResolveParts(v, parts[1..], full), parts, full);
      SoundPair(v, limit, WalkPart(v, parts[0], full), WalkNested(v, parts[1..], full), parts, full);
    }
  }

  /** A scope explains what its own frames raise. */
  lemma OwnCauses(v: View, ds: seq<Diagnostic>, ns: seq<Node>, s: Scope, outer: seq<Frame>)
    requires AllRaised(v, ds, ns, [Frame(s.ctes, s.bindings)] + outer)
    ensures forall d :: d in ds ==> Caused(v, d, ns, s, outer)
  {
    assert Visible(s, outer, [Frame(s.ctes, s.bindings)] + outer);
  }

  /** And what those inside it explain. */
  lemma ChildCauses(v: View, f: Found, ns: seq<Node>, s: Scope, outer: seq<Frame>)
    requires AllCaused(v, f, ns, [Frame(s.ctes, s.bindings)] + outer) && forall c :: c in f.scopes ==> c in s.children
    ensures forall d :: d in f.diags ==> Caused(v, d, ns, s, outer)
  {
    var full := [Frame(s.ctes, s.bindings)] + outer;
    forall d | d in f.diags ensures Caused(v, d, ns, s, outer) {
      var c, frames :| c in f.scopes && VisibleIn(c, full, frames) && Raised(v, d, ns, frames);
      assert Visible(s, outer, frames);
    }
  }

  lemma {:induction false} PartsSound(v: View, limit: nat, parts: seq<Node>, inDelete: bool, start: nat, end: nat,
                                      ctes: seq<Binding>,
                                      owner: bool, outer: seq<Frame>)
    requires Bounded(v, limit) && FramesGrounded(v, limit, outer) && AllLocal(ctes) && (owner ==> |ctes| == |OfKind(parts, Cte)|)
    ensures RegionIsSound(v, limit, WalkParts(v, parts, inDelete, start, end, ctes, owner, outer), parts, outer)
    decreases SizeAll(parts), 6
  {
    var a := PhaseAll(v, parts, inDelete, ctes, outer);
    var full := [Frame(ctes, a.0)] + outer;
    var bodies := if owner then CteBodies(v, OfKind(parts, Cte), ctes, 0, outer) else Found([], []);
    PhaseAllBinds(v, limit, parts, inDelete, ctes, outer);
    assert FramesGrounded(v, limit, full);
    if owner {
      BodiesSound(v, limit, OfKind(parts, Cte), ctes, 0, a.0, outer);
      MembersCovered(OfKind(parts, Cte), parts);
      SoundWider(v, limit, bodies, OfKind(parts, Cte), parts, full);
    }
    NestedSound(v, limit, parts, full);
    PartsTogether(v, limit, parts, start, end, ctes, outer, a, bodies, WalkNested(v, parts, full), ResolveParts(v, parts, full));
  }

  lemma PartsTogether(v: View, limit: nat, parts: seq<Node>, start: nat, end: nat, ctes: seq<Binding>,
                      outer: seq<Frame>,
                      a: (seq<Binding>, seq<Diagnostic>), bodies: Found, nested: Found, resolved: seq<Diagnostic>)
    requires AllLocal(ctes) && BindsSoundly(v, limit, a, parts, ctes, outer)
    requires var full := [Frame(ctes, a.0)] + outer;
             Sound(v, limit, bodies, parts, full) && Sound(v, limit, nested, parts, full) && AllRaised(v, resolved, parts, full)
    ensures
      RegionIsSound(v, limit, (Scope(start, end, ctes, a.0, bodies.scopes + nested.scopes),
                               a.1 + bodies.diags + nested.diags + resolved), parts, outer)
  {
    var s, full := Scope(start, end, ctes, a.0, bodies.scopes + nested.scopes), [Frame(ctes, a.0)] + outer;
    ReferredRaises(v, a.1, parts, ctes, a.0, outer);
    OwnCauses(v, a.1, parts, s, outer);
    OwnCauses(v, resolved, parts, s, outer);
    ChildCauses(v, bodies, parts, s, outer);
    ChildCauses(v, nested, parts, s, outer);
  }

  lemma ReferenceAt(v: View, n: Node, ctes: seq<Binding>, bindings: seq<Binding>, outer: seq<Frame>)
    requires n.kind.ObjectReference?
    ensures ReportsAt(v, n, [Frame(ctes, bindings)] + outer) == ReferenceReports(v, n, ctes, outer)
  {
    assert ([Frame(ctes, bindings)] + outer)[1..] == outer;
  }

  lemma ReferredRaises(v: View, ds: seq<Diagnostic>, ns: seq<Node>, ctes: seq<Binding>, bindings: seq<Binding>,
                       outer: seq<Frame>)
    requires forall d :: d in ds ==> Referred(v, d, ns, ctes, outer)
    ensures AllRaised(v, ds, ns, [Frame(ctes, bindings)] + outer)
  {
    var full := [Frame(ctes, bindings)] + outer;
    forall d | d in ds ensures Raised(v, d, ns, full) {
      var n :| BelowAny(n, ns) && n.kind.ObjectReference? && d in ReferenceReports(v, n, ctes, outer);
      ReferenceAt(v, n, ctes, bindings, outer);
    }
  }

  /** The body of the first CTE, over the CTEs before it. */
  lemma {:induction false} BodySound(v: View, limit: nat, cte: Node, ctes: seq<Binding>, i: nat,
                                     bindings: seq<Binding>, outer: seq<Frame>)
    requires Bounded(v, limit) && FramesGrounded(v, limit, outer) && AllLocal(ctes) && i < |ctes|
    ensures
      var body := First(Direct(cte, Statement));
      body.Some? ==>
        var r := WalkRegion(v, body.value, [Frame(ctes[..i], [])] + outer);
        Sound(v, limit, Found([r.0], r.1), [cte], [Frame(ctes, bindings)] + outer)
    decreases Size(cte), 0
  {
    var body := First(Direct(cte, Statement));
    if body.Some? {
      var full, frames := [Frame(ctes, bindings)] + outer, [Frame(ctes[..i], [])] + outer;
      assert AllLocal(ctes[..i]) && FramesGrounded(v, limit, frames);
      RegionSound(v, limit, body.value, frames);
      assert full[1..] == outer && frames == Prefixed(full, i);
      SoundPrefixed(v, limit, WalkRegion(v, body.value, frames), [body.value], full, i);
      assert body.value in Direct(cte, Statement);
      BodyCovered(cte, body.value);
      SoundWider(v, limit, One(WalkRegion(v, body.value, frames)), [body.value], [cte], full);
    }
  }

  lemma BodyCovered(cte: Node, body: Node)
    requires body in cte.kids
    ensures Covered([body], [cte])
  {
    OneCovered(body, cte.kids);
    OneCovered(cte, [cte]);
  }

  lemma SoundPrefixed(v: View, limit: nat, r: (Scope, seq<Diagnostic>), ns: seq<Node>, full: seq<Frame>, k: nat)
    requires full != [] && k < |full[0].ctes| && RegionIsSound(v, limit, r, ns, Prefixed(full, k))
    ensures Sound(v, limit, One(r), ns, full)
  {
    forall d | d in r.1 ensures CausedIn(v, d, ns, [r.0], full) {
      var frames :| Visible(r.0, Prefixed(full, k), frames) && Raised(v, d, ns, frames);
      assert r.0 in [r.0] && VisibleIn(r.0, full, frames);
    }
  }

  lemma {:induction false} BodiesSound(v: View, limit: nat, nodes: seq<Node>, ctes: seq<Binding>, i: nat,
                                       bindings: seq<Binding>, outer: seq<Frame>)
    requires Bounded(v, limit) && FramesGrounded(v, limit, outer) && AllLocal(ctes) && i + |nodes| <= |ctes|
    ensures Sound(v, limit, CteBodies(v, nodes, ctes, i, outer), nodes, [Frame(ctes, bindings)] + outer)
    decreases SizeAll(nodes), 1
  {
    if nodes != [] {
      var full, rest := [Frame(ctes, bindings)] + outer, CteBodies(v, nodes[1..], ctes, i + 1, outer);
      BodiesSound(v, limit, nodes[1..], ctes, i + 1, bindings, outer);
      BodySound(v, limit, nodes[0], ctes, i, bindings, outer);
      var body := First(Direct(nodes[0], Statement));
      var first := if body.None? then Found([], []) else One(WalkRegion(v, body.value, [Frame(ctes[..i], [])] + outer));
      SoundPair(v, limit, first, rest, nodes, full);
      BodiesAre(v, nodes, ctes, i, outer, first);
    }
  }

  lemma BodiesAre(v: View, nodes: seq<Node>, ctes: seq<Binding>, i: nat, outer: seq<Frame>, first: Found)
    requires nodes != [] && i + |nodes| <= |ctes|
    requires
      var body := First(Direct(nodes[0], Statement));
      first == if body.None? then Found([], []) else One(WalkRegion(v, body.value, [Frame(ctes[..i], [])] + outer))
    ensures CteBodies(v, nodes, ctes, i, outer) == Both(first, CteBodies(v, nodes[1..], ctes, i + 1, outer))
  {
  }

  lemma SideSound(v: View, limit: nat, r: (Scope, seq<Diagnostic>), side: seq<Node>, ns: seq<Node>, full: seq<Frame>)
    requires full != [] && RegionIsSound(v, limit, r, side, full) && forall n :: n in side ==> n in ns
    ensures Sound(v, limit, One(r), ns, full)
  {
    MembersCovered(side, ns);
    SoundOne(v, limit, r, side, full);
    SoundWider(v, limit, One(r), side, ns, full);
  }

  lemma {:induction false} SidesSound(v: View, limit: nat, sides: seq<seq<Node>>, inDelete: bool, full: seq<Frame>,
                                      ns: seq<Node>)
    requires Bounded(v, limit) && full != [] && FramesGrounded(v, limit, full)
    requires forall side, n :: side in sides && n in side ==> n in ns
    ensures Sound(v, limit, WalkSides(v, sides, inDelete, full), ns, full)
    decreases SizeSides(sides), 7, |sides|
  {
    if sides != [] {
      var side := sides[0];
      var start, end := if side == [] then 0 else side[0].start, if side == [] then 0 else side[|side| - 1].end;
      PartsSound(v, limit, side, inDelete, start, end, [], false, full);
      SidesSound(v, limit, sides[1..], inDelete, full, ns);
      var r := WalkParts(v, side, inDelete, start, end, [], false, full);
      SideSound(v, limit, r, side, ns, full);
      SoundBoth(v, limit, One(r), WalkSides(v, sides[1..], inDelete, full), ns, full);
      assert WalkSides(v, sides, inDelete, full) == Both(One(r), WalkSides(v, sides[1..], inDelete, full));
    }
  }

  lemma {:induction false} OpsSound(v: View, limit: nat, ops: seq<Node>, full: seq<Frame>)
    requires Bounded(v, limit) && full != [] && FramesGrounded(v, limit, full)
    ensures Sound(v, limit, WalkOps(v, ops, full), ops, full)
    decreases SizeAll(ops), 2
  {
    if ops != [] {
      var op := ops[0];
      var walked := WalkSides(v, Sides(op.kids, []), HasKind(op.kids, Delete), full);
      SidesMembers(op.kids, [], op.kids);
      SidesSound(v, limit, Sides(op.kids, []), HasKind(op.kids, Delete), full, op.kids);
      OpsSound(v, limit, ops[1..], full);
      OneCovered(op, [op]);
      SoundWider(v, limit, walked, op.kids, [op], full);
      SoundPair(v, limit, walked, WalkOps(v, ops[1..], full), ops, full);
    }
  }

  /** The sides of a set operation, or of those that are parts of the region. */
  lemma {:induction false} SetOperationSound(v: View, limit: nat, region: Node, full: seq<Frame>)
    requires Bounded(v, limit) && full != [] && FramesGrounded(v, limit, full)
    ensures Sound(v, limit, WalkSides(v, Sides(region.kids, []), HasKind(region.kids, Delete), full), region.kids, full)
    ensures Sound(v, limit, WalkOps(v, Direct(region, SetOperation), full), region.kids, full)
    decreases Size(region), 2
  {
    SidesMembers(region.kids, [], region.kids);
    SidesSound(v, limit, Sides(region.kids, []), HasKind(region.kids, Delete), full, region.kids);
    OpsSound(v, limit, Direct(region, SetOperation), full);
    MembersCovered(Direct(region, SetOperation), region.kids);
    SoundWider(v, limit, WalkOps(v, Direct(region, SetOperation), full), Direct(region, SetOperation), region.kids, full);
  }

  lemma {:induction false} RegionSound(v: View, limit: nat, region: Node, outer: seq<Frame>)
    requires Bounded(v, limit) && FramesGrounded(v, limit, outer)
    ensures RegionIsSound(v, limit, WalkRegion(v, region, outer), [region], outer)
    decreases Size(region), 3
  {
    var cteNodes, nested := Direct(region, Cte), Direct(region, SetOperation);
    var ctes := CteBindings(cteNodes);
    CtesAreLocal(cteNodes);
    if region.kind.ErrorNode? {
      var s := WalkRegion(v, region, outer).0;
      ResolvedHere(v, region, [Frame(s.ctes, s.bindings)] + outer);
      OwnCauses(v, [SyntaxErrorAt(region)], [region], s, outer);
    } else if region.kind.SetOperation? || nested != [] {
      var full := [Frame(ctes, [])] + outer;
      assert FramesGrounded(v, limit, full);
      BodiesSound(v, limit, cteNodes, ctes, 0, [], outer);
      MembersCovered(cteNodes, region.kids);
      SoundWider(v, limit, CteBodies(v, cteNodes, ctes, 0, outer), cteNodes, region.kids, full);
      SetOperationSound(v, limit, region, full);
      RegionTogether(v, limit, region, ctes, outer, CteBodies(v, cteNodes, ctes, 0, outer),
        if region.kind.SetOperation? then WalkSides(v, Sides(region.kids, []), HasKind(region.kids, Delete), full)
        else WalkOps(v, nested, full));
    } else {
      PartsSound(v, limit, region.kids, HasKind(region.kids, Delete), region.start, region.end, ctes, true, outer);
      RegionOfKids(v, limit, WalkRegion(v, region, outer), region, outer);
    }
  }

  lemma RegionTogether(v: View, limit: nat, region: Node, ctes: seq<Binding>, outer: seq<Frame>, bodies: Found,
                       sides: Found)
    requires AllLocal(ctes)
    requires
      var full := [Frame(ctes, [])] + outer;
      Sound(v, limit, bodies, region.kids, full) && Sound(v, limit, sides, region.kids, full)
    ensures
      RegionIsSound(v, limit, (Scope(region.start, region.end, ctes, [], bodies.scopes + sides.scopes),
                               bodies.diags + sides.diags), [region], outer)
  {
    var s := Scope(region.start, region.end, ctes, [], bodies.scopes + sides.scopes);
    ChildCauses(v, bodies, region.kids, s, outer);
    ChildCauses(v, sides, region.kids, s, outer);
    RegionOfKids(v, limit, (s, bodies.diags + sides.diags), region, outer);
  }

  lemma RegionOfKids(v: View, limit: nat, r: (Scope, seq<Diagnostic>), region: Node, outer: seq<Frame>)
    requires RegionIsSound(v, limit, r, region.kids, outer)
    ensures RegionIsSound(v, limit, r, [region], outer)
  {
    OneCovered(region, [region]);
    forall d | d in r.1 ensures Caused(v, d, [region], r.0, outer) {
      var frames :| Visible(r.0, outer, frames) && Raised(v, d, region.kids, frames);
      RaisedWider(v, d, region.kids, [region], frames);
    }
  }
}
