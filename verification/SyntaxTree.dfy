/** The syntax tree the analysis walks, as a datatype, with the tree queries of `tempr_intel/src/semantic.rs`. */
module SyntaxTree {
  import opened Identifiers
  import opened Wrappers

  /** The node kinds the analysis tells apart. */
  datatype Kind =
    | Statement | Subquery | SetOperation | Cte | ErrorNode | Select | SelectExpression | Term | Field | Relation
    | ObjectReference | Identifier | LateralJoin | LateralCrossJoin | From | Insert | Delete
    | Literal | Parameter | AllFields | Invocation | CaseNode
    | Keyword(name: string) | Open | Close | Separator | Other(name: string)

  /** A node with its byte range, the buffer's text in that range, and its children. */
  datatype Node = Node(kind: Kind, start: nat, end: nat, text: string, kids: seq<Node>)

  function Size(n: Node): (s: nat)
    ensures s == 1 + SizeAll(n.kids)
  {
    1 + SizeAll(n.kids)
  }

  function SizeAll(ns: seq<Node>): nat {
    if ns == [] then 0 else Size(ns[0]) + SizeAll(ns[1..])
  }

  lemma {:induction false} SizeConcat(a: seq<Node>, b: seq<Node>)
    ensures SizeAll(a + b) == SizeAll(a) + SizeAll(b)
  {
    if a == [] {
      assert a + b == b;
    } else {
      assert (a + b)[1..] == a[1..] + b;
      SizeConcat(a[1..], b);
    }
  }

  /** `direct` on a list of children. */
  function OfKind(ns: seq<Node>, kind: Kind): (r: seq<Node>)
    ensures SizeAll(r) <= SizeAll(ns)
    ensures forall n :: n in r ==> n in ns && n.kind == kind
  {
    if ns == [] then []
    else if ns[0].kind == kind then
      var rest := OfKind(ns[1..], kind);
      assert ([ns[0]] + rest)[1..] == rest;
      [ns[0]] + rest
    else OfKind(ns[1..], kind)
  }

  function Direct(n: Node, kind: Kind): (r: seq<Node>)
    ensures SizeAll(r) < Size(n)
  {
    OfKind(n.kids, kind)
  }

  function First(ns: seq<Node>): (r: Option<Node>)
    ensures r.Some? ==> Size(r.value) <= SizeAll(ns)
  {
    if ns == [] then None else Some(ns[0])
  }

  /** `collect_identifier_ranges`: identifiers in source order, without those of nested subqueries and CTEs. */
  function IdentifiersIn(ns: seq<Node>): seq<Node>
    decreases SizeAll(ns)
  {
    if ns == [] then []
    else
      assert Size(ns[0]) > SizeAll(ns[0].kids);
      (if ns[0].kind.Identifier? then [ns[0]]
       else if ns[0].kind.Subquery? || ns[0].kind.Cte? then []
       else IdentifiersIn(ns[0].kids)) + IdentifiersIn(ns[1..])
  }

  /** One part of a possibly qualified name. */
  datatype Part = Part(name: string, start: nat, end: nat)

  /** `identifier_parts`. */
  function PartsOf(n: Node): (r: seq<Part>) {
    var ids := IdentifiersIn(n.kids);
    seq(|ids|, i requires 0 <= i < |ids| => Part(NormalizeIdentifier(ids[i].text), ids[i].start, ids[i].end))
  }

  /** `find_select`: the top select of a region, through statement, set-operation and subquery wrappers. */
  function FindSelect(n: Node): Option<Node>
    decreases Size(n)
  {
    if n.kind.Select? then Some(n) else FindSelectIn(n.kids)
  }

  function FindSelectIn(ns: seq<Node>): Option<Node>
    decreases SizeAll(ns)
  {
    if ns == [] then None
    else if ns[0].kind.Select? then Some(ns[0])
    else if ns[0].kind.Statement? || ns[0].kind.SetOperation? || ns[0].kind.Subquery? then
      assert Size(ns[0]) > SizeAll(ns[0].kids);
      var inner := FindSelectIn(ns[0].kids);
      if inner.Some? then inner else FindSelectIn(ns[1..])
    else FindSelectIn(ns[1..])
  }

  /** `set_operation_sides`: a select or nested set operation starts a side, clauses join the last side. */
  function Sides(ns: seq<Node>, sides: seq<seq<Node>>): (r: seq<seq<Node>>)
    ensures SizeSides(r) <= SizeSides(sides) + SizeAll(ns)
    decreases |ns|
  {
    if ns == [] then sides
    else
      var n := ns[0];
      if n.kind.Select? || n.kind.SetOperation? then
        SizeSidesAppend(sides, [n]);
        Sides(ns[1..], sides + [[n]])
      else if n.kind.Keyword? || n.kind.Open? || n.kind.Close? || sides == [] then Sides(ns[1..], sides)
      else
        var front, last := sides[..|sides| - 1], sides[|sides| - 1];
        SizeSidesAppend(front, last);
        SizeSidesAppend(front, last + [n]);
        SizeConcat(last, [n]);
        assert sides == front + [last];
        Sides(ns[1..], front + [last + [n]])
  }

  predicate StartsASide(side: seq<Node>) { side != [] && (side[0].kind.Select? || side[0].kind.SetOperation?) }

  /** The loop of `set_operation_sides`. */
  method SplitSides(ns: seq<Node>) returns (sides: seq<seq<Node>>)
    ensures sides == Sides(ns, [])
    ensures forall k :: 0 <= k < |sides| ==> StartsASide(sides[k])
  {
    sides := [];
    assert ns[0..] == ns;
    for i := 0 to |ns|
      invariant Sides(ns, []) == Sides(ns[i..], sides)
      invariant forall k :: 0 <= k < |sides| ==> StartsASide(sides[k])
    {
      var n := ns[i];
      assert ns[i..][1..] == ns[i + 1..];
      if n.kind.Select? || n.kind.SetOperation? {
        sides := sides + [[n]];
      } else if !n.kind.Keyword? && !n.kind.Open? && !n.kind.Close? && sides != [] {
        var front, last := sides[..|sides| - 1], sides[|sides| - 1];
        assert StartsASide(last);
        sides := front + [last + [n]];
      }
    }
  }

  // --- what the sides are ---

  predicate Starts(n: Node) { n.kind.Select? || n.kind.SetOperation? }

  /** The nodes that belong to a side: from the first start on, without keywords and parentheses. */
  function SideNodes(ns: seq<Node>, started: bool): seq<Node> {
    if ns == [] then []
    else if Starts(ns[0]) then [ns[0]] + SideNodes(ns[1..], true)
    else if !started || ns[0].kind.Keyword? || ns[0].kind.Open? || ns[0].kind.Close? then SideNodes(ns[1..], started)
    else [ns[0]] + SideNodes(ns[1..], started)
  }

  function Flat(sides: seq<seq<Node>>): seq<Node> { if sides == [] then [] else sides[0] + Flat(sides[1..]) }

  /** A start, and no other behind it. */
  predicate OneStart(side: seq<Node>) { side != [] && Starts(side[0]) && forall i :: 1 <= i < |side| ==> !Starts(side[i]) }

  lemma {:induction false} FlatAppend(sides: seq<seq<Node>>, side: seq<Node>)
    ensures Flat(sides + [side]) == Flat(sides) + side
  {
    if sides == [] {
      assert (sides + [side])[1..] == [] && side + [] == side;
    } else {
      assert (sides + [side])[1..] == sides[1..] + [side];
      FlatAppend(sides[1..], side);
      assert sides[0] + (Flat(sides[1..]) + side) == (sides[0] + Flat(sides[1..])) + side;
    }
  }

  lemma FlatGrows(front: seq<seq<Node>>, last: seq<Node>, n: Node)
    ensures Flat(front + [last + [n]]) == Flat(front + [last]) + [n]
  {
    FlatAppend(front, last);
    FlatAppend(front, last + [n]);
    Regroup(Flat(front), last, [n]);
  }

  lemma Regroup(a: seq<Node>, b: seq<Node>, c: seq<Node>)
    ensures a + b + c == a + (b + c)
  {
  }

  lemma JoinsSide(front: seq<seq<Node>>, last: seq<Node>, n: Node)
    requires (forall k :: 0 <= k < |front + [last]| ==> OneStart((front + [last])[k])) && !Starts(n)
    ensures forall k :: 0 <= k < |front + [last + [n]]| ==> OneStart((front + [last + [n]])[k])
  {
    assert (front + [last])[|front|] == last;
    forall k | 0 <= k < |front| ensures OneStart(front[k]) { assert (front + [last])[k] == front[k]; }
  }

  /** The split keeps every node of a side, in order, and each side has one start, at its head. */
  lemma {:induction false} SidesAre(ns: seq<Node>, sides: seq<seq<Node>>)
    requires forall k :: 0 <= k < |sides| ==> OneStart(sides[k])
    ensures Flat(Sides(ns, sides)) == Flat(sides) + SideNodes(ns, sides != [])
    ensures forall k :: 0 <= k < |Sides(ns, sides)| ==> OneStart(Sides(ns, sides)[k])
    decreases |ns|
  {
    if ns == [] {
      assert Flat(sides) + [] == Flat(sides);
    } else if Starts(ns[0]) {
      SidesAre(ns[1..], sides + [[ns[0]]]);
      FlatAppend(sides, [ns[0]]);
      Regroup(Flat(sides), [ns[0]], SideNodes(ns[1..], true));
    } else if ns[0].kind.Keyword? || ns[0].kind.Open? || ns[0].kind.Close? || sides == [] {
      SidesAre(ns[1..], sides);
    } else {
      var front, last := sides[..|sides| - 1], sides[|sides| - 1];
      assert front + [last] == sides;
      JoinsSide(front, last, ns[0]);
      SidesAre(ns[1..], front + [last + [ns[0]]]);
      FlatGrows(front, last, ns[0]);
      Regroup(Flat(sides), [ns[0]], SideNodes(ns[1..], true));
    }
  }

  function SizeSides(sides: seq<seq<Node>>): nat {
    if sides == [] then 0 else SizeAll(sides[0]) + SizeSides(sides[1..])
  }

  lemma {:induction false} SizeSidesAppend(sides: seq<seq<Node>>, side: seq<Node>)
    ensures SizeSides(sides + [side]) == SizeSides(sides) + SizeAll(side)
  {
    if sides == [] {
      assert (sides + [side])[1..] == [];
    } else {
      assert (sides + [side])[1..] == sides[1..] + [side];
      SizeSidesAppend(sides[1..], side);
    }
  }

  predicate HasKind(ns: seq<Node>, kind: Kind) { exists n :: n in ns && n.kind == kind }
}
