/** Renumbering the placeholders of a `UNION ALL` query (`tempr_db_postgres/src/driver.rs`). */
module Placeholders {
  import opened Wrappers

  const SEPARATOR := " UNION ALL "
  const USIZE_MAX: nat := 0xFFFF_FFFF_FFFF_FFFF

  // --- numbers ---

  predicate IsDigit(c: char) { '0' <= c <= '9' }

  function DigitRun(s: string): (d: string)
    ensures |d| <= |s| && s[..|d|] == d
    ensures forall i :: 0 <= i < |d| ==> IsDigit(d[i])
    ensures |d| < |s| ==> !IsDigit(s[|d|])
  {
    if s == "" || !IsDigit(s[0]) then "" else [s[0]] + DigitRun(s[1..])
  }

  function DigitValue(c: char): nat
    requires IsDigit(c)
  {
    c as int - '0' as int
  }

  function Value(digits: string): nat
    requires forall i :: 0 <= i < |digits| ==> IsDigit(digits[i])
  {
    if digits == "" then 0
    else Value(digits[..|digits| - 1]) * 10 + DigitValue(digits[|digits| - 1])
  }

  /** `parse::<usize>`. */
  function Parse(digits: string): Option<nat>
    requires forall i :: 0 <= i < |digits| ==> IsDigit(digits[i])
  {
    if Value(digits) <= USIZE_MAX then Some(Value(digits)) else None
  }

  function Decimal(n: nat): (s: string)
    ensures s != "" && forall i :: 0 <= i < |s| ==> IsDigit(s[i])
    ensures Value(s) == n
  {
    var last := [('0' as int + n % 10) as char];
    if n < 10 then last
    else
      var s := Decimal(n / 10) + last;
      assert s[..|s| - 1] == Decimal(n / 10);
      s
  }

  // --- what a query means under its bind values ---

  datatype Token<T> = Literal(c: char) | Bound(value: T) | Loose(digits: string)

  function Resolve<T>(digits: string, binds: seq<T>): Token<T>
    requires forall i :: 0 <= i < |digits| ==> IsDigit(digits[i])
  {
    if 1 <= Value(digits) <= |binds| then Bound(binds[Value(digits) - 1]) else Loose(digits)
  }

  predicate PlaceholderAt(s: string) { |s| > 1 && s[0] == '$' && IsDigit(s[1]) }

  /** The query's text with every placeholder, a dollar and its whole digit run, replaced by its value. */
  function Meaning<T>(s: string, binds: seq<T>): seq<Token<T>> {
    if s == "" then []
    else if PlaceholderAt(s) then
      var d := DigitRun(s[1..]);
      [Resolve(d, binds)] + Meaning(s[1 + |d|..], binds)
    else [Literal(s[0])] + Meaning(s[1..], binds)
  }

  /** Every placeholder is between 1 and `count`. */
  predicate Closed(s: string, count: nat) {
    if s == "" then true
    else if PlaceholderAt(s) then
      var d := DigitRun(s[1..]);
      1 <= Value(d) <= count && Closed(s[1 + |d|..], count)
    else Closed(s[1..], count)
  }

  // --- the rewriting ---

  function Shift(s: string, offset: nat): string {
    if s == "" then ""
    else if PlaceholderAt(s) then
      var d := DigitRun(s[1..]);
      "$" + Renumbered(d, offset) + Shift(s[1 + |d|..], offset)
    else [s[0]] + Shift(s[1..], offset)
  }

  function Renumbered(d: string, offset: nat): string
    requires forall i :: 0 <= i < |d| ==> IsDigit(d[i])
  {
    var n := Parse(d);
    if n.Some? then Decimal(n.value + offset) else d
  }

  lemma {:induction false} RunUpTo(d: string, rest: string)
    requires forall i :: 0 <= i < |d| ==> IsDigit(d[i])
    requires rest == "" || !IsDigit(rest[0])
    ensures DigitRun(d + rest) == d
  {
    if d == "" {
      assert d + rest == rest;
    } else {
      assert (d + rest)[1..] == d[1..] + rest;
      RunUpTo(d[1..], rest);
    }
  }

  lemma ShiftKeepsNonDigit(s: string, offset: nat)
    requires s == "" || !IsDigit(s[0])
    ensures Shift(s, offset) == "" || !IsDigit(Shift(s, offset)[0])
  {
  }

  lemma MeaningOfPlaceholder<T>(d: string, rest: string, binds: seq<T>)
    requires d != "" && forall i :: 0 <= i < |d| ==> IsDigit(d[i])
    requires rest == "" || !IsDigit(rest[0])
    ensures Meaning("$" + d + rest, binds) == [Resolve(d, binds)] + Meaning(rest, binds)
  {
    var s := "$" + d + rest;
    assert s[1..] == d + rest;
    RunUpTo(d, rest);
    assert s[1 + |d|..] == rest;
  }

  lemma ShiftedPlaceholder<T>(d: string, rest: string, offset: nat, binds: seq<T>, all: seq<T>)
    requires d != "" && forall i :: 0 <= i < |d| ==> IsDigit(d[i])
    requires rest == "" || !IsDigit(rest[0])
    requires offset + |binds| <= |all| && all[offset..offset + |binds|] == binds
    requires 1 <= Value(d) <= |binds| <= USIZE_MAX
    ensures Meaning("$" + Renumbered(d, offset) + rest, all) == [Resolve(d, binds)] + Meaning(rest, all)
  {
    RenumberedDigits(d, offset);
    ResolveShifted(d, offset, binds, all);
    MeaningOfPlaceholder(Renumbered(d, offset), rest, all);
  }

  lemma RenumberedDigits(d: string, offset: nat)
    requires d != "" && forall i :: 0 <= i < |d| ==> IsDigit(d[i])
    ensures var m := Renumbered(d, offset); m != "" && forall i :: 0 <= i < |m| ==> IsDigit(m[i])
    ensures Value(d) <= USIZE_MAX ==> Value(Renumbered(d, offset)) == Value(d) + offset
  {
  }

  lemma ResolveShifted<T>(d: string, offset: nat, binds: seq<T>, all: seq<T>)
    requires d != "" && forall i :: 0 <= i < |d| ==> IsDigit(d[i])
    requires offset + |binds| <= |all| && all[offset..offset + |binds|] == binds
    requires 1 <= Value(d) <= |binds| <= USIZE_MAX
    ensures forall i :: 0 <= i < |Renumbered(d, offset)| ==> IsDigit(Renumbered(d, offset)[i])
    ensures Resolve(Renumbered(d, offset), all) == Resolve(d, binds)
  {
    RenumberedDigits(d, offset);
    BindShifted(offset, binds, all, Value(d));
  }

  lemma BindShifted<T>(offset: nat, binds: seq<T>, all: seq<T>, n: nat)
    requires offset + |binds| <= |all| && all[offset..offset + |binds|] == binds
    requires 1 <= n <= |binds|
    ensures all[n + offset - 1] == binds[n - 1]
  {
    assert all[n + offset - 1] == all[offset..offset + |binds|][n - 1];
  }

  lemma LiteralStays(c: char, rest: string, offset: nat)
    requires c != '$' || rest == "" || !IsDigit(rest[0])
    ensures c != '$' || Shift(rest, offset) == "" || !IsDigit(Shift(rest, offset)[0])
  {
    if c == '$' { ShiftKeepsNonDigit(rest, offset); }
  }

  /** A shifted segment under the whole bind list means what the segment means under its own binds. */
  lemma {:induction false} ShiftPreserves<T>(s: string, offset: nat, binds: seq<T>, all: seq<T>)
    requires offset + |binds| <= |all| && all[offset..offset + |binds|] == binds
    requires Closed(s, |binds|) && |binds| <= USIZE_MAX
    ensures Meaning(Shift(s, offset), all) == Meaning(s, binds)
  {
    if s != "" {
      if PlaceholderAt(s) {
        var d := DigitRun(s[1..]);
        var rest := s[1 + |d|..];
        ShiftPreserves(rest, offset, binds, all);
        ShiftKeepsNonDigit(rest, offset);
        ShiftedPlaceholder(d, Shift(rest, offset), offset, binds, all);
      } else {
        ShiftPreserves(s[1..], offset, binds, all);
        LiteralStays(s[0], s[1..], offset);
        LiteralFirst(s[0], Shift(s[1..], offset), all);
      }
    }
  }

  lemma LiteralFirst<T>(c: char, rest: string, binds: seq<T>)
    requires c != '$' || rest == "" || !IsDigit(rest[0])
    ensures Meaning([c] + rest, binds) == [Literal(c)] + Meaning(rest, binds)
  {
    assert ([c] + rest)[1..] == rest;
  }

  // --- segments ---

  predicate SeparatorFirst(s: string) { |SEPARATOR| <= |s| && s[..|SEPARATOR|] == SEPARATOR }

  /** `split`: leftmost separators first, not overlapping; `before` is what precedes the rest in its segment. */
  function Split(s: string, before: string): (r: seq<string>)
    ensures r != []
    decreases |s|
  {
    if SeparatorFirst(s) then [before] + Split(s[|SEPARATOR|..], "")
    else if s == "" then [before]
    else Split(s[1..], before + [s[0]])
  }

  function Join(parts: seq<string>): string {
    if parts == [] then ""
    else if |parts| == 1 then parts[0]
    else parts[0] + SEPARATOR + Join(parts[1..])
  }

  lemma {:induction false} JoinSplit(s: string, before: string)
    ensures Join(Split(s, before)) == before + s
    decreases |s|
  {
    if SeparatorFirst(s) {
      JoinSplit(s[|SEPARATOR|..], "");
      var rest := Split(s[|SEPARATOR|..], "");
      assert ([before] + rest)[1..] == rest;
      assert s == SEPARATOR + s[|SEPARATOR|..];
      Glue(before, SEPARATOR, s[|SEPARATOR|..]);
    } else if s != "" {
      JoinSplit(s[1..], before + [s[0]]);
      assert s == [s[0]] + s[1..];
      Glue(before, [s[0]], s[1..]);
    }
  }

  lemma Glue<T>(a: seq<T>, b: seq<T>, c: seq<T>)
    ensures a + b + c == a + (b + c)
  {
  }

  function Concat<T>(lists: seq<seq<T>>): seq<T> {
    if lists == [] then [] else lists[0] + Concat(lists[1..])
  }

  /** The meaning of the segments, each under its own binds, between literal separators. */
  function SegmentMeanings<T>(segments: seq<string>, binds: seq<seq<T>>): seq<Token<T>>
    requires |segments| == |binds|
  {
    if segments == [] then []
    else if |segments| == 1 then Meaning(segments[0], binds[0])
    else Meaning(segments[0], binds[0]) + Literals(SEPARATOR) + SegmentMeanings(segments[1..], binds[1..])
  }

  function Literals<T>(s: string): seq<Token<T>> {
    if s == "" then [] else [Literal(s[0])] + Literals(s[1..])
  }

  function ShiftUnlessZero(s: string, offset: nat): string {
    if offset == 0 then s else Shift(s, offset)
  }

  function RenumberFrom(segments: seq<string>, counts: seq<nat>, offset: nat): (r: seq<string>)
    requires |segments| == |counts|
    ensures |r| == |segments|
  {
    if segments == [] then []
    else [ShiftUnlessZero(segments[0], offset)] + RenumberFrom(segments[1..], counts[1..], offset + counts[0])
  }

  /** `renumber_union_segments`; a wrong number of counts leaves the query alone. */
  function Renumber(sql: string, counts: seq<nat>): string {
    var segments := Split(sql, "");
    if |segments| != |counts| then sql else Join(RenumberFrom(segments, counts, 0))
  }

  // --- meaning is preserved ---

  lemma LiteralBefore<T>(a: string, b: string, binds: seq<T>)
    requires a != "" && !PlaceholderAt(a) && (b == "" || !IsDigit(b[0]))
    requires Meaning(a[1..] + b, binds) == Meaning(a[1..], binds) + Meaning(b, binds)
    ensures Meaning(a + b, binds) == Meaning(a, binds) + Meaning(b, binds)
  {
    var rest := a[1..];
    assert a == [a[0]] + rest;
    Glue([a[0]], rest, b);
    LiteralFirst(a[0], rest + b, binds);
    LiteralFirst(a[0], rest, binds);
    Glue([Literal(a[0])], Meaning(rest, binds), Meaning(b, binds));
  }

  lemma PlaceholderBefore<T>(a: string, b: string, binds: seq<T>)
    requires PlaceholderAt(a) && (b == "" || !IsDigit(b[0]))
    requires var rest := a[1 + |DigitRun(a[1..])|..]; Meaning(rest + b, binds) == Meaning(rest, binds) + Meaning(b, binds)
    ensures Meaning(a + b, binds) == Meaning(a, binds) + Meaning(b, binds)
  {
    var d := DigitRun(a[1..]);
    var rest := a[1 + |d|..];
    assert a == "$" + d + rest;
    Glue("$" + d, rest, b);
    MeaningOfPlaceholder(d, rest + b, binds);
    Glue([Resolve(d, binds)], Meaning(rest, binds), Meaning(b, binds));
  }

  lemma {:induction false} MeaningBefore<T>(a: string, b: string, binds: seq<T>)
    requires b == "" || !IsDigit(b[0])
    ensures Meaning(a + b, binds) == Meaning(a, binds) + Meaning(b, binds)
  {
    if a == "" {
      assert a + b == b;
    } else if PlaceholderAt(a) {
      MeaningBefore(a[1 + |DigitRun(a[1..])|..], b, binds);
      PlaceholderBefore(a, b, binds);
    } else {
      MeaningBefore(a[1..], b, binds);
      LiteralBefore(a, b, binds);
    }
  }

  lemma {:induction false} MeaningPlain<T>(p: string, b: string, binds: seq<T>)
    requires '$' !in p
    ensures Meaning(p + b, binds) == Literals(p) + Meaning(b, binds)
  {
    if p == "" {
      assert p + b == b;
    } else {
      MeaningPlain(p[1..], b, binds);
      assert p + b == [p[0]] + (p[1..] + b);
      LiteralFirst(p[0], p[1..] + b, binds);
      Glue([Literal(p[0])], Literals(p[1..]), Meaning(b, binds));
    }
  }

  lemma MeaningOfJoined<T>(a: string, b: string, binds: seq<T>)
    ensures Meaning(a + SEPARATOR + b, binds) == Meaning(a, binds) + Literals(SEPARATOR) + Meaning(b, binds)
  {
    Glue(a, SEPARATOR, b);
    MeaningBefore(a, SEPARATOR + b, binds);
    MeaningPlain(SEPARATOR, b, binds);
    Glue(Meaning(a, binds), Literals(SEPARATOR), Meaning(b, binds));
  }

  lemma MeaningOfOne<T>(s: string, offset: nat, binds: seq<T>, all: seq<T>)
    requires offset + |binds| <= |all| && all[offset..offset + |binds|] == binds
    requires Closed(s, |binds|) && |binds| <= USIZE_MAX
    ensures Meaning(ShiftUnlessZero(s, offset), all) == Meaning(s, binds)
  {
    if offset == 0 { SurplusIsUnused(s, binds, all); } else { ShiftPreserves(s, offset, binds, all); }
  }

  lemma {:induction false} SurplusIsUnused<T>(s: string, binds: seq<T>, all: seq<T>)
    requires |binds| <= |all| && all[..|binds|] == binds && Closed(s, |binds|)
    ensures Meaning(s, all) == Meaning(s, binds)
  {
    if s != "" {
      if PlaceholderAt(s) {
        var d := DigitRun(s[1..]);
        assert all[Value(d) - 1] == all[..|binds|][Value(d) - 1];
        SurplusIsUnused(s[1 + |d|..], binds, all);
      } else {
        SurplusIsUnused(s[1..], binds, all);
      }
    }
  }

  /** Each segment comes with its binds, and uses no placeholder beyond them. */
  ghost predicate Fits<T>(segments: seq<string>, counts: seq<nat>, binds: seq<seq<T>>) {
    && |segments| == |counts| == |binds|
    && forall i :: 0 <= i < |segments| ==> |binds[i]| == counts[i] <= USIZE_MAX && Closed(segments[i], counts[i])
  }

  lemma {:induction false} SegmentsPreserve<T>(segments: seq<string>, counts: seq<nat>, binds: seq<seq<T>>, offset: nat, all: seq<T>)
    requires Fits(segments, counts, binds)
    requires offset <= |all| && all[offset..] == Concat(binds)
    ensures Meaning(Join(RenumberFrom(segments, counts, offset)), all) == SegmentMeanings(segments, binds)
  {
    if segments != [] {
      OwnBinds(binds, offset, all);
      MeaningOfOne(segments[0], offset, binds[0], all);
      if |segments| > 1 { SegmentsPreserve(segments[1..], counts[1..], binds[1..], offset + counts[0], all); }
      FirstSegment(segments, counts, binds, offset, all);
    }
  }

  lemma FirstSegment<T>(segments: seq<string>, counts: seq<nat>, binds: seq<seq<T>>, offset: nat, all: seq<T>)
    requires |segments| == |counts| == |binds| > 0
    requires Meaning(ShiftUnlessZero(segments[0], offset), all) == Meaning(segments[0], binds[0])
    requires |segments| > 1 ==>
      Meaning(Join(RenumberFrom(segments[1..], counts[1..], offset + counts[0])), all) == SegmentMeanings(segments[1..], binds[1..])
    ensures Meaning(Join(RenumberFrom(segments, counts, offset)), all) == SegmentMeanings(segments, binds)
  {
    var first, tail := ShiftUnlessZero(segments[0], offset), RenumberFrom(segments[1..], counts[1..], offset + counts[0]);
    JoinFirst(first, tail);
    if |segments| > 1 { MeaningOfJoined(first, Join(tail), all); }
  }

  lemma OwnBinds<T>(binds: seq<seq<T>>, offset: nat, all: seq<T>)
    requires binds != [] && offset <= |all| && all[offset..] == Concat(binds)
    ensures offset + |binds[0]| <= |all| && all[offset..offset + |binds[0]|] == binds[0]
    ensures all[offset + |binds[0]|..] == Concat(binds[1..])
  {
    var own, rest := binds[0], Concat(binds[1..]);
    assert all[offset..][..|own|] == own && all[offset..][|own|..] == rest;
  }

  lemma JoinFirst(first: string, tail: seq<string>)
    ensures Join([first] + tail) == if tail == [] then first else first + SEPARATOR + Join(tail)
  {
    assert ([first] + tail)[1..] == tail;
  }

  /**
   For any query and any number of segments: when each segment uses only placeholders 1 to its bind count, the
   renumbered query under the concatenated binds means what the segments mean under their own.
   */
  lemma RenumberPreserves<T>(sql: string, counts: seq<nat>, binds: seq<seq<T>>)
    requires Fits(Split(sql, ""), counts, binds)
    ensures Meaning(Renumber(sql, counts), Concat(binds)) == SegmentMeanings(Split(sql, ""), binds)
    ensures Join(Split(sql, "")) == sql
  {
    SegmentsPreserve(Split(sql, ""), counts, binds, 0, Concat(binds));
    JoinSplit(sql, "");
    assert "" + sql == sql;
  }

  // --- the fingerprint query ---

  datatype SchemaScope = SearchPath | AllSchemas | InSchema(name: string) | InTable(schema: string, table: string)

  /** `scope_clause`. */
  function ScopeClause(scope: SchemaScope, ns: string, rel: string): (string, seq<string>) {
    match scope
    case SearchPath => ("(" + ns + ".nspname = ANY " + "(current_schemas(false)) OR " + ns + ".nspname = 'public')", [])
    case AllSchemas => (ns + ".nspname NOT IN ('pg_catalog', " + "'information_schema')", [])
    case InSchema(name) => (ns + ".nspname = $1", [name])
    case InTable(schema, table) => (ns + ".nspname = $1 AND " + rel + ".relname = $2", [schema, table])
  }

  /** `function_scope_clause`. */
  function FunctionScopeClause(scope: SchemaScope, ns: string): (string, seq<string>) {
    match scope
    case InTable(schema, _) => ScopeClause(InSchema(schema), ns, "")
    case _ => ScopeClause(scope, ns, "")
  }

  lemma {:induction false} PlainFirst(p: string, b: string, count: nat)
    requires '$' !in p
    ensures Closed(p + b, count) == Closed(b, count)
  {
    if p == "" {
      assert p + b == b;
    } else {
      assert (p + b)[1..] == p[1..] + b;
      PlainFirst(p[1..], b, count);
    }
  }

  lemma PlainIsClosed(p: string, count: nat)
    requires '$' !in p
    ensures Closed(p, count)
  {
    PlainFirst(p, "", count);
    assert p + "" == p;
  }

  lemma PlaceholderIsClosed(d: string, rest: string, count: nat)
    requires d != "" && forall i :: 0 <= i < |d| ==> IsDigit(d[i])
    requires rest == "" || !IsDigit(rest[0])
    requires 1 <= Value(d) <= count && Closed(rest, count)
    ensures Closed("$" + d + rest, count)
  {
    var s := "$" + d + rest;
    assert s[1..] == d + rest;
    RunUpTo(d, rest);
    assert s[1 + |d|..] == rest;
  }

  lemma SchemaClauseIsClosed(ns: string, name: string)
    requires '$' !in ns
    ensures Closed(ScopeClause(InSchema(name), ns, "").0, 1)
  {
    PlaceholderIsClosed("1", "", 1);
    assert "$" + "1" + "" == "$1" && ns + ".nspname = $1" == ns + ".nspname = " + "$1";
    PlainFirst(ns + ".nspname = ", "$1", 1);
  }

  lemma TableClauseIsClosed(ns: string, rel: string, schema: string, table: string)
    requires '$' !in ns && '$' !in rel
    ensures Closed(ScopeClause(InTable(schema, table), ns, rel).0, 2)
  {
    PlaceholderIsClosed("2", "", 2);
    assert "$" + "2" + "" == "$2";
    var middle := " AND " + rel + ".relname = ";
    PlainFirst(middle, "$2", 2);
    PlaceholderIsClosed("1", middle + "$2", 2);
    PlainFirst(ns + ".nspname = ", "$" + "1" + (middle + "$2"), 2);
    TableClauseText(ns, rel);
  }

  lemma TableClauseText(ns: string, rel: string)
    ensures ns + ".nspname = $1 AND " + rel + ".relname = $2"
         == ns + ".nspname = " + ("$" + "1" + (" AND " + rel + ".relname = " + "$2"))
  {
    assert ".nspname = $1 AND " == ".nspname = " + "$" + "1" + " AND ";
    assert ".relname = $2" == ".relname = " + "$2";
  }

  lemma SearchPathIsPlain(ns: string)
    requires '$' !in ns
    ensures '$' !in ScopeClause(SearchPath, ns, "").0
  {
    assert '$' !in ".nspname = ANY ";
    assert '$' !in "(current_schemas(false)) OR ";
    assert '$' !in ".nspname = 'public')";
  }

  lemma AllSchemasIsPlain(ns: string)
    requires '$' !in ns
    ensures '$' !in ScopeClause(AllSchemas, ns, "").0
  {
    assert '$' !in ".nspname NOT IN ('pg_catalog', ";
    assert '$' !in "'information_schema')";
  }

  /** The clause builders use exactly the placeholders they bind, which is what renumbering relies on. */
  lemma ClausesAreClosed(scope: SchemaScope, ns: string, rel: string)
    requires '$' !in ns && '$' !in rel
    ensures Closed(ScopeClause(scope, ns, rel).0, |ScopeClause(scope, ns, rel).1|)
    ensures Closed(FunctionScopeClause(scope, ns).0, |FunctionScopeClause(scope, ns).1|)
  {
    match scope {
      case InSchema(name) => SchemaClauseIsClosed(ns, name);
      case InTable(schema, table) =>
        TableClauseIsClosed(ns, rel, schema, table);
        SchemaClauseIsClosed(ns, schema);
      case SearchPath =>
        SearchPathIsPlain(ns);
        PlainIsClosed(ScopeClause(scope, ns, rel).0, 0);
      case AllSchemas =>
        AllSchemasIsPlain(ns);
        PlainIsClosed(ScopeClause(scope, ns, rel).0, 0);
    }
  }

  lemma LiteralsAre<T>(p: string, binds: seq<T>)
    requires '$' !in p
    ensures Meaning(p, binds) == Literals(p)
  {
    MeaningPlain(p, "", binds);
    assert p + "" == p && Literals<T>(p) + Meaning("", binds) == Literals(p);
  }

  lemma OneBound<T>(p: string, d: string, rest: string, binds: seq<T>)
    requires '$' !in p && d != "" && (forall i :: 0 <= i < |d| ==> IsDigit(d[i])) && (rest == "" || !IsDigit(rest[0]))
    requires 1 <= Value(d) <= |binds|
    ensures Meaning(p + ("$" + d + rest), binds) == Literals(p) + ([Bound(binds[Value(d) - 1])] + Meaning(rest, binds))
  {
    var b := "$" + d + rest;
    MeaningPlain(p, b, binds);
    BoundPlaceholder(d, rest, binds);
  }

  lemma BoundPlaceholder<T>(d: string, rest: string, binds: seq<T>)
    requires d != "" && (forall i :: 0 <= i < |d| ==> IsDigit(d[i])) && (rest == "" || !IsDigit(rest[0]))
    requires 1 <= Value(d) <= |binds|
    ensures Meaning("$" + d + rest, binds) == [Bound(binds[Value(d) - 1])] + Meaning(rest, binds)
  {
    var r := Resolve(d, binds);
    assert r == Bound(binds[Value(d) - 1]);
    MeaningOfPlaceholder(d, rest, binds);
    assert Meaning("$" + d + rest, binds) == [r] + Meaning(rest, binds);
  }

  /** Under its binds, the clause of a schema compares the namespace name with that schema. */
  lemma SchemaClauseMeans(ns: string, name: string)
    requires '$' !in ns
    ensures var (clause, binds) := ScopeClause(InSchema(name), ns, "");
            Meaning(clause, binds) == Literals(ns + ".nspname = ") + [Bound(name)]
  {
    var binds := [name];
    OneBound(ns + ".nspname = ", "1", "", binds);
    assert "$" + "1" + "" == "$1" && ns + ".nspname = $1" == ns + ".nspname = " + "$1";
    assert [Bound(name)] + Meaning("", binds) == [Bound(name)];
  }

  /** The clause of a table compares the namespace name with its schema and the relation name with the table. */
  lemma TableClauseMeans(ns: string, rel: string, schema: string, table: string)
    requires '$' !in ns && '$' !in rel
    ensures var (clause, binds) := ScopeClause(InTable(schema, table), ns, rel);
            Meaning(clause, binds)
            == Literals(ns + ".nspname = ") + ([Bound(schema)] + (Literals(" AND " + rel + ".relname = ") + [Bound(table)]))
  {
    var binds := [schema, table];
    var middle := " AND " + rel + ".relname = ";
    OneBound(middle, "2", "", binds);
    assert "$" + "2" + "" == "$2" && [Bound(table)] + Meaning("", binds) == [Bound(table)];
    OneBound(ns + ".nspname = ", "1", middle + "$2", binds);
    TableClauseText(ns, rel);
  }

  /** The other scopes bind nothing and mean their own text; functions of a table are those of its schema. */
  lemma SearchPathMeans(ns: string)
    requires '$' !in ns
    ensures var (clause, binds) := ScopeClause(SearchPath, ns, "");
            binds == [] && Meaning(clause, binds)
            == Literals("(" + ns + ".nspname = ANY " + "(current_schemas(false)) OR " + ns + ".nspname = 'public')")
  {
    SearchPathIsPlain(ns);
    LiteralsAre(ScopeClause(SearchPath, ns, "").0, ScopeClause(SearchPath, ns, "").1);
  }

  lemma AllSchemasMeans(ns: string)
    requires '$' !in ns
    ensures var (clause, binds) := ScopeClause(AllSchemas, ns, "");
            binds == [] && Meaning(clause, binds) == Literals(ns + ".nspname NOT IN ('pg_catalog', " + "'information_schema')")
  {
    AllSchemasIsPlain(ns);
    LiteralsAre(ScopeClause(AllSchemas, ns, "").0, ScopeClause(AllSchemas, ns, "").1);
  }

  /** The functions beside a table are those of its schema. */
  lemma TableFunctionsMean(ns: string, schema: string, table: string)
    requires '$' !in ns
    ensures var (clause, binds) := FunctionScopeClause(InTable(schema, table), ns);
            Meaning(clause, binds) == Literals(ns + ".nspname = ") + [Bound(schema)]
  {
    SchemaClauseMeans(ns, schema);
  }

  lemma ConcatFirst<T>(a: seq<T>, rest: seq<seq<T>>)
    ensures Concat([a] + rest) == a + Concat(rest)
  {
    assert ([a] + rest)[1..] == rest;
  }

  lemma ConcatFour<T>(a: seq<T>, b: seq<T>, c: seq<T>, d: seq<T>)
    ensures Concat([a, b, c, d]) == a + b + c + d
  {
    assert [a, b, c, d] == [a] + ([b] + ([c] + ([d] + [])));
    ConcatFirst(a, [b] + ([c] + ([d] + [])));
    ConcatFirst(b, [c] + ([d] + []));
    ConcatFirst(c, [d] + []);
    ConcatFirst(d, []);
  }

  // --- splitting what was joined ---

  /** No separator anywhere. */
  ghost predicate Unseparated(s: string) {
    forall i :: 0 <= i <= |s| ==> !SeparatorFirst(s[i..])
  }

  lemma Differs(s: string, k: nat)
    requires k < |SEPARATOR| && k < |s| && s[k] != SEPARATOR[k]
    ensures !SeparatorFirst(s)
  {
    assert |SEPARATOR| <= |s| ==> s[..|SEPARATOR|][k] == s[k];
  }

  lemma PartOf(s: string, i: nat, a: string, j: nat)
    requires i + |SEPARATOR| <= |s| && j + |SEPARATOR| <= |a| && s[i..i + |SEPARATOR|] == a[j..j + |SEPARATOR|]
    requires Unseparated(a)
    ensures !SeparatorFirst(s[i..])
  {
    assert s[i..][..|SEPARATOR|] == s[i..i + |SEPARATOR|];
    assert a[j..][..|SEPARATOR|] == a[j..j + |SEPARATOR|];
    assert !SeparatorFirst(a[j..]);
  }

  lemma WithoutItsLetter(s: string)
    requires 'U' !in s
    ensures Unseparated(s)
  {
    forall i | 0 <= i <= |s| ensures !SeparatorFirst(s[i..]) {
      if i + 1 < |s| {
        assert s[i..][1] == s[i + 1] && SEPARATOR[1] == 'U';
        Differs(s[i..], 1);
      }
    }
  }

  /** A separator ends in a space, so none reaches into a text without spaces. */
  lemma WithoutSpaces(a: string, b: string)
    requires Unseparated(a) && ' ' !in b
    ensures Unseparated(a + b)
  {
    var s := a + b;
    forall i | 0 <= i <= |s| ensures !SeparatorFirst(s[i..]) {
      var last := i + |SEPARATOR| - 1;
      if last < |a| {
        assert s[i..i + |SEPARATOR|] == a[i..i + |SEPARATOR|];
        PartOf(s, i, a, i);
      } else if last < |s| {
        assert s[i..][|SEPARATOR| - 1] == s[last] == b[last - |a|] && SEPARATOR[|SEPARATOR| - 1] == ' ';
        Differs(s[i..], |SEPARATOR| - 1);
      }
    }
  }

  /** No separator reaches across a character it does not have. */
  lemma AcrossCharacter(a: string, c: char, b: string)
    requires Unseparated(a) && Unseparated(b) && c !in SEPARATOR
    ensures Unseparated(a + [c] + b)
  {
    var s := a + [c] + b;
    forall i | 0 <= i <= |s| ensures !SeparatorFirst(s[i..]) {
      if i <= |a| < i + |SEPARATOR| {
        assert s[i..][|a| - i] == s[|a|] == c;
        Differs(s[i..], |a| - i);
      } else if i <= |a| {
        assert s[i..i + |SEPARATOR|] == a[i..i + |SEPARATOR|];
        PartOf(s, i, a, i);
      } else {
        assert s[i..] == b[i - |a| - 1..];
      }
    }
  }

  /** A segment that splitting gives back: no separator in it, none overlapping its end. */
  ghost predicate Segment(s: string) {
    s != "" && s[|s| - 1] !in SEPARATOR && Unseparated(s)
  }

  lemma NotBeforeTheEnd(s: string, i: nat, tail: string)
    requires Segment(s) && i < |s|
    ensures !SeparatorFirst(s[i..] + tail)
  {
    var t := s[i..] + tail;
    if i + |SEPARATOR| <= |s| {
      assert t[0..] == t && t[0..|SEPARATOR|] == s[i..i + |SEPARATOR|];
      PartOf(t, 0, s, i);
    } else {
      assert t[|s| - 1 - i] == s[|s| - 1];
      Differs(t, |s| - 1 - i);
    }
  }

  lemma SplitStep(s: string, i: nat, tail: string)
    requires Segment(s) && i < |s|
    ensures Split(s[i..] + tail, s[..i]) == Split(s[i + 1..] + tail, s[..i + 1])
  {
    NotBeforeTheEnd(s, i, tail);
    var t := s[i..] + tail;
    assert t[0] == s[i] && t[1..] == s[i + 1..] + tail && s[..i] + [s[i]] == s[..i + 1];
  }

  lemma {:induction false} SplitFirst(s: string, i: nat, tail: string)
    requires Segment(s) && i <= |s| && (tail == "" || SeparatorFirst(tail))
    ensures Split(s[i..] + tail, s[..i]) == [s] + if tail == "" then [] else Split(tail[|SEPARATOR|..], "")
    decreases |s| - i
  {
    if i == |s| {
      assert s[i..] + tail == tail && s[..i] == s;
    } else {
      SplitFirst(s, i + 1, tail);
      SplitStep(s, i, tail);
    }
  }

  /** Segments are split where they were joined. */
  lemma {:induction false} SplitJoin(segments: seq<string>)
    requires segments != [] && forall i :: 0 <= i < |segments| ==> Segment(segments[i])
    ensures Split(Join(segments), "") == segments
  {
    var first := segments[0];
    if |segments| == 1 {
      SplitFirst(first, 0, "");
      assert first[0..] + "" == first && first[..0] == "" && segments == [first] + [];
    } else {
      SplitJoin(segments[1..]);
      var tail := SEPARATOR + Join(segments[1..]);
      assert tail[..|SEPARATOR|] == SEPARATOR && tail[|SEPARATOR|..] == Join(segments[1..]);
      SplitFirst(first, 0, tail);
      assert first[0..] + tail == first + SEPARATOR + Join(segments[1..]) && first[..0] == "";
      assert segments == [first] + segments[1..];
    }
  }

  // --- the whole query ---

  /** `head` and a qualified column, up to a text that ends a segment. */
  lemma Qualified(head: string, alias: string, rest: string)
    requires Unseparated(head) && ' ' !in alias && Unseparated(rest)
    ensures Unseparated(head + alias + "." + rest)
  {
    WithoutSpaces(head, alias);
    AcrossCharacter(head + alias, '.', rest);
  }

  lemma QualifiedSegment(head: string, alias: string, rest: string)
    requires Unseparated(head) && ' ' !in alias && Segment(rest)
    ensures Segment(head + alias + "." + rest)
  {
    Qualified(head, alias, rest);
    assert (head + alias + ".")[..] + rest == head + alias + "." + rest;
  }

  lemma SearchPathSegment(head: string, ns: string)
    requires Unseparated(head) && ' ' !in ns
    ensures Segment(head + ScopeClause(SearchPath, ns, "").0)
  {
    var first, second := "nspname = ANY " + "(current_schemas(false)) OR ", "nspname = 'public')";
    WithoutItsLetter("");
    AcrossCharacter(head, '(', "");
    WithoutItsLetter(first);
    WithoutItsLetter(second);
    QualifiedSegment(first, ns, second);
    QualifiedSegment(head + "(" + "", ns, first + ns + "." + second);
    SearchPathText(head, ns);
  }

  lemma SearchPathText(head: string, ns: string)
    ensures head + ScopeClause(SearchPath, ns, "").0
         == head + "(" + "" + ns + "." + ("nspname = ANY " + "(current_schemas(false)) OR " + ns + "." + "nspname = 'public')")
  {
    AnySchemaWords();
    PublicWords();
    Regroup(head, "(", ns, "nspname = ANY ", "(current_schemas(false)) OR ", "nspname = 'public')");
  }

  lemma AnySchemaWords()
    ensures ".nspname = ANY " == "." + "nspname = ANY "
  {
  }

  lemma PublicWords()
    ensures ".nspname = 'public')" == "." + "nspname = 'public')"
  {
  }

  lemma Regroup(head: string, open: string, ns: string, first: string, middle: string, second: string)
    ensures head + (open + ns + ("." + first) + middle + ns + ("." + second))
         == head + open + "" + ns + "." + (first + middle + ns + "." + second)
  {
  }

  lemma AllSchemasSegment(head: string, ns: string)
    requires Unseparated(head) && ' ' !in ns
    ensures Segment(head + ScopeClause(AllSchemas, ns, "").0)
  {
    var first, second := "nspname NOT IN ('pg_catalog', ", "'information_schema')";
    WithoutItsLetter(first + second);
    QualifiedSegment(head, ns, first + second);
    AllSchemasText(head, ns);
  }

  lemma AllSchemasText(head: string, ns: string)
    ensures head + ScopeClause(AllSchemas, ns, "").0 == head + ns + "." + ("nspname NOT IN ('pg_catalog', " + "'information_schema')")
  {
    assert ".nspname NOT IN ('pg_catalog', " == "." + "nspname NOT IN ('pg_catalog', ";
    RegroupOne(head, ns, "nspname NOT IN ('pg_catalog', ", "'information_schema')");
  }

  lemma RegroupOne(head: string, ns: string, first: string, second: string)
    ensures head + (ns + ("." + first) + second) == head + ns + "." + (first + second)
  {
  }

  lemma SchemaSegment(head: string, ns: string, name: string)
    requires Unseparated(head) && ' ' !in ns
    ensures Segment(head + ScopeClause(InSchema(name), ns, "").0)
  {
    var rest := "nspname = $1";
    WithoutItsLetter(rest);
    QualifiedSegment(head, ns, rest);
    assert ".nspname = $1" == "." + rest;
    assert head + (ns + ("." + rest)) == head + ns + "." + rest;
  }

  lemma TableSegment(head: string, ns: string, rel: string, schema: string, table: string)
    requires Unseparated(head) && ' ' !in ns && ' ' !in rel
    ensures Segment(head + ScopeClause(InTable(schema, table), ns, rel).0)
  {
    var first, second := "nspname = $1 AND ", "relname = $2";
    WithoutItsLetter(first);
    WithoutItsLetter(second);
    QualifiedSegment(first, rel, second);
    QualifiedSegment(head, ns, first + rel + "." + second);
    TableText(head, ns, rel, schema, table);
  }

  lemma TableText(head: string, ns: string, rel: string, schema: string, table: string)
    ensures head + ScopeClause(InTable(schema, table), ns, rel).0
         == head + ns + "." + ("nspname = $1 AND " + rel + "." + "relname = $2")
  {
    var first, second := "nspname = $1 AND ", "relname = $2";
    assert ".nspname = $1 AND " == "." + first;
    assert ".relname = $2" == "." + second;
    assert head + (ns + ("." + first) + rel + ("." + second)) == head + ns + "." + (first + rel + "." + second);
  }

  /** A head without placeholders and separators, followed by a clause, is a segment that uses what the clause binds. */
  lemma ClauseSegment(head: string, scope: SchemaScope, ns: string, rel: string)
    requires '$' !in head && Unseparated(head) && '$' !in ns && ' ' !in ns && '$' !in rel && ' ' !in rel
    ensures Segment(head + ScopeClause(scope, ns, rel).0) && Segment(head + FunctionScopeClause(scope, ns).0)
    ensures Closed(head + ScopeClause(scope, ns, rel).0, |ScopeClause(scope, ns, rel).1|)
    ensures Closed(head + FunctionScopeClause(scope, ns).0, |FunctionScopeClause(scope, ns).1|)
  {
    ClausesAreClosed(scope, ns, rel);
    PlainFirst(head, ScopeClause(scope, ns, rel).0, |ScopeClause(scope, ns, rel).1|);
    PlainFirst(head, FunctionScopeClause(scope, ns).0, |FunctionScopeClause(scope, ns).1|);
    match scope {
      case SearchPath => SearchPathSegment(head, ns);
      case AllSchemas => AllSchemasSegment(head, ns);
      case InSchema(name) => SchemaSegment(head, ns, name);
      case InTable(schema, table) =>
        TableSegment(head, ns, rel, schema, table);
        SchemaSegment(head, ns, schema);
    }
  }

  /** The segments of `schema_fingerprints` for relations, columns, indexes and functions, before the text is joined. */
  function FingerprintSegments(scope: SchemaScope, heads: seq<string>): (r: seq<string>)
    requires |heads| == 4
    ensures |r| == 4
  {
    var relation := ScopeClause(scope, "n", "c").0;
    [heads[0] + relation, heads[1] + relation, heads[2] + ScopeClause(scope, "n", "t").0, heads[3] + FunctionScopeClause(scope, "n").0]
  }

  /** What each of them binds. */
  function FingerprintBindLists(scope: SchemaScope): (r: seq<seq<string>>)
    ensures |r| == 4
  {
    var relation := ScopeClause(scope, "n", "c").1;
    [relation, relation, ScopeClause(scope, "n", "t").1, FunctionScopeClause(scope, "n").1]
  }

  function Counts(lists: seq<seq<string>>): (r: seq<nat>)
    ensures |r| == |lists|
  {
    seq(|lists|, i requires 0 <= i < |lists| => |lists[i]|)
  }

  lemma FingerprintFits(scope: SchemaScope, heads: seq<string>)
    requires |heads| == 4 && forall i :: 0 <= i < 4 ==> '$' !in heads[i] && Unseparated(heads[i])
    ensures forall i :: 0 <= i < 4 ==> Segment(FingerprintSegments(scope, heads)[i])
    ensures Fits(FingerprintSegments(scope, heads), Counts(FingerprintBindLists(scope)), FingerprintBindLists(scope))
  {
    var segments, lists := FingerprintSegments(scope, heads), FingerprintBindLists(scope);
    forall i | 0 <= i < 4
      ensures Segment(segments[i]) && |lists[i]| <= 2 && Closed(segments[i], |lists[i]|)
    {
      ClauseSegment(heads[i], scope, "n", if i == 2 then "t" else "c");
    }
  }

  /**
   `schema_fingerprints`, for every scope: the four segments, joined into one text, renumbered by their bind counts and
   run with all binds in a row, each select what their own clause says under its own binds.
   */
  lemma FingerprintBinds(scope: SchemaScope, heads: seq<string>)
    requires |heads| == 4 && forall i :: 0 <= i < 4 ==> '$' !in heads[i] && Unseparated(heads[i])
    ensures
      var segments, lists := FingerprintSegments(scope, heads), FingerprintBindLists(scope);
      && Split(Join(segments), "") == segments
      && Meaning(Renumber(Join(segments), Counts(lists)), lists[0] + lists[1] + lists[2] + lists[3])
           == SegmentMeanings(segments, lists)
  {
    var segments, lists := FingerprintSegments(scope, heads), FingerprintBindLists(scope);
    FingerprintFits(scope, heads);
    SplitJoin(segments);
    RenumberPreserves(Join(segments), Counts(lists), lists);
    ConcatFour(lists[0], lists[1], lists[2], lists[3]);
    assert lists == [lists[0], lists[1], lists[2], lists[3]];
  }

  // --- the loops ---

  /** What one turn of the loop appends, and where it goes on. */
  function Piece(s: string, i: nat, offset: nat): (r: (string, nat))
    requires i < |s|
    ensures i < r.1 <= |s|
  {
    if PlaceholderAt(s[i..]) then
      var d := DigitRun(s[i + 1..]);
      ("$" + Renumbered(d, offset), i + 1 + |d|)
    else ([s[i]], i + 1)
  }

  lemma ShiftStep(s: string, i: nat, offset: nat, out: string)
    requires i < |s|
    ensures
      var piece := Piece(s, i, offset);
      (out + piece.0) + Shift(s[piece.1..], offset) == out + Shift(s[i..], offset)
  {
    var piece := Piece(s, i, offset);
    assert s[i..][1..] == s[i + 1..];
    assert s[i..][piece.1 - i..] == s[piece.1..];
    Glue(out, piece.0, Shift(s[piece.1..], offset));
  }

  /** The inner loop: pushes the digits of a run, leaving the iterator behind it. */
  method TakeDigits(s: string, from: nat) returns (digits: string, next: nat)
    requires from <= |s|
    ensures digits == DigitRun(s[from..]) && next == from + |digits| <= |s|
  {
    digits, next := "", from;
    while next < |s| && IsDigit(s[next])
      invariant from <= next <= |s| && digits == s[from..next]
      invariant forall i :: 0 <= i < |digits| ==> IsDigit(digits[i])
    {
      digits := digits + [s[next]];
      next := next + 1;
    }
    assert s[from..] == digits + s[next..];
    RunUpTo(digits, s[next..]);
  }

  /** `shift_placeholders`. */
  method ShiftPlaceholders(segment: string, offset: nat) returns (out: string)
    ensures out == ShiftUnlessZero(segment, offset)
  {
    if offset == 0 { return segment; }
    out := "";
    var next := 0;
    assert segment[0..] == segment && "" + Shift(segment, offset) == Shift(segment, offset);
    while next < |segment|
      invariant next <= |segment|
      invariant out + Shift(segment[next..], offset) == Shift(segment, offset)
    {
      var piece, after := TakePiece(segment, next, offset);
      ShiftStep(segment, next, offset, out);
      out, next := out + piece, after;
    }
    assert segment[next..] == "" && out + "" == out;
  }

  /** One turn of the loop: a placeholder with its whole digit run, or a single character. */
  method TakePiece(segment: string, next: nat, offset: nat) returns (piece: string, after: nat)
    requires next < |segment|
    ensures (piece, after) == Piece(segment, next, offset)
  {
    var c := segment[next];
    if c == '$' && next + 1 < |segment| && IsDigit(segment[next + 1]) {
      var digits, end := TakeDigits(segment, next + 1);
      return "$" + Renumbered(digits, offset), end;
    }
    return [c], next + 1;
  }

  /** The loop of `renumber_union_segments`: the offset runs through the counts. */
  method RenumberUnionSegments(sql: string, counts: seq<nat>) returns (r: string)
    ensures r == Renumber(sql, counts)
  {
    var segments := Split(sql, "");
    if |segments| != |counts| { return sql; }
    var offset := 0;
    var renumbered: seq<string> := [];
    assert segments[0..] == segments && counts[0..] == counts;
    for i := 0 to |segments|
      invariant |renumbered| == i
      invariant renumbered + RenumberFrom(segments[i..], counts[i..], offset) == RenumberFrom(segments, counts, 0)
    {
      var shifted := ShiftPlaceholders(segments[i], offset);
      assert segments[i..][1..] == segments[i + 1..] && counts[i..][1..] == counts[i + 1..];
      Glue(renumbered, [shifted], RenumberFrom(segments[i + 1..], counts[i + 1..], offset + counts[i]));
      renumbered := renumbered + [shifted];
      offset := offset + counts[i];
    }
    assert renumbered + [] == renumbered;
    return Join(renumbered);
  }
}
