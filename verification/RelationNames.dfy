/**
 The catalog half of relation resolution (`resolve_catalog_rel` in `tempr_intel/src/semantic.rs`): an exact name wins,
 otherwise the one relation whose folded name matches.
 */
module RelationNames {
  import opened CatalogCache
  import opened SchemaObjects
  import opened Sorting
  import opened Strings
  import opened Wrappers

  /** The loop over the schemas for an exact name. */
  function FirstExact(c: Catalog, schemas: seq<string>, name: string): Option<nat> {
    if schemas == [] then None
    else if (schemas[0], name) in c.byName then Some(c.byName[(schemas[0], name)])
    else FirstExact(c, schemas[1..], name)
  }

  /** The loop over the schemas for folded names; `found` is the match so far. */
  function Across(fold: Folding, rels: seq<SchemaObject>, schemas: seq<string>, name: string, found: Option<nat>): Option<nat>
    requires AllRelations(rels)
  {
    if schemas == [] then found
    else
      var hits := FoldMatches(fold, rels, FoldKey(fold, (schemas[0], name)));
      if hits == [] then Across(fold, rels, schemas[1..], name, found)
      else if |hits| > 1 || found.Some? then None
      else Across(fold, rels, schemas[1..], name, Some(hits[0]))
  }

  /** `resolve_catalog_rel`. */
  method ResolveCatalogRelation(c: Catalog, fold: Folding, ghost objects: seq<SchemaObject>, schema: Option<string>, name: string)
    returns (r: Option<nat>)
    requires Built(c, fold, objects) && AllRelations(Relations(objects))
    ensures r == Resolved(c, fold, Relations(objects), schema, name)
  {
    if schema.Some? {
      r := RelationExact(c, schema.value, name);
      if r.Some? { return; }
      var hits := RelationFolded(c, fold, objects, schema.value, name);
      return if |hits| == 1 then Some(hits[0]) else None;
    }
    assert c.schemas[0..] == c.schemas;
    for i := 0 to |c.schemas|
      invariant FirstExact(c, c.schemas, name) == FirstExact(c, c.schemas[i..], name)
    {
      r := RelationExact(c, c.schemas[i], name);
      if r.Some? { return; }
      assert c.schemas[i..][1..] == c.schemas[i + 1..];
    }
    r := FoldedAcross(c, fold, objects, name);
  }

  /** The second loop: a second schema that folds in makes the name ambiguous. */
  method FoldedAcross(c: Catalog, fold: Folding, ghost objects: seq<SchemaObject>, name: string) returns (found: Option<nat>)
    requires Built(c, fold, objects) && AllRelations(Relations(objects))
    ensures found == Across(fold, Relations(objects), c.schemas, name, None)
  {
    found := None;
    ghost var rels := Relations(objects);
    assert c.schemas[0..] == c.schemas;
    for i := 0 to |c.schemas|
      invariant Across(fold, rels, c.schemas, name, None) == Across(fold, rels, c.schemas[i..], name, found)
    {
      assert c.schemas[i..][1..] == c.schemas[i + 1..];
      var hits := RelationFolded(c, fold, objects, c.schemas[i], name);
      if |hits| == 1 {
        if found.Some? { return None; }
        found := Some(hits[0]);
      } else if |hits| > 1 {
        return None;
      }
    }
  }

  function Resolved(c: Catalog, fold: Folding, rels: seq<SchemaObject>, schema: Option<string>, name: string): Option<nat>
    requires AllRelations(rels)
  {
    match schema
    case Some(s) =>
      var hits := FoldMatches(fold, rels, FoldKey(fold, (s, name)));
      if (s, name) in c.byName then Some(c.byName[(s, name)]) else if |hits| == 1 then Some(hits[0]) else None
    case None =>
      var exact := FirstExact(c, c.schemas, name);
      if exact.Some? then exact else Across(fold, rels, c.schemas, name, None)
  }

  // --- what is resolved ---

  /** A relation's (schema, name). */
  type Key = (string, string)

  function Keys(rels: seq<SchemaObject>): (r: seq<Key>)
    requires AllRelations(rels)
    ensures |r| == |rels| && forall i :: 0 <= i < |r| ==> r[i] == RelationKey(rels[i])
  {
    seq(|rels|, i requires 0 <= i < |rels| => assert rels[i] in rels; RelationKey(rels[i]))
  }

  /** Exactly named, in one schema or in any. */
  predicate Exact(keys: seq<Key>, i: nat, schema: Option<string>, name: string) {
    i < |keys| && keys[i].1 == name && (schema.Some? ==> keys[i].0 == schema.value)
  }

  predicate Folds(fold: Folding, keys: seq<Key>, i: nat, schema: Option<string>, name: string) {
    i < |keys| && fold(keys[i].1) == fold(name) && (schema.Some? ==> fold(keys[i].0) == fold(schema.value))
  }

  ghost predicate OnlyOne(fold: Folding, keys: seq<Key>, i: nat, schema: Option<string>, name: string) {
    Folds(fold, keys, i, schema, name) && forall j: nat :: Folds(fold, keys, j, schema, name) ==> j == i
  }

  /** No other schema of the list folds to the same name. */
  ghost predicate OwnListed(fold: Folding, schemas: seq<string>, schema: string) {
    forall t :: t in schemas && fold(t) == fold(schema) ==> t == schema
  }

  /** A relation or function of the schema. */
  predicate LiesIn(o: SchemaObject, schema: string) { (IsRelation(o) || IsFunction(o)) && o.schema == schema }

  /** No relation or function of the snapshot lies in another schema that folds to the same name. */
  ghost predicate OwnSchema(fold: Folding, objects: seq<SchemaObject>, schema: string) {
    forall o, t :: o in objects && LiesIn(o, t) && fold(t) == fold(schema) ==> t == schema
  }

  // --- what the catalog knows ---

  /** The exact map and the schema list cover the relations. */
  ghost predicate Covers(c: Catalog, keys: seq<Key>) {
    && (forall k :: k in c.byName ==> c.byName[k] < |keys| && keys[c.byName[k]] == k)
    && (forall i :: 0 <= i < |keys| ==> keys[i] in c.byName && keys[i].0 in c.schemas)
    && Sorted(StrLe, c.schemas) && Distinct(c.schemas)
  }

  lemma {:induction false} SchemaNamesMembers(arena: seq<Slot>, i: nat)
    requires i < |arena| && (IsRelation(arena[i].item) || IsFunction(arena[i].item))
    ensures arena[i].item.schema in SchemaNames(arena)
  {
    if i > 0 {
      assert arena[1..][i - 1] == arena[i];
      SchemaNamesMembers(arena[1..], i - 1);
    }
  }

  lemma SchemasInOrder(names: seq<string>)
    ensures
      var schemas := Dedup(Sort(StrLe, names));
      Sorted(StrLe, schemas) && Distinct(schemas) && forall s :: s in schemas <==> s in names
  {
    StrOrder();
    SortSorts(StrLe, names);
    SortMembers(StrLe, names);
    DedupMembers(Sort(StrLe, names));
    DedupDistinct(StrLe, Sort(StrLe, names));
  }

  lemma RelationListed(objects: seq<SchemaObject>, i: nat)
    requires i < |Relations(objects)| && AllRelations(Relations(objects))
    ensures RelationKey(Relations(objects)[i]).0 in SchemaNames(Arena(objects))
  {
    var rels := Relations(objects);
    assert rels[i] in rels && CatalogCache.Heads(objects)[i] == Slot(rels[i], None);
    assert Arena(objects)[i] == Slot(rels[i], None);
    SchemaNamesMembers(Arena(objects), i);
  }

  // --- the schema list ---

  lemma {:induction false} NamesOfSlots(arena: seq<Slot>, t: string)
    requires t in SchemaNames(arena)
    ensures exists i :: 0 <= i < |arena| && LiesIn(arena[i].item, t)
  {
    if !LiesIn(arena[0].item, t) {
      NamesOfSlots(arena[1..], t);
      var i :| 0 <= i < |arena[1..]| && LiesIn(arena[1..][i].item, t);
      assert arena[i + 1] == arena[1..][i];
    }
  }

  /** A relation or function of the arena stands in its head. */
  lemma HeadSlots(objects: seq<SchemaObject>, i: nat)
    requires i < |Arena(objects)| && (IsRelation(Arena(objects)[i].item) || IsFunction(Arena(objects)[i].item))
    ensures Arena(objects)[i].item in objects
  {
    var parents, n := IndexOf(Relations(objects)), |Relations(objects)|;
    var heads, cols := CatalogCache.Heads(objects), ColumnSegment(objects, parents, n);
    ThreeSegments(heads, cols, IndexSegment(objects, parents, n), i);
    if i < |heads| {
      HeadFromSnapshot(objects, i);
    } else if i < |heads| + |cols| {
      var p := SegmentSlots(objects, parents, n, i - |heads|);
    } else {
      IndexSlots(objects, parents, n, i - |heads| - |cols|);
    }
  }

  lemma HeadFromSnapshot(objects: seq<SchemaObject>, i: nat)
    requires i < |CatalogCache.Heads(objects)|
    ensures CatalogCache.Heads(objects)[i].item in objects
  {
    var rels, funs := Relations(objects), Functions(objects);
    FilterMembers(IsRelation, objects);
    FilterMembers(IsFunction, objects);
    if i < |rels| { assert rels[i] in rels; } else { assert funs[i - |rels|] in funs; }
  }

  lemma HeadOfObject(objects: seq<SchemaObject>, o: SchemaObject) returns (i: nat)
    requires o in objects && (IsRelation(o) || IsFunction(o))
    ensures i < |Arena(objects)| && Arena(objects)[i].item == o
  {
    var rels, funs := Relations(objects), Functions(objects);
    FilterMembers(IsRelation, objects);
    FilterMembers(IsFunction, objects);
    if IsRelation(o) {
      i :| 0 <= i < |rels| && rels[i] == o;
    } else {
      var j :| 0 <= j < |funs| && funs[j] == o;
      i := |rels| + j;
    }
    assert Arena(objects)[i] == CatalogCache.Heads(objects)[i];
  }

  /** The schema list names exactly the schemas of the snapshot's relations and functions. */
  lemma SchemasOfSnapshot(c: Catalog, fold: Folding, objects: seq<SchemaObject>, t: string)
    requires Built(c, fold, objects)
    ensures t in c.schemas <==> exists o :: o in objects && LiesIn(o, t)
  {
    SchemasInOrder(SchemaNames(c.arena));
    if t in c.schemas {
      NamesOfSlots(c.arena, t);
      var i :| 0 <= i < |c.arena| && LiesIn(c.arena[i].item, t);
      HeadSlots(objects, i);
    }
    if o :| o in objects && LiesIn(o, t) {
      var i := HeadOfObject(objects, o);
      SchemaNamesMembers(c.arena, i);
    }
  }

  lemma ListedAreOwn(c: Catalog, fold: Folding, objects: seq<SchemaObject>, schema: string)
    requires Built(c, fold, objects)
    ensures OwnListed(fold, c.schemas, schema) <==> OwnSchema(fold, objects, schema)
  {
    forall t ensures t in c.schemas <==> exists o :: o in objects && LiesIn(o, t) {
      SchemasOfSnapshot(c, fold, objects, t);
    }
  }

  lemma BuiltCovers(c: Catalog, fold: Folding, objects: seq<SchemaObject>)
    requires Built(c, fold, objects) && AllRelations(Relations(objects))
    ensures Covers(c, Keys(Relations(objects)))
  {
    var rels := Relations(objects);
    SchemasInOrder(SchemaNames(c.arena));
    forall i | 0 <= i < |rels| ensures Keys(rels)[i] in c.byName && Keys(rels)[i].0 in c.schemas {
      RelationListed(objects, i);
      assert rels[i] in rels;
    }
  }

  // --- exact names ---

  lemma {:induction false} FirstExactIs(c: Catalog, keys: seq<Key>, schemas: seq<string>, name: string)
    requires Covers(c, keys) && Sorted(StrLe, schemas)
    ensures
      var r := FirstExact(c, schemas, name);
      && (r.None? <==> forall i: nat :: Exact(keys, i, None, name) ==> keys[i].0 !in schemas)
      && (r.Some? ==> Exact(keys, r.value, None, name) && keys[r.value].0 in schemas)
      && (r.Some? ==> forall i: nat :: Exact(keys, i, None, name) && keys[i].0 in schemas ==> StrLe(keys[r.value].0, keys[i].0))
  {
    if schemas != [] {
      var rest := schemas[1..];
      assert forall s :: s in schemas <==> s == schemas[0] || s in rest;
      if (schemas[0], name) in c.byName {
        StrOrder();
        assert forall s :: s in rest ==> StrLe(schemas[0], s);
      } else {
        FirstExactIs(c, keys, rest, name);
        assert forall i: nat :: Exact(keys, i, None, name) ==> keys[i] == (keys[i].0, name);
      }
    }
  }

  // --- folded names ---

  /** The folded matches in the given schemas. */
  ghost predicate Among(fold: Folding, keys: seq<Key>, schemas: seq<string>, i: nat, name: string) {
    Folds(fold, keys, i, None, name) && Foldings(fold, schemas, fold(keys[i].0)) > 0
  }

  /** How many of the schemas fold to the name. */
  function Foldings(fold: Folding, schemas: seq<string>, folded: string): nat {
    if schemas == [] then 0 else (if fold(schemas[0]) == folded then 1 else 0) + Foldings(fold, schemas[1..], folded)
  }

  lemma HitsAre(fold: Folding, rels: seq<SchemaObject>, schema: string, name: string)
    requires AllRelations(rels)
    ensures
      var hits := FoldMatches(fold, rels, FoldKey(fold, (schema, name)));
      && (forall i: nat :: i in hits <==> Folds(fold, Keys(rels), i, Some(schema), name))
      && (forall i, j :: 0 <= i < j < |hits| ==> hits[i] < hits[j])
  {
    assert forall i :: 0 <= i < |rels| ==> rels[i] in rels && Keys(rels)[i] == RelationKey(rels[i]);
  }

  /** A list of matches has one element exactly when there is one match. */
  lemma OneHit(fold: Folding, keys: seq<Key>, schema: string, name: string, hits: seq<nat>)
    requires forall i: nat :: i in hits <==> Folds(fold, keys, i, Some(schema), name)
    requires forall i, j :: 0 <= i < j < |hits| ==> hits[i] < hits[j]
    ensures hits == [] <==> forall i: nat :: !Folds(fold, keys, i, Some(schema), name)
    ensures forall i: nat :: hits == [i] <==> OnlyOne(fold, keys, i, Some(schema), name)
  {
    if hits != [] { assert hits[0] in hits; }
    if |hits| > 1 {
      assert hits[0] in hits && hits[1] in hits && hits[0] < hits[1];
    } else {
      assert forall i: nat :: hits == [i] <==> i in hits;
    }
  }

  lemma AmongCons(fold: Folding, keys: seq<Key>, schemas: seq<string>, name: string)
    requires schemas != []
    ensures forall i: nat :: Among(fold, keys, schemas, i, name)
                        <==> Folds(fold, keys, i, Some(schemas[0]), name) || Among(fold, keys, schemas[1..], i, name)
  {
  }

  /** Once found, a relation stays found exactly when no further schema has a match. */
  lemma {:induction false} FoundStays(fold: Folding, rels: seq<SchemaObject>, schemas: seq<string>, name: string, found: nat)
    requires AllRelations(rels)
    ensures
      Across(fold, rels, schemas, name, Some(found))
      == if forall i: nat :: !Among(fold, Keys(rels), schemas, i, name) then Some(found) else None
  {
    if schemas != [] {
      var hits := FoldMatches(fold, rels, FoldKey(fold, (schemas[0], name)));
      HitsAre(fold, rels, schemas[0], name);
      OneHit(fold, Keys(rels), schemas[0], name, hits);
      AmongCons(fold, Keys(rels), schemas, name);
      FoundStays(fold, rels, schemas[1..], name, found);
    }
  }

  /** A relation is found when it is the only match and one schema of the list folds to its own. */
  ghost predicate FoundOnce(fold: Folding, keys: seq<Key>, schemas: seq<string>, i: nat, name: string) {
    && Among(fold, keys, schemas, i, name)
    && (forall j: nat :: Among(fold, keys, schemas, j, name) ==> j == i)
    && Foldings(fold, schemas, fold(keys[i].0)) == 1
  }

  lemma {:induction false} AcrossIs(fold: Folding, rels: seq<SchemaObject>, schemas: seq<string>, name: string, i: nat)
    requires AllRelations(rels)
    ensures Across(fold, rels, schemas, name, None) == Some(i) <==> FoundOnce(fold, Keys(rels), schemas, i, name)
  {
    if schemas != [] {
      var keys := Keys(rels);
      var hits := FoldMatches(fold, rels, FoldKey(fold, (schemas[0], name)));
      HitsAre(fold, rels, schemas[0], name);
      OneHit(fold, keys, schemas[0], name, hits);
      AmongCons(fold, keys, schemas, name);
      if hits == [] {
        AcrossIs(fold, rels, schemas[1..], name, i);
        NoHeadHit(fold, keys, schemas, name, i);
      } else if |hits| == 1 {
        FoundStays(fold, rels, schemas[1..], name, hits[0]);
        assert hits == [hits[0]];
        HeadHit(fold, keys, schemas, name, hits[0], i);
      } else {
        TwoHits(fold, keys, schemas, name, hits[0], hits[1], i);
      }
    }
  }

  lemma NoHeadHit(fold: Folding, keys: seq<Key>, schemas: seq<string>, name: string, i: nat)
    requires schemas != [] && forall j: nat :: !Folds(fold, keys, j, Some(schemas[0]), name)
    ensures FoundOnce(fold, keys, schemas, i, name) <==> FoundOnce(fold, keys, schemas[1..], i, name)
  {
    AmongCons(fold, keys, schemas, name);
    if i < |keys| && fold(keys[i].0) == fold(schemas[0]) { assert !Folds(fold, keys, i, Some(schemas[0]), name); }
  }

  lemma HeadHit(fold: Folding, keys: seq<Key>, schemas: seq<string>, name: string, hit: nat, i: nat)
    requires schemas != [] && OnlyOne(fold, keys, hit, Some(schemas[0]), name)
    ensures FoundOnce(fold, keys, schemas, i, name) <==> i == hit && forall j: nat :: !Among(fold, keys, schemas[1..], j, name)
  {
    AmongCons(fold, keys, schemas, name);
    assert Among(fold, keys, schemas, hit, name);
    var again := Foldings(fold, schemas[1..], fold(keys[hit].0));
    assert Foldings(fold, schemas, fold(keys[hit].0)) == 1 + again && (Among(fold, keys, schemas[1..], hit, name) <==> again > 0);
  }

  lemma TwoHits(fold: Folding, keys: seq<Key>, schemas: seq<string>, name: string, a: nat, b: nat, i: nat)
    requires schemas != [] && a != b
    requires Folds(fold, keys, a, Some(schemas[0]), name) && Folds(fold, keys, b, Some(schemas[0]), name)
    ensures !FoundOnce(fold, keys, schemas, i, name)
  {
    assert Among(fold, keys, schemas, a, name) && Among(fold, keys, schemas, b, name);
  }

  lemma {:induction false} NoFolding(fold: Folding, schemas: seq<string>, folded: string)
    ensures Foldings(fold, schemas, folded) == 0 <==> forall t :: t in schemas ==> fold(t) != folded
  {
    if schemas != [] {
      NoFolding(fold, schemas[1..], folded);
      assert forall t :: t in schemas <==> t == schemas[0] || t in schemas[1..];
    }
  }

  lemma {:induction false} OneFolding(fold: Folding, schemas: seq<string>, schema: string)
    requires Distinct(schemas) && schema in schemas
    ensures Foldings(fold, schemas, fold(schema)) == 1 <==> OwnListed(fold, schemas, schema)
  {
    var rest := schemas[1..];
    assert forall t :: t in schemas <==> t == schemas[0] || t in rest;
    NoFolding(fold, rest, fold(schema));
    if schemas[0] == schema {
      assert schema !in rest;
    } else {
      OneFolding(fold, rest, schema);
    }
  }

  // --- resolution by name ---

  /** With a schema: the exact relation, otherwise the only relation that folds to the pair. */
  lemma InSchema(c: Catalog, fold: Folding, objects: seq<SchemaObject>, schema: string, name: string, i: nat)
    requires Built(c, fold, objects) && AllRelations(Relations(objects)) && UniqueNames(Relations(objects))
    ensures
      var keys := Keys(Relations(objects));
      Resolved(c, fold, Relations(objects), Some(schema), name) == Some(i) <==>
        if exists j: nat :: Exact(keys, j, Some(schema), name) then Exact(keys, i, Some(schema), name)
        else OnlyOne(fold, keys, i, Some(schema), name)
  {
    BuiltCovers(c, fold, objects);
    assert Distinct(Keys(Relations(objects)));
    InSchemaKeys(c, fold, Relations(objects), schema, name, i);
  }

  lemma InSchemaKeys(c: Catalog, fold: Folding, rels: seq<SchemaObject>, schema: string, name: string, i: nat)
    requires AllRelations(rels) && Covers(c, Keys(rels)) && Distinct(Keys(rels))
    ensures
      Resolved(c, fold, rels, Some(schema), name) == Some(i) <==>
        if exists j: nat :: Exact(Keys(rels), j, Some(schema), name) then Exact(Keys(rels), i, Some(schema), name)
        else OnlyOne(fold, Keys(rels), i, Some(schema), name)
  {
    HitsAre(fold, rels, schema, name);
    OneHit(fold, Keys(rels), schema, name, FoldMatches(fold, rels, FoldKey(fold, (schema, name))));
    InSchemaOf(c, Keys(rels), schema, name);
  }

  lemma InSchemaOf(c: Catalog, keys: seq<Key>, schema: string, name: string)
    requires Covers(c, keys) && Distinct(keys)
    ensures (schema, name) in c.byName <==> exists j: nat :: Exact(keys, j, Some(schema), name)
    ensures (schema, name) in c.byName ==> forall j: nat :: Exact(keys, j, Some(schema), name) <==> c.byName[(schema, name)] == j
  {
    assert forall j: nat :: Exact(keys, j, Some(schema), name) <==> j < |keys| && keys[j] == (schema, name);
    if (schema, name) in c.byName { assert Exact(keys, c.byName[(schema, name)], Some(schema), name); }
  }

  /** Without one, an exact name: a relation of the first schema that has it. */
  lemma ExactAnywhere(c: Catalog, fold: Folding, objects: seq<SchemaObject>, name: string)
    requires Built(c, fold, objects) && AllRelations(Relations(objects))
    requires exists i: nat :: Exact(Keys(Relations(objects)), i, None, name)
    ensures
      var keys, r := Keys(Relations(objects)), Resolved(c, fold, Relations(objects), None, name);
      && r.Some? && Exact(keys, r.value, None, name)
      && forall i: nat :: Exact(keys, i, None, name) ==> StrLe(keys[r.value].0, keys[i].0)
  {
    BuiltCovers(c, fold, objects);
    FirstExactIs(c, Keys(Relations(objects)), c.schemas, name);
  }

  lemma AmongAll(fold: Folding, c: Catalog, keys: seq<Key>, name: string)
    requires Covers(c, keys)
    ensures forall j: nat :: Among(fold, keys, c.schemas, j, name) <==> Folds(fold, keys, j, None, name)
  {
    forall j: nat | j < |keys| ensures Foldings(fold, c.schemas, fold(keys[j].0)) > 0 {
      NoFolding(fold, c.schemas, fold(keys[j].0));
    }
  }

  /**
   Otherwise a relation is resolved exactly when it alone folds to the name and no other schema of the snapshot folds
   to its schema's name.  The code's documentation asks for the first half only.
   */
  lemma FoldedAnywhere(c: Catalog, fold: Folding, objects: seq<SchemaObject>, name: string, i: nat)
    requires Built(c, fold, objects) && AllRelations(Relations(objects))
    requires !exists j: nat :: Exact(Keys(Relations(objects)), j, None, name)
    ensures
      var keys := Keys(Relations(objects));
      Resolved(c, fold, Relations(objects), None, name) == Some(i) <==>
        OnlyOne(fold, keys, i, None, name) && OwnSchema(fold, objects, keys[i].0)
  {
    var keys := Keys(Relations(objects));
    BuiltCovers(c, fold, objects);
    FirstExactIs(c, keys, c.schemas, name);
    AcrossIs(fold, Relations(objects), c.schemas, name, i);
    AmongAll(fold, c, keys, name);
    if i < |keys| {
      OneFolding(fold, c.schemas, keys[i].0);
      ListedAreOwn(c, fold, objects, keys[i].0);
    }
  }

  /** The only relation with a folded name is not found once a relation or function of another schema, which folds to
      its schema's name, is in the snapshot. */
  lemma TwinSchemaHides(c: Catalog, fold: Folding, objects: seq<SchemaObject>, name: string, i: nat, o: SchemaObject, twin: string)
    requires Built(c, fold, objects) && AllRelations(Relations(objects))
    requires
      var keys := Keys(Relations(objects));
      && (!exists j: nat :: Exact(keys, j, None, name))
      && OnlyOne(fold, keys, i, None, name)
      && o in objects && LiesIn(o, twin) && twin != keys[i].0 && fold(twin) == fold(keys[i].0)
    ensures Resolved(c, fold, Relations(objects), None, name) == None
  {
    var r := Resolved(c, fold, Relations(objects), None, name);
    if r.Some? { FoldedAnywhere(c, fold, objects, name, r.value); }
  }

  // --- an example ---

  /** Lower case on the letters the example needs. */
  function ExampleFold(s: string): string { if s == "A" then "a" else if s == "T" then "t" else s }

  /** Table `a.t`, and a function in schema `A`. */
  function ExampleObjects(): seq<SchemaObject> {
    [Table(Derived(0, TableKind, 1), "a", "t", None), Function(Derived(0, FunctionKind, 2), "A", "f", [], "int", "sql")]
  }

  lemma ExampleRelations()
    ensures Relations(ExampleObjects()) == [ExampleObjects()[0]] && Functions(ExampleObjects()) == [ExampleObjects()[1]]
    ensures AllRelations(Relations(ExampleObjects())) && Keys(Relations(ExampleObjects())) == [("a", "t")]
  {
    var objects := ExampleObjects();
    assert objects[1..] == [objects[1]] && objects[1..][1..] == [];
    assert Filter(IsRelation, objects[1..]) == [] && Filter(IsFunction, objects[1..]) == [objects[1]];
  }

  lemma ExampleNames(keys: seq<Key>)
    requires keys == [("a", "t")]
    ensures !exists j: nat :: Exact(keys, j, None, "T")
    ensures OnlyOne(ExampleFold, keys, 0, None, "T")
    ensures "A" != "a" && ExampleFold("A") == ExampleFold("a")
  {
    assert "T"[0] != "t"[0] && "A"[0] != "a"[0];
  }

  /** In a catalog of the two, `T` alone folds to the table's name and is not resolved: schema `A` hides it. */
  lemma TwinSchemaExample(c: Catalog)
    requires Built(c, ExampleFold, ExampleObjects())
    ensures AllRelations(Relations(ExampleObjects()))
    ensures OnlyOne(ExampleFold, Keys(Relations(ExampleObjects())), 0, None, "T")
    ensures Resolved(c, ExampleFold, Relations(ExampleObjects()), None, "T") == None
  {
    ExampleRelations();
    ExampleNames([("a", "t")]);
    TwinSchemaHides(c, ExampleFold, ExampleObjects(), "T", 0, ExampleObjects()[1], "A");
  }

  /** The same through the code: build the catalog and look the name up. */
  method LookUpHidden() returns (r: Option<nat>)
    ensures r == None
  {
    var c := FromSnapshot(ExampleFold, ExampleObjects());
    ExampleRelations();
    r := ResolveCatalogRelation(c, ExampleFold, ExampleObjects(), None, "T");
    TwinSchemaExample(c);
  }
}
