/**
 The walk over a real catalog: its lookups are those of the catalog built from a snapshot, and what it reports about
 relations and columns is what linear scans of the snapshot say.
 */
module WalkerCatalog {
  import opened CatalogCache
  import opened RelationNames
  import opened SchemaObjects
  import opened Scopes
  import opened Sorting
  import opened Strings
  import opened SyntaxTree
  import opened Walker
  import opened Wrappers

  // --- the catalog as the walk reads it ---

  function ResolveIn(c: Catalog, fold: Folding, objects: seq<SchemaObject>, schema: Option<string>, name: string): Option<nat> {
    RelationsAreRelations(objects);
    Resolved(c, fold, Relations(objects), schema, name)
  }

  function NameIn(c: Catalog, i: nat): string { if i < |c.arena| then c.arena[i].item.name else "" }

  function SchemaIn(c: Catalog, i: nat): string {
    if i < |c.arena| && (IsRelation(c.arena[i].item) || IsFunction(c.arena[i].item)) then c.arena[i].item.schema else ""
  }

  /** The arena indexes of slots, looked up by id. */
  function IndexesOf(c: Catalog, slots: seq<Slot>): seq<nat> {
    if slots == [] then []
    else (if slots[0].item.id in c.byId then [c.byId[slots[0].item.id]] else []) + IndexesOf(c, slots[1..])
  }

  /** `catalog_columns`. */
  function ColumnsIn(c: Catalog, rel: nat): seq<nat> {
    var r := RangeOf(c, rel);
    if r.start <= r.end <= |c.arena| then IndexesOf(c, c.arena[r.start..r.end]) else []
  }

  function CatalogView(c: Catalog, fold: Folding, objects: seq<SchemaObject>): View {
    Scopes.View.View(c.relations > 0, fold, (schema, name) => ResolveIn(c, fold, objects, schema, name), (i: nat) => NameIn(c, i),
                     (i: nat) => SchemaIn(c, i), (rel: nat) => ColumnsIn(c, rel))
  }

  // --- the columns of a relation ---

  lemma {:induction false} IndexesAre(c: Catalog, from: nat, upto: nat)
    requires from <= upto <= |c.arena|
    requires forall i :: 0 <= i < |c.arena| ==> c.arena[i].item.id in c.byId && c.byId[c.arena[i].item.id] == i
    ensures |IndexesOf(c, c.arena[from..upto])| == upto - from
    ensures forall k :: 0 <= k < upto - from ==> IndexesOf(c, c.arena[from..upto])[k] == from + k
    decreases upto - from
  {
    if from < upto {
      assert c.arena[from..upto][0] == c.arena[from] && c.arena[from..upto][1..] == c.arena[from + 1..upto];
      IndexesAre(c, from + 1, upto);
    }
  }

  /** The slots of a relation's range are its columns, and ids lead to slots. */
  ghost predicate Ranged(c: Catalog, r: nat, own: seq<SchemaObject>) {
    && r < |c.columnsOf| && c.columnsOf[r].start <= c.columnsOf[r].end <= |c.arena|
    && c.arena[c.columnsOf[r].start..c.columnsOf[r].end] == Slots(own, Some(r))
    && forall i :: 0 <= i < |c.arena| ==> c.arena[i].item.id in c.byId && c.byId[c.arena[i].item.id] == i
  }

  lemma BuiltIsRanged(c: Catalog, fold: Folding, objects: seq<SchemaObject>, r: nat)
    requires Built(c, fold, objects) && UniqueIds(objects) && r < |Relations(objects)|
    ensures Ranged(c, r, OwnColumns(objects, r))
  {
    ByIdBijective(c, fold, objects);
    ColumnsTile(c, fold, objects, r);
  }

  lemma ColumnSlots(c: Catalog, r: nat, own: seq<SchemaObject>)
    requires Ranged(c, r, own)
    ensures |ColumnsIn(c, r)| == |own|
    ensures forall k :: 0 <= k < |own| ==> NameIn(c, ColumnsIn(c, r)[k]) == own[k].name
  {
    var from, upto := c.columnsOf[r].start, c.columnsOf[r].end;
    IndexesAre(c, from, upto);
    var slots := c.arena[from..upto];
    assert |slots| == |own|;
    forall k | 0 <= k < |own| ensures NameIn(c, ColumnsIn(c, r)[k]) == own[k].name {
      assert slots[k] == Slot(own[k], Some(r)) && c.arena[from + k] == slots[k];
    }
  }

  /** The walk's columns of a relation are the snapshot's columns of it, in ordinal order. */
  lemma ColumnsAre(c: Catalog, fold: Folding, objects: seq<SchemaObject>, r: nat)
    requires Built(c, fold, objects) && UniqueIds(objects) && r < |Relations(objects)|
    ensures
      var v, own := CatalogView(c, fold, objects), OwnColumns(objects, r);
      |CatalogColumns(v, r)| == |own| && forall k :: 0 <= k < |own| ==> NameOfColumn(v, CatalogColumns(v, r)[k]) == own[k].name
  {
    BuiltIsRanged(c, fold, objects, r);
    ColumnSlots(c, r, OwnColumns(objects, r));
  }

  // --- hits ---

  predicate HitAt(v: View, columns: seq<ColumnRef>, k: nat, name: string) {
    k < |columns| && v.fold(NameOfColumn(v, columns[k])) == v.fold(name)
  }

  lemma HitsShift(v: View, columns: seq<ColumnRef>, name: string)
    requires columns != []
    ensures forall k: nat :: HitAt(v, columns[1..], k, name) <==> HitAt(v, columns, k + 1, name)
    ensures forall k: nat :: HitAt(v, columns, k, name) && k > 0 ==> HitAt(v, columns[1..], k - 1, name)
    ensures HitCount(v, columns, name) == (if HitAt(v, columns, 0, name) then 1 else 0) + HitCount(v, columns[1..], name)
  {
  }

  ghost predicate NoHit(v: View, columns: seq<ColumnRef>, name: string) {
    forall k: nat :: !HitAt(v, columns, k, name)
  }

  ghost predicate OnlyHit(v: View, columns: seq<ColumnRef>, name: string, k: nat) {
    HitAt(v, columns, k, name) && forall j: nat :: HitAt(v, columns, j, name) ==> j == k
  }

  lemma {:induction false} NoHits(v: View, columns: seq<ColumnRef>, name: string)
    ensures HitCount(v, columns, name) == 0 <==> NoHit(v, columns, name)
  {
    if columns != [] {
      NoHits(v, columns[1..], name);
      HitsShift(v, columns, name);
      assert NoHit(v, columns, name) <==> !HitAt(v, columns, 0, name) && NoHit(v, columns[1..], name);
    }
  }

  lemma {:induction false} OneHit(v: View, columns: seq<ColumnRef>, name: string)
    ensures HitCount(v, columns, name) == 1 <==> exists k: nat :: OnlyHit(v, columns, name, k)
  {
    if columns != [] {
      HitsShift(v, columns, name);
      if HitAt(v, columns, 0, name) {
        NoHits(v, columns[1..], name);
        HeadHit(v, columns, name);
      } else {
        OneHit(v, columns[1..], name);
        TailHit(v, columns, name);
      }
    }
  }

  lemma HeadHit(v: View, columns: seq<ColumnRef>, name: string)
    requires columns != [] && HitAt(v, columns, 0, name)
    ensures (exists k: nat :: OnlyHit(v, columns, name, k)) <==> NoHit(v, columns[1..], name)
  {
    HitsShift(v, columns, name);
    if NoHit(v, columns[1..], name) { assert OnlyHit(v, columns, name, 0); }
  }

  lemma TailHit(v: View, columns: seq<ColumnRef>, name: string)
    requires columns != [] && !HitAt(v, columns, 0, name)
    ensures (exists k: nat :: OnlyHit(v, columns, name, k)) <==> exists k: nat :: OnlyHit(v, columns[1..], name, k)
  {
    HitsShift(v, columns, name);
    if k: nat :| OnlyHit(v, columns, name, k) { assert OnlyHit(v, columns[1..], name, k - 1); }
    if k: nat :| OnlyHit(v, columns[1..], name, k) { assert OnlyHit(v, columns, name, k + 1); }
  }

  // --- the snapshot's answer ---

  /** A column of relation `r` with that folded name, in the snapshot. */
  predicate Named(fold: Folding, objects: seq<SchemaObject>, r: nat, name: string, o: SchemaObject)
    requires r < |Relations(objects)|
  {
    o in objects && o.Column? && o.parent == Relations(objects)[r].id && fold(o.name) == fold(name)
  }

  ghost predicate OneColumn(fold: Folding, objects: seq<SchemaObject>, r: nat, name: string)
    requires r < |Relations(objects)|
  {
    exists o :: Named(fold, objects, r, name, o) && forall p :: Named(fold, objects, r, name, p) ==> p == o
  }

  ghost predicate NoColumn(fold: Folding, objects: seq<SchemaObject>, r: nat, name: string)
    requires r < |Relations(objects)|
  {
    forall o :: !Named(fold, objects, r, name, o)
  }

  /** The counts the walk compares are counts over the snapshot. */
  lemma HitsAreColumns(c: Catalog, fold: Folding, objects: seq<SchemaObject>, r: nat, name: string)
    requires Built(c, fold, objects) && UniqueIds(objects) && r < |Relations(objects)|
    ensures
      var hits := HitCount(CatalogView(c, fold, objects), CatalogColumns(CatalogView(c, fold, objects), r), name);
      (hits == 0 <==> NoColumn(fold, objects, r, name)) && (hits == 1 <==> OneColumn(fold, objects, r, name))
  {
    var v, own := CatalogView(c, fold, objects), OwnColumns(objects, r);
    var columns := CatalogColumns(v, r);
    ColumnsAre(c, fold, objects, r);
    OwnColumnsExact(objects, r);
    NoHits(v, columns, name);
    OneHit(v, columns, name);
    NamedAreHits(fold, objects, v, columns, r, name);
  }

  lemma NamedAreHits(fold: Folding, objects: seq<SchemaObject>, v: View, columns: seq<ColumnRef>, r: nat, name: string)
    requires Reads(fold, objects, v, columns, r)
    ensures NoColumn(fold, objects, r, name) <==> NoHit(v, columns, name)
    ensures OneColumn(fold, objects, r, name) <==> exists k: nat :: OnlyHit(v, columns, name, k)
  {
    var own := OwnColumns(objects, r);
    forall k: nat | k < |own| ensures HitAt(v, columns, k, name) <==> Named(fold, objects, r, name, own[k]) {
      assert own[k] in own;
    }
    if o :| Named(fold, objects, r, name, o) {
      var k := WhereColumn(fold, objects, v, columns, r, name, o);
    }
    if k: nat :| OnlyHit(v, columns, name, k) { OnlyHitIsColumn(fold, objects, v, columns, r, name, k); }
    if OneColumn(fold, objects, r, name) { OneColumnIsHit(fold, objects, v, columns, r, name); }
  }

  /** The list of columns reads as the snapshot's columns of the relation. */
  ghost predicate Reads(fold: Folding, objects: seq<SchemaObject>, v: View, columns: seq<ColumnRef>, r: nat) {
    && r < |Relations(objects)| && v.fold == fold && |columns| == |OwnColumns(objects, r)|
    && (forall k :: 0 <= k < |columns| ==> NameOfColumn(v, columns[k]) == OwnColumns(objects, r)[k].name)
    && (forall o :: o in OwnColumns(objects, r) <==> o in objects && o.Column? && o.parent == Relations(objects)[r].id)
    && Distinct(OwnColumns(objects, r))
  }

  lemma WhereColumn(fold: Folding, objects: seq<SchemaObject>, v: View, columns: seq<ColumnRef>, r: nat, name: string, o: SchemaObject)
    returns (k: nat)
    requires Reads(fold, objects, v, columns, r) && Named(fold, objects, r, name, o)
    ensures HitAt(v, columns, k, name) && OwnColumns(objects, r)[k] == o
  {
    var own := OwnColumns(objects, r);
    assert o in own;
    k :| 0 <= k < |own| && own[k] == o;
  }

  lemma OnlyHitIsColumn(fold: Folding, objects: seq<SchemaObject>, v: View, columns: seq<ColumnRef>, r: nat, name: string, k: nat)
    requires Reads(fold, objects, v, columns, r) && OnlyHit(v, columns, name, k)
    ensures OneColumn(fold, objects, r, name)
  {
    var own := OwnColumns(objects, r);
    assert own[k] in own && Named(fold, objects, r, name, own[k]);
    forall p | Named(fold, objects, r, name, p) ensures p == own[k] {
      var j := WhereColumn(fold, objects, v, columns, r, name, p);
    }
  }

  lemma OneColumnIsHit(fold: Folding, objects: seq<SchemaObject>, v: View, columns: seq<ColumnRef>, r: nat, name: string)
    requires Reads(fold, objects, v, columns, r) && OneColumn(fold, objects, r, name)
    ensures exists k: nat :: OnlyHit(v, columns, name, k)
  {
    var own := OwnColumns(objects, r);
    var o :| Named(fold, objects, r, name, o) && forall p :: Named(fold, objects, r, name, p) ==> p == o;
    var k := WhereColumn(fold, objects, v, columns, r, name, o);
    forall j: nat | HitAt(v, columns, j, name) ensures j == k {
      assert own[j] in own && Named(fold, objects, r, name, own[j]);
    }
    assert OnlyHit(v, columns, name, k);
  }

  // --- `schema.relation.column` ---

  /** The relation a schema-qualified name stands for: the exact one, else the one whose folded pair matches. */
  ghost predicate Stands(fold: Folding, objects: seq<SchemaObject>, schema: string, name: string, r: nat)
    requires AllRelations(Relations(objects))
  {
    var keys := Keys(Relations(objects));
    if exists j: nat :: Exact(keys, j, Some(schema), name) then Exact(keys, r, Some(schema), name)
    else OnlyOne(fold, keys, r, Some(schema), name)
  }

  lemma StandsIs(c: Catalog, fold: Folding, objects: seq<SchemaObject>, schema: string, name: string)
    requires Built(c, fold, objects) && AllRelations(Relations(objects)) && UniqueNames(Relations(objects))
    ensures forall r: nat :: ResolveIn(c, fold, objects, Some(schema), name) == Some(r) <==> Stands(fold, objects, schema, name, r)
    ensures forall r: nat :: Stands(fold, objects, schema, name, r) ==> r < |Relations(objects)|
  {
    forall r: nat ensures ResolveIn(c, fold, objects, Some(schema), name) == Some(r) <==> Stands(fold, objects, schema, name, r) {
      InSchema(c, fold, objects, schema, name, r);
    }
  }

  /** What is reported about a column of relation `r` of the snapshot: nothing exactly when one column has its folded
      name; otherwise whether there is none or there are several. */
  ghost predicate Judged(fold: Folding, objects: seq<SchemaObject>, r: nat, name: string, diags: seq<Diagnostic>)
    requires r < |Relations(objects)|
  {
    if OneColumn(fold, objects, r, name) then diags == []
    else |diags| == 1 && diags[0].kind == if NoColumn(fold, objects, r, name) then UnknownColumn else AmbiguousColumn
  }

  /** What the walk reports about `schema.name.column`, in terms of its lookups. */
  predicate Looked(v: View, schema: string, name: string, column: string, diags: seq<Diagnostic>) {
    match v.resolve(Some(schema), name)
    case None => |diags| == 1 && diags[0].kind == UnknownRelation
    case Some(i) =>
      var hits := HitCount(v, CatalogColumns(v, i), column);
      if hits == 1 then diags == [] else |diags| == 1 && diags[0].kind == if hits == 0 then UnknownColumn else AmbiguousColumn
  }

  /** The last three parts of a reference. */
  predicate LastParts(n: Node, schema: string, name: string, column: string) {
    var refs := PartsOf(n);
    |refs| >= 3 && schema == refs[|refs| - 3].name && name == refs[|refs| - 2].name && column == refs[|refs| - 1].name
  }

  lemma FieldLooks(v: View, n: Node, full: seq<Frame>, schema: string, name: string, column: string)
    requires v.loaded && LastParts(n, schema, name, column)
    ensures Looked(v, schema, name, column, ResolveField(v, n, full))
  {
  }

  lemma LookedIsJudged(c: Catalog, fold: Folding, objects: seq<SchemaObject>, schema: string, name: string, column: string,
                       diags: seq<Diagnostic>, r: nat)
    requires Built(c, fold, objects) && UniqueIds(objects) && r < |Relations(objects)|
    requires Looked(CatalogView(c, fold, objects), schema, name, column, diags)
    requires ResolveIn(c, fold, objects, Some(schema), name) == Some(r)
    ensures Judged(fold, objects, r, column, diags)
  {
    HitsAreColumns(c, fold, objects, r, column);
  }

  /**
   A reference with three or more parts, in any frames.  When its schema and relation stand for a relation of the
   snapshot, the column is judged in that one; otherwise an unknown relation is reported, except that over a snapshot
   without relations nothing is.
   */
  lemma QualifiedColumn(c: Catalog, fold: Folding, objects: seq<SchemaObject>, n: Node, full: seq<Frame>,
                        schema: string, name: string, column: string, diags: seq<Diagnostic>)
    requires Built(c, fold, objects) && UniqueIds(objects) && AllRelations(Relations(objects)) && UniqueNames(Relations(objects))
    requires LastParts(n, schema, name, column) && diags == ResolveField(CatalogView(c, fold, objects), n, full)
    ensures forall r: nat :: Stands(fold, objects, schema, name, r) ==> r < |Relations(objects)| && Judged(fold, objects, r, column, diags)
    ensures (forall r: nat :: !Stands(fold, objects, schema, name, r)) ==>
              if Relations(objects) == [] then diags == [] else |diags| == 1 && diags[0].kind == UnknownRelation
  {
    if Relations(objects) == [] {
      StandsIs(c, fold, objects, schema, name);
      return;
    }
    FieldLooks(CatalogView(c, fold, objects), n, full, schema, name, column);
    LookedStands(c, fold, objects, schema, name, column, diags);
  }

  lemma LookedStands(c: Catalog, fold: Folding, objects: seq<SchemaObject>, schema: string, name: string, column: string,
                     diags: seq<Diagnostic>)
    requires Built(c, fold, objects) && UniqueIds(objects) && AllRelations(Relations(objects)) && UniqueNames(Relations(objects))
    requires Looked(CatalogView(c, fold, objects), schema, name, column, diags)
    ensures forall r: nat :: Stands(fold, objects, schema, name, r) ==> r < |Relations(objects)| && Judged(fold, objects, r, column, diags)
    ensures (forall r: nat :: !Stands(fold, objects, schema, name, r)) ==> |diags| == 1 && diags[0].kind == UnknownRelation
  {
    StandsIs(c, fold, objects, schema, name);
    forall r: nat | Stands(fold, objects, schema, name, r) ensures r < |Relations(objects)| && Judged(fold, objects, r, column, diags) {
      LookedIsJudged(c, fold, objects, schema, name, column, diags, r);
    }
    var found := ResolveIn(c, fold, objects, Some(schema), name);
    if found.Some? { assert Stands(fold, objects, schema, name, found.value); }
  }

  // --- relations in FROM ---

  /** The relation an unqualified name stands for: the exactly named one of the first schema that has it, else the only
      folded match when no other schema of the snapshot folds to its schema's name. */
  ghost predicate StandsAlone(fold: Folding, objects: seq<SchemaObject>, name: string, r: nat)
    requires AllRelations(Relations(objects))
  {
    var keys := Keys(Relations(objects));
    if exists j: nat :: Exact(keys, j, None, name) then
      Exact(keys, r, None, name) && forall j: nat :: Exact(keys, j, None, name) ==> StrLe(keys[r].0, keys[j].0)
    else OnlyOne(fold, keys, r, None, name) && OwnSchema(fold, objects, keys[r].0)
  }

  lemma ExactAlone(c: Catalog, fold: Folding, objects: seq<SchemaObject>, name: string, r: nat)
    requires Built(c, fold, objects) && AllRelations(Relations(objects)) && UniqueNames(Relations(objects))
    requires exists j: nat :: Exact(Keys(Relations(objects)), j, None, name)
    ensures ResolveIn(c, fold, objects, None, name) == Some(r) <==> StandsAlone(fold, objects, name, r)
  {
    ExactAnywhere(c, fold, objects, name);
    OneLeast(Relations(objects), name, ResolveIn(c, fold, objects, None, name).value, r);
  }

  /** Two relations of one name and one schema are the same. */
  lemma OneLeast(rels: seq<SchemaObject>, name: string, q: nat, r: nat)
    requires AllRelations(rels) && UniqueNames(rels) && Exact(Keys(rels), q, None, name)
    requires forall j: nat :: Exact(Keys(rels), j, None, name) ==> StrLe(Keys(rels)[q].0, Keys(rels)[j].0)
    ensures q == r <==>
              && Exact(Keys(rels), r, None, name)
              && forall j: nat :: Exact(Keys(rels), j, None, name) ==> StrLe(Keys(rels)[r].0, Keys(rels)[j].0)
  {
    if Exact(Keys(rels), r, None, name) && forall j: nat :: Exact(Keys(rels), j, None, name) ==> StrLe(Keys(rels)[r].0, Keys(rels)[j].0) {
      StrAntisymmetric(Keys(rels)[r].0, Keys(rels)[q].0);
      assert RelationKey(rels[r]) == RelationKey(rels[q]);
    }
  }

  lemma AloneIs(c: Catalog, fold: Folding, objects: seq<SchemaObject>, name: string, r: nat)
    requires Built(c, fold, objects) && AllRelations(Relations(objects)) && UniqueNames(Relations(objects))
    ensures ResolveIn(c, fold, objects, None, name) == Some(r) <==> StandsAlone(fold, objects, name, r)
  {
    if exists j: nat :: Exact(Keys(Relations(objects)), j, None, name) {
      ExactAlone(c, fold, objects, name, r);
    } else {
      FoldedAnywhere(c, fold, objects, name, r);
    }
  }

  /** A source that binds relation `r` of the snapshot under its own name and schema, with its columns. */
  ghost predicate Binds(v: View, objects: seq<SchemaObject>, r: nat, alias: Option<string>, bindings: seq<Binding>)
    requires AllRelations(Relations(objects))
  {
    var rels := Relations(objects);
    && r < |rels| && |bindings| == 1
    && bindings[0].relation == Some(r) && bindings[0].alias == alias && bindings[0].columns == CatalogColumns(v, r)
    && bindings[0].name == Some(rels[r].name) && bindings[0].schema == Some(RelationKey(rels[r]).0)
  }

  /** What the walk makes of an unqualified source no CTE answers for, in terms of its lookups. */
  predicate Sourced(v: View, part: Part, alias: Option<string>, bindings: seq<Binding>, diags: seq<Diagnostic>) {
    match v.resolve(None, part.name)
    case None => |diags| == 1 && diags[0].kind == UnknownRelation
    case Some(i) =>
      diags == [] &&
      bindings == [Binding(alias, Some(v.nameOf(i)), Some(v.schemaOf(i)), Some(i), CatalogColumns(v, i), part.start, part.end)]
  }

  lemma SourceReports(v: View, part: Part, alias: Option<string>, ctes: seq<Binding>, outer: seq<Frame>, bindAnyway: bool)
    requires v.loaded && CteOf(v, [ctes] + CtesOf(outer), part.name).None?
    ensures
      var source := BindSource(v, [part], alias, ctes, outer, bindAnyway);
      Sourced(v, part, alias, source.0, source.1)
  {
    assert Names([part]) == [part.name];
  }

  lemma SourcedStands(c: Catalog, fold: Folding, objects: seq<SchemaObject>, part: Part, alias: Option<string>,
                      bindings: seq<Binding>, diags: seq<Diagnostic>)
    requires Built(c, fold, objects) && AllRelations(Relations(objects)) && UniqueNames(Relations(objects))
    requires Sourced(CatalogView(c, fold, objects), part, alias, bindings, diags)
    ensures forall r: nat :: StandsAlone(fold, objects, part.name, r) ==>
              diags == [] && Binds(CatalogView(c, fold, objects), objects, r, alias, bindings)
    ensures (forall r: nat :: !StandsAlone(fold, objects, part.name, r)) ==> |diags| == 1 && diags[0].kind == UnknownRelation
  {
    var found := ResolveIn(c, fold, objects, None, part.name);
    AllAlone(c, fold, objects, part.name);
    if found.Some? {
      assert StandsAlone(fold, objects, part.name, found.value);
      SourcedBinds(c, fold, objects, part, alias, bindings, diags, found.value);
    }
  }

  lemma AllAlone(c: Catalog, fold: Folding, objects: seq<SchemaObject>, name: string)
    requires Built(c, fold, objects) && AllRelations(Relations(objects)) && UniqueNames(Relations(objects))
    ensures forall r: nat :: ResolveIn(c, fold, objects, None, name) == Some(r) <==> StandsAlone(fold, objects, name, r)
    ensures forall r: nat :: StandsAlone(fold, objects, name, r) ==> r < |Relations(objects)|
  {
    forall r: nat ensures ResolveIn(c, fold, objects, None, name) == Some(r) <==> StandsAlone(fold, objects, name, r) {
      AloneIs(c, fold, objects, name, r);
    }
  }

  /** What a name stands for, under a schema or alone. */
  lemma NameStands(c: Catalog, fold: Folding, objects: seq<SchemaObject>, schema: Option<string>, name: string, r: nat)
    requires Built(c, fold, objects) && AllRelations(Relations(objects)) && UniqueNames(Relations(objects))
    ensures ResolveIn(c, fold, objects, schema, name) == Some(r) <==>
              if schema.None? then StandsAlone(fold, objects, name, r) else Stands(fold, objects, schema.value, name, r)
    ensures ResolveIn(c, fold, objects, schema, name) == Some(r) ==>
              r < |Relations(objects)| && fold(Keys(Relations(objects))[r].1) == fold(name)
  {
    match schema
    case None => AloneIs(c, fold, objects, name, r);
    case Some(s) => InSchema(c, fold, objects, s, name, r);
  }

  lemma SourcedBinds(c: Catalog, fold: Folding, objects: seq<SchemaObject>, part: Part, alias: Option<string>,
                     bindings: seq<Binding>, diags: seq<Diagnostic>, r: nat)
    requires Built(c, fold, objects) && AllRelations(Relations(objects)) && r < |Relations(objects)|
    requires Sourced(CatalogView(c, fold, objects), part, alias, bindings, diags)
    requires ResolveIn(c, fold, objects, None, part.name) == Some(r)
    ensures diags == [] && Binds(CatalogView(c, fold, objects), objects, r, alias, bindings)
  {
    RelationSlot(c, fold, objects, r);
  }

  /**
   An unqualified source no CTE answers for.  When its name stands for a relation of the snapshot it binds that one;
   otherwise it is reported, except that over a snapshot without relations nothing is.
   */
  lemma UnqualifiedSource(c: Catalog, fold: Folding, objects: seq<SchemaObject>, part: Part, alias: Option<string>,
                          ctes: seq<Binding>, outer: seq<Frame>, bindAnyway: bool, bindings: seq<Binding>, diags: seq<Diagnostic>)
    requires Built(c, fold, objects) && AllRelations(Relations(objects)) && UniqueNames(Relations(objects))
    requires CteOf(CatalogView(c, fold, objects), [ctes] + CtesOf(outer), part.name).None?
    requires (bindings, diags) == BindSource(CatalogView(c, fold, objects), [part], alias, ctes, outer, bindAnyway)
    ensures forall r: nat :: StandsAlone(fold, objects, part.name, r) ==>
              diags == [] && Binds(CatalogView(c, fold, objects), objects, r, alias, bindings)
    ensures (forall r: nat :: !StandsAlone(fold, objects, part.name, r)) ==>
              if Relations(objects) == [] then diags == [] else |diags| == 1 && diags[0].kind == UnknownRelation
  {
    if Relations(objects) == [] {
      AllAlone(c, fold, objects, part.name);
      return;
    }
    SourceReports(CatalogView(c, fold, objects), part, alias, ctes, outer, bindAnyway);
    SourcedStands(c, fold, objects, part, alias, bindings, diags);
  }

  lemma RelationSlot(c: Catalog, fold: Folding, objects: seq<SchemaObject>, r: nat)
    requires Built(c, fold, objects) && AllRelations(Relations(objects)) && r < |Relations(objects)|
    ensures NameIn(c, r) == Relations(objects)[r].name && SchemaIn(c, r) == RelationKey(Relations(objects)[r]).0
  {
    var rels := Relations(objects);
    assert CatalogCache.Heads(objects)[r] == Slot(rels[r], None);
    assert c.arena[r] == Slot(rels[r], None) && rels[r] in rels;
  }

  lemma NoOwnColumns(objects: seq<SchemaObject>, r: nat)
    requires UniqueIds(objects) && r < |Relations(objects)|
    ensures OwnColumns(objects, r) == [] <==> forall o :: o in objects && o.Column? ==> o.parent != Relations(objects)[r].id
  {
    OwnColumnsExact(objects, r);
    var own := OwnColumns(objects, r);
    if own != [] { assert own[0] in own; }
    if o :| o in objects && o.Column? && o.parent == Relations(objects)[r].id { assert o in own; }
  }

  /** A column of such a binding: nothing is reported exactly when the relation has one column of that folded name, or
      none of any name. */
  lemma BoundColumn(c: Catalog, fold: Folding, objects: seq<SchemaObject>, b: Binding, r: nat, column: Part, qualifier: string)
    requires Built(c, fold, objects) && UniqueIds(objects) && r < |Relations(objects)|
    requires b.columns == CatalogColumns(CatalogView(c, fold, objects), r)
    ensures
      Against(CatalogView(c, fold, objects), b, column, qualifier) == [] <==>
        OneColumn(fold, objects, r, column.name) || forall o :: o in objects && o.Column? ==> o.parent != Relations(objects)[r].id
  {
    HitsAreColumns(c, fold, objects, r, column.name);
    ColumnsAre(c, fold, objects, r);
    NoOwnColumns(objects, r);
  }
}
