/**
 The in-memory catalog (`tempr_intel/src/catalog.rs`): an arena built once from a snapshot, and the lookups
 that read it.  Case folding is a parameter: nothing here depends on what it does.
 */
module CatalogCache {
  import opened SchemaObjects
  import opened Sorting
  import opened Strings
  import opened Wrappers

  type Folding = string -> string

  /** One arena slot: a schema object, and for columns and indexes the arena index of their relation. */
  datatype Slot = Slot(item: SchemaObject, parent: Option<nat>)

  datatype Range = Range(start: nat, end: nat)

  /** The immutable catalog. */
  datatype Catalog = Catalog(
    arena: seq<Slot>,
    byId: map<ObjectId, nat>,
    relations: nat,
    byName: map<(string, string), nat>,
    byFolded: map<(string, string), seq<nat>>,
    columnsOf: seq<Range>,
    nameOrder: seq<(string, nat)>,
    schemas: seq<string>)

  // --- what the arena is, as a function of the snapshot's objects ---

  predicate IsRelation(o: SchemaObject) { o.Table? || o.View? }

  predicate IsFunction(o: SchemaObject) { o.Function? }

  function Relations(objects: seq<SchemaObject>): seq<SchemaObject> { Filter(IsRelation, objects) }

  function Functions(objects: seq<SchemaObject>): seq<SchemaObject> { Filter(IsFunction, objects) }

  /** Index of each id; a repeated id keeps its last index. */
  function IndexOf(objects: seq<SchemaObject>): map<ObjectId, nat> {
    if objects == [] then map[]
    else IndexOf(objects[..|objects| - 1])[objects[|objects| - 1].id := |objects| - 1]
  }

  predicate Hangs(parents: map<ObjectId, nat>, rel: nat, o: SchemaObject)
    requires o.Column? || o.Index?
  {
    o.parent in parents && parents[o.parent] == rel
  }

  predicate ColumnFor(parents: map<ObjectId, nat>, rel: nat, o: SchemaObject) { o.Column? && Hangs(parents, rel, o) }

  predicate IndexFor(parents: map<ObjectId, nat>, rel: nat, o: SchemaObject) { o.Index? && Hangs(parents, rel, o) }

  predicate OrdinalLe(a: SchemaObject, b: SchemaObject) {
    (if a.Column? then a.ordinal else 0) <= (if b.Column? then b.ordinal else 0)
  }

  /** The columns of relation `rel`, in ordinal order; equal ordinals keep snapshot order. */
  function ColumnsFor(objects: seq<SchemaObject>, parents: map<ObjectId, nat>, rel: nat): seq<SchemaObject> {
    Sort(OrdinalLe, ColumnBucket(objects, parents, rel))
  }

  function ColumnBucket(objects: seq<SchemaObject>, parents: map<ObjectId, nat>, rel: nat): seq<SchemaObject> {
    Filter(o => ColumnFor(parents, rel, o), objects)
  }

  function IndexesFor(objects: seq<SchemaObject>, parents: map<ObjectId, nat>, rel: nat): seq<SchemaObject> {
    Filter(o => IndexFor(parents, rel, o), objects)
  }

  function Slots(objects: seq<SchemaObject>, parent: Option<nat>): (s: seq<Slot>)
    ensures |s| == |objects| && forall i :: 0 <= i < |s| ==> s[i] == Slot(objects[i], parent)
  {
    seq(|objects|, i requires 0 <= i < |objects| => Slot(objects[i], parent))
  }

  /** The column segment of the first `n` relations. */
  function ColumnSegment(objects: seq<SchemaObject>, parents: map<ObjectId, nat>, n: nat): seq<Slot> {
    if n == 0 then []
    else ColumnSegment(objects, parents, n - 1) + Slots(ColumnsFor(objects, parents, n - 1), Some(n - 1))
  }

  function IndexSegment(objects: seq<SchemaObject>, parents: map<ObjectId, nat>, n: nat): seq<Slot> {
    if n == 0 then []
    else IndexSegment(objects, parents, n - 1) + Slots(IndexesFor(objects, parents, n - 1), Some(n - 1))
  }

  function Heads(objects: seq<SchemaObject>): seq<Slot> {
    Slots(Relations(objects), None) + Slots(Functions(objects), None)
  }

  /** Relations, functions, columns grouped by relation, indexes grouped by relation. */
  function Arena(objects: seq<SchemaObject>): seq<Slot> {
    var parents, n := IndexOf(Relations(objects)), |Relations(objects)|;
    Heads(objects) + ColumnSegment(objects, parents, n) + IndexSegment(objects, parents, n)
  }

  function SlotIndex(arena: seq<Slot>): map<ObjectId, nat> {
    if arena == [] then map[]
    else SlotIndex(arena[..|arena| - 1])[arena[|arena| - 1].item.id := |arena| - 1]
  }

  function RelationKey(o: SchemaObject): (string, string)
    requires IsRelation(o)
  {
    (o.schema, o.name)
  }

  function FoldKey(fold: Folding, k: (string, string)): (string, string) { (fold(k.0), fold(k.1)) }

  predicate AllRelations(rels: seq<SchemaObject>) { forall o :: o in rels ==> IsRelation(o) }

  /** Index of each (schema, name); a repeated pair keeps its last index. */
  ghost predicate ByNameOf(m: map<(string, string), nat>, rels: seq<SchemaObject>) {
    && AllRelations(rels)
    && (forall k :: k in m ==> m[k] < |rels| && RelationKey(rels[m[k]]) == k)
    && (forall i :: 0 <= i < |rels| ==> RelationKey(rels[i]) in m && i <= m[RelationKey(rels[i])])
  }

  /** Linear scan: the relations whose folded pair is `k`, ascending. */
  function FoldMatches(fold: Folding, rels: seq<SchemaObject>, k: (string, string)): (m: seq<nat>)
    requires AllRelations(rels)
    ensures forall i :: i in m <==> 0 <= i < |rels| && FoldKey(fold, RelationKey(rels[i])) == k
    ensures Ascending(m)
  {
    if rels == [] then []
    else
      var n := |rels| - 1;
      assert rels[n] in rels;
      var front := FoldMatches(fold, rels[..n], k);
      assert forall i :: 0 <= i < |front| ==> front[i] in front;
      if FoldKey(fold, RelationKey(rels[n])) == k then front + [n] else front
  }

  ghost predicate Ascending(s: seq<nat>) { forall i, j :: 0 <= i < j < |s| ==> s[i] < s[j] }

  /** The folded map holds the non-empty scans. */
  ghost predicate ByFoldedOf(fold: Folding, m: map<(string, string), seq<nat>>, rels: seq<SchemaObject>) {
    && AllRelations(rels)
    && (forall k :: k in m <==> FoldMatches(fold, rels, k) != [])
    && (forall k :: k in m ==> m[k] == FoldMatches(fold, rels, k))
  }

  predicate NameLe(a: (string, nat), b: (string, nat)) {
    StrLt(a.0, b.0) || (a.0 == b.0 && a.1 <= b.1)
  }

  function Named(fold: Folding, heads: seq<Slot>, i: nat): (string, nat)
    requires i < |heads|
  {
    (fold(heads[i].item.name), i)
  }

  /** The folded name of each slot of the arena's head. */
  function FoldedNames(fold: Folding, heads: seq<Slot>): (s: seq<(string, nat)>)
    ensures |s| == |heads| && forall i :: 0 <= i < |s| ==> s[i] == Named(fold, heads, i)
  {
    seq(|heads|, i requires 0 <= i < |heads| => Named(fold, heads, i))
  }

  function SchemaNames(arena: seq<Slot>): seq<string> {
    if arena == [] then []
    else (if IsRelation(arena[0].item) || IsFunction(arena[0].item) then [arena[0].item.schema] else []) +
         SchemaNames(arena[1..])
  }

  /** Where the columns of relation `r` stand when the column segment starts at `base`. */
  function RangeFrom(base: nat, objects: seq<SchemaObject>, parents: map<ObjectId, nat>, r: nat): Range {
    Range(base + |ColumnSegment(objects, parents, r)|, base + |ColumnSegment(objects, parents, r + 1)|)
  }

  function Ranges(base: nat, objects: seq<SchemaObject>, parents: map<ObjectId, nat>, n: nat): (s: seq<Range>)
    ensures |s| == n && forall r :: 0 <= r < n ==> s[r] == RangeFrom(base, objects, parents, r)
  {
    if n == 0 then [] else Ranges(base, objects, parents, n - 1) + [RangeFrom(base, objects, parents, n - 1)]
  }

  /** The catalog of a snapshot. */
  ghost predicate Built(c: Catalog, fold: Folding, objects: seq<SchemaObject>) {
    var rels := Relations(objects);
    && c.arena == Arena(objects)
    && c.byId == SlotIndex(c.arena)
    && c.relations == |rels|
    && ByNameOf(c.byName, rels)
    && ByFoldedOf(fold, c.byFolded, rels)
    && c.columnsOf == Ranges(|Heads(objects)|, objects, IndexOf(rels), |rels|)
    && c.nameOrder == Sort(NameLe, FoldedNames(fold, Heads(objects)))
    && c.schemas == Dedup(Sort(StrLe, SchemaNames(c.arena)))
  }

  lemma {:induction false} FilterAppend<T(!new)>(p: T -> bool, s: seq<T>, x: T)
    ensures Filter(p, s + [x]) == Filter(p, s) + if p(x) then [x] else []
  {
    FilterConcat(p, s, [x]);
  }

  lemma SlotIndexAppend(arena: seq<Slot>, s: Slot)
    ensures SlotIndex(arena + [s]) == SlotIndex(arena)[s.item.id := |arena|]
  {
    assert (arena + [s])[..|arena|] == arena;
  }

  lemma RelationsAreRelations(objects: seq<SchemaObject>)
    ensures AllRelations(Relations(objects))
    ensures forall o :: o in Functions(objects) ==> IsFunction(o)
  {
    FilterMembers(IsRelation, objects);
    FilterMembers(IsFunction, objects);
  }

  /** First pass: relations, functions, and the name and parent indexes. */
  method PoolHeads(fold: Folding, objects: seq<SchemaObject>)
    returns (relationPool: seq<SchemaObject>, functionPool: seq<SchemaObject>, parents: map<ObjectId, nat>,
             byName: map<(string, string), nat>, byFolded: map<(string, string), seq<nat>>)
    ensures Pooled(fold, objects, relationPool, functionPool, parents, byName, byFolded)
  {
    relationPool, functionPool, parents, byName, byFolded := [], [], map[], map[], map[];
    for i := 0 to |objects|
      invariant Pooled(fold, objects[..i], relationPool, functionPool, parents, byName, byFolded)
    {
      assert objects[..i + 1] == objects[..i] + [objects[i]];
      relationPool, functionPool, parents, byName, byFolded :=
        PoolOne(fold, objects[..i], relationPool, functionPool, parents, byName, byFolded, objects[i]);
    }
    assert objects[..|objects|] == objects;
  }

  /** One object of the first pass. */
  method PoolOne(fold: Folding, ghost done: seq<SchemaObject>, rels: seq<SchemaObject>, funs: seq<SchemaObject>,
                 ids: map<ObjectId, nat>, names: map<(string, string), nat>, folds: map<(string, string), seq<nat>>, o: SchemaObject)
    returns (relationPool: seq<SchemaObject>, functionPool: seq<SchemaObject>, parents: map<ObjectId, nat>,
             byName: map<(string, string), nat>, byFolded: map<(string, string), seq<nat>>)
    requires Pooled(fold, done, rels, funs, ids, names, folds)
    ensures Pooled(fold, done + [o], relationPool, functionPool, parents, byName, byFolded)
  {
    relationPool, functionPool, parents, byName, byFolded := rels, funs, ids, names, folds;
    if IsRelation(o) {
      var slot := |relationPool|;
      var folded := FoldKey(fold, (o.schema, o.name));
      byName := byName[(o.schema, o.name) := slot];
      byFolded := byFolded[folded := (if folded in byFolded then byFolded[folded] else []) + [slot]];
      parents := parents[o.id := slot];
      relationPool := relationPool + [o];
      PoolRelation(fold, done, rels, funs, ids, names, folds, o);
    } else if IsFunction(o) {
      functionPool := functionPool + [o];
      PoolOther(fold, done, rels, funs, ids, names, folds, o);
    } else {
      PoolOther(fold, done, rels, funs, ids, names, folds, o);
    }
  }

  ghost predicate Pooled(fold: Folding, objects: seq<SchemaObject>, rels: seq<SchemaObject>, funs: seq<SchemaObject>,
                         parents: map<ObjectId, nat>, byName: map<(string, string), nat>,
                         byFolded: map<(string, string), seq<nat>>)
  {
    && rels == Relations(objects) && funs == Functions(objects) && parents == IndexOf(rels)
    && ByNameOf(byName, rels) && ByFoldedOf(fold, byFolded, rels)
  }

  lemma PoolRelation(fold: Folding, objects: seq<SchemaObject>, rels: seq<SchemaObject>, funs: seq<SchemaObject>,
                     parents: map<ObjectId, nat>, byName: map<(string, string), nat>,
                     byFolded: map<(string, string), seq<nat>>, o: SchemaObject)
    requires Pooled(fold, objects, rels, funs, parents, byName, byFolded) && IsRelation(o)
    ensures var k, n := FoldKey(fold, (o.schema, o.name)), |rels|;
            Pooled(fold, objects + [o], rels + [o], funs, parents[o.id := n], byName[(o.schema, o.name) := n],
                   byFolded[k := (if k in byFolded then byFolded[k] else []) + [n]])
  {
    FilterAppend(IsRelation, objects, o);
    FilterAppend(IsFunction, objects, o);
    HeadStep(fold, byName, byFolded, rels, o);
    IndexAppend(rels, o);
  }

  lemma PoolOther(fold: Folding, objects: seq<SchemaObject>, rels: seq<SchemaObject>, funs: seq<SchemaObject>,
                  parents: map<ObjectId, nat>, byName: map<(string, string), nat>,
                  byFolded: map<(string, string), seq<nat>>, o: SchemaObject)
    requires Pooled(fold, objects, rels, funs, parents, byName, byFolded) && !IsRelation(o)
    ensures Pooled(fold, objects + [o], rels, if IsFunction(o) then funs + [o] else funs, parents, byName, byFolded)
  {
    FilterAppend(IsRelation, objects, o);
    FilterAppend(IsFunction, objects, o);
  }

  lemma IndexAppend(rels: seq<SchemaObject>, o: SchemaObject)
    ensures IndexOf(rels + [o]) == IndexOf(rels)[o.id := |rels|]
  {
    assert (rels + [o])[..|rels|] == rels;
  }

  lemma HeadStep(fold: Folding, byName: map<(string, string), nat>, m: map<(string, string), seq<nat>>, rels: seq<SchemaObject>, o: SchemaObject)
    requires ByNameOf(byName, rels) && ByFoldedOf(fold, m, rels) && IsRelation(o)
    ensures ByNameOf(byName[(o.schema, o.name) := |rels|], rels + [o])
    ensures var k := FoldKey(fold, (o.schema, o.name));
            ByFoldedOf(fold, m[k := (if k in m then m[k] else []) + [|rels|]], rels + [o])
  {
    var all := rels + [o];
    assert all[..|rels|] == rels;
    assert AllRelations(all);
    FoldedStep(fold, m, rels, o);
  }

  lemma FoldedStep(fold: Folding, m: map<(string, string), seq<nat>>, rels: seq<SchemaObject>, o: SchemaObject)
    requires ByFoldedOf(fold, m, rels) && IsRelation(o) && AllRelations(rels + [o])
    ensures var k := FoldKey(fold, (o.schema, o.name));
            ByFoldedOf(fold, m[k := (if k in m then m[k] else []) + [|rels|]], rels + [o])
  {
    var all, key := rels + [o], FoldKey(fold, (o.schema, o.name));
    assert all[..|rels|] == rels && RelationKey(o) == (o.schema, o.name);
    forall k
      ensures FoldMatches(fold, all, k) == FoldMatches(fold, rels, k) + (if k == key then [|rels|] else [])
    {
    }
  }

  /** Second pass: every column and index goes to the bucket of its relation, if it has one. */
  method Bucket(objects: seq<SchemaObject>, parents: map<ObjectId, nat>, n: nat)
    returns (columns: seq<seq<SchemaObject>>, indexes: seq<seq<SchemaObject>>)
    requires forall id :: id in parents ==> parents[id] < n
    ensures |columns| == n && |indexes| == n
    ensures forall r :: 0 <= r < n ==> columns[r] == ColumnBucket(objects, parents, r)
    ensures forall r :: 0 <= r < n ==> indexes[r] == IndexesFor(objects, parents, r)
  {
    columns := seq(n, _ => []);
    indexes := seq(n, _ => []);
    for i := 0 to |objects|
      invariant |columns| == n && |indexes| == n
      invariant forall r :: 0 <= r < n ==> columns[r] == ColumnBucket(objects[..i], parents, r)
      invariant forall r :: 0 <= r < n ==> indexes[r] == IndexesFor(objects[..i], parents, r)
    {
      var o := objects[i];
      assert objects[..i + 1] == objects[..i] + [o];
      forall r | 0 <= r < n
        ensures ColumnBucket(objects[..i] + [o], parents, r) == columns[r] + if ColumnFor(parents, r, o) then [o] else []
        ensures IndexesFor(objects[..i] + [o], parents, r) == indexes[r] + if IndexFor(parents, r, o) then [o] else []
      {
        FilterAppend(x => ColumnFor(parents, r, x), objects[..i], o);
        FilterAppend(x => IndexFor(parents, r, x), objects[..i], o);
      }
      if o.Column? && o.parent in parents {
        columns := columns[parents[o.parent] := columns[parents[o.parent]] + [o]];
      } else if o.Index? && o.parent in parents {
        indexes := indexes[parents[o.parent] := indexes[parents[o.parent]] + [o]];
      }
    }
    assert objects[..|objects|] == objects;
  }

  lemma {:induction false} IndexOfBounds(objects: seq<SchemaObject>)
    ensures forall id :: id in IndexOf(objects) ==> IndexOf(objects)[id] < |objects| && objects[IndexOf(objects)[id]].id == id
    ensures forall i :: 0 <= i < |objects| ==> objects[i].id in IndexOf(objects) && i <= IndexOf(objects)[objects[i].id]
  {
    if objects != [] { IndexOfBounds(objects[..|objects| - 1]); }
  }

  /** Appends slots to the arena, recording each id. */
  method Append(arena: seq<Slot>, byId: map<ObjectId, nat>, items: seq<SchemaObject>, parent: Option<nat>)
    returns (arena': seq<Slot>, byId': map<ObjectId, nat>)
    requires byId == SlotIndex(arena)
    ensures arena' == arena + Slots(items, parent) && byId' == SlotIndex(arena')
  {
    arena', byId' := arena, byId;
    for i := 0 to |items|
      invariant arena' == arena + Slots(items, parent)[..i] && byId' == SlotIndex(arena')
    {
      SlotIndexAppend(arena', Slot(items[i], parent));
      byId' := byId'[items[i].id := |arena'|];
      arena' := arena' + [Slot(items[i], parent)];
    }
  }

  /** `from_snapshot`. */
  method FromSnapshot(fold: Folding, objects: seq<SchemaObject>) returns (c: Catalog)
    ensures Built(c, fold, objects)
  {
    var rels, funs, parents, byName, byFolded := PoolHeads(fold, objects);
    IndexOfBounds(rels);
    var heads, byId := PlaceHeads(objects, rels, funs);
    var columnBuckets, indexBuckets := Bucket(objects, parents, |rels|);
    var arena, columnsOf;
    arena, byId, columnsOf := PlaceColumns(objects, parents, heads, byId, columnBuckets);
    arena, byId := PlaceIndexes(objects, parents, arena, byId, indexBuckets);
    c := Catalog(arena, byId, |rels|, byName, byFolded, columnsOf,
                 Sort(NameLe, FoldedNames(fold, heads)), Dedup(Sort(StrLe, SchemaNames(arena))));
  }

  method PlaceHeads(objects: seq<SchemaObject>, rels: seq<SchemaObject>, funs: seq<SchemaObject>)
    returns (arena: seq<Slot>, byId: map<ObjectId, nat>)
    requires rels == Relations(objects) && funs == Functions(objects)
    ensures arena == Heads(objects) && byId == SlotIndex(arena)
  {
    arena, byId := Append([], map[], rels, None);
    assert arena == Slots(rels, None);
    arena, byId := Append(arena, byId, funs, None);
  }

  /** Columns in relation order, in ordinal order within a relation, recording each relation's range. */
  method PlaceColumns(objects: seq<SchemaObject>, parents: map<ObjectId, nat>, heads: seq<Slot>, ids: map<ObjectId, nat>,
                      buckets: seq<seq<SchemaObject>>)
    returns (arena: seq<Slot>, byId: map<ObjectId, nat>, columnsOf: seq<Range>)
    requires forall r :: 0 <= r < |buckets| ==> buckets[r] == ColumnBucket(objects, parents, r)
    requires ids == SlotIndex(heads)
    ensures arena == heads + ColumnSegment(objects, parents, |buckets|) && byId == SlotIndex(arena)
    ensures columnsOf == Ranges(|heads|, objects, parents, |buckets|)
  {
    arena, byId, columnsOf := heads, ids, [];
    for rel := 0 to |buckets|
      invariant arena == heads + ColumnSegment(objects, parents, rel) && byId == SlotIndex(arena)
      invariant columnsOf == Ranges(|heads|, objects, parents, rel)
    {
      var start := |arena|;
      arena, byId := PlaceBucket(objects, parents, heads, arena, byId, buckets[rel], rel);
      RangeIs(objects, parents, heads, rel);
      columnsOf := columnsOf + [Range(start, |arena|)];
    }
  }

  lemma RangeIs(objects: seq<SchemaObject>, parents: map<ObjectId, nat>, heads: seq<Slot>, rel: nat)
    ensures Range(|heads + ColumnSegment(objects, parents, rel)|, |heads + ColumnSegment(objects, parents, rel + 1)|)
         == RangeFrom(|heads|, objects, parents, rel)
    ensures Ranges(|heads|, objects, parents, rel + 1)
         == Ranges(|heads|, objects, parents, rel) + [RangeFrom(|heads|, objects, parents, rel)]
  {
  }

  method PlaceBucket(objects: seq<SchemaObject>, parents: map<ObjectId, nat>, ghost heads: seq<Slot>, before: seq<Slot>,
                     ids: map<ObjectId, nat>, bucket: seq<SchemaObject>, rel: nat)
    returns (arena: seq<Slot>, byId: map<ObjectId, nat>)
    requires bucket == ColumnBucket(objects, parents, rel)
    requires before == heads + ColumnSegment(objects, parents, rel) && ids == SlotIndex(before)
    ensures arena == heads + ColumnSegment(objects, parents, rel + 1) && byId == SlotIndex(arena)
  {
    var sorted := Sort(OrdinalLe, bucket);
    arena, byId := Append(before, ids, sorted, Some(rel));
    Regroup(heads, ColumnSegment(objects, parents, rel), Slots(sorted, Some(rel)));
  }

  lemma Regroup(a: seq<Slot>, b: seq<Slot>, c: seq<Slot>)
    ensures (a + b) + c == a + (b + c)
  {
  }

  method PlaceIndexes(objects: seq<SchemaObject>, parents: map<ObjectId, nat>, before: seq<Slot>, ids: map<ObjectId, nat>,
                      buckets: seq<seq<SchemaObject>>)
    returns (arena: seq<Slot>, byId: map<ObjectId, nat>)
    requires forall r :: 0 <= r < |buckets| ==> buckets[r] == IndexesFor(objects, parents, r)
    requires ids == SlotIndex(before)
    ensures arena == before + IndexSegment(objects, parents, |buckets|) && byId == SlotIndex(arena)
  {
    arena, byId := before, ids;
    assert before + [] == before;
    for rel := 0 to |buckets|
      invariant arena == before + IndexSegment(objects, parents, rel) && byId == SlotIndex(arena)
    {
      IndexStep(objects, parents, rel, before);
      arena, byId := Append(arena, byId, buckets[rel], Some(rel));
    }
  }

  lemma IndexStep(objects: seq<SchemaObject>, parents: map<ObjectId, nat>, rel: nat, before: seq<Slot>)
    ensures before + IndexSegment(objects, parents, rel + 1)
         == before + IndexSegment(objects, parents, rel) + Slots(IndexesFor(objects, parents, rel), Some(rel))
  {
    Regroup(before, IndexSegment(objects, parents, rel), Slots(IndexesFor(objects, parents, rel), Some(rel)));
  }

  // --- the arena holds each object once, and the index inverts it ---

  lemma {:induction false} SlotIndexExact(arena: seq<Slot>)
    ensures forall id :: id in SlotIndex(arena) ==> SlotIndex(arena)[id] < |arena| && arena[SlotIndex(arena)[id]].item.id == id
    ensures forall i :: 0 <= i < |arena| ==> arena[i].item.id in SlotIndex(arena) && i <= SlotIndex(arena)[arena[i].item.id]
  {
    if arena != [] { SlotIndexExact(arena[..|arena| - 1]); }
  }

  ghost predicate DistinctItems(s: seq<Slot>) {
    forall i, j :: 0 <= i < j < |s| ==> s[i].item != s[j].item
  }

  ghost predicate Holds(s: seq<Slot>, o: SchemaObject) {
    exists i :: 0 <= i < |s| && s[i].item == o
  }

  lemma HoldsConcat(a: seq<Slot>, b: seq<Slot>)
    ensures forall o :: Holds(a + b, o) <==> Holds(a, o) || Holds(b, o)
  {
    forall o ensures Holds(a + b, o) <==> Holds(a, o) || Holds(b, o) {
      if i :| 0 <= i < |a| && a[i].item == o { assert (a + b)[i].item == o; }
      if i :| 0 <= i < |b| && b[i].item == o { assert (a + b)[|a| + i].item == o; }
    }
  }

  lemma DistinctConcat(a: seq<Slot>, b: seq<Slot>)
    requires DistinctItems(a) && DistinctItems(b) && forall o :: !(Holds(a, o) && Holds(b, o))
    ensures DistinctItems(a + b)
  {
    forall i, j | 0 <= i < |a| && 0 <= j < |b| ensures a[i].item != b[j].item {
      assert Holds(a, a[i].item) && Holds(b, b[j].item);
    }
  }

  lemma HoldsSlots(items: seq<SchemaObject>, parent: Option<nat>)
    ensures forall o :: Holds(Slots(items, parent), o) <==> o in items
    ensures Distinct(items) ==> DistinctItems(Slots(items, parent))
  {
    forall o ensures Holds(Slots(items, parent), o) <==> o in items {
      if o in items {
        var i :| 0 <= i < |items| && items[i] == o;
        assert Slots(items, parent)[i].item == o;
      }
    }
  }

  lemma {:induction false} FilterDistinct(p: SchemaObject -> bool, s: seq<SchemaObject>)
    requires Distinct(s)
    ensures Distinct(Filter(p, s))
  {
    if s != [] {
      FilterDistinct(p, s[1..]);
      FilterMembers(p, s[1..]);
      assert forall i :: 0 <= i < |s[1..]| ==> s[1..][i] == s[i + 1];
    }
  }

  lemma ColumnsForMembers(objects: seq<SchemaObject>, parents: map<ObjectId, nat>, rel: nat)
    ensures forall o :: o in ColumnsFor(objects, parents, rel) <==> o in objects && ColumnFor(parents, rel, o)
    ensures Distinct(objects) ==> Distinct(ColumnsFor(objects, parents, rel))
    ensures Sorted(OrdinalLe, ColumnsFor(objects, parents, rel))
    ensures multiset(ColumnsFor(objects, parents, rel)) == multiset(ColumnBucket(objects, parents, rel))
  {
    var p := o => ColumnFor(parents, rel, o);
    var bucket := ColumnBucket(objects, parents, rel);
    FilterMembers(p, objects);
    SortMembers(OrdinalLe, bucket);
    SortPermutes(OrdinalLe, bucket);
    OrdinalOrder();
    SortSorts(OrdinalLe, bucket);
    if Distinct(objects) {
      FilterDistinct(p, objects);
      PermutationDistinct(bucket, Sort(OrdinalLe, bucket));
    }
  }

  lemma OrdinalOrder()
    ensures TotalPreorder(OrdinalLe)
  {
  }

  lemma {:induction false} ColumnSegmentHolds(objects: seq<SchemaObject>, parents: map<ObjectId, nat>, n: nat)
    requires Distinct(objects)
    ensures DistinctItems(ColumnSegment(objects, parents, n))
    ensures forall o :: Holds(ColumnSegment(objects, parents, n), o) <==>
              o in objects && o.Column? && o.parent in parents && parents[o.parent] < n
  {
    if n == 0 {
      assert ColumnSegment(objects, parents, n) == [];
    } else {
      var before, now := ColumnSegment(objects, parents, n - 1), Slots(ColumnsFor(objects, parents, n - 1), Some(n - 1));
      ColumnSegmentHolds(objects, parents, n - 1);
      BucketHolds(objects, parents, n - 1);
      SegmentStep(objects, parents, n - 1);
      assert forall o :: !(Holds(before, o) && Holds(now, o));
      HoldsBoth(before, now);
    }
  }

  lemma HoldsBoth(a: seq<Slot>, b: seq<Slot>)
    requires DistinctItems(a) && DistinctItems(b) && forall o :: !(Holds(a, o) && Holds(b, o))
    ensures DistinctItems(a + b) && forall o :: Holds(a + b, o) <==> Holds(a, o) || Holds(b, o)
  {
    HoldsConcat(a, b);
    DistinctConcat(a, b);
  }

  lemma BucketHolds(objects: seq<SchemaObject>, parents: map<ObjectId, nat>, rel: nat)
    requires Distinct(objects)
    ensures DistinctItems(Slots(ColumnsFor(objects, parents, rel), Some(rel)))
    ensures forall o :: Holds(Slots(ColumnsFor(objects, parents, rel), Some(rel)), o) <==> o in objects && ColumnFor(parents, rel, o)
  {
    ColumnsForMembers(objects, parents, rel);
    HoldsSlots(ColumnsFor(objects, parents, rel), Some(rel));
  }

  lemma {:induction false} IndexSegmentHolds(objects: seq<SchemaObject>, parents: map<ObjectId, nat>, n: nat)
    requires Distinct(objects)
    ensures DistinctItems(IndexSegment(objects, parents, n))
    ensures forall o :: Holds(IndexSegment(objects, parents, n), o) <==>
              o in objects && o.Index? && o.parent in parents && parents[o.parent] < n
  {
    if n > 0 {
      var p := o => IndexFor(parents, n - 1, o);
      var before, now := IndexSegment(objects, parents, n - 1), IndexesFor(objects, parents, n - 1);
      IndexSegmentHolds(objects, parents, n - 1);
      FilterMembers(p, objects);
      FilterDistinct(p, objects);
      HoldsSlots(now, Some(n - 1));
      HoldsConcat(before, Slots(now, Some(n - 1)));
      DistinctConcat(before, Slots(now, Some(n - 1)));
    }
  }

  /** What has a place in the arena: relations, functions, and the columns and indexes of known relations. */
  predicate Placeable(objects: seq<SchemaObject>, o: SchemaObject) {
    o in objects && (IsRelation(o) || IsFunction(o) ||
                     ((o.Column? || o.Index?) && exists r :: r in objects && IsRelation(r) && r.id == o.parent))
  }

  lemma HeadsHold(objects: seq<SchemaObject>)
    requires Distinct(objects)
    ensures DistinctItems(Heads(objects))
    ensures forall o :: Holds(Heads(objects), o) <==> o in objects && (IsRelation(o) || IsFunction(o))
  {
    var rels, funs := Relations(objects), Functions(objects);
    FilterMembers(IsRelation, objects);
    FilterMembers(IsFunction, objects);
    FilterDistinct(IsRelation, objects);
    FilterDistinct(IsFunction, objects);
    HoldsSlots(rels, None);
    HoldsSlots(funs, None);
    HoldsConcat(Slots(rels, None), Slots(funs, None));
    DistinctConcat(Slots(rels, None), Slots(funs, None));
  }

  /** The arena holds exactly the placeable objects, each once. */
  lemma ArenaHolds(objects: seq<SchemaObject>)
    requires Distinct(objects)
    ensures DistinctItems(Arena(objects))
    ensures forall o :: Holds(Arena(objects), o) <==> Placeable(objects, o)
  {
    var rels := Relations(objects);
    var parents, n := IndexOf(rels), |rels|;
    var heads, cols, ixs := Heads(objects), ColumnSegment(objects, parents, n), IndexSegment(objects, parents, n);
    HeadsHold(objects);
    ColumnSegmentHolds(objects, parents, n);
    IndexSegmentHolds(objects, parents, n);
    HoldsConcat(heads, cols);
    DistinctConcat(heads, cols);
    HoldsConcat(heads + cols, ixs);
    DistinctConcat(heads + cols, ixs);
    IndexOfBounds(rels);
    FilterMembers(IsRelation, objects);
    forall id ensures id in parents <==> exists r :: r in objects && IsRelation(r) && r.id == id {
      if id in parents { assert rels[parents[id]] in rels; }
      if r :| r in objects && IsRelation(r) && r.id == id {
        var i :| 0 <= i < |rels| && rels[i] == r;
      }
    }
  }

  lemma UniqueIdsDistinct(objects: seq<SchemaObject>)
    requires UniqueIds(objects)
    ensures Distinct(objects)
    ensures forall a, b :: a in objects && b in objects && a.id == b.id ==> a == b
  {
    forall a, b | a in objects && b in objects && a.id == b.id ensures a == b {
      var i :| 0 <= i < |objects| && objects[i] == a;
      var j :| 0 <= j < |objects| && objects[j] == b;
    }
  }

  lemma {:induction false} SlotIndexSize(arena: seq<Slot>)
    requires forall i, j :: 0 <= i < j < |arena| ==> arena[i].item.id != arena[j].item.id
    ensures |SlotIndex(arena)| == |arena|
  {
    if arena != [] {
      var front := arena[..|arena| - 1];
      SlotIndexSize(front);
      SlotIndexExact(front);
      assert arena[|arena| - 1].item.id !in SlotIndex(front);
    }
  }

  /** `by_id` and the arena are inverse to each other. */
  lemma ByIdBijective(c: Catalog, fold: Folding, objects: seq<SchemaObject>)
    requires Built(c, fold, objects) && UniqueIds(objects)
    ensures forall i :: 0 <= i < |c.arena| ==> c.arena[i].item.id in c.byId && c.byId[c.arena[i].item.id] == i
    ensures forall id :: id in c.byId ==> c.byId[id] < |c.arena| && c.arena[c.byId[id]].item.id == id
    ensures |c.byId| == |c.arena|
  {
    IdsInvert(objects, c.arena);
  }

  lemma IdsInvert(objects: seq<SchemaObject>, arena: seq<Slot>)
    requires arena == Arena(objects) && UniqueIds(objects)
    ensures forall i :: 0 <= i < |arena| ==> arena[i].item.id in SlotIndex(arena) && SlotIndex(arena)[arena[i].item.id] == i
    ensures forall id :: id in SlotIndex(arena) ==> SlotIndex(arena)[id] < |arena| && arena[SlotIndex(arena)[id]].item.id == id
    ensures |SlotIndex(arena)| == |arena|
  {
    SlotIndexExact(arena);
    ArenaIdsDistinct(objects);
    SlotIndexSize(arena);
  }

  lemma ArenaIdsDistinct(objects: seq<SchemaObject>)
    requires UniqueIds(objects)
    ensures forall i, j :: 0 <= i < j < |Arena(objects)| ==> Arena(objects)[i].item.id != Arena(objects)[j].item.id
  {
    UniqueIdsDistinct(objects);
    ArenaHolds(objects);
    var arena := Arena(objects);
    forall i, j | 0 <= i < j < |arena| ensures arena[i].item.id != arena[j].item.id {
      assert Holds(arena, arena[i].item) && Holds(arena, arena[j].item);
    }
  }

  // --- columns ---

  lemma BuiltRange(c: Catalog, fold: Folding, objects: seq<SchemaObject>, r: nat)
    requires Built(c, fold, objects) && r < c.relations
    ensures c.relations == |Relations(objects)| == |c.columnsOf|
    ensures c.columnsOf[r] == RangeFrom(|Heads(objects)|, objects, IndexOf(Relations(objects)), r)
  {
  }

  /** The ranges tile the column segment, and each holds exactly its relation's columns in ordinal order. */
  lemma ColumnsTile(c: Catalog, fold: Folding, objects: seq<SchemaObject>, r: nat)
    requires Built(c, fold, objects) && UniqueIds(objects) && r < c.relations
    ensures c.relations == |Relations(objects)| == |c.columnsOf|
    ensures c.columnsOf[r].start == (if r == 0 then |Heads(objects)| else c.columnsOf[r - 1].end)
    ensures c.columnsOf[r].start <= c.columnsOf[r].end <= |c.arena|
    ensures c.arena[c.columnsOf[r].start..c.columnsOf[r].end] == Slots(OwnColumns(objects, r), Some(r))
  {
    BuiltRange(c, fold, objects, r);
    if r > 0 { BuiltRange(c, fold, objects, r - 1); }
    RangeHolds(objects, IndexOf(Relations(objects)), Heads(objects), IndexSegment(objects, IndexOf(Relations(objects)), c.relations), r, c.relations);
  }

  /** Columns of one ordinal keep the snapshot's order. */
  lemma TiesKeepOrder(objects: seq<SchemaObject>, parents: map<ObjectId, nat>, rel: nat, ordinal: nat)
    ensures
      var tied := (o: SchemaObject) => o.Column? && o.ordinal == ordinal;
      Filter(tied, ColumnsFor(objects, parents, rel)) == Filter(tied, ColumnBucket(objects, parents, rel))
  {
    SortStable(OrdinalLe, (o: SchemaObject) => o.Column? && o.ordinal == ordinal, ColumnBucket(objects, parents, rel));
  }

  function OwnColumns(objects: seq<SchemaObject>, r: nat): seq<SchemaObject> {
    ColumnsFor(objects, IndexOf(Relations(objects)), r)
  }

  /** The columns of relation `r` are all columns that name it as their parent, each once, in ordinal order. */
  lemma OwnColumnsExact(objects: seq<SchemaObject>, r: nat)
    requires UniqueIds(objects) && r < |Relations(objects)|
    ensures forall o :: o in OwnColumns(objects, r) <==> o in objects && o.Column? && o.parent == Relations(objects)[r].id
    ensures Sorted(OrdinalLe, OwnColumns(objects, r)) && Distinct(OwnColumns(objects, r))
  {
    UniqueIdsDistinct(objects);
    ColumnsForMembers(objects, IndexOf(Relations(objects)), r);
    IndexOfBounds(Relations(objects));
    RelationIndex(objects, r);
  }

  lemma RangeHolds(objects: seq<SchemaObject>, parents: map<ObjectId, nat>, heads: seq<Slot>, tail: seq<Slot>, r: nat, n: nat)
    requires r < n
    ensures var arena, range := heads + ColumnSegment(objects, parents, n) + tail, RangeFrom(|heads|, objects, parents, r);
            && range.start <= range.end <= |arena|
            && arena[range.start..range.end] == Slots(ColumnsFor(objects, parents, r), Some(r))
            && range.start == |heads| + |ColumnSegment(objects, parents, r)|
  {
    var before, own := ColumnSegment(objects, parents, r), Slots(ColumnsFor(objects, parents, r), Some(r));
    SegmentPrefix(objects, parents, r + 1, n);
    SegmentStep(objects, parents, r);
    MiddleRange(heads, before, own, ColumnSegment(objects, parents, r + 1), ColumnSegment(objects, parents, n), tail,
                RangeFrom(|heads|, objects, parents, r));
  }

  lemma MiddleRange(a: seq<Slot>, b: seq<Slot>, m: seq<Slot>, upto: seq<Slot>, all: seq<Slot>, z: seq<Slot>, range: Range)
    requires upto == b + m && upto <= all && range == Range(|a| + |b|, |a| + |upto|)
    ensures range.start <= range.end <= |a + all + z| && (a + all + z)[range.start..range.end] == m && range.start == |a| + |b|
  {
    Middle(a, b, m, upto, all, z);
  }

  lemma SegmentStep(objects: seq<SchemaObject>, parents: map<ObjectId, nat>, r: nat)
    ensures ColumnSegment(objects, parents, r + 1)
         == ColumnSegment(objects, parents, r) + Slots(ColumnsFor(objects, parents, r), Some(r))
  {
  }

  lemma Middle(a: seq<Slot>, b: seq<Slot>, m: seq<Slot>, upto: seq<Slot>, all: seq<Slot>, z: seq<Slot>)
    requires upto == b + m && upto <= all
    ensures |a| + |b| <= |a| + |upto| <= |a + all + z|
    ensures (a + all + z)[|a| + |b|..|a| + |upto|] == m
  {
    assert forall k :: 0 <= k < |m| ==> (a + all + z)[|a| + |b| + k] == all[|b| + k] == upto[|b| + k] == m[k];
  }

  lemma {:induction false} SegmentPrefix(objects: seq<SchemaObject>, parents: map<ObjectId, nat>, k: nat, n: nat)
    requires k <= n
    ensures ColumnSegment(objects, parents, k) <= ColumnSegment(objects, parents, n)
    decreases n - k
  {
    if k < n { SegmentPrefix(objects, parents, k, n - 1); }
  }

  /** With unique ids, a relation's id leads to its own index. */
  lemma RelationIndex(objects: seq<SchemaObject>, r: nat)
    requires UniqueIds(objects) && r < |Relations(objects)|
    ensures forall id :: id in IndexOf(Relations(objects)) && IndexOf(Relations(objects))[id] == r <==> id == Relations(objects)[r].id
  {
    var rels := Relations(objects);
    IndexOfBounds(rels);
    FilterMembers(IsRelation, objects);
    UniqueIdsDistinct(objects);
    FilterDistinct(IsRelation, objects);
    assert rels[r] in objects;
    var k := IndexOf(rels)[rels[r].id];
    assert rels[k] in rels && rels[k].id == rels[r].id;
    assert rels[k] in objects;
  }

  // --- lookups ---

  /** `relation_exact`. */
  method RelationExact(c: Catalog, schema: string, name: string) returns (r: Option<nat>)
    ensures r == if (schema, name) in c.byName then Some(c.byName[(schema, name)]) else None
  {
    r := if (schema, name) in c.byName then Some(c.byName[(schema, name)]) else None;
  }

  ghost predicate UniqueNames(rels: seq<SchemaObject>)
    requires AllRelations(rels)
  {
    forall i, j :: 0 <= i < j < |rels| ==> RelationKey(rels[i]) != RelationKey(rels[j])
  }

  /** The exact lookup finds index `i` exactly when a linear scan does. */
  lemma ExactIsScan(c: Catalog, fold: Folding, objects: seq<SchemaObject>, k: (string, string), i: nat)
    requires Built(c, fold, objects) && AllRelations(Relations(objects)) && UniqueNames(Relations(objects))
    ensures k in c.byName && c.byName[k] == i <==> i < |Relations(objects)| && RelationKey(Relations(objects)[i]) == k
    ensures i < c.relations ==> i < |c.arena| && c.arena[i] == Slot(Relations(objects)[i], None)
  {
  }

  /** `relation_folded`: every relation whose folded pair matches, ascending. */
  method RelationFolded(c: Catalog, fold: Folding, ghost objects: seq<SchemaObject>, schema: string, name: string)
    returns (r: seq<nat>)
    requires Built(c, fold, objects)
    ensures r == FoldMatches(fold, Relations(objects), FoldKey(fold, (schema, name)))
  {
    var k := FoldKey(fold, (schema, name));
    r := if k in c.byFolded then c.byFolded[k] else [];
  }

  /** Linear scan: the relations of one folded schema with their folded names, by arena index. */
  function SchemaMatches(fold: Folding, rels: seq<SchemaObject>, schema: string): (m: seq<(string, nat)>)
    requires AllRelations(rels)
    ensures forall x :: x in m <==> 0 <= x.1 < |rels| && FoldKey(fold, RelationKey(rels[x.1])) == (fold(schema), x.0)
    ensures Distinct(m)
  {
    if rels == [] then []
    else
      var n := |rels| - 1;
      assert rels[n] in rels;
      var front := SchemaMatches(fold, rels[..n], schema);
      if fold(rels[n].schema) == fold(schema) then front + [(fold(rels[n].name), n)] else front
  }

  function Indices(m: seq<(string, nat)>): (s: seq<nat>)
    ensures |s| == |m| && forall i :: 0 <= i < |m| ==> s[i] == m[i].1
  {
    seq(|m|, i requires 0 <= i < |m| => m[i].1)
  }

  lemma NameOrder()
    ensures TotalPreorder(NameLe)
    ensures forall a, b :: NameLe(a, b) && NameLe(b, a) ==> a == b
  {
    StrOrder();
    forall a, b: (string, nat), d | NameLe(a, b) && NameLe(b, d) ensures NameLe(a, d) {
      assert StrLe(a.0, b.0) && StrLe(b.0, d.0) && StrLe(a.0, d.0);
    }
  }

  function Paired(name: string, indices: seq<nat>): (s: seq<(string, nat)>)
    ensures |s| == |indices| && forall i :: 0 <= i < |s| ==> s[i] == (name, indices[i])
  {
    seq(|indices|, i requires 0 <= i < |indices| => (name, indices[i]))
  }

  lemma PairedMembers(name: string, indices: seq<nat>)
    ensures forall x :: x in Paired(name, indices) <==> x.0 == name && x.1 in indices
  {
    var more := Paired(name, indices);
    forall x ensures x in more <==> x.0 == name && x.1 in indices {
      if x.0 == name && x.1 in indices {
        var i :| 0 <= i < |more| && indices[i] == x.1;
        assert more[i] == x;
      }
    }
  }

  /** `relations_in_schema`: whatever order the map yields its keys in, the sorted linear scan. */
  method RelationsInSchema(c: Catalog, fold: Folding, ghost objects: seq<SchemaObject>, schema: string)
    returns (r: seq<nat>)
    requires Built(c, fold, objects) && AllRelations(Relations(objects))
    ensures r == Indices(Sort(NameLe, SchemaMatches(fold, Relations(objects), schema)))
  {
    var found := CollectSchema(c, fold, objects, fold(schema));
    FoundIsScan(c, fold, objects, schema, found);
    r := Indices(Sort(NameLe, found));
  }

  /** The filter over the folded map. */
  method CollectSchema(c: Catalog, fold: Folding, ghost objects: seq<SchemaObject>, folded: string) returns (found: seq<(string, nat)>)
    requires Built(c, fold, objects) && AllRelations(Relations(objects))
    ensures FoundIn(c, folded, c.byFolded.Keys, found)
  {
    found := [];
    var left := c.byFolded.Keys;
    while left != {}
      invariant left <= c.byFolded.Keys && FoundIn(c, folded, c.byFolded.Keys - left, found)
      decreases left
    {
      var k :| k in left;
      assert c.byFolded.Keys - (left - {k}) == c.byFolded.Keys - left + {k};
      if k.0 == folded {
        FoldedDistinct(c, fold, objects, k);
        FoundStep(c, folded, c.byFolded.Keys - left, found, k);
        found := found + Paired(k.1, c.byFolded[k]);
      }
      left := left - {k};
    }
    assert c.byFolded.Keys - left == c.byFolded.Keys;
  }

  /** What the entries of `keys` contribute for one folded schema name, each pair once. */
  ghost predicate FoundIn(c: Catalog, folded: string, keys: set<(string, string)>, found: seq<(string, nat)>) {
    && keys <= c.byFolded.Keys && Distinct(found)
    && forall x :: x in found <==> (folded, x.0) in keys && x.1 in c.byFolded[(folded, x.0)]
  }

  lemma FoundStep(c: Catalog, folded: string, keys: set<(string, string)>, found: seq<(string, nat)>, k: (string, string))
    requires FoundIn(c, folded, keys, found) && k in c.byFolded && k !in keys && k.0 == folded
    requires Distinct(Paired(k.1, c.byFolded[k]))
    ensures FoundIn(c, folded, keys + {k}, found + Paired(k.1, c.byFolded[k]))
  {
    var more := Paired(k.1, c.byFolded[k]);
    PairedMembers(k.1, c.byFolded[k]);
    forall x ensures x in found + more <==> (folded, x.0) in keys + {k} && x.1 in c.byFolded[(folded, x.0)] {
      assert x in found + more <==> x in found || x in more;
      assert (folded, x.0) == k <==> x.0 == k.1;
    }
    forall x | x in found ensures x !in more {}
    BothDistinct(found, more);
  }

  lemma BothDistinct(a: seq<(string, nat)>, b: seq<(string, nat)>)
    requires Distinct(a) && Distinct(b) && forall x :: x in a ==> x !in b
    ensures Distinct(a + b)
  {
    var both := a + b;
    forall i, j | 0 <= i < j < |both| ensures both[i] != both[j] {
      if i < |a| <= j { assert a[i] in a && b[j - |a|] in b; }
    }
  }

  lemma FoldedDistinct(c: Catalog, fold: Folding, objects: seq<SchemaObject>, k: (string, string))
    requires Built(c, fold, objects) && k in c.byFolded
    ensures Distinct(c.byFolded[k]) && Distinct(Paired(k.1, c.byFolded[k]))
  {
    assert Ascending(FoldMatches(fold, Relations(objects), k));
  }

  lemma FoundIsScan(c: Catalog, fold: Folding, objects: seq<SchemaObject>, schema: string, found: seq<(string, nat)>)
    requires Built(c, fold, objects) && AllRelations(Relations(objects)) && FoundIn(c, fold(schema), c.byFolded.Keys, found)
    ensures Sort(NameLe, found) == Sort(NameLe, SchemaMatches(fold, Relations(objects), schema))
  {
    var rels := Relations(objects);
    var scan := SchemaMatches(fold, rels, schema);
    forall x ensures x in found <==> x in scan {
      var k := (fold(schema), x.0);
      if x in scan {
        assert x.1 in FoldMatches(fold, rels, k);
      }
    }
    DistinctSameMultiset(found, scan);
    NameOrder();
    SortSorts(NameLe, found);
    SortSorts(NameLe, scan);
    SortPermutes(NameLe, found);
    SortPermutes(NameLe, scan);
    SortedUnique(NameLe, Sort(NameLe, found), Sort(NameLe, scan));
  }

  lemma DistinctSameMultiset(a: seq<(string, nat)>, b: seq<(string, nat)>)
    requires Distinct(a) && Distinct(b) && forall x :: x in a <==> x in b
    ensures multiset(a) == multiset(b)
  {
    DistinctCounts(a);
    DistinctCounts(b);
    forall x ensures multiset(a)[x] == multiset(b)[x] {
      assert x in a <==> x in multiset(a);
      assert x in b <==> x in multiset(b);
    }
  }

  /** The ranges lie in the arena, and a slot is a column of a relation exactly when it stands in its range. */
  ghost predicate Indexed(c: Catalog) {
    && (forall r :: 0 <= r < |c.columnsOf| ==> c.columnsOf[r].start <= c.columnsOf[r].end <= |c.arena|)
    && (forall i: nat, rel: nat :: i < |c.arena| ==> InItsRange(c, i, rel))
  }

  predicate InItsRange(c: Catalog, i: nat, rel: nat)
    requires i < |c.arena|
  {
    IsColumnOf(c.arena[i], rel) <==> rel < |c.columnsOf| && c.columnsOf[rel].start <= i < c.columnsOf[rel].end
  }

  lemma BuiltIsIndexed(c: Catalog, fold: Folding, objects: seq<SchemaObject>)
    requires Built(c, fold, objects) && UniqueIds(objects)
    ensures |c.columnsOf| == c.relations && Indexed(c)
  {
    forall r | 0 <= r < |c.columnsOf| ensures c.columnsOf[r].start <= c.columnsOf[r].end <= |c.arena| {
      ColumnsTile(c, fold, objects, r);
    }
    forall i: nat, rel: nat | i < |c.arena| ensures InItsRange(c, i, rel) {
      ColumnSlot(c, fold, objects, i, rel);
    }
  }

  /** The range of a relation; empty for anything else. */
  function RangeOf(c: Catalog, rel: nat): Range {
    if rel < |c.columnsOf| then c.columnsOf[rel] else Range(0, 0)
  }

  lemma RelationRange(c: Catalog, rel: nat)
    requires Indexed(c)
    ensures forall i :: 0 <= i < |c.arena| ==> (IsColumnOf(c.arena[i], rel) <==> RangeOf(c, rel).start <= i < RangeOf(c, rel).end)
  {
    forall i | 0 <= i < |c.arena|
      ensures IsColumnOf(c.arena[i], rel) <==> RangeOf(c, rel).start <= i < RangeOf(c, rel).end
    {
      assert InItsRange(c, i, rel);
    }
  }

  /** `columns_of`: the slice of one relation. */
  method ColumnsOf(c: Catalog, rel: nat) returns (s: seq<Slot>)
    requires Indexed(c)
    ensures s == c.arena[RangeOf(c, rel).start..RangeOf(c, rel).end]
  {
    if rel < |c.columnsOf| && c.columnsOf[rel].start < c.columnsOf[rel].end {
      s := c.arena[c.columnsOf[rel].start..c.columnsOf[rel].end];
    } else {
      s := [];
    }
  }

  /** `column_folded`: exactly the columns of the relation whose folded name matches, ascending. */
  method ColumnFolded(c: Catalog, fold: Folding, rel: nat, name: string) returns (r: seq<nat>)
    requires Indexed(c)
    ensures Ascending(r)
    ensures forall i :: i in r <==> 0 <= i < |c.arena| && IsColumnOf(c.arena[i], rel) && fold(c.arena[i].item.name) == fold(name)
  {
    var columns := ColumnsOf(c, rel);
    r := FoldedPositions(fold, columns, RangeOf(c, rel).start, fold(name));
    PositionsAreScan(c, fold, rel, name, r);
  }

  lemma PositionsAreScan(c: Catalog, fold: Folding, rel: nat, name: string, r: seq<nat>)
    requires Indexed(c)
    requires
      var g := RangeOf(c, rel);
      forall i :: i in r <==> g.start <= i < g.end && fold(c.arena[g.start..g.end][i - g.start].item.name) == fold(name)
    ensures forall i :: i in r <==> 0 <= i < |c.arena| && IsColumnOf(c.arena[i], rel) && fold(c.arena[i].item.name) == fold(name)
  {
    var g := RangeOf(c, rel);
    RelationRange(c, rel);
    assert forall i :: g.start <= i < g.end ==> c.arena[g.start..g.end][i - g.start] == c.arena[i];
  }

  /** `column_exact`: the first column of the relation with exactly that name. */
  method ColumnExact(c: Catalog, rel: nat, name: string) returns (r: Option<nat>)
    requires Indexed(c)
    ensures r.Some? ==> r.value < |c.arena| && IsColumnOf(c.arena[r.value], rel) && c.arena[r.value].item.name == name
    ensures forall i :: 0 <= i < |c.arena| && IsColumnOf(c.arena[i], rel) && c.arena[i].item.name == name ==>
              r.Some? && r.value <= i
  {
    var columns := ColumnsOf(c, rel);
    ghost var g := RangeOf(c, rel);
    RelationRange(c, rel);
    for p := 0 to |columns|
      invariant forall i :: g.start <= i < g.start + p ==> c.arena[i].item.name != name
    {
      if columns[p].item.name == name { return Some(c.columnsOf[rel].start + p); }
    }
    r := None;
  }

  predicate IsColumnOf(s: Slot, rel: nat) { s.item.Column? && s.parent == Some(rel) }

  method FoldedPositions(fold: Folding, columns: seq<Slot>, start: nat, folded: string) returns (r: seq<nat>)
    ensures Ascending(r)
    ensures forall i :: i in r <==> start <= i < start + |columns| && fold(columns[i - start].item.name) == folded
  {
    r := [];
    for p := 0 to |columns|
      invariant Ascending(r)
      invariant forall i :: i in r <==> start <= i < start + p && fold(columns[i - start].item.name) == folded
    {
      if fold(columns[p].item.name) == folded {
        assert forall i :: 0 <= i < |r| ==> r[i] in r;
        r := r + [start + p];
      }
    }
  }

  lemma LastBucket(objects: seq<SchemaObject>, parents: map<ObjectId, nat>, n: nat, j: nat)
    requires n > 0 && |ColumnSegment(objects, parents, n - 1)| <= j < |ColumnSegment(objects, parents, n)|
    ensures ColumnSegment(objects, parents, n)[j].item.Column? && ColumnSegment(objects, parents, n)[j].parent == Some(n - 1)
  {
    SegmentStep(objects, parents, n - 1);
    var own, k := ColumnsFor(objects, parents, n - 1), j - |ColumnSegment(objects, parents, n - 1)|;
    OwnIsColumn(objects, parents, n - 1, k);
    assert ColumnSegment(objects, parents, n)[j] == Slots(own, Some(n - 1))[k];
  }

  lemma OwnIsColumn(objects: seq<SchemaObject>, parents: map<ObjectId, nat>, rel: nat, k: nat)
    requires k < |ColumnsFor(objects, parents, rel)|
    ensures ColumnsFor(objects, parents, rel)[k].Column?
  {
    ColumnsForMembers(objects, parents, rel);
    assert ColumnsFor(objects, parents, rel)[k] in ColumnsFor(objects, parents, rel);
  }

  /** In the column segment, a slot's parent is the relation in whose range it stands. */
  lemma {:induction false} SegmentSlots(objects: seq<SchemaObject>, parents: map<ObjectId, nat>, n: nat, j: nat) returns (p: nat)
    requires j < |ColumnSegment(objects, parents, n)|
    ensures p < n && ColumnSegment(objects, parents, n)[j].item.Column? && ColumnSegment(objects, parents, n)[j].parent == Some(p)
    ensures |ColumnSegment(objects, parents, p)| <= j < |ColumnSegment(objects, parents, p + 1)|
  {
    if j < |ColumnSegment(objects, parents, n - 1)| {
      p := SegmentSlots(objects, parents, n - 1, j);
    } else {
      LastBucket(objects, parents, n, j);
      p := n - 1;
    }
  }

  lemma {:induction false} IndexSlots(objects: seq<SchemaObject>, parents: map<ObjectId, nat>, n: nat, j: nat)
    requires j < |IndexSegment(objects, parents, n)|
    ensures IndexSegment(objects, parents, n)[j].item.Index?
  {
    var before := IndexSegment(objects, parents, n - 1);
    if j < |before| {
      IndexSlots(objects, parents, n - 1, j);
    } else {
      FilterMembers(o => IndexFor(parents, n - 1, o), objects);
      assert IndexesFor(objects, parents, n - 1)[j - |before|] in IndexesFor(objects, parents, n - 1);
    }
  }

  lemma InRange(objects: seq<SchemaObject>, parents: map<ObjectId, nat>, n: nat, j: nat, rel: nat)
    requires j < |ColumnSegment(objects, parents, n)|
    ensures IsColumnOf(ColumnSegment(objects, parents, n)[j], rel) <==>
            rel < n && |ColumnSegment(objects, parents, rel)| <= j < |ColumnSegment(objects, parents, rel + 1)|
  {
    var p := SegmentSlots(objects, parents, n, j);
    if p < rel { SegmentPrefix(objects, parents, p + 1, rel); }
    if rel < p { SegmentPrefix(objects, parents, rel + 1, p); }
  }

  lemma SlotInRange(objects: seq<SchemaObject>, i: nat, rel: nat)
    requires i < |Arena(objects)|
    ensures var parents, n := IndexOf(Relations(objects)), |Relations(objects)|;
            IsColumnOf(Arena(objects)[i], rel) <==>
            rel < n && |Heads(objects)| + |ColumnSegment(objects, parents, rel)| <= i < |Heads(objects)| + |ColumnSegment(objects, parents, rel + 1)|
  {
    var parents, n := IndexOf(Relations(objects)), |Relations(objects)|;
    var heads, cols, tail := Heads(objects), ColumnSegment(objects, parents, n), IndexSegment(objects, parents, n);
    ThreeSegments(heads, cols, tail, i);
    if i < |heads| {
      HeadIsNoColumn(objects, i);
    } else if i < |heads| + |cols| {
      InRange(objects, parents, n, i - |heads|, rel);
    } else {
      BehindColumns(objects, parents, n, i - |heads| - |cols|, rel);
    }
  }

  lemma BehindColumns(objects: seq<SchemaObject>, parents: map<ObjectId, nat>, n: nat, j: nat, rel: nat)
    requires j < |IndexSegment(objects, parents, n)|
    ensures IndexSegment(objects, parents, n)[j].item.Index?
    ensures rel < n ==> |ColumnSegment(objects, parents, rel + 1)| <= |ColumnSegment(objects, parents, n)|
  {
    IndexSlots(objects, parents, n, j);
    if rel < n { SegmentPrefix(objects, parents, rel + 1, n); }
  }

  lemma ThreeSegments(a: seq<Slot>, b: seq<Slot>, c: seq<Slot>, i: nat)
    requires i < |a + b + c|
    ensures (a + b + c)[i] == if i < |a| then a[i] else if i < |a| + |b| then b[i - |a|] else c[i - |a| - |b|]
  {
  }

  lemma HeadIsNoColumn(objects: seq<SchemaObject>, i: nat)
    requires i < |Heads(objects)|
    ensures !Heads(objects)[i].item.Column?
  {
    RelationsAreRelations(objects);
    if i < |Relations(objects)| {
      assert Heads(objects)[i].item == Relations(objects)[i] && Relations(objects)[i] in Relations(objects);
    } else {
      var j := i - |Relations(objects)|;
      assert Heads(objects)[i].item == Functions(objects)[j] && Functions(objects)[j] in Functions(objects);
    }
  }

  /** A slot is a column of relation `rel` exactly when it stands in that relation's range. */
  lemma ColumnSlot(c: Catalog, fold: Folding, objects: seq<SchemaObject>, i: nat, rel: nat)
    requires Built(c, fold, objects) && i < |c.arena|
    ensures InItsRange(c, i, rel)
  {
    SlotInRange(objects, i, rel);
    if rel < c.relations { BuiltRange(c, fold, objects, rel); }
  }
}
