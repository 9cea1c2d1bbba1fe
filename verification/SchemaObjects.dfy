/** Schema objects, their identities, and the mapping from driver entries to objects
    (`tempr_domain/src/schema.rs`, `tempr_domain/src/ids.rs`, `objects_from_entries`). */
module SchemaObjects {
  import opened Wrappers

  type ConnectionId = nat

  datatype Kind = TableKind | ViewKind | ColumnKind | IndexKind | FunctionKind | DatabaseKind {
    function Discriminant(): nat {
      match this
      case TableKind => 0
      case ViewKind => 1
      case ColumnKind => 2
      case IndexKind => 3
      case FunctionKind => 4
      case DatabaseKind => 5
    }
  }

  /** `SchemaObjectId::derived` (UUIDv5, section 5.5 of RFC 9562) as an injective function. */
  datatype ObjectId = Derived(connection: ConnectionId, kind: Kind, native: nat)

  datatype SchemaObject =
    | Table(id: ObjectId, schema: string, name: string, estimatedRows: Option<nat>)
    | View(id: ObjectId, schema: string, name: string, definition: string)
    | Column(id: ObjectId, parent: ObjectId, name: string, dataType: string, nullable: bool, ordinal: nat,
             default: Option<string>)
    | Index(id: ObjectId, parent: ObjectId, name: string, columns: seq<string>, unique: bool, indexType: string)
    | Function(id: ObjectId, schema: string, name: string, parameters: seq<(string, string)>, returnType: string,
               language: string)
    | Database(id: ObjectId, name: string)

  /** One row of a driver's introspection. */
  datatype Entry =
    | DatabaseEntry(native: nat, name: string)
    | TableEntry(native: nat, schema: string, name: string, estimatedRows: Option<nat>)
    | ViewEntry(native: nat, schema: string, name: string, definition: string)
    | ColumnEntry(native: nat, schema: string, relation: string, name: string, dataType: string, nullable: bool,
                  ordinal: nat, default: Option<string>)
    | IndexEntry(native: nat, schema: string, relation: string, name: string, columns: seq<string>, unique: bool,
                 indexType: string)
    | FunctionEntry(native: nat, schema: string, name: string, parameters: seq<(string, string)>,
                    returnType: string, language: string)
  {
    predicate IsRelation() { TableEntry? || ViewEntry? }

    function KindOf(): Kind {
      match this
      case DatabaseEntry(_, _) => DatabaseKind
      case TableEntry(_, _, _, _) => TableKind
      case ViewEntry(_, _, _, _) => ViewKind
      case ColumnEntry(_, _, _, _, _, _, _, _) => ColumnKind
      case IndexEntry(_, _, _, _, _, _, _) => IndexKind
      case FunctionEntry(_, _, _, _, _, _) => FunctionKind
    }

    function IdOn(c: ConnectionId): ObjectId { Derived(c, KindOf(), native) }
  }

  type Parents = map<(string, string), ObjectId>

  // --- objects_from_entries ---

  /** First pass: databases and relations. */
  function HeadOf(c: ConnectionId, e: Entry): Option<SchemaObject> {
    match e
    case DatabaseEntry(_, name) => Some(Database(e.IdOn(c), name))
    case TableEntry(_, schema, name, rows) => Some(Table(e.IdOn(c), schema, name, rows))
    case ViewEntry(_, schema, name, definition) => Some(View(e.IdOn(c), schema, name, definition))
    case _ => None
  }

  /** Second pass: functions, and the columns and indexes whose relation is known. */
  function ChildOf(c: ConnectionId, parents: Parents, e: Entry): Option<SchemaObject> {
    match e
    case ColumnEntry(_, schema, relation, name, dataType, nullable, ordinal, default) =>
      if (schema, relation) in parents
      then Some(Column(e.IdOn(c), parents[(schema, relation)], name, dataType, nullable, ordinal, default))
      else None
    case IndexEntry(_, schema, relation, name, columns, unique, indexType) =>
      if (schema, relation) in parents
      then Some(Index(e.IdOn(c), parents[(schema, relation)], name, columns, unique, indexType))
      else None
    case FunctionEntry(_, schema, name, parameters, returnType, language) =>
      Some(Function(e.IdOn(c), schema, name, parameters, returnType, language))
    case _ => None
  }

  /** What one entry becomes. */
  function ObjectOf(c: ConnectionId, parents: Parents, e: Entry): Option<SchemaObject> {
    if HeadOf(c, e).Some? then HeadOf(c, e) else ChildOf(c, parents, e)
  }

  method ObjectsFromEntries(c: ConnectionId, entries: seq<Entry>) returns (objects: seq<SchemaObject>)
    ensures objects == ObjectsFrom(c, entries)
  {
    var parents: Parents := map[];
    objects := [];
    for i := 0 to |entries|
      invariant parents == ParentsOf(c, entries[..i])
      invariant objects == Heads(c, entries[..i])
    {
      var e := entries[i];
      assert entries[..i + 1][..i] == entries[..i];
      if e.IsRelation() { parents := parents[(e.schema, e.name) := e.IdOn(c)]; }
      var head := HeadOf(c, e);
      if head.Some? { objects := objects + [head.value]; }
    }
    assert entries[..|entries|] == entries;
    ghost var heads := objects;
    for i := 0 to |entries|
      invariant objects == heads + Children(c, parents, entries[..i])
    {
      assert entries[..i + 1][..i] == entries[..i];
      var child := ChildOf(c, parents, entries[i]);
      if child.Some? { objects := objects + [child.value]; }
    }
  }

  function ObjectsFrom(c: ConnectionId, entries: seq<Entry>): seq<SchemaObject> {
    Heads(c, entries) + Children(c, ParentsOf(c, entries), entries)
  }

  function ParentsOf(c: ConnectionId, entries: seq<Entry>): Parents {
    if entries == [] then map[]
    else
      var e := entries[|entries| - 1];
      var before := ParentsOf(c, entries[..|entries| - 1]);
      if e.IsRelation() then before[(e.schema, e.name) := e.IdOn(c)] else before
  }

  function Heads(c: ConnectionId, entries: seq<Entry>): seq<SchemaObject> {
    if entries == [] then []
    else
      var o := HeadOf(c, entries[|entries| - 1]);
      Heads(c, entries[..|entries| - 1]) + (if o.Some? then [o.value] else [])
  }

  function Children(c: ConnectionId, parents: Parents, entries: seq<Entry>): seq<SchemaObject> {
    if entries == [] then []
    else
      var o := ChildOf(c, parents, entries[|entries| - 1]);
      Children(c, parents, entries[..|entries| - 1]) + (if o.Some? then [o.value] else [])
  }

  // --- which objects come out ---

  lemma {:induction false} ParentsExact(c: ConnectionId, entries: seq<Entry>)
    ensures forall k :: k in ParentsOf(c, entries) ==>
              exists e :: e in entries && e.IsRelation() && k == (e.schema, e.name) && ParentsOf(c, entries)[k] == e.IdOn(c)
    ensures forall e :: e in entries && e.IsRelation() ==> (e.schema, e.name) in ParentsOf(c, entries)
  {
    if entries != [] {
      var front, last := entries[..|entries| - 1], entries[|entries| - 1];
      assert entries == front + [last];
      ParentsExact(c, front);
      forall k | k in ParentsOf(c, entries)
        ensures exists e :: e in entries && e.IsRelation() && k == (e.schema, e.name) && ParentsOf(c, entries)[k] == e.IdOn(c)
      {
        if last.IsRelation() && k == (last.schema, last.name) {
          assert last in entries;
        } else {
          assert k in ParentsOf(c, front);
          var e :| e in front && e.IsRelation() && k == (e.schema, e.name) && ParentsOf(c, front)[k] == e.IdOn(c);
          assert e in entries;
        }
      }
    }
  }

  lemma {:induction false} HeadMembers(c: ConnectionId, entries: seq<Entry>)
    ensures forall o :: o in Heads(c, entries) <==> exists e :: e in entries && HeadOf(c, e) == Some(o)
  {
    if entries != [] {
      var front, last := entries[..|entries| - 1], entries[|entries| - 1];
      assert entries == front + [last];
      HeadMembers(c, front);
      assert forall e :: e in entries <==> e in front || e == last;
    }
  }

  lemma {:induction false} ChildMembers(c: ConnectionId, parents: Parents, entries: seq<Entry>)
    ensures forall o :: o in Children(c, parents, entries) <==> exists e :: e in entries && ChildOf(c, parents, e) == Some(o)
  {
    if entries != [] {
      var front, last := entries[..|entries| - 1], entries[|entries| - 1];
      assert entries == front + [last];
      ChildMembers(c, parents, front);
      assert forall e :: e in entries <==> e in front || e == last;
    }
  }

  /** The objects are exactly what the entries become, one by one. */
  lemma ObjectMembers(c: ConnectionId, entries: seq<Entry>)
    ensures forall o :: o in ObjectsFrom(c, entries) <==>
              exists e :: e in entries && ObjectOf(c, ParentsOf(c, entries), e) == Some(o)
  {
    var p := ParentsOf(c, entries);
    HeadMembers(c, entries);
    ChildMembers(c, p, entries);
    forall o ensures o in ObjectsFrom(c, entries) <==> exists e :: e in entries && ObjectOf(c, p, e) == Some(o) {
      if o in ObjectsFrom(c, entries) {
        if o in Heads(c, entries) {
          var e :| e in entries && HeadOf(c, e) == Some(o);
          assert ObjectOf(c, p, e) == Some(o);
        } else {
          var e :| e in entries && ChildOf(c, p, e) == Some(o);
          assert ObjectOf(c, p, e) == Some(o);
        }
      }
      if e :| e in entries && ObjectOf(c, p, e) == Some(o) {
        assert HeadOf(c, e) == Some(o) || ChildOf(c, p, e) == Some(o);
      }
    }
  }

  ghost predicate UniqueIds(objects: seq<SchemaObject>) {
    forall i, j :: 0 <= i < j < |objects| ==> objects[i].id != objects[j].id
  }

  ghost predicate UniqueEntryIds(c: ConnectionId, entries: seq<Entry>) {
    forall i, j :: 0 <= i < j < |entries| ==> entries[i].IdOn(c) != entries[j].IdOn(c)
  }

  lemma {:induction false} HeadsUnique(c: ConnectionId, entries: seq<Entry>)
    requires UniqueEntryIds(c, entries)
    ensures UniqueIds(Heads(c, entries))
  {
    if entries != [] {
      var front, last := entries[..|entries| - 1], entries[|entries| - 1];
      HeadsUnique(c, front);
      HeadMembers(c, front);
      forall o | o in Heads(c, front) ensures o.id != last.IdOn(c) {
        var e :| e in front && HeadOf(c, e) == Some(o);
        assert o.id == e.IdOn(c);
      }
    }
  }

  lemma {:induction false} ChildrenUnique(c: ConnectionId, parents: Parents, entries: seq<Entry>)
    requires UniqueEntryIds(c, entries)
    ensures UniqueIds(Children(c, parents, entries))
  {
    if entries != [] {
      var front, last := entries[..|entries| - 1], entries[|entries| - 1];
      ChildrenUnique(c, parents, front);
      ChildMembers(c, parents, front);
      forall o | o in Children(c, parents, front) ensures o.id != last.IdOn(c) {
        var e :| e in front && ChildOf(c, parents, e) == Some(o);
        assert o.id == e.IdOn(c);
      }
    }
  }

  /** Entries with different identities become objects with different ids. */
  lemma ObjectsUnique(c: ConnectionId, entries: seq<Entry>)
    requires UniqueEntryIds(c, entries)
    ensures UniqueIds(ObjectsFrom(c, entries))
  {
    var p := ParentsOf(c, entries);
    HeadsUnique(c, entries);
    ChildrenUnique(c, p, entries);
    HeadMembers(c, entries);
    ChildMembers(c, p, entries);
    forall a, b | a in Heads(c, entries) && b in Children(c, p, entries) ensures a.id != b.id {
      var e :| e in entries && HeadOf(c, e) == Some(a);
      var f :| f in entries && ChildOf(c, p, f) == Some(b);
      assert a.id == e.IdOn(c) && b.id == f.IdOn(c);
    }
  }

  // --- field by field ---

  predicate RelationNamed(e: Entry, schema: string, name: string) {
    (e.TableEntry? || e.ViewEntry?) && e.schema == schema && e.name == name
  }

  /** Entry `j` is the last table or view of that schema and name. */
  ghost predicate LastNamed(entries: seq<Entry>, schema: string, name: string, j: nat) {
    j < |entries| && RelationNamed(entries[j], schema, name) && forall k :: j < k < |entries| ==> !RelationNamed(entries[k], schema, name)
  }

  lemma {:induction false} ParentIsLast(c: ConnectionId, entries: seq<Entry>, schema: string, name: string)
    ensures (schema, name) in ParentsOf(c, entries) <==> exists j: nat :: LastNamed(entries, schema, name, j)
    ensures forall j: nat :: LastNamed(entries, schema, name, j) ==>
              (schema, name) in ParentsOf(c, entries) &&
              ParentsOf(c, entries)[(schema, name)] == Derived(c, if entries[j].TableEntry? then TableKind else ViewKind, entries[j].native)
  {
    if entries != [] {
      var n := |entries| - 1;
      ParentIsLast(c, entries[..n], schema, name);
      if RelationNamed(entries[n], schema, name) {
        assert LastNamed(entries, schema, name, n);
      } else {
        assert forall j: nat :: LastNamed(entries, schema, name, j) <==> LastNamed(entries[..n], schema, name, j);
      }
    }
  }

  /** The members of the object list, in either direction: one entry and its pass. */
  lemma FromEntry(c: ConnectionId, entries: seq<Entry>, o: SchemaObject)
    ensures o in ObjectsFrom(c, entries) <==>
              exists e :: e in entries && (HeadOf(c, e) == Some(o) || ChildOf(c, ParentsOf(c, entries), e) == Some(o))
  {
    HeadMembers(c, entries);
    ChildMembers(c, ParentsOf(c, entries), entries);
  }

  lemma DatabaseFields(c: ConnectionId, entries: seq<Entry>, o: SchemaObject)
    requires o.Database?
    ensures o in ObjectsFrom(c, entries) <==>
              exists e :: e in entries && e.DatabaseEntry? && o.id == Derived(c, DatabaseKind, e.native) && o.name == e.name
  {
    FromEntry(c, entries, o);
  }

  lemma TableFields(c: ConnectionId, entries: seq<Entry>, o: SchemaObject)
    requires o.Table?
    ensures o in ObjectsFrom(c, entries) <==>
              exists e ::
                && e in entries && e.TableEntry? && o.id == Derived(c, TableKind, e.native)
                && o.schema == e.schema && o.name == e.name && o.estimatedRows == e.estimatedRows
  {
    FromEntry(c, entries, o);
  }

  lemma ViewFields(c: ConnectionId, entries: seq<Entry>, o: SchemaObject)
    requires o.View?
    ensures o in ObjectsFrom(c, entries) <==>
              exists e ::
                && e in entries && e.ViewEntry? && o.id == Derived(c, ViewKind, e.native)
                && o.schema == e.schema && o.name == e.name && o.definition == e.definition
  {
    FromEntry(c, entries, o);
  }

  lemma FunctionFields(c: ConnectionId, entries: seq<Entry>, o: SchemaObject)
    requires o.Function?
    ensures o in ObjectsFrom(c, entries) <==>
              exists e ::
                && e in entries && e.FunctionEntry? && o.id == Derived(c, FunctionKind, e.native)
                && o.schema == e.schema && o.name == e.name && o.parameters == e.parameters
                && o.returnType == e.returnType && o.language == e.language
  {
    FromEntry(c, entries, o);
  }

  ghost predicate ColumnFrom(c: ConnectionId, entries: seq<Entry>, e: Entry, j: nat, o: SchemaObject) {
    && e in entries && e.ColumnEntry? && LastNamed(entries, e.schema, e.relation, j)
    && o.Column? && o.id == Derived(c, ColumnKind, e.native)
    && o.parent == Derived(c, if entries[j].TableEntry? then TableKind else ViewKind, entries[j].native)
    && o.name == e.name && o.dataType == e.dataType && o.nullable == e.nullable
    && o.ordinal == e.ordinal && o.default == e.default
  }

  /** A column comes from an entry whose relation is in the list, with the id of the last relation of that name. */
  lemma ColumnFields(c: ConnectionId, entries: seq<Entry>, o: SchemaObject)
    requires o.Column?
    ensures o in ObjectsFrom(c, entries) <==> exists e, j: nat :: ColumnFrom(c, entries, e, j, o)
  {
    FromEntry(c, entries, o);
    if o in ObjectsFrom(c, entries) {
      var e :| e in entries && ChildOf(c, ParentsOf(c, entries), e) == Some(o);
      ParentIsLast(c, entries, e.schema, e.relation);
      var j: nat :| LastNamed(entries, e.schema, e.relation, j);
      assert ColumnFrom(c, entries, e, j, o);
    }
    if e, j: nat :| ColumnFrom(c, entries, e, j, o) {
      ParentIsLast(c, entries, e.schema, e.relation);
      assert ChildOf(c, ParentsOf(c, entries), e) == Some(o);
    }
  }

  ghost predicate IndexFrom(c: ConnectionId, entries: seq<Entry>, e: Entry, j: nat, o: SchemaObject) {
    && e in entries && e.IndexEntry? && LastNamed(entries, e.schema, e.relation, j)
    && o.Index? && o.id == Derived(c, IndexKind, e.native)
    && o.parent == Derived(c, if entries[j].TableEntry? then TableKind else ViewKind, entries[j].native)
    && o.name == e.name && o.columns == e.columns && o.unique == e.unique && o.indexType == e.indexType
  }

  /** An index likewise. */
  lemma IndexFields(c: ConnectionId, entries: seq<Entry>, o: SchemaObject)
    requires o.Index?
    ensures o in ObjectsFrom(c, entries) <==> exists e, j: nat :: IndexFrom(c, entries, e, j, o)
  {
    FromEntry(c, entries, o);
    if o in ObjectsFrom(c, entries) {
      var e :| e in entries && ChildOf(c, ParentsOf(c, entries), e) == Some(o);
      ParentIsLast(c, entries, e.schema, e.relation);
      var j: nat :| LastNamed(entries, e.schema, e.relation, j);
      assert IndexFrom(c, entries, e, j, o);
    }
    if e, j: nat :| IndexFrom(c, entries, e, j, o) {
      ParentIsLast(c, entries, e.schema, e.relation);
      assert ChildOf(c, ParentsOf(c, entries), e) == Some(o);
    }
  }

  predicate InFirstPass(e: Entry) { e.DatabaseEntry? || e.TableEntry? || e.ViewEntry? }

  /** The entry becomes an object: always, but for columns and indexes of unknown relations. */
  ghost predicate Becomes(entries: seq<Entry>, e: Entry) {
    e.ColumnEntry? || e.IndexEntry? ==> exists j: nat :: LastNamed(entries, e.schema, e.relation, j)
  }

  lemma BecomesObject(c: ConnectionId, entries: seq<Entry>, e: Entry)
    requires Becomes(entries, e)
    ensures HeadOf(c, e).Some? <==> InFirstPass(e)
    ensures !InFirstPass(e) ==> ChildOf(c, ParentsOf(c, entries), e).Some?
    ensures HeadOf(c, e).Some? ==> HeadOf(c, e).value.id == e.IdOn(c)
    ensures ChildOf(c, ParentsOf(c, entries), e).Some? ==> ChildOf(c, ParentsOf(c, entries), e).value.id == e.IdOn(c)
  {
    if e.ColumnEntry? || e.IndexEntry? { ParentIsLast(c, entries, e.schema, e.relation); }
  }

  lemma {:induction false} HeadsInOrder(c: ConnectionId, entries: seq<Entry>, i: nat) returns (p: nat)
    requires i < |entries| && HeadOf(c, entries[i]).Some?
    ensures p == |Heads(c, entries[..i])| < |Heads(c, entries)| && Heads(c, entries)[p] == HeadOf(c, entries[i]).value
  {
    var n := |entries| - 1;
    if i == n {
      p := |Heads(c, entries[..n])|;
    } else {
      assert entries[..n][..i] == entries[..i];
      p := HeadsInOrder(c, entries[..n], i);
    }
  }

  lemma {:induction false} ChildrenInOrder(c: ConnectionId, parents: Parents, entries: seq<Entry>, i: nat) returns (p: nat)
    requires i < |entries| && ChildOf(c, parents, entries[i]).Some?
    ensures p == |Children(c, parents, entries[..i])| < |Children(c, parents, entries)|
    ensures Children(c, parents, entries)[p] == ChildOf(c, parents, entries[i]).value
  {
    var n := |entries| - 1;
    if i == n {
      p := |Children(c, parents, entries[..n])|;
    } else {
      assert entries[..n][..i] == entries[..i];
      p := ChildrenInOrder(c, parents, entries[..n], i);
    }
  }

  /** Databases and relations come before the others, and within either the order of the entries is kept. */
  lemma KeepsOrder(c: ConnectionId, entries: seq<Entry>, i: nat, j: nat) returns (p: nat, q: nat)
    requires i < |entries| && j < |entries| && Becomes(entries, entries[i]) && Becomes(entries, entries[j])
    requires if InFirstPass(entries[i]) then InFirstPass(entries[j]) ==> i < j else !InFirstPass(entries[j]) && i < j
    ensures p < q < |ObjectsFrom(c, entries)|
    ensures ObjectsFrom(c, entries)[p].id == Derived(c, entries[i].KindOf(), entries[i].native)
    ensures ObjectsFrom(c, entries)[q].id == Derived(c, entries[j].KindOf(), entries[j].native)
  {
    var parents, heads := ParentsOf(c, entries), Heads(c, entries);
    BecomesObject(c, entries, entries[i]);
    BecomesObject(c, entries, entries[j]);
    if InFirstPass(entries[i]) {
      p := HeadsInOrder(c, entries, i);
      if InFirstPass(entries[j]) {
        q := HeadsInOrder(c, entries, j);
        assert entries[..j][..i] == entries[..i];
        var r := HeadsInOrder(c, entries[..j], i);
      } else {
        q := ChildrenInOrder(c, parents, entries, j);
        q := q + |heads|;
      }
    } else {
      p := ChildrenInOrder(c, parents, entries, i);
      q := ChildrenInOrder(c, parents, entries, j);
      assert entries[..j][..i] == entries[..i];
      var r := ChildrenInOrder(c, parents, entries[..j], i);
      p, q := p + |heads|, q + |heads|;
    }
  }
}
