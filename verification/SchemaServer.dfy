/** What a driver connection reports: introspection by scope and the fingerprint sweep over the same rows. */
module SchemaServer {
  import opened FingerprintDiff
  import opened SchemaObjects

  datatype Scope = SearchPath | All | OneSchema(name: string) | OneTable(schema: string, table: string)

  /** A catalog row with its change marker. */
  datatype Served = Served(entry: Entry, version: nat)

  datatype SweepMode = Sweeps | SweepUnsupported | SweepFails

  /** What a driver connection can see at one moment. */
  datatype Server = Server(objects: seq<Served>, searchPath: set<string>, keywords: seq<string>, mode: SweepMode)

  /** The database row is reported in every scope; everything else by the schema it lives in. */
  predicate InScope(searchPath: set<string>, scope: Scope, e: Entry) {
    e.DatabaseEntry? ||
    match scope
    case All => true
    case SearchPath => e.schema in searchPath
    case OneSchema(s) => e.schema == s
    case OneTable(s, t) =>
      e.schema == s && (e.FunctionEntry? || (e.IsRelation() && e.name == t) ||
                        ((e.ColumnEntry? || e.IndexEntry?) && e.relation == t))
  }

  /** A scope that takes schemas as a whole: every one but a single table. */
  predicate Whole(scope: Scope) { !scope.OneTable? }

  /** Does the scope look into schema `s`? */
  predicate Reaches(searchPath: set<string>, scope: Scope, s: string) {
    match scope
    case All => true
    case SearchPath => s in searchPath
    case OneSchema(t) => s == t
    case OneTable(t, _) => s == t
  }

  function ObjectKindOf(e: Entry): ObjectKind
    requires !e.DatabaseEntry?
  {
    match e
    case TableEntry(_, _, _, _) => RelationObject
    case ViewEntry(_, _, _, _) => RelationObject
    case ColumnEntry(_, _, _, _, _, _, _, _) => ColumnObject
    case IndexEntry(_, _, _, _, _, _, _) => IndexObject
    case FunctionEntry(_, _, _, _, _, _) => FunctionObject
  }

  /** `snapshot_schema`. */
  function Introspect(rows: seq<Served>, searchPath: set<string>, scope: Scope): seq<Entry> {
    if rows == [] then []
    else (if InScope(searchPath, scope, rows[0].entry) then [rows[0].entry] else []) + Introspect(rows[1..], searchPath, scope)
  }

  /** `schema_fingerprints`: one marker for every row but the database. */
  function Sweep(rows: seq<Served>, searchPath: set<string>, scope: Scope): seq<Fingerprint> {
    if rows == [] then []
    else
      var e := rows[0].entry;
      (if !e.DatabaseEntry? && InScope(searchPath, scope, e)
       then [Fingerprint(ObjectKindOf(e), e.native, rows[0].version)] else []) + Sweep(rows[1..], searchPath, scope)
  }

  function Fold(k: Kind): Kind { if k == ViewKind then TableKind else k }

  /** The sweep key of an entry or an object. */
  function EntryKey(e: Entry): Key { (Fold(e.KindOf()), e.native) }

  function ObjectKey(o: SchemaObject): Key { (Fold(o.id.kind), o.id.native) }

  predicate SameRelation(a: Entry, b: Entry) {
    a.IsRelation() && b.IsRelation() && a.schema == b.schema && a.name == b.name
  }

  /** Keys are unique, and so are relation names within a schema. */
  ghost predicate ServerOk(rows: seq<Served>) {
    && (forall i, j :: 0 <= i < j < |rows| ==> EntryKey(rows[i].entry) != EntryKey(rows[j].entry))
    && (forall a, b :: a in rows && b in rows && SameRelation(a.entry, b.entry) ==> a == b)
  }

  lemma {:induction false} IntrospectMembers(rows: seq<Served>, path: set<string>, scope: Scope)
    ensures forall e :: e in Introspect(rows, path, scope) <==> InScope(path, scope, e) && exists r :: r in rows && r.entry == e
  {
    if rows != [] {
      IntrospectMembers(rows[1..], path, scope);
      assert forall r :: r in rows <==> r == rows[0] || r in rows[1..];
    }
  }

  lemma {:induction false} SweepMembers(rows: seq<Served>, path: set<string>, scope: Scope)
    ensures forall f :: f in Sweep(rows, path, scope) <==>
              exists r :: r in rows && !r.entry.DatabaseEntry? && InScope(path, scope, r.entry) &&
                          f == Fingerprint(ObjectKindOf(r.entry), r.entry.native, r.version)
  {
    if rows != [] {
      SweepMembers(rows[1..], path, scope);
      assert forall r :: r in rows <==> r == rows[0] || r in rows[1..];
    }
  }

  lemma {:induction false} IntrospectUnique(c: ConnectionId, rows: seq<Served>, path: set<string>, scope: Scope)
    requires ServerOk(rows)
    ensures UniqueEntryIds(c, Introspect(rows, path, scope))
  {
    if rows != [] {
      TailOk(rows);
      IntrospectUnique(c, rows[1..], path, scope);
      IntrospectMembers(rows[1..], path, scope);
      forall e | e in Introspect(rows[1..], path, scope) ensures e.IdOn(c) != rows[0].entry.IdOn(c) {
        var r :| r in rows[1..] && r.entry == e;
        assert EntryKey(rows[0].entry) != EntryKey(r.entry);
      }
    }
  }

  lemma TailOk(rows: seq<Served>)
    requires ServerOk(rows) && rows != []
    ensures ServerOk(rows[1..])
    ensures forall r :: r in rows[1..] ==> r in rows && EntryKey(r.entry) != EntryKey(rows[0].entry)
  {
  }

  lemma KeyIsNew(rows: seq<Served>, path: set<string>, scope: Scope, f: Fingerprint)
    requires rows != [] && ServerOk(rows) && f in Sweep(rows[1..], path, scope)
    ensures ToRecord(f).Key() != EntryKey(rows[0].entry)
  {
    SweepMembers(rows[1..], path, scope);
    var r :| r in rows[1..] && !r.entry.DatabaseEntry? && InScope(path, scope, r.entry) &&
             f == Fingerprint(ObjectKindOf(r.entry), r.entry.native, r.version);
    assert ToRecord(f).Key() == EntryKey(r.entry);
  }

  lemma {:induction false} SweepUnique(rows: seq<Served>, path: set<string>, scope: Scope)
    requires ServerOk(rows)
    ensures UniqueKeys(Records(Sweep(rows, path, scope)))
  {
    if rows != [] {
      TailOk(rows);
      SweepUnique(rows[1..], path, scope);
      forall f | f in Sweep(rows[1..], path, scope) ensures ToRecord(f).Key() != EntryKey(rows[0].entry) {
        KeyIsNew(rows, path, scope, f);
      }
    }
  }

  ghost predicate Row(rows: seq<Served>, e: Entry) { exists r :: r in rows && r.entry == e }

  /** What each scope introspects: the database row always, and of the others those of its schemas; one table has its own
      row, columns and indexes, and the functions of its schema. */
  lemma ScopeRows(rows: seq<Served>, path: set<string>, e: Entry, s: string, t: string)
    ensures e in Introspect(rows, path, All) <==> Row(rows, e)
    ensures e in Introspect(rows, path, SearchPath) <==> Row(rows, e) && (e.DatabaseEntry? || e.schema in path)
    ensures e in Introspect(rows, path, OneSchema(s)) <==> Row(rows, e) && (e.DatabaseEntry? || e.schema == s)
    ensures e in Introspect(rows, path, OneTable(s, t)) <==>
            Row(rows, e) &&
            match e
            case DatabaseEntry(_, _) => true
            case TableEntry(_, schema, name, _) => schema == s && name == t
            case ViewEntry(_, schema, name, _) => schema == s && name == t
            case ColumnEntry(_, schema, relation, _, _, _, _, _) => schema == s && relation == t
            case IndexEntry(_, schema, relation, _, _, _, _) => schema == s && relation == t
            case FunctionEntry(_, schema, _, _, _, _) => schema == s
  {
    IntrospectMembers(rows, path, All);
    IntrospectMembers(rows, path, SearchPath);
    IntrospectMembers(rows, path, OneSchema(s));
    IntrospectMembers(rows, path, OneTable(s, t));
  }

  /** The sweep has one marker for each introspected row but the database: its kind, native id and version. */
  lemma SweepRows(rows: seq<Served>, path: set<string>, scope: Scope, f: Fingerprint)
    ensures f in Sweep(rows, path, scope) <==>
            exists r ::
              && r in rows && InScope(path, scope, r.entry) && f.native == r.entry.native && f.version == r.version
              && match r.entry
                 case DatabaseEntry(_, _) => false
                 case TableEntry(_, _, _, _) => f.kind == RelationObject
                 case ViewEntry(_, _, _, _) => f.kind == RelationObject
                 case ColumnEntry(_, _, _, _, _, _, _, _) => f.kind == ColumnObject
                 case IndexEntry(_, _, _, _, _, _, _) => f.kind == IndexObject
                 case FunctionEntry(_, _, _, _, _, _) => f.kind == FunctionObject
  {
    SweepMembers(rows, path, scope);
  }
}
