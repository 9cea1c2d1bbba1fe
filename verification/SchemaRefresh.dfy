/**
 Incremental schema refresh (`tempr_services/src/schema.rs`): sweep, diff, splice, and the fallbacks to a
 full introspection.
 */
module SchemaRefresh {
  import opened FingerprintDiff
  import opened SchemaObjects
  import opened SchemaServer
  import opened Sorting
  import opened Strings
  import opened Wrappers

  datatype Snapshot = Snapshot(connection: ConnectionId, version: nat, objects: seq<SchemaObject>,
                               keywords: seq<string>, fingerprints: seq<Record>)

  // --- schemas of objects ---

  /** `index_by_id`; a repeated id keeps its last object. */
  function ById(objects: seq<SchemaObject>): map<ObjectId, SchemaObject> {
    if objects == [] then map[]
    else ById(objects[..|objects| - 1])[objects[|objects| - 1].id := objects[|objects| - 1]]
  }

  /** The schema an object carries itself. */
  function OwnSchema(o: SchemaObject): Option<string> {
    match o
    case Table(_, schema, _, _) => Some(schema)
    case View(_, schema, _, _) => Some(schema)
    case Function(_, schema, _, _, _, _) => Some(schema)
    case _ => None
  }

  /** `object_schema`: its own, or one hop along the parent link. */
  function ObjectSchema(byId: map<ObjectId, SchemaObject>, o: SchemaObject): Option<string> {
    if o.Column? || o.Index? then
      if o.parent in byId then OwnSchema(byId[o.parent]) else None
    else OwnSchema(o)
  }

  function FirstPresent(byId: map<ObjectId, SchemaObject>, ids: seq<ObjectId>): Option<SchemaObject> {
    if ids == [] then None
    else if ids[0] in byId then Some(byId[ids[0]])
    else FirstPresent(byId, ids[1..])
  }

  /** The schema of the cached object behind a fingerprint key. */
  function SchemaOfKey(c: ConnectionId, byId: map<ObjectId, SchemaObject>, k: Key): Option<string> {
    match FirstPresent(byId, CandidateIds(c, k))
    case None => None
    case Some(o) => ObjectSchema(byId, o)
  }

  lemma {:induction false} ByIdMembers(objects: seq<SchemaObject>)
    requires UniqueIds(objects)
    ensures forall o :: o in objects ==> o.id in ById(objects) && ById(objects)[o.id] == o
    ensures forall id :: id in ById(objects) ==> ById(objects)[id] in objects && ById(objects)[id].id == id
  {
    if objects != [] {
      var front, last := objects[..|objects| - 1], objects[|objects| - 1];
      assert objects == front + [last];
      ByIdMembers(front);
    }
  }

  // --- splice ---

  /** Does a cached object survive the splice? */
  predicate Survives(byId: map<ObjectId, SchemaObject>, dropped: set<ObjectId>, touched: seq<string>, o: SchemaObject) {
    o.id !in dropped &&
    match ObjectSchema(byId, o)
    case Some(s) => s !in touched
    case None => true
  }

  function Kept(cached: seq<SchemaObject>, dropped: set<ObjectId>, touched: seq<string>): seq<SchemaObject> {
    Filter(o => Survives(ById(cached), dropped, touched, o), cached)
  }

  /** The objects whose id has not been seen yet, each id once. */
  function Unseen(seen: set<ObjectId>, objects: seq<SchemaObject>): seq<SchemaObject>
    decreases |objects|
  {
    if objects == [] then []
    else if objects[0].id in seen then Unseen(seen, objects[1..])
    else [objects[0]] + Unseen(seen + {objects[0].id}, objects[1..])
  }

  function Splice(cached: seq<SchemaObject>, refreshed: seq<SchemaObject>, dropped: set<ObjectId>, touched: seq<string>)
    : seq<SchemaObject>
  {
    var kept := Kept(cached, dropped, touched);
    kept + Unseen(set o | o in kept :: o.id, refreshed)
  }

  lemma {:induction false} FilterUnique(p: SchemaObject -> bool, s: seq<SchemaObject>)
    requires UniqueIds(s)
    ensures UniqueIds(Filter(p, s))
  {
    if s != [] {
      FilterUnique(p, s[1..]);
      FilterMembers(p, s[1..]);
      forall o | o in s[1..] ensures o.id != s[0].id {
        var i :| 0 <= i < |s[1..]| && s[1..][i] == o;
        assert s[i + 1] == o;
      }
    }
  }

  lemma {:induction false} UnseenUnique(seen: set<ObjectId>, objects: seq<SchemaObject>)
    ensures UniqueIds(Unseen(seen, objects))
    ensures forall o :: o in Unseen(seen, objects) ==> o in objects && o.id !in seen
    decreases |objects|
  {
    if objects != [] {
      assert objects == [objects[0]] + objects[1..];
      UnseenUnique(if objects[0].id in seen then seen else seen + {objects[0].id}, objects[1..]);
    }
  }

  lemma {:induction false} UnseenHas(seen: set<ObjectId>, objects: seq<SchemaObject>, o: SchemaObject)
    requires o in objects && o.id !in seen
    ensures exists u :: u in Unseen(seen, objects) && u.id == o.id
    decreases |objects|
  {
    if objects[0].id in seen {
      UnseenHas(seen, objects[1..], o);
    } else if o.id == objects[0].id {
      assert objects[0] in Unseen(seen, objects);
    } else {
      UnseenHas(seen + {objects[0].id}, objects[1..], o);
      var u :| u in Unseen(seen + {objects[0].id}, objects[1..]) && u.id == o.id;
      assert u in Unseen(seen, objects);
    }
  }

  lemma UnseenMembers(seen: set<ObjectId>, objects: seq<SchemaObject>)
    ensures UniqueIds(Unseen(seen, objects))
    ensures forall o :: o in Unseen(seen, objects) ==> o in objects && o.id !in seen
    ensures forall o :: o in objects && o.id !in seen ==> exists u :: u in Unseen(seen, objects) && u.id == o.id
  {
    UnseenUnique(seen, objects);
    forall o | o in objects && o.id !in seen ensures exists u :: u in Unseen(seen, objects) && u.id == o.id {
      UnseenHas(seen, objects, o);
    }
  }

  /** Whatever is spliced, each id comes out once. */
  lemma SpliceUnique(cached: seq<SchemaObject>, refreshed: seq<SchemaObject>, dropped: set<ObjectId>, touched: seq<string>)
    requires UniqueIds(cached)
    ensures UniqueIds(Splice(cached, refreshed, dropped, touched))
  {
    var kept := Kept(cached, dropped, touched);
    var seen := set o | o in kept :: o.id;
    FilterUnique(o => Survives(ById(cached), dropped, touched, o), cached);
    UnseenMembers(seen, refreshed);
    assert forall o :: o in kept ==> o.id in seen;
    UniqueConcat(kept, Unseen(seen, refreshed));
  }

  lemma UniqueConcat(a: seq<SchemaObject>, b: seq<SchemaObject>)
    requires UniqueIds(a) && UniqueIds(b) && forall x, y :: x in a && y in b ==> x.id != y.id
    ensures UniqueIds(a + b)
  {
  }

  /** The first list is what is left of the second when some elements are taken out. */
  predicate Subsequence(a: seq<SchemaObject>, b: seq<SchemaObject>)
    decreases |b|
  {
    a == [] || (b != [] && ((a[0] == b[0] && Subsequence(a[1..], b[1..])) || Subsequence(a, b[1..])))
  }

  lemma {:induction false} FilterSubsequence(p: SchemaObject -> bool, s: seq<SchemaObject>)
    ensures Subsequence(Filter(p, s), s)
  {
    if s != [] {
      FilterSubsequence(p, s[1..]);
      if p(s[0]) {
        assert Filter(p, s)[1..] == Filter(p, s[1..]);
      } else {
        assert Filter(p, s) == Filter(p, s[1..]);
      }
    }
  }

  lemma {:induction false} UnseenSubsequence(seen: set<ObjectId>, objects: seq<SchemaObject>)
    ensures Subsequence(Unseen(seen, objects), objects)
    decreases |objects|
  {
    if objects != [] {
      var next := if objects[0].id in seen then seen else seen + {objects[0].id};
      UnseenSubsequence(next, objects[1..]);
      if objects[0].id !in seen { assert Unseen(seen, objects)[1..] == Unseen(next, objects[1..]); }
    }
  }

  /** A splice lists what it keeps in the order of the cached snapshot, and behind it what it adds in the order it was
      read. */
  lemma SpliceInOrder(cached: seq<SchemaObject>, refreshed: seq<SchemaObject>, dropped: set<ObjectId>, touched: seq<string>)
    returns (n: nat)
    ensures
      var all := Splice(cached, refreshed, dropped, touched);
      && n <= |all| && Subsequence(all[..n], cached) && Subsequence(all[n..], refreshed)
      && forall o :: o in all[..n] <==> o in cached && Survives(ById(cached), dropped, touched, o)
  {
    var p := o => Survives(ById(cached), dropped, touched, o);
    var kept := Kept(cached, dropped, touched);
    var new_ := Unseen(set o | o in kept :: o.id, refreshed);
    n := |kept|;
    FilterSubsequence(p, cached);
    FilterMembers(p, cached);
    UnseenSubsequence(set o | o in kept :: o.id, refreshed);
    assert (kept + new_)[..n] == kept && (kept + new_)[n..] == new_;
  }

  /** Members of a splice, when the re-read objects have one object per id. */
  lemma SpliceMembers(cached: seq<SchemaObject>, refreshed: seq<SchemaObject>, dropped: set<ObjectId>, touched: seq<string>, o: SchemaObject)
    requires forall a, b :: a in refreshed && b in refreshed && a.id == b.id ==> a == b
    ensures var kept := Kept(cached, dropped, touched);
            o in Splice(cached, refreshed, dropped, touched) <==>
            (o in cached && Survives(ById(cached), dropped, touched, o)) ||
            (o in refreshed && forall k :: k in kept ==> k.id != o.id)
  {
    var p := o => Survives(ById(cached), dropped, touched, o);
    var kept := Kept(cached, dropped, touched);
    FilterMembers(p, cached);
    var seen := set k | k in kept :: k.id;
    UnseenMembers(seen, refreshed);
    assert o in kept <==> o in cached && p(o);
    if o in refreshed && forall k :: k in kept ==> k.id != o.id {
      assert o.id !in seen;
      var u :| u in Unseen(seen, refreshed) && u.id == o.id;
    }
    if o in Unseen(seen, refreshed) {
      assert forall k :: k in kept ==> k.id in seen;
    }
  }

  // --- snapshots and the server state they were taken from ---

  function ObjectsAt(c: ConnectionId, server: Server, scope: Scope): seq<SchemaObject> {
    ObjectsFrom(c, Introspect(server.objects, server.searchPath, scope))
  }

  function SweepAt(server: Server, scope: Scope): seq<Record> {
    Records(Sweep(server.objects, server.searchPath, scope))
  }

  ghost predicate SameMembers(a: seq<SchemaObject>, b: seq<SchemaObject>) {
    forall o :: o in a <==> o in b
  }

  /** The snapshot describes the server: the same objects as a full introspection, each id once, and the
      markers of that state (or none at all, when the driver has no sweep). */
  ghost predicate InSync(c: ConnectionId, s: Snapshot, server: Server, scope: Scope) {
    && SameMembers(s.objects, ObjectsAt(c, server, scope)) && UniqueIds(s.objects)
    && (s.fingerprints == [] || SameMarkers(s.fingerprints, SweepAt(server, scope)))
  }

  /** The same markers, each key once; their order does not matter. */
  ghost predicate SameMarkers(a: seq<Record>, b: seq<Record>) {
    (forall r :: r in a <==> r in b) && UniqueKeys(a)
  }

  /** `o` lives in schema `s` among `objects`. */
  ghost predicate LivesIn(objects: seq<SchemaObject>, o: SchemaObject, s: string) {
    if o.Column? || o.Index? then exists p :: p in objects && p.id == o.parent && OwnSchema(p) == Some(s)
    else OwnSchema(o) == Some(s)
  }

  /** How a server may change between two refreshes: an object whose marker did not move is the same, and the search
      path and the database row stay. */
  ghost predicate Drifts(c: ConnectionId, old_: Server, new_: Server, scope: Scope) {
    var a, b := ObjectsAt(c, old_, scope), ObjectsAt(c, new_, scope);
    && old_.searchPath == new_.searchPath
    && (forall r, o :: r in SweepAt(old_, scope) && r in SweepAt(new_, scope) && ObjectKey(o) == r.Key() ==> (o in a <==> o in b))
    && (forall o: SchemaObject :: o.Database? ==> (o in a <==> o in b))
  }

  /** Some object of schema `s` in `a` lives, under its key, in schema `t` in `b`. */
  ghost predicate Goes(a: seq<SchemaObject>, b: seq<SchemaObject>, s: string, t: string) {
    exists o, f :: o in a && f in b && ObjectKey(o) == ObjectKey(f) && LivesIn(a, o, s) && LivesIn(b, f, t)
  }

  ghost predicate StaysHome(a: seq<SchemaObject>, b: seq<SchemaObject>) {
    forall s, t :: Goes(a, b, s, t) ==> s == t
  }

  /** The server drifts, and no object changes schema. */
  ghost predicate Evolves(c: ConnectionId, old_: Server, new_: Server, scope: Scope) {
    Drifts(c, old_, new_, scope) && StaysHome(ObjectsAt(c, old_, scope), ObjectsAt(c, new_, scope))
  }

  lemma SchemaIsLiving(objects: seq<SchemaObject>, o: SchemaObject)
    requires UniqueIds(objects)
    ensures forall s :: LivesIn(objects, o, s) <==> ObjectSchema(ById(objects), o) == Some(s)
  {
    ByIdMembers(objects);
    forall s ensures LivesIn(objects, o, s) <==> ObjectSchema(ById(objects), o) == Some(s) {
      if o.Column? || o.Index? {
        if p :| p in objects && p.id == o.parent && OwnSchema(p) == Some(s) { assert ById(objects)[o.parent] == p; }
      }
    }
  }

  lemma LivesInSame(a: seq<SchemaObject>, b: seq<SchemaObject>)
    requires SameMembers(a, b)
    ensures forall o, s :: LivesIn(a, o, s) <==> LivesIn(b, o, s)
  {
    forall o, s ensures LivesIn(a, o, s) <==> LivesIn(b, o, s) {
      if o.Column? || o.Index? {
        if p :| p in a && p.id == o.parent && OwnSchema(p) == Some(s) { assert p in b; }
        if p :| p in b && p.id == o.parent && OwnSchema(p) == Some(s) { assert p in a; }
      }
    }
  }

  lemma Shape(c: ConnectionId, parents: Parents, e: Entry, o: SchemaObject)
    requires ObjectOf(c, parents, e) == Some(o)
    ensures o.id == e.IdOn(c) && ObjectKey(o) == EntryKey(e) && (o.Database? <==> e.DatabaseEntry?)
    ensures o.id.kind == DatabaseKind <==> o.Database?
    ensures o.Column? || o.Index? ==>
              && (e.ColumnEntry? || e.IndexEntry?)
              && (e.schema, e.relation) in parents && o.parent == parents[(e.schema, e.relation)]
    ensures !(o.Column? || o.Index? || o.Database?) ==> OwnSchema(o) == Some(e.schema)
  {
  }

  /** Every object of an introspection comes from one entry, lives in that entry's schema, and is swept. */
  lemma EntryBehind(c: ConnectionId, server: Server, scope: Scope, o: SchemaObject) returns (e: Entry)
    requires o in ObjectsAt(c, server, scope)
    ensures e in Introspect(server.objects, server.searchPath, scope)
    ensures ObjectOf(c, ParentsOf(c, Introspect(server.objects, server.searchPath, scope)), e) == Some(o)
    ensures o.id == e.IdOn(c) && ObjectKey(o) == EntryKey(e) && (o.Database? <==> e.DatabaseEntry?)
    ensures !o.Database? ==> LivesIn(ObjectsAt(c, server, scope), o, e.schema) && HasKey(SweepAt(server, scope), ObjectKey(o))
  {
    var entries := Introspect(server.objects, server.searchPath, scope);
    var parents := ParentsOf(c, entries);
    ObjectMembers(c, entries);
    e :| e in entries && ObjectOf(c, parents, e) == Some(o);
    Shape(c, parents, e, o);
    if !o.Database? {
      KeySwept(server, scope, e);
      if o.Column? || o.Index? { ParentPresent(c, entries, e, o); }
    }
  }

  lemma ParentPresent(c: ConnectionId, entries: seq<Entry>, e: Entry, o: SchemaObject)
    requires e in entries && ObjectOf(c, ParentsOf(c, entries), e) == Some(o) && (o.Column? || o.Index?)
    ensures LivesIn(ObjectsFrom(c, entries), o, e.schema)
  {
    var parents := ParentsOf(c, entries);
    ParentsExact(c, entries);
    ObjectMembers(c, entries);
    var r :| r in entries && r.IsRelation() && (e.schema, e.relation) == (r.schema, r.name) && o.parent == r.IdOn(c);
    var p := HeadOf(c, r).value;
    assert ObjectOf(c, parents, r) == Some(p);
    assert p in ObjectsFrom(c, entries) && p.id == o.parent && OwnSchema(p) == Some(e.schema);
  }

  lemma KeySwept(server: Server, scope: Scope, e: Entry)
    requires e in Introspect(server.objects, server.searchPath, scope) && !e.DatabaseEntry?
    ensures HasKey(SweepAt(server, scope), EntryKey(e))
  {
    IntrospectMembers(server.objects, server.searchPath, scope);
    SweepMembers(server.objects, server.searchPath, scope);
    var r :| r in server.objects && r.entry == e;
    var f := Fingerprint(ObjectKindOf(e), e.native, r.version);
    assert f in Sweep(server.objects, server.searchPath, scope);
    var fs := Sweep(server.objects, server.searchPath, scope);
    var i :| 0 <= i < |fs| && fs[i] == f;
    assert SweepAt(server, scope)[i] == ToRecord(f) && ToRecord(f).Key() == EntryKey(e);
  }

  /** One object per key. */
  lemma OneObjectPerKey(c: ConnectionId, server: Server, scope: Scope)
    requires ServerOk(server.objects)
    ensures forall a, b :: a in ObjectsAt(c, server, scope) && b in ObjectsAt(c, server, scope) && ObjectKey(a) == ObjectKey(b) ==> a == b
  {
    IntrospectMembers(server.objects, server.searchPath, scope);
    forall a, b | a in ObjectsAt(c, server, scope) && b in ObjectsAt(c, server, scope) && ObjectKey(a) == ObjectKey(b)
      ensures a == b
    {
      var e := EntryBehind(c, server, scope, a);
      var f := EntryBehind(c, server, scope, b);
      var r :| r in server.objects && r.entry == e;
      var q :| q in server.objects && q.entry == f;
      var i :| 0 <= i < |server.objects| && server.objects[i] == r;
      var j :| 0 <= j < |server.objects| && server.objects[j] == q;
      assert i == j;
    }
  }

  // --- re-reading the touched schemas ---

  function EntriesOf(server: Server, schemas: seq<string>): seq<Entry> {
    if schemas == [] then []
    else EntriesOf(server, schemas[..|schemas| - 1]) +
         Introspect(server.objects, server.searchPath, OneSchema(schemas[|schemas| - 1]))
  }

  lemma {:induction false} EntriesOfMembers(server: Server, schemas: seq<string>)
    ensures forall e :: e in EntriesOf(server, schemas) <==>
              schemas != [] && (exists r :: r in server.objects && r.entry == e) && (e.DatabaseEntry? || e.schema in schemas)
  {
    if schemas != [] {
      var front, last := schemas[..|schemas| - 1], schemas[|schemas| - 1];
      assert schemas == front + [last];
      EntriesOfMembers(server, front);
      IntrospectMembers(server.objects, server.searchPath, OneSchema(last));
    }
  }

  /** The parent of a column or index is the same in a scope and in the re-read of its schema. */
  lemma SameParent(c: ConnectionId, server: Server, some: seq<Entry>, all: seq<Entry>, schema: string, name: string)
    requires ServerOk(server.objects)
    requires forall e :: e in some || e in all ==> exists r :: r in server.objects && r.entry == e
    requires forall e: Entry :: e.IsRelation() && e.schema == schema ==> (e in some <==> e in all)
    ensures (schema, name) in ParentsOf(c, some) <==> (schema, name) in ParentsOf(c, all)
    ensures (schema, name) in ParentsOf(c, some) ==> ParentsOf(c, some)[(schema, name)] == ParentsOf(c, all)[(schema, name)]
  {
    ParentsExact(c, some);
    ParentsExact(c, all);
    var k := (schema, name);
    if k in ParentsOf(c, some) && k in ParentsOf(c, all) {
      var e :| e in some && e.IsRelation() && k == (e.schema, e.name) && ParentsOf(c, some)[k] == e.IdOn(c);
      var f :| f in all && f.IsRelation() && k == (f.schema, f.name) && ParentsOf(c, all)[k] == f.IdOn(c);
      var r :| r in server.objects && r.entry == e;
      var q :| q in server.objects && q.entry == f;
      assert SameRelation(r.entry, q.entry);
    }
  }

  /** Re-reading whole schemas gives the objects a full introspection gives for them, and the database. */
  lemma ReRead(c: ConnectionId, server: Server, scope: Scope, schemas: seq<string>, e: Entry)
    requires ServerOk(server.objects) && Whole(scope) && e in EntriesOf(server, schemas)
    requires forall s :: s in schemas ==> Reaches(server.searchPath, scope, s)
    ensures e in Introspect(server.objects, server.searchPath, scope)
    ensures ObjectOf(c, ParentsOf(c, EntriesOf(server, schemas)), e)
            == ObjectOf(c, ParentsOf(c, Introspect(server.objects, server.searchPath, scope)), e)
  {
    var all, some := Introspect(server.objects, server.searchPath, scope), EntriesOf(server, schemas);
    IntrospectMembers(server.objects, server.searchPath, scope);
    EntriesOfMembers(server, schemas);
    if e.ColumnEntry? || e.IndexEntry? {
      SameParent(c, server, some, all, e.schema, e.relation);
    }
  }

  lemma ReReadObjects(c: ConnectionId, server: Server, scope: Scope, schemas: seq<string>)
    requires ServerOk(server.objects) && Whole(scope)
    requires forall s :: s in schemas ==> Reaches(server.searchPath, scope, s)
    ensures forall o :: o in ObjectsFrom(c, EntriesOf(server, schemas)) ==> o in ObjectsAt(c, server, scope)
    ensures forall o, s :: o in ObjectsAt(c, server, scope) && !o.Database? && s in schemas && LivesIn(ObjectsAt(c, server, scope), o, s) ==>
              o in ObjectsFrom(c, EntriesOf(server, schemas))
  {
    var all, some := Introspect(server.objects, server.searchPath, scope), EntriesOf(server, schemas);
    ObjectMembers(c, all);
    ObjectMembers(c, some);
    EntriesOfMembers(server, schemas);
    IntrospectMembers(server.objects, server.searchPath, scope);
    forall o | o in ObjectsFrom(c, some) ensures o in ObjectsAt(c, server, scope) {
      var e :| e in some && ObjectOf(c, ParentsOf(c, some), e) == Some(o);
      ReRead(c, server, scope, schemas, e);
    }
    forall o, s | o in ObjectsAt(c, server, scope) && !o.Database? && s in schemas && LivesIn(ObjectsAt(c, server, scope), o, s)
      ensures o in ObjectsFrom(c, some)
    {
      var e := EntryBehind(c, server, scope, o);
      OneSchemaOnly(c, server, scope, o, s, e.schema);
      ReRead(c, server, scope, schemas, e);
    }
  }

  /** An object lives in one schema. */
  lemma OneSchemaOnly(c: ConnectionId, server: Server, scope: Scope, o: SchemaObject, s: string, t: string)
    requires ServerOk(server.objects)
    requires LivesIn(ObjectsAt(c, server, scope), o, s) && LivesIn(ObjectsAt(c, server, scope), o, t)
    ensures s == t
  {
    IntrospectUnique(c, server.objects, server.searchPath, scope);
    ObjectsUnique(c, Introspect(server.objects, server.searchPath, scope));
    SchemaIsLiving(ObjectsAt(c, server, scope), o);
  }

  // --- the theorem ---

  /** A refresh that reaches the splice: in sync with the old state, nothing added, every changed key resolved
      to a schema that is re-read. */
  ghost predicate Spliceable(c: ConnectionId, cached: Snapshot, old_: Server, new_: Server, scope: Scope, d: SchemaDelta,
                             schemas: seq<string>)
  {
    && ServerOk(old_.objects) && ServerOk(new_.objects) && Whole(scope)
    && InSync(c, cached, old_, scope) && SameMarkers(cached.fingerprints, SweepAt(old_, scope))
    && Drifts(c, old_, new_, scope)
    && ExactDelta(d, cached.fingerprints, SweepAt(new_, scope)) && d.added == []
    && (forall k :: k in d.changed ==> SchemaOfKey(c, ById(cached.objects), k).Some?)
    && (forall s :: s in schemas <==> exists k :: k in d.changed && SchemaOfKey(c, ById(cached.objects), k) == Some(s))
  }

  /** A schema that is re-read: the cached object behind a changed marker lives there. */
  ghost predicate Touched(c: ConnectionId, cached: Snapshot, swept: seq<Record>, s: string) {
    exists k :: Changed(cached.fingerprints, swept, k) && SchemaOfKey(c, ById(cached.objects), k) == Some(s)
  }

  /** Whatever left a re-read schema went to a re-read schema. */
  ghost predicate MovesCovered(c: ConnectionId, cached: Snapshot, new_: Server, scope: Scope) {
    var swept := SweepAt(new_, scope);
    forall s, t :: Goes(cached.objects, ObjectsAt(c, new_, scope), s, t) && Touched(c, cached, swept, s) ==> Touched(c, cached, swept, t)
  }

  lemma SchemasAreTouched(c: ConnectionId, cached: Snapshot, old_: Server, new_: Server, scope: Scope, d: SchemaDelta,
                          schemas: seq<string>)
    requires Spliceable(c, cached, old_, new_, scope, d, schemas)
    ensures forall s :: s in schemas <==> Touched(c, cached, SweepAt(new_, scope), s)
  {
    forall s ensures s in schemas <==> Touched(c, cached, SweepAt(new_, scope), s) {
      if k :| k in d.changed && SchemaOfKey(c, ById(cached.objects), k) == Some(s) {
        assert Changed(cached.fingerprints, SweepAt(new_, scope), k);
      }
    }
  }

  /** Objects that keep their schema are covered. */
  lemma HomeIsCovered(c: ConnectionId, cached: Snapshot, old_: Server, new_: Server, scope: Scope)
    requires InSync(c, cached, old_, scope) && Evolves(c, old_, new_, scope)
    ensures MovesCovered(c, cached, new_, scope)
  {
    var a, b, now := cached.objects, ObjectsAt(c, old_, scope), ObjectsAt(c, new_, scope);
    LivesInSame(a, b);
    forall s, t | Goes(a, now, s, t) ensures s == t {
      var o, f :| o in a && f in now && ObjectKey(o) == ObjectKey(f) && LivesIn(a, o, s) && LivesIn(now, f, t);
      assert Goes(b, now, s, t);
    }
  }

  function DroppedIds(c: ConnectionId, d: SchemaDelta): set<ObjectId> {
    set k, id | k in d.dropped && id in CandidateIds(c, k) :: id
  }

  lemma {:induction false} FirstPresentMember(byId: map<ObjectId, SchemaObject>, ids: seq<ObjectId>)
    ensures FirstPresent(byId, ids).Some? ==> exists id :: id in ids && id in byId && FirstPresent(byId, ids) == Some(byId[id])
  {
    if ids != [] && ids[0] !in byId {
      FirstPresentMember(byId, ids[1..]);
      assert forall id :: id in ids[1..] ==> id in ids;
    }
  }

  /** The cached object behind a resolved key, and the schema it lives in. */
  lemma Resolved(c: ConnectionId, cached: seq<SchemaObject>, k: Key, s: string) returns (o: SchemaObject)
    requires UniqueIds(cached) && SchemaOfKey(c, ById(cached), k) == Some(s) && k.0 != ViewKind
    ensures o in cached && ObjectKey(o) == k && LivesIn(cached, o, s)
  {
    ByIdMembers(cached);
    FirstPresentMember(ById(cached), CandidateIds(c, k));
    o := FirstPresent(ById(cached), CandidateIds(c, k)).value;
    SchemaIsLiving(cached, o);
  }

  lemma SweptKind(server: Server, scope: Scope, k: Key)
    requires HasKey(SweepAt(server, scope), k)
    ensures k.0 != ViewKind && k.0 != DatabaseKind
  {
    var r :| r in SweepAt(server, scope) && r.Key() == k;
    var i :| 0 <= i < |SweepAt(server, scope)| && SweepAt(server, scope)[i] == r;
  }

  /** A resolved schema: some cached object with a changed key lives there. */
  lemma TouchedSchema(c: ConnectionId, cached: Snapshot, old_: Server, new_: Server, scope: Scope, d: SchemaDelta,
                      schemas: seq<string>, s: string) returns (o: SchemaObject)
    requires Spliceable(c, cached, old_, new_, scope, d, schemas) && s in schemas
    ensures o in ObjectsAt(c, old_, scope) && ObjectKey(o) in d.changed
    ensures LivesIn(cached.objects, o, s) && LivesIn(ObjectsAt(c, old_, scope), o, s)
  {
    var k :| k in d.changed && SchemaOfKey(c, ById(cached.objects), k) == Some(s);
    ChangedSwept(old_, new_, scope, cached, d, k);
    o := Resolved(c, cached.objects, k, s);
    LivesInSame(cached.objects, ObjectsAt(c, old_, scope));
  }

  lemma ChangedSwept(old_: Server, new_: Server, scope: Scope, cached: Snapshot, d: SchemaDelta, k: Key)
    requires ExactDelta(d, cached.fingerprints, SweepAt(new_, scope)) && k in d.changed
    ensures HasKey(SweepAt(new_, scope), k) && k.0 != ViewKind && k.0 != DatabaseKind
  {
    assert HasKey(SweepAt(new_, scope), k);
    SweptKind(new_, scope, k);
  }

  lemma TouchedInScope(c: ConnectionId, cached: Snapshot, old_: Server, new_: Server, scope: Scope, d: SchemaDelta, schemas: seq<string>)
    requires Spliceable(c, cached, old_, new_, scope, d, schemas)
    ensures forall s :: s in schemas ==> Reaches(new_.searchPath, scope, s)
  {
    forall s | s in schemas ensures Reaches(new_.searchPath, scope, s) {
      var o := TouchedSchema(c, cached, old_, new_, scope, d, schemas, s);
      var e := EntryBehind(c, old_, scope, o);
      ChangedSwept(old_, new_, scope, cached, d, ObjectKey(o));
      OneSchemaOnly(c, old_, scope, o, s, e.schema);
      IntrospectMembers(old_.objects, old_.searchPath, scope);
    }
  }

  /** A swept key that is neither new nor changed carries the same marker as before. */
  lemma SameMarker(cached: seq<Record>, swept: seq<Record>, d: SchemaDelta, k: Key) returns (r: Record)
    requires ExactDelta(d, cached, swept) && HasKey(swept, k) && k !in d.added && k !in d.changed
    ensures r in cached && r in swept && r.Key() == k
  {
    assert HasKey(cached, k);
    r :| r in swept && r.Key() == k;
    var q :| q in cached && q.Key() == k;
    assert q.version == r.version;
    assert q == r;
  }

  /** Survival in terms of keys: the key is still swept and its schema is not re-read. */
  lemma SurvivalIsLocal(c: ConnectionId, cached: Snapshot, old_: Server, new_: Server, scope: Scope, d: SchemaDelta,
                        schemas: seq<string>, o: SchemaObject)
    requires Spliceable(c, cached, old_, new_, scope, d, schemas) && o in cached.objects
    ensures Survives(ById(cached.objects), DroppedIds(c, d), schemas, o) <==>
            ObjectKey(o) !in d.dropped && forall s :: s in schemas ==> !LivesIn(cached.objects, o, s)
  {
    SchemaIsLiving(cached.objects, o);
    DroppedByKey(c, cached, old_, new_, scope, d, schemas, o);
  }

  lemma DroppedByKey(c: ConnectionId, cached: Snapshot, old_: Server, new_: Server, scope: Scope, d: SchemaDelta,
                     schemas: seq<string>, o: SchemaObject)
    requires Spliceable(c, cached, old_, new_, scope, d, schemas) && o in cached.objects
    ensures o.id in DroppedIds(c, d) <==> ObjectKey(o) in d.dropped
  {
    var e := EntryBehind(c, old_, scope, o);
    forall k | k in d.dropped ensures k.0 != ViewKind { SweptKind(old_, scope, k); }
    KeyOfCandidate(c, d, o);
  }

  /** Of the ids a dropped key could be, an object has one exactly when the key is its own. */
  lemma KeyOfCandidate(c: ConnectionId, d: SchemaDelta, o: SchemaObject)
    requires o.id.connection == c && forall k :: k in d.dropped ==> k.0 != ViewKind
    ensures o.id in DroppedIds(c, d) <==> ObjectKey(o) in d.dropped
  {
    var key := ObjectKey(o);
    assert key.0 != ViewKind ==> o.id in CandidateIds(c, key);
    assert forall k: Key :: k.0 != ViewKind && o.id in CandidateIds(c, k) ==> k == key;
  }

  /** The re-read objects have one object per id, and are on the server. */
  lemma RefreshedIds(c: ConnectionId, cached: Snapshot, old_: Server, new_: Server, scope: Scope, d: SchemaDelta, schemas: seq<string>)
    requires Spliceable(c, cached, old_, new_, scope, d, schemas)
    ensures
      var refreshed := ObjectsFrom(c, EntriesOf(new_, schemas));
      && (forall o :: o in refreshed ==> o in ObjectsAt(c, new_, scope))
      && (forall a, b :: a in refreshed && b in refreshed && a.id == b.id ==> a == b)
  {
    var refreshed := ObjectsFrom(c, EntriesOf(new_, schemas));
    TouchedInScope(c, cached, old_, new_, scope, d, schemas);
    ReReadObjects(c, new_, scope, schemas);
    forall a, b | a in refreshed && b in refreshed && a.id == b.id ensures a == b { SameIdSame(c, new_, scope, a, b); }
  }

  lemma SameIdSame(c: ConnectionId, server: Server, scope: Scope, a: SchemaObject, b: SchemaObject)
    requires ServerOk(server.objects) && a in ObjectsAt(c, server, scope) && b in ObjectsAt(c, server, scope) && a.id == b.id
    ensures a == b
  {
    OneObjectPerKey(c, server, scope);
  }

  /** An object of a touched schema is re-read. */
  lemma TouchedIsReRead(c: ConnectionId, cached: Snapshot, old_: Server, new_: Server, scope: Scope, d: SchemaDelta,
                        schemas: seq<string>, f: SchemaObject, s: string)
    requires Spliceable(c, cached, old_, new_, scope, d, schemas) && f in ObjectsAt(c, new_, scope) && !f.Database?
    requires s in schemas && LivesIn(ObjectsAt(c, new_, scope), f, s)
    ensures f in ObjectsFrom(c, EntriesOf(new_, schemas))
  {
    TouchedInScope(c, cached, old_, new_, scope, d, schemas);
    ReReadObjects(c, new_, scope, schemas);
  }

  lemma FreshDatabase(c: ConnectionId, cached: Snapshot, old_: Server, new_: Server, scope: Scope, d: SchemaDelta,
                      schemas: seq<string>, f: SchemaObject)
    requires Spliceable(c, cached, old_, new_, scope, d, schemas) && f in ObjectsAt(c, new_, scope) && f.Database?
    ensures f in cached.objects && Survives(ById(cached.objects), DroppedIds(c, d), schemas, f)
  {
    var e := EntryBehind(c, new_, scope, f);
    SurvivalIsLocal(c, cached, old_, new_, scope, d, schemas, f);
    DatabaseStays(c, cached, old_, new_, scope, d, f);
  }

  /** The cached object behind a changed key lives in a re-read schema. */
  lemma ChangedLives(c: ConnectionId, cached: Snapshot, old_: Server, new_: Server, scope: Scope, d: SchemaDelta,
                     schemas: seq<string>, f: SchemaObject) returns (o: SchemaObject, s: string)
    requires Spliceable(c, cached, old_, new_, scope, d, schemas) && f in ObjectsAt(c, new_, scope) && !f.Database?
    requires ObjectKey(f) in d.changed
    ensures o in cached.objects && s in schemas && LivesIn(cached.objects, o, s) && ObjectKey(o) == ObjectKey(f)
  {
    var k := ObjectKey(f);
    s := SchemaOfKey(c, ById(cached.objects), k).value;
    ChangedSwept(old_, new_, scope, cached, d, k);
    o := Resolved(c, cached.objects, k, s);
  }

  /** An object that left a re-read schema is re-read where it is now. */
  lemma MoverIsReRead(c: ConnectionId, cached: Snapshot, old_: Server, new_: Server, scope: Scope, d: SchemaDelta,
                      schemas: seq<string>, o: SchemaObject, f: SchemaObject, s: string)
    requires Spliceable(c, cached, old_, new_, scope, d, schemas) && MovesCovered(c, cached, new_, scope)
    requires f in ObjectsAt(c, new_, scope) && !f.Database?
    requires o in cached.objects && s in schemas && LivesIn(cached.objects, o, s) && ObjectKey(o) == ObjectKey(f)
    ensures f in ObjectsFrom(c, EntriesOf(new_, schemas))
    ensures forall p :: p in Kept(cached.objects, DroppedIds(c, d), schemas) ==> p.id != f.id
  {
    var e := EntryBehind(c, new_, scope, f);
    SchemasAreTouched(c, cached, old_, new_, scope, d, schemas);
    assert Goes(cached.objects, ObjectsAt(c, new_, scope), s, e.schema);
    TouchedIsReRead(c, cached, old_, new_, scope, d, schemas, f, e.schema);
    NotKept(c, cached, old_, new_, scope, d, schemas, o, f.id, s);
  }

  /** An object whose marker did not move is the cached one. */
  lemma UnchangedIsCached(c: ConnectionId, cached: Snapshot, old_: Server, new_: Server, scope: Scope, d: SchemaDelta,
                          schemas: seq<string>, f: SchemaObject)
    requires Spliceable(c, cached, old_, new_, scope, d, schemas) && f in ObjectsAt(c, new_, scope) && !f.Database?
    requires ObjectKey(f) !in d.changed
    ensures f in cached.objects && ObjectKey(f) !in d.dropped
  {
    var e := EntryBehind(c, new_, scope, f);
    var r := SameMarker(cached.fingerprints, SweepAt(new_, scope), d, ObjectKey(f));
  }

  lemma FreshUnchanged(c: ConnectionId, cached: Snapshot, old_: Server, new_: Server, scope: Scope, d: SchemaDelta,
                       schemas: seq<string>, f: SchemaObject)
    requires Spliceable(c, cached, old_, new_, scope, d, schemas) && MovesCovered(c, cached, new_, scope)
    requires f in ObjectsAt(c, new_, scope) && !f.Database? && ObjectKey(f) !in d.changed
    ensures
      || (f in cached.objects && Survives(ById(cached.objects), DroppedIds(c, d), schemas, f))
      || (f in ObjectsFrom(c, EntriesOf(new_, schemas)) && forall p :: p in Kept(cached.objects, DroppedIds(c, d), schemas) ==> p.id != f.id)
  {
    UnchangedIsCached(c, cached, old_, new_, scope, d, schemas, f);
    SurvivalIsLocal(c, cached, old_, new_, scope, d, schemas, f);
    if s :| s in schemas && LivesIn(cached.objects, f, s) {
      MoverIsReRead(c, cached, old_, new_, scope, d, schemas, f, f, s);
    }
  }

  /** Everything the server has now is in the splice, if no move is left uncovered. */
  lemma FreshIsSpliced(c: ConnectionId, cached: Snapshot, old_: Server, new_: Server, scope: Scope, d: SchemaDelta,
                       schemas: seq<string>, f: SchemaObject)
    requires Spliceable(c, cached, old_, new_, scope, d, schemas) && MovesCovered(c, cached, new_, scope)
    requires f in ObjectsAt(c, new_, scope)
    ensures f in Splice(cached.objects, ObjectsFrom(c, EntriesOf(new_, schemas)), DroppedIds(c, d), schemas)
  {
    RefreshedIds(c, cached, old_, new_, scope, d, schemas);
    SpliceMembers(cached.objects, ObjectsFrom(c, EntriesOf(new_, schemas)), DroppedIds(c, d), schemas, f);
    if f.Database? {
      FreshDatabase(c, cached, old_, new_, scope, d, schemas, f);
    } else if ObjectKey(f) in d.changed {
      var o, s := ChangedLives(c, cached, old_, new_, scope, d, schemas, f);
      MoverIsReRead(c, cached, old_, new_, scope, d, schemas, o, f, s);
    } else {
      FreshUnchanged(c, cached, old_, new_, scope, d, schemas, f);
    }
  }

  lemma DatabaseStays(c: ConnectionId, cached: Snapshot, old_: Server, new_: Server, scope: Scope, d: SchemaDelta, f: SchemaObject)
    requires f.Database? && f.id.kind == DatabaseKind && ExactDelta(d, cached.fingerprints, SweepAt(new_, scope))
    requires SameMarkers(cached.fingerprints, SweepAt(old_, scope))
    ensures ObjectKey(f) !in d.dropped && forall objects, s :: !LivesIn(objects, f, s)
  {
    if ObjectKey(f) in d.dropped { SweptKind(old_, scope, ObjectKey(f)); }
  }

  /** No survivor has the id of an object whose key belongs to a cached object in a re-read schema. */
  lemma NotKept(c: ConnectionId, cached: Snapshot, old_: Server, new_: Server, scope: Scope, d: SchemaDelta,
                schemas: seq<string>, o: SchemaObject, id: ObjectId, s: string)
    requires Spliceable(c, cached, old_, new_, scope, d, schemas)
    requires o in cached.objects && s in schemas && LivesIn(cached.objects, o, s)
    requires ObjectKey(o) == (Fold(id.kind), id.native)
    ensures forall p :: p in Kept(cached.objects, DroppedIds(c, d), schemas) ==> p.id != id
  {
    OneObjectPerKey(c, old_, scope);
    FilterMembers(q => Survives(ById(cached.objects), DroppedIds(c, d), schemas, q), cached.objects);
    forall p | p in Kept(cached.objects, DroppedIds(c, d), schemas) ensures p.id != id {
      SurvivalIsLocal(c, cached, old_, new_, scope, d, schemas, p);
      assert p.id == id ==> ObjectKey(p) == ObjectKey(o);
    }
  }

  /** Everything in the splice is on the server now. */
  lemma SplicedIsFresh(c: ConnectionId, cached: Snapshot, old_: Server, new_: Server, scope: Scope, d: SchemaDelta,
                       schemas: seq<string>, p: SchemaObject)
    requires Spliceable(c, cached, old_, new_, scope, d, schemas)
    requires p in Splice(cached.objects, ObjectsFrom(c, EntriesOf(new_, schemas)), DroppedIds(c, d), schemas)
    ensures p in ObjectsAt(c, new_, scope)
  {
    RefreshedIds(c, cached, old_, new_, scope, d, schemas);
    SpliceMembers(cached.objects, ObjectsFrom(c, EntriesOf(new_, schemas)), DroppedIds(c, d), schemas, p);
    if p in cached.objects && Survives(ById(cached.objects), DroppedIds(c, d), schemas, p) && !p.Database? {
      SurvivorStays(c, cached, old_, new_, scope, d, schemas, p);
    }
  }

  /** A cached object that survives is on the server unchanged. */
  lemma SurvivorStays(c: ConnectionId, cached: Snapshot, old_: Server, new_: Server, scope: Scope, d: SchemaDelta,
                      schemas: seq<string>, p: SchemaObject)
    requires Spliceable(c, cached, old_, new_, scope, d, schemas) && p in cached.objects && !p.Database?
    requires Survives(ById(cached.objects), DroppedIds(c, d), schemas, p)
    ensures p in ObjectsAt(c, new_, scope)
  {
    OneObjectPerKey(c, new_, scope);
    OneObjectPerKey(c, old_, scope);
    var e := EntryBehind(c, old_, scope, p);
    var k := ObjectKey(p);
    SurvivalIsLocal(c, cached, old_, new_, scope, d, schemas, p);
    assert HasKey(SweepAt(new_, scope), k);
    if k in d.changed {
      var s := SchemaOfKey(c, ById(cached.objects), k).value;
      ChangedSwept(old_, new_, scope, cached, d, k);
      var o := Resolved(c, cached.objects, k, s);
      assert false;
    }
    var r := SameMarker(cached.fingerprints, SweepAt(new_, scope), d, k);
  }

  /** An object that left a re-read schema is in the splice exactly when the schema it is in now is re-read too. */
  lemma MovedObject(c: ConnectionId, cached: Snapshot, new_: Server, scope: Scope, d: SchemaDelta, schemas: seq<string>,
                    o: SchemaObject, f: SchemaObject, s: string, t: string)
    requires ServerOk(new_.objects) && Whole(scope) && UniqueIds(cached.objects)
    requires forall x :: x in schemas ==> Reaches(new_.searchPath, scope, x)
    requires o in cached.objects && LivesIn(cached.objects, o, s) && s in schemas
    requires f in ObjectsAt(c, new_, scope) && !f.Database? && LivesIn(ObjectsAt(c, new_, scope), f, t)
    requires forall p :: p in cached.objects && p.id == f.id ==> p == o
    ensures f in Splice(cached.objects, ObjectsFrom(c, EntriesOf(new_, schemas)), DroppedIds(c, d), schemas) <==> t in schemas
  {
    var refreshed := ObjectsFrom(c, EntriesOf(new_, schemas));
    ReReadObjects(c, new_, scope, schemas);
    OneObjectPerKey(c, new_, scope);
    LeaverIsNotKept(cached.objects, refreshed, DroppedIds(c, d), schemas, o, f, s);
    if f in refreshed { ReReadHome(c, new_, scope, schemas, f, t); }
  }

  /** Once its cached object is in a re-read schema, an object is in the splice exactly when it is re-read. */
  lemma LeaverIsNotKept(cached: seq<SchemaObject>, refreshed: seq<SchemaObject>, dropped: set<ObjectId>, schemas: seq<string>,
                        o: SchemaObject, f: SchemaObject, s: string)
    requires UniqueIds(cached) && o in cached && LivesIn(cached, o, s) && s in schemas
    requires forall p :: p in cached && p.id == f.id ==> p == o
    requires forall a, b :: a in refreshed && b in refreshed && a.id == b.id ==> a == b
    ensures f in Splice(cached, refreshed, dropped, schemas) <==> f in refreshed
  {
    SpliceMembers(cached, refreshed, dropped, schemas, f);
    SchemaIsLiving(cached, o);
    assert !Survives(ById(cached), dropped, schemas, o);
    FilterMembers(q => Survives(ById(cached), dropped, schemas, q), cached);
  }

  /** A re-read object lives in a re-read schema. */
  lemma ReReadHome(c: ConnectionId, server: Server, scope: Scope, schemas: seq<string>, f: SchemaObject, t: string)
    requires ServerOk(server.objects) && Whole(scope) && forall x :: x in schemas ==> Reaches(server.searchPath, scope, x)
    requires f in ObjectsFrom(c, EntriesOf(server, schemas)) && f in ObjectsAt(c, server, scope) && !f.Database?
    requires LivesIn(ObjectsAt(c, server, scope), f, t)
    ensures t in schemas
  {
    var some, all := EntriesOf(server, schemas), Introspect(server.objects, server.searchPath, scope);
    ObjectMembers(c, some);
    EntriesOfMembers(server, schemas);
    var e :| e in some && ObjectOf(c, ParentsOf(c, some), e) == Some(f);
    ReRead(c, server, scope, schemas, e);
    Shape(c, ParentsOf(c, some), e, f);
    var g := EntryBehind(c, server, scope, f);
    IntrospectUnique(c, server.objects, server.searchPath, scope);
    assert e == g;
    OneSchemaOnly(c, server, scope, f, t, e.schema);
  }

  /** The splice has each id once, and it is a full introspection exactly when no object left a re-read schema for one
      that is not re-read. */
  lemma SpliceIsFull(c: ConnectionId, cached: Snapshot, old_: Server, new_: Server, scope: Scope, d: SchemaDelta, schemas: seq<string>)
    requires Spliceable(c, cached, old_, new_, scope, d, schemas)
    ensures var spliced := Splice(cached.objects, ObjectsFrom(c, EntriesOf(new_, schemas)), DroppedIds(c, d), schemas);
            (SameMembers(spliced, ObjectsAt(c, new_, scope)) <==> MovesCovered(c, cached, new_, scope)) && UniqueIds(spliced)
  {
    var spliced := Splice(cached.objects, ObjectsFrom(c, EntriesOf(new_, schemas)), DroppedIds(c, d), schemas);
    forall o | o in spliced ensures o in ObjectsAt(c, new_, scope) {
      SplicedIsFresh(c, cached, old_, new_, scope, d, schemas, o);
    }
    if MovesCovered(c, cached, new_, scope) {
      forall o | o in ObjectsAt(c, new_, scope) ensures o in spliced {
        FreshIsSpliced(c, cached, old_, new_, scope, d, schemas, o);
      }
    } else {
      var f := UncoveredIsLost(c, cached, old_, new_, scope, d, schemas);
    }
    SpliceUnique(cached.objects, ObjectsFrom(c, EntriesOf(new_, schemas)), DroppedIds(c, d), schemas);
  }

  lemma UncoveredIsLost(c: ConnectionId, cached: Snapshot, old_: Server, new_: Server, scope: Scope, d: SchemaDelta,
                        schemas: seq<string>) returns (f: SchemaObject)
    requires Spliceable(c, cached, old_, new_, scope, d, schemas) && !MovesCovered(c, cached, new_, scope)
    ensures f in ObjectsAt(c, new_, scope)
    ensures f !in Splice(cached.objects, ObjectsFrom(c, EntriesOf(new_, schemas)), DroppedIds(c, d), schemas)
  {
    var a, b, swept := cached.objects, ObjectsAt(c, new_, scope), SweepAt(new_, scope);
    var s, t :| Goes(a, b, s, t) && Touched(c, cached, swept, s) && !Touched(c, cached, swept, t);
    SchemasAreTouched(c, cached, old_, new_, scope, d, schemas);
    f := LeaverIsLost(c, cached, old_, new_, scope, d, schemas, s, t);
  }

  lemma LeaverIsLost(c: ConnectionId, cached: Snapshot, old_: Server, new_: Server, scope: Scope, d: SchemaDelta,
                     schemas: seq<string>, s: string, t: string) returns (f: SchemaObject)
    requires Spliceable(c, cached, old_, new_, scope, d, schemas)
    requires Goes(cached.objects, ObjectsAt(c, new_, scope), s, t) && s in schemas && t !in schemas
    ensures f in ObjectsAt(c, new_, scope)
    ensures f !in Splice(cached.objects, ObjectsFrom(c, EntriesOf(new_, schemas)), DroppedIds(c, d), schemas)
  {
    var a, b := cached.objects, ObjectsAt(c, new_, scope);
    var o, g :| o in a && g in b && ObjectKey(o) == ObjectKey(g) && LivesIn(a, o, s) && LivesIn(b, g, t);
    f := g;
    TouchedInScope(c, cached, old_, new_, scope, d, schemas);
    OneOwner(c, cached, old_, scope, o, f);
    MovedObject(c, cached, new_, scope, d, schemas, o, f, s, t);
  }

  lemma OneOwner(c: ConnectionId, cached: Snapshot, old_: Server, scope: Scope, o: SchemaObject, f: SchemaObject)
    requires InSync(c, cached, old_, scope) && ServerOk(old_.objects) && o in cached.objects && ObjectKey(o) == ObjectKey(f)
    ensures forall p :: p in cached.objects && p.id == f.id ==> p == o
  {
    OneObjectPerKey(c, old_, scope);
    assert forall p: SchemaObject :: p.id == f.id ==> ObjectKey(p) == ObjectKey(o);
  }

  /** The snapshot an incremental refresh stores is in sync exactly when every move is covered. */
  lemma SplicedInSync(c: ConnectionId, cached: Snapshot, old_: Server, new_: Server, scope: Scope, d: SchemaDelta,
                      schemas: seq<string>, s: Snapshot)
    requires Spliceable(c, cached, old_, new_, scope, d, schemas) && s.fingerprints == SweepAt(new_, scope)
    requires s.objects == Splice(cached.objects, ObjectsFrom(c, EntriesOf(new_, schemas)), DroppedIds(c, d), schemas)
    ensures InSync(c, s, new_, scope) <==> MovesCovered(c, cached, new_, scope)
  {
    SpliceIsFull(c, cached, old_, new_, scope, d, schemas);
    SweepUnique(new_.objects, new_.searchPath, scope);
  }

  /** A one-table scope is outgrown: the splice re-reads the table's whole schema, so it is out of sync as soon as that
      schema holds anything outside the scope. */
  lemma OneTableOutgrown(c: ConnectionId, cached: Snapshot, server: Server, schema: string, table: string, d: SchemaDelta,
                         schemas: seq<string>, o: SchemaObject)
    requires o in ObjectsFrom(c, EntriesOf(server, schemas))
    requires forall p :: p in ObjectsAt(c, server, OneTable(schema, table)) ==> p.id != o.id
    ensures !SameMembers(Splice(cached.objects, ObjectsFrom(c, EntriesOf(server, schemas)), DroppedIds(c, d), schemas),
                         ObjectsAt(c, server, OneTable(schema, table)))
  {
    var refreshed, kept := ObjectsFrom(c, EntriesOf(server, schemas)), Kept(cached.objects, DroppedIds(c, d), schemas);
    var seen := set k | k in kept :: k.id;
    UnseenMembers(seen, refreshed);
    var spliced := Splice(cached.objects, refreshed, DroppedIds(c, d), schemas);
    if o.id in seen {
      var k :| k in kept && k.id == o.id;
      assert k in spliced;
    } else {
      var u :| u in Unseen(seen, refreshed) && u.id == o.id;
      assert u in spliced;
    }
  }

  /** When no marker moved, the cached snapshot already is a full introspection. */
  lemma UnchangedIsFull(c: ConnectionId, cached: Snapshot, old_: Server, new_: Server, scope: Scope, d: SchemaDelta)
    requires ServerOk(old_.objects) && ServerOk(new_.objects) && Whole(scope)
    requires InSync(c, cached, old_, scope) && SameMarkers(cached.fingerprints, SweepAt(old_, scope))
    requires Drifts(c, old_, new_, scope) && ExactDelta(d, cached.fingerprints, SweepAt(new_, scope)) && d.IsEmpty()
    ensures SameMembers(cached.objects, ObjectsAt(c, new_, scope))
  {
    forall o ensures o in cached.objects <==> o in ObjectsAt(c, new_, scope) {
      var k := ObjectKey(o);
      if o in cached.objects && !o.Database? {
        var e := EntryBehind(c, old_, scope, o);
        assert k !in d.dropped;
        var r := SameMarker(cached.fingerprints, SweepAt(new_, scope), d, k);
      }
      if o in ObjectsAt(c, new_, scope) && !o.Database? {
        var e := EntryBehind(c, new_, scope, o);
        var r := SameMarker(cached.fingerprints, SweepAt(new_, scope), d, k);
      }
    }
  }

  // --- the service ---

  datatype FullRefreshReason = NoCachedFingerprints | SweepUnavailable | UnknownObject | TooMuchChanged | UnresolvedSchema

  datatype RefreshPath = Unchanged | Incremental(schemas: nat, touched: nat) | FullRefresh(reason: FullRefreshReason)

  datatype ServiceError = QueryFailed

  /** Which way a delta is handled: the fallbacks in order, then the splice. */
  ghost predicate TakesPath(c: ConnectionId, cached: Snapshot, d: SchemaDelta, path: RefreshPath) {
    if d.IsEmpty() then path == Unchanged
    else if d.added != [] then path == FullRefresh(UnknownObject)
    else if (|d.added| + |d.changed| + |d.dropped|) * 5 > |cached.fingerprints| * 2 then path == FullRefresh(TooMuchChanged)
    else if exists k :: k in d.changed && SchemaOfKey(c, ById(cached.objects), k).None? then path == FullRefresh(UnresolvedSchema)
    else path.Incremental? && path.touched == |d.changed| + |d.dropped| && path.schemas == |TouchedSchemas(c, cached, d)|
  }

  /** The schemas of the cached objects behind the changed keys. */
  ghost function TouchedSchemas(c: ConnectionId, cached: Snapshot, d: SchemaDelta): set<string> {
    set k | k in d.changed && SchemaOfKey(c, ById(cached.objects), k).Some? :: SchemaOfKey(c, ById(cached.objects), k).value
  }

  lemma {:induction false} CountDistinct(s: seq<string>)
    requires Distinct(s)
    ensures |set x | x in s| == |s|
  {
    if s != [] {
      var n := |s| - 1;
      CountDistinct(s[..n]);
      assert s == s[..n] + [s[n]] && s[n] !in s[..n];
      assert (set x | x in s) == (set x | x in s[..n]) + {s[n]};
    }
  }

  lemma TouchedAre(c: ConnectionId, cached: Snapshot, d: SchemaDelta, schemas: seq<string>)
    requires Distinct(schemas) && forall s :: s in schemas <==> exists k :: k in d.changed && SchemaOfKey(c, ById(cached.objects), k) == Some(s)
    ensures |TouchedSchemas(c, cached, d)| == |schemas| && forall s :: s in schemas <==> s in TouchedSchemas(c, cached, d)
  {
    CountDistinct(schemas);
    assert (set x | x in schemas) == TouchedSchemas(c, cached, d);
  }

  /** What a splice leaves: the survivors of the cached objects, and those of the re-read schemas. */
  ghost predicate Spliced(c: ConnectionId, cached: Snapshot, server: Server, d: SchemaDelta, s: Snapshot) {
    && s.connection == cached.connection && s.keywords == cached.keywords
    && exists schemas ::
         && (forall x :: x in schemas <==> x in TouchedSchemas(c, cached, d))
         && Sorted(StrLe, schemas) && Distinct(schemas)
         && s.objects == Splice(cached.objects, ObjectsFrom(c, EntriesOf(server, schemas)), DroppedIds(c, d), schemas)
  }

  /** Which way an incremental refresh goes, from the cached snapshot and the server alone. */
  ghost predicate Decided(c: ConnectionId, cached: Option<Snapshot>, server: Server, scope: Scope, path: RefreshPath) {
    if cached.None? || cached.value.fingerprints == [] then path == FullRefresh(NoCachedFingerprints)
    else if !server.mode.Sweeps? then path == FullRefresh(SweepUnavailable)
    else UniqueKeys(cached.value.fingerprints) ==>
      exists d :: ExactDelta(d, cached.value.fingerprints, SweepAt(server, scope)) && TakesPath(c, cached.value, d, path)
  }

  /** The cache, if it has markers to diff against, was in sync with `old_`, from which the server drifted. */
  ghost predicate CacheGood(c: ConnectionId, cached: Option<Snapshot>, scope: Scope, old_: Server, server: Server) {
    cached.Some? && cached.value.fingerprints != [] ==> InSync(c, cached.value, old_, scope) && Drifts(c, old_, server, scope)
  }

  /** The path leads back into sync: every one but a splice that leaves a move uncovered. */
  ghost predicate Recovers(c: ConnectionId, cached: Option<Snapshot>, server: Server, scope: Scope, path: RefreshPath) {
    path.Incremental? ==> cached.Some? && MovesCovered(c, cached.value, server, scope)
  }

  /** What an incremental refresh leaves: a snapshot in sync with the server exactly when the path leads back into sync. */
  ghost predicate Refreshed(c: ConnectionId, cached: Option<Snapshot>, scope: Scope, old_: Server, server: Server, s: Snapshot,
                            path: RefreshPath)
  {
    && Decided(c, cached, server, scope, path)
    && (Whole(scope) && CacheGood(c, cached, scope, old_, server) ==> (InSync(c, s, server, scope) <==> Recovers(c, cached, server, scope, path)))
    && (path.Unchanged? ==> cached == Some(s))
    && (path.Incremental? ==> cached.Some? && s.version == cached.value.version + 1 && s.fingerprints == SweepAt(server, scope))
  }

  lemma UnchangedRefreshed(c: ConnectionId, cached: Snapshot, scope: Scope, old_: Server, server: Server, d: SchemaDelta)
    requires ServerOk(server.objects) && ServerOk(old_.objects) && server.mode.Sweeps? && cached.fingerprints != [] && d.IsEmpty()
    requires UniqueKeys(cached.fingerprints) ==> ExactDelta(d, cached.fingerprints, SweepAt(server, scope))
    ensures Refreshed(c, Some(cached), scope, old_, server, cached, Unchanged)
  {
    if UniqueKeys(cached.fingerprints) { assert TakesPath(c, cached, d, Unchanged); }
    if Whole(scope) && CacheGood(c, Some(cached), scope, old_, server) {
      UnchangedIsFull(c, cached, old_, server, scope, d);
      SweepUnique(server.objects, server.searchPath, scope);
      EmptyDeltaSameMarkers(cached.fingerprints, SweepAt(server, scope), d);
    }
  }

  class SchemaService {
    var snapshots: map<ConnectionId, Snapshot>
    var scopes: map<ConnectionId, Scope>

    constructor ()
      ensures snapshots == map[] && scopes == map[]
    {
      snapshots, scopes := map[], map[];
    }

    /** `refresh_scope_for`, once the cache has been consulted. */
    function ScopeFor(c: ConnectionId): Scope
      reads this
    {
      if c in scopes then scopes[c] else if c in snapshots then All else SearchPath
    }

    /** `load_cached`: a cache file of another connection is a miss. */
    method LoadCached(c: ConnectionId, disk: Option<Snapshot>) returns (loaded: Option<Snapshot>)
      modifies this`snapshots
      ensures loaded == if disk.Some? && disk.value.connection == c then disk else None
      ensures snapshots == if loaded.Some? then old(snapshots)[c := loaded.value] else old(snapshots)
    {
      if disk.None? || disk.value.connection != c { return None; }
      snapshots := snapshots[c := disk.value];
      loaded := disk;
    }

    /** `refresh_scope`: full introspection, remembered with its scope. */
    method RefreshScope(c: ConnectionId, scope: Scope, server: Server) returns (r: Result<Snapshot, ServiceError>)
      modifies this
      ensures r.Err? <==> server.mode.SweepFails?
      ensures r.Err? ==> unchanged(this)
      ensures r.Ok? ==>
                && r.value.objects == ObjectsAt(c, server, scope) && r.value.connection == c
                && r.value.keywords == server.keywords
                && r.value.fingerprints == (if server.mode.Sweeps? then SweepAt(server, scope) else [])
                && r.value.version == (if c in old(snapshots) then old(snapshots)[c].version + 1 else 1)
                && snapshots == old(snapshots)[c := r.value] && scopes == old(scopes)[c := scope]
    {
      var entries := Introspect(server.objects, server.searchPath, scope);
      var fingerprints: seq<Fingerprint> := [];
      if server.mode.SweepFails? { return Err(QueryFailed); }
      if server.mode.Sweeps? { fingerprints := Sweep(server.objects, server.searchPath, scope); }
      var objects := ObjectsFromEntries(c, entries);
      var version := if c in snapshots then snapshots[c].version + 1 else 1;
      var snapshot := Snapshot(c, version, objects, server.keywords, Records(fingerprints));
      snapshots := snapshots[c := snapshot];
      scopes := scopes[c := scope];
      r := Ok(snapshot);
    }

    /** `full_refresh_fallback`. */
    method Fallback(c: ConnectionId, reason: FullRefreshReason, scope: Scope, server: Server)
      returns (r: Result<(Snapshot, RefreshPath), ServiceError>)
      modifies this
      ensures r.Err? <==> server.mode.SweepFails?
      ensures r.Err? ==> unchanged(this)
      ensures r.Ok? ==> r.value.1 == FullRefresh(reason) && snapshots == old(snapshots)[c := r.value.0] && scopes == old(scopes)[c := scope]
      ensures r.Ok? && Whole(scope) && ServerOk(server.objects) ==> InSync(c, r.value.0, server, scope)
    {
      var full := RefreshScope(c, scope, server);
      if full.Err? { return Err(full.error); }
      if Whole(scope) && ServerOk(server.objects) { FullIsInSync(c, full.value, server, scope); }
      r := Ok((full.value, FullRefresh(reason)));
    }

    /** The cached objects' schemas behind the changed keys; `unresolved` when one of them has none. */
    method ResolveSchemas(c: ConnectionId, objects: seq<SchemaObject>, changed: seq<Key>)
      returns (schemas: seq<string>, unresolved: bool)
      ensures unresolved <==> exists k :: k in changed && SchemaOfKey(c, ById(objects), k).None?
      ensures forall s :: s in schemas <==> exists k :: k in changed && SchemaOfKey(c, ById(objects), k) == Some(s)
      ensures Sorted(StrLe, schemas) && Distinct(schemas)
    {
      var byId := ById(objects);
      schemas, unresolved := [], false;
      for i := 0 to |changed|
        invariant unresolved <==> exists k :: k in changed[..i] && SchemaOfKey(c, byId, k).None?
        invariant forall s :: s in schemas <==> exists k :: k in changed[..i] && SchemaOfKey(c, byId, k) == Some(s)
      {
        assert changed[..i + 1] == changed[..i] + [changed[i]];
        match SchemaOfKey(c, byId, changed[i])
        case Some(s) => schemas := schemas + [s];
        case None => unresolved := true;
      }
      assert changed[..|changed|] == changed;
      StrOrder();
      SortSorts(StrLe, schemas);
      SortMembers(StrLe, schemas);
      DedupMembers(Sort(StrLe, schemas));
      DedupDistinct(StrLe, Sort(StrLe, schemas));
      schemas := Dedup(Sort(StrLe, schemas));
    }

    method ReReadSchemas(server: Server, schemas: seq<string>) returns (entries: seq<Entry>)
      ensures entries == EntriesOf(server, schemas)
    {
      entries := [];
      for i := 0 to |schemas|
        invariant entries == EntriesOf(server, schemas[..i])
      {
        assert schemas[..i + 1][..i] == schemas[..i];
        entries := entries + Introspect(server.objects, server.searchPath, OneSchema(schemas[i]));
      }
      assert schemas[..|schemas|] == schemas;
    }

    /** `refresh_incremental`.  When the cached snapshot was in sync with an earlier state `old_` of the server and the
        server has drifted from there, the result is in sync with the server now on every path, except after a splice
        that leaves a move uncovered. */
    method RefreshIncremental(c: ConnectionId, disk: Option<Snapshot>, server: Server, ghost old_: Server)
      returns (r: Result<(Snapshot, RefreshPath), ServiceError>)
      requires ServerOk(server.objects) && ServerOk(old_.objects)
      modifies this
      ensures r.Err? <==> server.mode.SweepFails?
      ensures r.Err? ==> scopes == old(scopes) && (disk.None? ==> snapshots == old(snapshots))
      ensures r.Ok? ==> c in snapshots && snapshots[c] == r.value.0
      ensures r.Ok? ==>
                var cached := if c in old(snapshots) then Some(old(snapshots)[c])
                              else if disk.Some? && disk.value.connection == c then disk else None;
                var scope := if c in old(scopes) then old(scopes)[c] else if cached.Some? then All else SearchPath;
                && scopes == (if r.value.1.FullRefresh? then old(scopes)[c := scope] else old(scopes))
                && Refreshed(c, cached, scope, old_, server, r.value.0, r.value.1)
    {
      var cached: Option<Snapshot>;
      if c in snapshots { cached := Some(snapshots[c]); } else { cached := LoadCached(c, disk); }
      var scope := ScopeFor(c);
      if cached.None? || cached.value.fingerprints == [] {
        r := Fallback(c, NoCachedFingerprints, scope, server);
        return;
      }
      if !server.mode.Sweeps? {
        r := Fallback(c, SweepUnavailable, scope, server);
        return;
      }
      r := SweepAndApply(c, cached.value, server, scope, old_);
    }

    /** `refresh_incremental` once there are markers to compare: sweep and diff. */
    method SweepAndApply(c: ConnectionId, cached: Snapshot, server: Server, scope: Scope, ghost old_: Server)
      returns (r: Result<(Snapshot, RefreshPath), ServiceError>)
      requires ServerOk(server.objects) && ServerOk(old_.objects) && server.mode.Sweeps? && cached.fingerprints != []
      requires c in snapshots && snapshots[c] == cached
      modifies this
      ensures r.Ok? && c in snapshots && snapshots[c] == r.value.0
      ensures scopes == if r.value.1.FullRefresh? then old(scopes)[c := scope] else old(scopes)
      ensures Refreshed(c, Some(cached), scope, old_, server, r.value.0, r.value.1)
    {
      var swept := Sweep(server.objects, server.searchPath, scope);
      var delta := DiffFingerprints(cached.fingerprints, swept);
      SweepUnique(server.objects, server.searchPath, scope);
      if delta.IsEmpty() {
        UnchangedRefreshed(c, cached, scope, old_, server, delta);
        return Ok((cached, Unchanged));
      }
      r := ApplyDelta(c, cached, server, scope, delta, old_);
    }

    /** The last part of `refresh_incremental`: re-read the schemas and splice. */
    method ReReadAndSplice(c: ConnectionId, cached: Snapshot, server: Server, scope: Scope, delta: SchemaDelta, schemas: seq<string>)
      returns (snapshot: Snapshot)
      ensures snapshot.objects == Splice(cached.objects, ObjectsFrom(c, EntriesOf(server, schemas)), DroppedIds(c, delta), schemas)
      ensures snapshot.connection == cached.connection && snapshot.keywords == cached.keywords
      ensures snapshot.version == cached.version + 1 && snapshot.fingerprints == SweepAt(server, scope)
    {
      var entries := ReReadSchemas(server, schemas);
      var refreshed := ObjectsFromEntries(c, entries);
      var objects := Splice(cached.objects, refreshed, DroppedIds(c, delta), schemas);
      snapshot := Snapshot(cached.connection, cached.version + 1, objects, cached.keywords,
                           Records(Sweep(server.objects, server.searchPath, scope)));
    }

    /** `refresh_incremental` from a non-empty delta on: splice, or one of three fallbacks. */
    method ApplyDelta(c: ConnectionId, cached: Snapshot, server: Server, scope: Scope, delta: SchemaDelta, ghost old_: Server)
      returns (r: Result<(Snapshot, RefreshPath), ServiceError>)
      requires ServerOk(server.objects) && ServerOk(old_.objects) && server.mode.Sweeps? && !delta.IsEmpty()
      requires UniqueKeys(cached.fingerprints) ==> ExactDelta(delta, cached.fingerprints, SweepAt(server, scope))
      modifies this
      ensures r.Ok? && c in snapshots && snapshots[c] == r.value.0
      ensures Whole(scope) && cached.fingerprints != [] && InSync(c, cached, old_, scope) && Drifts(c, old_, server, scope) ==>
                (InSync(c, r.value.0, server, scope) <==> (r.value.1.Incremental? ==> MovesCovered(c, cached, server, scope)))
      ensures r.value.1.FullRefresh? ==> scopes == old(scopes)[c := scope]
      ensures r.value.1.Incremental? ==>
                scopes == old(scopes) && r.value.0.version == cached.version + 1 && r.value.0.fingerprints == SweepAt(server, scope)
      ensures TakesPath(c, cached, delta, r.value.1)
      ensures r.value.1.Incremental? ==> Spliced(c, cached, server, delta, r.value.0)
    {
      if delta.added != [] {
        r := Fallback(c, UnknownObject, scope, server);
        return;
      }
      if delta.Touched() * 5 > |cached.fingerprints| * 2 {
        r := Fallback(c, TooMuchChanged, scope, server);
        return;
      }
      var schemas, unresolved := ResolveSchemas(c, cached.objects, delta.changed);
      if unresolved {
        r := Fallback(c, UnresolvedSchema, scope, server);
        return;
      }
      TouchedAre(c, cached, delta, schemas);
      var snapshot := ReReadAndSplice(c, cached, server, scope, delta, schemas);
      if Whole(scope) && cached.fingerprints != [] && InSync(c, cached, old_, scope) && Drifts(c, old_, server, scope) {
        SplicedInSync(c, cached, old_, server, scope, delta, schemas, snapshot);
      }
      snapshots := snapshots[c := snapshot];
      r := Ok((snapshot, Incremental(|schemas|, delta.Touched())));
    }
  }

  lemma FullIsInSync(c: ConnectionId, s: Snapshot, server: Server, scope: Scope)
    requires ServerOk(server.objects) && s.objects == ObjectsAt(c, server, scope)
    requires s.fingerprints == [] || s.fingerprints == SweepAt(server, scope)
    ensures InSync(c, s, server, scope)
  {
    IntrospectUnique(c, server.objects, server.searchPath, scope);
    ObjectsUnique(c, Introspect(server.objects, server.searchPath, scope));
    SweepUnique(server.objects, server.searchPath, scope);
  }

  lemma EmptyDeltaSameMarkers(cached: seq<Record>, swept: seq<Record>, d: SchemaDelta)
    requires ExactDelta(d, cached, swept) && d.IsEmpty() && UniqueKeys(cached) && UniqueKeys(swept)
    ensures SameMarkers(cached, swept)
  {
    forall r ensures r in cached <==> r in swept {
      OneRecord(cached);
      OneRecord(swept);
      if r in cached {
        assert r.Key() !in d.dropped;
        var q := SameMarker(cached, swept, d, r.Key());
      }
      if r in swept {
        var q := SameMarker(cached, swept, d, r.Key());
      }
    }
  }

  // --- whole runs ---

  /** Markers are never reused: any two moments of the server's life are related by `Evolves`. */
  ghost predicate LifeOf(c: ConnectionId, servers: seq<Server>, scope: Scope) {
    && (forall i :: 0 <= i < |servers| ==> ServerOk(servers[i].objects))
    && (forall i, j :: 0 <= i <= j < |servers| ==> Evolves(c, servers[i], servers[j], scope))
  }

  /** The snapshot the service holds, if any, is a full introspection of moment `at`. */
  ghost predicate Holds(service: SchemaService, c: ConnectionId, servers: seq<Server>, scope: Scope, at: nat)
    reads service
  {
    c in service.snapshots ==> at < |servers| && InSync(c, service.snapshots[c], servers[at], scope)
  }

  /** However often the service refreshes, whichever path each refresh takes and whichever fail, the snapshot it
      holds after a refresh that succeeds is a full introspection of that moment. */
  method Follow(service: SchemaService, c: ConnectionId, servers: seq<Server>, scope: Scope)
    requires c !in service.snapshots && service.ScopeFor(c) == scope && Whole(scope)
    requires LifeOf(c, servers, scope)
    modifies service
    ensures exists i: nat :: Holds(service, c, servers, scope, i)
    ensures servers != [] && !servers[|servers| - 1].mode.SweepFails? ==>
              c in service.snapshots && Holds(service, c, servers, scope, |servers| - 1)
  {
    ghost var last: nat := 0;
    for i := 0 to |servers|
      invariant Following(service, c, servers, scope, last, i)
      invariant i > 0 && !servers[i - 1].mode.SweepFails? ==> c in service.snapshots && last == i - 1
    {
      var ok := FollowOne(service, c, servers, scope, last, i);
      if ok { last := i; }
    }
    assert Holds(service, c, servers, scope, last);
  }

  /** Before refresh `i`: the scope is remembered with the snapshot, which stems from refresh `last`. */
  ghost predicate Following(service: SchemaService, c: ConnectionId, servers: seq<Server>, scope: Scope, last: nat, i: nat)
    reads service
  {
    && service.ScopeFor(c) == scope && (c in service.snapshots ==> c in service.scopes && last < i)
    && last <= i && Holds(service, c, servers, scope, last)
  }

  /** One refresh of the run. */
  method FollowOne(service: SchemaService, c: ConnectionId, servers: seq<Server>, scope: Scope, ghost last: nat, i: nat) returns (ok: bool)
    requires Whole(scope) && LifeOf(c, servers, scope) && i < |servers|
    requires Following(service, c, servers, scope, last, i)
    modifies service
    ensures ok <==> !servers[i].mode.SweepFails?
    ensures ok ==> c in service.snapshots
    ensures Following(service, c, servers, scope, if ok then i else last, i + 1)
  {
    assert Evolves(c, servers[last], servers[i], scope);
    if c in service.snapshots { HomeIsCovered(c, service.snapshots[c], servers[last], servers[i], scope); }
    var r := service.RefreshIncremental(c, None, servers[i], servers[last]);
    ok := r.Ok?;
  }
}
