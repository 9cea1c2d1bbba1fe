/**
 A table that changes schema is lost by the incremental refresh (`refresh_incremental` in
 `tempr_services/src/schema.rs`), and stays lost: three tables, one of which moves from schema `a` to schema `b`.
 */
module SchemaMoves {
  import opened FingerprintDiff
  import opened SchemaObjects
  import opened SchemaRefresh
  import opened SchemaServer
  import opened Sorting
  import opened Wrappers

  function Row(native: nat, schema: string, name: string, version: nat): Served {
    Served(TableEntry(native, schema, name, None), version)
  }

  function Before(): Server { Server([Row(1, "a", "t", 1), Row(2, "b", "u", 1), Row(3, "b", "w", 1)], {}, [], Sweeps) }

  /** Table `t` has moved to `b`; its marker has changed. */
  function After(): Server { Server([Row(1, "b", "t", 2), Row(2, "b", "u", 1), Row(3, "b", "w", 1)], {}, [], Sweeps) }

  function TableOf(c: ConnectionId, native: nat, schema: string, name: string): SchemaObject {
    Table(Derived(c, TableKind, native), schema, name, None)
  }

  function Marker(native: nat, version: nat): Record { Record(TableKind, native, version) }

  function OldMarkers(): seq<Record> { [Marker(1, 1), Marker(2, 1), Marker(3, 1)] }

  function NewMarkers(): seq<Record> { [Marker(1, 2), Marker(2, 1), Marker(3, 1)] }

  const MOVED: Key := (TableKind, 1)

  // --- what the two states look like ---

  lemma ThreeRows(c: ConnectionId, x: Served, y: Served, z: Served, scope: Scope, path: set<string>)
    requires scope.All? && x.entry.TableEntry? && y.entry.TableEntry? && z.entry.TableEntry?
    ensures Introspect([x, y, z], path, scope) == [x.entry, y.entry, z.entry]
    ensures Records(Sweep([x, y, z], path, scope)) == [Marker(x.entry.native, x.version), Marker(y.entry.native, y.version),
                                                       Marker(z.entry.native, z.version)]
  {
    var rows := [x, y, z];
    assert rows[1..] == [y, z] && rows[1..][1..] == [z] && rows[1..][1..][1..] == [];
    assert Introspect([z], path, scope) == [z.entry];
    assert Introspect([y, z], path, scope) == [y.entry, z.entry];
    assert Sweep([z], path, scope) == [Fingerprint(RelationObject, z.entry.native, z.version)];
    assert Sweep([y, z], path, scope) == [Fingerprint(RelationObject, y.entry.native, y.version),
                                          Fingerprint(RelationObject, z.entry.native, z.version)];
  }

  lemma ThreeTables(c: ConnectionId, x: Entry, y: Entry, z: Entry)
    requires x.TableEntry? && y.TableEntry? && z.TableEntry?
    ensures forall o :: o in ObjectsFrom(c, [x, y, z]) <==>
              o in [HeadOf(c, x).value, HeadOf(c, y).value, HeadOf(c, z).value]
  {
    var entries := [x, y, z];
    var parents := ParentsOf(c, entries);
    ObjectMembers(c, entries);
    forall o ensures o in ObjectsFrom(c, entries) <==> o in [HeadOf(c, x).value, HeadOf(c, y).value, HeadOf(c, z).value] {
      assert ObjectOf(c, parents, x) == HeadOf(c, x) && ObjectOf(c, parents, y) == HeadOf(c, y) && ObjectOf(c, parents, z) == HeadOf(c, z);
      assert x in entries && y in entries && z in entries;
    }
  }

  lemma BeforeIs(c: ConnectionId)
    ensures ServerOk(Before().objects)
    ensures SweepAt(Before(), All) == OldMarkers()
    ensures forall o :: o in ObjectsAt(c, Before(), All) <==> o in [TableOf(c, 1, "a", "t"), TableOf(c, 2, "b", "u"), TableOf(c, 3, "b", "w")]
  {
    var rows := Before().objects;
    RowsOk(rows[0], rows[1], rows[2]);
    ThreeRows(c, rows[0], rows[1], rows[2], All, {});
    ThreeTables(c, rows[0].entry, rows[1].entry, rows[2].entry);
  }

  lemma AfterIs(c: ConnectionId)
    ensures ServerOk(After().objects)
    ensures SweepAt(After(), All) == NewMarkers()
    ensures forall o :: o in ObjectsAt(c, After(), All) <==> o in [TableOf(c, 1, "b", "t"), TableOf(c, 2, "b", "u"), TableOf(c, 3, "b", "w")]
  {
    var rows := After().objects;
    RowsOk(rows[0], rows[1], rows[2]);
    ThreeRows(c, rows[0], rows[1], rows[2], All, {});
    ThreeTables(c, rows[0].entry, rows[1].entry, rows[2].entry);
  }

  /** Three tables with different ids and names. */
  lemma RowsOk(x: Served, y: Served, z: Served)
    requires x.entry.TableEntry? && y.entry.TableEntry? && z.entry.TableEntry?
    requires x.entry.native != y.entry.native && x.entry.native != z.entry.native && y.entry.native != z.entry.native
    requires x.entry.name != y.entry.name && x.entry.name != z.entry.name && y.entry.name != z.entry.name
    ensures ServerOk([x, y, z])
  {
  }

  /** The one delta between the markers of the two states. */
  lemma DeltaIs(d: SchemaDelta)
    requires ExactDelta(d, OldMarkers(), NewMarkers())
    ensures d == SchemaDelta([], [MOVED], [])
  {
    var a, b := OldMarkers(), NewMarkers();
    forall k ensures HasKey(a, k) <==> HasKey(b, k) { SameKeys(k); }
    NoKeys(d.added);
    NoKeys(d.dropped);
    forall k ensures k in d.changed <==> k == MOVED { ChangedKey(k); }
    OneKey(d.changed, MOVED);
  }

  lemma NoKeys(keys: seq<Key>)
    ensures (forall k :: k !in keys) ==> keys == []
  {
    if keys != [] { assert keys[0] in keys; }
  }

  lemma OneKey(keys: seq<Key>, key: Key)
    ensures Distinct(keys) && (forall k :: k in keys <==> k == key) ==> keys == [key]
  {
    if keys == [] {
      assert key !in keys;
    } else if |keys| > 1 {
      assert keys[0] in keys && keys[1] in keys;
    } else {
      assert keys[0] in keys;
    }
  }

  lemma SameKeys(k: Key)
    ensures HasKey(OldMarkers(), k) <==> k.0.TableKind? && 1 <= k.1 <= 3
    ensures HasKey(NewMarkers(), k) <==> k.0.TableKind? && 1 <= k.1 <= 3
  {
    var a, b := OldMarkers(), NewMarkers();
    assert a[0].Key() == (TableKind, 1) && a[1].Key() == (TableKind, 2) && a[2].Key() == (TableKind, 3);
    assert b[0].Key() == (TableKind, 1) && b[1].Key() == (TableKind, 2) && b[2].Key() == (TableKind, 3);
  }

  lemma ChangedKey(k: Key)
    ensures Changed(OldMarkers(), NewMarkers(), k) <==> k == MOVED
  {
    var a, b := OldMarkers(), NewMarkers();
    assert a[0] in a && b[0] in b && a[0].Key() == MOVED == b[0].Key();
  }

  // --- the loss ---

  /** The server drifts: only the moved table's marker changes, and nothing else does. */
  lemma TableDrifts(c: ConnectionId)
    ensures Drifts(c, Before(), After(), All)
  {
    BeforeIs(c);
    AfterIs(c);
    forall r, o | r in OldMarkers() && r in NewMarkers() && ObjectKey(o) == r.Key()
      ensures o in ObjectsAt(c, Before(), All) <==> o in ObjectsAt(c, After(), All)
    {
      SharedMarker(c, r, o);
    }
  }

  /** A shared marker is not the moved table's. */
  lemma SharedMarker(c: ConnectionId, r: Record, o: SchemaObject)
    requires r in OldMarkers() && r in NewMarkers() && ObjectKey(o) == r.Key()
    ensures o != TableOf(c, 1, "a", "t") && o != TableOf(c, 1, "b", "t")
  {
    assert r == Marker(2, 1) || r == Marker(3, 1);
  }

  /** The moved key resolves to the schema the table was in. */
  lemma MovedResolves(c: ConnectionId, objects: seq<SchemaObject>)
    requires UniqueIds(objects) && TableOf(c, 1, "a", "t") in objects
    ensures SchemaOfKey(c, ById(objects), MOVED) == Some("a")
  {
    ByIdMembers(objects);
  }

  lemma OldTableCached(c: ConnectionId, cached: Snapshot)
    requires InSync(c, cached, Before(), All)
    ensures TableOf(c, 1, "a", "t") in cached.objects
  {
    BeforeIs(c);
  }

  lemma OneChange()
    ensures UniqueKeys(OldMarkers()) && |OldMarkers()| == 3
    ensures forall k :: Changed(OldMarkers(), NewMarkers(), k) <==> k == MOVED
  {
    forall k ensures Changed(OldMarkers(), NewMarkers(), k) <==> k == MOVED { ChangedKey(k); }
  }

  lemma MarkersOf(c: ConnectionId, cached: Snapshot)
    requires cached.fingerprints == SweepAt(Before(), All)
    ensures cached.fingerprints == OldMarkers() && SweepAt(After(), All) == NewMarkers()
    ensures UniqueKeys(OldMarkers()) && |OldMarkers()| == 3
    ensures forall k :: Changed(OldMarkers(), NewMarkers(), k) <==> k == MOVED
  {
    BeforeIs(c);
    AfterIs(c);
    OneChange();
  }

  lemma ServersOk()
    ensures ServerOk(Before().objects) && ServerOk(After().objects)
  {
    BeforeIs(0);
    AfterIs(0);
  }

  lemma OnlyDelta(c: ConnectionId, cached: Snapshot, d: SchemaDelta)
    requires cached.fingerprints == SweepAt(Before(), All) && ExactDelta(d, cached.fingerprints, SweepAt(After(), All))
    ensures d == SchemaDelta([], [MOVED], [])
  {
    BeforeIs(c);
    AfterIs(c);
    DeltaIs(d);
  }

  lemma MovedDelta(c: ConnectionId, cached: Snapshot, d: SchemaDelta)
    requires InSync(c, cached, Before(), All) && cached.fingerprints == SweepAt(Before(), All)
    requires ExactDelta(d, cached.fingerprints, SweepAt(After(), All))
    ensures d == SchemaDelta([], [MOVED], []) && Spliceable(c, cached, Before(), After(), All, d, ["a"])
  {
    ServersOk();
    MarkersOf(c, cached);
    OnlyDelta(c, cached, d);
    TableDrifts(c);
    OldTableCached(c, cached);
    MovedResolves(c, cached.objects);
  }

  /** One key of three is touched, and it resolves to a schema, so the refresh splices. */
  lemma MovedSplices(c: ConnectionId, cached: Snapshot, d: SchemaDelta, path: RefreshPath)
    requires InSync(c, cached, Before(), All) && cached.fingerprints == SweepAt(Before(), All)
    requires ExactDelta(d, cached.fingerprints, SweepAt(After(), All))
    ensures TakesPath(c, cached, d, path) <==> path.Incremental? && path.touched == 1 && path.schemas == |TouchedSchemas(c, cached, d)|
  {
    MarkersOf(c, cached);
    OnlyDelta(c, cached, d);
    OldTableCached(c, cached);
    MovedResolves(c, cached.objects);
  }

  lemma NewTableLives(c: ConnectionId)
    ensures
      var f := TableOf(c, 1, "b", "t");
      f in ObjectsAt(c, After(), All) && LivesIn(ObjectsAt(c, After(), All), f, "b")
  {
    AfterIs(c);
  }

  /**
   From a snapshot in sync with the old state: the delta is the one changed marker, schema `a` is re-read, the server
   has the table in `b`, and the splice does not.
   */
  lemma MovedTableIsLost(c: ConnectionId, cached: Snapshot, d: SchemaDelta)
    requires InSync(c, cached, Before(), All) && cached.fingerprints == SweepAt(Before(), All)
    requires ExactDelta(d, cached.fingerprints, SweepAt(After(), All))
    ensures d == SchemaDelta([], [MOVED], []) && Spliceable(c, cached, Before(), After(), All, d, ["a"])
    ensures TableOf(c, 1, "b", "t") in ObjectsAt(c, After(), All)
    ensures TableOf(c, 1, "b", "t") !in Splice(cached.objects, ObjectsFrom(c, EntriesOf(After(), ["a"])), DroppedIds(c, d), ["a"])
  {
    TwoSchemas(c);
    NewTableLives(c);
    OldTableLives(c, cached);
    MovedDelta(c, cached, d);
    MoverIsLost(c, cached, Before(), After(), d, ["a"], TableOf(c, 1, "a", "t"), TableOf(c, 1, "b", "t"), "a", "b");
  }

  lemma TwoSchemas(c: ConnectionId)
    ensures "a" in ["a"] && "b" !in ["a"]
    ensures ObjectKey(TableOf(c, 1, "a", "t")) == ObjectKey(TableOf(c, 1, "b", "t")) && !TableOf(c, 1, "b", "t").Database?
  {
    assert "a"[0] != "b"[0];
  }

  lemma OldTableLives(c: ConnectionId, cached: Snapshot)
    requires InSync(c, cached, Before(), All)
    ensures
      var o := TableOf(c, 1, "a", "t");
      o in cached.objects && LivesIn(cached.objects, o, "a")
  {
    OldTableCached(c, cached);
  }

  lemma MoverIsLost(c: ConnectionId, cached: Snapshot, old_: Server, new_: Server, d: SchemaDelta, schemas: seq<string>,
                    o: SchemaObject, f: SchemaObject, s: string, t: string)
    requires Spliceable(c, cached, old_, new_, All, d, schemas) && ObjectKey(o) == ObjectKey(f) && !f.Database?
    requires o in cached.objects && LivesIn(cached.objects, o, s) && s in schemas
    requires f in ObjectsAt(c, new_, All) && LivesIn(ObjectsAt(c, new_, All), f, t) && t !in schemas
    ensures f !in Splice(cached.objects, ObjectsFrom(c, EntriesOf(new_, schemas)), DroppedIds(c, d), schemas)
  {
    OneOwner(c, cached, old_, All, o, f);
    MovedObject(c, cached, new_, All, d, schemas, o, f, s, t);
  }

  lemma MoveIsUncovered(c: ConnectionId, cached: Snapshot)
    requires InSync(c, cached, Before(), All) && cached.fingerprints == SweepAt(Before(), All)
    ensures !MovesCovered(c, cached, After(), All)
  {
    MarkersOf(c, cached);
    OldTableCached(c, cached);
    MovedResolves(c, cached.objects);
    NewTableLives(c);
    var o, f := TableOf(c, 1, "a", "t"), TableOf(c, 1, "b", "t");
    assert Touched(c, cached, SweepAt(After(), All), "a") && !Touched(c, cached, SweepAt(After(), All), "b");
    assert LivesIn(cached.objects, o, "a");
    assert Goes(cached.objects, ObjectsAt(c, After(), All), "a", "b");
  }

  // --- the same through the service ---

  lemma FirstRefresh(c: ConnectionId, cached: Snapshot, path: RefreshPath)
    requires InSync(c, cached, Before(), All) && cached.fingerprints == SweepAt(Before(), All)
    requires Decided(c, Some(cached), After(), All, path)
    ensures path.Incremental? && !Recovers(c, Some(cached), After(), All, path)
  {
    MarkersOf(c, cached);
    var d :| ExactDelta(d, cached.fingerprints, SweepAt(After(), All)) && TakesPath(c, cached, d, path);
    MovedSplices(c, cached, d, path);
    MoveIsUncovered(c, cached);
  }

  lemma SecondRefresh(c: ConnectionId, cached: Snapshot, path: RefreshPath)
    requires cached.fingerprints == SweepAt(After(), All) && Decided(c, Some(cached), After(), All, path)
    ensures path == Unchanged
  {
    AfterIs(c);
    NewKeysUnique();
    NoMarkerMoved(c, cached, After(), path);
  }

  lemma NewKeysUnique()
    ensures UniqueKeys(NewMarkers()) && NewMarkers() != []
  {
  }

  lemma NoMarkerMoved(c: ConnectionId, cached: Snapshot, server: Server, path: RefreshPath)
    requires cached.fingerprints == SweepAt(server, All) != [] && UniqueKeys(cached.fingerprints) && server.mode.Sweeps?
    requires Decided(c, Some(cached), server, All, path)
    ensures path == Unchanged
  {
    var markers := cached.fingerprints;
    var d :| ExactDelta(d, markers, markers) && TakesPath(c, cached, d, path);
    OneRecord(markers);
    NoKeys(d.added);
    NoKeys(d.dropped);
    NoKeys(d.changed);
  }

  /** Introspect, let the table move, refresh twice: the first refresh splices and leaves the snapshot out of sync; the
      second finds nothing to do, so it stays that way. */
  method LoseATable(c: ConnectionId) returns (service: SchemaService, path: RefreshPath, again: RefreshPath)
    ensures path.Incremental? && again == Unchanged
    ensures c in service.snapshots && service.snapshots[c].fingerprints == SweepAt(After(), All)
    ensures !InSync(c, service.snapshots[c], After(), All)
  {
    service := new SchemaService();
    BeforeIs(c);
    AfterIs(c);
    TableDrifts(c);
    var first := service.RefreshScope(c, All, Before());
    FullIsInSync(c, first.value, Before(), All);
    var second := service.RefreshIncremental(c, None, After(), Before());
    path := second.value.1;
    FirstRefresh(c, first.value, path);
    var third := service.RefreshIncremental(c, None, After(), After());
    again := third.value.1;
    SecondRefresh(c, second.value.0, again);
  }
}
