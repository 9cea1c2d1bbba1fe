/** Fingerprints and their diff (`diff_fingerprints` in `tempr_services/src/schema.rs`). */
module FingerprintDiff {
  import opened SchemaObjects
  import opened Sorting

  type Key = (Kind, nat)

  datatype ObjectKind = RelationObject | ColumnObject | IndexObject | FunctionObject

  /** One row of a fingerprint sweep. */
  datatype Fingerprint = Fingerprint(kind: ObjectKind, native: nat, version: nat)

  /** A fingerprint as the snapshot keeps it. */
  datatype Record = Record(kind: Kind, native: nat, version: nat) {
    function Key(): Key { (kind, native) }
  }

  /** The sweep cannot tell a table from a view. */
  function DomainKind(k: ObjectKind): Kind {
    match k
    case RelationObject => TableKind
    case ColumnObject => ColumnKind
    case IndexObject => IndexKind
    case FunctionObject => FunctionKind
  }

  function ToRecord(f: Fingerprint): Record { Record(DomainKind(f.kind), f.native, f.version) }

  function Records(fs: seq<Fingerprint>): (rs: seq<Record>)
    ensures |rs| == |fs| && forall i :: 0 <= i < |fs| ==> rs[i] == ToRecord(fs[i])
  {
    seq(|fs|, i requires 0 <= i < |fs| => ToRecord(fs[i]))
  }

  /** Every cached id a fingerprint key could be. */
  function CandidateIds(c: ConnectionId, k: Key): seq<ObjectId> {
    [Derived(c, k.0, k.1)] + if k.0 == TableKind then [Derived(c, ViewKind, k.1)] else []
  }

  // --- diff ---

  datatype SchemaDelta = SchemaDelta(added: seq<Key>, changed: seq<Key>, dropped: seq<Key>) {
    predicate IsEmpty() { added == [] && changed == [] && dropped == [] }

    function Touched(): nat { |added| + |changed| + |dropped| }
  }

  predicate KeyLe(a: Key, b: Key) {
    a.0.Discriminant() < b.0.Discriminant() || (a.0.Discriminant() == b.0.Discriminant() && a.1 <= b.1)
  }

  ghost predicate UniqueKeys(rs: seq<Record>) {
    forall i, j :: 0 <= i < j < |rs| ==> rs[i].Key() != rs[j].Key()
  }

  ghost predicate HasKey(rs: seq<Record>, k: Key) {
    exists r :: r in rs && r.Key() == k
  }

  ghost predicate Changed(cached: seq<Record>, swept: seq<Record>, k: Key) {
    exists a, b :: a in cached && b in swept && a.Key() == k && b.Key() == k && a.version != b.version
  }

  /** The three lists partition what differs, each key once, in key order. */
  ghost predicate ExactDelta(d: SchemaDelta, cached: seq<Record>, swept: seq<Record>) {
    && (forall k :: k in d.added <==> HasKey(swept, k) && !HasKey(cached, k))
    && (forall k :: k in d.dropped <==> HasKey(cached, k) && !HasKey(swept, k))
    && (forall k :: k in d.changed <==> Changed(cached, swept, k))
    && Distinct(d.added) && Distinct(d.changed) && Distinct(d.dropped)
    && InKeyOrder(d.added) && InKeyOrder(d.changed) && InKeyOrder(d.dropped)
  }

  /** By kind, and by native id within a kind. */
  ghost predicate InKeyOrder(keys: seq<Key>) {
    forall i, j :: 0 <= i < j < |keys| ==>
      && keys[i].0.Discriminant() <= keys[j].0.Discriminant()
      && (keys[i].0.Discriminant() == keys[j].0.Discriminant() ==> keys[i].1 <= keys[j].1)
  }

  lemma KeyOrder()
    ensures TotalPreorder(KeyLe)
  {
  }

  /** Versions by key; a repeated key keeps its last version. */
  ghost predicate VersionsOf(m: map<Key, nat>, rs: seq<Record>) {
    && (forall k :: k in m <==> HasKey(rs, k))
    && (forall k :: k in m ==> Record(k.0, k.1, m[k]) in rs)
  }

  lemma HasKeyAppend(rs: seq<Record>, r: Record)
    ensures forall k :: HasKey(rs + [r], k) <==> HasKey(rs, k) || k == r.Key()
  {
    forall k ensures HasKey(rs + [r], k) <==> HasKey(rs, k) || k == r.Key() {
      assert r in rs + [r];
      if x :| x in rs && x.Key() == k { assert x in rs + [r]; }
    }
  }

  method DiffFingerprints(cached: seq<Record>, swept: seq<Fingerprint>) returns (delta: SchemaDelta)
    ensures UniqueKeys(cached) && UniqueKeys(Records(swept)) ==> ExactDelta(delta, cached, Records(swept))
  {
    var all := IndexVersions(cached);
    ghost var rs := Records(swept);
    var left, added, changed := TakeSwept(all, swept, UniqueKeys(cached) && UniqueKeys(rs));
    var dropped := Drain(left);
    KeyOrder();
    SortedKeys(added);
    SortedKeys(changed);
    SortedKeys(dropped);
    delta := SchemaDelta(Sort(KeyLe, added), Sort(KeyLe, changed), Sort(KeyLe, dropped));
    if UniqueKeys(cached) && UniqueKeys(rs) { DeltaIsExact(cached, rs, all, left, added, changed, dropped, delta); }
  }

  /** The first loop: the cached versions by key. */
  method IndexVersions(cached: seq<Record>) returns (before: map<Key, nat>)
    ensures VersionsOf(before, cached)
  {
    before := map[];
    for i := 0 to |cached|
      invariant VersionsOf(before, cached[..i])
    {
      var r := cached[i];
      HasKeyAppend(cached[..i], r);
      assert cached[..i + 1] == cached[..i] + [r];
      before := before[r.Key() := r.version];
    }
    assert cached[..|cached|] == cached;
  }

  /** The second loop: every swept key leaves the map, and is added or changed unless its version agrees. */
  method TakeSwept(all: map<Key, nat>, swept: seq<Fingerprint>, ghost unique: bool)
    returns (before: map<Key, nat>, added: seq<Key>, changed: seq<Key>)
    requires unique ==> UniqueKeys(Records(swept))
    ensures unique ==> Swept(all, Records(swept), before, added, changed)
  {
    ghost var rs := Records(swept);
    before, added, changed := all, [], [];
    for i := 0 to |swept|
      invariant unique ==> Swept(all, rs[..i], before, added, changed)
    {
      var f := ToRecord(swept[i]);
      var key := f.Key();
      ghost var was, wasAdded, wasChanged := before, added, changed;
      if key in before {
        if before[key] != f.version { changed := changed + [key]; }
        before := before - {key};
      } else {
        added := added + [key];
      }
      if unique {
        assert rs[..i + 1] == rs[..i] + [f];
        SweepStep(all, rs[..i], f, was, wasAdded, wasChanged);
      }
    }
    assert rs[..|swept|] == rs;
  }

  /** What is left was dropped; the map yields it in any order. */
  method Drain(left: map<Key, nat>) returns (dropped: seq<Key>)
    ensures Distinct(dropped) && forall k :: k in dropped <==> k in left
  {
    var before := left;
    dropped := [];
    while before != map[]
      invariant before.Keys <= left.Keys
      invariant forall k :: k in dropped <==> k in left && k !in before
      invariant Distinct(dropped)
      decreases |before|
    {
      var k :| k in before;
      dropped := dropped + [k];
      before := before - {k};
    }
  }

  lemma SortedKeys(s: seq<Key>)
    ensures Sorted(KeyLe, Sort(KeyLe, s))
    ensures forall k :: k in Sort(KeyLe, s) <==> k in s
    ensures Distinct(s) ==> Distinct(Sort(KeyLe, s))
  {
    KeyOrder();
    SortSorts(KeyLe, s);
    SortMembers(KeyLe, s);
    SortPermutes(KeyLe, s);
    if Distinct(s) { PermutationDistinct(s, Sort(KeyLe, s)); }
  }

  /** State of the diff loop after the records `seen`. */
  ghost predicate Swept(all: map<Key, nat>, seen: seq<Record>, before: map<Key, nat>, added: seq<Key>, changed: seq<Key>) {
    && (forall k :: k in before <==> k in all && !HasKey(seen, k))
    && (forall k :: k in before ==> before[k] == all[k])
    && (forall k :: k in added <==> HasKey(seen, k) && k !in all)
    && (forall k :: k in changed <==> k in all && HasKey(seen, k) && Record(k.0, k.1, all[k]) !in seen)
    && Distinct(added) && Distinct(changed)
  }

  lemma SweepStep(all: map<Key, nat>, seen: seq<Record>, f: Record, before: map<Key, nat>, added: seq<Key>, changed: seq<Key>)
    requires Swept(all, seen, before, added, changed) && !HasKey(seen, f.Key())
    ensures var k := f.Key();
            if k in before then Swept(all, seen + [f], before - {k}, added, if before[k] != f.version then changed + [k] else changed)
            else Swept(all, seen + [f], before, added + [k], changed)
  {
    HasKeyAppend(seen, f);
    forall k | k in all
      ensures Record(k.0, k.1, all[k]) in seen + [f] <==> Record(k.0, k.1, all[k]) in seen || Record(k.0, k.1, all[k]) == f
    {
    }
    assert f == Record(f.Key().0, f.Key().1, f.version);
    forall k | k in all && Record(k.0, k.1, all[k]) in seen ensures HasKey(seen, k) {
      assert Record(k.0, k.1, all[k]).Key() == k;
    }
  }

  lemma DeltaIsExact(cached: seq<Record>, rs: seq<Record>, all: map<Key, nat>, left: map<Key, nat>, added: seq<Key>,
                     changed: seq<Key>, dropped: seq<Key>, d: SchemaDelta)
    requires UniqueKeys(cached) && UniqueKeys(rs) && VersionsOf(all, cached) && Swept(all, rs, left, added, changed)
    requires forall k :: k in dropped <==> k in left
    requires Distinct(dropped)
    requires d == SchemaDelta(Sort(KeyLe, added), Sort(KeyLe, changed), Sort(KeyLe, dropped))
    ensures ExactDelta(d, cached, rs)
  {
    SortedKeys(added);
    SortedKeys(changed);
    SortedKeys(dropped);
    forall k ensures k in changed <==> Changed(cached, rs, k) { ChangedExact(cached, rs, all, left, added, changed, k); }
  }

  lemma ChangedExact(cached: seq<Record>, rs: seq<Record>, all: map<Key, nat>, left: map<Key, nat>, added: seq<Key>,
                     changed: seq<Key>, k: Key)
    requires UniqueKeys(cached) && UniqueKeys(rs) && VersionsOf(all, cached) && Swept(all, rs, left, added, changed)
    ensures k in changed <==> Changed(cached, rs, k)
  {
    OneRecord(cached);
    OneRecord(rs);
    if k in changed {
      var b :| b in rs && b.Key() == k;
      var a := Record(k.0, k.1, all[k]);
      assert a in cached && a.Key() == k;
      assert a.version != b.version;
    }
    if a, b :| a in cached && b in rs && a.Key() == k && b.Key() == k && a.version != b.version {
      assert HasKey(cached, k) && HasKey(rs, k);
      assert a == Record(k.0, k.1, all[k]);
    }
  }

  lemma OneRecord(rs: seq<Record>)
    requires UniqueKeys(rs)
    ensures forall a, b :: a in rs && b in rs && a.Key() == b.Key() ==> a == b
  {
    forall a, b | a in rs && b in rs && a.Key() == b.Key() ensures a == b {
      var i :| 0 <= i < |rs| && rs[i] == a;
      var j :| 0 <= j < |rs| && rs[j] == b;
    }
  }
}
