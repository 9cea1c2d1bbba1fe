/**
 Why the walk reports what it reports: over the catalog of a snapshot, every diagnostic of a whole tree is what linear
 scans of the snapshot and of the frames of one scope say about one node.
 */
module WalkerJustified {
  import opened CatalogCache
  import opened RelationNames
  import opened SchemaObjects
  import opened Scopes
  import opened SyntaxTree
  import opened Walker
  import opened WalkerCatalog
  import opened WalkerSources
  import opened Wrappers

  // --- what the snapshot and the frames say ---

  /** One of the binding's columns, by position, when they are local. */
  predicate LocalAt(fold: Folding, columns: seq<ColumnRef>, k: nat, name: string) {
    k < |columns| && columns[k].Local? && fold(columns[k].name) == fold(name)
  }

  ghost predicate OnlyLocal(fold: Folding, columns: seq<ColumnRef>, k: nat, name: string) {
    LocalAt(fold, columns, k, name) && forall j: nat :: LocalAt(fold, columns, j, name) ==> j == k
  }

  /** The binding has a column of that folded name: of its relation in the snapshot, or a local one. */
  ghost predicate Offers(fold: Folding, objects: seq<SchemaObject>, b: Binding, name: string) {
    match b.relation
    case Some(r) => r < |Relations(objects)| && !NoColumn(fold, objects, r, name)
    case None => exists k: nat :: LocalAt(fold, b.columns, k, name)
  }

  ghost predicate OffersOnce(fold: Folding, objects: seq<SchemaObject>, b: Binding, name: string) {
    match b.relation
    case Some(r) => r < |Relations(objects)| && OneColumn(fold, objects, r, name)
    case None => exists k: nat :: OnlyLocal(fold, b.columns, k, name)
  }

  ghost predicate HasColumns(objects: seq<SchemaObject>, b: Binding) {
    match b.relation
    case Some(r) => r < |Relations(objects)| && exists o :: o in objects && o.Column? && o.parent == Relations(objects)[r].id
    case None => b.columns != []
  }

  lemma LocalHit(v: View, b: Binding, name: string, k: nat)
    requires LocalColumns(b)
    ensures HitAt(v, b.columns, k, name) <==> LocalAt(v.fold, b.columns, k, name)
  {
    if k < |b.columns| { assert b.columns[k] in b.columns; }
  }

  lemma LocalHits(v: View, b: Binding, name: string)
    requires LocalColumns(b)
    ensures NoHit(v, b.columns, name) <==> forall k: nat :: !LocalAt(v.fold, b.columns, k, name)
    ensures (exists k: nat :: OnlyHit(v, b.columns, name, k)) <==> exists k: nat :: OnlyLocal(v.fold, b.columns, k, name)
  {
    forall k: nat ensures HitAt(v, b.columns, k, name) <==> LocalAt(v.fold, b.columns, k, name) {
      LocalHit(v, b, name, k);
    }
    forall k: nat ensures OnlyHit(v, b.columns, name, k) <==> OnlyLocal(v.fold, b.columns, k, name) {
    }
  }

  lemma RelationHasColumns(c: Catalog, fold: Folding, objects: seq<SchemaObject>, r: nat)
    requires Built(c, fold, objects) && UniqueIds(objects) && r < |Relations(objects)|
    ensures
      CatalogColumns(CatalogView(c, fold, objects), r) != [] <==>
        exists o :: o in objects && o.Column? && o.parent == Relations(objects)[r].id
  {
    ColumnsAre(c, fold, objects, r);
    NoOwnColumns(objects, r);
  }

  lemma RelationOffers(c: Catalog, fold: Folding, objects: seq<SchemaObject>, b: Binding, r: nat, name: string)
    requires Built(c, fold, objects) && UniqueIds(objects) && r < |Relations(objects)|
    requires b.relation == Some(r) && b.columns == CatalogColumns(CatalogView(c, fold, objects), r)
    ensures Answered(CatalogView(c, fold, objects), objects, b, name)
  {
    RelationHasColumns(c, fold, objects, r);
    HitsAreColumns(c, fold, objects, r, name);
    CountsOffer(CatalogView(c, fold, objects), objects, b, r, name);
  }

  lemma CountsOffer(v: View, objects: seq<SchemaObject>, b: Binding, r: nat, name: string)
    requires r < |Relations(objects)| && b.relation == Some(r)
    requires
      var hits := HitCount(v, b.columns, name);
      (hits == 0 <==> NoColumn(v.fold, objects, r, name)) && (hits == 1 <==> OneColumn(v.fold, objects, r, name))
    requires b.columns != [] <==> exists o :: o in objects && o.Column? && o.parent == Relations(objects)[r].id
    ensures Answered(v, objects, b, name)
  {
  }

  lemma LocalOffers(v: View, objects: seq<SchemaObject>, b: Binding, name: string)
    requires LocalColumns(b)
    ensures Answered(v, objects, b, name)
  {
    NoHits(v, b.columns, name);
    WalkerCatalog.OneHit(v, b.columns, name);
    LocalHits(v, b, name);
  }

  /** The counts the walk compares say what the binding offers. */
  ghost predicate Answered(v: View, objects: seq<SchemaObject>, b: Binding, name: string) {
    var hits := HitCount(v, b.columns, name);
    && (hits > 0 <==> Offers(v.fold, objects, b, name)) && (hits == 1 <==> OffersOnce(v.fold, objects, b, name))
    && (b.columns != [] <==> HasColumns(objects, b))
  }

  lemma OffersIs(c: Catalog, fold: Folding, objects: seq<SchemaObject>, b: Binding, name: string)
    requires Built(c, fold, objects) && UniqueIds(objects) && Grounded(CatalogView(c, fold, objects), |Relations(objects)|, b)
    ensures Answered(CatalogView(c, fold, objects), objects, b, name)
  {
    match b.relation
    case Some(r) => RelationOffers(c, fold, objects, b, r, name);
    case None => LocalOffers(CatalogView(c, fold, objects), objects, b, name);
  }

  // --- a bare column ---

  ghost predicate NoneOffers(fold: Folding, objects: seq<SchemaObject>, bindings: seq<Binding>, name: string) {
    forall b :: b in bindings ==> !Offers(fold, objects, b, name)
  }

  ghost predicate TwoOffer(fold: Folding, objects: seq<SchemaObject>, bindings: seq<Binding>, name: string) {
    exists i, j :: 0 <= i < j < |bindings| && Offers(fold, objects, bindings[i], name) && Offers(fold, objects, bindings[j], name)
  }

  /** No frame offers the column though one has columns, or the nearest frame that does offers it twice. */
  ghost predicate BareFault(fold: Folding, objects: seq<SchemaObject>, frames: seq<Frame>, name: string,
                            kind: DiagnosticKind) {
    match kind
    case UnknownColumn =>
      && (forall f :: f in frames ==> NoneOffers(fold, objects, f.bindings, name))
      && exists f, b :: f in frames && b in f.bindings && HasColumns(objects, b)
    case AmbiguousColumn => exists i :: 0 <= i < |frames| && Nearest(fold, objects, frames, i, name)
    case _ => false
  }

  ghost predicate Nearest(fold: Folding, objects: seq<SchemaObject>, frames: seq<Frame>, i: nat, name: string)
    requires i < |frames|
  {
    && (forall j :: 0 <= j < i ==> NoneOffers(fold, objects, frames[j].bindings, name))
    && TwoOffer(fold, objects, frames[i].bindings, name)
  }

  lemma {:induction false} HitsOffer(c: Catalog, fold: Folding, objects: seq<SchemaObject>, bindings: seq<Binding>,
                                     name: string)
    requires Built(c, fold, objects) && UniqueIds(objects) && AllGrounded(CatalogView(c, fold, objects), |Relations(objects)|, bindings)
    ensures Hits(CatalogView(c, fold, objects), bindings, name) == [] <==> NoneOffers(fold, objects, bindings, name)
    ensures |Hits(CatalogView(c, fold, objects), bindings, name)| > 1 <==> TwoOffer(fold, objects, bindings, name)
  {
    if bindings != [] {
      HitsOffer(c, fold, objects, bindings[1..], name);
      OffersIs(c, fold, objects, bindings[0], name);
      FirstHit(CatalogView(c, fold, objects), objects, bindings, name);
    }
  }

  lemma FirstHit(v: View, objects: seq<SchemaObject>, bindings: seq<Binding>, name: string)
    requires bindings != [] && Answered(v, objects, bindings[0], name)
    requires Hits(v, bindings[1..], name) == [] <==> NoneOffers(v.fold, objects, bindings[1..], name)
    requires |Hits(v, bindings[1..], name)| > 1 <==> TwoOffer(v.fold, objects, bindings[1..], name)
    ensures Hits(v, bindings, name) == [] <==> NoneOffers(v.fold, objects, bindings, name)
    ensures |Hits(v, bindings, name)| > 1 <==> TwoOffer(v.fold, objects, bindings, name)
  {
    assert forall b :: b in bindings <==> b == bindings[0] || b in bindings[1..];
    OfferedTwice(v.fold, objects, bindings, name);
  }

  lemma OfferedTwice(fold: Folding, objects: seq<SchemaObject>, bindings: seq<Binding>, name: string)
    requires bindings != []
    ensures TwoOffer(fold, objects, bindings, name) <==>
            || TwoOffer(fold, objects, bindings[1..], name)
            || (Offers(fold, objects, bindings[0], name) && !NoneOffers(fold, objects, bindings[1..], name))
  {
    var rest := bindings[1..];
    if i, j :| 0 <= i < j < |bindings| && Offers(fold, objects, bindings[i], name) && Offers(fold, objects, bindings[j], name) {
      assert rest[j - 1] == bindings[j];
      if i > 0 { assert rest[i - 1] == bindings[i]; }
    }
    if i, j :| 0 <= i < j < |rest| && Offers(fold, objects, rest[i], name) && Offers(fold, objects, rest[j], name) {
      assert bindings[i + 1] == rest[i] && bindings[j + 1] == rest[j];
    }
    if b :| Offers(fold, objects, bindings[0], name) && b in rest && Offers(fold, objects, b, name) {
      var j :| 0 <= j < |rest| && rest[j] == b;
      assert bindings[j + 1] == b;
    }
  }

  lemma AnyHasColumns(c: Catalog, fold: Folding, objects: seq<SchemaObject>, bindings: seq<Binding>)
    requires Built(c, fold, objects) && UniqueIds(objects) && AllGrounded(CatalogView(c, fold, objects), |Relations(objects)|, bindings)
    ensures AnyColumns(bindings) <==> exists b :: b in bindings && HasColumns(objects, b)
  {
    forall b | b in bindings ensures b.columns != [] <==> HasColumns(objects, b) { OffersIs(c, fold, objects, b, ""); }
  }

  predicate AmbiguousAt(v: View, frames: seq<Frame>, i: nat, name: string) {
    && i < |frames| && |Hits(v, frames[i].bindings, name)| > 1
    && forall j :: 0 <= j < i ==> Hits(v, frames[j].bindings, name) == []
  }

  lemma AmbiguousOuter(v: View, frames: seq<Frame>, i: nat, name: string)
    requires frames != [] && Hits(v, frames[0].bindings, name) == [] && AmbiguousAt(v, frames[1..], i, name)
    ensures AmbiguousAt(v, frames, i + 1, name)
  {
    forall j | 0 <= j < i + 1 ensures Hits(v, frames[j].bindings, name) == [] {
      if j > 0 { assert frames[1..][j - 1] == frames[j]; }
    }
    assert frames[1..][i] == frames[i + 1];
  }

  lemma {:induction false} BareSays(v: View, frames: seq<Frame>, name: string, start: nat, end: nat, any: bool,
                                    d: Diagnostic)
    requires d in Bare(v, frames, name, start, end, any)
    ensures d.start == start && d.end == end
    ensures || (d.kind == UnknownColumn && Unprovided(v, frames, name) && (any || SomeColumns(frames)))
            || (d.kind == AmbiguousColumn && exists i :: AmbiguousAt(v, frames, i, name))
    decreases |frames|
  {
    if frames != [] {
      SomeColumnsCons(frames);
      UnprovidedCons(v, frames, name);
      if Hits(v, frames[0].bindings, name) == [] {
        BareSays(v, frames[1..], name, start, end, any || AnyColumns(frames[0].bindings), d);
        if d.kind == AmbiguousColumn {
          var i :| AmbiguousAt(v, frames[1..], i, name);
          AmbiguousOuter(v, frames, i, name);
        }
      } else {
        assert AmbiguousAt(v, frames, 0, name);
      }
    }
  }

  lemma FrameOffers(c: Catalog, fold: Folding, objects: seq<SchemaObject>, frames: seq<Frame>, i: nat, name: string)
    requires Built(c, fold, objects) && UniqueIds(objects) && FramesGrounded(CatalogView(c, fold, objects), |Relations(objects)|, frames)
    requires i < |frames|
    ensures
      var hits, bindings := Hits(CatalogView(c, fold, objects), frames[i].bindings, name), frames[i].bindings;
      (hits == [] <==> NoneOffers(fold, objects, bindings, name)) && (|hits| > 1 <==> TwoOffer(fold, objects, bindings, name))
    ensures AnyColumns(frames[i].bindings) <==> exists b :: b in frames[i].bindings && HasColumns(objects, b)
  {
    assert frames[i] in frames;
    HitsOffer(c, fold, objects, frames[i].bindings, name);
    AnyHasColumns(c, fold, objects, frames[i].bindings);
  }

  lemma UnknownJustified(c: Catalog, fold: Folding, objects: seq<SchemaObject>, frames: seq<Frame>, name: string)
    requires Built(c, fold, objects) && UniqueIds(objects) && FramesGrounded(CatalogView(c, fold, objects), |Relations(objects)|, frames)
    requires Unprovided(CatalogView(c, fold, objects), frames, name) && SomeColumns(frames)
    ensures BareFault(fold, objects, frames, name, UnknownColumn)
  {
    forall f | f in frames ensures NoneOffers(fold, objects, f.bindings, name) {
      var i :| 0 <= i < |frames| && frames[i] == f;
      FrameOffers(c, fold, objects, frames, i, name);
    }
    var i :| 0 <= i < |frames| && AnyColumns(frames[i].bindings);
    FrameOffers(c, fold, objects, frames, i, name);
    assert frames[i] in frames;
  }

  lemma AmbiguousJustified(c: Catalog, fold: Folding, objects: seq<SchemaObject>, frames: seq<Frame>, i: nat,
                           name: string)
    requires Built(c, fold, objects) && UniqueIds(objects) && FramesGrounded(CatalogView(c, fold, objects), |Relations(objects)|, frames)
    requires AmbiguousAt(CatalogView(c, fold, objects), frames, i, name)
    ensures BareFault(fold, objects, frames, name, AmbiguousColumn)
  {
    forall j | 0 <= j < i ensures NoneOffers(fold, objects, frames[j].bindings, name) {
      FrameOffers(c, fold, objects, frames, j, name);
    }
    FrameOffers(c, fold, objects, frames, i, name);
    assert Nearest(fold, objects, frames, i, name);
  }

  lemma BareJustified(c: Catalog, fold: Folding, objects: seq<SchemaObject>, frames: seq<Frame>, name: string,
                      start: nat, end: nat, d: Diagnostic)
    requires Built(c, fold, objects) && UniqueIds(objects) && FramesGrounded(CatalogView(c, fold, objects), |Relations(objects)|, frames)
    requires d in Bare(CatalogView(c, fold, objects), frames, name, start, end, false)
    ensures d.start == start && d.end == end && BareFault(fold, objects, frames, name, d.kind)
  {
    BareSays(CatalogView(c, fold, objects), frames, name, start, end, false, d);
    if d.kind == UnknownColumn {
      UnknownJustified(c, fold, objects, frames, name);
    } else {
      var i :| AmbiguousAt(CatalogView(c, fold, objects), frames, i, name);
      AmbiguousJustified(c, fold, objects, frames, i, name);
    }
  }

  /** And every such fault is reported. */
  lemma {:induction false} AmbiguousReported(v: View, frames: seq<Frame>, i: nat, name: string, start: nat, end: nat, any: bool)
    requires AmbiguousAt(v, frames, i, name)
    ensures exists d :: d in Bare(v, frames, name, start, end, any) && d.kind == AmbiguousColumn
    decreases i
  {
    if i == 0 {
      var hits := Hits(v, frames[0].bindings, name);
      assert Diagnostic(AmbiguousColumn, start, end, AmbiguousMessage(name, hits)) in Bare(v, frames, name, start, end, any);
    } else {
      assert frames[1..][i - 1] == frames[i] && forall j :: 0 <= j < i - 1 ==> frames[1..][j] == frames[j + 1];
      AmbiguousReported(v, frames[1..], i - 1, name, start, end, any || AnyColumns(frames[0].bindings));
    }
  }

  lemma UnknownIsFault(c: Catalog, fold: Folding, objects: seq<SchemaObject>, frames: seq<Frame>, name: string)
    requires Built(c, fold, objects) && UniqueIds(objects) && FramesGrounded(CatalogView(c, fold, objects), |Relations(objects)|, frames)
    requires BareFault(fold, objects, frames, name, UnknownColumn)
    ensures Unprovided(CatalogView(c, fold, objects), frames, name) && SomeColumns(frames)
  {
    forall i | 0 <= i < |frames| ensures Hits(CatalogView(c, fold, objects), frames[i].bindings, name) == [] {
      assert frames[i] in frames;
      FrameOffers(c, fold, objects, frames, i, name);
    }
    var f, b :| f in frames && b in f.bindings && HasColumns(objects, b);
    var i :| 0 <= i < |frames| && frames[i] == f;
    FrameOffers(c, fold, objects, frames, i, name);
  }

  lemma AmbiguousIsFault(c: Catalog, fold: Folding, objects: seq<SchemaObject>, frames: seq<Frame>, name: string) returns (i: nat)
    requires Built(c, fold, objects) && UniqueIds(objects) && FramesGrounded(CatalogView(c, fold, objects), |Relations(objects)|, frames)
    requires BareFault(fold, objects, frames, name, AmbiguousColumn)
    ensures AmbiguousAt(CatalogView(c, fold, objects), frames, i, name)
  {
    i :| 0 <= i < |frames| && Nearest(fold, objects, frames, i, name);
    forall j | 0 <= j < i ensures Hits(CatalogView(c, fold, objects), frames[j].bindings, name) == [] {
      FrameOffers(c, fold, objects, frames, j, name);
    }
    FrameOffers(c, fold, objects, frames, i, name);
  }

  lemma BareReported(c: Catalog, fold: Folding, objects: seq<SchemaObject>, frames: seq<Frame>, name: string, start: nat,
                     end: nat, kind: DiagnosticKind)
    requires Built(c, fold, objects) && UniqueIds(objects) && FramesGrounded(CatalogView(c, fold, objects), |Relations(objects)|, frames)
    requires BareFault(fold, objects, frames, name, kind)
    ensures exists d :: d in Bare(CatalogView(c, fold, objects), frames, name, start, end, false) && d.kind == kind
  {
    if kind == UnknownColumn {
      UnknownIsFault(c, fold, objects, frames, name);
      UnknownBare(CatalogView(c, fold, objects), frames, name, start, end, false);
    } else {
      var i := AmbiguousIsFault(c, fold, objects, frames, name);
      AmbiguousReported(CatalogView(c, fold, objects), frames, i, name, start, end, false);
    }
  }

  // --- a reference of two parts ---

  ghost predicate NothingAnswers(v: View, frames: seq<Frame>, qualifier: string) {
    forall f, b :: f in frames && (b in f.ctes || b in f.bindings) ==> !b.Answers(v, qualifier)
  }

  /** Nothing answers the qualifier, or what does offers no such column or several. */
  ghost predicate QualifiedFault(v: View, objects: seq<SchemaObject>, frames: seq<Frame>, qualifier: string,
                                 column: string, kind: DiagnosticKind) {
    match Lookup(v, frames, qualifier)
    case None => kind == UnknownRelation && NothingAnswers(v, frames, qualifier)
    case Some(b) =>
      HasColumns(objects, b) && !OffersOnce(v.fold, objects, b, column) &&
      kind == if Offers(v.fold, objects, b, column) then AmbiguousColumn else UnknownColumn
  }

  lemma {:induction false} LookupFinds(v: View, limit: nat, frames: seq<Frame>, qualifier: string)
    requires FramesGrounded(v, limit, frames)
    ensures Lookup(v, frames, qualifier).None? ==> NothingAnswers(v, frames, qualifier)
    ensures Lookup(v, frames, qualifier).Some? ==> Grounded(v, limit, Lookup(v, frames, qualifier).value)
  {
    if frames != [] {
      assert frames[0] in frames;
      LookupFinds(v, limit, frames[1..], qualifier);
      assert forall f :: f in frames <==> f == frames[0] || f in frames[1..];
    }
  }

  lemma QualifiedJustified(c: Catalog, fold: Folding, objects: seq<SchemaObject>, n: Node, frames: seq<Frame>,
                           d: Diagnostic)
    requires Built(c, fold, objects) && UniqueIds(objects) && FramesGrounded(CatalogView(c, fold, objects), |Relations(objects)|, frames)
    requires |PartsOf(n)| == 2 && d in ResolveField(CatalogView(c, fold, objects), n, frames)
    ensures QualifiedFault(CatalogView(c, fold, objects), objects, frames, PartsOf(n)[0].name, PartsOf(n)[1].name, d.kind)
  {
    var v, refs := CatalogView(c, fold, objects), PartsOf(n);
    LookupFinds(v, |Relations(objects)|, frames, refs[0].name);
    var b := Lookup(v, frames, refs[0].name);
    if b.Some? {
      OffersIs(c, fold, objects, b.value, refs[1].name);
      AgainstCounts(v, b.value, refs[1], refs[0].name, d);
    }
  }

  lemma AgainstCounts(v: View, b: Binding, column: Part, qualifier: string, d: Diagnostic)
    requires d in Against(v, b, column, qualifier)
    ensures
      var hits := HitCount(v, b.columns, column.name);
      b.columns != [] && hits != 1 && d.kind == if hits == 0 then UnknownColumn else AmbiguousColumn
  {
  }

  // --- a source, and a reference of three parts ---

  /** The name, qualified or not, stands for no relation of the snapshot. */
  ghost predicate StandsForNone(fold: Folding, objects: seq<SchemaObject>, names: seq<string>)
    requires names != [] && AllRelations(Relations(objects))
  {
    if |names| == 1 then forall r: nat :: !StandsAlone(fold, objects, names[0], r)
    else
      var schema, name := names[|names| - 2], names[|names| - 1];
      forall r: nat :: !Stands(fold, objects, schema, name, r)
  }

  ghost predicate NoCteAnswers(v: View, frames: seq<Frame>, name: string) {
    forall f, b :: f in frames && b in f.ctes ==> !b.Answers(v, name)
  }

  ghost predicate SourceFault(v: View, objects: seq<SchemaObject>, n: Node, frames: seq<Frame>, d: Diagnostic)
    requires AllRelations(Relations(objects))
  {
    var parts := PartsOf(n);
    && parts != [] && d == UnknownRelationAt(Names(parts), parts[0].start, parts[|parts| - 1].end)
    && StandsForNone(v.fold, objects, Names(parts)) && (|parts| == 1 ==> NoCteAnswers(v, frames, parts[0].name))
  }

  lemma {:induction false} NoCteOf(v: View, chain: seq<seq<Binding>>, name: string)
    requires CteOf(v, chain, name).None?
    ensures forall ctes, b :: ctes in chain && b in ctes ==> !b.Answers(v, name)
  {
    if chain != [] {
      NoCteOf(v, chain[1..], name);
      assert forall ctes :: ctes in chain <==> ctes == chain[0] || ctes in chain[1..];
    }
  }

  lemma NoCteInFrames(v: View, frames: seq<Frame>, name: string)
    requires frames != [] && CteOf(v, [frames[0].ctes] + CtesOf(frames[1..]), name).None?
    ensures NoCteAnswers(v, frames, name)
  {
    var chain := [frames[0].ctes] + CtesOf(frames[1..]);
    NoCteOf(v, chain, name);
    forall f, b | f in frames && b in f.ctes ensures !b.Answers(v, name) {
      var i :| 0 <= i < |frames| && frames[i] == f;
      assert i > 0 ==> frames[1..][i - 1] == f && CtesOf(frames[1..])[i - 1] == f.ctes;
      assert chain[i] == f.ctes && chain[i] in chain;
    }
  }

  /** The catalog finds no relation of that name, qualified or not. */
  predicate Missing(v: View, names: seq<string>)
    requires names != []
  {
    v.resolve(if |names| >= 2 then Some(names[|names| - 2]) else None, names[|names| - 1]).None?
  }

  lemma UnresolvedStandsForNone(c: Catalog, fold: Folding, objects: seq<SchemaObject>, names: seq<string>)
    requires Built(c, fold, objects) && AllRelations(Relations(objects)) && UniqueNames(Relations(objects)) && names != []
    requires Missing(CatalogView(c, fold, objects), names)
    ensures StandsForNone(fold, objects, names)
  {
    if |names| == 1 {
      AllAlone(c, fold, objects, names[0]);
      assert ResolveIn(c, fold, objects, None, names[0]).None?;
    } else {
      var schema, name := names[|names| - 2], names[|names| - 1];
      StandsIs(c, fold, objects, schema, name);
      assert ResolveIn(c, fold, objects, Some(schema), name).None?;
    }
  }

  predicate ReportedUnresolved(v: View, n: Node, frames: seq<Frame>, d: Diagnostic)
    requires frames != [] && PartsOf(n) != []
  {
    var parts := PartsOf(n);
    && d == UnknownRelationAt(Names(parts), parts[0].start, parts[|parts| - 1].end)
    && (|parts| == 1 ==> CteOf(v, [frames[0].ctes] + CtesOf(frames[1..]), parts[0].name).None?)
  }

  lemma SourceUnresolved(v: View, n: Node, frames: seq<Frame>, d: Diagnostic)
    requires frames != [] && d in ReferenceReports(v, n, frames[0].ctes, frames[1..])
    ensures PartsOf(n) != [] && ReportedUnresolved(v, n, frames, d) && Missing(v, Names(PartsOf(n)))
  {
    assert ResolveRelation(v, Names(PartsOf(n)), frames[0].ctes, frames[1..]).Unresolved?;
  }

  lemma SourceIsFault(v: View, objects: seq<SchemaObject>, n: Node, frames: seq<Frame>, d: Diagnostic)
    requires AllRelations(Relations(objects)) && frames != [] && PartsOf(n) != []
    requires ReportedUnresolved(v, n, frames, d)
    requires StandsForNone(v.fold, objects, Names(PartsOf(n)))
    ensures SourceFault(v, objects, n, frames, d)
  {
    if |PartsOf(n)| == 1 { NoCteInFrames(v, frames, PartsOf(n)[0].name); }
  }

  lemma SourceJustified(c: Catalog, fold: Folding, objects: seq<SchemaObject>, n: Node, frames: seq<Frame>,
                        d: Diagnostic)
    requires Built(c, fold, objects) && AllRelations(Relations(objects)) && UniqueNames(Relations(objects)) && frames != []
    requires d in ReferenceReports(CatalogView(c, fold, objects), n, frames[0].ctes, frames[1..])
    ensures SourceFault(CatalogView(c, fold, objects), objects, n, frames, d)
  {
    SourceUnresolved(CatalogView(c, fold, objects), n, frames, d);
    UnresolvedStandsForNone(c, fold, objects, Names(PartsOf(n)));
    SourceIsFault(CatalogView(c, fold, objects), objects, n, frames, d);
  }

  /** The schema and relation stand for none of the snapshot, or for one in which the column is at fault. */
  ghost predicate CatalogFault(fold: Folding, objects: seq<SchemaObject>, schema: string, name: string,
                               column: string, d: Diagnostic)
    requires AllRelations(Relations(objects))
  {
    || (d.kind == UnknownRelation && forall r: nat :: !Stands(fold, objects, schema, name, r))
    || exists r: nat :: BlamedIn(fold, objects, schema, name, column, r, d)
  }

  ghost predicate BlamedIn(fold: Folding, objects: seq<SchemaObject>, schema: string, name: string, column: string,
                           r: nat, d: Diagnostic)
    requires AllRelations(Relations(objects))
  {
    r < |Relations(objects)| && Stands(fold, objects, schema, name, r) && Judged(fold, objects, r, column, [d])
  }

  lemma CatalogJustified(c: Catalog, fold: Folding, objects: seq<SchemaObject>, n: Node, frames: seq<Frame>,
                         schema: string,
                         name: string, column: string, d: Diagnostic)
    requires Built(c, fold, objects) && UniqueIds(objects) && AllRelations(Relations(objects)) && UniqueNames(Relations(objects))
    requires LastParts(n, schema, name, column) && d in ResolveField(CatalogView(c, fold, objects), n, frames)
    ensures CatalogFault(fold, objects, schema, name, column, d)
  {
    var diags := ResolveField(CatalogView(c, fold, objects), n, frames);
    QualifiedColumn(c, fold, objects, n, frames, schema, name, column, diags);
    OnlyFault(fold, objects, schema, name, column, diags, d);
  }

  lemma OnlyFault(fold: Folding, objects: seq<SchemaObject>, schema: string, name: string, column: string,
                  diags: seq<Diagnostic>, d: Diagnostic)
    requires AllRelations(Relations(objects)) && d in diags
    requires forall r: nat :: Stands(fold, objects, schema, name, r) ==>
               r < |Relations(objects)| && Judged(fold, objects, r, column, diags)
    requires (forall r: nat :: !Stands(fold, objects, schema, name, r)) ==>
               diags == [] || (|diags| == 1 && diags[0].kind == UnknownRelation)
    ensures CatalogFault(fold, objects, schema, name, column, d)
  {
    if r: nat :| Stands(fold, objects, schema, name, r) {
      JudgedOne(fold, objects, r, column, diags, d);
      assert BlamedIn(fold, objects, schema, name, column, r, d);
    }
  }

  lemma JudgedOne(fold: Folding, objects: seq<SchemaObject>, r: nat, column: string, diags: seq<Diagnostic>,
                  d: Diagnostic)
    requires r < |Relations(objects)| && Judged(fold, objects, r, column, diags) && d in diags
    ensures diags == [d]
  {
  }

  // --- any node, any tree ---

  /** The diagnostic stands at these parts of the name. */
  predicate At(d: Diagnostic, first: Part, last: Part) { d.start == first.start && d.end == last.end }

  lemma FieldStands(v: View, n: Node, frames: seq<Frame>, d: Diagnostic)
    requires d in ResolveField(v, n, frames) && |PartsOf(n)| > 1
    ensures
      var refs, last := PartsOf(n), |PartsOf(n)| - 1;
      if |refs| == 2 then if d.kind == UnknownRelation then At(d, refs[0], refs[0]) else At(d, refs[1], refs[1])
      else if d.kind == UnknownRelation then At(d, refs[last - 2], refs[last - 1]) else At(d, refs[last], refs[last])
  {
  }

  /** The faults of a column reference of one, two, or three and more parts, at the part they blame. */
  ghost predicate FieldFault(v: View, objects: seq<SchemaObject>, n: Node, frames: seq<Frame>, d: Diagnostic)
    requires AllRelations(Relations(objects))
  {
    var refs := PartsOf(n);
    var last := |refs| - 1;
    if |refs| == 0 then false
    else if |refs| == 1 then At(d, refs[0], refs[0]) && BareFault(v.fold, objects, frames, refs[0].name, d.kind)
    else if |refs| == 2 then
      && (if d.kind == UnknownRelation then At(d, refs[0], refs[0]) else At(d, refs[1], refs[1]))
      && QualifiedFault(v, objects, frames, refs[0].name, refs[1].name, d.kind)
    else
      && (if d.kind == UnknownRelation then At(d, refs[last - 2], refs[last - 1]) else At(d, refs[last], refs[last]))
      && CatalogFault(v.fold, objects, refs[last - 2].name, refs[last - 1].name, refs[last].name, d)
  }

  /** The node is at fault in the way the diagnostic says. */
  ghost predicate Fault(v: View, objects: seq<SchemaObject>, n: Node, frames: seq<Frame>, d: Diagnostic)
    requires AllRelations(Relations(objects))
  {
    match n.kind
    case ErrorNode => d == SyntaxErrorAt(n)
    case ObjectReference => SourceFault(v, objects, n, frames, d)
    case Field => FieldFault(v, objects, n, frames, d)
    case _ => false
  }

  lemma FieldJustified(c: Catalog, fold: Folding, objects: seq<SchemaObject>, n: Node, frames: seq<Frame>,
                       d: Diagnostic)
    requires Built(c, fold, objects) && UniqueIds(objects) && AllRelations(Relations(objects)) && UniqueNames(Relations(objects))
    requires FramesGrounded(CatalogView(c, fold, objects), |Relations(objects)|, frames)
    requires d in ResolveField(CatalogView(c, fold, objects), n, frames)
    ensures FieldFault(CatalogView(c, fold, objects), objects, n, frames, d)
  {
    var refs := PartsOf(n);
    if |refs| == 1 {
      BareJustified(c, fold, objects, frames, refs[0].name, refs[0].start, refs[0].end, d);
    } else if |refs| == 2 {
      FieldStands(CatalogView(c, fold, objects), n, frames, d);
      QualifiedJustified(c, fold, objects, n, frames, d);
    } else if |refs| > 2 {
      FieldStands(CatalogView(c, fold, objects), n, frames, d);
      CatalogJustified(c, fold, objects, n, frames, refs[|refs| - 3].name, refs[|refs| - 2].name, refs[|refs| - 1].name, d);
    }
  }

  lemma QualifiedReported(c: Catalog, fold: Folding, objects: seq<SchemaObject>, n: Node, frames: seq<Frame>, kind: DiagnosticKind)
    requires Built(c, fold, objects) && UniqueIds(objects) && FramesGrounded(CatalogView(c, fold, objects), |Relations(objects)|, frames)
    requires Relations(objects) != [] && |PartsOf(n)| == 2
    requires QualifiedFault(CatalogView(c, fold, objects), objects, frames, PartsOf(n)[0].name, PartsOf(n)[1].name, kind)
    ensures exists d :: d in ResolveField(CatalogView(c, fold, objects), n, frames) && d.kind == kind
  {
    var v, refs := CatalogView(c, fold, objects), PartsOf(n);
    LookupFinds(v, |Relations(objects)|, frames, refs[0].name);
    var b := Lookup(v, frames, refs[0].name);
    if b.Some? { OffersIs(c, fold, objects, b.value, refs[1].name); }
    FaultReported(v, objects, n, frames, kind);
  }

  lemma FaultReported(v: View, objects: seq<SchemaObject>, n: Node, frames: seq<Frame>, kind: DiagnosticKind)
    requires v.loaded && |PartsOf(n)| == 2
    requires QualifiedFault(v, objects, frames, PartsOf(n)[0].name, PartsOf(n)[1].name, kind)
    requires
      var b := Lookup(v, frames, PartsOf(n)[0].name);
      b.Some? ==> Answered(v, objects, b.value, PartsOf(n)[1].name)
    ensures exists d :: d in ResolveField(v, n, frames) && d.kind == kind
  {
    var refs := PartsOf(n);
    var b := Lookup(v, frames, refs[0].name);
    if b.Some? { AgainstReports(v, objects, b.value, refs[1], refs[0].name); }
    assert ResolveField(v, n, frames)[0] in ResolveField(v, n, frames);
  }

  lemma AgainstReports(v: View, objects: seq<SchemaObject>, b: Binding, column: Part, qualifier: string)
    requires Answered(v, objects, b, column.name) && HasColumns(objects, b) && !OffersOnce(v.fold, objects, b, column.name)
    ensures |Against(v, b, column, qualifier)| == 1
    ensures Against(v, b, column, qualifier)[0].kind
         == if Offers(v.fold, objects, b, column.name) then AmbiguousColumn else UnknownColumn
  {
  }

  lemma CatalogReported(c: Catalog, fold: Folding, objects: seq<SchemaObject>, n: Node, frames: seq<Frame>, schema: string,
                        name: string, column: string, d: Diagnostic)
    requires Built(c, fold, objects) && UniqueIds(objects) && AllRelations(Relations(objects)) && UniqueNames(Relations(objects))
    requires Relations(objects) != [] && LastParts(n, schema, name, column) && CatalogFault(fold, objects, schema, name, column, d)
    ensures exists e :: e in ResolveField(CatalogView(c, fold, objects), n, frames) && e.kind == d.kind
  {
    var diags := ResolveField(CatalogView(c, fold, objects), n, frames);
    QualifiedColumn(c, fold, objects, n, frames, schema, name, column, diags);
    if r: nat :| BlamedIn(fold, objects, schema, name, column, r, d) {
      JudgedAlike(fold, objects, r, column, diags, d);
    } else {
      assert diags[0] in diags;
    }
  }

  lemma JudgedAlike(fold: Folding, objects: seq<SchemaObject>, r: nat, column: string, diags: seq<Diagnostic>, d: Diagnostic)
    requires r < |Relations(objects)| && Judged(fold, objects, r, column, diags) && Judged(fold, objects, r, column, [d])
    ensures exists e :: e in diags && e.kind == d.kind
  {
    assert diags[0] in diags;
  }

  /** Over a snapshot with relations, a column reference is reported exactly when it is at fault. */
  lemma FieldExactly(c: Catalog, fold: Folding, objects: seq<SchemaObject>, n: Node, frames: seq<Frame>)
    requires Built(c, fold, objects) && UniqueIds(objects) && AllRelations(Relations(objects)) && UniqueNames(Relations(objects))
    requires FramesGrounded(CatalogView(c, fold, objects), |Relations(objects)|, frames) && Relations(objects) != []
    ensures ResolveField(CatalogView(c, fold, objects), n, frames) == [] <==>
            forall d :: !FieldFault(CatalogView(c, fold, objects), objects, n, frames, d)
  {
    var diags := ResolveField(CatalogView(c, fold, objects), n, frames);
    if diags != [] { FieldJustified(c, fold, objects, n, frames, diags[0]); }
    if d :| FieldFault(CatalogView(c, fold, objects), objects, n, frames, d) { FieldReported(c, fold, objects, n, frames, d); }
  }

  lemma FieldReported(c: Catalog, fold: Folding, objects: seq<SchemaObject>, n: Node, frames: seq<Frame>, d: Diagnostic)
    requires Built(c, fold, objects) && UniqueIds(objects) && AllRelations(Relations(objects)) && UniqueNames(Relations(objects))
    requires FramesGrounded(CatalogView(c, fold, objects), |Relations(objects)|, frames) && Relations(objects) != []
    requires FieldFault(CatalogView(c, fold, objects), objects, n, frames, d)
    ensures exists e :: e in ResolveField(CatalogView(c, fold, objects), n, frames) && e.kind == d.kind
  {
    var refs := PartsOf(n);
    if |refs| == 1 {
      BareReported(c, fold, objects, frames, refs[0].name, refs[0].start, refs[0].end, d.kind);
      var e :| e in Bare(CatalogView(c, fold, objects), frames, refs[0].name, refs[0].start, refs[0].end, false) && e.kind == d.kind;
    } else if |refs| == 2 {
      QualifiedReported(c, fold, objects, n, frames, d.kind);
    } else {
      CatalogReported(c, fold, objects, n, frames, refs[|refs| - 3].name, refs[|refs| - 2].name, refs[|refs| - 1].name, d);
    }
  }

  lemma NodeJustified(c: Catalog, fold: Folding, objects: seq<SchemaObject>, n: Node, frames: seq<Frame>, d: Diagnostic)
    requires Built(c, fold, objects) && UniqueIds(objects) && AllRelations(Relations(objects)) && UniqueNames(Relations(objects))
    requires FramesGrounded(CatalogView(c, fold, objects), |Relations(objects)|, frames) && frames != []
    requires d in ReportsAt(CatalogView(c, fold, objects), n, frames)
    ensures Fault(CatalogView(c, fold, objects), objects, n, frames, d)
  {
    match n.kind
    case ErrorNode =>
    case ObjectReference => SourceJustified(c, fold, objects, n, frames, d);
    case Field => FieldJustified(c, fold, objects, n, frames, d);
    case _ =>
  }

  lemma CatalogIsBounded(c: Catalog, fold: Folding, objects: seq<SchemaObject>)
    requires Built(c, fold, objects) && AllRelations(Relations(objects)) && UniqueNames(Relations(objects))
    ensures Bounded(CatalogView(c, fold, objects), |Relations(objects)|)
  {
    forall schema, name | ResolveIn(c, fold, objects, schema, name).Some?
      ensures ResolveIn(c, fold, objects, schema, name).value < |Relations(objects)|
    {
      match schema {
        case None => AllAlone(c, fold, objects, name);
        case Some(s) => StandsIs(c, fold, objects, s, name);
      }
    }
  }

  /** A diagnostic of a region: a node below it is at fault, over the frames of some scope of the result. */
  ghost predicate Justified(v: View, objects: seq<SchemaObject>, region: Node, s: Scope, outer: seq<Frame>,
                            d: Diagnostic)
    requires AllRelations(Relations(objects))
  {
    exists n, frames :: Below(n, region) && Visible(s, outer, frames) && Fault(v, objects, n, frames, d)
  }

  lemma CausedIsJustified(c: Catalog, fold: Folding, objects: seq<SchemaObject>, region: Node, s: Scope,
                          outer: seq<Frame>, d: Diagnostic)
    requires Built(c, fold, objects) && UniqueIds(objects) && AllRelations(Relations(objects)) && UniqueNames(Relations(objects))
    requires FramesGrounded(CatalogView(c, fold, objects), |Relations(objects)|, outer)
    requires ScopeGrounded(CatalogView(c, fold, objects), |Relations(objects)|, s)
    requires Caused(CatalogView(c, fold, objects), d, [region], s, outer)
    ensures Justified(CatalogView(c, fold, objects), objects, region, s, outer, d)
  {
    var n, frames := CausedBy(CatalogView(c, fold, objects), |Relations(objects)|, region, s, outer, d);
    NodeJustified(c, fold, objects, n, frames, d);
    IsJustified(CatalogView(c, fold, objects), objects, region, s, outer, d, n, frames);
  }

  lemma CausedBy(v: View, limit: nat, region: Node, s: Scope, outer: seq<Frame>, d: Diagnostic)
    returns (n: Node, frames: seq<Frame>)
    requires FramesGrounded(v, limit, outer) && ScopeGrounded(v, limit, s) && Caused(v, d, [region], s, outer)
    ensures Below(n, region) && Visible(s, outer, frames) && FramesGrounded(v, limit, frames)
    ensures frames != [] && d in ReportsAt(v, n, frames)
  {
    frames :| Visible(s, outer, frames) && Raised(v, d, [region], frames);
    n :| BelowAny(n, [region]) && d in ReportsAt(v, n, frames);
    VisibleGrounded(v, limit, s, outer, frames);
    BelowMember(n, [region]);
  }

  lemma IsJustified(v: View, objects: seq<SchemaObject>, region: Node, s: Scope, outer: seq<Frame>, d: Diagnostic,
                    n: Node, frames: seq<Frame>)
    requires AllRelations(Relations(objects))
    requires Below(n, region) && Visible(s, outer, frames) && Fault(v, objects, n, frames, d)
    ensures Justified(v, objects, region, s, outer, d)
  {
  }

  /**
   The walk of any region over the catalog of a snapshot, in any grounded frames: every binding at every depth is a
   relation of the snapshot with its columns or has local columns only, and every diagnostic is of a node below the
   region that is at fault in the snapshot and in the frames of some scope of the result.
   */
  lemma WalkIsJustified(c: Catalog, fold: Folding, objects: seq<SchemaObject>, region: Node, outer: seq<Frame>,
                        r: (Scope, seq<Diagnostic>))
    requires Built(c, fold, objects) && UniqueIds(objects) && AllRelations(Relations(objects)) && UniqueNames(Relations(objects))
    requires FramesGrounded(CatalogView(c, fold, objects), |Relations(objects)|, outer)
    requires r == WalkRegion(CatalogView(c, fold, objects), region, outer)
    ensures ScopeGrounded(CatalogView(c, fold, objects), |Relations(objects)|, r.0)
    ensures forall d :: d in r.1 ==> Justified(CatalogView(c, fold, objects), objects, region, r.0, outer, d)
  {
    CatalogIsBounded(c, fold, objects);
    RegionSound(CatalogView(c, fold, objects), |Relations(objects)|, region, outer);
    forall d | d in r.1 ensures Justified(CatalogView(c, fold, objects), objects, region, r.0, outer, d) {
      CausedIsJustified(c, fold, objects, region, r.0, outer, d);
    }
  }
}
