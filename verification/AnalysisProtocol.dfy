/**
 Background analyses racing with catalog swaps (`tempr_services/src/intelligence.rs`, and the cache of
 `tempr_intel/src/semantic.rs`).  Every lock section and every atomic access is one step; any number of
 analyses, swaps and forgets interleave.
 */
module AnalysisProtocol {
  import opened Wrappers

  type File = nat
  type Thread = nat
  type Revision = nat
  /** Identity of an installed catalog (the `Arc`, compared by pointer). */
  type CatalogRef = nat
  type Text = string

  /** An analysis is determined by the catalog and the text it was built from. */
  datatype Analysis = Analysis(catalog: CatalogRef, text: Text)

  datatype Stored = Stored(revision: Revision, analysis: Analysis)

  datatype Cached = Cached(revision: Revision, catalog: CatalogRef, analysis: Analysis)

  /** Where an `analyze` call stands. */
  datatype Pc =
    | CheckStored          // about to compare with the stored revision
    | LoadGeneration       // about to load the generation
    | LockMirrors          // about to take the mirrors lock and update the mirror
    | ReadCatalog          // in the mirrors lock: about to read the engine's catalog
    | ProbeCache           // about to look into the engine's cache
    | FillCache            // missed: about to build and insert
    | UnlockMirrors        // has an analysis, still in the mirrors lock
    | Recheck              // about to compare generations outside any lock
    | LockAnalyses         // about to take the write lock of the stored analyses
    | RecheckLocked        // in the write lock: about to compare generations again
    | Store                // in the write lock: about to compare revisions and insert

  datatype Worker = Worker(pc: Pc, file: File, revision: Revision, generation: nat, analysis: Analysis) {
    predicate InMirrors() { pc.ReadCatalog? || pc.ProbeCache? || pc.FillCache? || pc.UnlockMirrors? }

    predicate InAnalyses() { pc.RecheckLocked? || pc.Store? }

    /** Has read the catalog its analysis is (or will be) built against. */
    predicate Committed() {
      pc.ProbeCache? || pc.FillCache? || pc.UnlockMirrors? || pc.Recheck? || pc.LockAnalyses? || pc.RecheckLocked? || pc.Store?
    }

    /** Has its analysis. */
    predicate Built() { pc.UnlockMirrors? || pc.Recheck? || pc.LockAnalyses? || pc.RecheckLocked? || pc.Store? }
  }

  /** A `replace_catalog` call after its first step. */
  datatype Swap = Written | CacheCleared | Bumped

  datatype State = State(
    catalog: CatalogRef,
    cache: map<File, Cached>,
    generation: nat,
    stored: map<File, Stored>,
    mirrors: map<File, Text>,
    mirrorsHeld: Option<Thread>,
    analysesHeld: Option<Thread>,
    workers: map<Thread, Worker>,
    swaps: map<Thread, Swap>)

  const CACHE_MAX: nat := 64

  datatype Step =
    | Begin(t: Thread, file: File, revision: Revision)
    | Advance(t: Thread)
    | Fill(t: Thread, evicted: File)
    | BeginSwap(t: Thread, catalog: CatalogRef)
    | AdvanceSwap(t: Thread)
    | ForgetMirror(file: File)
    | ForgetAnalysis(file: File)

  /** Revisions identify texts: the text of a file at a revision. */
  type Texts = (File, Revision) -> Text

  ghost predicate Init(s: State) {
    && s.cache == map[] && s.generation == 0 && s.stored == map[] && s.mirrors == map[]
    && s.mirrorsHeld.None? && s.analysesHeld.None? && s.workers == map[] && s.swaps == map[]
  }

  predicate Enabled(s: State, step: Step) {
    match step
    case Begin(t, _, _) => t !in s.workers && t !in s.swaps
    case Advance(t) =>
      t in s.workers && !s.workers[t].pc.FillCache? &&
      (s.workers[t].pc.CheckStored? ==> s.analysesHeld.None?) &&
      (s.workers[t].pc.LockMirrors? ==> s.mirrorsHeld.None?) &&
      (s.workers[t].pc.LockAnalyses? ==> s.analysesHeld.None?)
    case Fill(t, evicted) =>
      t in s.workers && s.workers[t].pc.FillCache? && s.workers[t].file in s.mirrors &&
      (|s.cache| >= CACHE_MAX ==> evicted in s.cache)
    case BeginSwap(t, _) => t !in s.workers && t !in s.swaps
    case AdvanceSwap(t) => t in s.swaps && (s.swaps[t].Bumped? ==> s.analysesHeld.None?)
    case ForgetMirror(_) => s.mirrorsHeld.None?
    case ForgetAnalysis(_) => s.analysesHeld.None?
  }

  function Done(s: State, t: Thread): State { s.(workers := s.workers - {t}) }

  function Go(s: State, t: Thread, w: Worker): State { s.(workers := s.workers[t := w]) }

  function Next(texts: Texts, s: State, step: Step): State
    requires Enabled(s, step)
  {
    match step
    case Begin(t, file, revision) => Go(s, t, Worker(CheckStored, file, revision, 0, Analysis(0, "")))
    case Advance(t) => AdvanceWorker(texts, s, t, s.workers[t])
    case Fill(t, evicted) =>
      var w := s.workers[t];
      var a := Analysis(w.analysis.catalog, s.mirrors[w.file]);
      var room := if |s.cache| >= CACHE_MAX then s.cache - {evicted} else s.cache;
      Go(s.(cache := room[w.file := Cached(w.revision, w.analysis.catalog, a)]), t, w.(pc := UnlockMirrors, analysis := a))
    case BeginSwap(t, catalog) => s.(catalog := catalog, swaps := s.swaps[t := Written])
    case AdvanceSwap(t) =>
      (match s.swaps[t]
       case Written => s.(cache := map[], swaps := s.swaps[t := CacheCleared])
       case CacheCleared => s.(generation := s.generation + 1, swaps := s.swaps[t := Bumped])
       case Bumped => s.(stored := map[], swaps := s.swaps - {t}))
    case ForgetMirror(file) => s.(mirrors := s.mirrors - {file})
    case ForgetAnalysis(file) => s.(stored := s.stored - {file})
  }

  function AdvanceWorker(texts: Texts, s: State, t: Thread, w: Worker): State
    requires !w.pc.FillCache?
  {
    match w.pc
    case CheckStored =>
      if w.file in s.stored && s.stored[w.file].revision >= w.revision then Done(s, t) else Go(s, t, w.(pc := LoadGeneration))
    case LoadGeneration => Go(s, t, w.(pc := LockMirrors, generation := s.generation))
    case LockMirrors =>
      Go(s.(mirrorsHeld := Some(t), mirrors := s.mirrors[w.file := texts(w.file, w.revision)]), t, w.(pc := ReadCatalog))
    case ReadCatalog => Go(s, t, w.(pc := ProbeCache, analysis := Analysis(s.catalog, "")))
    case ProbeCache =>
      if w.file in s.cache && s.cache[w.file].revision == w.revision && s.cache[w.file].catalog == w.analysis.catalog
      then Go(s, t, w.(pc := UnlockMirrors, analysis := s.cache[w.file].analysis))
      else Go(s, t, w.(pc := FillCache))
    case UnlockMirrors => Go(s.(mirrorsHeld := None), t, w.(pc := Recheck))
    case Recheck => if s.generation != w.generation then Done(s, t) else Go(s, t, w.(pc := LockAnalyses))
    case LockAnalyses => Go(s.(analysesHeld := Some(t)), t, w.(pc := RecheckLocked))
    case RecheckLocked =>
      if s.generation != w.generation then Done(s.(analysesHeld := None), t) else Go(s, t, w.(pc := Store))
    case Store =>
      if w.file in s.stored && s.stored[w.file].revision >= w.revision then Done(s.(analysesHeld := None), t)
      else Done(s.(analysesHeld := None, stored := s.stored[w.file := Stored(w.revision, w.analysis)]), t)
  }

  // --- the invariant ---

  /** Some swap has installed a catalog and not yet cleared the stored analyses. */
  ghost predicate SwapInProgress(s: State) { exists t :: t in s.swaps }

  /** Some swap has installed a catalog and not yet moved the generation. */
  ghost predicate SwapBeforeBump(s: State) {
    exists t :: t in s.swaps && !s.swaps[t].Bumped?
  }

  /** A worker's catalog is the installed one unless a swap explains the difference: by the generation it moved
      or is about to move, or, once the worker only has to store, by the clear it has not yet made. */
  ghost predicate CatalogExplained(s: State, w: Worker) {
    && (w.pc != CheckStored && w.pc != LoadGeneration ==> w.generation <= s.generation)
    && (w.Committed() && w.pc != Store ==> w.analysis.catalog == s.catalog || w.generation < s.generation || SwapBeforeBump(s))
    && (w.pc == Store ==> w.analysis.catalog == s.catalog || SwapInProgress(s))
  }

  ghost predicate WorkerInv(texts: Texts, s: State, t: Thread, w: Worker) {
    && (w.InMirrors() ==> s.mirrorsHeld == Some(t) && w.file in s.mirrors && s.mirrors[w.file] == texts(w.file, w.revision))
    && (w.InAnalyses() ==> s.analysesHeld == Some(t))
    && (w.Built() ==> w.analysis.text == texts(w.file, w.revision))
    && CatalogExplained(s, w)
  }

  /** Everything remembered about a text is about the text of its revision, built against the recorded catalog. */
  ghost predicate CacheInv(texts: Texts, s: State) {
    && (forall f :: f in s.cache ==> s.cache[f].analysis == Analysis(s.cache[f].catalog, texts(f, s.cache[f].revision)))
    && |s.cache| <= CACHE_MAX
  }

  ghost predicate StoredInv(texts: Texts, s: State) {
    forall f :: f in s.stored ==>
      && s.stored[f].analysis.text == texts(f, s.stored[f].revision)
      && (s.stored[f].analysis.catalog == s.catalog || SwapInProgress(s))
  }

  ghost predicate HolderInv(s: State) {
    && (s.mirrorsHeld.Some? ==> s.mirrorsHeld.value in s.workers && s.workers[s.mirrorsHeld.value].InMirrors())
    && (s.analysesHeld.Some? ==> s.analysesHeld.value in s.workers && s.workers[s.analysesHeld.value].InAnalyses())
  }

  ghost predicate Inv(texts: Texts, s: State) {
    && HolderInv(s) && CacheInv(texts, s) && StoredInv(texts, s)
    && (forall t :: t in s.workers ==> WorkerInv(texts, s, t, s.workers[t]))
  }

  lemma InitInv(texts: Texts, s: State)
    requires Init(s)
    ensures Inv(texts, s)
  {
  }

  // --- every step keeps it ---

  /** Replacing one worker keeps the invariant when the new worker satisfies its part and holds the same locks. */
  lemma GoKeeps(texts: Texts, s: State, t: Thread, w: Worker)
    requires Inv(texts, s) && WorkerInv(texts, s, t, w)
    requires t in s.workers ==> w.InMirrors() == s.workers[t].InMirrors() && w.InAnalyses() == s.workers[t].InAnalyses()
    requires t !in s.workers ==> !w.InMirrors() && !w.InAnalyses()
    ensures Inv(texts, Go(s, t, w))
  {
    var n := Go(s, t, w);
    assert SwapBeforeBump(n) <==> SwapBeforeBump(s);
    forall u | u in n.workers ensures WorkerInv(texts, n, u, n.workers[u]) {
      assert u != t ==> WorkerInv(texts, s, u, s.workers[u]);
    }
  }

  /** A worker that holds no lock may stop. */
  lemma DoneKeeps(texts: Texts, s: State, t: Thread)
    requires Inv(texts, s) && t in s.workers && !s.workers[t].InMirrors() && !s.workers[t].InAnalyses()
    ensures Inv(texts, Done(s, t))
  {
    var n := Done(s, t);
    assert SwapBeforeBump(n) <==> SwapBeforeBump(s);
    forall u | u in n.workers ensures WorkerInv(texts, n, u, n.workers[u]) {
      assert WorkerInv(texts, s, u, s.workers[u]);
    }
  }

  /** Taking or releasing a lock, and writing what the lock guards, concerns its holder only. */
  lemma LockKeeps(texts: Texts, s: State, n: State, t: Thread)
    requires Inv(texts, s) && HolderInv(n) && CacheInv(texts, n) && StoredInv(texts, n)
    requires n.catalog == s.catalog && n.generation == s.generation && n.swaps == s.swaps
    requires n.mirrorsHeld != s.mirrorsHeld || n.mirrors != s.mirrors ==> s.mirrorsHeld == Some(t) || s.mirrorsHeld.None?
    requires n.analysesHeld != s.analysesHeld ==> s.analysesHeld == Some(t) || s.analysesHeld.None?
    requires forall u :: u != t ==> (u in n.workers <==> u in s.workers) && (u in n.workers ==> n.workers[u] == s.workers[u])
    requires t in n.workers ==> WorkerInv(texts, n, t, n.workers[t])
    ensures Inv(texts, n)
  {
    assert SwapBeforeBump(n) <==> SwapBeforeBump(s);
    forall u | u in n.workers ensures WorkerInv(texts, n, u, n.workers[u]) {
      assert u != t ==> WorkerInv(texts, s, u, s.workers[u]);
    }
  }

  lemma CheckStoredKeeps(texts: Texts, s: State, t: Thread)
    requires Inv(texts, s) && Enabled(s, Advance(t)) && s.workers[t].pc.CheckStored?
    ensures Inv(texts, Next(texts, s, Advance(t)))
  {
    var w := s.workers[t];
    if w.file in s.stored && s.stored[w.file].revision >= w.revision {
      DoneKeeps(texts, s, t);
    } else {
      assert WorkerInv(texts, s, t, w);
      GoKeeps(texts, s, t, w.(pc := LoadGeneration));
    }
  }

  lemma LoadGenerationKeeps(texts: Texts, s: State, t: Thread)
    requires Inv(texts, s) && Enabled(s, Advance(t)) && s.workers[t].pc.LoadGeneration?
    ensures Inv(texts, Next(texts, s, Advance(t)))
  {
    var n := Next(texts, s, Advance(t));
    assert WorkerInv(texts, s, t, s.workers[t]);
    GoKeeps(texts, s, t, n.workers[t]);
  }

  lemma ReadCatalogKeeps(texts: Texts, s: State, t: Thread)
    requires Inv(texts, s) && Enabled(s, Advance(t)) && s.workers[t].pc.ReadCatalog?
    ensures Inv(texts, Next(texts, s, Advance(t)))
  {
    var n := Next(texts, s, Advance(t));
    assert WorkerInv(texts, s, t, s.workers[t]);
    GoKeeps(texts, s, t, n.workers[t]);
  }

  lemma ProbeHitKeeps(texts: Texts, s: State, t: Thread)
    requires Inv(texts, s) && t in s.workers && s.workers[t].pc.ProbeCache?
    requires var w := s.workers[t]; w.file in s.cache && s.cache[w.file].revision == w.revision && s.cache[w.file].catalog == w.analysis.catalog
    ensures var w := s.workers[t]; Inv(texts, Go(s, t, w.(pc := UnlockMirrors, analysis := s.cache[w.file].analysis)))
  {
    var w := s.workers[t];
    assert WorkerInv(texts, s, t, w);
    GoKeeps(texts, s, t, w.(pc := UnlockMirrors, analysis := s.cache[w.file].analysis));
  }

  lemma ProbeMissKeeps(texts: Texts, s: State, t: Thread)
    requires Inv(texts, s) && t in s.workers && s.workers[t].pc.ProbeCache?
    ensures Inv(texts, Go(s, t, s.workers[t].(pc := FillCache)))
  {
    assert WorkerInv(texts, s, t, s.workers[t]);
    GoKeeps(texts, s, t, s.workers[t].(pc := FillCache));
  }

  lemma ProbeCacheKeeps(texts: Texts, s: State, t: Thread)
    requires Inv(texts, s) && Enabled(s, Advance(t)) && s.workers[t].pc.ProbeCache?
    ensures Inv(texts, Next(texts, s, Advance(t)))
  {
    var w := s.workers[t];
    if w.file in s.cache && s.cache[w.file].revision == w.revision && s.cache[w.file].catalog == w.analysis.catalog {
      ProbeHitKeeps(texts, s, t);
    } else {
      ProbeMissKeeps(texts, s, t);
    }
  }

  lemma RecheckKeeps(texts: Texts, s: State, t: Thread)
    requires Inv(texts, s) && Enabled(s, Advance(t)) && s.workers[t].pc.Recheck?
    ensures Inv(texts, Next(texts, s, Advance(t)))
  {
    var n := Next(texts, s, Advance(t));
    assert WorkerInv(texts, s, t, s.workers[t]);
    if t in n.workers { GoKeeps(texts, s, t, n.workers[t]); } else { DoneKeeps(texts, s, t); }
  }

  lemma MirrorsLockKeeps(texts: Texts, s: State, t: Thread)
    requires Inv(texts, s) && Enabled(s, Advance(t)) && (s.workers[t].pc.LockMirrors? || s.workers[t].pc.UnlockMirrors?)
    ensures Inv(texts, Next(texts, s, Advance(t)))
  {
    assert WorkerInv(texts, s, t, s.workers[t]);
    LockKeeps(texts, s, Next(texts, s, Advance(t)), t);
  }

  lemma LockAnalysesKeeps(texts: Texts, s: State, t: Thread)
    requires Inv(texts, s) && Enabled(s, Advance(t)) && s.workers[t].pc.LockAnalyses?
    ensures Inv(texts, Next(texts, s, Advance(t)))
  {
    assert WorkerInv(texts, s, t, s.workers[t]);
    LockKeeps(texts, s, Next(texts, s, Advance(t)), t);
  }

  lemma RecheckLockedKeeps(texts: Texts, s: State, t: Thread)
    requires Inv(texts, s) && Enabled(s, Advance(t)) && s.workers[t].pc.RecheckLocked?
    ensures Inv(texts, Next(texts, s, Advance(t)))
  {
    var n := Next(texts, s, Advance(t));
    assert WorkerInv(texts, s, t, s.workers[t]);
    if t in n.workers { GoKeeps(texts, s, t, n.workers[t]); } else { LockKeeps(texts, s, n, t); }
  }

  lemma StoreKeeps(texts: Texts, s: State, t: Thread)
    requires Inv(texts, s) && Enabled(s, Advance(t)) && s.workers[t].pc.Store?
    ensures Inv(texts, Next(texts, s, Advance(t)))
  {
    var w := s.workers[t];
    var stored := StoredAfter(s, w);
    assert WorkerInv(texts, s, t, w);
    StoreReleases(texts, s, t, w);
    ReleaseKeeps(texts, s, t, stored);
  }

  /** What the store step makes of the stored analyses. */
  function StoredAfter(s: State, w: Worker): map<File, Stored> {
    if w.file in s.stored && s.stored[w.file].revision >= w.revision then s.stored
    else s.stored[w.file := Stored(w.revision, w.analysis)]
  }

  lemma StoreReleases(texts: Texts, s: State, t: Thread, w: Worker)
    requires w.pc.Store?
    ensures AdvanceWorker(texts, s, t, w) == Done(s.(analysesHeld := None, stored := StoredAfter(s, w)), t)
  {
  }

  lemma ReleaseKeeps(texts: Texts, s: State, t: Thread, stored: map<File, Stored>)
    requires Inv(texts, s) && t in s.workers && s.workers[t].InAnalyses() && !s.workers[t].InMirrors()
    requires StoredInv(texts, s.(stored := stored))
    ensures Inv(texts, Done(s.(analysesHeld := None, stored := stored), t))
  {
    assert WorkerInv(texts, s, t, s.workers[t]);
    LockKeeps(texts, s, Done(s.(analysesHeld := None, stored := stored), t), t);
  }

  lemma AdvanceKeeps(texts: Texts, s: State, t: Thread)
    requires Inv(texts, s) && Enabled(s, Advance(t))
    ensures Inv(texts, Next(texts, s, Advance(t)))
  {
    match s.workers[t].pc
    case CheckStored => CheckStoredKeeps(texts, s, t);
    case LoadGeneration => LoadGenerationKeeps(texts, s, t);
    case LockMirrors => MirrorsLockKeeps(texts, s, t);
    case ReadCatalog => ReadCatalogKeeps(texts, s, t);
    case ProbeCache => ProbeCacheKeeps(texts, s, t);
    case UnlockMirrors => MirrorsLockKeeps(texts, s, t);
    case Recheck => RecheckKeeps(texts, s, t);
    case LockAnalyses => LockAnalysesKeeps(texts, s, t);
    case RecheckLocked => RecheckLockedKeeps(texts, s, t);
    case Store => StoreKeeps(texts, s, t);
  }

  lemma FillKeeps(texts: Texts, s: State, t: Thread, evicted: File)
    requires Inv(texts, s) && Enabled(s, Fill(t, evicted))
    ensures Inv(texts, Next(texts, s, Fill(t, evicted)))
  {
    assert WorkerInv(texts, s, t, s.workers[t]);
    LockKeeps(texts, s, Next(texts, s, Fill(t, evicted)), t);
  }

  /** Installing a catalog or moving the generation keeps every worker explained. */
  lemma SwapKeeps(texts: Texts, s: State, n: State)
    requires Inv(texts, s) && CacheInv(texts, n) && StoredInv(texts, n)
    requires n.workers == s.workers && n.mirrors == s.mirrors && n.mirrorsHeld == s.mirrorsHeld && n.analysesHeld == s.analysesHeld
    requires s.generation <= n.generation
    requires n.catalog != s.catalog ==> SwapBeforeBump(n)
    requires SwapBeforeBump(s) ==> SwapBeforeBump(n) || s.generation < n.generation
    requires SwapInProgress(s) && s.analysesHeld.Some? ==> SwapInProgress(n)
    ensures Inv(texts, n)
  {
    assert SwapBeforeBump(n) ==> SwapInProgress(n);
    forall u | u in n.workers ensures WorkerInv(texts, n, u, n.workers[u]) {
      assert WorkerInv(texts, s, u, s.workers[u]);
    }
  }

  lemma BeginSwapKeeps(texts: Texts, s: State, t: Thread, catalog: CatalogRef)
    requires Inv(texts, s) && Enabled(s, BeginSwap(t, catalog))
    ensures Inv(texts, Next(texts, s, BeginSwap(t, catalog)))
  {
    var n := Next(texts, s, BeginSwap(t, catalog));
    assert t in n.swaps && !n.swaps[t].Bumped?;
    SwapKeeps(texts, s, n);
  }

  lemma ClearCacheKeeps(texts: Texts, s: State, t: Thread)
    requires Inv(texts, s) && t in s.swaps && s.swaps[t].Written?
    ensures Inv(texts, s.(cache := map[], swaps := s.swaps[t := CacheCleared]))
  {
    var n := s.(cache := map[], swaps := s.swaps[t := CacheCleared]);
    assert t in n.swaps && !n.swaps[t].Bumped?;
    SwapKeeps(texts, s, n);
  }

  lemma BumpKeeps(texts: Texts, s: State, t: Thread)
    requires Inv(texts, s) && t in s.swaps && s.swaps[t].CacheCleared?
    ensures Inv(texts, s.(generation := s.generation + 1, swaps := s.swaps[t := Bumped]))
  {
    var n := s.(generation := s.generation + 1, swaps := s.swaps[t := Bumped]);
    assert t in n.swaps;
    SwapKeeps(texts, s, n);
  }

  lemma ClearStoredKeeps(texts: Texts, s: State, t: Thread)
    requires Inv(texts, s) && t in s.swaps && s.swaps[t].Bumped? && s.analysesHeld.None?
    ensures Inv(texts, s.(stored := map[], swaps := s.swaps - {t}))
  {
    var n := s.(stored := map[], swaps := s.swaps - {t});
    if u :| u in s.swaps && !s.swaps[u].Bumped? { assert u in n.swaps; }
    SwapKeeps(texts, s, n);
  }

  lemma AdvanceSwapKeeps(texts: Texts, s: State, t: Thread)
    requires Inv(texts, s) && Enabled(s, AdvanceSwap(t))
    ensures Inv(texts, Next(texts, s, AdvanceSwap(t)))
  {
    match s.swaps[t]
    case Written => ClearCacheKeeps(texts, s, t);
    case CacheCleared => BumpKeeps(texts, s, t);
    case Bumped => ClearStoredKeeps(texts, s, t);
  }

  lemma NextKeeps(texts: Texts, s: State, step: Step)
    requires Inv(texts, s) && Enabled(s, step)
    ensures Inv(texts, Next(texts, s, step))
  {
    match step
    case Begin(t, _, _) => GoKeeps(texts, s, t, Next(texts, s, step).workers[t]);
    case Advance(t) => AdvanceKeeps(texts, s, t);
    case Fill(t, evicted) => FillKeeps(texts, s, t, evicted);
    case BeginSwap(t, catalog) => BeginSwapKeeps(texts, s, t, catalog);
    case AdvanceSwap(t) => AdvanceSwapKeeps(texts, s, t);
    case ForgetMirror(_) => ForgetKeeps(texts, s, step);
    case ForgetAnalysis(_) => ForgetKeeps(texts, s, step);
  }

  lemma ForgetKeeps(texts: Texts, s: State, step: Step)
    requires Inv(texts, s) && Enabled(s, step) && (step.ForgetMirror? || step.ForgetAnalysis?)
    ensures Inv(texts, Next(texts, s, step))
  {
    var n := Next(texts, s, step);
    assert SwapBeforeBump(n) <==> SwapBeforeBump(s);
    forall u | u in n.workers ensures WorkerInv(texts, n, u, n.workers[u]) {
      assert WorkerInv(texts, s, u, s.workers[u]);
    }
  }

  // --- whole runs ---

  /** An interleaving: every step is enabled where it is taken. */
  ghost predicate Run(texts: Texts, states: seq<State>, steps: seq<Step>) {
    && |states| == |steps| + 1 && Init(states[0])
    && forall i :: 0 <= i < |steps| ==> Enabled(states[i], steps[i]) && states[i + 1] == Next(texts, states[i], steps[i])
  }

  lemma {:induction false} RunInv(texts: Texts, states: seq<State>, steps: seq<Step>, i: nat)
    requires Run(texts, states, steps) && i < |states|
    ensures Inv(texts, states[i])
  {
    if i == 0 {
      InitInv(texts, states[0]);
    } else {
      RunInv(texts, states, steps, i - 1);
      NextKeeps(texts, states[i - 1], steps[i - 1]);
    }
  }

  /** In every interleaving, whenever no swap is in progress, every stored analysis is the analysis of its
      revision's text against the installed catalog. */
  lemma StoredMatchesInstalled(texts: Texts, states: seq<State>, steps: seq<Step>, i: nat, f: File)
    requires Run(texts, states, steps) && i < |states|
    requires !SwapInProgress(states[i]) && f in states[i].stored
    ensures states[i].stored[f].analysis == Analysis(states[i].catalog, texts(f, states[i].stored[f].revision))
  {
    RunInv(texts, states, steps, i);
  }

  /** In every interleaving, what the engine's cache holds was built from the text and the catalog it is filed
      under, so a hit returns what a fresh analysis would; and the cache never outgrows its bound. */
  lemma CacheIsFaithful(texts: Texts, states: seq<State>, steps: seq<Step>, i: nat)
    requires Run(texts, states, steps) && i < |states|
    ensures |states[i].cache| <= CACHE_MAX
    ensures forall f :: f in states[i].cache ==>
              states[i].cache[f].analysis == Analysis(states[i].cache[f].catalog, texts(f, states[i].cache[f].revision))
  {
    RunInv(texts, states, steps, i);
  }

  /** Does this step remove the stored analysis of `f`? */
  predicate Clears(s: State, step: Step, f: File)
    requires Enabled(s, step)
  {
    (step.AdvanceSwap? && s.swaps[step.t].Bumped?) || step == ForgetAnalysis(f)
  }

  lemma AdvanceLeavesStored(texts: Texts, s: State, t: Thread, w: Worker)
    requires !w.pc.FillCache? && !w.pc.Store?
    ensures AdvanceWorker(texts, s, t, w).stored == s.stored
  {
    match w.pc
    case CheckStored =>
    case LoadGeneration =>
    case LockMirrors =>
    case ReadCatalog =>
    case ProbeCache =>
    case UnlockMirrors =>
    case Recheck =>
    case LockAnalyses =>
    case RecheckLocked =>
  }

  lemma StoreAdvances(texts: Texts, s: State, t: Thread, w: Worker, f: File)
    requires w.pc.Store? && f in s.stored
    ensures
      var n := AdvanceWorker(texts, s, t, w);
      f in n.stored && (n.stored[f] == s.stored[f] || n.stored[f].revision > s.stored[f].revision)
  {
  }

  lemma StepRevision(texts: Texts, s: State, step: Step, f: File)
    requires Enabled(s, step) && f in s.stored && !Clears(s, step, f)
    ensures var n := Next(texts, s, step);
            f in n.stored && (n.stored[f] == s.stored[f] || n.stored[f].revision > s.stored[f].revision)
  {
    match step
    case Advance(t) =>
      if s.workers[t].pc.Store? { StoreAdvances(texts, s, t, s.workers[t], f); } else { AdvanceLeavesStored(texts, s, t, s.workers[t]); }
    case _ =>
  }

  /** Between clears a file's stored revision never goes back, and an analysis is replaced only by one of a
      later revision. */
  lemma {:induction false} RevisionsAdvance(texts: Texts, states: seq<State>, steps: seq<Step>, i: nat, j: nat, f: File)
    requires Run(texts, states, steps) && i <= j < |states| && f in states[i].stored
    requires forall k :: i <= k < j ==> !Clears(states[k], steps[k], f)
    ensures f in states[j].stored
    ensures states[j].stored[f] == states[i].stored[f] || states[j].stored[f].revision > states[i].stored[f].revision
    decreases j - i
  {
    if i < j {
      RevisionsAdvance(texts, states, steps, i, j - 1, f);
      StepRevision(texts, states[j - 1], steps[j - 1], f);
    }
  }

  // --- what a call leaves behind ---

  /** The step moves the generation. */
  predicate Bumps(s: State, step: Step) {
    step.AdvanceSwap? && step.t in s.swaps && s.swaps[step.t].CacheCleared?
  }

  lemma AdvanceKeepsGeneration(texts: Texts, s: State, t: Thread, w: Worker)
    requires !w.pc.FillCache?
    ensures AdvanceWorker(texts, s, t, w).generation == s.generation
  {
    match w.pc
    case CheckStored =>
    case LoadGeneration =>
    case LockMirrors =>
    case ReadCatalog =>
    case ProbeCache =>
    case UnlockMirrors =>
    case Recheck =>
    case LockAnalyses =>
    case RecheckLocked =>
    case Store =>
  }

  lemma GenerationStep(texts: Texts, s: State, step: Step)
    requires Enabled(s, step)
    ensures Next(texts, s, step).generation == if Bumps(s, step) then s.generation + 1 else s.generation
  {
    match step
    case Advance(t) => AdvanceKeepsGeneration(texts, s, t, s.workers[t]);
    case _ =>
  }

  lemma GenerationStays(texts: Texts, states: seq<State>, steps: seq<Step>, i: nat, j: nat)
    requires Run(texts, states, steps) && i <= j < |states| && forall k :: i <= k < j ==> !Bumps(states[k], steps[k])
    ensures states[j].generation == states[i].generation
  {
    forall k | i <= k < j ensures states[k + 1].generation == states[k].generation {
      GenerationStep(texts, states[k], steps[k]);
    }
    SameThroughout(states, i, j);
  }

  lemma {:induction false} SameThroughout(states: seq<State>, i: nat, j: nat)
    requires i <= j < |states| && forall k :: i <= k < j ==> states[k + 1].generation == states[k].generation
    ensures states[j].generation == states[i].generation
    decreases j - i
  {
    if i < j { SameThroughout(states, i, j - 1); }
  }

  /** The call still works on what it was called for, with the generation it loaded. */
  predicate SameCall(w: Worker, file: File, revision: Revision, generation: nat) {
    && w.file == file && w.revision == revision
    && (!w.pc.CheckStored? && !w.pc.LoadGeneration? ==> w.generation == generation)
  }

  /** A call that loaded the present generation goes on or ends with its revision stored. */
  ghost predicate GoesOn(n: State, t: Thread, file: File, revision: Revision, generation: nat) {
    if t in n.workers then SameCall(n.workers[t], file, revision, generation)
    else file in n.stored && n.stored[file].revision >= revision
  }

  lemma OwnStep(texts: Texts, s: State, t: Thread, w: Worker, file: File, revision: Revision)
    requires !w.pc.FillCache? && t in s.workers && SameCall(w, file, revision, s.generation)
    ensures GoesOn(AdvanceWorker(texts, s, t, w), t, file, revision, s.generation)
  {
    match w.pc
    case CheckStored =>
    case LoadGeneration =>
    case LockMirrors =>
    case ReadCatalog =>
    case ProbeCache =>
    case UnlockMirrors =>
    case Recheck =>
    case LockAnalyses =>
    case RecheckLocked =>
    case Store =>
  }

  lemma OthersStay(texts: Texts, s: State, u: Thread, w: Worker, t: Thread)
    requires !w.pc.FillCache? && u != t && t in s.workers
    ensures var n := AdvanceWorker(texts, s, u, w); t in n.workers && n.workers[t] == s.workers[t]
  {
    match w.pc
    case CheckStored =>
    case LoadGeneration =>
    case LockMirrors =>
    case ReadCatalog =>
    case ProbeCache =>
    case UnlockMirrors =>
    case Recheck =>
    case LockAnalyses =>
    case RecheckLocked =>
    case Store =>
  }

  lemma CallStep(texts: Texts, s: State, step: Step, t: Thread, file: File, revision: Revision)
    requires Enabled(s, step) && t in s.workers && SameCall(s.workers[t], file, revision, s.generation)
    ensures GoesOn(Next(texts, s, step), t, file, revision, s.generation)
  {
    match step
    case Advance(u) => if u == t { OwnStep(texts, s, t, s.workers[t], file, revision); } else { OthersStay(texts, s, u, s.workers[u], t); }
    case _ =>
  }

  lemma {:induction false} CallGoesOn(texts: Texts, states: seq<State>, steps: seq<Step>, i: nat, j: nat, t: Thread, file: File, revision: Revision)
    requires Run(texts, states, steps) && i < j < |states| && steps[i] == Begin(t, file, revision)
    requires (forall k :: i <= k < j ==> !Bumps(states[k], steps[k])) && forall k :: i < k < j ==> t in states[k].workers
    ensures GoesOn(states[j], t, file, revision, states[i].generation)
    decreases j
  {
    if j > i + 1 {
      CallGoesOn(texts, states, steps, i, j - 1, t, file, revision);
      GenerationStays(texts, states, steps, i, j - 1);
      CallStep(texts, states[j - 1], steps[j - 1], t, file, revision);
    }
  }

  /** In every interleaving, a call during which no swap moves the generation ends with its revision stored, or a later
      one. */
  lemma EndsStored(texts: Texts, states: seq<State>, steps: seq<Step>, i: nat, j: nat, t: Thread, file: File, revision: Revision)
    requires Run(texts, states, steps) && i + 1 < j < |states| && steps[i] == Begin(t, file, revision)
    requires (forall k :: i < k < j ==> t in states[k].workers) && t !in states[j].workers
    requires forall k :: i <= k < j ==> !Bumps(states[k], steps[k])
    ensures file in states[j].stored && states[j].stored[file].revision >= revision
  {
    CallGoesOn(texts, states, steps, i, j, t, file, revision);
  }

  /** A call or a swap that has begun can go on, or waits for a lock whose holder can. */
  lemma NoDeadlock(texts: Texts, s: State)
    requires Inv(texts, s) && (s.workers != map[] || s.swaps != map[])
    ensures exists step: Step :: (step.Advance? || step.Fill? || step.AdvanceSwap?) && Enabled(s, step)
  {
    if s.analysesHeld.Some? {
      assert Enabled(s, Advance(s.analysesHeld.value));
    } else if s.mirrorsHeld.Some? {
      WorkerGoesOn(texts, s, s.mirrorsHeld.value);
    } else if t :| t in s.workers {
      WorkerGoesOn(texts, s, t);
    } else {
      var t :| t in s.swaps;
      assert Enabled(s, AdvanceSwap(t));
    }
  }

  lemma WorkerGoesOn(texts: Texts, s: State, t: Thread)
    requires Inv(texts, s) && t in s.workers && s.analysesHeld.None? && (s.mirrorsHeld.None? || s.mirrorsHeld == Some(t))
    requires s.mirrorsHeld == Some(t) ==> s.workers[t].InMirrors()
    ensures exists step: Step :: (step.Advance? || step.Fill?) && Enabled(s, step)
  {
    assert WorkerInv(texts, s, t, s.workers[t]);
    if s.workers[t].pc.FillCache? {
      if |s.cache| >= CACHE_MAX {
        assert s.cache != map[];
        var f :| f in s.cache;
        assert Enabled(s, Fill(t, f));
      } else {
        assert Enabled(s, Fill(t, 0));
      }
    } else {
      assert Enabled(s, Advance(t));
    }
  }
}
