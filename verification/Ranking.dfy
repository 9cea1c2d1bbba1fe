/** `rank` of `tempr_intel/src/completion.rs`: scoring, deduplication, and the bounded heap of the best items. */
module Ranking {
  import opened Fuzzy
  import opened Sorting
  import opened Strings
  import opened Wrappers

  const COMPLETION_LIMIT := 200

  const WEIGHT_COLUMN := 500
  const WEIGHT_COLUMN_QUALIFIED := 480
  const WEIGHT_CTE := 470
  const WEIGHT_RELATION := 450
  const WEIGHT_STATEMENT_KEYWORD := 400
  const WEIGHT_FUNCTION := 300
  const WEIGHT_RELATION_EXPRESSION := 250
  const WEIGHT_SCHEMA := 200
  const WEIGHT_ALIAS := 150
  const WEIGHT_KEYWORD := 100

  datatype ItemKind = KeywordItem | TableItem | ColumnItem | SchemaItem | AliasItem | CteItem | FunctionItem | SnippetItem | PluginItem

  datatype Candidate = Candidate(text: string, insert: string, kind: ItemKind, detail: string, weight: int)

  datatype Ranked = Ranked(score: int, candidate: Candidate)

  datatype Item = Item(text: string, kind: ItemKind, detail: string, insert: string, start: nat, end: nat, score: int)

  type Key = (string, ItemKind)

  function KeyOf(c: Candidate): Key { (c.text, c.kind) }

  /** Rust's character tests, and the case folding of whole strings. */
  datatype Matching = Matching(chars: Chars, fold: string -> string)

  // --- scores ---

  predicate StartsWith(s: string, prefix: string) {
    |prefix| <= |s| && s[..|prefix|] == prefix
  }

  /** `match_quality`. */
  function Quality(m: Matching, prefix: string, text: string): Option<int> {
    if prefix == "" then Some(0)
    else if StartsWith(text, prefix) then Some(400)
    else if StartsWith(m.fold(text), m.fold(prefix)) then Some(300)
    else FuzzyScore(m.chars, prefix, text)
  }

  function Score(m: Matching, prefix: string, c: Candidate): Option<int> {
    match Quality(m, prefix, c.text)
    case None => None
    case Some(q) => Some(c.weight * 1000 + q * 4 - |c.text|)
  }

  // --- deduplication ---

  /** One more candidate: a new key enters, a known one only with a strictly better score. */
  function Improve(m: Matching, prefix: string, best: map<Key, Ranked>, c: Candidate): map<Key, Ranked> {
    match Score(m, prefix, c)
    case None => best
    case Some(s) =>
      if KeyOf(c) in best && s <= best[KeyOf(c)].score then best else best[KeyOf(c) := Ranked(s, c)]
  }

  function Best(m: Matching, prefix: string, candidates: seq<Candidate>): map<Key, Ranked> {
    if candidates == [] then map[]
    else Improve(m, prefix, Best(m, prefix, candidates[..|candidates| - 1]), candidates[|candidates| - 1])
  }

  ghost predicate Keyed(best: map<Key, Ranked>) { forall k :: k in best ==> KeyOf(best[k].candidate) == k }

  /** The map holds, for every key that matches at all, the best of its candidates. */
  lemma {:induction false} BestIsMaximal(m: Matching, prefix: string, candidates: seq<Candidate>)
    ensures
      var best := Best(m, prefix, candidates);
      && Keyed(best)
      && (forall k :: k in best ==> best[k].candidate in candidates
                                    && Score(m, prefix, best[k].candidate) == Some(best[k].score))
      && (forall c :: c in candidates && Score(m, prefix, c).Some? ==>
            KeyOf(c) in best && Score(m, prefix, c).value <= best[KeyOf(c)].score)
  {
    if candidates != [] {
      var n := |candidates| - 1;
      var c := candidates[n];
      BestIsMaximal(m, prefix, candidates[..n]);
      assert candidates == candidates[..n] + [candidates[n]];
    }
  }

  /** Of several candidates with one key and the best score, the first given is kept. */
  lemma {:induction false} FirstOfBestIsKept(m: Matching, prefix: string, candidates: seq<Candidate>, k: Key) returns (i: nat)
    requires k in Best(m, prefix, candidates)
    ensures i < |candidates| && KeyOf(candidates[i]) == k && Best(m, prefix, candidates)[k].candidate == candidates[i]
    ensures Score(m, prefix, candidates[i]) == Some(Best(m, prefix, candidates)[k].score)
    ensures forall j :: 0 <= j < i && KeyOf(candidates[j]) == k ==>
              Score(m, prefix, candidates[j]).None? || Score(m, prefix, candidates[j]).value < Best(m, prefix, candidates)[k].score
  {
    var n := |candidates| - 1;
    var front := candidates[..n];
    if k in Best(m, prefix, front) && Best(m, prefix, candidates)[k] == Best(m, prefix, front)[k] {
      i := FirstOfBestIsKept(m, prefix, front, k);
    } else {
      i := n;
      forall j | 0 <= j < n && KeyOf(candidates[j]) == k
        ensures Score(m, prefix, candidates[j]).None? || Score(m, prefix, candidates[j]).value < Best(m, prefix, candidates)[k].score
      {
        LastBeats(m, prefix, candidates, k, front[j]);
      }
    }
  }

  /** A last candidate that changes the entry of its key beats every candidate before it. */
  lemma LastBeats(m: Matching, prefix: string, candidates: seq<Candidate>, k: Key, other: Candidate)
    requires candidates != [] && other in candidates[..|candidates| - 1] && KeyOf(other) == k
    requires
      var before, after := Best(m, prefix, candidates[..|candidates| - 1]), Best(m, prefix, candidates);
      k in after && (k in before ==> after[k] != before[k])
    ensures Score(m, prefix, other).None? || Score(m, prefix, other).value < Best(m, prefix, candidates)[k].score
  {
    BestIsMaximal(m, prefix, candidates[..|candidates| - 1]);
  }

  // --- the order of results ---

  /** `Ord for Ranked`: a better score, then a smaller label, is greater. */
  predicate RankLe(a: Ranked, b: Ranked) {
    a.score < b.score || (a.score == b.score && StrLe(b.candidate.text, a.candidate.text))
  }

  function BetterFirst(): (Ranked, Ranked) -> bool { (a, b) => RankLe(b, a) }

  lemma RankOrder()
    ensures forall a, b :: RankLe(a, b) || RankLe(b, a)
    ensures forall a, b, c :: RankLe(a, b) && RankLe(b, c) ==> RankLe(a, c)
    ensures TotalPreorder(BetterFirst())
  {
    StrOrder();
  }

  /** `items` are `min(limit, n)` different entries of `best`, sorted, and no entry left out beats one of them. */
  ghost predicate TopOf(best: map<Key, Ranked>, limit: nat, items: seq<Ranked>) {
    && |items| == (if |best| < limit then |best| else limit)
    && (forall i :: 0 <= i < |items| ==> Entry(best, items[i]))
    && DifferentKeys(items)
    && (forall i, j :: 0 <= i < j < |items| ==> RankLe(items[j], items[i]))
    && (forall k, i :: k in best && best[k] !in items && 0 <= i < |items| ==> RankLe(best[k], items[i]))
  }

  ghost predicate Entry(best: map<Key, Ranked>, r: Ranked) {
    KeyOf(r.candidate) in best && best[KeyOf(r.candidate)] == r
  }

  predicate SameRank(a: Ranked, b: Ranked) { a.score == b.score && a.candidate.text == b.candidate.text }

  lemma EqualRank(a: Ranked, b: Ranked)
    requires RankLe(a, b) && RankLe(b, a)
    ensures SameRank(a, b)
  {
    StrOrder();
  }

  ghost function Keys(items: seq<Ranked>): set<Key> { set r | r in items :: KeyOf(r.candidate) }

  lemma {:induction false} KeysCount(items: seq<Ranked>)
    requires DifferentKeys(items)
    ensures |Keys(items)| == |items|
  {
    if items != [] {
      var n := |items| - 1;
      KeysCount(items[..n]);
      assert items == items[..n] + [items[n]];
      assert Keys(items) == Keys(items[..n]) + {KeyOf(items[n].candidate)};
    }
  }

  lemma KeysAt(items: seq<Ranked>, k: Key) returns (i: nat)
    requires k in Keys(items)
    ensures i < |items| && KeyOf(items[i].candidate) == k
  {
    var r :| r in items && KeyOf(r.candidate) == k;
    i :| 0 <= i < |items| && items[i] == r;
  }

  lemma FreshKey(a: set<Key>, b: set<Key>) returns (k: Key)
    requires |a| > |b|
    ensures k in a && k !in b
  {
    if a <= b { SubsetSize(a, b); }
    k :| k in a && k !in b;
  }

  lemma {:induction false} SubsetSize(a: set<Key>, b: set<Key>)
    requires a <= b
    ensures |a| <= |b|
  {
    if a != {} {
      var k :| k in a;
      SubsetSize(a - {k}, b - {k});
    }
  }

  ghost predicate DifferentKeys(items: seq<Ranked>) {
    forall i, j :: 0 <= i < j < |items| ==> KeyOf(items[i].candidate) != KeyOf(items[j].candidate)
  }

  /** One of the first `i + 1` of `a` is not among the first `i` of `b`. */
  lemma OneIsNew(a: seq<Ranked>, b: seq<Ranked>, i: nat) returns (j: nat)
    requires i < |a| && i <= |b| && DifferentKeys(a) && DifferentKeys(b)
    ensures j <= i && forall l :: 0 <= l < i ==> b[l] != a[j]
  {
    KeysCount(a[..i + 1]);
    KeysCount(b[..i]);
    var k := FreshKey(Keys(a[..i + 1]), Keys(b[..i]));
    j := KeysAt(a[..i + 1], k);
    forall l | 0 <= l < i ensures b[l] != a[j] { assert b[l] in b[..i]; }
  }

  /** The item at each place is never worse in one list than in the other. */
  lemma TopAtLeast(best: map<Key, Ranked>, limit: nat, a: seq<Ranked>, b: seq<Ranked>, i: nat)
    requires TopOf(best, limit, a) && TopOf(best, limit, b) && i < |a|
    ensures RankLe(b[i], a[i])
  {
    var j := OneIsNew(b, a, i);
    RankReflexive(b[i]);
    assert RankLe(b[i], b[j]);
    assert Entry(best, b[j]);
    NotAhead(best, limit, a, b[j], i);
    RankTransitive(b[i], b[j], a[i]);
  }

  /** An entry that is not among the first `i` is no better than the next one. */
  lemma NotAhead(best: map<Key, Ranked>, limit: nat, a: seq<Ranked>, r: Ranked, i: nat)
    requires TopOf(best, limit, a) && i < |a| && Entry(best, r) && forall l :: 0 <= l < i ==> a[l] != r
    ensures RankLe(r, a[i])
  {
    RankReflexive(a[i]);
    if r in a {
      var l :| 0 <= l < |a| && a[l] == r;
      assert l >= i;
    }
  }

  lemma RankReflexive(a: Ranked)
    ensures RankLe(a, a)
  {
    StrTotal(a.candidate.text, a.candidate.text);
  }

  lemma RankTransitive(a: Ranked, b: Ranked, c: Ranked)
    requires RankLe(a, b) && RankLe(b, c)
    ensures RankLe(a, c)
  {
    if a.score == c.score { StrTransitive(c.candidate.text, b.candidate.text, a.candidate.text); }
  }

  /** Whatever order the map is drained in, and whichever of equally ranked entries the heap evicts: the scores
      and labels of the result, in order, are the same. */
  lemma TopUnique(best: map<Key, Ranked>, limit: nat, a: seq<Ranked>, b: seq<Ranked>)
    requires TopOf(best, limit, a) && TopOf(best, limit, b)
    ensures |a| == |b| && forall i :: 0 <= i < |a| ==> SameRank(a[i], b[i])
  {
    forall i | 0 <= i < |a| ensures SameRank(a[i], b[i]) {
      TopAtLeast(best, limit, a, b, i);
      TopAtLeast(best, limit, b, a, i);
      EqualRank(a[i], b[i]);
    }
  }

  // --- the bounded heap ---

  /** `items` hold, in any order, what the bounded heap should hold after the entries of `seen`. */
  ghost predicate HeapOf(best: map<Key, Ranked>, seen: set<Key>, items: seq<Ranked>) {
    && seen <= best.Keys
    && |items| == (if |seen| < COMPLETION_LIMIT then |seen| else COMPLETION_LIMIT)
    && (forall r :: r in items ==> Entry(best, r) && KeyOf(r.candidate) in seen)
    && DifferentKeys(items)
    && (forall k, r :: k in seen && best[k] !in items && r in items ==> RankLe(best[k], r))
  }

  /** `BinaryHeap::peek` under `Reverse`: a worst entry. */
  method PeekWorst(heap: seq<Ranked>) returns (i: nat)
    requires heap != []
    ensures i < |heap| && forall r :: r in heap ==> RankLe(heap[i], r)
  {
    RankOrder();
    i := 0;
    for n := 1 to |heap|
      invariant i < |heap| && forall j :: 0 <= j < n ==> RankLe(heap[i], heap[j])
    {
      if RankLe(heap[n], heap[i]) { i := n; }
    }
  }

  /** A heap below its limit has kept everything. */
  lemma HeapHoldsAll(best: map<Key, Ranked>, seen: set<Key>, items: seq<Ranked>, k: Key)
    requires Keyed(best) && HeapOf(best, seen, items) && |seen| < COMPLETION_LIMIT && k in seen
    ensures best[k] in items
  {
    KeysCount(items);
    assert Keys(items) <= seen;
    if k !in Keys(items) { SubsetSize(Keys(items), seen - {k}); }
    var i := KeysAt(items, k);
    assert Entry(best, items[i]);
  }

  lemma HeapGrows(best: map<Key, Ranked>, seen: set<Key>, items: seq<Ranked>, k: Key)
    requires Keyed(best) && HeapOf(best, seen, items) && k in best && k !in seen && |seen| < COMPLETION_LIMIT
    ensures HeapOf(best, seen + {k}, items + [best[k]])
  {
    forall l | l in seen ensures best[l] in items { HeapHoldsAll(best, seen, items, l); }
    forall i | 0 <= i < |items| ensures KeyOf(items[i].candidate) != k { assert items[i] in items; }
  }

  lemma HeapReplaces(best: map<Key, Ranked>, seen: set<Key>, items: seq<Ranked>, k: Key, i: nat)
    requires Keyed(best) && HeapOf(best, seen, items) && k in best && k !in seen && |seen| >= COMPLETION_LIMIT
    requires i < |items| && forall r :: r in items ==> RankLe(items[i], r)
    requires RankLe(items[i], best[k])
    ensures HeapOf(best, seen + {k}, items[..i] + items[i + 1..] + [best[k]])
  {
    var rest := items[..i] + items[i + 1..];
    OneRemoved(items, i);
    WithoutOne(items, i);
    forall j | 0 <= j < |rest| ensures KeyOf(rest[j].candidate) != k { assert rest[j] in items; }
    forall l, r | l in seen + {k} && best[l] !in rest + [best[k]] && r in rest + [best[k]] ensures RankLe(best[l], r) {
      LeftOut(best, seen, items, k, i, l, r);
    }
  }

  lemma OneRemoved(items: seq<Ranked>, i: nat)
    requires i < |items|
    ensures forall r :: r in items <==> r in items[..i] + items[i + 1..] || r == items[i]
  {
    assert items == items[..i] + [items[i]] + items[i + 1..];
  }

  /** What is left out does not beat what is kept, nor the newcomer. */
  lemma LeftOut(best: map<Key, Ranked>, seen: set<Key>, items: seq<Ranked>, k: Key, i: nat, l: Key, r: Ranked)
    requires Keyed(best) && HeapOf(best, seen, items) && k in best && l in seen + {k} && i < |items|
    requires (forall r :: r in items ==> RankLe(items[i], r)) && RankLe(items[i], best[k])
    requires l != k && (best[l] in items ==> best[l] == items[i]) && (r in items || r == best[k])
    ensures RankLe(best[l], r)
  {
    RankOrder();
    assert l in seen && items[i] in items;
  }

  lemma WithoutOne(items: seq<Ranked>, i: nat)
    requires DifferentKeys(items) && i < |items|
    ensures DifferentKeys(items[..i] + items[i + 1..])
  {
    var rest := items[..i] + items[i + 1..];
    assert forall j :: 0 <= j < |rest| ==> rest[j] == items[if j < i then j else j + 1];
  }

  lemma HeapKeeps(best: map<Key, Ranked>, seen: set<Key>, items: seq<Ranked>, k: Key, i: nat)
    requires Keyed(best) && HeapOf(best, seen, items) && k in best && k !in seen && |seen| >= COMPLETION_LIMIT
    requires i < |items| && forall r :: r in items ==> RankLe(items[i], r)
    requires RankLe(best[k], items[i])
    ensures HeapOf(best, seen + {k}, items)
  {
    RankOrder();
  }

  /** One entry reaches the heap: it enters while there is room, and otherwise only in place of a worse one. */
  method Offer(heap: seq<Ranked>, ranked: Ranked, ghost best: map<Key, Ranked>, ghost seen: set<Key>, ghost k: Key)
    returns (kept: seq<Ranked>)
    requires Keyed(best) && HeapOf(best, seen, heap) && k in best && k !in seen && ranked == best[k]
    ensures HeapOf(best, seen + {k}, kept)
  {
    if |heap| < COMPLETION_LIMIT {
      HeapGrows(best, seen, heap, k);
      return heap + [ranked];
    }
    var worst := PeekWorst(heap);
    if RankLe(ranked, heap[worst]) {
      HeapKeeps(best, seen, heap, k, worst);
      return heap;
    }
    RankOrder();
    HeapReplaces(best, seen, heap, k, worst);
    return heap[..worst] + heap[worst + 1..] + [ranked];
  }

  /** The entries not seen yet. */
  ghost predicate LeftOf(best: map<Key, Ranked>, seen: set<Key>, left: map<Key, Ranked>) {
    left.Keys == best.Keys - seen && forall k :: k in left ==> left[k] == best[k]
  }

  lemma FewerLeft(best: map<Key, Ranked>, seen: set<Key>, left: map<Key, Ranked>, k: Key)
    requires LeftOf(best, seen, left) && k in left
    ensures LeftOf(best, seen + {k}, left - {k}) && |left - {k}| < |left|
  {
    assert (left - {k}).Keys == left.Keys - {k} && |(left - {k}).Keys| == |left.Keys| - 1;
  }

  lemma EmptyHeap(best: map<Key, Ranked>)
    ensures HeapOf(best, {}, []) && LeftOf(best, {}, best)
  {
  }

  lemma FullHeap(best: map<Key, Ranked>, seen: set<Key>, heap: seq<Ranked>)
    requires HeapOf(best, seen, heap) && LeftOf(best, seen, map[])
    ensures HeapOf(best, best.Keys, heap)
  {
    assert seen == best.Keys;
  }

  /** The draining loop of `rank`: the map's entries, in any order, go through a heap of at most 200 entries. */
  method Drain(best: map<Key, Ranked>) returns (heap: seq<Ranked>)
    requires Keyed(best)
    ensures HeapOf(best, best.Keys, heap)
  {
    var left := best;
    heap := [];
    ghost var seen: set<Key> := {};
    EmptyHeap(best);
    while left != map[]
      invariant LeftOf(best, seen, left)
      invariant HeapOf(best, seen, heap)
      decreases |left|
    {
      var k :| k in left;
      var ranked := left[k];
      FewerLeft(best, seen, left, k);
      left := left - {k};
      heap := Offer(heap, ranked, best, seen, k);
      seen := seen + {k};
    }
    FullHeap(best, seen, heap);
  }

  /** The second half of `rank`: what the heap kept, sorted. */
  method TopEntries(best: map<Key, Ranked>) returns (items: seq<Ranked>)
    requires Keyed(best)
    ensures TopOf(best, COMPLETION_LIMIT, items)
  {
    var heap := Drain(best);
    SortedHeap(best, heap);
    items := Sort(BetterFirst(), heap);
  }

  lemma SortedHeap(best: map<Key, Ranked>, heap: seq<Ranked>)
    requires HeapOf(best, best.Keys, heap)
    ensures TopOf(best, COMPLETION_LIMIT, Sort(BetterFirst(), heap))
  {
    RankOrder();
    SortSorts(BetterFirst(), heap);
    SortPermutes(BetterFirst(), heap);
    var items := Sort(BetterFirst(), heap);
    SameMembers(items, heap);
    assert |best| == |best.Keys|;
    assert Distinct(heap);
    PermutationDistinct(heap, items);
    forall i, j | 0 <= i < j < |items| ensures KeyOf(items[i].candidate) != KeyOf(items[j].candidate) {
      assert items[i] in heap && items[j] in heap;
    }
  }

  function ItemOf(r: Ranked, start: nat, end: nat): Item {
    Item(r.candidate.text, r.candidate.kind, r.candidate.detail, r.candidate.insert, start, end, r.score)
  }

  function ItemsOf(ranked: seq<Ranked>, start: nat, end: nat): (r: seq<Item>)
    ensures |r| == |ranked| && forall i :: 0 <= i < |r| ==> r[i] == ItemOf(ranked[i], start, end)
  {
    seq(|ranked|, i requires 0 <= i < |ranked| => ItemOf(ranked[i], start, end))
  }

  /** `rank`: the best items of the deduplicated matches, best first. */
  method Rank(m: Matching, candidates: seq<Candidate>, prefix: string, start: nat, end: nat) returns (items: seq<Item>)
    ensures exists ranked: seq<Ranked> ::
              && TopOf(Best(m, prefix, candidates), COMPLETION_LIMIT, ranked) && items == ItemsOf(ranked, start, end)
              && |items| == |ranked|
              && forall i :: 0 <= i < |items| ==>
                   var c := ranked[i].candidate;
                   && items[i].text == c.text && items[i].kind == c.kind && items[i].detail == c.detail && items[i].insert == c.insert
                   && items[i].start == start && items[i].end == end && items[i].score == ranked[i].score
    ensures forall i, j :: 0 <= i < j < |items| ==>
              items[i].score > items[j].score || (items[i].score == items[j].score && StrLe(items[i].text, items[j].text))
  {
    var best: map<Key, Ranked> := map[];
    assert candidates[..|candidates|] == candidates;
    for n := 0 to |candidates|
      invariant best == Best(m, prefix, candidates[..n])
    {
      var c := candidates[n];
      assert candidates[..n + 1][..n] == candidates[..n];
      var score := Score(m, prefix, c);
      if score.Some? {
        if KeyOf(c) !in best || score.value > best[KeyOf(c)].score {
          best := best[KeyOf(c) := Ranked(score.value, c)];
        }
      }
    }
    BestIsMaximal(m, prefix, candidates);
    var top := TopEntries(best);
    items := ItemsOf(top, start, end);
    forall i, j | 0 <= i < j < |items|
      ensures items[i].score > items[j].score || (items[i].score == items[j].score && StrLe(items[i].text, items[j].text))
    {
      assert RankLe(top[j], top[i]);
    }
  }

  /** Any two rankings of the same candidates show the same scores and labels in the same order. */
  lemma RankingUnique(m: Matching, prefix: string, candidates: seq<Candidate>, a: seq<Ranked>, b: seq<Ranked>, start: nat, end: nat)
    requires TopOf(Best(m, prefix, candidates), COMPLETION_LIMIT, a) && TopOf(Best(m, prefix, candidates), COMPLETION_LIMIT, b)
    ensures |ItemsOf(a, start, end)| == |ItemsOf(b, start, end)|
    ensures forall i :: 0 <= i < |a| ==>
      ItemsOf(a, start, end)[i].score == ItemsOf(b, start, end)[i].score && ItemsOf(a, start, end)[i].text == ItemsOf(b, start, end)[i].text
  {
    TopUnique(Best(m, prefix, candidates), COMPLETION_LIMIT, a, b);
    assert forall i :: 0 <= i < |a| ==> SameRank(a[i], b[i]);
  }

  // --- weights decide ---

  predicate KnownWeight(w: int) {
    || w == WEIGHT_COLUMN || w == WEIGHT_COLUMN_QUALIFIED || w == WEIGHT_CTE || w == WEIGHT_RELATION
    || w == WEIGHT_STATEMENT_KEYWORD || w == WEIGHT_FUNCTION || w == WEIGHT_RELATION_EXPRESSION || w == WEIGHT_SCHEMA
    || w == WEIGHT_ALIAS || w == WEIGHT_KEYWORD
  }

  /** The longest labels for which the weights provably decide. */
  const LABEL_LIMIT := 227

  lemma QualityBounds(m: Matching, prefix: string, text: string)
    requires Quality(m, prefix, text).Some?
    ensures
      var q := Quality(m, prefix, text).value;
      && (prefix == "" ==> q == 0)
      && (prefix != "" ==> q == 400 || q == 300 || (|prefix| <= |text| && 2 * |prefix| - |text| <= q <= 12 * |prefix| - 4))
  {
    if prefix != "" && !StartsWith(text, prefix) && !StartsWith(m.fold(text), m.fold(prefix)) {
      ScoreIsBounded(m.chars, prefix, text);
    }
  }

  /** A heavier candidate outscores a lighter one, however well the lighter one matches. */
  lemma WeightsDecide(m: Matching, prefix: string, heavy: Candidate, light: Candidate)
    requires KnownWeight(heavy.weight) && KnownWeight(light.weight) && heavy.weight > light.weight
    requires |heavy.text| <= LABEL_LIMIT && |light.text| <= LABEL_LIMIT
    requires Score(m, prefix, heavy).Some? && Score(m, prefix, light).Some?
    ensures Score(m, prefix, heavy).value > Score(m, prefix, light).value
  {
    QualityBounds(m, prefix, heavy.text);
    QualityBounds(m, prefix, light.text);
  }

  /** In a ranking no candidate precedes a heavier one. */
  lemma RankedByWeight(m: Matching, prefix: string, candidates: seq<Candidate>, ranked: seq<Ranked>, i: nat, j: nat)
    requires TopOf(Best(m, prefix, candidates), COMPLETION_LIMIT, ranked)
    requires forall c :: c in candidates ==> KnownWeight(c.weight) && |c.text| <= LABEL_LIMIT
    requires i < j < |ranked|
    ensures ranked[i].candidate.weight >= ranked[j].candidate.weight
  {
    BestIsMaximal(m, prefix, candidates);
    var best := Best(m, prefix, candidates);
    var a, b := ranked[i], ranked[j];
    assert Entry(best, a) && Entry(best, b);
    assert a.candidate in candidates && b.candidate in candidates;
    if a.candidate.weight < b.candidate.weight {
      WeightsDecide(m, prefix, b.candidate, a.candidate);
    }
  }

  /** Of two candidates of one weight, one that starts with the prefix as typed and one that does so only when case is
      folded, the first scores higher unless it is 400 characters longer. */
  lemma ExactCaseFirst(m: Matching, prefix: string, c: Candidate, d: Candidate)
    requires prefix != "" && c.weight == d.weight
    requires |prefix| <= |c.text| && c.text[..|prefix|] == prefix
    requires !(|prefix| <= |d.text| && d.text[..|prefix|] == prefix)
    requires |m.fold(prefix)| <= |m.fold(d.text)| && m.fold(d.text)[..|m.fold(prefix)|] == m.fold(prefix)
    ensures Score(m, prefix, c).Some? && Score(m, prefix, d).Some?
    ensures Score(m, prefix, c).value > Score(m, prefix, d).value <==> |c.text| < |d.text| + 400
  {
  }

  /** A prefix match of up to 25 characters, folded or not, scores higher than a scattered one that is not shorter. */
  lemma PrefixFirst(m: Matching, prefix: string, c: Candidate, d: Candidate)
    requires 0 < |prefix| <= 25 && c.weight == d.weight && |c.text| <= |d.text|
    requires |m.fold(prefix)| <= |m.fold(c.text)| && m.fold(c.text)[..|m.fold(prefix)|] == m.fold(prefix)
    requires !(|m.fold(prefix)| <= |m.fold(d.text)| && m.fold(d.text)[..|m.fold(prefix)|] == m.fold(prefix))
    requires !(|prefix| <= |d.text| && d.text[..|prefix|] == prefix) && Score(m, prefix, d).Some?
    ensures Score(m, prefix, c).Some? && Score(m, prefix, c).value > Score(m, prefix, d).value
  {
    ScoreIsBounded(m.chars, prefix, d.text);
  }

  /** Of two candidates with one text, a point of weight is worth a thousand points of score. */
  lemma WeightInScore(m: Matching, prefix: string, c: Candidate, d: Candidate)
    requires c.text == d.text
    ensures Score(m, prefix, c).Some? <==> Score(m, prefix, d).Some?
    ensures Score(m, prefix, c).Some? ==> Score(m, prefix, c).value - Score(m, prefix, d).value == 1000 * (c.weight - d.weight)
  {
  }

  /** Without a prefix every candidate matches, and of one weight the shorter one scores higher. */
  lemma ShorterFirst(m: Matching, c: Candidate, d: Candidate)
    requires c.weight == d.weight
    ensures Score(m, "", c).Some? && Score(m, "", d).Some?
    ensures Score(m, "", c).value - Score(m, "", d).value == |d.text| - |c.text|
  {
  }
}
