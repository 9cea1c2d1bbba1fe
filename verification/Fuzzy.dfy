/** The subsequence matcher of `tempr_domain/src/text.rs`.  Positions count characters. */
module Fuzzy {
  import opened Wrappers

  /** The character tests of the Rust library the matcher uses; `same` ignores case. */
  datatype Chars = Chars(same: (char, char) -> bool, alphanumeric: char -> bool, lower: char -> bool, upper: char -> bool)

  const MATCH := 1
  const CONSECUTIVE_BONUS := 10
  const WORD_START_BONUS := 6
  const EXACT_CASE_BONUS := 1
  const GAP_PENALTY := 1

  // --- what a match is ---

  /** Increasing positions, each holding its query character. */
  ghost predicate Embeds(k: Chars, query: string, candidate: string, at: seq<nat>) {
    && |at| == |query|
    && (forall i :: 0 <= i < |at| ==> at[i] < |candidate| && k.same(candidate[at[i]], query[i]))
    && (forall i, j :: 0 <= i < j < |at| ==> at[i] < at[j])
  }

  predicate WordStart(k: Chars, candidate: string, i: nat)
    requires i < |candidate|
  {
    || i == 0
    || !k.alphanumeric(candidate[i - 1])
    || (k.lower(candidate[i - 1]) && k.upper(candidate[i]))
  }

  /** The points for matching `q` at `i` when everything before `from` is used up; `first` says nothing has matched. */
  function Points(k: Chars, q: char, candidate: string, i: nat, from: nat, first: bool): (p: int)
    requires from <= i < |candidate|
    ensures 1 - (i - from) <= p <= (if first then 8 else 12) - (i - from)
  {
    MATCH
    + (if candidate[i] == q then EXACT_CASE_BONUS else 0)
    + (if i == from && !first then CONSECUTIVE_BONUS else if WordStart(k, candidate, i) then WORD_START_BONUS else 0)
    - (i - from) * GAP_PENALTY
  }

  function Score(k: Chars, query: string, candidate: string, at: seq<nat>, count: nat): int
    requires count <= |at| == |query|
    requires forall i :: 0 <= i < |at| ==> at[i] < |candidate|
    requires forall i, j :: 0 <= i < j < |at| ==> at[i] < at[j]
  {
    if count == 0 then 0
    else
      Score(k, query, candidate, at, count - 1)
      + Points(k, query[count - 1], candidate, at[count - 1], if count == 1 then 0 else at[count - 2] + 1, count == 1)
  }

  // --- the greedy match ---

  function FindFrom(k: Chars, q: char, candidate: string, from: nat): (r: Option<nat>)
    requires from <= |candidate|
    ensures r.Some? ==> from <= r.value < |candidate| && k.same(candidate[r.value], q)
    ensures forall i :: from <= i < (if r.Some? then r.value else |candidate|) ==> !k.same(candidate[i], q)
    decreases |candidate| - from
  {
    if from == |candidate| then None
    else if k.same(candidate[from], q) then Some(from)
    else FindFrom(k, q, candidate, from + 1)
  }

  /** Each query character at the first place after the previous one. */
  function Greedy(k: Chars, query: string, candidate: string, from: nat): Option<seq<nat>>
    requires from <= |candidate|
  {
    if query == "" then Some([])
    else
      match FindFrom(k, query[0], candidate, from)
      case None => None
      case Some(i) =>
        match Greedy(k, query[1..], candidate, i + 1)
        case None => None
        case Some(rest) => Some([i] + rest)
  }

  lemma {:induction false} GreedyEmbeds(k: Chars, query: string, candidate: string, from: nat)
    requires from <= |candidate|
    ensures
      var r := Greedy(k, query, candidate, from);
      r.Some? ==> Embeds(k, query, candidate, r.value) && forall i :: 0 <= i < |r.value| ==> r.value[i] >= from
  {
    if query != "" {
      var i := FindFrom(k, query[0], candidate, from);
      if i.Some? { GreedyEmbeds(k, query[1..], candidate, i.value + 1); }
    }
  }

  /** Any match from `from` on implies the greedy one, which is nowhere further right. */
  lemma {:induction false} GreedyIsLeftmost(k: Chars, query: string, candidate: string, from: nat, at: seq<nat>)
    requires from <= |candidate| && Embeds(k, query, candidate, at)
    requires forall i :: 0 <= i < |at| ==> at[i] >= from
    ensures
      var g := Greedy(k, query, candidate, from);
      g.Some? && |g.value| == |query| && forall i :: 0 <= i < |query| ==> g.value[i] <= at[i]
  {
    if query != "" {
      assert k.same(candidate[at[0]], query[0]);
      var i := FindFrom(k, query[0], candidate, from);
      GreedyIsLeftmost(k, query[1..], candidate, i.value + 1, at[1..]);
    }
  }

  /** The answer: the score and positions of the greedy match. */
  function Answer(k: Chars, query: string, candidate: string): Option<(int, seq<nat>)> {
    GreedyEmbeds(k, query, candidate, 0);
    match Greedy(k, query, candidate, 0)
    case None => None
    case Some(at) => Some((Score(k, query, candidate, at, |query|), at))
  }

  function FuzzyScore(k: Chars, query: string, candidate: string): Option<int> {
    match Answer(k, query, candidate)
    case None => None
    case Some(r) => Some(r.0)
  }

  lemma {:induction false} ScoreBounds(k: Chars, query: string, candidate: string, at: seq<nat>, count: nat)
    requires Embeds(k, query, candidate, at) && 0 < count <= |at|
    ensures
      var gaps := at[count - 1] + 1 - count;
      count - gaps <= Score(k, query, candidate, at, count) <= 12 * count - 4 - gaps
  {
    if count > 1 { ScoreBounds(k, query, candidate, at, count - 1); }
  }

  /** The query matches exactly when it is a subsequence, and the positions are the leftmost ones. */
  lemma AnswerIsLeftmost(k: Chars, query: string, candidate: string)
    ensures Answer(k, query, candidate).Some? <==> exists at :: Embeds(k, query, candidate, at)
    ensures
      var r := Answer(k, query, candidate);
      r.Some? ==>
        && Embeds(k, query, candidate, r.value.1)
        && forall at, i :: Embeds(k, query, candidate, at) && 0 <= i < |query| ==> r.value.1[i] <= at[i]
  {
    GreedyEmbeds(k, query, candidate, 0);
    forall at | Embeds(k, query, candidate, at)
      ensures Answer(k, query, candidate).Some?
      ensures forall i :: 0 <= i < |query| ==> Answer(k, query, candidate).value.1[i] <= at[i]
    {
      GreedyIsLeftmost(k, query, candidate, 0, at);
    }
  }

  /** The two lengths bound the score. */
  lemma ScoreIsBounded(k: Chars, query: string, candidate: string)
    requires query != "" && FuzzyScore(k, query, candidate).Some?
    ensures |query| <= |candidate|
    ensures 2 * |query| - |candidate| <= FuzzyScore(k, query, candidate).value <= 12 * |query| - 4
  {
    GreedyEmbeds(k, query, candidate, 0);
    var g := Greedy(k, query, candidate, 0);
    EmbedsLength(k, query, candidate, g.value, |query| - 1);
    ScoreBounds(k, query, candidate, g.value, |query|);
  }

  lemma {:induction false} EmbedsLength(k: Chars, query: string, candidate: string, at: seq<nat>, i: nat)
    requires Embeds(k, query, candidate, at) && i < |query|
    ensures at[i] >= i
  {
    if i > 0 { EmbedsLength(k, query, candidate, at, i - 1); }
  }

  // --- the loop ---

  function Prepend(a: seq<nat>, r: Option<seq<nat>>): Option<seq<nat>> {
    if r.Some? then Some(a + r.value) else None
  }

  function Before(candidate: string, next: nat): Option<char>
    requires next <= |candidate|
  {
    if next == 0 then None else Some(candidate[next - 1])
  }

  /** The inner loop: moves the shared iterator to the next match, counting what it skips. */
  method Skip(k: Chars, q: char, candidate: string, from: nat, before: Option<char>)
    returns (next: nat, previousChar: Option<char>, gap: nat, found: bool)
    requires from <= |candidate| && before == Before(candidate, from)
    ensures FindFrom(k, q, candidate, from) == if found then Some(next) else None
    ensures from <= next <= |candidate| && gap == next - from && previousChar == Before(candidate, next)
  {
    next, previousChar, gap := from, before, 0;
    while next < |candidate|
      invariant from <= next <= |candidate| && gap == next - from && previousChar == Before(candidate, next)
      invariant FindFrom(k, q, candidate, from) == FindFrom(k, q, candidate, next)
    {
      if k.same(candidate[next], q) { return next, previousChar, gap, true; }
      gap := gap + 1;
      previousChar := Some(candidate[next]);
      next := next + 1;
    }
    found := false;
  }

  function Last(indices: seq<nat>): Option<nat> {
    if indices == [] then None else Some(indices[|indices| - 1])
  }

  /** Where the next match is searched. */
  function Next(indices: seq<nat>): nat {
    if indices == [] then 0 else indices[|indices| - 1] + 1
  }

  /** The first `n` query characters are matched at `indices`, greedily, for `score` points. */
  ghost predicate Matched(k: Chars, query: string, candidate: string, n: nat, indices: seq<nat>, score: int) {
    && n <= |query|
    && Embeds(k, query[..n], candidate, indices)
    && score == Score(k, query[..n], candidate, indices, n)
    && Next(indices) <= |candidate|
    && Greedy(k, query, candidate, 0) == Prepend(indices, Greedy(k, query[n..], candidate, Next(indices)))
  }

  lemma NothingMatched(k: Chars, query: string, candidate: string)
    ensures Matched(k, query, candidate, 0, [], 0)
  {
    assert query[0..] == query;
    var g := Greedy(k, query, candidate, 0);
    assert g.Some? ==> [] + g.value == g.value;
  }

  lemma QueryParts(query: string, n: nat)
    requires n < |query|
    ensures query[..n + 1] == query[..n] + [query[n]] && query[n..] != "" && query[n..][0] == query[n] && query[n..][1..] == query[n + 1..]
  {
  }

  lemma ScoreGrows(k: Chars, query: string, candidate: string, n: nat, indices: seq<nat>, i: nat)
    requires n < |query| && Embeds(k, query[..n], candidate, indices)
    requires Next(indices) <= i < |candidate| && k.same(candidate[i], query[n])
    ensures Embeds(k, query[..n + 1], candidate, indices + [i])
    ensures Score(k, query[..n + 1], candidate, indices + [i], n + 1)
         == Score(k, query[..n], candidate, indices, n) + Points(k, query[n], candidate, i, Next(indices), indices == [])
  {
    QueryParts(query, n);
    ScoreExtends(k, query[..n], query[n], candidate, indices, i);
  }

  lemma GreedyGrows(k: Chars, query: string, candidate: string, n: nat, indices: seq<nat>, i: nat)
    requires n < |query| && Next(indices) <= i < |candidate| && FindFrom(k, query[n], candidate, Next(indices)) == Some(i)
    ensures Prepend(indices, Greedy(k, query[n..], candidate, Next(indices)))
         == Prepend(indices + [i], Greedy(k, query[n + 1..], candidate, i + 1))
  {
    QueryParts(query, n);
    GreedyExtends(k, query[n..], candidate, Next(indices), i, indices);
  }

  lemma OneMore(k: Chars, query: string, candidate: string, n: nat, indices: seq<nat>, score: int, i: nat)
    requires Matched(k, query, candidate, n, indices, score) && n < |query|
    requires FindFrom(k, query[n], candidate, Next(indices)) == Some(i)
    ensures Matched(k, query, candidate, n + 1, indices + [i],
                    score + Points(k, query[n], candidate, i, Next(indices), indices == []))
  {
    ScoreGrows(k, query, candidate, n, indices, i);
    GreedyGrows(k, query, candidate, n, indices, i);
    assert Next(indices + [i]) == i + 1;
  }

  lemma NoMore(k: Chars, query: string, candidate: string, n: nat, indices: seq<nat>, score: int)
    requires Matched(k, query, candidate, n, indices, score)
    requires n < |query| ==> FindFrom(k, query[n], candidate, Next(indices)) == None
    ensures Answer(k, query, candidate) == if n < |query| then None else Some((score, indices))
  {
    if n == |query| {
      assert query[..n] == query;
      assert indices + [] == indices;
    }
  }

  /** The points of one matched character, from what the loop remembers. */
  method Award(k: Chars, q: char, candidate: string, i: nat, gap: nat, previousMatch: Option<nat>, previousChar: Option<char>)
    returns (points: int)
    requires i < |candidate| && gap <= i && previousChar == Before(candidate, i)
    requires i - gap == if previousMatch.Some? then previousMatch.value + 1 else 0
    ensures points == Points(k, q, candidate, i, i - gap, previousMatch.None?)
  {
    var c := candidate[i];
    points := MATCH;
    if c == q { points := points + EXACT_CASE_BONUS; }
    var consecutive := previousMatch.Some? && i - previousMatch.value == 1;
    if consecutive { points := points + CONSECUTIVE_BONUS; }
    var wordStart := match previousChar
      case None => i == 0 || previousMatch.None?
      case Some(p) => !k.alphanumeric(p) || (k.lower(p) && k.upper(c));
    if wordStart && !consecutive { points := points + WORD_START_BONUS; }
    points := points - gap * GAP_PENALTY;
  }

  /** One query character: the next place that matches it, and its points. */
  method MatchOne(k: Chars, q: char, candidate: string, from: nat, previousMatch: Option<nat>, before: Option<char>)
    returns (found: bool, i: nat, points: int)
    requires from <= |candidate| && before == Before(candidate, from)
    requires from == if previousMatch.Some? then previousMatch.value + 1 else 0
    ensures FindFrom(k, q, candidate, from) == if found then Some(i) else None
    ensures found ==> points == Points(k, q, candidate, i, from, previousMatch.None?)
  {
    var previousChar, gap;
    i, previousChar, gap, found := Skip(k, q, candidate, from, before);
    points := 0;
    if found { points := Award(k, q, candidate, i, gap, previousMatch, previousChar); }
  }

  /** `fuzzy_match`: one pass over the candidate, the iterator kept across query characters. */
  method FuzzyMatch(k: Chars, query: string, candidate: string) returns (r: Option<(int, seq<nat>)>)
    ensures r == Answer(k, query, candidate)
  {
    if query == "" {
      NothingMatched(k, query, candidate);
      NoMore(k, query, candidate, 0, [], 0);
      return Some((0, []));
    }
    r := MatchAll(k, query, candidate);
  }

  /** The loop over the query. */
  method MatchAll(k: Chars, query: string, candidate: string) returns (r: Option<(int, seq<nat>)>)
    ensures r == Answer(k, query, candidate)
  {
    var indices: seq<nat>, score := [], 0;
    NothingMatched(k, query, candidate);
    var previousMatch: Option<nat>, previousChar: Option<char> := None, None;
    var next: nat := 0;
    for n := 0 to |query|
      invariant Matched(k, query, candidate, n, indices, score)
      invariant next == Next(indices) && previousMatch == Last(indices) && previousChar == Before(candidate, next)
    {
      var found, i, points := MatchOne(k, query[n], candidate, next, previousMatch, previousChar);
      if !found {
        NoMore(k, query, candidate, n, indices, score);
        return None;
      }
      OneMore(k, query, candidate, n, indices, score, i);
      score, indices := score + points, indices + [i];
      previousMatch, previousChar, next := Some(i), Some(candidate[i]), i + 1;
    }
    NoMore(k, query, candidate, |query|, indices, score);
    return Some((score, indices));
  }

  lemma GreedyExtends(k: Chars, query: string, candidate: string, from: nat, i: nat, indices: seq<nat>)
    requires query != "" && from <= i < |candidate| && FindFrom(k, query[0], candidate, from) == Some(i)
    ensures Prepend(indices, Greedy(k, query, candidate, from)) == Prepend(indices + [i], Greedy(k, query[1..], candidate, i + 1))
  {
    var rest := Greedy(k, query[1..], candidate, i + 1);
    if rest.Some? { assert indices + ([i] + rest.value) == (indices + [i]) + rest.value; }
  }

  lemma {:induction false} ScorePrefix(k: Chars, query: string, q: char, candidate: string, at: seq<nat>, i: nat, count: nat)
    requires Embeds(k, query, candidate, at) && Embeds(k, query + [q], candidate, at + [i]) && count <= |at|
    ensures Score(k, query + [q], candidate, at + [i], count) == Score(k, query, candidate, at, count)
  {
    if count > 0 { ScorePrefix(k, query, q, candidate, at, i, count - 1); }
  }

  lemma ScoreExtends(k: Chars, query: string, q: char, candidate: string, at: seq<nat>, i: nat)
    requires Embeds(k, query, candidate, at) && i < |candidate| && k.same(candidate[i], q)
    requires at != [] ==> at[|at| - 1] < i
    ensures Embeds(k, query + [q], candidate, at + [i])
    ensures Score(k, query + [q], candidate, at + [i], |at| + 1)
         == Score(k, query, candidate, at, |at|)
            + Points(k, q, candidate, i, if at == [] then 0 else at[|at| - 1] + 1, at == [])
  {
    ScorePrefix(k, query, q, candidate, at, i, |at|);
  }

  // --- the score, added up ---

  /** The match before is at the character before. */
  predicate Continues(at: seq<nat>, i: nat)
    requires i < |at|
  {
    i > 0 && at[i] == at[i - 1] + 1
  }

  /** Matches that have the query's case, continue a run, or start a word without continuing a run. */
  function InCase(query: string, candidate: string, at: seq<nat>, count: nat): set<nat>
    requires count <= |at| == |query| && forall i :: 0 <= i < |at| ==> at[i] < |candidate|
  {
    set i: nat | i < count && candidate[at[i]] == query[i]
  }

  function InRun(at: seq<nat>, count: nat): set<nat>
    requires count <= |at|
  {
    set i: nat | i < count && Continues(at, i)
  }

  function AtWord(k: Chars, candidate: string, at: seq<nat>, count: nat): set<nat>
    requires count <= |at| && forall i :: 0 <= i < |at| ==> at[i] < |candidate|
  {
    set i: nat | i < count && BeginsWord(k, candidate, at, i)
  }

  /** The match continues no run and is at the start, behind a separator, or at a capital behind a small letter. */
  predicate BeginsWord(k: Chars, candidate: string, at: seq<nat>, i: nat)
    requires i < |at| && at[i] < |candidate|
  {
    var p := at[i];
    !Continues(at, i) && (p == 0 || !k.alphanumeric(candidate[p - 1]) || (k.lower(candidate[p - 1]) && k.upper(candidate[p])))
  }

  function Bit(b: bool): (r: nat) { if b then 1 else 0 }

  lemma CaseGrows(query: string, candidate: string, at: seq<nat>, n: nat)
    requires |at| == |query| && (forall i :: 0 <= i < |at| ==> at[i] < |candidate|) && n < |at|
    ensures |InCase(query, candidate, at, n + 1)| == |InCase(query, candidate, at, n)| + Bit(candidate[at[n]] == query[n])
  {
    var before := InCase(query, candidate, at, n);
    assert InCase(query, candidate, at, n + 1) == if candidate[at[n]] == query[n] then before + {n} else before;
  }

  lemma RunGrows(at: seq<nat>, n: nat)
    requires n < |at|
    ensures |InRun(at, n + 1)| == |InRun(at, n)| + Bit(Continues(at, n))
  {
    var before := InRun(at, n);
    assert InRun(at, n + 1) == if Continues(at, n) then before + {n} else before;
  }

  lemma WordGrows(k: Chars, candidate: string, at: seq<nat>, n: nat)
    requires (forall i :: 0 <= i < |at| ==> at[i] < |candidate|) && n < |at|
    ensures |AtWord(k, candidate, at, n + 1)| == |AtWord(k, candidate, at, n)| + Bit(BeginsWord(k, candidate, at, n))
  {
    var before := AtWord(k, candidate, at, n);
    assert AtWord(k, candidate, at, n + 1) == if BeginsWord(k, candidate, at, n) then before + {n} else before;
  }

  /** Where the match before ended: the characters from there to this match are skipped. */
  function EndBefore(at: seq<nat>, n: nat): nat
    requires n <= |at|
  {
    if n == 0 then 0 else at[n - 1] + 1
  }

  /** What the last match adds. */
  lemma LastPoints(k: Chars, query: string, candidate: string, at: seq<nat>, n: nat)
    requires Embeds(k, query, candidate, at) && n < |at|
    ensures Score(k, query, candidate, at, n + 1)
         == Score(k, query, candidate, at, n) + 1 + Bit(candidate[at[n]] == query[n]) + 10 * Bit(Continues(at, n))
            + 6 * Bit(BeginsWord(k, candidate, at, n)) - (at[n] - EndBefore(at, n))
  {
  }

  /** One point for each match, one more for the query's case, ten for continuing a run, six for starting a word
      otherwise, less one for each skipped character before the last match. */
  function PointsOf(k: Chars, query: string, candidate: string, at: seq<nat>, n: nat): int
    requires n <= |at| == |query| && forall i :: 0 <= i < |at| ==> at[i] < |candidate|
  {
    n + |InCase(query, candidate, at, n)| + 10 * |InRun(at, n)| + 6 * |AtWord(k, candidate, at, n)| - (EndBefore(at, n) - n)
  }

  lemma PointsGrow(k: Chars, query: string, candidate: string, at: seq<nat>, n: nat)
    requires n < |at| == |query| && forall i :: 0 <= i < |at| ==> at[i] < |candidate|
    ensures PointsOf(k, query, candidate, at, n + 1)
         == PointsOf(k, query, candidate, at, n) + 1 + Bit(candidate[at[n]] == query[n]) + 10 * Bit(Continues(at, n))
            + 6 * Bit(BeginsWord(k, candidate, at, n)) - (at[n] - EndBefore(at, n))
  {
    CaseGrows(query, candidate, at, n);
    RunGrows(at, n);
    WordGrows(k, candidate, at, n);
  }

  lemma NoPoints(k: Chars, query: string, candidate: string, at: seq<nat>)
    requires |at| == |query| && forall i :: 0 <= i < |at| ==> at[i] < |candidate|
    ensures PointsOf(k, query, candidate, at, 0) == 0
  {
    assert InCase(query, candidate, at, 0) == {} && InRun(at, 0) == {} && AtWord(k, candidate, at, 0) == {};
  }

  lemma SameStep(k: Chars, query: string, candidate: string, at: seq<nat>, n: nat)
    requires Embeds(k, query, candidate, at) && n < |at|
    requires Score(k, query, candidate, at, n) == PointsOf(k, query, candidate, at, n)
    ensures Score(k, query, candidate, at, n + 1) == PointsOf(k, query, candidate, at, n + 1)
  {
    PointsGrow(k, query, candidate, at, n);
    LastPoints(k, query, candidate, at, n);
  }

  lemma {:induction false} ScoreIsPoints(k: Chars, query: string, candidate: string, at: seq<nat>, n: nat)
    requires Embeds(k, query, candidate, at) && n <= |at|
    ensures Score(k, query, candidate, at, n) == PointsOf(k, query, candidate, at, n)
  {
    if n == 0 {
      NoPoints(k, query, candidate, at);
    } else {
      ScoreIsPoints(k, query, candidate, at, n - 1);
      SameStep(k, query, candidate, at, n - 1);
    }
  }

  lemma ScoreAddsUp(k: Chars, query: string, candidate: string, at: seq<nat>, n: nat)
    requires Embeds(k, query, candidate, at) && n <= |at|
    ensures Score(k, query, candidate, at, n)
         == n + |InCase(query, candidate, at, n)| + 10 * |InRun(at, n)| + 6 * |AtWord(k, candidate, at, n)|
            - (EndBefore(at, n) - n)
  {
    ScoreIsPoints(k, query, candidate, at, n);
  }
}
