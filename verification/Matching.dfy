/** Matching a list of reference products against a list of targets
    (pricewatch/core/normalize.py, heuristic_match). Products are their list positions. */
module Matching {
  import opened Basics
  import opened PairScores

  datatype Verdict = Matched | Ambiguous | NoMatch
  datatype Color = Green | Yellow | Neutral | Blue | Red

  /** One entry of the shortlist with its score. */
  datatype Scored = Scored(score: real, target: nat)

  datatype Row = Row(
    verdict: Verdict,
    color: Color,
    main: Option<nat>,
    other: Option<nat>,
    score: real,
    gap: real,
    candidates: seq<Scored>)

  // ----- pools

  /** The pool of a brand among the first n targets. The pool of no brand holds every target,
      and an unbranded one twice: once under its own brand, once as any target. */
  function PoolOf(targets: seq<Prepared>, brand: Option<string>, n: nat): seq<nat>
    requires n <= |targets|
  {
    if n == 0 then []
    else PoolOf(targets, brand, n - 1)
         + (if targets[n - 1].brand == brand then [n - 1] else [])
         + (if brand == None then [n - 1] else [])
  }

  /** A brand without targets falls back to the pool of no brand. */
  function ChosenPool(targets: seq<Prepared>, brand: Option<string>): seq<nat> {
    var own := PoolOf(targets, brand, |targets|);
    if own != [] then own else PoolOf(targets, None, |targets|)
  }

  lemma {:induction false} PoolInRange(targets: seq<Prepared>, brand: Option<string>, n: nat)
    requires n <= |targets|
    ensures forall t :: t in PoolOf(targets, brand, n) ==> t < n
    ensures forall t :: 0 <= t < n && (brand == None || targets[t].brand == brand) ==> t in PoolOf(targets, brand, n)
    ensures brand.Some? ==> forall t :: t in PoolOf(targets, brand, n) ==> targets[t].brand == brand
  {
    if n > 0 { PoolInRange(targets, brand, n - 1); }
  }

  // ----- the stable sort by descending score

  function InsertByScore(x: Scored, s: seq<Scored>): (r: seq<Scored>)
    ensures |r| == |s| + 1
  {
    if s == [] || s[0].score <= x.score then [x] + s else [s[0]] + InsertByScore(x, s[1..])
  }

  function SortByScore(s: seq<Scored>): (r: seq<Scored>)
    ensures |r| == |s|
  {
    if s == [] then [] else InsertByScore(s[0], SortByScore(s[1..]))
  }

  // ----- rows

  /** What the fuzzy library promises; the thresholds may be anything. */
  ghost predicate MatcherOk(m: Matcher) {
    && RatioOk(m)
    && forall x: string, pool: seq<string> :: ShortlistOk(m.shortlist(x, pool), |pool|, m.topK)
  }

  /** The extraction returns distinct pool positions, as many as the limit allows. */
  ghost predicate ShortlistOk(picks: seq<nat>, size: nat, topK: nat) {
    && Distinct(picks)
    && (forall i :: 0 <= i < |picks| ==> picks[i] < size)
    && |picks| == Min(topK, size)
  }

  function Norms(targets: seq<Prepared>, pool: seq<nat>): (norms: seq<string>)
    requires forall t :: t in pool ==> t < |targets|
    ensures |norms| == |pool|
  {
    seq(|pool|, i requires 0 <= i < |pool| => assert pool[i] in pool; targets[pool[i]].norm)
  }

  /** The shortlisted entries with their scores, in shortlist order. */
  function Entries(m: Matcher, a: Prepared, targets: seq<Prepared>): (s: seq<Scored>)
    requires MatcherOk(m)
    ensures forall i :: 0 <= i < |s| ==> s[i].target < |targets|
  {
    PoolInRange(targets, a.brand, |targets|);
    PoolInRange(targets, None, |targets|);
    var pool := ChosenPool(targets, a.brand);
    var picks := m.shortlist(a.norm, Norms(targets, pool));
    assert ShortlistOk(picks, |pool|, m.topK);
    assert forall i :: 0 <= i < |picks| ==> pool[picks[i]] in pool;
    seq(|picks|, i requires 0 <= i < |picks| => EntryOf(m, a, targets, pool[picks[i]]))
  }

  function EntryOf(m: Matcher, a: Prepared, targets: seq<Prepared>, t: nat): Scored
    requires t < |targets|
  {
    Scored(PairScore(m, a, targets[t]), t)
  }

  function ColorForMatched(main: Option<int>, other: Option<int>): Color {
    if main.None? || other.None? then Neutral
    else if main.value < other.value then Green
    else if main.value > other.value then Yellow
    else Neutral
  }

  /** The ambiguous candidates: the leading entries, at most `n`, that reach the threshold. */
  function Leading(sorted: seq<Scored>, minScore: real, n: nat): seq<Scored> {
    if sorted == [] || n == 0 || sorted[0].score < minScore then []
    else [sorted[0]] + Leading(sorted[1..], minScore, n - 1)
  }

  /** What the sorted entries decide: the verdict, the best entry, its lead over the second
      (over an impossible pair when there is none), and the candidates to show. */
  datatype Choice = Choice(verdict: Verdict, best: Option<Scored>, gap: real, listed: seq<Scored>)

  function Choose(m: Matcher, sorted: seq<Scored>): Choice {
    if sorted == [] then Choice(NoMatch, None, 0.0, [])
    else
      var gap := sorted[0].score - if |sorted| > 1 then sorted[1].score else IMPOSSIBLE;
      if sorted[0].score < m.minScore then Choice(NoMatch, Some(sorted[0]), gap, [])
      else if gap < m.minGap then Choice(Ambiguous, Some(sorted[0]), gap, Leading(sorted, m.minScore, 5))
      else Choice(Matched, Some(sorted[0]), gap, [])
  }

  function ChoiceFor(m: Matcher, targets: seq<Prepared>, a: Prepared): (c: Choice)
    requires MatcherOk(m)
    ensures c.verdict != NoMatch ==> c.best.Some? && c.best.value.target < |targets|
  {
    var e := Entries(m, a, targets);
    SortKeeps(e);
    var c := Choose(m, SortByScore(e));
    assert c.best.Some? ==> c.best.value in SortByScore(e);
    c
  }

  /** The rows that one reference adds. */
  function RowsFor(m: Matcher, targets: seq<Prepared>, i: nat, a: Prepared): seq<Row>
    requires MatcherOk(m)
  {
    var c := ChoiceFor(m, targets, a);
    var score := if c.best.Some? then c.best.value.score else 0.0;
    match c.verdict
    case NoMatch => [Row(NoMatch, Blue, Some(i), None, score, c.gap, [])]
    case Ambiguous =>
      [Row(Ambiguous, Blue, Some(i), None, score, c.gap, c.listed),
       Row(Ambiguous, Red, None, Some(c.best.value.target), score, c.gap, [])]
    case Matched =>
      [Row(Matched, ColorForMatched(a.price, targets[c.best.value.target].price),
           Some(i), Some(c.best.value.target), score, c.gap, [])]
  }

  function ReferenceRows(m: Matcher, refs: seq<Prepared>, targets: seq<Prepared>, n: nat): seq<Row>
    requires MatcherOk(m) && n <= |refs|
  {
    if n == 0 then [] else ReferenceRows(m, refs, targets, n - 1) + RowsFor(m, targets, n - 1, refs[n - 1])
  }

  predicate IsMatchedIn(rows: seq<Row>, t: nat) {
    exists k :: 0 <= k < |rows| && rows[k].verdict == Matched && rows[k].other == Some(t)
  }

  /** One closing row for each of the first n targets that no row matched. */
  function ClosingRows(rows: seq<Row>, n: nat): seq<Row> {
    if n == 0 then []
    else ClosingRows(rows, n - 1)
         + if IsMatchedIn(rows, n - 1) then [] else [Row(NoMatch, Red, None, Some(n - 1), 0.0, 0.0, [])]
  }

  function MatchRows(m: Matcher, refs: seq<Prepared>, targets: seq<Prepared>): seq<Row>
    requires MatcherOk(m)
  {
    var rows := ReferenceRows(m, refs, targets, |refs|);
    rows + ClosingRows(rows, |targets|)
  }

  // ----- the sort sorts

  ghost predicate Descending(s: seq<Scored>) {
    forall i, k :: 0 <= i < k < |s| ==> s[i].score >= s[k].score
  }

  lemma {:induction false} InsertAdds(x: Scored, s: seq<Scored>)
    ensures multiset(InsertByScore(x, s)) == multiset(s) + multiset{x}
  {
    if s != [] && s[0].score > x.score {
      InsertAdds(x, s[1..]);
      assert s == [s[0]] + s[1..];
    }
  }

  lemma {:induction false} InsertDescends(x: Scored, s: seq<Scored>)
    requires Descending(s)
    ensures Descending(InsertByScore(x, s))
    ensures forall i :: 0 <= i <= |s| ==> InsertByScore(x, s)[i] == x || InsertByScore(x, s)[i] in s
  {
    if s != [] && s[0].score > x.score {
      InsertDescends(x, s[1..]);
    }
  }

  lemma {:induction false} SortKeeps(s: seq<Scored>)
    ensures Descending(SortByScore(s)) && multiset(SortByScore(s)) == multiset(s)
    ensures forall x :: x in SortByScore(s) <==> x in s
  {
    if s != [] {
      SortKeeps(s[1..]);
      InsertAdds(s[0], SortByScore(s[1..]));
      InsertDescends(s[0], SortByScore(s[1..]));
      assert s == [s[0]] + s[1..];
    }
    forall x ensures x in SortByScore(s) <==> x in s {
      assert x in multiset(SortByScore(s)) <==> x in multiset(s);
    }
  }

  // ----- the program

  ghost predicate PoolsOk(pools: map<Option<string>, seq<nat>>, targets: seq<Prepared>) {
    && (forall b :: b in pools <==> PoolOf(targets, b, |targets|) != [])
    && (forall b :: b in pools ==> pools[b] == PoolOf(targets, b, |targets|))
  }

  method BuildPools(targets: seq<Prepared>) returns (pools: map<Option<string>, seq<nat>>)
    ensures PoolsOk(pools, targets)
  {
    pools := map[];
    var n := 0;
    while n < |targets|
      invariant n <= |targets|
      invariant forall b :: b in pools <==> PoolOf(targets, b, n) != []
      invariant forall b :: b in pools ==> pools[b] == PoolOf(targets, b, n)
    {
      var own := targets[n].brand;
      ghost var before := pools;
      pools := pools[own := (if own in pools then pools[own] else []) + [n]];
      pools := pools[None := (if None in pools then pools[None] else []) + [n]];
      forall b ensures (b in pools <==> PoolOf(targets, b, n + 1) != [])
                       && (b in pools ==> pools[b] == PoolOf(targets, b, n + 1))
      {
        PoolGrows(targets, b, n);
        assert b in before <==> PoolOf(targets, b, n) != [];
      }
      n := n + 1;
    }
  }

  lemma PoolGrows(targets: seq<Prepared>, b: Option<string>, n: nat)
    requires n < |targets|
    ensures var (pool, own) := (PoolOf(targets, b, n), targets[n].brand);
            PoolOf(targets, b, n + 1) == if b == own && b == None then pool + [n] + [n]
                                         else if b == own || b == None then pool + [n] else pool
  {
  }

  method ScoreEntries(m: Matcher, a: Prepared, targets: seq<Prepared>, pool: seq<nat>) returns (scored: seq<Scored>)
    requires MatcherOk(m) && pool == ChosenPool(targets, a.brand)
    ensures scored == Entries(m, a, targets)
  {
    PoolInRange(targets, a.brand, |targets|);
    PoolInRange(targets, None, |targets|);
    var picks := m.shortlist(a.norm, Norms(targets, pool));
    assert ShortlistOk(picks, |pool|, m.topK);
    scored := [];
    var i := 0;
    while i < |picks|
      invariant i <= |picks| && |scored| == i
      invariant scored == Entries(m, a, targets)[..i]
    {
      assert pool[picks[i]] in pool;
      var t := pool[picks[i]];
      assert Entries(m, a, targets)[i] == EntryOf(m, a, targets, t);
      scored := scored + [Scored(PairScore(m, a, targets[t]), t)];
      i := i + 1;
    }
  }

  method CollectLeading(sorted: seq<Scored>, minScore: real) returns (candidates: seq<Scored>)
    ensures candidates == Leading(sorted, minScore, 5)
  {
    candidates := [];
    var i := 0;
    while i < |sorted| && i < 5
      invariant i <= |sorted| && i <= 5
      invariant Leading(sorted, minScore, 5) == candidates + Leading(sorted[i..], minScore, 5 - i)
    {
      assert sorted[i..][0] == sorted[i] && sorted[i..][1..] == sorted[i + 1..];
      if sorted[i].score < minScore {
        break;
      }
      candidates := candidates + [sorted[i]];
      i := i + 1;
    }
  }

  /** One reference: its rows, and the target it matched. */
  method MatchOne(m: Matcher, targets: seq<Prepared>, pool: seq<nat>, i: nat, a: Prepared)
    returns (rows: seq<Row>, matched: Option<nat>)
    requires MatcherOk(m) && pool == ChosenPool(targets, a.brand)
    ensures rows == RowsFor(m, targets, i, a)
    ensures forall t: nat :: IsMatchedIn(rows, t) <==> matched == Some(t)
  {
    hide Entries, ChosenPool, SortByScore, Descending, MatcherOk, Leading;
    matched := None;
    var scored := ScoreEntries(m, a, targets, pool);
    var sorted := SortByScore(scored);
    SortKeeps(scored);
    if sorted == [] {
      return [Row(NoMatch, Blue, Some(i), None, 0.0, 0.0, [])], None;
    }
    var best := sorted[0];
    var second := if |sorted| > 1 then sorted[1].score else IMPOSSIBLE;
    var gap := best.score - second;
    if best.score < m.minScore {
      return [Row(NoMatch, Blue, Some(i), None, best.score, gap, [])], None;
    }
    if gap < m.minGap {
      var candidates := CollectLeading(sorted, m.minScore);
      return [Row(Ambiguous, Blue, Some(i), None, best.score, gap, candidates),
              Row(Ambiguous, Red, None, Some(best.target), best.score, gap, [])], None;
    }
    assert best in sorted && best in scored;
    rows := [Row(Matched, ColorForMatched(a.price, targets[best.target].price),
                 Some(i), Some(best.target), best.score, gap, [])];
    matched := Some(best.target);
    assert rows[0].other == matched;
  }

  method PickPool(pools: map<Option<string>, seq<nat>>, targets: seq<Prepared>, brand: Option<string>)
    returns (pool: seq<nat>)
    requires PoolsOk(pools, targets)
    ensures pool == ChosenPool(targets, brand)
  {
    assert brand in pools <==> PoolOf(targets, brand, |targets|) != [];
    assert None in pools <==> PoolOf(targets, None, |targets|) != [];
    pool := if brand in pools then pools[brand] else if None in pools then pools[None] else [];
  }

  /** The targets that some row matches. */
  ghost predicate UsedIn(used: set<nat>, rows: seq<Row>) {
    forall t: nat :: t in used <==> IsMatchedIn(rows, t)
  }

  method CloseTargets(rows: seq<Row>, used: set<nat>, n: nat) returns (results: seq<Row>)
    requires UsedIn(used, rows)
    ensures results == rows + ClosingRows(rows, n)
  {
    results := rows;
    var t := 0;
    while t < n
      invariant t <= n && results == rows + ClosingRows(rows, t)
    {
      if t !in used {
        results := results + [Row(NoMatch, Red, None, Some(t), 0.0, 0.0, [])];
      }
      t := t + 1;
    }
  }

  method MatchReferences(m: Matcher, refs: seq<Prepared>, targets: seq<Prepared>, pools: map<Option<string>, seq<nat>>)
    returns (results: seq<Row>, used: set<nat>)
    requires MatcherOk(m) && PoolsOk(pools, targets)
    ensures results == ReferenceRows(m, refs, targets, |refs|) && UsedIn(used, results)
  {
    hide RowsFor;
    used, results := {}, [];
    var i := 0;
    while i < |refs|
      invariant i <= |refs| && results == ReferenceRows(m, refs, targets, i)
      invariant UsedIn(used, results)
    {
      var pool := PickPool(pools, targets, refs[i].brand);
      var rows, matched := MatchOne(m, targets, pool, i, refs[i]);
      UsedGrows(results, results + rows, rows);
      results := results + rows;
      if matched.Some? {
        used := used + {matched.value};
      }
      i := i + 1;
    }
  }

  /** The rows of all references, then one closing row per target that was never matched. */
  method HeuristicMatch(m: Matcher, refs: seq<Prepared>, targets: seq<Prepared>) returns (results: seq<Row>)
    requires MatcherOk(m)
    ensures results == MatchRows(m, refs, targets)
  {
    var pools := BuildPools(targets);
    var rows, used := MatchReferences(m, refs, targets, pools);
    results := CloseTargets(rows, used, |targets|);
  }

  lemma UsedGrows(before: seq<Row>, after: seq<Row>, added: seq<Row>)
    requires after == before + added
    ensures forall t: nat :: IsMatchedIn(after, t) <==> IsMatchedIn(before, t) || IsMatchedIn(added, t)
  {
    forall t: nat ensures IsMatchedIn(after, t) <==> IsMatchedIn(before, t) || IsMatchedIn(added, t) {
      if IsMatchedIn(before, t) {
        var k :| 0 <= k < |before| && before[k].verdict == Matched && before[k].other == Some(t);
        assert after[k] == before[k];
      }
      if IsMatchedIn(added, t) {
        var k :| 0 <= k < |added| && added[k].verdict == Matched && added[k].other == Some(t);
        assert after[|before| + k] == added[k];
      }
    }
  }
}
