/** Which targets a reference is held against, and what its rows say, column by column. */
module RowLaws {
  import opened Basics
  import opened PairScores
  import opened Matching
  import opened Selection

  // ----- the pool

  /** Some target has the reference's brand, which is known. */
  predicate HasOwnBrand(targets: seq<Prepared>, brand: Option<string>, n: nat)
    requires n <= |targets|
  {
    brand.Some? && exists t :: 0 <= t < n && targets[t].brand == brand
  }

  /** How often a target stands in the pool of a reference: when some target has the reference's
      brand, those that have it once and no others; otherwise every target once, and once more if
      its own brand is unknown. */
  function Entered(targets: seq<Prepared>, brand: Option<string>, own: bool, t: nat): nat
    requires t < |targets|
  {
    if own then (if targets[t].brand == brand then 1 else 0)
    else if targets[t].brand == None then 2 else 1
  }

  ghost predicate PoolIs(pool: seq<nat>, targets: seq<Prepared>, brand: Option<string>, own: bool, n: nat)
    requires n <= |targets|
  {
    && (forall i, k :: 0 <= i < k < |pool| ==> pool[i] <= pool[k])
    && (forall i :: 0 <= i < |pool| ==> pool[i] < n)
    && (forall t :: 0 <= t < n ==> multiset(pool)[t] == Entered(targets, brand, own, t))
  }

  lemma Copies(added: seq<nat>, n: nat, t: nat)
    requires |added| <= 2 && forall i :: 0 <= i < |added| ==> added[i] == n
    ensures multiset(added)[t] == if t == n then |added| else 0
  {
    if |added| == 1 {
      assert added == [n];
    } else if |added| == 2 {
      assert added == [n, n];
    } else {
      assert added == [];
    }
  }

  lemma {:induction false} PoolExtends(pool: seq<nat>, added: seq<nat>, targets: seq<Prepared>,
                                       brand: Option<string>, own: bool, n: nat)
    requires n < |targets| && PoolIs(pool, targets, brand, own, n)
    requires |added| == Entered(targets, brand, own, n) && forall i :: 0 <= i < |added| ==> added[i] == n
    ensures PoolIs(pool + added, targets, brand, own, n + 1)
  {
    assert multiset(pool + added) == multiset(pool) + multiset(added);
    assert n !in multiset(pool);
    forall t | 0 <= t <= n ensures multiset(pool + added)[t] == Entered(targets, brand, own, t) {
      Copies(added, n, t);
    }
  }

  lemma EmptyPool(targets: seq<Prepared>, brand: Option<string>, own: bool)
    ensures PoolOf(targets, brand, 0) == [] && !HasOwnBrand(targets, brand, 0)
    ensures forall b: Option<string> :: PoolIs([], targets, b, own, 0)
  {
  }

  lemma OwnBrandGrows(targets: seq<Prepared>, brand: Option<string>, n: nat)
    requires 0 < n <= |targets| && brand.Some?
    ensures HasOwnBrand(targets, brand, n) <==> HasOwnBrand(targets, brand, n - 1) || targets[n - 1].brand == brand
  {
  }

  lemma {:induction false} OwnPool(targets: seq<Prepared>, brand: Option<string>, n: nat)
    requires n <= |targets| && brand.Some?
    ensures PoolIs(PoolOf(targets, brand, n), targets, brand, true, n)
    ensures PoolOf(targets, brand, n) != [] <==> HasOwnBrand(targets, brand, n)
  {
    hide PoolIs, PoolOf, HasOwnBrand;
    EmptyPool(targets, brand, true);
    if n > 0 {
      OwnPool(targets, brand, n - 1);
      var (pool, added) := (PoolOf(targets, brand, n - 1), if targets[n - 1].brand == brand then [n - 1] else []);
      PoolExtends(pool, added, targets, brand, true, n - 1);
      PoolGrows(targets, brand, n - 1);
      OwnBrandGrows(targets, brand, n);
      assert pool + [] == pool;
    }
  }

  lemma {:induction false} AnyPool(targets: seq<Prepared>, brand: Option<string>, n: nat)
    requires n <= |targets|
    ensures PoolIs(PoolOf(targets, None, n), targets, brand, false, n)
  {
    hide PoolIs, PoolOf;
    EmptyPool(targets, None, false);
    if n > 0 {
      AnyPool(targets, brand, n - 1);
      var (pool, added) := (PoolOf(targets, None, n - 1), if targets[n - 1].brand == None then [n - 1, n - 1] else [n - 1]);
      PoolExtends(pool, added, targets, brand, false, n - 1);
      PoolGrows(targets, None, n - 1);
      ConcatAssociates(pool, [n - 1], [n - 1]);
      assert [n - 1] + [n - 1] == [n - 1, n - 1];
    }
  }

  lemma EntriesFrom(m: Matcher, a: Prepared, targets: seq<Prepared>, pool: seq<nat>, picks: seq<nat>)
    requires MatcherOk(m) && pool == ChosenPool(targets, a.brand) && forall i :: 0 <= i < |pool| ==> pool[i] < |targets|
    requires picks == m.shortlist(a.norm, seq(|pool|, i requires 0 <= i < |pool| => targets[pool[i]].norm))
    ensures ShortlistOk(picks, |pool|, m.topK)
    ensures var e := Entries(m, a, targets);
            |e| == |picks| && forall k :: 0 <= k < |e| ==> e[k] == EntryOf(m, a, targets, pool[picks[k]])
  {
    assert seq(|pool|, i requires 0 <= i < |pool| => targets[pool[i]].norm) == Norms(targets, pool);
    assert ShortlistOk(picks, |pool|, m.topK);
    assert forall k :: 0 <= k < |picks| ==> pool[picks[k]] in pool;
    hide PairScore, ChosenPool;
  }

  lemma AllPicked(picks: seq<nat>, n: nat, topK: nat)
    requires ShortlistOk(picks, n, topK)
    ensures n <= topK ==> forall p: nat :: p < n ==> p in picks
  {
    if n <= topK {
      forall p: nat | p < n ensures p in picks {
        var k := FullShortlist(picks, n, p);
        assert picks[k] in picks;
      }
    }
  }

  lemma PoolOfReference(targets: seq<Prepared>, brand: Option<string>)
    ensures PoolIs(ChosenPool(targets, brand), targets, brand, HasOwnBrand(targets, brand, |targets|), |targets|)
  {
    hide PoolIs, HasOwnBrand;
    AnyPool(targets, brand, |targets|);
    if brand.Some? {
      OwnPool(targets, brand, |targets|);
    } else {
      NoOwnBrand(targets);
    }
    hide PoolOf;
  }

  lemma NoOwnBrand(targets: seq<Prepared>)
    ensures !HasOwnBrand(targets, None, |targets|)
  {
  }

  /** The entries of a reference: its pool, in list order, is the targets of its brand if there are
      any and all targets otherwise, unbranded ones twice; the fuzzy library picks positions by the
      titles, and each picked target is scored. A pool that fits the shortlist is entered in full. */
  lemma {:induction false} EntriesAreExact(m: Matcher, a: Prepared, targets: seq<Prepared>) returns (pool: seq<nat>)
    requires MatcherOk(m)
    ensures PoolIs(pool, targets, a.brand, HasOwnBrand(targets, a.brand, |targets|), |targets|)
    ensures var e := Entries(m, a, targets);
            var picks := m.shortlist(a.norm, seq(|pool|, i requires 0 <= i < |pool| => targets[pool[i]].norm));
            && |e| == |picks| == Min(m.topK, |pool|)
            && (forall k :: 0 <= k < |e| ==> picks[k] < |pool| && e[k].target == pool[picks[k]]
                                              && e[k].score == PairScore(m, a, targets[pool[picks[k]]]))
            && (|pool| <= m.topK ==> forall p: nat :: p < |pool| ==> p in picks)
  {
    pool := ChosenPool(targets, a.brand);
    PoolOfReference(targets, a.brand);
    hide PairScore, PoolOf, HasOwnBrand, MatcherOk, ChosenPool, Entries, Entered;
    var picks := m.shortlist(a.norm, seq(|pool|, i requires 0 <= i < |pool| => targets[pool[i]].norm));
    EntriesFrom(m, a, targets, pool, picks);
    AllPicked(picks, |pool|, m.topK);
    hide PoolIs;
  }

  // ----- the order of the entries

  /** The entries with a given score, in order. */
  function WithScore(s: seq<Scored>, score: real): seq<Scored> {
    if s == [] then []
    else (if s[0].score == score then [s[0]] else []) + WithScore(s[1..], score)
  }

  lemma WithScoreFirst(x: Scored, s: seq<Scored>, score: real)
    ensures WithScore([x] + s, score) == (if x.score == score then [x] else []) + WithScore(s, score)
  {
    assert ([x] + s)[1..] == s;
  }

  lemma {:induction false} InsertIsStable(x: Scored, s: seq<Scored>, score: real)
    ensures WithScore(InsertByScore(x, s), score) == (if x.score == score then [x] else []) + WithScore(s, score)
  {
    if s == [] || s[0].score <= x.score {
      assert InsertByScore(x, s) == [x] + s;
      hide InsertByScore, WithScore;
      WithScoreFirst(x, s, score);
    } else {
      var rest := InsertByScore(x, s[1..]);
      assert InsertByScore(x, s) == [s[0]] + rest;
      InsertIsStable(x, s[1..], score);
      assert s == [s[0]] + s[1..];
      hide InsertByScore, WithScore;
      WithScoreFirst(s[0], rest, score);
      WithScoreFirst(s[0], s[1..], score);
    }
  }

  /** The sort is stable: entries of equal score keep their order. With SortKeeps this determines it. */
  lemma {:induction false} SortIsStable(s: seq<Scored>, score: real)
    ensures WithScore(SortByScore(s), score) == WithScore(s, score)
  {
    if s != [] {
      SortIsStable(s[1..], score);
      InsertIsStable(s[0], SortByScore(s[1..]), score);
    }
  }

  /** No entry scores more, and no earlier one as much. */
  ghost predicate FirstBest(e: seq<Scored>, k: nat) {
    && k < |e|
    && (forall i :: 0 <= i < |e| ==> e[i].score <= e[k].score)
    && (forall i :: 0 <= i < k ==> e[i].score < e[k].score)
  }

  lemma {:induction false} SortedHead(e: seq<Scored>) returns (k: nat)
    requires e != []
    ensures FirstBest(e, k) && SortByScore(e)[0] == e[k]
  {
    k := 0;
    if |e| > 1 {
      var q := SortedHead(e[1..]);
      assert forall i :: 1 <= i < |e| ==> e[i] == e[1..][i - 1];
      if e[q + 1].score > e[0].score {
        k := q + 1;
      }
    } else {
      assert SortByScore(e[1..]) == [];
    }
  }

  /** What is left of the lead: over the best of the other entries, or over an impossible pair. */
  ghost predicate GapIs(e: seq<Scored>, k: nat, gap: real)
    requires k < |e|
  {
    if |e| == 1 then gap == e[k].score + 1000000000.0
    else exists q :: 0 <= q < |e| && q != k && gap == e[k].score - e[q].score
                     && forall i :: 0 <= i < |e| && i != k ==> e[i].score <= e[q].score
  }

  lemma {:induction false} SortedGap(e: seq<Scored>, k: nat)
    requires k < |e| && SortByScore(e)[0] == e[k]
    ensures var sorted := SortByScore(e);
            GapIs(e, k, sorted[0].score - if |sorted| > 1 then sorted[1].score else IMPOSSIBLE)
  {
    var sorted := SortByScore(e);
    SortKeeps(e);
    hide SortByScore, Except;
    SameSize(e, sorted);
    if |e| > 1 {
      WithoutOne(e, k);
      WithoutOne(sorted, 0);
      BestOfOthers(e, k, sorted[1..]);
    }
  }

  lemma {:induction false} BestOfOthers(e: seq<Scored>, k: nat, tail: seq<Scored>)
    requires k < |e| && multiset(Except(e, k)) == multiset(tail) && tail != [] && Descending(tail)
    ensures |e| > 1 && GapIs(e, k, e[k].score - tail[0].score)
  {
    OthersAre(e, k, tail);
    assert tail[0] in tail;
    var q :| 0 <= q < |e| && q != k && e[q] == tail[0];
    forall i | 0 <= i < |e| && i != k ensures e[i].score <= e[q].score {
      var r :| 0 <= r < |tail| && tail[r] == e[i];
      assert r == 0 || tail[0].score >= tail[r].score;
    }
  }

  // ----- the rows of a reference

  /** Green when the reference is cheaper, yellow when it is dearer, neutral when a price is missing
      or both are the same. */
  predicate ColorIs(ref: Option<int>, target: Option<int>, c: Color) {
    && (c == Green <==> ref != None && target != None && ref.value < target.value)
    && (c == Yellow <==> ref != None && target != None && ref.value > target.value)
    && (c == Green || c == Yellow || c == Neutral)
  }

  /** The rows of a reference, column by column. Without entries it has no match, and no score. With
      entries its score is that of the first best entry and its gap the lead over the others: below
      the threshold it has no match, with too small a lead it is ambiguous and a second row names that
      entry, otherwise that entry is its match, coloured by the prices. */
  lemma {:induction false} RowsAreExact(m: Matcher, targets: seq<Prepared>, i: nat, a: Prepared) returns (k: nat)
    requires MatcherOk(m)
    ensures var (e, rows) := (Entries(m, a, targets), RowsFor(m, targets, i, a));
            if e == [] then rows == [Row(NoMatch, Blue, Some(i), None, 0.0, 0.0, [])]
            else
              && FirstBest(e, k) && e[k].target < |targets| && rows != []
              && var (row, t) := (rows[0], e[k].target);
                 && row.main == Some(i) && row.score == e[k].score && GapIs(e, k, row.gap)
                 && (if e[k].score < m.minScore then rows == [Row(NoMatch, Blue, Some(i), None, row.score, row.gap, [])]
                     else if row.gap < m.minGap then
                       rows == [Row(Ambiguous, Blue, Some(i), None, row.score, row.gap, row.candidates),
                                Row(Ambiguous, Red, None, Some(t), row.score, row.gap, [])]
                     else rows == [Row(Matched, row.color, Some(i), Some(t), row.score, row.gap, [])]
                          && ColorIs(a.price, targets[t].price, row.color))
  {
    hide Entries, SortByScore, Leading, GapIs, FirstBest;
    var e := Entries(m, a, targets);
    SortKeeps(e);
    k := 0;
    if e != [] {
      k := SortedHead(e);
      SortedGap(e, k);
      assert k < |e| by { FirstInRange(e, k); }
    } else {
      assert |SortByScore(e)| == 0;
    }
  }

  lemma FirstInRange(e: seq<Scored>, k: nat)
    requires FirstBest(e, k)
    ensures k < |e|
  {
  }

  // ----- all rows

  lemma {:induction false} BlockAt(m: Matcher, refs: seq<Prepared>, targets: seq<Prepared>, n: nat, i: nat) returns (p: nat)
    requires MatcherOk(m) && i < n <= |refs|
    ensures var (all, block) := (ReferenceRows(m, refs, targets, n), RowsFor(m, targets, i, refs[i]));
            p + |block| <= |all| && all[p..p + |block|] == block
  {
    hide RowsFor, MatcherOk;
    var (before, last) := (ReferenceRows(m, refs, targets, n - 1), RowsFor(m, targets, n - 1, refs[n - 1]));
    if i == n - 1 {
      p := |before|;
    } else {
      p := BlockAt(m, refs, targets, n - 1, i);
      var block := RowsFor(m, targets, i, refs[i]);
      assert (before + last)[p..p + |block|] == before[p..p + |block|];
    }
  }

  /** The rows of each reference stand in the result as one block. */
  lemma {:induction false} EachHasItsRows(m: Matcher, refs: seq<Prepared>, targets: seq<Prepared>, i: nat) returns (p: nat)
    requires MatcherOk(m) && i < |refs|
    ensures var (all, block) := (MatchRows(m, refs, targets), RowsFor(m, targets, i, refs[i]));
            p + |block| <= |all| && all[p..p + |block|] == block
  {
    hide RowsFor, MatcherOk;
    p := BlockAt(m, refs, targets, |refs|, i);
    var rows := ReferenceRows(m, refs, targets, |refs|);
    var block := RowsFor(m, targets, i, refs[i]);
    assert MatchRows(m, refs, targets)[p..p + |block|] == rows[p..p + |block|];
  }

  /** Some row matches the target. */
  predicate MatchedSomewhere(rows: seq<Row>, t: nat) {
    exists k :: 0 <= k < |rows| && rows[k].verdict == Matched && rows[k].other == Some(t)
  }

  /** A closing row: no match, red, without score or candidates. */
  predicate ClosesFor(row: Row, t: nat) {
    row == Row(NoMatch, Red, None, Some(t), 0.0, 0.0, [])
  }

  lemma {:induction false} ClosingRowsAre(rows: seq<Row>, n: nat)
    ensures forall k :: 0 <= k < |ClosingRows(rows, n)| ==>
              ClosingRows(rows, n)[k].other.Some? && ClosesFor(ClosingRows(rows, n)[k], ClosingRows(rows, n)[k].other.value)
  {
    hide IsMatchedIn;
    if n > 0 { ClosingRowsAre(rows, n - 1); }
  }

  /** A target that no row of the result matches has a closing row, and no other target has one. */
  lemma {:induction false} UnmatchedAreClosed(m: Matcher, refs: seq<Prepared>, targets: seq<Prepared>, t: nat)
    requires MatcherOk(m) && t < |targets|
    ensures var all := MatchRows(m, refs, targets);
            !MatchedSomewhere(all, t) <==> exists k :: 0 <= k < |all| && ClosesFor(all[k], t)
  {
    hide ReferenceRows, MatcherOk, ClosingRows, MainsOf, IsMatchedIn, HasOther, MatchedSomewhere;
    var rows := ReferenceRows(m, refs, targets, |refs|);
    var c := ClosingRows(rows, |targets|);
    ReferencesDoNotClose(m, refs, targets, |refs|);
    ClosingRowsAre(rows, |targets|);
    ClosingMembers(rows, |targets|, t);
    MatchesAreFirst(rows, c, t);
    ClosingsAreLast(rows, c, t);
  }

  lemma MatchesAreFirst(rows: seq<Row>, c: seq<Row>, t: nat)
    requires forall k :: 0 <= k < |c| ==> c[k].verdict == NoMatch
    ensures MatchedSomewhere(rows + c, t) <==> IsMatchedIn(rows, t)
  {
    if k :| 0 <= k < |rows + c| && (rows + c)[k].verdict == Matched && (rows + c)[k].other == Some(t) {
      assert k < |rows| && rows[k] == (rows + c)[k];
    }
    if k :| 0 <= k < |rows| && rows[k].verdict == Matched && rows[k].other == Some(t) {
      assert (rows + c)[k] == rows[k];
    }
  }

  lemma ClosingsAreLast(rows: seq<Row>, c: seq<Row>, t: nat)
    requires forall k :: 0 <= k < |rows| ==> rows[k].main.Some? || rows[k].verdict == Ambiguous
    requires forall k :: 0 <= k < |c| ==> c[k].other.Some? && ClosesFor(c[k], c[k].other.value)
    ensures HasOther(c, t) <==> exists k :: 0 <= k < |rows + c| && ClosesFor((rows + c)[k], t)
  {
    if k :| 0 <= k < |c| && c[k].other == Some(t) {
      assert (rows + c)[|rows| + k] == c[k];
    }
    if k :| 0 <= k < |rows + c| && ClosesFor((rows + c)[k], t) {
      assert k >= |rows| && c[k - |rows|] == (rows + c)[k];
    }
  }

  lemma {:induction false} ReferencesDoNotClose(m: Matcher, refs: seq<Prepared>, targets: seq<Prepared>, n: nat)
    requires MatcherOk(m) && n <= |refs|
    ensures forall k :: 0 <= k < |ReferenceRows(m, refs, targets, n)| ==>
              var row := ReferenceRows(m, refs, targets, n)[k];
              row.main.Some? || row.verdict == Ambiguous
  {
    hide RowsFor, MatcherOk;
    if n > 0 {
      ReferencesDoNotClose(m, refs, targets, n - 1);
      RowsShape(m, targets, n - 1, refs[n - 1]);
    }
  }
}
