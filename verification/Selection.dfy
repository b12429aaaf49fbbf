/** What the matcher selects, said without sorting. */
module Selection {
  import opened Basics
  import opened PairScores
  import opened Matching

  // ----- one reference

  /** Entry k reaches the threshold and leads every other entry by the gap; a lone entry is
      held against an impossible pair. */
  ghost predicate Leads(m: Matcher, e: seq<Scored>, k: nat) {
    && k < |e| && e[k].score >= m.minScore
    && (forall i :: 0 <= i < |e| && i != k ==> e[k].score - e[i].score >= m.minGap)
    && (|e| == 1 ==> e[k].score - IMPOSSIBLE >= m.minGap)
  }

  function Except(e: seq<Scored>, k: nat): seq<Scored>
    requires k < |e|
  {
    e[..k] + e[k + 1..]
  }

  lemma WithoutOne(e: seq<Scored>, k: nat)
    requires k < |e|
    ensures multiset(Except(e, k)) == multiset(e) - multiset{e[k]}
    ensures k == 0 ==> Except(e, k) == e[1..]
  {
    assert e == e[..k] + [e[k]] + e[k + 1..];
  }

  lemma SameSize(e: seq<Scored>, sorted: seq<Scored>)
    requires multiset(sorted) == multiset(e)
    ensures |sorted| == |e| && (sorted != [] ==> sorted[0] in multiset(e))
  {
    assert |sorted| == |multiset(sorted)| == |e|;
    assert sorted != [] ==> sorted[0] in multiset(sorted);
  }

  lemma Holds(e: seq<Scored>, x: Scored) returns (k: nat)
    requires x in multiset(e)
    ensures k < |e| && e[k] == x
  {
    k :| 0 <= k < |e| && e[k] == x;
  }

  lemma {:induction false} FindTop(e: seq<Scored>, sorted: seq<Scored>) returns (k: nat)
    requires e != [] && multiset(sorted) == multiset(e)
    ensures k < |e| && |sorted| == |e| && e[k] == sorted[0]
    ensures multiset(Except(e, k)) == multiset(sorted[1..])
  {
    hide Except;
    SameSize(e, sorted);
    k := Holds(e, sorted[0]);
    WithoutOne(e, k);
    WithoutOne(sorted, 0);
  }

  lemma {:induction false} OthersAre(e: seq<Scored>, k: nat, tail: seq<Scored>)
    requires k < |e| && multiset(Except(e, k)) == multiset(tail)
    ensures forall i :: 0 <= i < |e| && i != k ==> e[i] in tail
    ensures forall x :: x in tail ==> exists i :: 0 <= i < |e| && i != k && e[i] == x
  {
    var rest := Except(e, k);
    forall i | 0 <= i < |e| && i != k ensures e[i] in tail {
      assert rest[if i < k then i else i - 1] == e[i];
      assert e[i] in multiset(rest);
    }
    forall x | x in tail ensures exists i :: 0 <= i < |e| && i != k && e[i] == x {
      assert x in multiset(tail) && x in multiset(rest);
      var r :| 0 <= r < |rest| && rest[r] == x;
      assert e[if r < k then r else r + 1] == x;
    }
  }

  /** The best and the second best of a sorted list, found again in the unsorted one. */
  lemma {:induction false} TopTwo(e: seq<Scored>, sorted: seq<Scored>) returns (k: nat)
    requires e != [] && Descending(sorted) && multiset(sorted) == multiset(e)
    ensures k < |e| && e[k] == sorted[0] && |sorted| == |e|
    ensures |e| > 1 ==> (exists i :: 0 <= i < |e| && i != k && e[i] == sorted[1])
    ensures forall i :: 0 <= i < |e| && i != k ==> |e| > 1 && e[i].score <= sorted[1].score <= e[k].score
  {
    k := FindTop(e, sorted);
    OthersAre(e, k, sorted[1..]);
    if |e| > 1 {
      assert sorted[1] == sorted[1..][0] && sorted[1] in sorted[1..];
    }
    forall i | 0 <= i < |e| && i != k ensures |e| > 1 && e[i].score <= sorted[1].score <= e[k].score {
      var r :| 0 <= r < |sorted[1..]| && sorted[1..][r] == e[i];
      assert sorted[r + 1] == e[i];
    }
  }

  /** When any entry leads, the top one does. */
  lemma TopLeads(m: Matcher, e: seq<Scored>, k: nat, q: nat)
    requires k < |e| && (forall i :: 0 <= i < |e| ==> e[i].score <= e[k].score) && Leads(m, e, q)
    ensures Leads(m, e, k)
  {
    forall i | 0 <= i < |e| && i != k ensures e[k].score - e[i].score >= m.minGap {
      if i == q { assert e[q].score - e[k].score >= m.minGap; }
    }
  }

  /** Choosing from the sorted entries is choosing the leader, said without sorting. */
  lemma {:induction false} ChoiceIsExact(m: Matcher, e: seq<Scored>)
    ensures var c := Choose(m, SortByScore(e));
            && (c.verdict == Matched <==> exists k: nat :: Leads(m, e, k))
            && (c.verdict == Matched ==> exists k: nat :: Leads(m, e, k) && c.best == Some(e[k]))
            && (c.verdict == NoMatch <==> forall k :: 0 <= k < |e| ==> e[k].score < m.minScore)
  {
    hide SortByScore;
    hide Leading;
    SortKeeps(e);
    var sorted := SortByScore(e);
    if e != [] {
      assert sorted != [] by { assert e[0] in sorted; }
      var k := TopTwo(e, sorted);
      assert Leads(m, e, k) <==> Choose(m, sorted).verdict == Matched;
      forall q: nat | Leads(m, e, q) ensures Leads(m, e, k) {
        TopLeads(m, e, k, q);
      }
    } else {
      assert |sorted| == |e|;
    }
  }

  /** The rows of one reference: the first names it, a second one follows an ambiguous verdict,
      and every position they mention is a target's. */
  lemma {:induction false} RowsShape(m: Matcher, targets: seq<Prepared>, i: nat, a: Prepared)
    requires MatcherOk(m)
    ensures var rows := RowsFor(m, targets, i, a);
            && 1 <= |rows| <= 2 && rows[0].main == Some(i)
            && (|rows| == 2 <==> rows[0].verdict == Ambiguous)
            && (|rows| == 2 ==> rows[1].main.None? && rows[1].verdict == Ambiguous && rows[1].candidates == []
                                && rows[1].other.Some? && rows[1].other.value < |targets|)
            && (if rows[0].verdict == Matched
                then rows[0].other.Some? && rows[0].other.value < |targets| else rows[0].other.None?)
            && (forall k :: 0 <= k < |rows[0].candidates| ==> rows[0].candidates[k].target < |targets|)
  {
    hide Entries, Choose;
    ListedInRange(m, Entries(m, a, targets), |targets|);
    assert ChoiceFor(m, targets, a) == Choose(m, SortByScore(Entries(m, a, targets)));
    hide SortByScore;
  }

  lemma {:induction false} ListedInRange(m: Matcher, e: seq<Scored>, n: nat)
    requires forall k :: 0 <= k < |e| ==> e[k].target < n
    ensures var listed := Choose(m, SortByScore(e)).listed;
            forall k :: 0 <= k < |listed| ==> listed[k].target < n
  {
    hide SortByScore;
    var sorted := SortByScore(e);
    SortKeeps(e);
    LeadingIsPrefix(sorted, m.minScore, 5);
    var listed := Leading(sorted, m.minScore, 5);
    forall k | 0 <= k < |listed| ensures listed[k].target < n {
      assert listed[k] == sorted[k] && sorted[k] in sorted && sorted[k] in e;
    }
    hide Leading;
  }

  /** A reference is matched exactly when some shortlisted entry leads, and then with that
      entry; it has no match exactly when no entry reaches the threshold; otherwise it is
      ambiguous. Exactly its first row names it as the reference. */
  lemma {:induction false} SelectionIsExact(m: Matcher, targets: seq<Prepared>, i: nat, a: Prepared)
    requires MatcherOk(m)
    ensures var (e, rows) := (Entries(m, a, targets), RowsFor(m, targets, i, a));
            && 1 <= |rows| <= 2 && rows[0].main == Some(i)
            && (|rows| == 2 <==> rows[0].verdict == Ambiguous)
            && (|rows| == 2 ==> rows[1].main.None? && rows[1].verdict == Ambiguous)
            && (rows[0].verdict == Matched <==> exists k: nat :: Leads(m, e, k))
            && (rows[0].verdict == Matched ==>
                  exists k: nat :: Leads(m, e, k) && rows[0].other == Some(e[k].target) && rows[0].score == e[k].score)
            && (rows[0].verdict == NoMatch <==> forall k :: 0 <= k < |e| ==> e[k].score < m.minScore)
            && (rows[0].verdict != Matched ==> rows[0].other.None?)
  {
    hide Entries;
    hide Choose;
    ChoiceIsExact(m, Entries(m, a, targets));
  }

  /** The candidates of an ambiguous choice number between one and five, best first, all at
      or above the threshold; whatever is left out is below the threshold, or is no better
      than the five listed. */
  lemma {:induction false} ListedAreTheBest(m: Matcher, e: seq<Scored>) returns (omitted: seq<Scored>)
    requires Choose(m, SortByScore(e)).verdict == Ambiguous
    ensures var listed := Choose(m, SortByScore(e)).listed;
            && 1 <= |listed| <= 5 && Descending(listed)
            && multiset(listed) + multiset(omitted) == multiset(e)
            && (forall k :: 0 <= k < |listed| ==> listed[k].score >= m.minScore)
            && (forall k :: 0 <= k < |omitted| ==> omitted[k].score < m.minScore || |listed| == 5)
            && (forall i, k :: 0 <= i < |omitted| && 0 <= k < |listed| ==> listed[k].score >= omitted[i].score)
  {
    hide SortByScore, Leading;
    var sorted := SortByScore(e);
    SortKeeps(e);
    LeadingIsPrefix(sorted, m.minScore, 5);
    var listed := Leading(sorted, m.minScore, 5);
    omitted := SplitSorted(sorted, listed);
  }

  lemma SplitSorted(sorted: seq<Scored>, listed: seq<Scored>) returns (omitted: seq<Scored>)
    requires Descending(sorted) && listed <= sorted
    ensures Descending(listed) && omitted == sorted[|listed|..] && multiset(listed) + multiset(omitted) == multiset(sorted)
    ensures forall i, k :: 0 <= i < |omitted| && 0 <= k < |listed| ==> listed[k].score >= omitted[i].score
  {
    omitted := sorted[|listed|..];
    assert sorted == listed + omitted;
  }

  /** So are the candidates of an ambiguous row. */
  lemma {:induction false} CandidatesAreTheBest(m: Matcher, targets: seq<Prepared>, i: nat, a: Prepared)
    returns (omitted: seq<Scored>)
    requires MatcherOk(m) && RowsFor(m, targets, i, a)[0].verdict == Ambiguous
    ensures var (e, listed) := (Entries(m, a, targets), RowsFor(m, targets, i, a)[0].candidates);
            && 1 <= |listed| <= 5 && Descending(listed)
            && multiset(listed) + multiset(omitted) == multiset(e)
            && (forall k :: 0 <= k < |listed| ==> listed[k].score >= m.minScore)
            && (forall k :: 0 <= k < |omitted| ==> omitted[k].score < m.minScore || |listed| == 5)
            && (forall i, k :: 0 <= i < |omitted| && 0 <= k < |listed| ==> listed[k].score >= omitted[i].score)
  {
    hide Entries;
    hide Choose;
    hide MatcherOk;
    omitted := ListedAreTheBest(m, Entries(m, a, targets));
  }

  lemma {:induction false} LeadingIsPrefix(sorted: seq<Scored>, minScore: real, n: nat)
    requires Descending(sorted)
    ensures var c := Leading(sorted, minScore, n);
            && |c| <= n && c <= sorted
            && (forall k :: 0 <= k < |c| ==> c[k].score >= minScore)
            && (|c| < n ==> forall k :: |c| <= k < |sorted| ==> sorted[k].score < minScore)
    ensures sorted != [] && n > 0 && sorted[0].score >= minScore ==> Leading(sorted, minScore, n) != []
  {
    if sorted != [] && n > 0 && sorted[0].score >= minScore {
      LeadingIsPrefix(sorted[1..], minScore, n - 1);
    }
  }

  /** Entries at or above the threshold never pair incompatible records. */
  lemma {:induction false} EntriesAreCompatible(m: Matcher, a: Prepared, targets: seq<Prepared>, k: nat)
    requires MatcherOk(m) && m.minScore >= -195.0 && k < |Entries(m, a, targets)| && Entries(m, a, targets)[k].score >= m.minScore
    ensures !Incompatible(a, targets[Entries(m, a, targets)[k].target])
  {
    ImpossibleIffConflict(m, a, targets[Entries(m, a, targets)[k].target]);
  }

  /** No matched pair and no listed candidate is in hard conflict, provided that the threshold
      is a score which a pair without conflict can have. */
  lemma {:induction false} NothingShownConflicts(m: Matcher, targets: seq<Prepared>, i: nat, a: Prepared)
    requires MatcherOk(m) && m.minScore >= -195.0
    ensures var row := RowsFor(m, targets, i, a)[0];
            && (row.verdict == Matched ==> row.other.value < |targets| && !Incompatible(a, targets[row.other.value]))
            && (forall c :: c in row.candidates ==> c.target < |targets| && !Incompatible(a, targets[c.target]))
  {
    hide Entries;
    hide Choose;
    hide Incompatible;
    var e := Entries(m, a, targets);
    ChoiceIsExact(m, e);
    var row := RowsFor(m, targets, i, a)[0];
    if row.verdict == Matched {
      var k: nat :| Leads(m, e, k) && ChoiceFor(m, targets, a).best == Some(e[k]);
      EntriesAreCompatible(m, a, targets, k);
    }
    if row.verdict == Ambiguous {
      var omitted := ListedAreTheBest(m, e);
      forall c | c in row.candidates ensures c.target < |targets| && !Incompatible(a, targets[c.target]) {
        var q :| 0 <= q < |row.candidates| && row.candidates[q] == c;
        assert c in multiset(row.candidates) && c in multiset(e);
        var k :| 0 <= k < |e| && e[k] == c;
        EntriesAreCompatible(m, a, targets, k);
      }
    }
  }

  // ----- unbranded targets

  /** The None pool holds an unbranded target at two positions. */
  lemma {:induction false} UnbrandedTwice(targets: seq<Prepared>, t: nat, n: nat) returns (p: nat, q: nat)
    requires t < n <= |targets| && targets[t].brand == None
    ensures p < q < |PoolOf(targets, None, n)|
    ensures PoolOf(targets, None, n)[p] == t && PoolOf(targets, None, n)[q] == t
  {
    if t == n - 1 {
      p := |PoolOf(targets, None, n - 1)|;
      q := p + 1;
    } else {
      p, q := UnbrandedTwice(targets, t, n - 1);
    }
  }

  /** A shortlist as long as the pool reaches every position. */
  lemma {:induction false} FullShortlist(picks: seq<nat>, n: nat, p: nat) returns (k: nat)
    requires Distinct(picks) && (forall i :: 0 <= i < |picks| ==> picks[i] < n) && |picks| == n && p < n
    ensures k < n && picks[k] == p
  {
    var (all, hit) := (Elements(UpTo(n)), Elements(picks));
    DistinctSize(picks);
    DistinctSize(UpTo(n));
    forall x | x in hit ensures x in all { assert UpTo(n)[x] == x; }
    SubsetSize(hit, all);
    assert hit == all;
    assert UpTo(n)[p] == p && p in UpTo(n) && p in all && p in hit;
    k :| 0 <= k < |picks| && picks[k] == p;
  }

  function UpTo(n: nat): seq<nat> {
    seq(n, i => i)
  }

  ghost predicate OnlyEntry(e: seq<Scored>, k: nat, t: nat) {
    k < |e| && e[k].target == t && forall q :: 0 <= q < |e| && q != k ==> e[q].target != t
  }

  /** A matched target is listed once: an entry that shares its target with another one cannot
      lead it. */
  lemma {:induction false} MatchedIsListedOnce(m: Matcher, targets: seq<Prepared>, i: nat, a: Prepared)
    requires MatcherOk(m) && m.minGap > 0.0 && RowsFor(m, targets, i, a)[0].verdict == Matched
    ensures RowsFor(m, targets, i, a)[0].other.Some?
    ensures exists k: nat :: OnlyEntry(Entries(m, a, targets), k, RowsFor(m, targets, i, a)[0].other.value)
  {
    hide Entries, RowsFor, MatcherOk;
    SelectionIsExact(m, targets, i, a);
    SharedTargetsTie(m, a, targets);
    var e := Entries(m, a, targets);
    var k: nat :| Leads(m, e, k) && RowsFor(m, targets, i, a)[0].other == Some(e[k].target);
    LeaderIsAlone(m, e, k);
    assert OnlyEntry(e, k, RowsFor(m, targets, i, a)[0].other.value);
  }

  lemma LeaderIsAlone(m: Matcher, e: seq<Scored>, k: nat)
    requires m.minGap > 0.0 && Leads(m, e, k)
    requires forall p, q :: 0 <= p < |e| && 0 <= q < |e| && e[p].target == e[q].target ==> e[p].score == e[q].score
    ensures OnlyEntry(e, k, e[k].target)
  {
    forall q | 0 <= q < |e| && q != k ensures e[q].target != e[k].target {
      assert e[k].score - e[q].score >= m.minGap;
    }
  }

  lemma {:induction false} SharedTargetsTie(m: Matcher, a: Prepared, targets: seq<Prepared>)
    requires MatcherOk(m)
    ensures var e := Entries(m, a, targets);
            forall p, q :: 0 <= p < |e| && 0 <= q < |e| && e[p].target == e[q].target ==> e[p].score == e[q].score
  {
    var e := Entries(m, a, targets);
    var pool := ChosenPool(targets, a.brand);
    PoolInRange(targets, a.brand, |targets|);
    PoolInRange(targets, None, |targets|);
    var picks := m.shortlist(a.norm, Norms(targets, pool));
    assert ShortlistOk(picks, |pool|, m.topK);
    forall k | 0 <= k < |e| ensures e[k] == EntryOf(m, a, targets, e[k].target) {
      assert pool[picks[k]] in pool;
    }
    hide Entries, PairScore;
  }

  /** The double entry has a price: an unbranded target ties with itself, so a pool that
      fits the shortlist never matches one, however well it fits. */
  lemma {:induction false} UnbrandedIsNeverMatched(m: Matcher, targets: seq<Prepared>, i: nat, a: Prepared)
    requires MatcherOk(m) && m.minGap > 0.0 && |ChosenPool(targets, a.brand)| <= m.topK
    ensures var row := RowsFor(m, targets, i, a)[0];
            row.verdict == Matched ==> row.other.value < |targets| && targets[row.other.value].brand.Some?
  {
    hide Entries, RowsFor, ChosenPool;
    RowsShape(m, targets, i, a);
    var row := RowsFor(m, targets, i, a)[0];
    if row.verdict == Matched && targets[row.other.value].brand == None {
      MatchedIsListedOnce(m, targets, i, a);
      var k: nat :| OnlyEntry(Entries(m, a, targets), k, row.other.value);
      TwinTies(m, targets, a, k);
    }
  }

  lemma {:induction false} TwinTies(m: Matcher, targets: seq<Prepared>, a: Prepared, k: nat)
    requires MatcherOk(m) && |ChosenPool(targets, a.brand)| <= m.topK
    requires k < |Entries(m, a, targets)| && targets[Entries(m, a, targets)[k].target].brand == None
    ensures exists q :: 0 <= q < |Entries(m, a, targets)| && q != k && Entries(m, a, targets)[q] == Entries(m, a, targets)[k]
  {
    var pool := ChosenPool(targets, a.brand);
    PoolInRange(targets, a.brand, |targets|);
    PoolInRange(targets, None, |targets|);
    var picks := m.shortlist(a.norm, Norms(targets, pool));
    assert ShortlistOk(picks, |pool|, m.topK);
    var e := Entries(m, a, targets);
    var t := e[k].target;
    assert e[k] == EntryOf(m, a, targets, pool[picks[k]]) && pool[picks[k]] in pool;
    assert pool == PoolOf(targets, None, |targets|);
    var p, q := UnbrandedTwice(targets, t, |targets|);
    var kp := FullShortlist(picks, |pool|, p);
    var kq := FullShortlist(picks, |pool|, q);
    assert e[kp] == EntryOf(m, a, targets, t) && e[kq] == EntryOf(m, a, targets, t);
  }

  /** The smallest case: a lone unbranded target that fits a reference is not its match but an
      ambiguous row that lists the target twice. */
  lemma {:induction false} LoneUnbrandedIsAmbiguous(m: Matcher, i: nat, a: Prepared, b: Prepared)
    requires MatcherOk(m) && m.topK >= 2 && m.minGap > 0.0 && b.brand == None && PairScore(m, a, b) >= m.minScore
    ensures var (row, entry) := (RowsFor(m, [b], i, a)[0], Scored(PairScore(m, a, b), 0));
            row.verdict == Ambiguous && row.candidates == [entry, entry]
  {
    hide PairScore;
    var (targets, entry) := ([b], Scored(PairScore(m, a, b), 0));
    assert PoolOf(targets, None, 1) == [0, 0] by {
      assert PoolOf(targets, None, 0) == [];
    }
    assert PoolOf(targets, a.brand, 1) == if a.brand == None then [0, 0] else [] by {
      assert PoolOf(targets, a.brand, 0) == [];
    }
    var picks := m.shortlist(a.norm, Norms(targets, [0, 0]));
    assert ShortlistOk(picks, 2, m.topK);
    assert Entries(m, a, targets) == [entry, entry];
    TwinsSorted(entry);
    assert Leading([entry, entry], m.minScore, 5) == [entry, entry] by {
      assert [entry, entry][1..] == [entry] && [entry][1..] == [];
      assert Leading([entry], m.minScore, 4) == [entry];
    }
  }

  lemma TwinsSorted(x: Scored)
    ensures SortByScore([x, x]) == [x, x]
  {
    assert [x, x][1..] == [x] && [x][1..] == [];
    assert SortByScore([x]) == [x];
  }

  // ----- all references

  function MainOf(row: Row): seq<nat> {
    if row.main.Some? then [row.main.value] else []
  }

  /** The references that rows name, in order. */
  function MainsOf(rows: seq<Row>): seq<nat> {
    if rows == [] then []
    else MainOf(rows[0]) + MainsOf(rows[1..])
  }

  lemma {:induction false} MainsOfBoth(a: seq<Row>, b: seq<Row>)
    ensures MainsOf(a + b) == MainsOf(a) + MainsOf(b)
  {
    if a == [] {
      assert a + b == b;
    } else {
      MainsOfBoth(a[1..], b);
      assert MainsOf(a + b) == MainOf(a[0]) + MainsOf(a[1..] + b) by {
        assert (a + b)[0] == a[0] && (a + b)[1..] == a[1..] + b;
      }
      assert MainsOf(a) == MainOf(a[0]) + MainsOf(a[1..]);
      hide MainOf, MainsOf;
      ConcatAssociates(MainOf(a[0]), MainsOf(a[1..]), MainsOf(b));
    }
  }

  lemma MainsOfOneOrTwo(rows: seq<Row>)
    requires 1 <= |rows| <= 2 && rows[0].main.Some? && (|rows| == 2 ==> rows[1].main.None?)
    ensures MainsOf(rows) == [rows[0].main.value]
  {
    if |rows| == 2 {
      assert rows[1..] == [rows[1]] && rows[1..][1..] == [];
    } else {
      assert rows[1..] == [];
    }
  }

  lemma {:induction false} MainsOfReferences(m: Matcher, refs: seq<Prepared>, targets: seq<Prepared>, n: nat)
    requires MatcherOk(m) && n <= |refs|
    ensures MainsOf(ReferenceRows(m, refs, targets, n)) == UpTo(n)
  {
    hide RowsFor, MatcherOk, MainsOf, Entries, Leads;
    if n == 0 {
      NoMains();
    }
    if n > 0 {
      MainsOfReferences(m, refs, targets, n - 1);
      var rows := RowsFor(m, targets, n - 1, refs[n - 1]);
      RowsShape(m, targets, n - 1, refs[n - 1]);
      MainsOfBoth(ReferenceRows(m, refs, targets, n - 1), rows);
      MainsOfOneOrTwo(rows);
    }
  }

  lemma NoMains()
    ensures MainsOf([]) == []
  {
  }

  predicate IsClosing(row: Row) {
    row.verdict == NoMatch && row.main.None? && row.other.Some?
  }

  /** The closing rows are an increasing list of targets. */
  lemma {:induction false} ClosingShape(rows: seq<Row>, n: nat)
    ensures var c := ClosingRows(rows, n);
            && MainsOf(c) == []
            && (forall k :: 0 <= k < |c| ==> IsClosing(c[k]) && c[k].other.value < n)
            && (forall k, q :: 0 <= k < q < |c| ==> c[k].other.value < c[q].other.value)
  {
    hide IsMatchedIn, MainsOf;
    if n > 0 {
      ClosingShape(rows, n - 1);
    }
    NoMainsIn(ClosingRows(rows, n));
  }

  lemma {:induction false} NoMainsIn(rows: seq<Row>)
    requires forall k :: 0 <= k < |rows| ==> rows[k].main.None?
    ensures MainsOf(rows) == []
  {
    if rows != [] { NoMainsIn(rows[1..]); }
  }

  predicate HasOther(rows: seq<Row>, t: nat) {
    exists k :: 0 <= k < |rows| && rows[k].other == Some(t)
  }

  lemma HasOtherBoth(a: seq<Row>, b: seq<Row>, t: nat)
    ensures HasOther(a + b, t) <==> HasOther(a, t) || HasOther(b, t)
  {
    if k :| 0 <= k < |a| && a[k].other == Some(t) { assert (a + b)[k] == a[k]; }
    if k :| 0 <= k < |b| && b[k].other == Some(t) { assert (a + b)[|a| + k] == b[k]; }
  }

  /** A target gets a closing row exactly when no row matched it. */
  lemma {:induction false} ClosingMembers(rows: seq<Row>, n: nat, t: nat)
    ensures t < n && !IsMatchedIn(rows, t) <==> HasOther(ClosingRows(rows, n), t)
  {
    hide IsMatchedIn, HasOther;
    if n > 0 {
      ClosingMembers(rows, n - 1, t);
      var last := Row(NoMatch, Red, None, Some(n - 1), 0.0, 0.0, []);
      HasOtherBoth(ClosingRows(rows, n - 1), [last], t);
      OnlyOther(last, t);
      assert ClosingRows(rows, n - 1) + [] == ClosingRows(rows, n - 1);
    } else {
      NoOther(t);
    }
  }

  lemma OnlyOther(row: Row, t: nat)
    ensures HasOther([row], t) <==> row.other == Some(t)
  {
    assert [row][0] == row;
  }

  lemma NoOther(t: nat)
    ensures !HasOther([], t)
  {
  }

  /** Over the whole result: exactly one row, in order, names each reference; after them
      come the closing rows, exactly one per target that no reference matched. */
  lemma {:induction false} OneRowEach(m: Matcher, refs: seq<Prepared>, targets: seq<Prepared>, t: nat)
    requires MatcherOk(m) && t < |targets|
    ensures var (rows, all) := (ReferenceRows(m, refs, targets, |refs|), MatchRows(m, refs, targets));
            && MainsOf(all) == UpTo(|refs|) && rows <= all
            && (forall k :: |rows| <= k < |all| ==> IsClosing(all[k]))
            && (forall k, q :: |rows| <= k < q < |all| ==> all[k].other != all[q].other)
            && (!IsMatchedIn(rows, t) <==> HasOther(all[|rows|..], t))
  {
    hide IsMatchedIn, HasOther, MatcherOk, ReferenceRows, ClosingRows, MainsOf;
    var (rows, all) := (ReferenceRows(m, refs, targets, |refs|), MatchRows(m, refs, targets));
    var c := ClosingRows(rows, |targets|);
    MainsOfReferences(m, refs, targets, |refs|);
    ClosingShape(rows, |targets|);
    ClosingMembers(rows, |targets|, t);
    MainsOfBoth(rows, c);
    assert all == rows + c && all[|rows|..] == c;
    forall k | |rows| <= k < |all| ensures all[k] == c[k - |rows|] {}
  }
}
