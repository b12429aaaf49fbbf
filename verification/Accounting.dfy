/** What a comparison shows: exactly which pairs, no rejected one, every target accounted for,
    and decisions that are visible in the next comparison. */
module Accounting {
  import opened Basics
  import opened PairScores
  import opened Matching
  import opened Mappings
  import opened Comparisons
  import opened Partition

  // ----- sections

  predicate Offers(candidates: seq<Candidate>, t: ProductId) {
    exists k :: 0 <= k < |candidates| && candidates[k].target == t
  }

  predicate GroupsOffer(groups: seq<Group>, r: ProductId, t: ProductId) {
    exists k :: 0 <= k < |groups| && groups[k].ref == r && Offers(groups[k].candidates, t)
  }

  /** The heuristic part shows the pair. */
  predicate Suggests(high: seq<Entry>, groups: seq<Group>, r: ProductId, t: ProductId) {
    Shows(high, HighConfidence, r, t) || GroupsOffer(groups, r, t)
  }

  /** The matcher's row proposes the pair, as its match or as one of its candidates. */
  predicate Proposes(row: Row, x: Context, r: ProductId, t: ProductId)
    requires RowFits(row, x)
  {
    && row.main.Some? && x.refs[row.main.value].id == r
    && if row.verdict == Matched then x.targets[row.other.value].id == t else Lists(row, x, t)
  }

  /** The row is a match above the high-confidence line. */
  predicate Confident(row: Row) {
    row.verdict == Matched && row.score > 84.5
  }

  predicate Lists(row: Row, x: Context, t: ProductId)
    requires RowFits(row, x)
  {
    row.main.Some? && row.verdict == Ambiguous && t in RawIds(row.candidates, x)
  }

  // ----- one row

  lemma {:induction false} BuiltOffers(raw: seq<Scored>, ref: ProductId, x: Context, n: nat, t: ProductId)
    requires n <= |raw| && forall k :: 0 <= k < |raw| ==> raw[k].target < |x.targets|
    ensures Offers(BuildCandidates(raw, ref, x, n), t)
            <==> (ref, t) !in x.rejected && exists k :: 0 <= k < n && x.targets[raw[k].target].id == t
  {
    if n > 0 {
      BuiltOffers(raw, ref, x, n - 1, t);
      var (before, now) := (BuildCandidates(raw, ref, x, n - 1), BuildCandidates(raw, ref, x, n));
      if k :| 0 <= k < |before| && before[k].target == t {
        assert now[k].target == t;
      }
      if |now| > |before| {
        assert now[|before|].target == x.targets[raw[n - 1].target].id;
      }
    }
  }

  lemma GroupsGrow(groups: seq<Group>, g: Group, r: ProductId, t: ProductId)
    ensures GroupsOffer(groups + [g], r, t) <==> GroupsOffer(groups, r, t) || (g.ref == r && Offers(g.candidates, t))
  {
    hide Offers;
    if k :| 0 <= k < |groups| && groups[k].ref == r && Offers(groups[k].candidates, t) {
      assert (groups + [g])[k] == groups[k];
    }
    assert (groups + [g])[|groups|] == g;
  }

  /** Classifying a row adds the pairs that it proposes, less the rejected ones: to the
      confirmed matches when it is confident, to the groups when it is not. */
  lemma {:induction false} ClassifySuggests(c: Classified, row: Row, x: Context, r: ProductId, t: ProductId)
    requires RowFits(row, x)
    ensures var next := Classify(c, row, x);
            var added := (r, t) !in x.rejected && Proposes(row, x, r, t);
            && (Shows(next.high, HighConfidence, r, t)
                <==> Shows(c.high, HighConfidence, r, t) || (added && Confident(row)))
            && (GroupsOffer(next.groups, r, t) <==> GroupsOffer(c.groups, r, t) || (added && !Confident(row)))
  {
    hide Shows, GroupsOffer, Offers, BuildCandidates, Percent;
    if row.main.Some? {
      var ref := x.refs[row.main.value].id;
      match row.verdict {
        case Matched =>
          var single := [Scored(row.score, row.other.value)];
          var target := x.targets[row.other.value].id;
          HighConfidenceLine(row.score);
          BuiltOffers(single, ref, x, 1, t);
          assert x.targets[single[0].target].id == target;
          ShowsGrows(c.high, Entry(ref, target, Percent(row.score), HighConfidence), HighConfidence, r, t);
          GroupsGrow(c.groups, Group(ref, BuildCandidates(single, ref, x, 1)), r, t);
        case Ambiguous =>
          BuiltOffers(row.candidates, ref, x, |row.candidates|, t);
          GroupsGrow(c.groups, Group(ref, BuildCandidates(row.candidates, ref, x, |row.candidates|)), r, t);
        case NoMatch =>
      }
    }
  }

  // ----- all rows

  ghost predicate RowsOk(rows: seq<Row>, x: Context) {
    forall k :: 0 <= k < |rows| ==> RowFits(rows[k], x)
  }

  /** One of the first n rows proposes the pair, confidently or not. */
  ghost predicate ProposedAs(rows: seq<Row>, x: Context, n: nat, r: ProductId, t: ProductId, confident: bool)
    requires n <= |rows| && RowsOk(rows, x)
  {
    exists k :: 0 <= k < n && Proposes(rows[k], x, r, t) && Confident(rows[k]) == confident
  }

  ghost predicate ProposedBy(rows: seq<Row>, x: Context, n: nat, r: ProductId, t: ProductId)
    requires n <= |rows| && RowsOk(rows, x)
  {
    ProposedAs(rows, x, n, r, t, true) || ProposedAs(rows, x, n, r, t, false)
  }

  ghost predicate ListedBy(rows: seq<Row>, x: Context, n: nat, t: ProductId)
    requires n <= |rows| && RowsOk(rows, x)
  {
    exists k :: 0 <= k < n && Lists(rows[k], x, t)
  }

  /** The heuristic part shows exactly the proposed pairs that are not rejected, the confident
      ones as confirmed matches and the others as candidates. */
  lemma {:induction false} SuggestedExactly(rows: seq<Row>, x: Context, n: nat, r: ProductId, t: ProductId)
    requires n <= |rows| && RowsOk(rows, x)
    ensures var c := ClassifyAll(rows, x, n);
            && (Shows(c.high, HighConfidence, r, t) <==> (r, t) !in x.rejected && ProposedAs(rows, x, n, r, t, true))
            && (GroupsOffer(c.groups, r, t) <==> (r, t) !in x.rejected && ProposedAs(rows, x, n, r, t, false))
  {
    hide RowFits, Classify, Shows, GroupsOffer, Proposes, Confident;
    if n > 0 {
      SuggestedExactly(rows, x, n - 1, r, t);
      ClassifySuggests(ClassifyAll(rows, x, n - 1), rows[n - 1], x, r, t);
    } else {
      NothingSuggested(r, t);
    }
  }

  lemma NothingSuggested(r: ProductId, t: ProductId)
    ensures !Shows(UNCLASSIFIED.high, HighConfidence, r, t) && !GroupsOffer(UNCLASSIFIED.groups, r, t)
  {
  }

  ghost predicate SuggestedFor(c: Classified, t: ProductId) {
    exists r: ProductId :: Suggests(c.high, c.groups, r, t)
  }

  lemma {:induction false} ClassifyNotes(c: Classified, row: Row, x: Context, t: ProductId)
    requires RowFits(row, x)
    ensures var next := Classify(c, row, x);
            t in next.highIds + next.candidateIds
            <==> || t in c.highIds + c.candidateIds || Lists(row, x, t)
                 || exists r: ProductId :: (r, t) !in x.rejected && Proposes(row, x, r, t)
  {
    hide BuildCandidates, RawIds, Percent;
    if row.main.Some? {
      var ref := x.refs[row.main.value].id;
      if row.verdict == Matched && x.targets[row.other.value].id == t && (ref, t) !in x.rejected {
        assert Proposes(row, x, ref, t);
      }
    }
  }

  /** The targets that are kept out of target_only: those of a pair that is shown, and those
      that some ambiguous row lists, shown or not. */
  lemma {:induction false} NotedExactly(rows: seq<Row>, x: Context, n: nat, t: ProductId)
    requires n <= |rows| && RowsOk(rows, x)
    ensures var c := ClassifyAll(rows, x, n);
            t in c.highIds + c.candidateIds <==> SuggestedFor(c, t) || ListedBy(rows, x, n, t)
  {
    hide RowFits, Classify, Shows, GroupsOffer, Proposes, Lists;
    if n > 0 {
      NotedExactly(rows, x, n - 1, t);
      var (c, row) := (ClassifyAll(rows, x, n - 1), rows[n - 1]);
      ClassifyNotes(c, row, x, t);
      forall r: ProductId
        ensures var next := Classify(c, row, x);
                Suggests(next.high, next.groups, r, t)
                <==> Suggests(c.high, c.groups, r, t) || ((r, t) !in x.rejected && Proposes(row, x, r, t))
      {
        ClassifySuggests(c, row, x, r, t);
      }
    } else {
      forall r: ProductId ensures !Suggests(UNCLASSIFIED.high, UNCLASSIFIED.groups, r, t) { NothingSuggested(r, t); }
    }
  }

  // ----- the whole comparison

  function RawRows(m: Matcher, x: Context): (rows: seq<Row>)
    requires MatcherOk(m)
    ensures RowsOk(rows, x)
  {
    RowsFit(m, x);
    MatchRows(m, Records(x.refs), Records(x.targets))
  }

  /** Some section of the comparison shows the pair. */
  predicate ShowsPair(c: Comparison, r: ProductId, t: ProductId) {
    Shows(c.confirmed, Stored, r, t) || Shows(c.confirmed, HighConfidence, r, t) || GroupsOffer(c.groups, r, t)
  }

  lemma {:induction false} ShowsInParts(a: seq<Entry>, b: seq<Entry>, s: Source, r: ProductId, t: ProductId)
    ensures Shows(a + b, s, r, t) <==> Shows(a, s, r, t) || Shows(b, s, r, t)
  {
    if k :| 0 <= k < |a| && a[k].source == s && a[k].ref == r && a[k].target == t { assert (a + b)[k] == a[k]; }
    if k :| 0 <= k < |b| && b[k].source == s && b[k].ref == r && b[k].target == t { assert (a + b)[|a| + k] == b[k]; }
  }

  /** The pairs that a comparison shows, section by section and for every table: each confirmed
      target in scope with the first reference that claims it, and the pairs that the matcher
      proposes among the rest and nobody has rejected, confidently in the confirmed matches and
      otherwise in the groups. */
  lemma {:induction false} ShownExactly(m: Matcher, rows: seq<Mapping>, refs: seq<Product>, targets: seq<Product>,
                                        r: ProductId, t: ProductId)
    requires MatcherOk(m)
    ensures var (c, x) := (Compare(m, rows, refs, targets), ContextOf(rows, refs, targets));
            && (Shows(c.confirmed, Stored, r, t) <==> t in Ids(targets) && FirstClaim(rows, refs, |refs|, r, t))
            && (Shows(c.confirmed, HighConfidence, r, t)
                <==> (r, t) !in x.rejected && ProposedAs(RawRows(m, x), x, |RawRows(m, x)|, r, t, true))
            && (GroupsOffer(c.groups, r, t)
                <==> (r, t) !in x.rejected && ProposedAs(RawRows(m, x), x, |RawRows(m, x)|, r, t, false))
  {
    var x := ContextOf(rows, refs, targets);
    var (st, h, raw) := (StoredPart(rows, refs, targets), HeuristicPart(m, x), RawRows(m, x));
    hide MatcherOk, ClassifyAll, StoredFor, MatchRows, Proposes, RowFits, Shows, GroupsOffer, Ids, FirstClaim;
    HighSource(raw, x, |raw|);
    StoredIsExact(rows, refs, targets, r, t);
    SuggestedExactly(raw, x, |raw|, r, t);
    ShowsInParts(st.entries, h.high, Stored, r, t);
    ShowsInParts(st.entries, h.high, HighConfidence, r, t);
    SourcesApart(rows, refs, targets, h.high, r, t);
  }

  lemma SourcesApart(rows: seq<Mapping>, refs: seq<Product>, targets: seq<Product>, high: seq<Entry>, r: ProductId, t: ProductId)
    requires AllHigh(high)
    ensures !Shows(high, Stored, r, t) && !Shows(StoredPart(rows, refs, targets).entries, HighConfidence, r, t)
  {
    hide StoredFor;
    StoredForOk(refs, rows, Ids(targets), |refs|);
    var st := StoredPart(rows, refs, targets);
    assert forall k :: 0 <= k < |st.entries| ==> StoredEntryOk(st.entries[k], Ids(refs), rows, Ids(targets));
  }

  /** What the matcher proposes concerns products that no stored confirmation has taken. */
  lemma {:induction false} ProposalsAreFree(m: Matcher, rows: seq<Mapping>, refs: seq<Product>, targets: seq<Product>,
                                            r: ProductId, t: ProductId)
    requires MatcherOk(m)
    requires var x := ContextOf(rows, refs, targets); ProposedBy(RawRows(m, x), x, |RawRows(m, x)|, r, t)
    ensures r in Ids(refs) && t in Ids(targets) && t !in StoredPart(rows, refs, targets).targetIds
  {
    hide MatcherOk, MatchRows, StoredFor;
    var x := ContextOf(rows, refs, targets);
    var raw := RawRows(m, x);
    var k :| 0 <= k < |raw| && Proposes(raw[k], x, r, t);
    var p :| 0 <= p < |x.refs| && x.refs[p].id == r;
    var q :| 0 <= q < |x.targets| && x.targets[q].id == t;
    assert x.refs[p] in x.refs && x.targets[q] in x.targets;
    RemainingMembers(refs, StoredPart(rows, refs, targets).refIds, x.refs[p]);
    RemainingMembers(targets, StoredPart(rows, refs, targets).targetIds, x.targets[q]);
  }

  /** No rejected pair is shown in any section. */
  lemma {:induction false} NothingRejectedIsShown(m: Matcher, rows: seq<Mapping>, refs: seq<Product>, targets: seq<Product>,
                                                  r: ProductId, t: ProductId)
    requires MatcherOk(m) && UniquePairs(rows) && IsRejectedPair(rows, r, t)
    ensures !ShowsPair(Compare(m, rows, refs, targets), r, t)
  {
    hide MatcherOk, MatchRows, StoredFor, Shows, GroupsOffer, Compare, ProposedAs, ClassifyAll;
    var x := ContextOf(rows, refs, targets);
    ShownExactly(m, rows, refs, targets, r, t);
    var i :| 0 <= i < |rows| && IsPair(rows[i], r, t) && rows[i].status == REJECTED;
    if k :| 0 <= k < |rows| && IsPair(rows[k], r, t) && rows[k].status == CONFIRMED {
      assert false;
    }
    if ProposedBy(RawRows(m, x), x, |RawRows(m, x)|, r, t) {
      ProposalsAreFree(m, rows, refs, targets, r, t);
      assert (r, t) in x.rejected;
    }
  }

  lemma {:induction false} TargetOnlyMembers(targets: seq<Product>, shown: set<ProductId>, n: nat, t: ProductId)
    requires n <= |targets|
    ensures t in TargetOnly(targets, shown, n) <==> t !in shown && exists k :: 0 <= k < n && targets[k].id == t
  {
    if n > 0 { TargetOnlyMembers(targets, shown, n - 1, t); }
  }

  ghost predicate ShowsTarget(c: Comparison, t: ProductId) {
    exists r: ProductId :: ShowsPair(c, r, t)
  }

  /** The only way for a target to vanish: ambiguous rows list it, and every pair that the
      matcher proposes with it has been rejected. */
  ghost predicate OnlyRejectedCandidacies(m: Matcher, x: Context, t: ProductId)
    requires MatcherOk(m)
  {
    var raw := RawRows(m, x);
    && ListedBy(raw, x, |raw|, t)
    && forall r: ProductId :: ProposedBy(raw, x, |raw|, r, t) ==> (r, t) in x.rejected
  }

  /** A target is in target_only or shown with some reference, never both, unless all it has
      are rejected candidacies in ambiguous rows: then it is in no section. */
  lemma {:induction false} TargetAccounting(m: Matcher, rows: seq<Mapping>, refs: seq<Product>, targets: seq<Product>, t: ProductId)
    requires MatcherOk(m) && t in Ids(targets)
    ensures var (c, x) := (Compare(m, rows, refs, targets), ContextOf(rows, refs, targets));
            && (t in c.targetOnly ==> !ShowsTarget(c, t))
            && (t !in c.targetOnly && !ShowsTarget(c, t) <==> OnlyRejectedCandidacies(m, x, t))
  {
    var x := ContextOf(rows, refs, targets);
    var (h, raw) := (HeuristicPart(m, x), RawRows(m, x));
    OutsideTargetOnly(m, rows, refs, targets, t);
    ShownTargets(m, rows, refs, targets, t);
    if k :| 0 <= k < |raw| && Lists(raw[k], x, t) {
      var r := x.refs[raw[k].main.value].id;
      assert Proposes(raw[k], x, r, t);
      ProposalsAreFree(m, rows, refs, targets, r, t);
    }
    hide MatcherOk, ClassifyAll, StoredFor, MatchRows, Proposes, RowFits, Shows, GroupsOffer, Ids, Compare, ShowsTarget, ContextOf, ProposedAs;
    NotedExactly(raw, x, |raw|, t);
    forall r: ProductId
      ensures Suggests(h.high, h.groups, r, t) <==> (r, t) !in x.rejected && ProposedBy(raw, x, |raw|, r, t)
    {
      SuggestedExactly(raw, x, |raw|, r, t);
    }
  }

  lemma {:induction false} OutsideTargetOnly(m: Matcher, rows: seq<Mapping>, refs: seq<Product>, targets: seq<Product>, t: ProductId)
    requires MatcherOk(m) && t in Ids(targets)
    ensures var h := HeuristicPart(m, ContextOf(rows, refs, targets));
            t in Compare(m, rows, refs, targets).targetOnly
            <==> t !in StoredPart(rows, refs, targets).targetIds && t !in h.highIds + h.candidateIds
  {
    hide MatcherOk, ClassifyAll, StoredFor, MatchRows, TargetOnly;
    var h := HeuristicPart(m, ContextOf(rows, refs, targets));
    TargetOnlyMembers(targets, StoredPart(rows, refs, targets).targetIds + h.highIds + h.candidateIds, |targets|, t);
    IdsMember(targets, t);
  }

  lemma {:induction false} ShownTargets(m: Matcher, rows: seq<Mapping>, refs: seq<Product>, targets: seq<Product>, t: ProductId)
    requires MatcherOk(m)
    ensures ShowsTarget(Compare(m, rows, refs, targets), t)
            <==> t in StoredPart(rows, refs, targets).targetIds
                 || SuggestedFor(HeuristicPart(m, ContextOf(rows, refs, targets)), t)
  {
    var (c, x) := (Compare(m, rows, refs, targets), ContextOf(rows, refs, targets));
    var h := HeuristicPart(m, x);
    if t in StoredPart(rows, refs, targets).targetIds {
      StoredShown(m, rows, refs, targets, t);
    }
    hide MatcherOk, ClassifyAll, StoredFor, MatchRows, Shows, GroupsOffer, Compare, ContextOf, ProposedAs;
    forall r: ProductId
      ensures Suggests(h.high, h.groups, r, t) <==> Shows(c.confirmed, HighConfidence, r, t) || GroupsOffer(c.groups, r, t)
      ensures Shows(c.confirmed, Stored, r, t) ==> t in StoredPart(rows, refs, targets).targetIds
    {
      SuggestedExactly(RawRows(m, x), x, |RawRows(m, x)|, r, t);
      ShownExactly(m, rows, refs, targets, r, t);
      if Shows(c.confirmed, Stored, r, t) {
        StoredTaken(m, rows, refs, targets, r, t);
      }
    }
    if r: ProductId :| ShowsPair(c, r, t) {
      assert Suggests(h.high, h.groups, r, t) || t in StoredPart(rows, refs, targets).targetIds;
    }
    if r: ProductId :| Suggests(h.high, h.groups, r, t) {
      assert ShowsPair(c, r, t);
    }
  }

  lemma {:induction false} StoredTaken(m: Matcher, rows: seq<Mapping>, refs: seq<Product>, targets: seq<Product>,
                                       r: ProductId, t: ProductId)
    requires MatcherOk(m) && Shows(Compare(m, rows, refs, targets).confirmed, Stored, r, t)
    ensures t in StoredPart(rows, refs, targets).targetIds
  {
    hide ClassifyAll, StoredFor, MatchRows, RowFits, TargetOnly;
    var x := ContextOf(rows, refs, targets);
    var (st, h, raw) := (StoredPart(rows, refs, targets), HeuristicPart(m, x), RawRows(m, x));
    StoredForOk(refs, rows, Ids(targets), |refs|);
    HighSource(raw, x, |raw|);
    SourcesApart(rows, refs, targets, h.high, r, t);
    ShowsInParts(st.entries, h.high, Stored, r, t);
    var k :| 0 <= k < |st.entries| && st.entries[k].target == t;
  }

  lemma {:induction false} StoredShown(m: Matcher, rows: seq<Mapping>, refs: seq<Product>, targets: seq<Product>, t: ProductId)
    requires MatcherOk(m) && t in StoredPart(rows, refs, targets).targetIds
    ensures ShowsTarget(Compare(m, rows, refs, targets), t)
  {
    hide ClassifyAll, StoredFor, MatchRows, RowFits, TargetOnly;
    StoredForOk(refs, rows, Ids(targets), |refs|);
    var (st, c) := (StoredPart(rows, refs, targets), Compare(m, rows, refs, targets));
    var k :| 0 <= k < |st.entries| && st.entries[k].target == t;
    assert StoredEntryOk(st.entries[k], Ids(refs), rows, Ids(targets));
    assert c.confirmed[k] == st.entries[k];
    assert ShowsPair(c, st.entries[k].ref, t);
  }
}
