/** Decisions and comparisons together: what is offered can be accepted, what is confirmed is
    shown once, what is rejected is not shown again. */
module Decisions {
  import opened Basics
  import opened PairScores
  import opened Matching
  import opened Mappings
  import opened MappingLaws
  import opened Comparisons
  import opened Partition
  import opened Accounting

  // ----- the accept button

  predicate FlagsOk(candidates: seq<Candidate>, x: Context) {
    forall k :: 0 <= k < |candidates| ==> (candidates[k].canAccept <==> candidates[k].target !in x.confirmedAnywhere)
  }

  lemma {:induction false} BuiltFlags(raw: seq<Scored>, ref: ProductId, x: Context, n: nat)
    requires n <= |raw| && forall k :: 0 <= k < |raw| ==> raw[k].target < |x.targets|
    ensures FlagsOk(BuildCandidates(raw, ref, x, n), x)
  {
    if n > 0 { BuiltFlags(raw, ref, x, n - 1); }
  }

  ghost predicate AllFlagsOk(groups: seq<Group>, x: Context) {
    forall k :: 0 <= k < |groups| ==> FlagsOk(groups[k].candidates, x)
  }

  lemma {:induction false} GroupFlags(rows: seq<Row>, x: Context, n: nat)
    requires n <= |rows| && RowsOk(rows, x)
    ensures AllFlagsOk(ClassifyAll(rows, x, n).groups, x)
  {
    hide FlagsOk, BuildCandidates, RawIds, Percent;
    if n > 0 {
      GroupFlags(rows, x, n - 1);
      var row := rows[n - 1];
      if row.main.Some? && row.verdict != NoMatch {
        var raw := if row.verdict == Ambiguous then row.candidates else [Scored(row.score, row.other.value)];
        BuiltFlags(raw, x.refs[row.main.value].id, x, |raw|);
      }
    }
  }

  lemma {:induction false} ConfirmedAnywhere(rows: seq<Mapping>, refs: seq<Product>, targets: seq<Product>, r: ProductId, t: ProductId)
    requires r in Ids(refs) && t in Ids(targets) && t !in StoredPart(rows, refs, targets).targetIds
    ensures t in ConfirmedTargets(rows, Ids(targets)) <==> HasConflict(rows, r, t)
  {
    hide StoredFor;
    StoredForOk(refs, rows, Ids(targets), |refs|);
    IdsMember(refs, r);
    if t in ConfirmedTargets(rows, Ids(targets)) {
      var k :| 0 <= k < |rows| && rows[k].target == t && rows[k].status == CONFIRMED;
      assert IsConflict(rows[k], r, t);
    }
  }

  /** A candidate can be accepted exactly when its target is not confirmed for another
      reference, which is exactly when the confirmation is saved. */
  lemma {:induction false} AcceptableIffAccepted(m: Matcher, c: Catalog, tb: Table, refs: seq<Product>, targets: seq<Product>,
                                                 g: nat, k: nat, confidence: Option<real>, comment: Option<string>)
    requires MatcherOk(m)
    requires forall p :: p in refs || p in targets ==> p in c.products
    requires var groups := Compare(m, tb.rows, refs, targets).groups; g < |groups| && k < |groups[g].candidates|
    ensures var group := Compare(m, tb.rows, refs, targets).groups[g];
            var (r, t) := (group.ref, group.candidates[k].target);
            && (group.candidates[k].canAccept <==> !HasConflict(tb.rows, r, t))
            && (group.candidates[k].canAccept <==> Handle(c, tb, ConfirmMatch(r, t, None, confidence, comment)).1 == Saved)
  {
    hide ClassifyAll, StoredFor, MatchRows, HasConflict, MatcherOk, FlagsOk, ProposedAs, Remaining, TargetOnly;
    var (v, x) := (Compare(m, tb.rows, refs, targets), ContextOf(tb.rows, refs, targets));
    var raw := RawRows(m, x);
    var (r, t) := (v.groups[g].ref, v.groups[g].candidates[k].target);
    GroupFlags(raw, x, |raw|);
    assert v.groups == ClassifyAll(raw, x, |raw|).groups;
    assert FlagsOk(v.groups[g].candidates, x);
    FlagAt(v.groups[g].candidates, x, k);
    assert Offers(v.groups[g].candidates, t);
    assert GroupsOffer(v.groups, r, t);
    ShownExactly(m, tb.rows, refs, targets, r, t);
    ProposalsAreFree(m, tb.rows, refs, targets, r, t);
    ConfirmedAnywhere(tb.rows, refs, targets, r, t);
    Known(c, refs, r);
    Known(c, targets, t);
  }

  lemma FlagAt(candidates: seq<Candidate>, x: Context, k: nat)
    requires FlagsOk(candidates, x) && k < |candidates|
    ensures candidates[k].canAccept <==> candidates[k].target !in x.confirmedAnywhere
  {
  }

  lemma Known(c: Catalog, products: seq<Product>, id: ProductId)
    requires id in Ids(products) && forall p :: p in products ==> p in c.products
    ensures FindProduct(c.products, id).Some?
  {
    var k :| 0 <= k < |products| && products[k].id == id;
    assert products[k] in products && products[k] in c.products;
    var i :| 0 <= i < |c.products| && c.products[i] == products[k];
    assert c.products[i].id == id;
  }

  // ----- groups without candidates

  /** An ambiguous row for the reference, all of whose candidates are rejected. */
  ghost predicate AllRejected(row: Row, x: Context, r: ProductId)
    requires RowFits(row, x)
  {
    && row.main.Some? && x.refs[row.main.value].id == r && row.verdict == Ambiguous
    && forall t :: t in RawIds(row.candidates, x) ==> (r, t) in x.rejected
  }

  predicate HasEmptyGroup(groups: seq<Group>, r: ProductId) {
    exists k :: 0 <= k < |groups| && groups[k].ref == r && groups[k].candidates == []
  }

  lemma EmptyGroupGrows(groups: seq<Group>, g: Group, r: ProductId)
    ensures HasEmptyGroup(groups + [g], r) <==> HasEmptyGroup(groups, r) || (g.ref == r && g.candidates == [])
  {
    if k :| 0 <= k < |groups| && groups[k].ref == r && groups[k].candidates == [] {
      assert (groups + [g])[k] == groups[k];
    }
    assert (groups + [g])[|groups|] == g;
  }

  lemma {:induction false} BuiltEmpty(raw: seq<Scored>, ref: ProductId, x: Context)
    requires forall k :: 0 <= k < |raw| ==> raw[k].target < |x.targets|
    ensures BuildCandidates(raw, ref, x, |raw|) == [] <==> forall t :: t in RawIds(raw, x) ==> (ref, t) in x.rejected
  {
    var built := BuildCandidates(raw, ref, x, |raw|);
    forall t: ProductId
      ensures Offers(built, t) <==> (ref, t) !in x.rejected && t in RawIds(raw, x)
    {
      BuiltOffers(raw, ref, x, |raw|, t);
    }
    if built != [] {
      assert Offers(built, built[0].target);
    }
  }

  lemma {:induction false} EmptyGroups(rows: seq<Row>, x: Context, n: nat, r: ProductId)
    requires n <= |rows| && RowsOk(rows, x)
    ensures HasEmptyGroup(ClassifyAll(rows, x, n).groups, r) <==> exists k :: 0 <= k < n && AllRejected(rows[k], x, r)
  {
    hide BuildCandidates, RawIds, Percent, HasEmptyGroup, AllRejected;
    if n > 0 {
      EmptyGroups(rows, x, n - 1, r);
      ClassifyEmpty(ClassifyAll(rows, x, n - 1), rows[n - 1], x, r);
    } else {
      NoGroups(r);
    }
  }

  /** A rejected pair is dropped from its group, but the group stays: a comparison has an empty
      group for a reference exactly when the matcher found it ambiguous and all its candidates
      are rejected; the reference is not moved to reference_only. */
  lemma {:induction false} EmptyGroupIffAllRejected(m: Matcher, rows: seq<Mapping>, refs: seq<Product>, targets: seq<Product>,
                                                    r: ProductId)
    requires MatcherOk(m)
    ensures var x := ContextOf(rows, refs, targets);
            var raw := RawRows(m, x);
            HasEmptyGroup(Compare(m, rows, refs, targets).groups, r)
            <==> exists k :: 0 <= k < |raw| && AllRejected(raw[k], x, r)
  {
    hide MatcherOk, ClassifyAll, StoredFor, MatchRows, HasEmptyGroup, AllRejected, TargetOnly, RowFits;
    var x := ContextOf(rows, refs, targets);
    var raw := RawRows(m, x);
    EmptyGroups(raw, x, |raw|, r);
    assert Compare(m, rows, refs, targets).groups == ClassifyAll(raw, x, |raw|).groups;
  }

  /** The table that holds nothing but one rejected pair. */
  function OneRejection(p: Product, q: Product): seq<Mapping> {
    [Mapping(0, p.id, q.id, REJECTED, None, None)]
  }

  lemma {:induction false} LoneContext(p: Product, q: Product)
    ensures StoredPart(OneRejection(p, q), [p], [q]) == NO_STORED
    ensures var x := ContextOf(OneRejection(p, q), [p], [q]);
            x.refs == [p] && x.targets == [q] && (p.id, q.id) in x.rejected
  {
    var rows := OneRejection(p, q);
    assert StoredPart(rows, [p], [q]) == NO_STORED by {
      assert StoredRows(NO_STORED, p.id, rows, Ids([q]), 1) == NO_STORED;
      assert StoredFor([p], rows, Ids([q]), 1) == NO_STORED;
    }
    hide StoredPart;
    assert Remaining([p], {}) == [p] && Remaining([q], {}) == [q] by { assert [p][1..] == [] && [q][1..] == []; }
    hide Remaining;
    assert (p.id, q.id) in RejectedPairs(rows, Ids([p])) by { assert rows[0].ref == p.id && [p][0].id in Ids([p]); }
  }

  /** An ambiguous row for the only reference that lists the only target, twice; no other row
      names a reference. */
  ghost predicate LoneAmbiguity(raw: seq<Row>) {
    && 1 <= |raw|
    && raw[0].main == Some(0) && raw[0].verdict == Ambiguous && raw[0].other == None
    && |raw[0].candidates| == 2 && raw[0].candidates[0].target == 0 && raw[0].candidates[1].target == 0
    && forall k :: 0 < k < |raw| ==> raw[k].main == None
  }

  lemma {:induction false} LoneRows(m: Matcher, a: Prepared, b: Prepared)
    requires MatcherOk(m) && m.topK >= 2 && m.minGap > 0.0 && b.brand == None && PairScore(m, a, b) >= m.minScore
    ensures LoneAmbiguity(MatchRows(m, [a], [b]))
  {
    Selection.LoneUnbrandedIsAmbiguous(m, 0, a, b);
    Selection.RowsShape(m, [b], 0, a);
    var own := RowsFor(m, [b], 0, a);
    hide RowsFor, MatcherOk, PairScore;
    assert ReferenceRows(m, [a], [b], 1) == own by { assert ReferenceRows(m, [a], [b], 0) == []; }
    Selection.ClosingShape(own, 1);
    assert MatchRows(m, [a], [b]) == own + ClosingRows(own, 1);
    hide ReferenceRows, ClosingRows;
  }

  lemma {:induction false} LoneClass(raw: seq<Row>, x: Context, p: Product, q: Product, n: nat)
    requires RowsOk(raw, x) && LoneAmbiguity(raw) && 1 <= n <= |raw|
    requires x.refs == [p] && x.targets == [q] && (p.id, q.id) in x.rejected
    ensures ClassifyAll(raw, x, n) == Classified([], [Group(p.id, [])], [], {q.id}, {})
  {
    if n == 1 {
      BuiltEmpty(raw[0].candidates, p.id, x);
      assert RawIds(raw[0].candidates, x) == {q.id} by { assert x.targets[raw[0].candidates[0].target].id == q.id; }
      hide BuildCandidates, RawIds;
      assert ClassifyAll(raw, x, 0) == UNCLASSIFIED;
    } else {
      LoneClass(raw, x, p, q, n - 1);
      hide RowFits;
    }
  }

  /** The smallest such comparison: one reference, one target without a brand that fits it, and
      the pair rejected. The group is empty, and the target is in no section at all. */
  lemma {:induction false} LoneRejectedCandidate(m: Matcher, p: Product, q: Product)
    requires MatcherOk(m) && m.topK >= 2 && m.minGap > 0.0
    requires q.record.brand == None && PairScore(m, p.record, q.record) >= m.minScore
    ensures var v := Compare(m, OneRejection(p, q), [p], [q]);
            v.confirmed == [] && v.groups == [Group(p.id, [])] && v.referenceOnly == [] && v.targetOnly == []
  {
    LoneContext(p, q);
    LoneRows(m, p.record, q.record);
    hide ContextOf, StoredPart, MatcherOk, PairScore, MatchRows, OneRejection;
    var x := ContextOf(OneRejection(p, q), [p], [q]);
    assert Records([p]) == [p.record] && Records([q]) == [q.record];
    var raw := RawRows(m, x);
    LoneClass(raw, x, p, q, |raw|);
    hide ClassifyAll;
    assert TargetOnly([q], {q.id}, 1) == [] by { assert TargetOnly([q], {q.id}, 0) == []; }
    assert HeuristicPart(m, x) == ClassifyAll(raw, x, |raw|);
    hide HeuristicPart, TargetOnly;
    assert {} + {} + {q.id} == {q.id};
  }

  lemma NoGroups(r: ProductId)
    ensures !HasEmptyGroup([], r)
  {
  }

  lemma {:induction false} ClassifyEmpty(c: Classified, row: Row, x: Context, r: ProductId)
    requires RowFits(row, x)
    ensures HasEmptyGroup(Classify(c, row, x).groups, r) <==> HasEmptyGroup(c.groups, r) || AllRejected(row, x, r)
  {
    hide BuildCandidates, RawIds, Percent, HasEmptyGroup;
    if row.main.Some? && row.verdict != NoMatch {
      var ref := x.refs[row.main.value].id;
      var raw := if row.verdict == Ambiguous then row.candidates else [Scored(row.score, row.other.value)];
      BuiltEmpty(raw, ref, x);
      EmptyGroupGrows(c.groups, Group(ref, BuildCandidates(raw, ref, x, |raw|)), r);
      if row.verdict == Matched {
        SingleId(raw, x);
      }
    }
  }

  lemma SingleId(raw: seq<Scored>, x: Context)
    requires |raw| == 1 && raw[0].target < |x.targets|
    ensures RawIds(raw, x) == {x.targets[raw[0].target].id}
  {
  }

  // ----- decisions show in the next comparison

  /** Entry k is the only thing that a comparison shows with its target. */
  ghost predicate OnlyPlace(v: Comparison, k: nat, r: ProductId, t: ProductId) {
    && k < |v.confirmed|
    && v.confirmed[k].source == Stored && v.confirmed[k].ref == r && v.confirmed[k].target == t
    && (forall i :: 0 <= i < |v.confirmed| && i != k ==> v.confirmed[i].target != t)
    && (forall r': ProductId :: !GroupsOffer(v.groups, r', t))
    && t !in v.targetOnly
  }

  /** Nothing is suggested for a target that a stored confirmation has taken. */
  lemma {:induction false} TakenIsNotSuggested(m: Matcher, rows: seq<Mapping>, refs: seq<Product>, targets: seq<Product>,
                                               r: ProductId, t: ProductId)
    requires MatcherOk(m) && t in StoredPart(rows, refs, targets).targetIds
    ensures var v := Compare(m, rows, refs, targets);
            !GroupsOffer(v.groups, r, t) && !Shows(v.confirmed, HighConfidence, r, t)
  {
    hide MatcherOk, Compare, StoredFor, GroupsOffer, Shows, ProposedAs, ContextOf;
    var x := ContextOf(rows, refs, targets);
    ShownExactly(m, rows, refs, targets, r, t);
    if ProposedBy(RawRows(m, x), x, |RawRows(m, x)|, r, t) {
      ProposalsAreFree(m, rows, refs, targets, r, t);
    }
  }

  lemma EntryAlone(stored: seq<Entry>, high: seq<Entry>, k: nat, t: ProductId)
    requires DistinctTargets(stored) && AllHigh(high) && k < |stored| && stored[k].target == t
    requires forall r: ProductId :: !Shows(stored + high, HighConfidence, r, t)
    ensures forall i :: 0 <= i < |stored + high| && i != k ==> (stored + high)[i].target != t
  {
    var all := stored + high;
    forall i | 0 <= i < |all| && i != k ensures all[i].target != t {
      if i >= |stored| {
        assert all[i] == high[i - |stored|];
        assert !Shows(all, HighConfidence, all[i].ref, t);
      }
    }
  }

  lemma {:induction false} ConfirmedHasOnePlace(m: Matcher, rows: seq<Mapping>, refs: seq<Product>, targets: seq<Product>,
                                                r: ProductId, t: ProductId) returns (k: nat)
    requires MatcherOk(m) && Exclusive(rows)
    requires r in Ids(refs) && t in Ids(targets) && DecisionIs(rows, r, t, CONFIRMED)
    ensures OnlyPlace(Compare(m, rows, refs, targets), k, r, t)
  {
    var x := ContextOf(rows, refs, targets);
    var (v, st, h, raw) := (Compare(m, rows, refs, targets), StoredPart(rows, refs, targets), HeuristicPart(m, x), RawRows(m, x));
    StoredIsExact(rows, refs, targets, r, t);
    ExclusiveClaims(rows, refs, r, t);
    hide FirstClaim, ClassifyAll, StoredFor, MatchRows, MatcherOk, Ids, TargetOnly, DecisionIs, Exclusive, GroupsOffer, RowFits, ContextOf;
    k :| 0 <= k < |st.entries| && st.entries[k].source == Stored && st.entries[k].ref == r && st.entries[k].target == t;
    assert v.confirmed == st.entries + h.high;
    assert v.confirmed[k] == st.entries[k];
    assert Shows(v.confirmed, Stored, r, t);
    hide Shows;
    StoredTaken(m, rows, refs, targets, r, t);
    forall r': ProductId ensures !GroupsOffer(v.groups, r', t) && !Shows(v.confirmed, HighConfidence, r', t) {
      TakenIsNotSuggested(m, rows, refs, targets, r', t);
    }
    HighSource(raw, x, |raw|);
    EntryAlone(st.entries, h.high, k, t);
    OutsideTargetOnly(m, rows, refs, targets, t);
  }

  /** A confirmation that was saved appears in the next comparison of its categories, once,
      as confirmed, and its target and its reference appear nowhere else. */
  lemma {:induction false} ConfirmedIsShownOnce(m: Matcher, c: Catalog, tb: Table, refs: seq<Product>, targets: seq<Product>,
                                                r: ProductId, t: ProductId, confidence: Option<real>, comment: Option<string>,
                                                categories: Option<seq<CategoryId>>) returns (k: nat)
    requires MatcherOk(m) && TableOk(tb) && DistinctIds(refs) && r in Ids(refs) && t in Ids(targets)
    requires Handle(c, tb, MatchDecision(r, t, CONFIRMED, confidence, comment, categories)).1 == Saved
    ensures var next := Handle(c, tb, MatchDecision(r, t, CONFIRMED, confidence, comment, categories)).0;
            var v := Compare(m, next.rows, refs, targets);
            OnlyPlace(v, k, r, t) && Places(v, r) == 0
  {
    hide MatcherOk, Compare, Upserted, UniquePairs, IdsOk, Exclusive, DecisionIs;
    var q := MatchDecision(r, t, CONFIRMED, confidence, comment, categories);
    var next := Handle(c, tb, q).0;
    RequestKeeps(c, tb, q);
    LatestDecisionWins(c, tb, r, t, CONFIRMED, confidence, comment, r, t, CONFIRMED);
    k := ConfirmedHasOnePlace(m, next.rows, refs, targets, r, t);
    ReferencePartition(m, next.rows, refs, targets, r);
    var v := Compare(m, next.rows, refs, targets);
    StoredEntryRef(v.confirmed, k);
  }

  lemma {:induction false} StoredEntryRef(entries: seq<Entry>, k: nat)
    requires k < |entries| && entries[k].source == Stored
    ensures HasRef(BySource(entries, Stored), entries[k].ref)
  {
    var rest := BySource(entries[1..], Stored);
    if k == 0 {
      assert BySource(entries, Stored)[0] == entries[0];
    } else {
      StoredEntryRef(entries[1..], k - 1);
      var i :| 0 <= i < |rest| && rest[i].ref == entries[k].ref;
      var all := BySource(entries, Stored);
      assert all[i + |all| - |rest|] == rest[i];
    }
  }

  /** A rejection that was saved keeps its pair out of every section of the next comparison. */
  lemma {:induction false} RejectedIsNotShown(m: Matcher, c: Catalog, tb: Table, refs: seq<Product>, targets: seq<Product>,
                                              r: ProductId, t: ProductId, confidence: Option<real>, comment: Option<string>,
                                              categories: Option<seq<CategoryId>>)
    requires MatcherOk(m) && TableOk(tb)
    requires Handle(c, tb, MatchDecision(r, t, REJECTED, confidence, comment, categories)).1 == Saved
    ensures var next := Handle(c, tb, MatchDecision(r, t, REJECTED, confidence, comment, categories)).0;
            !ShowsPair(Compare(m, next.rows, refs, targets), r, t)
  {
    hide MatcherOk, Compare, Upserted, UniquePairs, IdsOk, Exclusive;
    var q := MatchDecision(r, t, REJECTED, confidence, comment, categories);
    var next := Handle(c, tb, q).0;
    RequestKeeps(c, tb, q);
    LatestDecisionWins(c, tb, r, t, REJECTED, confidence, comment, r, t, REJECTED);
    NothingRejectedIsShown(m, next.rows, refs, targets, r, t);
  }
}
