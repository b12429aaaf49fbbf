/** The sections of a comparison in columns: what each entry, group and candidate says, and in which
    order they come. */
module SectionLaws {
  import opened Basics
  import opened PairScores
  import opened Matching
  import opened Mappings
  import opened Comparisons
  import opened Partition
  import opened Accounting

  // ----- percentages

  /** The integer next to a number; of two equally near ones the even one. */
  predicate RoundsTo(x: real, n: int) {
    && -0.5 <= x - n as real <= 0.5
    && (x - n as real == 0.5 || x - n as real == -0.5 ==> n % 2 == 0)
  }

  /** The percentage of a score, which is rounded and kept between 0 and 100. */
  ghost predicate PercentIs(score: real, p: int) {
    exists n :: RoundsTo(score, n) && p == if n < 0 then 0 else if n > 100 then 100 else n
  }

  /** The percentage of a stored confidence; a missing one, and 0, count as full. */
  predicate StoredPercentIs(confidence: Option<real>, p: int) {
    if confidence == None || confidence == Some(0.0) then p == 100 else RoundsTo(confidence.value * 100.0, p)
  }

  lemma RoundIsExact(x: real)
    ensures RoundsTo(x, Round(x)) && forall n: int :: RoundsTo(x, n) ==> n == Round(x)
  {
  }

  lemma PercentsAreExact(score: real, confidence: Option<real>)
    ensures PercentIs(score, Percent(score)) && StoredPercentIs(confidence, StoredPercent(confidence))
  {
    RoundIsExact(score);
    RoundIsExact(100.0);
    if confidence.Some? { RoundIsExact(confidence.value * 100.0); }
    hide Round, RoundsTo;
  }

  // ----- candidates

  predicate Kept(s: Scored, ref: ProductId, x: Context) {
    s.target < |x.targets| && (ref, x.targets[s.target].id) !in x.rejected
  }

  ghost predicate CandidateIs(s: Scored, x: Context, c: Candidate) {
    && s.target < |x.targets| && c.target == x.targets[s.target].id && PercentIs(s.score, c.percent)
    && (c.canAccept <==> c.target !in x.confirmedAnywhere)
  }

  /** Places in ascending order, exactly those below n that are good. */
  ghost predicate PlacesOf(at: seq<nat>, n: nat, good: set<nat>) {
    && (forall k :: 0 <= k < |at| ==> at[k] < n && at[k] in good)
    && (forall i, k :: 0 <= i < k < |at| ==> at[i] < at[k])
    && (forall g: nat :: g in good && g < n ==> g in at)
  }

  lemma PlacesGrow(at: seq<nat>, n: nat, good: set<nat>)
    requires PlacesOf(at, n, good)
    ensures PlacesOf(if n in good then at + [n] else at, n + 1, good)
  {
    if n in good {
      assert (at + [n])[|at|] == n && forall g :: g in at ==> g in at + [n];
    }
  }

  lemma NoPlaces(good: set<nat>)
    ensures PlacesOf([], 0, good)
  {
  }

  ghost function KeptPlaces(raw: seq<Scored>, ref: ProductId, x: Context): set<nat> {
    set k: nat | k < |raw| && Kept(raw[k], ref, x)
  }

  ghost predicate AllAre(raw: seq<Scored>, at: seq<nat>, x: Context, cands: seq<Candidate>) {
    |cands| == |at| && forall k :: 0 <= k < |at| ==> at[k] < |raw| && CandidateIs(raw[at[k]], x, cands[k])
  }

  lemma AllAreMore(raw: seq<Scored>, at: seq<nat>, x: Context, cands: seq<Candidate>, n: nat, c: Candidate)
    requires AllAre(raw, at, x, cands) && n < |raw| && CandidateIs(raw[n], x, c)
    ensures AllAre(raw, at + [n], x, cands + [c])
  {
  }

  lemma NoneAre(raw: seq<Scored>, x: Context)
    ensures AllAre(raw, [], x, [])
  {
  }

  lemma {:induction false} CandidatesBuilt(raw: seq<Scored>, ref: ProductId, x: Context, n: nat) returns (at: seq<nat>)
    requires n <= |raw| && forall k :: 0 <= k < |raw| ==> raw[k].target < |x.targets|
    ensures AllAre(raw, at, x, BuildCandidates(raw, ref, x, n)) && PlacesOf(at, n, KeptPlaces(raw, ref, x))
  {
    hide AllAre, PlacesOf, PercentIs, Percent;
    at := [];
    if n > 0 {
      at := CandidatesBuilt(raw, ref, x, n - 1);
      PlacesGrow(at, n - 1, KeptPlaces(raw, ref, x));
      if Kept(raw[n - 1], ref, x) {
        PercentsAreExact(raw[n - 1].score, None);
        var c := Candidate(x.targets[raw[n - 1].target].id, Percent(raw[n - 1].score),
                           x.targets[raw[n - 1].target].id !in x.confirmedAnywhere);
        AllAreMore(raw, at, x, BuildCandidates(raw, ref, x, n - 1), n - 1, c);
        at := at + [n - 1];
      } else {
        assert BuildCandidates(raw, ref, x, n - 1) + [] == BuildCandidates(raw, ref, x, n - 1);
      }
    } else {
      NoneAre(raw, x);
      NoPlaces(KeptPlaces(raw, ref, x));
    }
  }

  /** The candidates of a group: of what the matcher lists, in its order, the pairs that are not
      rejected, each with its percentage, acceptable unless the target is confirmed somewhere. */
  ghost predicate CandidatesAre(raw: seq<Scored>, ref: ProductId, x: Context, cands: seq<Candidate>) {
    exists at: seq<nat> :: AllAre(raw, at, x, cands) && PlacesOf(at, |raw|, KeptPlaces(raw, ref, x))
  }

  // ----- rows and sections

  predicate RefIs(row: Row, x: Context, ref: ProductId) {
    row.main.Some? && row.main.value < |x.refs| && x.refs[row.main.value].id == ref
  }

  predicate MatchRejected(row: Row, x: Context)
    requires RowFits(row, x) && row.main.Some? && row.verdict == Matched
  {
    (x.refs[row.main.value].id, x.targets[row.other.value].id) in x.rejected
  }

  /** The section that a row belongs to: a match scored above 84.5 is confirmed, another match and an
      ambiguous row make a group, a rejected match and a row without a match leave the reference alone. */
  datatype Section = Confirmed | Grouped | Alone | Nowhere

  function SectionOf(row: Row, x: Context): Section
    requires RowFits(row, x)
  {
    if row.main.None? then Nowhere
    else if row.verdict == Ambiguous then Grouped
    else if row.verdict == NoMatch || MatchRejected(row, x) then Alone
    else if row.score > 84.5 then Confirmed else Grouped
  }

  ghost predicate EntryIs(row: Row, x: Context, e: Entry) {
    && RefIs(row, x, e.ref) && row.other.Some? && row.other.value < |x.targets|
    && e.target == x.targets[row.other.value].id && PercentIs(row.score, e.percent) && e.source == HighConfidence
  }

  ghost predicate GroupIs(row: Row, x: Context, g: Group) {
    && RefIs(row, x, g.ref)
    && (row.verdict == Matched ==> row.other.Some?)
    && CandidatesAre(if row.verdict == Matched then [Scored(row.score, row.other.value)] else row.candidates, g.ref, x, g.candidates)
  }

  /** What one row adds to the sections. */
  ghost predicate Adds(row: Row, x: Context, c: Classified, next: Classified)
    requires RowFits(row, x)
  {
    match SectionOf(row, x)
    case Confirmed =>
      next.groups == c.groups && next.referenceOnly == c.referenceOnly
      && exists e :: EntryIs(row, x, e) && next.high == c.high + [e]
    case Grouped =>
      next.high == c.high && next.referenceOnly == c.referenceOnly
      && exists g :: GroupIs(row, x, g) && next.groups == c.groups + [g]
    case Alone =>
      next.high == c.high && next.groups == c.groups
      && exists r: ProductId :: RefIs(row, x, r) && next.referenceOnly == c.referenceOnly + [r]
    case Nowhere => next.high == c.high && next.groups == c.groups && next.referenceOnly == c.referenceOnly
  }

  lemma {:induction false} ClassifyAddsExactly(c: Classified, row: Row, x: Context)
    requires RowFits(row, x)
    ensures Adds(row, x, c, Classify(c, row, x))
  {
    if row.main.Some? && row.verdict != NoMatch {
      hide BuildCandidates, RawIds, Percent, CandidatesAre, PercentIs;
      var ref := x.refs[row.main.value].id;
      HighConfidenceLine(row.score);
      PercentsAreExact(row.score, None);
      var raw := if row.verdict == Matched then [Scored(row.score, row.other.value)] else row.candidates;
      GroupBuilt(raw, ref, x);
      if SectionOf(row, x) == Confirmed {
        assert EntryIs(row, x, Entry(ref, x.targets[row.other.value].id, Percent(row.score), HighConfidence));
      } else if SectionOf(row, x) == Grouped {
        assert GroupIs(row, x, Group(ref, BuildCandidates(raw, ref, x, |raw|)));
      } else {
        assert RefIs(row, x, ref);
      }
    } else if row.main.Some? {
      assert RefIs(row, x, x.refs[row.main.value].id);
    }
  }

  lemma {:induction false} GroupBuilt(raw: seq<Scored>, ref: ProductId, x: Context)
    requires forall k :: 0 <= k < |raw| ==> raw[k].target < |x.targets|
    ensures CandidatesAre(raw, ref, x, BuildCandidates(raw, ref, x, |raw|))
  {
    var at := CandidatesBuilt(raw, ref, x, |raw|);
  }

  // ----- all rows

  ghost function RowsIn(rows: seq<Row>, x: Context, s: Section): set<nat>
    requires RowsOk(rows, x)
  {
    set k: nat | k < |rows| && SectionOf(rows[k], x) == s
  }

  ghost predicate EntriesAt(rows: seq<Row>, x: Context, at: seq<nat>, high: seq<Entry>) {
    |high| == |at| && forall k :: 0 <= k < |at| ==> at[k] < |rows| && EntryIs(rows[at[k]], x, high[k])
  }

  ghost predicate GroupsAt(rows: seq<Row>, x: Context, at: seq<nat>, groups: seq<Group>) {
    |groups| == |at| && forall k :: 0 <= k < |at| ==> at[k] < |rows| && GroupIs(rows[at[k]], x, groups[k])
  }

  ghost predicate AloneAt(rows: seq<Row>, x: Context, at: seq<nat>, refs: seq<ProductId>) {
    |refs| == |at| && forall k :: 0 <= k < |at| ==> at[k] < |rows| && RefIs(rows[at[k]], x, refs[k])
  }

  /** Where the first n rows have put what: three ascending lists of places, one for each section. */
  datatype Layout = Layout(high: seq<nat>, groups: seq<nat>, alone: seq<nat>)

  ghost predicate LaidOut(rows: seq<Row>, x: Context, n: nat, c: Classified, l: Layout)
    requires RowsOk(rows, x)
  {
    && EntriesAt(rows, x, l.high, c.high) && PlacesOf(l.high, n, RowsIn(rows, x, Confirmed))
    && GroupsAt(rows, x, l.groups, c.groups) && PlacesOf(l.groups, n, RowsIn(rows, x, Grouped))
    && AloneAt(rows, x, l.alone, c.referenceOnly) && PlacesOf(l.alone, n, RowsIn(rows, x, Alone))
  }

  lemma NothingLaidOut(rows: seq<Row>, x: Context)
    requires RowsOk(rows, x)
    ensures LaidOut(rows, x, 0, UNCLASSIFIED, Layout([], [], []))
  {
    hide EntryIs, GroupIs, RefIs, SectionOf, RowFits;
  }

  function With(at: seq<nat>, n: nat, more: bool): seq<nat> {
    if more then at + [n] else at
  }

  lemma {:induction false} LayoutGrows(rows: seq<Row>, x: Context, n: nat, c: Classified, next: Classified, l: Layout)
    requires RowsOk(rows, x) && n < |rows| && LaidOut(rows, x, n, c, l) && Adds(rows[n], x, c, next)
    ensures var s := SectionOf(rows[n], x);
            LaidOut(rows, x, n + 1, next,
                    Layout(With(l.high, n, s == Confirmed), With(l.groups, n, s == Grouped), With(l.alone, n, s == Alone)))
  {
    var s := SectionOf(rows[n], x);
    PlacesGrow(l.high, n, RowsIn(rows, x, Confirmed));
    PlacesGrow(l.groups, n, RowsIn(rows, x, Grouped));
    PlacesGrow(l.alone, n, RowsIn(rows, x, Alone));
    match s {
      case Confirmed => EntryMore(rows, x, l.high, c.high, n, next.high);
      case Grouped => GroupMore(rows, x, l.groups, c.groups, n, next.groups);
      case Alone => AloneMore(rows, x, l.alone, c.referenceOnly, n, next.referenceOnly);
      case Nowhere =>
    }
    hide EntryIs, GroupIs, RefIs, SectionOf, RowFits, PlacesOf, EntriesAt, GroupsAt, AloneAt;
  }

  lemma EntryMore(rows: seq<Row>, x: Context, at: seq<nat>, high: seq<Entry>, n: nat, next: seq<Entry>)
    requires EntriesAt(rows, x, at, high) && n < |rows| && exists e :: EntryIs(rows[n], x, e) && next == high + [e]
    ensures EntriesAt(rows, x, at + [n], next)
  {
    hide EntryIs;
  }

  lemma GroupMore(rows: seq<Row>, x: Context, at: seq<nat>, groups: seq<Group>, n: nat, next: seq<Group>)
    requires GroupsAt(rows, x, at, groups) && n < |rows| && exists g :: GroupIs(rows[n], x, g) && next == groups + [g]
    ensures GroupsAt(rows, x, at + [n], next)
  {
    hide GroupIs;
  }

  lemma AloneMore(rows: seq<Row>, x: Context, at: seq<nat>, refs: seq<ProductId>, n: nat, next: seq<ProductId>)
    requires AloneAt(rows, x, at, refs) && n < |rows| && exists r: ProductId :: RefIs(rows[n], x, r) && next == refs + [r]
    ensures AloneAt(rows, x, at + [n], next)
  {
    hide RefIs;
  }

  lemma {:induction false} RowsLaidOut(rows: seq<Row>, x: Context, n: nat) returns (l: Layout)
    requires n <= |rows| && RowsOk(rows, x)
    ensures LaidOut(rows, x, n, ClassifyAll(rows, x, n), l)
  {
    hide LaidOut, Adds, Classify, RowFits, SectionOf;
    if n == 0 {
      l := Layout([], [], []);
      NothingLaidOut(rows, x);
    } else {
      var before := RowsLaidOut(rows, x, n - 1);
      var c := ClassifyAll(rows, x, n - 1);
      ClassifyAddsExactly(c, rows[n - 1], x);
      LayoutGrows(rows, x, n - 1, c, Classify(c, rows[n - 1], x), before);
      var s := SectionOf(rows[n - 1], x);
      l := Layout(With(before.high, n - 1, s == Confirmed), With(before.groups, n - 1, s == Grouped),
                  With(before.alone, n - 1, s == Alone));
    }
  }

  /** The heuristic sections of a comparison, in full: the rows of the matcher go, in their order and
      each to its section, into the confirmed matches after the stored ones, into the groups, and into
      the references without a match. */
  lemma {:induction false} SectionsFollowRows(m: Matcher, rows: seq<Mapping>, refs: seq<Product>, targets: seq<Product>)
    returns (l: Layout, stored: nat)
    requires MatcherOk(m)
    ensures var (c, x) := (Compare(m, rows, refs, targets), ContextOf(rows, refs, targets));
            var raw := RawRows(m, x);
            && stored <= |c.confirmed|
            && (forall k :: 0 <= k < stored ==> c.confirmed[k].source == Stored)
            && EntriesAt(raw, x, l.high, c.confirmed[stored..]) && PlacesOf(l.high, |raw|, RowsIn(raw, x, Confirmed))
            && GroupsAt(raw, x, l.groups, c.groups) && PlacesOf(l.groups, |raw|, RowsIn(raw, x, Grouped))
            && AloneAt(raw, x, l.alone, c.referenceOnly) && PlacesOf(l.alone, |raw|, RowsIn(raw, x, Alone))
  {
    var x := ContextOf(rows, refs, targets);
    var raw := RawRows(m, x);
    l := RowsLaidOut(raw, x, |raw|);
    var (st, h) := (StoredPart(rows, refs, targets), HeuristicPart(m, x));
    stored := |st.entries|;
    hide StoredFor, ClassifyAll, MatchRows, MatcherOk, EntriesAt, GroupsAt, AloneAt, PlacesOf, TargetOnly, Ids, RowsIn, ContextOf;
    StoredForOk(refs, rows, Ids(targets), |refs|);
    assert forall k :: 0 <= k < |st.entries| ==> StoredEntryOk(st.entries[k], Ids(refs), rows, Ids(targets));
    assert (st.entries + h.high)[|st.entries|..] == h.high;
  }

  // ----- what the heuristic part works on

  ghost predicate ProductsAt(all: seq<Product>, at: seq<nat>, some: seq<Product>) {
    |some| == |at| && forall k :: 0 <= k < |at| ==> at[k] < |all| && some[k] == all[at[k]]
  }

  lemma ProductMore(all: seq<Product>, at: seq<nat>, some: seq<Product>, n: nat)
    requires ProductsAt(all, at, some) && n < |all|
    ensures ProductsAt(all, at + [n], some + [all[n]])
  {
  }

  lemma NoProducts(all: seq<Product>)
    ensures ProductsAt(all, [], [])
  {
  }

  ghost function PlacesOutside(products: seq<Product>, gone: set<ProductId>): set<nat> {
    set k: nat | k < |products| && products[k].id !in gone
  }

  lemma {:induction false} RemainingLast(products: seq<Product>, gone: set<ProductId>, p: Product)
    ensures Remaining(products + [p], gone) == Remaining(products, gone) + if p.id in gone then [] else [p]
  {
    if products == [] {
      assert [p][1..] == [];
    } else {
      RemainingLast(products[1..], gone, p);
      assert (products + [p])[1..] == products[1..] + [p];
      var first := if products[0].id in gone then [] else [products[0]];
      assert Remaining(products + [p], gone) == first + Remaining(products[1..] + [p], gone);
      assert Remaining(products, gone) == first + Remaining(products[1..], gone);
      hide Remaining;
      ConcatAssociates(first, Remaining(products[1..], gone), if p.id in gone then [] else [p]);
    }
  }

  lemma {:induction false} RemainingPlaces(products: seq<Product>, gone: set<ProductId>, n: nat) returns (at: seq<nat>)
    requires n <= |products|
    ensures ProductsAt(products, at, Remaining(products[..n], gone)) && PlacesOf(at, n, PlacesOutside(products, gone))
  {
    hide ProductsAt, PlacesOf;
    at := [];
    if n > 0 {
      at := RemainingPlaces(products, gone, n - 1);
      PlacesGrow(at, n - 1, PlacesOutside(products, gone));
      assert products[..n] == products[..n - 1] + [products[n - 1]];
      RemainingLast(products[..n - 1], gone, products[n - 1]);
      hide Remaining;
      ProductMore(products, at, Remaining(products[..n - 1], gone), n - 1);
      if products[n - 1].id !in gone {
        at := at + [n - 1];
      } else {
        assert Remaining(products[..n - 1], gone) + [] == Remaining(products[..n - 1], gone);
      }
    } else {
      NoProducts(products);
      NoPlaces(PlacesOutside(products, gone));
    }
  }

  /** The matcher is given the products that no stored confirmation has taken, in their order; a pair
      counts as rejected, and a target as confirmed, as the mapping table says for the references and
      targets compared. */
  lemma {:induction false} ContextIsExact(rows: seq<Mapping>, refs: seq<Product>, targets: seq<Product>, r: ProductId, t: ProductId)
    returns (refAt: seq<nat>, targetAt: seq<nat>)
    ensures var (x, st) := (ContextOf(rows, refs, targets), StoredPart(rows, refs, targets).entries);
            && ProductsAt(refs, refAt, x.refs) && ProductsAt(targets, targetAt, x.targets)
            && PlacesOf(refAt, |refs|, set k: nat | k < |refs| && !HasRef(st, refs[k].id))
            && PlacesOf(targetAt, |targets|, set k: nat | k < |targets| && !HasTarget(st, targets[k].id))
            && ((r, t) in x.rejected <==>
                  && (exists k :: 0 <= k < |refs| && refs[k].id == r)
                  && exists k :: 0 <= k < |rows| && rows[k].ref == r && rows[k].target == t && rows[k].status == Some("rejected"))
            && (t in x.confirmedAnywhere <==>
                  && (exists k :: 0 <= k < |targets| && targets[k].id == t)
                  && exists k :: 0 <= k < |rows| && rows[k].target == t && rows[k].status == Some("confirmed"))
  {
    var st := StoredPart(rows, refs, targets);
    StoredForOk(refs, rows, Ids(targets), |refs|);
    refAt := RemainingPlaces(refs, st.refIds, |refs|);
    targetAt := RemainingPlaces(targets, st.targetIds, |targets|);
    assert refs[..|refs|] == refs && targets[..|targets|] == targets;
    assert PlacesOutside(refs, st.refIds) == set k: nat | k < |refs| && !HasRef(st.entries, refs[k].id);
    assert PlacesOutside(targets, st.targetIds) == set k: nat | k < |targets| && !HasTarget(st.entries, targets[k].id);
    hide StoredFor, Remaining, PlacesOf, HasRef, HasTarget, ProductsAt;
  }

  // ----- the stored confirmations

  /** A place in the two loops: a reference and a row of the table. */
  type Place = (nat, nat)

  predicate Sooner(a: Place, b: Place) {
    a.0 < b.0 || (a.0 == b.0 && a.1 < b.1)
  }

  ghost predicate StoredFrom(refs: seq<Product>, rows: seq<Mapping>, p: Place, e: Entry) {
    && p.0 < |refs| && p.1 < |rows| && e.ref == refs[p.0].id && e.source == Stored
    && rows[p.1].ref == e.ref && rows[p.1].target == e.target && rows[p.1].status == Some("confirmed")
    && StoredPercentIs(rows[p.1].confidence, e.percent)
  }

  ghost predicate StoredInOrder(refs: seq<Product>, rows: seq<Mapping>, at: seq<Place>, entries: seq<Entry>, end: Place) {
    && |at| == |entries|
    && (forall k :: 0 <= k < |at| ==> StoredFrom(refs, rows, at[k], entries[k]) && Sooner(at[k], end))
    && (forall i, k :: 0 <= i < k < |at| ==> Sooner(at[i], at[k]))
  }

  lemma {:induction false} StoredRowsInOrder(refs: seq<Product>, rows: seq<Mapping>, scope: set<ProductId>, i: nat, k: nat,
                                             st: StoredMatches, before: seq<Place>) returns (at: seq<Place>)
    requires i < |refs| && k <= |rows| && StoredInOrder(refs, rows, before, st.entries, (i, 0))
    ensures StoredInOrder(refs, rows, at, StoredRows(st, refs[i].id, rows, scope, k).entries, (i, k))
  {
    at := before;
    if k > 0 {
      hide StoredPercent, StoredPercentIs;
      at := StoredRowsInOrder(refs, rows, scope, i, k - 1, st, before);
      PercentsAreExact(0.0, rows[k - 1].confidence);
      var (all, next) := (StoredRows(st, refs[i].id, rows, scope, k - 1), StoredRows(st, refs[i].id, rows, scope, k));
      if |next.entries| > |all.entries| {
        at := at + [(i, k - 1)];
      }
    }
  }

  lemma {:induction false} StoredForInOrder(refs: seq<Product>, rows: seq<Mapping>, scope: set<ProductId>, n: nat) returns (at: seq<Place>)
    requires n <= |refs|
    ensures StoredInOrder(refs, rows, at, StoredFor(refs, rows, scope, n).entries, (n, 0))
  {
    at := [];
    if n > 0 {
      hide StoredRows, StoredFrom;
      var before := StoredForInOrder(refs, rows, scope, n - 1);
      at := StoredRowsInOrder(refs, rows, scope, n - 1, |rows|, StoredFor(refs, rows, scope, n - 1), before);
    }
  }

  /** The stored entries come in the order of the references and, for each, of its rows in the table,
      each with the percentage of its own row. StoredIsExact says which they are. */
  lemma {:induction false} StoredComeInOrder(rows: seq<Mapping>, refs: seq<Product>, targets: seq<Product>) returns (at: seq<Place>)
    ensures StoredInOrder(refs, rows, at, StoredPart(rows, refs, targets).entries, (|refs|, 0))
  {
    at := StoredForInOrder(refs, rows, Ids(targets), |refs|);
  }

  // ----- the targets that nothing shows

  ghost predicate IdsAt(targets: seq<Product>, at: seq<nat>, ids: seq<ProductId>) {
    |ids| == |at| && forall k :: 0 <= k < |at| ==> at[k] < |targets| && ids[k] == targets[at[k]].id
  }

  lemma IdMore(targets: seq<Product>, at: seq<nat>, ids: seq<ProductId>, n: nat)
    requires n < |targets|
    ensures IdsAt(targets, at, ids) ==> IdsAt(targets, at + [n], ids + [targets[n].id])
  {
  }

  lemma NoIds(targets: seq<Product>)
    ensures IdsAt(targets, [], [])
  {
  }

  lemma {:induction false} TargetsFrom(targets: seq<Product>, shown: set<ProductId>, n: nat) returns (at: seq<nat>)
    requires n <= |targets|
    ensures IdsAt(targets, at, TargetOnly(targets, shown, n)) && PlacesOf(at, n, PlacesOutside(targets, shown))
  {
    hide PlacesOf, IdsAt;
    at := [];
    if n == 0 {
      NoIds(targets);
      NoPlaces(PlacesOutside(targets, shown));
    } else {
      at := TargetsFrom(targets, shown, n - 1);
      PlacesGrow(at, n - 1, PlacesOutside(targets, shown));
      IdMore(targets, at, TargetOnly(targets, shown, n - 1), n - 1);
      if targets[n - 1].id !in shown {
        at := at + [n - 1];
      } else {
        assert TargetOnly(targets, shown, n - 1) + [] == TargetOnly(targets, shown, n - 1);
      }
    }
  }

  /** target_only lists its targets in their order, each as often as the target list names it.
      TargetAccounting says which they are. */
  lemma {:induction false} TargetsComeInOrder(m: Matcher, rows: seq<Mapping>, refs: seq<Product>, targets: seq<Product>)
    returns (at: seq<nat>)
    requires MatcherOk(m)
    ensures var ids := Compare(m, rows, refs, targets).targetOnly;
            IdsAt(targets, at, ids) && PlacesOf(at, |targets|, set k: nat | k < |targets| && targets[k].id in ids)
  {
    var c := HeuristicPart(m, ContextOf(rows, refs, targets));
    var shown := StoredPart(rows, refs, targets).targetIds + c.highIds + c.candidateIds;
    hide MatcherOk, HeuristicPart, StoredPart, ContextOf;
    at := TargetsFrom(targets, shown, |targets|);
    var ids := Compare(m, rows, refs, targets).targetOnly;
    forall k: nat | k < |targets| ensures targets[k].id in ids <==> targets[k].id !in shown {
      TargetOnlyMembers(targets, shown, |targets|, targets[k].id);
    }
    assert PlacesOutside(targets, shown) == set k: nat | k < |targets| && targets[k].id in ids;
  }
}
