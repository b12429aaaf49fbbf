/** Where every reference product and every target of a comparison ends up. */
module Partition {
  import opened Basics
  import opened PairScores
  import opened Matching
  import opened Mappings
  import opened Comparisons
  import Selection

  // ----- stored confirmations

  ghost predicate Backed(e: Entry, rows: seq<Mapping>) {
    exists k :: 0 <= k < |rows| && IsPair(rows[k], e.ref, e.target) && rows[k].status == CONFIRMED
                && e.percent == StoredPercent(rows[k].confidence)
  }

  predicate HasTarget(entries: seq<Entry>, t: ProductId) {
    exists k :: 0 <= k < |entries| && entries[k].target == t
  }

  predicate HasRef(entries: seq<Entry>, r: ProductId) {
    exists k :: 0 <= k < |entries| && entries[k].ref == r
  }

  predicate Shows(entries: seq<Entry>, source: Source, r: ProductId, t: ProductId) {
    exists k :: 0 <= k < |entries| && entries[k].source == source && entries[k].ref == r && entries[k].target == t
  }

  ghost predicate DistinctTargets(entries: seq<Entry>) {
    forall i, k :: 0 <= i < k < |entries| ==> entries[i].target != entries[k].target
  }

  ghost predicate StoredOk(st: StoredMatches, refs: set<ProductId>, rows: seq<Mapping>, scope: set<ProductId>) {
    && DistinctTargets(st.entries)
    && (forall k :: 0 <= k < |st.entries| ==> StoredEntryOk(st.entries[k], refs, rows, scope))
    && (forall t :: t in st.targetIds <==> HasTarget(st.entries, t))
    && (forall r :: r in st.refIds <==> HasRef(st.entries, r))
  }

  ghost predicate StoredEntryOk(e: Entry, refs: set<ProductId>, rows: seq<Mapping>, scope: set<ProductId>) {
    e.source == Stored && e.ref in refs && e.target in scope && Backed(e, rows)
  }

  lemma {:induction false} AddStoredOk(st: StoredMatches, ref: ProductId, k: nat, refs: set<ProductId>,
                                       rows: seq<Mapping>, scope: set<ProductId>)
    requires k < |rows| && ref in refs && StoredOk(st, refs, rows, scope)
    ensures StoredOk(AddStored(st, ref, rows[k], scope), refs, rows, scope)
  {
    var (row, next) := (rows[k], AddStored(st, ref, rows[k], scope));
    if next != st {
      var (n, last) := (|st.entries|, next.entries[|st.entries|]);
      assert IsPair(row, last.ref, last.target);
      assert Backed(last, rows);
      forall t ensures t in next.targetIds <==> HasTarget(next.entries, t) {
        HasTargetGrows(st.entries, last, t);
      }
      forall r ensures r in next.refIds <==> HasRef(next.entries, r) {
        HasRefGrows(st.entries, last, r);
      }
      forall i | 0 <= i < n ensures st.entries[i].target != last.target {
        assert !HasTarget(st.entries, last.target);
      }
    }
  }

  lemma HasTargetGrows(entries: seq<Entry>, e: Entry, t: ProductId)
    ensures HasTarget(entries + [e], t) <==> HasTarget(entries, t) || e.target == t
  {
    if k :| 0 <= k < |entries| && entries[k].target == t {
      assert (entries + [e])[k].target == t;
    }
    assert (entries + [e])[|entries|] == e;
  }

  lemma HasRefGrows(entries: seq<Entry>, e: Entry, r: ProductId)
    ensures HasRef(entries + [e], r) <==> HasRef(entries, r) || e.ref == r
  {
    if k :| 0 <= k < |entries| && entries[k].ref == r {
      assert (entries + [e])[k].ref == r;
    }
    assert (entries + [e])[|entries|] == e;
  }

  lemma {:induction false} StoredRowsOk(st: StoredMatches, ref: ProductId, refs: set<ProductId>, rows: seq<Mapping>,
                                        scope: set<ProductId>, k: nat)
    requires k <= |rows| && ref in refs && StoredOk(st, refs, rows, scope)
    ensures var next := StoredRows(st, ref, rows, scope, k);
            && StoredOk(next, refs, rows, scope) && st.targetIds <= next.targetIds
            && forall j :: 0 <= j < k && rows[j].ref == ref && rows[j].status == CONFIRMED && rows[j].target in scope
                 ==> rows[j].target in next.targetIds
  {
    hide StoredOk;
    if k > 0 {
      StoredRowsOk(st, ref, refs, rows, scope, k - 1);
      AddStoredOk(StoredRows(st, ref, rows, scope, k - 1), ref, k - 1, refs, rows, scope);
    }
  }

  lemma {:induction false} StoredForOk(refs: seq<Product>, rows: seq<Mapping>, scope: set<ProductId>, n: nat)
    requires n <= |refs|
    ensures var st := StoredFor(refs, rows, scope, n);
            && StoredOk(st, Ids(refs), rows, scope)
            && forall i, j | 0 <= i < n && 0 <= j < |rows| && rows[j].ref == refs[i].id && rows[j].status == CONFIRMED ::
                 rows[j].target in scope ==> rows[j].target in st.targetIds
  {
    if n > 0 {
      StoredForOk(refs, rows, scope, n - 1);
      StoredRowsOk(StoredFor(refs, rows, scope, n - 1), refs[n - 1].id, Ids(refs), rows, scope, |rows|);
    }
  }

  lemma ShowsGrows(entries: seq<Entry>, e: Entry, s: Source, r: ProductId, t: ProductId)
    ensures Shows(entries + [e], s, r, t)
            <==> Shows(entries, s, r, t) || (e.source == s && e.ref == r && e.target == t)
  {
    if k :| 0 <= k < |entries| && entries[k].source == s && entries[k].ref == r && entries[k].target == t {
      assert (entries + [e])[k] == entries[k];
    }
    assert (entries + [e])[|entries|] == e;
  }

  predicate Confirms(row: Mapping, r: ProductId, t: ProductId) {
    IsPair(row, r, t) && row.status == CONFIRMED
  }

  /** The rows of one reference add its confirmed targets in scope that are still free. */
  lemma {:induction false} StoredRowsShow(st: StoredMatches, ref: ProductId, rows: seq<Mapping>, scope: set<ProductId>, k: nat,
                                          r: ProductId, t: ProductId)
    requires k <= |rows|
    ensures var (next, own) := (StoredRows(st, ref, rows, scope, k), exists j :: 0 <= j < k && Confirms(rows[j], ref, t));
            && (t in next.targetIds <==> t in st.targetIds || (t in scope && own))
            && (Shows(next.entries, Stored, r, t)
                <==> Shows(st.entries, Stored, r, t) || (r == ref && t in scope && t !in st.targetIds && own))
  {
    hide Shows;
    if k > 0 {
      StoredRowsShow(st, ref, rows, scope, k - 1, r, t);
      var (before, row) := (StoredRows(st, ref, rows, scope, k - 1), rows[k - 1]);
      ShowsGrows(before.entries, Entry(ref, row.target, StoredPercent(row.confidence), Stored), Stored, r, t);
      hide StoredPercent;
    }
  }

  /** r is the first of the first n references for which the target is confirmed. */
  ghost predicate FirstClaim(rows: seq<Mapping>, refs: seq<Product>, n: nat, r: ProductId, t: ProductId)
    requires n <= |refs|
  {
    exists i :: 0 <= i < n && refs[i].id == r && DecisionIs(rows, r, t, CONFIRMED)
                && forall j :: 0 <= j < i ==> !DecisionIs(rows, refs[j].id, t, CONFIRMED)
  }

  lemma FirstClaimGrows(rows: seq<Mapping>, refs: seq<Product>, n: nat, r: ProductId, t: ProductId)
    requires 0 < n <= |refs|
    ensures FirstClaim(rows, refs, n, r, t)
            <==> || FirstClaim(rows, refs, n - 1, r, t)
                 || (refs[n - 1].id == r && DecisionIs(rows, r, t, CONFIRMED)
                     && forall j :: 0 <= j < n - 1 ==> !DecisionIs(rows, refs[j].id, t, CONFIRMED))
  {
    hide DecisionIs;
  }

  lemma {:induction false} StoredForShow(refs: seq<Product>, rows: seq<Mapping>, scope: set<ProductId>, n: nat, r: ProductId, t: ProductId)
    requires n <= |refs|
    ensures var st := StoredFor(refs, rows, scope, n);
            && (t in st.targetIds <==> t in scope && exists i :: 0 <= i < n && DecisionIs(rows, refs[i].id, t, CONFIRMED))
            && (Shows(st.entries, Stored, r, t) <==> t in scope && FirstClaim(rows, refs, n, r, t))
  {
    hide Shows, FirstClaim;
    if n > 0 {
      var ref := refs[n - 1].id;
      StoredForShow(refs, rows, scope, n - 1, r, t);
      StoredRowsShow(StoredFor(refs, rows, scope, n - 1), ref, rows, scope, |rows|, r, t);
      assert (exists j :: 0 <= j < |rows| && Confirms(rows[j], ref, t)) <==> DecisionIs(rows, ref, t, CONFIRMED);
      hide DecisionIs, StoredRows, Confirms;
      FirstClaimGrows(rows, refs, n, r, t);
    } else {
      NothingStored(refs, rows, r, t);
    }
  }

  lemma NothingStored(refs: seq<Product>, rows: seq<Mapping>, r: ProductId, t: ProductId)
    ensures !Shows(NO_STORED.entries, Stored, r, t) && !FirstClaim(rows, refs, 0, r, t)
  {
  }

  /** The stored rows of a comparison, whatever the table holds: each confirmed target in scope
      once, with the first reference of the category that claims it. */
  lemma {:induction false} StoredIsExact(rows: seq<Mapping>, refs: seq<Product>, targets: seq<Product>, r: ProductId, t: ProductId)
    ensures var entries := StoredPart(rows, refs, targets).entries;
            && DistinctTargets(entries)
            && (Shows(entries, Stored, r, t) <==> t in Ids(targets) && FirstClaim(rows, refs, |refs|, r, t))
  {
    hide StoredFor, Ids, FirstClaim, Shows;
    StoredForOk(refs, rows, Ids(targets), |refs|);
    StoredForShow(refs, rows, Ids(targets), |refs|, r, t);
  }

  lemma {:induction false} FirstOf(refs: seq<Product>, r: ProductId, n: nat) returns (i: nat)
    requires n < |refs| && refs[n].id == r
    ensures i < |refs| && refs[i].id == r && forall j :: 0 <= j < i ==> refs[j].id != r
  {
    i := n;
    if k: nat :| k < n && refs[k].id == r {
      i := FirstOf(refs, r, k);
    }
  }

  /** While confirmations are exclusive, that is every confirmed pair of a reference of the
      category and a target in scope. */
  lemma {:induction false} ExclusiveClaims(rows: seq<Mapping>, refs: seq<Product>, r: ProductId, t: ProductId)
    requires Exclusive(rows)
    ensures FirstClaim(rows, refs, |refs|, r, t) <==> r in Ids(refs) && DecisionIs(rows, r, t, CONFIRMED)
  {
    if r in Ids(refs) && DecisionIs(rows, r, t, CONFIRMED) {
      var n :| 0 <= n < |refs| && refs[n].id == r;
      var i := FirstOf(refs, r, n);
      forall j | 0 <= j < i ensures !DecisionIs(rows, refs[j].id, t, CONFIRMED) {
      }
    }
  }

  lemma IdsMember(products: seq<Product>, id: ProductId)
    ensures id in Ids(products) <==> exists k :: 0 <= k < |products| && products[k].id == id
  {
  }

  // ----- references

  function RefsOf(entries: seq<Entry>): seq<ProductId> {
    seq(|entries|, k requires 0 <= k < |entries| => entries[k].ref)
  }

  function GroupRefs(groups: seq<Group>): seq<ProductId> {
    seq(|groups|, k requires 0 <= k < |groups| => groups[k].ref)
  }

  function IdList(products: seq<Product>): seq<ProductId> {
    seq(|products|, k requires 0 <= k < |products| => products[k].id)
  }

  /** The references of the heuristic rows, with multiplicity. */
  function Placed(c: Classified): multiset<ProductId> {
    multiset(RefsOf(c.high)) + multiset(GroupRefs(c.groups)) + multiset(c.referenceOnly)
  }

  /** The reference that a row names, if any. */
  function Named(row: Row, x: Context): seq<ProductId>
    requires RowFits(row, x)
  {
    if row.main.Some? then [x.refs[row.main.value].id] else []
  }

  /** What one row adds: a high-confidence entry, a group or a reference without a match. */
  lemma ClassifyAdds(c: Classified, row: Row, x: Context)
    requires RowFits(row, x)
    ensures var (next, ref) := (Classify(c, row, x), Named(row, x));
            || (ref == [] && next == c)
            || (ref != [] && next.groups == c.groups && next.referenceOnly == c.referenceOnly
                && (exists e :: next.high == c.high + [e] && e.ref == ref[0] && e.source == HighConfidence))
            || (ref != [] && next.high == c.high && next.referenceOnly == c.referenceOnly
                && (exists g :: next.groups == c.groups + [g] && g.ref == ref[0]))
            || (ref != [] && next.high == c.high && next.groups == c.groups && next.referenceOnly == c.referenceOnly + ref)
  {
    hide BuildCandidates;
    hide RawIds;
    hide Percent;
  }

  lemma {:induction false} ClassifyPlaces(c: Classified, row: Row, x: Context)
    requires RowFits(row, x)
    ensures Placed(Classify(c, row, x)) == Placed(c) + multiset(Named(row, x))
  {
    hide RowFits;
    hide Classify;
    var next := Classify(c, row, x);
    ClassifyAdds(c, row, x);
    if |next.high| > |c.high| {
      assert RefsOf(next.high) == RefsOf(c.high) + Named(row, x);
    } else if |next.groups| > |c.groups| {
      assert GroupRefs(next.groups) == GroupRefs(c.groups) + Named(row, x);
    }
  }

  /** The references that the first n rows name. */
  function NamedBy(rows: seq<Row>, x: Context, n: nat): seq<ProductId>
    requires n <= |rows| && forall k :: 0 <= k < |rows| ==> RowFits(rows[k], x)
  {
    if n == 0 then [] else NamedBy(rows, x, n - 1) + Named(rows[n - 1], x)
  }

  lemma {:induction false} AllPlaced(rows: seq<Row>, x: Context, n: nat)
    requires n <= |rows| && forall k :: 0 <= k < |rows| ==> RowFits(rows[k], x)
    ensures Placed(ClassifyAll(rows, x, n)) == multiset(NamedBy(rows, x, n))
  {
    hide RowFits;
    hide Classify;
    hide Named;
    hide Placed;
    if n > 0 {
      AllPlaced(rows, x, n - 1);
      ClassifyPlaces(ClassifyAll(rows, x, n - 1), rows[n - 1], x);
    } else {
      NothingPlaced();
    }
  }

  lemma NothingPlaced()
    ensures Placed(UNCLASSIFIED) == multiset{}
  {
  }

  /** The ids of the references at the given positions. */
  predicate ByPosition(ids: seq<ProductId>, at: seq<nat>, x: Context) {
    |ids| == |at| && forall k :: 0 <= k < |at| ==> at[k] < |x.refs| && ids[k] == x.refs[at[k]].id
  }

  lemma NobodyByPosition(x: Context)
    ensures ByPosition([], Selection.MainsOf([]), x)
  {
  }

  lemma OneByPosition(row: Row, x: Context)
    requires RowFits(row, x)
    ensures ByPosition(Named(row, x), Selection.MainsOf([row]), x)
  {
    assert [row][1..] == [];
  }

  lemma BothByPosition(ids: seq<ProductId>, at: seq<nat>, ids': seq<ProductId>, at': seq<nat>, x: Context)
    requires ByPosition(ids, at, x) && ByPosition(ids', at', x)
    ensures ByPosition(ids + ids', at + at', x)
  {
  }

  /** Position by position, the references named are the positions that MainsOf lists. */
  lemma {:induction false} NamedAreMains(rows: seq<Row>, x: Context, n: nat)
    requires n <= |rows| && forall k :: 0 <= k < |rows| ==> RowFits(rows[k], x)
    ensures ByPosition(NamedBy(rows, x, n), Selection.MainsOf(rows[..n]), x)
  {
    hide RowFits, ByPosition, Selection.MainsOf, Named;
    if n == 0 {
      NobodyByPosition(x);
    } else {
      var (before, last) := (rows[..n - 1], rows[n - 1]);
      NamedAreMains(rows, x, n - 1);
      OneByPosition(last, x);
      assert rows[..n] == before + [last];
      Selection.MainsOfBoth(before, [last]);
      BothByPosition(NamedBy(rows, x, n - 1), Selection.MainsOf(before), Named(last, x), Selection.MainsOf([last]), x);
    }
  }

  /** Every reference that reaches the matcher is placed once per occurrence. */
  lemma {:induction false} RemainingPlaced(m: Matcher, x: Context)
    requires MatcherOk(m)
    ensures Placed(HeuristicPart(m, x)) == multiset(IdList(x.refs))
  {
    hide Placed, ClassifyAll, RowFits, MatcherOk, NamedBy;
    var rows := MatchRows(m, Records(x.refs), Records(x.targets));
    RowsFit(m, x);
    AllPlaced(rows, x, |rows|);
    NamedAreMains(rows, x, |rows|);
    assert rows[..|rows|] == rows;
    RowsNameAll(m, x);
    hide MatchRows;
    assert NamedBy(rows, x, |rows|) == IdList(x.refs);
  }

  lemma RowsNameAll(m: Matcher, x: Context)
    requires MatcherOk(m)
    ensures Selection.MainsOf(MatchRows(m, Records(x.refs), Records(x.targets))) == Selection.UpTo(|x.refs|)
  {
    var first := ReferenceRows(m, Records(x.refs), Records(x.targets), |x.refs|);
    hide MatcherOk;
    Selection.MainsOfReferences(m, Records(x.refs), Records(x.targets), |x.refs|);
    Selection.ClosingShape(first, |x.targets|);
    Selection.MainsOfBoth(first, ClosingRows(first, |x.targets|));
  }

  function OnlyIf(c: bool, e: Entry): seq<Entry> {
    if c then [e] else []
  }

  /** The entries of a source. */
  function BySource(entries: seq<Entry>, source: Source): seq<Entry> {
    if entries == [] then []
    else OnlyIf(entries[0].source == source, entries[0]) + BySource(entries[1..], source)
  }

  lemma {:induction false} BySourceBoth(a: seq<Entry>, b: seq<Entry>, source: Source)
    ensures BySource(a + b, source) == BySource(a, source) + BySource(b, source)
  {
    if a == [] {
      assert a + b == b;
    } else {
      BySourceBoth(a[1..], b, source);
      var first := OnlyIf(a[0].source == source, a[0]);
      assert BySource(a + b, source) == first + BySource(a[1..] + b, source) by {
        assert (a + b)[0] == a[0] && (a + b)[1..] == a[1..] + b;
      }
      assert BySource(a, source) == first + BySource(a[1..], source);
      hide OnlyIf, BySource;
      ConcatAssociates(first, BySource(a[1..], source), BySource(b, source));
    }
  }

  lemma {:induction false} BySourceAll(entries: seq<Entry>, own: Source, source: Source)
    requires forall k :: 0 <= k < |entries| ==> entries[k].source == own
    ensures BySource(entries, source) == if source == own then entries else []
  {
    if entries != [] { BySourceAll(entries[1..], own, source); }
  }

  predicate AllHigh(entries: seq<Entry>) {
    forall k :: 0 <= k < |entries| ==> entries[k].source == HighConfidence
  }

  lemma {:induction false} HighSource(rows: seq<Row>, x: Context, n: nat)
    requires n <= |rows| && forall k :: 0 <= k < |rows| ==> RowFits(rows[k], x)
    ensures AllHigh(ClassifyAll(rows, x, n).high)
  {
    hide RowFits;
    hide Classify;
    if n > 0 {
      HighSource(rows, x, n - 1);
      ClassifyAdds(ClassifyAll(rows, x, n - 1), rows[n - 1], x);
    }
  }

  /** What the two halves of a comparison contribute to its list of confirmed matches. */
  lemma {:induction false} Halves(m: Matcher, rows: seq<Mapping>, refs: seq<Product>, targets: seq<Product>)
    requires MatcherOk(m)
    ensures var (r, c) := (Compare(m, rows, refs, targets), HeuristicPart(m, ContextOf(rows, refs, targets)));
            && BySource(r.confirmed, Stored) == StoredPart(rows, refs, targets).entries
            && BySource(r.confirmed, HighConfidence) == c.high
  {
    hide ClassifyAll;
    hide RowFits;
    hide StoredFor;
    hide MatchRows;
    hide Remaining;
    hide TargetOnly;
    var x := ContextOf(rows, refs, targets);
    var st := StoredPart(rows, refs, targets);
    StoredForOk(refs, rows, Ids(targets), |refs|);
    assert forall k :: 0 <= k < |st.entries| ==> StoredEntryOk(st.entries[k], Ids(refs), rows, Ids(targets));
    RowsFit(m, x);
    var raw := MatchRows(m, Records(x.refs), Records(x.targets));
    HighSource(raw, x, |raw|);
    var high := HeuristicPart(m, x).high;
    BySourceBoth(st.entries, high, Stored);
    BySourceBoth(st.entries, high, HighConfidence);
    BySourceAll(st.entries, Stored, Stored);
    BySourceAll(st.entries, Stored, HighConfidence);
    BySourceAll(high, HighConfidence, Stored);
    BySourceAll(high, HighConfidence, HighConfidence);
  }

  ghost predicate DistinctIds(products: seq<Product>) {
    forall i, k :: 0 <= i < k < |products| ==> products[i].id != products[k].id
  }

  /** The ids that remain, one product at a time. */
  function RemainingIds(products: seq<Product>, gone: set<ProductId>): seq<ProductId> {
    if products == [] then []
    else (if products[0].id in gone then [] else [products[0].id]) + RemainingIds(products[1..], gone)
  }

  lemma IdListBoth(a: seq<Product>, b: seq<Product>)
    ensures IdList(a + b) == IdList(a) + IdList(b)
  {
  }

  lemma {:induction false} RemainingIdsAre(products: seq<Product>, gone: set<ProductId>)
    ensures IdList(Remaining(products, gone)) == RemainingIds(products, gone)
  {
    if products != [] {
      RemainingIdsAre(products[1..], gone);
      var (first, rest) := (if products[0].id in gone then [] else [products[0]], Remaining(products[1..], gone));
      assert Remaining(products, gone) == first + rest;
      assert IdList(first) == if products[0].id in gone then [] else [products[0].id];
      hide Remaining;
      IdListBoth(first, rest);
    }
  }

  lemma {:induction false} NoneRemaining(products: seq<Product>, gone: set<ProductId>, id: ProductId)
    requires forall k :: 0 <= k < |products| ==> products[k].id != id
    ensures multiset(RemainingIds(products, gone))[id] == 0
  {
    if products != [] { NoneRemaining(products[1..], gone, id); }
  }

  lemma {:induction false} RemainingCount(products: seq<Product>, gone: set<ProductId>, k: nat)
    requires DistinctIds(products) && k < |products|
    ensures multiset(RemainingIds(products, gone))[products[k].id] == if products[k].id in gone then 0 else 1
  {
    var (first, rest) := (products[0], products[1..]);
    if k > 0 {
      forall i, j | 0 <= i < j < |rest| ensures rest[i].id != rest[j].id {
        assert products[i + 1].id != products[j + 1].id;
      }
      RemainingCount(rest, gone, k - 1);
      assert rest[k - 1] == products[k] && first.id != products[k].id;
    } else {
      NoneRemaining(rest, gone, first.id);
    }
  }

  /** In how many rows a comparison mentions a reference outside its stored confirmations. */
  function Places(r: Comparison, id: ProductId): nat {
    multiset(RefsOf(BySource(r.confirmed, HighConfidence)))[id] + multiset(GroupRefs(r.groups))[id]
    + multiset(r.referenceOnly)[id]
  }

  /** Every product of the reference category is in the stored confirmations, or in exactly
      one row of exactly one other section; nothing else is. The summary counts the lists. */
  lemma {:induction false} ReferencePartition(m: Matcher, rows: seq<Mapping>, refs: seq<Product>, targets: seq<Product>, id: ProductId)
    requires MatcherOk(m) && DistinctIds(refs)
    ensures var r := Compare(m, rows, refs, targets);
            && Places(r, id) == (if id in Ids(refs) && !HasRef(BySource(r.confirmed, Stored), id) then 1 else 0)
            && (HasRef(BySource(r.confirmed, Stored), id) ==> id in Ids(refs))
            && r.summary == Summary(|r.confirmed|, |r.groups|, |r.referenceOnly|, |r.targetOnly|)
  {
    hide MatcherOk;
    hide HeuristicPart;
    hide StoredFor;
    var x := ContextOf(rows, refs, targets);
    var st := StoredPart(rows, refs, targets);
    StoredForOk(refs, rows, Ids(targets), |refs|);
    Halves(m, rows, refs, targets);
    RemainingPlaced(m, x);
    IdsMember(refs, id);
    RemainingIdsAre(refs, st.refIds);
    if k :| 0 <= k < |refs| && refs[k].id == id {
      RemainingCount(refs, st.refIds, k);
    } else {
      NoneRemaining(refs, st.refIds, id);
    }
    if k :| 0 <= k < |st.entries| && st.entries[k].ref == id {
      assert StoredEntryOk(st.entries[k], Ids(refs), rows, Ids(targets));
    }
  }
}
