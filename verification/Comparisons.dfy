/** The comparison of one reference category with the products of its target categories
    (pricewatch/services/comparison_service.py, _compare_multi and _build_candidates). */
module Comparisons {
  import opened Basics
  import opened PairScores
  import opened Matching
  import opened Mappings
  import Selection

  datatype Source = Stored | HighConfidence

  /** An entry of confirmed_matches; `is_confirmed` is `source == Stored`. */
  datatype Entry = Entry(ref: ProductId, target: ProductId, percent: int, source: Source)
  datatype Candidate = Candidate(target: ProductId, percent: int, canAccept: bool)
  datatype Group = Group(ref: ProductId, candidates: seq<Candidate>)
  datatype Summary = Summary(confirmedMatches: nat, candidateGroups: nat, referenceOnly: nat, targetOnly: nat)

  datatype Comparison = Comparison(
    summary: Summary,
    confirmed: seq<Entry>,
    groups: seq<Group>,
    referenceOnly: seq<ProductId>,
    targetOnly: seq<ProductId>)

  const HIGH_CONFIDENCE := 85

  // ----- percentages

  /** Rounding to the nearest integer, halves to the even one. */
  function Round(x: real): int {
    var below := x.Floor;
    var rest := x - below as real;
    if rest < 0.5 || (rest == 0.5 && below % 2 == 0) then below else below + 1
  }

  function Percent(score: real): int {
    Max(0, Min(100, Round(score)))
  }

  /** A stored confidence of 0 counts as missing, and a missing one as 1. */
  function StoredPercent(confidence: Option<real>): int {
    Round(if confidence.None? || confidence.value == 0.0 then 100.0 else confidence.value * 100.0)
  }

  /** Rounding moves the high-confidence line: a pair is confirmed by the heuristic exactly
      when its score exceeds 84.5. */
  lemma HighConfidenceLine(score: real)
    ensures Percent(score) >= HIGH_CONFIDENCE <==> score > 84.5
  {
  }

  /** A stored confidence is shown as it is, rounded, unless it is 0, which is shown as 100. */
  lemma ZeroConfidenceShowsAsFull(confidence: real)
    ensures StoredPercent(Some(confidence)) == Round(confidence * 100.0) <==> confidence != 0.0
    ensures StoredPercent(Some(0.0)) == 100
  {
  }

  // ----- phase 1: stored confirmations

  datatype StoredMatches = StoredMatches(entries: seq<Entry>, refIds: set<ProductId>, targetIds: set<ProductId>)

  const NO_STORED := StoredMatches([], {}, {})

  function Ids(products: seq<Product>): set<ProductId> {
    set k | 0 <= k < |products| :: products[k].id
  }

  /** A confirmed row of the reference, with a target in scope that is not taken yet. */
  function AddStored(st: StoredMatches, ref: ProductId, row: Mapping, scope: set<ProductId>): StoredMatches {
    if row.ref != ref || row.status != CONFIRMED || row.target !in scope || row.target in st.targetIds then st
    else StoredMatches(st.entries + [Entry(ref, row.target, StoredPercent(row.confidence), Stored)],
                       st.refIds + {ref}, st.targetIds + {row.target})
  }

  function StoredRows(st: StoredMatches, ref: ProductId, rows: seq<Mapping>, scope: set<ProductId>, k: nat): StoredMatches
    requires k <= |rows|
  {
    if k == 0 then st else AddStored(StoredRows(st, ref, rows, scope, k - 1), ref, rows[k - 1], scope)
  }

  function StoredFor(refs: seq<Product>, rows: seq<Mapping>, scope: set<ProductId>, n: nat): StoredMatches
    requires n <= |refs|
  {
    if n == 0 then NO_STORED
    else StoredRows(StoredFor(refs, rows, scope, n - 1), refs[n - 1].id, rows, scope, |rows|)
  }

  // ----- phase 2: what is left for the matcher

  function Remaining(products: seq<Product>, gone: set<ProductId>): seq<Product> {
    if products == [] then []
    else (if products[0].id in gone then [] else [products[0]]) + Remaining(products[1..], gone)
  }

  lemma {:induction false} RemainingMembers(products: seq<Product>, gone: set<ProductId>, p: Product)
    ensures p in Remaining(products, gone) <==> p in products && p.id !in gone
  {
    if products != [] {
      RemainingMembers(products[1..], gone, p);
      assert products == [products[0]] + products[1..];
    }
  }

  function Records(products: seq<Product>): (records: seq<Prepared>)
    ensures |records| == |products|
  {
    seq(|products|, k requires 0 <= k < |products| => products[k].record)
  }

  // ----- phase 3: classification of the matcher's rows

  datatype Classified = Classified(
    high: seq<Entry>,
    groups: seq<Group>,
    referenceOnly: seq<ProductId>,
    candidateIds: set<ProductId>,
    highIds: set<ProductId>)

  const UNCLASSIFIED := Classified([], [], [], {}, {})

  /** What classification looks at besides the rows. */
  datatype Context = Context(
    refs: seq<Product>,
    targets: seq<Product>,
    rejected: set<(ProductId, ProductId)>,
    confirmedAnywhere: set<ProductId>)

  /** The shape of a row over the context's lists. */
  predicate RowFits(row: Row, x: Context) {
    && (row.main.Some? ==> row.main.value < |x.refs|)
    && (row.other.Some? ==> row.other.value < |x.targets|)
    && (forall k :: 0 <= k < |row.candidates| ==> row.candidates[k].target < |x.targets|)
    && (row.verdict == Matched ==> row.main.Some? && row.other.Some?)
    && (row.main.Some? && row.verdict != Matched ==> row.other.None?)
  }

  /** The candidates of a group: rejected pairs are dropped, targets that are confirmed
      somewhere cannot be accepted. */
  function BuildCandidates(raw: seq<Scored>, ref: ProductId, x: Context, n: nat): seq<Candidate>
    requires n <= |raw| && forall k :: 0 <= k < |raw| ==> raw[k].target < |x.targets|
  {
    if n == 0 then []
    else
      var target := x.targets[raw[n - 1].target].id;
      BuildCandidates(raw, ref, x, n - 1)
      + if (ref, target) in x.rejected then []
        else [Candidate(target, Percent(raw[n - 1].score), target !in x.confirmedAnywhere)]
  }

  function RawIds(raw: seq<Scored>, x: Context): set<ProductId>
    requires forall k :: 0 <= k < |raw| ==> raw[k].target < |x.targets|
  {
    set k | 0 <= k < |raw| :: x.targets[raw[k].target].id
  }

  function Classify(c: Classified, row: Row, x: Context): Classified
    requires RowFits(row, x)
  {
    if row.main.None? then c
    else
      var ref := x.refs[row.main.value].id;
      match row.verdict
      case Matched =>
        var target := x.targets[row.other.value].id;
        if (ref, target) in x.rejected then
          c.(referenceOnly := c.referenceOnly + [ref])
        else if Percent(row.score) >= HIGH_CONFIDENCE then
          c.(high := c.high + [Entry(ref, target, Percent(row.score), HighConfidence)],
             highIds := c.highIds + {target})
        else
          var single := [Scored(row.score, row.other.value)];
          c.(groups := c.groups + [Group(ref, BuildCandidates(single, ref, x, 1))],
             candidateIds := c.candidateIds + {target})
      case Ambiguous =>
        c.(groups := c.groups + [Group(ref, BuildCandidates(row.candidates, ref, x, |row.candidates|))],
           candidateIds := c.candidateIds + RawIds(row.candidates, x))
      case NoMatch =>
        c.(referenceOnly := c.referenceOnly + [ref])
  }

  function ClassifyAll(rows: seq<Row>, x: Context, n: nat): Classified
    requires n <= |rows| && forall k :: 0 <= k < |rows| ==> RowFits(rows[k], x)
  {
    if n == 0 then UNCLASSIFIED else Classify(ClassifyAll(rows, x, n - 1), rows[n - 1], x)
  }

  // ----- phase 4: the targets that nothing shows

  function TargetOnly(targets: seq<Product>, shown: set<ProductId>, n: nat): seq<ProductId>
    requires n <= |targets|
  {
    if n == 0 then []
    else TargetOnly(targets, shown, n - 1) + if targets[n - 1].id in shown then [] else [targets[n - 1].id]
  }

  // ----- the queries of the mapping table

  function RejectedPairs(rows: seq<Mapping>, refs: set<ProductId>): set<(ProductId, ProductId)> {
    set k | 0 <= k < |rows| && rows[k].ref in refs && rows[k].status == REJECTED :: (rows[k].ref, rows[k].target)
  }

  function ConfirmedTargets(rows: seq<Mapping>, targets: set<ProductId>): set<ProductId> {
    set k | 0 <= k < |rows| && rows[k].target in targets && rows[k].status == CONFIRMED :: rows[k].target
  }

  // ----- the whole comparison

  function StoredPart(rows: seq<Mapping>, refs: seq<Product>, targets: seq<Product>): StoredMatches {
    StoredFor(refs, rows, Ids(targets), |refs|)
  }

  function ContextOf(rows: seq<Mapping>, refs: seq<Product>, targets: seq<Product>): Context {
    var st := StoredPart(rows, refs, targets);
    Context(Remaining(refs, st.refIds), Remaining(targets, st.targetIds),
            RejectedPairs(rows, Ids(refs)), ConfirmedTargets(rows, Ids(targets)))
  }

  function HeuristicPart(m: Matcher, x: Context): Classified
    requires MatcherOk(m)
  {
    var rows := MatchRows(m, Records(x.refs), Records(x.targets));
    RowsFit(m, x);
    ClassifyAll(rows, x, |rows|)
  }

  function Compare(m: Matcher, rows: seq<Mapping>, refs: seq<Product>, targets: seq<Product>): Comparison
    requires MatcherOk(m)
  {
    var st := StoredPart(rows, refs, targets);
    var c := HeuristicPart(m, ContextOf(rows, refs, targets));
    var targetOnly := TargetOnly(targets, st.targetIds + c.highIds + c.candidateIds, |targets|);
    Comparison(Summary(|st.entries + c.high|, |c.groups|, |c.referenceOnly|, |targetOnly|),
               st.entries + c.high, c.groups, c.referenceOnly, targetOnly)
  }

  // ----- the matcher's rows have the shape that classification expects

  lemma {:induction false} RowsOfOneFit(m: Matcher, x: Context, i: nat)
    requires MatcherOk(m) && i < |x.refs|
    ensures forall row :: row in RowsFor(m, Records(x.targets), i, x.refs[i].record) ==> RowFits(row, x)
  {
    Selection.RowsShape(m, Records(x.targets), i, x.refs[i].record);
    hide RowsFor;
  }

  lemma {:induction false} ReferenceRowsFit(m: Matcher, x: Context, n: nat)
    requires MatcherOk(m) && n <= |x.refs|
    ensures forall row :: row in ReferenceRows(m, Records(x.refs), Records(x.targets), n) ==> RowFits(row, x)
  {
    hide RowsFor;
    hide RowFits;
    if n > 0 {
      ReferenceRowsFit(m, x, n - 1);
      RowsOfOneFit(m, x, n - 1);
      assert Records(x.refs)[n - 1] == x.refs[n - 1].record;
    }
  }

  lemma {:induction false} RowsFit(m: Matcher, x: Context)
    requires MatcherOk(m)
    ensures var rows := MatchRows(m, Records(x.refs), Records(x.targets));
            forall k :: 0 <= k < |rows| ==> RowFits(rows[k], x)
  {
    hide RowsFor;
    var first := ReferenceRows(m, Records(x.refs), Records(x.targets), |x.refs|);
    var closing := ClosingRows(first, |x.targets|);
    ReferenceRowsFit(m, x, |x.refs|);
    Selection.ClosingShape(first, |x.targets|);
    ClosingHasNoCandidates(first, |x.targets|);
    var rows := MatchRows(m, Records(x.refs), Records(x.targets));
    assert rows == first + closing;
    forall k | 0 <= k < |rows| ensures RowFits(rows[k], x) {
      if k < |first| {
        assert rows[k] == first[k] && first[k] in first;
      } else {
        assert rows[k] == closing[k - |first|];
      }
    }
  }

  lemma {:induction false} ClosingHasNoCandidates(rows: seq<Row>, n: nat)
    ensures forall k :: 0 <= k < |ClosingRows(rows, n)| ==> ClosingRows(rows, n)[k].candidates == []
  {
    if n > 0 { ClosingHasNoCandidates(rows, n - 1); }
  }

  // ----- the program

  method ApplyStoredMappings(rows: seq<Mapping>, refs: seq<Product>, scope: set<ProductId>) returns (st: StoredMatches)
    ensures st == StoredFor(refs, rows, scope, |refs|)
  {
    var entries: seq<Entry> := [];
    var refIds: set<ProductId> := {};
    var targetIds: set<ProductId> := {};
    var i := 0;
    while i < |refs|
      invariant i <= |refs| && StoredMatches(entries, refIds, targetIds) == StoredFor(refs, rows, scope, i)
    {
      var ref := refs[i].id;
      var k := 0;
      while k < |rows|
        invariant k <= |rows|
        invariant StoredMatches(entries, refIds, targetIds) == StoredRows(StoredFor(refs, rows, scope, i), ref, rows, scope, k)
      {
        var row := rows[k];
        if row.ref == ref && row.status == CONFIRMED && row.target in scope && row.target !in targetIds {
          refIds := refIds + {ref};
          targetIds := targetIds + {row.target};
          entries := entries + [Entry(ref, row.target, StoredPercent(row.confidence), Stored)];
        }
        k := k + 1;
      }
      i := i + 1;
    }
    st := StoredMatches(entries, refIds, targetIds);
  }

  method CollectCandidates(raw: seq<Scored>, ref: ProductId, x: Context) returns (result: seq<Candidate>)
    requires forall k :: 0 <= k < |raw| ==> raw[k].target < |x.targets|
    ensures result == BuildCandidates(raw, ref, x, |raw|)
  {
    result := [];
    var k := 0;
    while k < |raw|
      invariant k <= |raw| && result == BuildCandidates(raw, ref, x, k)
    {
      var target := x.targets[raw[k].target].id;
      if (ref, target) !in x.rejected {
        result := result + [Candidate(target, Percent(raw[k].score), target !in x.confirmedAnywhere)];
      }
      k := k + 1;
    }
  }

  method ClassifyRows(rows: seq<Row>, x: Context) returns (c: Classified)
    requires forall k :: 0 <= k < |rows| ==> RowFits(rows[k], x)
    ensures c == ClassifyAll(rows, x, |rows|)
  {
    c := UNCLASSIFIED;
    var k := 0;
    while k < |rows|
      invariant k <= |rows| && c == ClassifyAll(rows, x, k)
    {
      var row := rows[k];
      if row.main.Some? {
        var ref := x.refs[row.main.value].id;
        match row.verdict {
          case Matched =>
            var target := x.targets[row.other.value].id;
            if (ref, target) in x.rejected {
              c := c.(referenceOnly := c.referenceOnly + [ref]);
            } else if Percent(row.score) >= HIGH_CONFIDENCE {
              c := c.(high := c.high + [Entry(ref, target, Percent(row.score), HighConfidence)],
                      highIds := c.highIds + {target});
            } else {
              var candidates := CollectCandidates([Scored(row.score, row.other.value)], ref, x);
              c := c.(groups := c.groups + [Group(ref, candidates)], candidateIds := c.candidateIds + {target});
            }
          case Ambiguous =>
            var candidates := CollectCandidates(row.candidates, ref, x);
            c := c.(groups := c.groups + [Group(ref, candidates)],
                    candidateIds := c.candidateIds + RawIds(row.candidates, x));
          case NoMatch =>
            c := c.(referenceOnly := c.referenceOnly + [ref]);
        }
      }
      k := k + 1;
    }
  }

  method CompareMulti(m: Matcher, rows: seq<Mapping>, refs: seq<Product>, targets: seq<Product>) returns (r: Comparison)
    requires MatcherOk(m)
    ensures r == Compare(m, rows, refs, targets)
  {
    hide MatchRows, ClassifyAll, StoredFor;
    var st := ApplyStoredMappings(rows, refs, Ids(targets));
    var x := Context(Remaining(refs, st.refIds), Remaining(targets, st.targetIds),
                     RejectedPairs(rows, Ids(refs)), ConfirmedTargets(rows, Ids(targets)));
    var results := HeuristicMatch(m, Records(x.refs), Records(x.targets));
    RowsFit(m, x);
    var c := ClassifyRows(results, x);
    var shown := st.targetIds + c.highIds + c.candidateIds;
    var targetOnly: seq<ProductId> := [];
    var k := 0;
    while k < |targets|
      invariant k <= |targets| && targetOnly == TargetOnly(targets, shown, k)
    {
      if targets[k].id !in shown {
        targetOnly := targetOnly + [targets[k].id];
      }
      k := k + 1;
    }
    var confirmed := st.entries + c.high;
    r := Comparison(Summary(|confirmed|, |c.groups|, |c.referenceOnly|, |targetOnly|),
                    confirmed, c.groups, c.referenceOnly, targetOnly);
  }
}
