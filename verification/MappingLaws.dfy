/** What every history of requests keeps of the mapping table, and what a decision means. */
module MappingLaws {
  import opened Basics
  import opened Mappings

  /** A save leaves every other row alone, and adds one only for a pair without a row. */
  ghost predicate Wrote(rows: seq<Mapping>, next: seq<Mapping>, r: ProductId, t: ProductId, status: Option<string>, id: nat) {
    && |rows| <= |next| <= |rows| + 1
    && (forall k :: 0 <= k < |rows| ==> RowKept(rows[k], next[k], r, t, status))
    && (|next| > |rows| ==>
          var last := next[|rows|];
          !HasPair(rows, r, t) && IsPair(last, r, t) && last.status == status && last.id == id)
  }

  predicate RowKept(row: Mapping, next: Mapping, r: ProductId, t: ProductId, status: Option<string>) {
    && next.id == row.id && next.ref == row.ref && next.target == row.target
    && if IsPair(row, r, t) then next.status == status else next == row
  }

  lemma {:induction false} SavingWrites(c: Catalog, tb: Table, r: ProductId, t: ProductId, status: Option<string>,
                                        confidence: Option<real>, comment: Option<string>)
    ensures var (next, reply) := Saving(c, tb, r, t, status, confidence, comment);
            && (reply == Saved ==> Wrote(tb.rows, next.rows, r, t, status, tb.nextId) && HasPair(next.rows, r, t))
            && (reply == Saved ==> next.nextId == tb.nextId + |next.rows| - |tb.rows|)
            && (reply != Saved ==> next == tb)
  {
    var next := Saving(c, tb, r, t, status, confidence, comment).0;
    if k :| 0 <= k < |tb.rows| && IsPair(tb.rows[k], r, t) {
      assert IsPair(next.rows[k], r, t);
    } else if |next.rows| > |tb.rows| {
      assert IsPair(next.rows[|tb.rows|], r, t);
    }
  }

  lemma {:induction false} WroteUnique(rows: seq<Mapping>, next: seq<Mapping>, r: ProductId, t: ProductId, status: Option<string>, id: nat)
    requires Wrote(rows, next, r, t, status, id) && UniquePairs(rows)
    ensures UniquePairs(next)
  {
    forall k | 0 <= k < |rows| && |next| > |rows| ensures !(next[k].ref == r && next[k].target == t) {
      assert RowKept(rows[k], next[k], r, t, status) && !IsPair(rows[k], r, t);
    }
    forall i, k | 0 <= i < k < |rows| ensures !(next[i].ref == next[k].ref && next[i].target == next[k].target) {
      assert RowKept(rows[i], next[i], r, t, status) && RowKept(rows[k], next[k], r, t, status);
    }
  }

  lemma {:induction false} WroteExclusive(rows: seq<Mapping>, next: seq<Mapping>, r: ProductId, t: ProductId, status: Option<string>, id: nat)
    requires Wrote(rows, next, r, t, status, id) && Exclusive(rows)
    requires status == CONFIRMED ==> !HasConflict(rows, r, t)
    ensures Exclusive(next)
  {
    forall i, k | 0 <= i < |next| && 0 <= k < |next| && next[i].status == CONFIRMED && next[k].status == CONFIRMED
                  && next[i].target == next[k].target
      ensures next[i].ref == next[k].ref
    {
      if i < |rows| { assert RowKept(rows[i], next[i], r, t, status) && !(status == CONFIRMED && IsConflict(rows[i], r, t)); }
      if k < |rows| { assert RowKept(rows[k], next[k], r, t, status) && !(status == CONFIRMED && IsConflict(rows[k], r, t)); }
    }
  }

  lemma {:induction false} WroteIds(rows: seq<Mapping>, next: seq<Mapping>, r: ProductId, t: ProductId, status: Option<string>, id: nat)
    requires Wrote(rows, next, r, t, status, id) && IdsOk(rows, id)
    ensures IdsOk(next, id + |next| - |rows|)
  {
    forall k | 0 <= k < |rows| ensures next[k].id == rows[k].id {
      assert RowKept(rows[k], next[k], r, t, status);
    }
  }

  lemma {:induction false} SavingKeeps(c: Catalog, tb: Table, r: ProductId, t: ProductId, status: Option<string>,
                                       confidence: Option<real>, comment: Option<string>)
    requires TableOk(tb) && (status == CONFIRMED ==> !HasConflict(tb.rows, r, t))
    ensures TableOk(Saving(c, tb, r, t, status, confidence, comment).0)
  {
    hide Upserted;
    hide Wrote;
    SavingWrites(c, tb, r, t, status, confidence, comment);
    var (next, reply) := Saving(c, tb, r, t, status, confidence, comment);
    if reply == Saved {
      WroteUnique(tb.rows, next.rows, r, t, status, tb.nextId);
      WroteExclusive(tb.rows, next.rows, r, t, status, tb.nextId);
      WroteIds(tb.rows, next.rows, r, t, status, tb.nextId);
    }
  }

  /** `left` are rows of `rows`, in order: `at` says where they stand. */
  ghost predicate StandAt(left: seq<Mapping>, at: seq<nat>, rows: seq<Mapping>) {
    && |at| == |left|
    && (forall k :: 0 <= k < |at| ==> at[k] < |rows| && rows[at[k]] == left[k])
    && (forall i, k :: 0 <= i < k < |at| ==> at[i] < at[k])
  }

  lemma StandAmongMore(left: seq<Mapping>, at: seq<nat>, rows: seq<Mapping>, last: Mapping)
    requires StandAt(left, at, rows)
    ensures StandAt(left, at, rows + [last]) && StandAt(left + [last], at + [|rows|], rows + [last])
  {
  }

  /** Deleting keeps the other rows in order. */
  lemma {:induction false} WithoutPositions(rows: seq<Mapping>, id: nat) returns (at: seq<nat>)
    ensures StandAt(Without(rows, id), at, rows)
  {
    at := [];
    if rows != [] {
      hide StandAt;
      var n := |rows| - 1;
      at := WithoutPositions(rows[..n], id);
      assert rows == rows[..n] + [rows[n]];
      StandAmongMore(Without(rows[..n], id), at, rows[..n], rows[n]);
      if rows[n].id != id {
        at := at + [n];
      }
    }
  }

  /** Deleting removes the rows with the id, and those only. */
  lemma {:induction false} WithoutMembers(rows: seq<Mapping>, id: nat, row: Mapping)
    ensures row in Without(rows, id) <==> row in rows && row.id != id
  {
    if rows != [] {
      var n := |rows| - 1;
      WithoutMembers(rows[..n], id, row);
      assert rows == rows[..n] + [rows[n]];
    }
  }

  lemma {:induction false} WithoutKeeps(rows: seq<Mapping>, id: nat, nextId: nat)
    requires TableOk(Table(rows, nextId))
    ensures TableOk(Table(Without(rows, id), nextId))
  {
    var at := WithoutPositions(rows, id);
    var left := Without(rows, id);
    forall i, k | 0 <= i < |left| && 0 <= k < |left| && i != k
      ensures left[i] == rows[at[i]] && left[k] == rows[at[k]] && at[i] != at[k]
    {
    }
    forall i, k | 0 <= i < |left| && 0 <= k < |left| && left[i].status == CONFIRMED && left[k].status == CONFIRMED
                  && left[i].target == left[k].target
      ensures left[i].ref == left[k].ref
    {
      assert rows[at[i]].ref == rows[at[k]].ref;
    }
  }

  /** Every request keeps the table well-formed and exclusive. */
  lemma {:induction false} RequestKeeps(c: Catalog, tb: Table, q: Request)
    requires TableOk(tb)
    ensures TableOk(Handle(c, tb, q).0)
  {
    match q
    case MatchDecision(r, t, status, confidence, comment, categories) =>
      if status != CONFIRMED || !HasConflict(tb.rows, r, t) {
        SavingKeeps(c, tb, r, t, status, confidence, comment);
      }
    case ConfirmMatch(r, t, status, confidence, comment) =>
      if EffectiveStatus(status) != CONFIRMED || !HasConflict(tb.rows, r, t) {
        SavingKeeps(c, tb, r, t, EffectiveStatus(status), confidence, comment);
      }
    case DeleteMapping(id) =>
      WithoutKeeps(tb.rows, id, tb.nextId);
  }

  /** The table after a history of requests. */
  function After(c: Catalog, qs: seq<Request>): Table {
    if qs == [] then Table([], 0) else Handle(c, After(c, qs[..|qs| - 1]), qs[|qs| - 1]).0
  }

  /** Under every history of decisions, confirmations and deletions each target is confirmed
      for at most one reference product, and no pair has two rows. */
  lemma {:induction false} ExclusiveForever(c: Catalog, qs: seq<Request>)
    ensures TableOk(After(c, qs))
  {
    if qs != [] {
      ExclusiveForever(c, qs[..|qs| - 1]);
      RequestKeeps(c, After(c, qs[..|qs| - 1]), qs[|qs| - 1]);
    }
  }

  // ----- what a decision means

  /** A saved decision is the decision on its pair, and leaves every other pair's alone:
      the latest call for a pair wins. */
  lemma {:induction false} LatestDecisionWins(c: Catalog, tb: Table, r: ProductId, t: ProductId, status: Option<string>,
                                              confidence: Option<real>, comment: Option<string>,
                                              r': ProductId, t': ProductId, status': Option<string>)
    requires TableOk(tb) && Saving(c, tb, r, t, status, confidence, comment).1 == Saved
    ensures var rows := Saving(c, tb, r, t, status, confidence, comment).0.rows;
            DecisionIs(rows, r', t', status') <==>
              if (r', t') == (r, t) then status' == status else DecisionIs(tb.rows, r', t', status')
  {
    hide Upserted;
    SavingWrites(c, tb, r, t, status, confidence, comment);
    var rows := Saving(c, tb, r, t, status, confidence, comment).0.rows;
    if k :| 0 <= k < |rows| && IsPair(rows[k], r', t') && rows[k].status == status' {
      if k < |tb.rows| { assert RowKept(tb.rows[k], rows[k], r, t, status); }
    }
    if i :| 0 <= i < |tb.rows| && IsPair(tb.rows[i], r', t') && tb.rows[i].status == status' {
      assert RowKept(tb.rows[i], rows[i], r, t, status);
    }
    var k :| 0 <= k < |rows| && IsPair(rows[k], r, t);
    if k < |tb.rows| { assert RowKept(tb.rows[k], rows[k], r, t, status); }
  }

  /** A confirmation is refused exactly when the target is confirmed elsewhere, the scope it
      names is wrong, or it is for an unknown product. */
  lemma ConfirmAcceptedIff(c: Catalog, tb: Table, r: ProductId, t: ProductId, confidence: Option<real>,
                           comment: Option<string>, categories: Option<seq<CategoryId>>)
    ensures Handle(c, tb, MatchDecision(r, t, CONFIRMED, confidence, comment, categories)).1 == Saved
            <==> && !HasConflict(tb.rows, r, t)
                 && (categories.Some? ==> InScope(c, r, t, categories.value))
                 && (HasPair(tb.rows, r, t)
                     || (FindProduct(c.products, r).Some? && FindProduct(c.products, t).Some?))
  {
  }

  lemma {:induction false} EligibleMembers(rows: seq<Mapping>, products: seq<Product>, r: ProductId, categories: seq<CategoryId>,
                                           search: string -> bool, includeRejected: bool, limit: nat, t: ProductId)
    requires t in Eligible(rows, products, r, categories, search, includeRejected, limit)
    ensures exists k :: 0 <= k < |products| && products[k].id == t
                        && IsEligible(rows, products[k], r, categories, search, includeRejected)
  {
    if products[0].id != t || !IsEligible(rows, products[0], r, categories, search, includeRejected) {
      var first := IsEligible(rows, products[0], r, categories, search, includeRejected);
      EligibleMembers(rows, products[1..], r, categories, search, includeRejected, if first then limit - 1 else limit, t);
      var k :| 0 <= k < |products| - 1 && products[1..][k].id == t
               && IsEligible(rows, products[1..][k], r, categories, search, includeRejected);
      assert products[k + 1] == products[1..][k];
    }
  }

  /** Nothing eligible is withheld while the limit has room. */
  lemma {:induction false} EligibleIsComplete(rows: seq<Mapping>, products: seq<Product>, r: ProductId, categories: seq<CategoryId>,
                                              search: string -> bool, includeRejected: bool, limit: nat, k: nat)
    requires k < |products| && IsEligible(rows, products[k], r, categories, search, includeRejected)
    ensures var offered := Eligible(rows, products, r, categories, search, includeRejected, limit);
            |offered| <= limit && (|offered| < limit ==> products[k].id in offered)
  {
    hide IsEligible;
    if limit > 0 {
      var first := IsEligible(rows, products[0], r, categories, search, includeRejected);
      var left := if first then limit - 1 else limit;
      if k > 0 {
        assert products[1..][k - 1] == products[k];
        EligibleIsComplete(rows, products[1..], r, categories, search, includeRejected, left, k - 1);
      } else {
        EligibleAtMost(rows, products, r, categories, search, includeRejected, limit);
      }
    }
  }

  lemma {:induction false} EligibleAtMost(rows: seq<Mapping>, products: seq<Product>, r: ProductId, categories: seq<CategoryId>,
                                          search: string -> bool, includeRejected: bool, limit: nat)
    ensures |Eligible(rows, products, r, categories, search, includeRejected, limit)| <= limit
  {
    hide IsEligible;
    if products != [] && limit > 0 {
      var first := IsEligible(rows, products[0], r, categories, search, includeRejected);
      EligibleAtMost(rows, products[1..], r, categories, search, includeRejected, if first then limit - 1 else limit);
    }
  }

  /** Every product offered as eligible can be confirmed: it passes the conflict check and
      the scope check for the same categories, and unless rejected pairs were asked for it
      is not a rejected one. */
  lemma {:induction false} EligibleCanBeConfirmed(c: Catalog, tb: Table, r: ProductId, categories: seq<CategoryId>,
                                                  search: string -> bool, includeRejected: bool, limit: nat, t: ProductId,
                                                  confidence: Option<real>, comment: Option<string>)
    requires forall i, k | 0 <= i < |c.products| && 0 <= k < |c.products| :: c.products[i].id == c.products[k].id ==> i == k
    requires EligibleTargets(c, tb.rows, r, categories, search, includeRejected, limit).Some?
    requires t in EligibleTargets(c, tb.rows, r, categories, search, includeRejected, limit).value
    ensures Handle(c, tb, MatchDecision(r, t, CONFIRMED, confidence, comment, Some(categories))).1 == Saved
    ensures !includeRejected ==> !IsRejectedPair(tb.rows, r, t)
  {
    EligibleMembers(tb.rows, c.products, r, categories, search, includeRejected, limit, t);
    var k :| 0 <= k < |c.products| && c.products[k].id == t
             && IsEligible(tb.rows, c.products[k], r, categories, search, includeRejected);
    assert FindProduct(c.products, t) == Some(c.products[k]);
    ConflictMeansConfirmed(tb.rows, r, t);
    ConfirmAcceptedIff(c, tb, r, t, confidence, comment, Some(categories));
    hide Handle, HasConflict, HasPair;
  }

  lemma ConflictMeansConfirmed(rows: seq<Mapping>, r: ProductId, t: ProductId)
    ensures HasConflict(rows, r, t) ==> HasStatus(rows, t, CONFIRMED)
  {
    if i :| 0 <= i < |rows| && IsConflict(rows[i], r, t) {
      assert rows[i].target == t && rows[i].status == CONFIRMED;
    }
  }
}
