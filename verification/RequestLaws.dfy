/** What the decision routes reply and write, column by column, and which products are offered. */
module RequestLaws {
  import opened Basics
  import opened Mappings
  import opened MappingLaws

  // ----- what a request finds

  predicate IsKnown(c: Catalog, id: ProductId) {
    exists k :: 0 <= k < |c.products| && c.products[k].id == id
  }

  predicate PairStored(rows: seq<Mapping>, r: ProductId, t: ProductId) {
    exists k :: 0 <= k < |rows| && rows[k].ref == r && rows[k].target == t
  }

  predicate ConfirmedElsewhere(rows: seq<Mapping>, r: ProductId, t: ProductId) {
    exists k :: 0 <= k < |rows| && rows[k].target == t && rows[k].ref != r && rows[k].status == Some("confirmed")
  }

  /** The product's category is linked to all of the target categories. */
  predicate LinkedToAll(links: set<(CategoryId, CategoryId)>, ref: Product, categories: seq<CategoryId>) {
    ref.category.Some? && forall k :: 0 <= k < |categories| ==> (ref.category.value, categories[k]) in links
  }

  ghost predicate ScopeNamed(c: Catalog, r: ProductId, categories: seq<CategoryId>) {
    exists k :: 0 <= k < |c.products| && c.products[k].id == r && LinkedToAll(c.links, c.products[k], categories)
  }

  ghost predicate TargetIn(c: Catalog, t: ProductId, categories: seq<CategoryId>) {
    exists k :: 0 <= k < |c.products| && c.products[k].id == t
                && c.products[k].category.Some? && c.products[k].category.value in categories
  }

  /** Ids are primary keys. */
  ghost predicate UniqueIds(products: seq<Product>) {
    forall i, k | 0 <= i < |products| && 0 <= k < |products| :: products[i].id == products[k].id ==> i == k
  }

  lemma FoundAt(products: seq<Product>, k: nat)
    requires UniqueIds(products) && k < |products|
    ensures FindProduct(products, products[k].id) == Some(products[k])
  {
    var found := FindProduct(products, products[k].id);
    var i :| 0 <= i < |products| && products[i] == found.value;
  }

  /** The scope check: the reference product's category is linked to every named category, and the
      target's own category is one of them. */
  lemma ScopeIsExact(c: Catalog, r: ProductId, t: ProductId, categories: seq<CategoryId>)
    requires UniqueIds(c.products)
    ensures CategoriesMapped(c, r, categories) <==> ScopeNamed(c, r, categories)
    ensures InScope(c, r, t, categories) <==> ScopeNamed(c, r, categories) && TargetIn(c, t, categories)
  {
    if i :| 0 <= i < |c.products| && c.products[i].id == r { FoundAt(c.products, i); }
    if i :| 0 <= i < |c.products| && c.products[i].id == t { FoundAt(c.products, i); }
  }

  /** The decision is written: in place over the row of the pair, which keeps its id, or as a new row. */
  ghost predicate Written(tb: Table, next: Table, r: ProductId, t: ProductId, status: Option<string>,
                          confidence: Option<real>, comment: Option<string>)
  {
    if PairStored(tb.rows, r, t) then
      && next.nextId == tb.nextId && |next.rows| == |tb.rows|
      && forall k :: 0 <= k < |tb.rows| ==>
           next.rows[k] == if tb.rows[k].ref == r && tb.rows[k].target == t
                           then Mapping(tb.rows[k].id, r, t, status, confidence, comment) else tb.rows[k]
    else
      next == Table(tb.rows + [Mapping(tb.nextId, r, t, status, confidence, comment)], tb.nextId + 1)
  }

  lemma FoundIffKnown(c: Catalog, id: ProductId)
    ensures FindProduct(c.products, id).Some? <==> IsKnown(c, id)
  {
  }

  lemma {:induction false} SavingIsExact(c: Catalog, tb: Table, r: ProductId, t: ProductId, status: Option<string>,
                                         confidence: Option<real>, comment: Option<string>)
    ensures var (next, reply) := Saving(c, tb, r, t, status, confidence, comment);
            && (reply == if PairStored(tb.rows, r, t) || (IsKnown(c, r) && IsKnown(c, t)) then Saved else BadRequest)
            && if reply == Saved then Written(tb, next, r, t, status, confidence, comment) else next == tb
  {
    FoundIffKnown(c, r);
    FoundIffKnown(c, t);
    assert HasPair(tb.rows, r, t) <==> PairStored(tb.rows, r, t) by {
      if k :| 0 <= k < |tb.rows| && IsPair(tb.rows[k], r, t) {
        assert tb.rows[k].ref == r && tb.rows[k].target == t;
      }
      if k :| 0 <= k < |tb.rows| && tb.rows[k].ref == r && tb.rows[k].target == t {
        assert IsPair(tb.rows[k], r, t);
      }
    }
    hide HasPair, PairStored, IsKnown;
  }

  lemma ConflictIffElsewhere(rows: seq<Mapping>, r: ProductId, t: ProductId)
    ensures HasConflict(rows, r, t) <==> ConfirmedElsewhere(rows, r, t)
  {
    if k :| 0 <= k < |rows| && IsConflict(rows[k], r, t) {
      assert rows[k].target == t;
    }
    if k :| 0 <= k < |rows| && rows[k].target == t && rows[k].ref != r && rows[k].status == Some("confirmed") {
      assert IsConflict(rows[k], r, t);
    }
  }

  /** The match-decision route: a confirmation of a target that is confirmed elsewhere is a conflict;
      a decision other than confirmed or rejected, a confirmation outside the scope that it names, and
      a new pair of an unknown product are bad requests; everything else is written as given. */
  lemma {:induction false} DecisionIsExact(c: Catalog, tb: Table, r: ProductId, t: ProductId, status: Option<string>,
                                           confidence: Option<real>, comment: Option<string>, categories: Option<seq<CategoryId>>)
    requires UniqueIds(c.products)
    ensures var (next, reply) := Handle(c, tb, MatchDecision(r, t, status, confidence, comment, categories));
            var confirms := status == Some("confirmed");
            && (reply == Conflict <==> confirms && ConfirmedElsewhere(tb.rows, r, t))
            && (reply == Saved <==>
                  && (confirms || status == Some("rejected"))
                  && (confirms ==> !ConfirmedElsewhere(tb.rows, r, t))
                  && (confirms && categories.Some? ==> ScopeNamed(c, r, categories.value) && TargetIn(c, t, categories.value))
                  && (PairStored(tb.rows, r, t) || (IsKnown(c, r) && IsKnown(c, t))))
            && (reply == Saved || reply == Conflict || reply == BadRequest)
            && if reply == Saved then Written(tb, next, r, t, status, confidence, comment) else next == tb
  {
    ConflictIffElsewhere(tb.rows, r, t);
    SavingIsExact(c, tb, r, t, status, confidence, comment);
    if categories.Some? {
      ScopeIsExact(c, r, t, categories.value);
    }
    hide HasConflict, ConfirmedElsewhere, InScope, ScopeNamed, TargetIn, Saving, Written, PairStored, IsKnown;
  }

  /** The confirm-match route: a missing or empty status confirms; only a confirmation can conflict. */
  lemma {:induction false} ConfirmationIsExact(c: Catalog, tb: Table, r: ProductId, t: ProductId, status: Option<string>,
                                               confidence: Option<real>, comment: Option<string>)
    ensures var (next, reply) := Handle(c, tb, ConfirmMatch(r, t, status, confidence, comment));
            var written := if status == None || status == Some("") then Some("confirmed") else status;
            && (reply == Conflict <==> written == Some("confirmed") && ConfirmedElsewhere(tb.rows, r, t))
            && (reply == Saved <==> reply != Conflict && (PairStored(tb.rows, r, t) || (IsKnown(c, r) && IsKnown(c, t))))
            && (reply == Saved || reply == Conflict || reply == BadRequest)
            && if reply == Saved then Written(tb, next, r, t, written, confidence, comment) else next == tb
  {
    ConflictIffElsewhere(tb.rows, r, t);
    var written := if status == None || status == Some("") then Some("confirmed") else status;
    SavingIsExact(c, tb, r, t, written, confidence, comment);
    hide HasConflict, ConfirmedElsewhere, Saving, Written, PairStored, IsKnown;
  }

  /** The delete route: exactly the rows with the id go, the others keep their order; without such a
      row the reply is not found. */
  lemma {:induction false} DeletionIsExact(c: Catalog, tb: Table, id: nat) returns (at: seq<nat>)
    ensures var (next, reply) := Handle(c, tb, DeleteMapping(id));
            && (reply == if exists k :: 0 <= k < |tb.rows| && tb.rows[k].id == id then Deleted else NotFound)
            && (forall row :: row in next.rows <==> row in tb.rows && row.id != id)
            && StandAt(next.rows, at, tb.rows) && next.nextId == tb.nextId
  {
    var next := Handle(c, tb, DeleteMapping(id)).0;
    at := WithoutPositions(tb.rows, id);
    forall row ensures row in Without(tb.rows, id) <==> row in tb.rows && row.id != id {
      WithoutMembers(tb.rows, id, row);
    }
    if next == tb {
      at := seq(|tb.rows|, k => k);
    }
    hide Without;
  }

  // ----- the products on offer

  /** The product may be offered: it is in one of the categories, not confirmed for anyone, found by
      the search, and not rejected for the reference unless rejected pairs are asked for. */
  ghost predicate MayBeOffered(rows: seq<Mapping>, p: Product, r: ProductId, categories: seq<CategoryId>,
                               search: string -> bool, includeRejected: bool)
  {
    && p.category.Some? && p.category.value in categories && search(p.name)
    && (forall k :: 0 <= k < |rows| ==> !(rows[k].target == p.id && rows[k].status == Some("confirmed")))
    && (includeRejected ||
        forall k :: 0 <= k < |rows| ==> !(rows[k].ref == r && rows[k].target == p.id && rows[k].status == Some("rejected")))
  }

  lemma EligibleInColumns(rows: seq<Mapping>, p: Product, r: ProductId, categories: seq<CategoryId>,
                          search: string -> bool, includeRejected: bool)
    ensures IsEligible(rows, p, r, categories, search, includeRejected)
            <==> MayBeOffered(rows, p, r, categories, search, includeRejected)
  {
    if k :| 0 <= k < |rows| && rows[k].target == p.id && rows[k].status == Some("confirmed") {
      assert HasStatus(rows, p.id, CONFIRMED);
    }
    if k :| 0 <= k < |rows| && rows[k].ref == r && rows[k].target == p.id && rows[k].status == Some("rejected") {
      assert IsPair(rows[k], r, p.id);
    }
    if k :| 0 <= k < |rows| && IsPair(rows[k], r, p.id) && rows[k].status == REJECTED {
      assert rows[k].ref == r && rows[k].target == p.id;
    }
  }

  /** `at` are the first places of `good`, in order, as many as the limit allows. */
  ghost predicate FirstPlaces(at: seq<nat>, good: set<nat>, limit: nat) {
    && |at| <= limit
    && (forall k :: 0 <= k < |at| ==> at[k] in good)
    && (forall i, k :: 0 <= i < k < |at| ==> at[i] < at[k])
    && (forall i :: i in good && i !in at ==> |at| == limit && forall k :: 0 <= k < |at| ==> at[k] < i)
  }

  lemma PlaceFirst(at: seq<nat>, good: set<nat>, limit: nat, i: nat)
    requires FirstPlaces(at, good, limit) && forall g :: g in good ==> i < g
    ensures FirstPlaces([i] + at, good + {i}, limit + 1)
  {
    var next := [i] + at;
    assert forall k :: 0 < k < |next| ==> next[k] == at[k - 1];
    assert forall g :: g in at ==> g in next;
    assert next[0] == i;
  }

  lemma NothingPlaced(good: set<nat>, limit: nat)
    requires good == {} || limit == 0
    ensures FirstPlaces([], good, limit)
  {
  }

  /** The places from i on of the products that may be offered. */
  ghost function OfferPlaces(rows: seq<Mapping>, products: seq<Product>, r: ProductId, categories: seq<CategoryId>,
                             search: string -> bool, includeRejected: bool, i: nat): set<nat>
  {
    set k | i <= k < |products| && MayBeOffered(rows, products[k], r, categories, search, includeRejected)
  }

  ghost predicate AtPlaces(offered: seq<ProductId>, at: seq<nat>, products: seq<Product>) {
    |offered| == |at| && forall k :: 0 <= k < |at| ==> at[k] < |products| && offered[k] == products[at[k]].id
  }

  lemma NowherePlaced(products: seq<Product>)
    ensures AtPlaces([], [], products)
  {
  }

  lemma AtPlaceFirst(offered: seq<ProductId>, at: seq<nat>, products: seq<Product>, i: nat)
    requires AtPlaces(offered, at, products) && i < |products|
    ensures AtPlaces([products[i].id] + offered, [i] + at, products)
  {
  }

  lemma {:induction false} EligibleFrom(rows: seq<Mapping>, products: seq<Product>, r: ProductId, categories: seq<CategoryId>,
                                        search: string -> bool, includeRejected: bool, limit: nat, i: nat) returns (at: seq<nat>)
    requires i <= |products|
    ensures AtPlaces(Eligible(rows, products[i..], r, categories, search, includeRejected, limit), at, products)
    ensures FirstPlaces(at, OfferPlaces(rows, products, r, categories, search, includeRejected, i), limit)
    decreases |products| - i
  {
    hide MayBeOffered, IsEligible, AtPlaces, FirstPlaces;
    var good := OfferPlaces(rows, products, r, categories, search, includeRejected, i);
    if i == |products| || limit == 0 {
      at := [];
      NothingPlaced(good, limit);
      NowherePlaced(products);
    } else {
      var p := products[i];
      assert products[i..][0] == p && products[i..][1..] == products[i + 1..];
      EligibleInColumns(rows, p, r, categories, search, includeRejected);
      var later := OfferPlaces(rows, products, r, categories, search, includeRejected, i + 1);
      var first := IsEligible(rows, p, r, categories, search, includeRejected);
      at := EligibleFrom(rows, products, r, categories, search, includeRejected, if first then limit - 1 else limit, i + 1);
      assert good == if first then later + {i} else later;
      if first {
        PlaceFirst(at, later, limit - 1, i);
        AtPlaceFirst(Eligible(rows, products[i + 1..], r, categories, search, includeRejected, limit - 1), at, products, i);
        at := [i] + at;
      }
    }
  }

  /** What is offered is, in order of the catalog, the first products that may be, as many as the
      limit allows. */
  lemma {:induction false} EligibleIsExact(rows: seq<Mapping>, products: seq<Product>, r: ProductId, categories: seq<CategoryId>,
                                           search: string -> bool, includeRejected: bool, limit: nat) returns (at: seq<nat>)
    ensures AtPlaces(Eligible(rows, products, r, categories, search, includeRejected, limit), at, products)
    ensures FirstPlaces(at, OfferPlaces(rows, products, r, categories, search, includeRejected, 0), limit)
  {
    assert products[0..] == products;
    at := EligibleFrom(rows, products, r, categories, search, includeRejected, limit, 0);
  }

  /** A request for products is refused exactly when the reference is unknown or not all of the
      categories are linked to its own. */
  lemma OfferRefusedIff(c: Catalog, rows: seq<Mapping>, r: ProductId, categories: seq<CategoryId>,
                        search: string -> bool, includeRejected: bool, limit: nat)
    requires UniqueIds(c.products)
    ensures var reply := EligibleTargets(c, rows, r, categories, search, includeRejected, limit);
            reply == if ScopeNamed(c, r, categories)
                     then Some(Eligible(rows, c.products, r, categories, search, includeRejected, limit)) else None
  {
    if i :| 0 <= i < |c.products| && c.products[i].id == r { FoundAt(c.products, i); }
    hide Eligible;
  }
}
