/** Product mappings and the requests that decide them (mapping_repository.py,
    admin_comparison_gap_routes.py, admin_product_mapping_review_routes.py and the scope
    check of comparison_service.py). */
module Mappings {
  import opened Basics
  import opened PairScores

  type ProductId = x: int | 0 < x witness 1
  type CategoryId = nat

  datatype Product = Product(id: ProductId, category: Option<CategoryId>, name: string, record: Prepared)

  /** Products in order of id, and which target categories are mapped to a reference category. */
  datatype Catalog = Catalog(products: seq<Product>, links: set<(CategoryId, CategoryId)>)

  datatype Mapping = Mapping(
    id: nat,
    ref: ProductId,
    target: ProductId,
    status: Option<string>,
    confidence: Option<real>,
    comment: Option<string>)

  datatype Table = Table(rows: seq<Mapping>, nextId: nat)

  const CONFIRMED := Some("confirmed")
  const REJECTED := Some("rejected")

  datatype Request =
    | MatchDecision(ref: ProductId, target: ProductId, status: Option<string>, confidence: Option<real>,
                    comment: Option<string>, categories: Option<seq<CategoryId>>)
    | ConfirmMatch(ref: ProductId, target: ProductId, status: Option<string>, confidence: Option<real>,
                   comment: Option<string>)
    | DeleteMapping(id: nat)

  datatype Reply = Saved | Conflict | BadRequest | NotFound | Deleted

  // ----- lookups

  predicate IsPair(row: Mapping, r: ProductId, t: ProductId) {
    row.ref == r && row.target == t
  }

  predicate HasPair(rows: seq<Mapping>, r: ProductId, t: ProductId) {
    exists k :: 0 <= k < |rows| && IsPair(rows[k], r, t)
  }

  predicate IsConflict(row: Mapping, r: ProductId, t: ProductId) {
    row.target == t && row.ref != r && row.status == CONFIRMED
  }

  /** The target is confirmed for another reference product. */
  predicate HasConflict(rows: seq<Mapping>, r: ProductId, t: ProductId) {
    exists k :: 0 <= k < |rows| && IsConflict(rows[k], r, t)
  }

  function FindProduct(products: seq<Product>, id: ProductId): (found: Option<Product>)
    ensures found.Some? <==> exists k :: 0 <= k < |products| && products[k].id == id
    ensures found.Some? ==> found.value in products && found.value.id == id
  {
    if products == [] then None
    else if products[0].id == id then Some(products[0])
    else
      var rest := FindProduct(products[1..], id);
      assert forall k :: 0 <= k < |products| - 1 ==> products[1..][k] == products[k + 1];
      rest
  }

  /** The target categories that validate_target_scope accepts for a reference product. */
  predicate CategoriesMapped(c: Catalog, r: ProductId, categories: seq<CategoryId>) {
    var ref := FindProduct(c.products, r);
    ref.Some? && ref.value.category.Some?
    && forall k :: 0 <= k < |categories| ==> (ref.value.category.value, categories[k]) in c.links
  }

  predicate InScope(c: Catalog, r: ProductId, t: ProductId, categories: seq<CategoryId>) {
    var target := FindProduct(c.products, t);
    CategoriesMapped(c, r, categories)
    && target.Some? && target.value.category.Some? && target.value.category.value in categories
  }

  /** The write: the row of the pair is overwritten, or a row is added, which the foreign
      keys allow for known products only. */
  function Upserted(c: Catalog, tb: Table, r: ProductId, t: ProductId, status: Option<string>,
                    confidence: Option<real>, comment: Option<string>): Option<Table>
  {
    if HasPair(tb.rows, r, t) then
      Some(tb.(rows := seq(|tb.rows|, k requires 0 <= k < |tb.rows| =>
        if IsPair(tb.rows[k], r, t)
        then tb.rows[k].(status := status, confidence := confidence, comment := comment)
        else tb.rows[k])))
    else if FindProduct(c.products, r).Some? && FindProduct(c.products, t).Some? then
      Some(Table(tb.rows + [Mapping(tb.nextId, r, t, status, confidence, comment)], tb.nextId + 1))
    else None
  }

  /** A missing or empty status means confirmed. */
  function EffectiveStatus(status: Option<string>): Option<string> {
    if status.None? || status.value == "" then CONFIRMED else status
  }

  function Saving(c: Catalog, tb: Table, r: ProductId, t: ProductId, status: Option<string>,
                  confidence: Option<real>, comment: Option<string>): (Table, Reply)
  {
    var written := Upserted(c, tb, r, t, status, confidence, comment);
    if written.Some? then (written.value, Saved) else (tb, BadRequest)
  }

  /** What a request does to the table, and its reply. */
  function Handle(c: Catalog, tb: Table, q: Request): (Table, Reply) {
    match q
    case MatchDecision(r, t, status, confidence, comment, categories) =>
      if status != CONFIRMED && status != REJECTED then (tb, BadRequest)
      else if status == CONFIRMED && HasConflict(tb.rows, r, t) then (tb, Conflict)
      else if status == CONFIRMED && categories.Some? && !InScope(c, r, t, categories.value) then (tb, BadRequest)
      else Saving(c, tb, r, t, status, confidence, comment)
    case ConfirmMatch(r, t, status, confidence, comment) =>
      if EffectiveStatus(status) == CONFIRMED && HasConflict(tb.rows, r, t) then (tb, Conflict)
      else Saving(c, tb, r, t, EffectiveStatus(status), confidence, comment)
    case DeleteMapping(id) =>
      if exists k :: 0 <= k < |tb.rows| && tb.rows[k].id == id
      then (tb.(rows := Without(tb.rows, id)), Deleted)
      else (tb, NotFound)
  }

  function Without(rows: seq<Mapping>, id: nat): seq<Mapping> {
    if rows == [] then []
    else
      var (before, last) := (Without(rows[..|rows| - 1], id), rows[|rows| - 1]);
      if last.id == id then before else before + [last]
  }

  // ----- eligible targets

  predicate HasStatus(rows: seq<Mapping>, t: ProductId, status: Option<string>) {
    exists k :: 0 <= k < |rows| && rows[k].target == t && rows[k].status == status
  }

  predicate IsRejectedPair(rows: seq<Mapping>, r: ProductId, t: ProductId) {
    exists k :: 0 <= k < |rows| && IsPair(rows[k], r, t) && rows[k].status == REJECTED
  }

  predicate IsEligible(rows: seq<Mapping>, p: Product, r: ProductId, categories: seq<CategoryId>,
                       search: string -> bool, includeRejected: bool)
  {
    && p.category.Some? && p.category.value in categories
    && !HasStatus(rows, p.id, CONFIRMED)
    && search(p.name)
    && (includeRejected || !IsRejectedPair(rows, r, p.id))
  }

  function Eligible(rows: seq<Mapping>, products: seq<Product>, r: ProductId, categories: seq<CategoryId>,
                    search: string -> bool, includeRejected: bool, limit: nat): seq<ProductId>
  {
    if products == [] || limit == 0 then []
    else if IsEligible(rows, products[0], r, categories, search, includeRejected) then
      [products[0].id] + Eligible(rows, products[1..], r, categories, search, includeRejected, limit - 1)
    else Eligible(rows, products[1..], r, categories, search, includeRejected, limit)
  }

  /** get_eligible_target_products; None is the scope guard's ValueError. */
  function EligibleTargets(c: Catalog, rows: seq<Mapping>, r: ProductId, categories: seq<CategoryId>,
                           search: string -> bool, includeRejected: bool, limit: nat): Option<seq<ProductId>>
  {
    if !CategoriesMapped(c, r, categories) then None
    else Some(Eligible(rows, c.products, r, categories, search, includeRejected, limit))
  }

  // ----- the routes as programs

  /** The mapping table as the request handlers change it. */
  class MappingStore {
    const catalog: Catalog
    var rows: seq<Mapping>
    var nextId: nat

    constructor (c: Catalog)
      ensures catalog == c && Contents() == Table([], 0)
    {
      catalog, rows, nextId := c, [], 0;
    }

    function Contents(): Table
      reads this
    {
      Table(rows, nextId)
    }

    method GetConflictingConfirmedMapping(r: ProductId, t: ProductId) returns (conflict: Option<Mapping>)
      ensures conflict.Some? <==> HasConflict(rows, r, t)
      ensures conflict.Some? ==> conflict.value in rows && IsConflict(conflict.value, r, t)
    {
      var k := 0;
      while k < |rows|
        invariant k <= |rows| && forall i :: 0 <= i < k ==> !IsConflict(rows[i], r, t)
      {
        if IsConflict(rows[k], r, t) {
          return Some(rows[k]);
        }
        k := k + 1;
      }
      conflict := None;
    }

    /** Overwrites the row of the pair in place, or inserts one. The pair is unique. */
    method UpsertMatchDecision(r: ProductId, t: ProductId, status: Option<string>, confidence: Option<real>,
                               comment: Option<string>) returns (saved: bool)
      requires UniquePairs(rows)
      modifies this`rows, this`nextId
      ensures var written := Upserted(catalog, old(Contents()), r, t, status, confidence, comment);
              if saved then written == Some(Contents()) else written.None? && Contents() == old(Contents())
    {
      var k := 0;
      while k < |rows|
        invariant k <= |rows| && rows == old(rows) && nextId == old(nextId)
        invariant forall i :: 0 <= i < k ==> !IsPair(rows[i], r, t)
      {
        if IsPair(rows[k], r, t) {
          rows := rows[k := rows[k].(status := status, confidence := confidence, comment := comment)];
          assert HasPair(old(rows), r, t);
          ghost var want := Upserted(catalog, old(Contents()), r, t, status, confidence, comment).value.rows;
          assert |rows| == |want| && forall i :: 0 <= i < |rows| ==> rows[i] == want[i];
          assert rows == want;
          return true;
        }
        k := k + 1;
      }
      if FindProduct(catalog.products, r).None? || FindProduct(catalog.products, t).None? {
        return false;
      }
      rows := rows + [Mapping(nextId, r, t, status, confidence, comment)];
      nextId := nextId + 1;
      saved := true;
    }

    method PostMatchDecision(r: ProductId, t: ProductId, status: Option<string>, confidence: Option<real>,
                             comment: Option<string>, categories: Option<seq<CategoryId>>) returns (reply: Reply)
      requires UniquePairs(rows)
      modifies this`rows, this`nextId
      ensures (Contents(), reply) ==
              Handle(catalog, old(Contents()), MatchDecision(r, t, status, confidence, comment, categories))
    {
      if status != CONFIRMED && status != REJECTED {
        return BadRequest;
      }
      if status == CONFIRMED {
        var conflict := GetConflictingConfirmedMapping(r, t);
        if conflict.Some? {
          return Conflict;
        }
        if categories.Some? && !InScope(catalog, r, t, categories.value) {
          return BadRequest;
        }
      }
      var saved := UpsertMatchDecision(r, t, status, confidence, comment);
      reply := if saved then Saved else BadRequest;
    }

    method PostConfirmMatch(r: ProductId, t: ProductId, status: Option<string>, confidence: Option<real>,
                            comment: Option<string>) returns (reply: Reply)
      requires UniquePairs(rows)
      modifies this`rows, this`nextId
      ensures (Contents(), reply) == Handle(catalog, old(Contents()), ConfirmMatch(r, t, status, confidence, comment))
    {
      var effective := if status.None? || status.value == "" then CONFIRMED else status;
      if effective == CONFIRMED {
        var conflict := GetConflictingConfirmedMapping(r, t);
        if conflict.Some? {
          return Conflict;
        }
      }
      var saved := UpsertMatchDecision(r, t, effective, confidence, comment);
      reply := if saved then Saved else BadRequest;
    }

    method DeleteProductMapping(id: nat) returns (reply: Reply)
      modifies this`rows
      ensures (Contents(), reply) == Handle(catalog, old(Contents()), DeleteMapping(id))
    {
      if !(exists k :: 0 <= k < |rows| && rows[k].id == id) {
        return NotFound;
      }
      rows := Without(rows, id);
      reply := Deleted;
    }
  }

  // ----- what the table keeps

  /** The unique constraint on the pair. */
  ghost predicate UniquePairs(rows: seq<Mapping>) {
    forall i, k | 0 <= i < |rows| && 0 <= k < |rows| ::
      rows[i].ref == rows[k].ref && rows[i].target == rows[k].target ==> i == k
  }

  /** Each target is confirmed for at most one reference product. */
  ghost predicate Exclusive(rows: seq<Mapping>) {
    forall i, k | 0 <= i < |rows| && 0 <= k < |rows| && rows[i].status == CONFIRMED && rows[k].status == CONFIRMED ::
      rows[i].target == rows[k].target ==> rows[i].ref == rows[k].ref
  }

  ghost predicate TableOk(tb: Table) {
    && UniquePairs(tb.rows)
    && Exclusive(tb.rows)
    && IdsOk(tb.rows, tb.nextId)
  }

  ghost predicate IdsOk(rows: seq<Mapping>, nextId: nat) {
    && (forall k :: 0 <= k < |rows| ==> rows[k].id < nextId)
    && (forall i, k | 0 <= i < |rows| && 0 <= k < |rows| :: rows[i].id == rows[k].id ==> i == k)
  }

  /** The stored decision on a pair; None when there is no row. */
  ghost predicate DecisionIs(rows: seq<Mapping>, r: ProductId, t: ProductId, status: Option<string>) {
    exists k :: 0 <= k < |rows| && IsPair(rows[k], r, t) && rows[k].status == status
  }
}
