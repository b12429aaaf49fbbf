/** Linking categories of equal normalised name (pricewatch/services/category_matching_service.py)
    over the table of category mappings (pricewatch/db/repositories/category_repository.py). */
module AutoLink {
  import opened Basics

  datatype Store = Store(isReference: bool)

  datatype Category = Category(id: nat, store: nat, norm: Option<string>) {
    function Norm(): string {
      norm.GetOr("")
    }
  }

  datatype Link = Link(ref: nat, target: nat, matchType: Option<string>, confidence: Option<real>)

  type Pair = (nat, nat)

  datatype Refusal = NoReferenceStore | NoTargetStore | NotAReference | TargetIsReference

  datatype Reply = Refused(reason: Refusal) | Report(created: seq<Pair>, skipped: seq<Pair>, withoutNorm: nat)

  const EXACT := Some("exact")
  const CERTAIN := Some(1.0)

  // ----- the specification

  predicate IsLink(row: Link, p: Pair) {
    row.ref == p.0 && row.target == p.1
  }

  predicate HasLink(rows: seq<Link>, p: Pair) {
    exists k :: 0 <= k < |rows| && IsLink(rows[k], p)
  }

  /** The categories of a store, in the table's order by name. */
  function InStore(categories: seq<Category>, store: nat): seq<Category> {
    if categories == [] then []
    else (if categories[0].store == store then [categories[0]] else []) + InStore(categories[1..], store)
  }

  /** Those of the first n categories with a normalised name. */
  function WithNorm(categories: seq<Category>, norm: string, n: nat): seq<Category>
    requires n <= |categories|
  {
    if n == 0 then []
    else WithNorm(categories, norm, n - 1) + if categories[n - 1].Norm() == norm then [categories[n - 1]] else []
  }

  function PairsOf(ref: Category, matches: seq<Category>): seq<Pair> {
    seq(|matches|, k requires 0 <= k < |matches| => (ref.id, matches[k].id))
  }

  /** The pairs that the first n reference categories propose, in the order of the loops. */
  function Proposed(refs: seq<Category>, targets: seq<Category>, n: nat): seq<Pair>
    requires n <= |refs|
  {
    if n == 0 then []
    else
      var ref := refs[n - 1];
      Proposed(refs, targets, n - 1)
      + if ref.Norm() == "" then [] else PairsOf(ref, WithNorm(targets, ref.Norm(), |targets|))
  }

  function WithoutNorm(refs: seq<Category>, n: nat): nat
    requires n <= |refs|
  {
    if n == 0 then 0 else WithoutNorm(refs, n - 1) + if refs[n - 1].Norm() == "" then 1 else 0
  }

  datatype Linking = Linking(rows: seq<Link>, created: seq<Pair>, skipped: seq<Pair>)

  function Linked(rows: seq<Link>, pairs: seq<Pair>): Linking {
    if pairs == [] then Linking(rows, [], [])
    else
      var (l, p) := (Linked(rows, pairs[..|pairs| - 1]), pairs[|pairs| - 1]);
      if HasLink(l.rows, p) then l.(skipped := l.skipped + [p])
      else l.(rows := l.rows + [Link(p.0, p.1, EXACT, CERTAIN)], created := l.created + [p])
  }

  function RefusalOf(stores: map<nat, Store>, r: nat, t: nat): Option<Refusal> {
    if r !in stores then Some(NoReferenceStore)
    else if t !in stores then Some(NoTargetStore)
    else if !stores[r].isReference then Some(NotAReference)
    else if stores[t].isReference then Some(TargetIsReference)
    else None
  }

  // ----- the program

  class CategoryMappings {
    const stores: map<nat, Store>
    const categories: seq<Category>
    var rows: seq<Link>

    constructor (stores: map<nat, Store>, categories: seq<Category>)
      ensures this.stores == stores && this.categories == categories && rows == []
    {
      this.stores, this.categories, rows := stores, categories, [];
    }

    method GetCategoryMapping(p: Pair) returns (found: Option<nat>)
      ensures found.Some? <==> HasLink(rows, p)
      ensures found.Some? ==> found.value < |rows| && IsLink(rows[found.value], p)
    {
      var k := 0;
      while k < |rows|
        invariant k <= |rows| && forall i :: 0 <= i < k ==> !IsLink(rows[i], p)
      {
        if IsLink(rows[k], p) {
          return Some(k);
        }
        k := k + 1;
      }
      found := None;
    }

    /** Inserts the mapping of a pair, or brings its row up to date. */
    method CreateCategoryMapping(p: Pair, matchType: Option<string>, confidence: Option<real>)
      modifies this`rows
      ensures !HasLink(old(rows), p) ==> rows == old(rows) + [Link(p.0, p.1, matchType, confidence)]
      ensures HasLink(old(rows), p) ==>
                && |rows| == |old(rows)|
                && exists k :: 0 <= k < |rows| && IsLink(old(rows)[k], p)
                               && rows == old(rows)[k := Link(p.0, p.1, matchType, confidence)]
    {
      var existing := GetCategoryMapping(p);
      if existing.Some? {
        var row := rows[existing.value];
        if row.matchType != matchType {
          row := row.(matchType := matchType);
        }
        if row.confidence != confidence {
          row := row.(confidence := confidence);
        }
        rows := rows[existing.value := row];
        return;
      }
      rows := rows + [Link(p.0, p.1, matchType, confidence)];
    }

    static method BuildIndex(targets: seq<Category>) returns (byNorm: map<string, seq<Category>>)
      ensures IndexOk(byNorm, targets, |targets|)
    {
      hide IndexOk;
      byNorm := map[];
      EmptyIndex(targets);
      var n := 0;
      while n < |targets|
        invariant n <= |targets| && IndexOk(byNorm, targets, n)
      {
        var norm := targets[n].Norm();
        var known := if norm in byNorm then byNorm[norm] else [];
        IndexGrows(byNorm, targets, n, norm, known);
        byNorm := byNorm[norm := known + [targets[n]]];
        n := n + 1;
      }
    }

    method LinkMatches(ref: Category, matches: seq<Category>, ghost start: seq<Link>, ghost before: seq<Pair>,
                       created0: seq<Pair>, skipped0: seq<Pair>) returns (created: seq<Pair>, skipped: seq<Pair>)
      requires Linking(rows, created0, skipped0) == Linked(start, before)
      modifies this`rows
      ensures Linking(rows, created, skipped) == Linked(start, before + PairsOf(ref, matches))
    {
      hide Linked;
      created, skipped := created0, skipped0;
      var k := 0;
      assert before + PairsOf(ref, matches)[..0] == before;
      while k < |matches|
        invariant k <= |matches|
        invariant Linking(rows, created, skipped) == Linked(start, before + PairsOf(ref, matches)[..k])
      {
        var p := (ref.id, matches[k].id);
        ghost var (pairs, done) := (before + PairsOf(ref, matches)[..k], before + PairsOf(ref, matches)[..k + 1]);
        assert done == pairs + [p];
        LinkedMore(start, pairs, p);
        var existing := GetCategoryMapping(p);
        if existing.Some? {
          skipped := skipped + [p];
        } else {
          CreateCategoryMapping(p, EXACT, CERTAIN);
          created := created + [p];
        }
        k := k + 1;
      }
      assert PairsOf(ref, matches)[..k] == PairsOf(ref, matches);
    }

    method AutoLink(enabled: bool, refStore: nat, targetStore: nat) returns (reply: Reply)
      modifies this`rows
      ensures !enabled ==> reply == Report([], [], 0) && rows == old(rows)
      ensures enabled ==>
                var refusal := RefusalOf(stores, refStore, targetStore);
                var (refs, targets) := (InStore(categories, refStore), InStore(categories, targetStore));
                if refusal.Some? then reply == Refused(refusal.value) && rows == old(rows)
                else
                  reply.Report? && reply.withoutNorm == WithoutNorm(refs, |refs|)
                  && Linking(rows, reply.created, reply.skipped) == Linked(old(rows), Proposed(refs, targets, |refs|))
      ensures enabled ==>
                && (reply == Refused(NoReferenceStore) <==> refStore !in stores)
                && (reply == Refused(NoTargetStore) <==> refStore in stores && targetStore !in stores)
                && (reply == Refused(NotAReference) <==>
                      refStore in stores && targetStore in stores && !stores[refStore].isReference)
                && (reply == Refused(TargetIsReference) <==>
                      && refStore in stores && targetStore in stores
                      && stores[refStore].isReference && stores[targetStore].isReference)
    {
      if !enabled {
        return Report([], [], 0);
      }
      hide Linked, Proposed, WithoutNorm, InStore;
      if refStore !in stores {
        return Refused(NoReferenceStore);
      }
      if targetStore !in stores {
        return Refused(NoTargetStore);
      }
      if !stores[refStore].isReference {
        return Refused(NotAReference);
      }
      if stores[targetStore].isReference {
        return Refused(TargetIsReference);
      }
      var refs := InStore(categories, refStore);
      var targets := InStore(categories, targetStore);
      reply := LinkCategories(refs, targets);
    }

    method LinkCategories(refs: seq<Category>, targets: seq<Category>) returns (reply: Reply)
      modifies this`rows
      ensures reply.Report? && reply.withoutNorm == WithoutNorm(refs, |refs|)
      ensures Linking(rows, reply.created, reply.skipped) == Linked(old(rows), Proposed(refs, targets, |refs|))
    {
      hide PairsOf, WithNorm;
      var byNorm := BuildIndex(targets);
      var created: seq<Pair> := [];
      var skipped: seq<Pair> := [];
      var withoutNorm := 0;
      var n := 0;
      while n < |refs|
        invariant n <= |refs| && withoutNorm == WithoutNorm(refs, n)
        invariant Linking(rows, created, skipped) == Linked(old(rows), Proposed(refs, targets, n))
      {
        hide Linked;
        var norm := refs[n].Norm();
        ghost var before := Proposed(refs, targets, n);
        assert before + [] == before;
        n := n + 1;
        if norm == "" {
          withoutNorm := withoutNorm + 1;
          continue;
        }
        var matches := if norm in byNorm then byNorm[norm] else [];
        created, skipped := LinkMatches(refs[n - 1], matches, old(rows), before, created, skipped);
      }
      reply := Report(created, skipped, withoutNorm);
    }
  }

  /** The index holds, under each normalised name, the targets with that name, in order. */
  ghost predicate IndexOk(byNorm: map<string, seq<Category>>, targets: seq<Category>, n: nat)
    requires n <= |targets|
  {
    forall norm: string :: WithNorm(targets, norm, n) == if norm in byNorm then byNorm[norm] else []
  }

  lemma EmptyIndex(targets: seq<Category>)
    ensures IndexOk(map[], targets, 0)
  {
  }

  lemma IndexGrows(byNorm: map<string, seq<Category>>, targets: seq<Category>, n: nat, norm: string, known: seq<Category>)
    requires n < |targets| && IndexOk(byNorm, targets, n)
    requires norm == targets[n].Norm() && known == if norm in byNorm then byNorm[norm] else []
    ensures IndexOk(byNorm[norm := known + [targets[n]]], targets, n + 1)
  {
    var next := byNorm[norm := known + [targets[n]]];
    forall other: string ensures WithNorm(targets, other, n + 1) == if other in next then next[other] else [] {
      assert WithNorm(targets, other, n) == if other in byNorm then byNorm[other] else [];
      assert WithNorm(targets, other, n) + [] == WithNorm(targets, other, n);
    }
  }

  // ----- the index against the plain join

  /** Both have a normalised name, the same one, and it is not empty. */
  ghost predicate SameName(ref: Category, target: Category) {
    ref.norm.Some? && target.norm == ref.norm && ref.norm.value != ""
  }

  /** The plain join: a pair of categories with the same non-empty normalised name. */
  ghost predicate InJoin(refs: seq<Category>, targets: seq<Category>, p: Pair) {
    exists i, k :: 0 <= i < |refs| && 0 <= k < |targets| && SameName(refs[i], targets[k])
                   && p == (refs[i].id, targets[k].id)
  }

  lemma {:induction false} WithNormMembers(categories: seq<Category>, norm: string, n: nat, c: Category)
    requires n <= |categories|
    ensures c in WithNorm(categories, norm, n) <==> c.Norm() == norm && c in categories[..n]
  {
    if n > 0 {
      WithNormMembers(categories, norm, n - 1, c);
      assert categories[..n] == categories[..n - 1] + [categories[n - 1]];
    }
  }

  lemma {:induction false} ProposedMembers(refs: seq<Category>, targets: seq<Category>, n: nat, p: Pair)
    requires n <= |refs|
    ensures p in Proposed(refs, targets, n) <==> InJoin(refs[..n], targets, p)
  {
    if n > 0 {
      ProposedMembers(refs, targets, n - 1, p);
      var (ref, matches) := (refs[n - 1], WithNorm(targets, refs[n - 1].Norm(), |targets|));
      forall c: Category ensures c in matches <==> c.Norm() == ref.Norm() && c in targets {
        WithNormMembers(targets, ref.Norm(), |targets|, c);
        assert targets[..|targets|] == targets;
      }
      JoinGrows(refs, targets, n, p);
      PairsMembers(ref, matches, p);
      if q :| 0 <= q < |matches| && p == (ref.id, matches[q].id) {
        assert matches[q] in matches;
        var k :| 0 <= k < |targets| && targets[k] == matches[q];
      }
      if k :| 0 <= k < |targets| && SameName(ref, targets[k]) && p == (ref.id, targets[k].id) {
        assert targets[k] in matches;
      }
    }
  }

  lemma PairsMembers(ref: Category, matches: seq<Category>, p: Pair)
    ensures p in PairsOf(ref, matches) <==> exists q :: 0 <= q < |matches| && p == (ref.id, matches[q].id)
  {
    if q :| 0 <= q < |matches| && p == (ref.id, matches[q].id) {
      assert PairsOf(ref, matches)[q] == p;
    }
  }

  lemma JoinGrows(refs: seq<Category>, targets: seq<Category>, n: nat, p: Pair)
    requires 0 < n <= |refs|
    ensures InJoin(refs[..n], targets, p)
            <==> || InJoin(refs[..n - 1], targets, p)
                 || exists k :: 0 <= k < |targets| && SameName(refs[n - 1], targets[k]) && p == (refs[n - 1].id, targets[k].id)
  {
    hide SameName;
    var (before, now) := (refs[..n - 1], refs[..n]);
    if i, k :| 0 <= i < |before| && 0 <= k < |targets| && SameName(before[i], targets[k]) && p == (before[i].id, targets[k].id) {
      assert now[i] == before[i];
    }
    if i, k :| 0 <= i < |now| && 0 <= k < |targets| && SameName(now[i], targets[k]) && p == (now[i].id, targets[k].id) {
      if i < n - 1 { assert before[i] == now[i]; }
    }
    if k :| 0 <= k < |targets| && SameName(refs[n - 1], targets[k]) && p == (refs[n - 1].id, targets[k].id) {
      assert now[n - 1] == refs[n - 1];
    }
  }

  // ----- what linking does

  lemma LinkedMore(rows: seq<Link>, pairs: seq<Pair>, p: Pair)
    ensures var l := Linked(rows, pairs);
            Linked(rows, pairs + [p])
            == if HasLink(l.rows, p) then Linking(l.rows, l.created, l.skipped + [p])
               else Linking(l.rows + [Link(p.0, p.1, EXACT, CERTAIN)], l.created + [p], l.skipped)
  {
    assert (pairs + [p])[..|pairs|] == pairs;
  }

  lemma HasLinkGrows(rows: seq<Link>, row: Link, p: Pair)
    ensures HasLink(rows + [row], p) <==> HasLink(rows, p) || IsLink(row, p)
  {
    if k :| 0 <= k < |rows| && IsLink(rows[k], p) { assert IsLink((rows + [row])[k], p); }
    assert (rows + [row])[|rows|] == row;
  }

  ghost predicate UniqueLinks(rows: seq<Link>) {
    forall i, k :: 0 <= i < k < |rows| ==> !(rows[i].ref == rows[k].ref && rows[i].target == rows[k].target)
  }

  /** Existing rows stay, a pair is linked afterwards exactly when it was before or is proposed,
      the created pairs are the proposed ones that were not linked, each once, and the created
      and skipped pairs are together the proposed ones. */
  lemma {:induction false} LinkedIsExact(rows: seq<Link>, pairs: seq<Pair>, p: Pair)
    ensures var l := Linked(rows, pairs);
            && rows <= l.rows && |l.rows| == |rows| + |l.created|
            && (forall k :: 0 <= k < |l.created| ==>
                  l.rows[|rows| + k] == Link(l.created[k].0, l.created[k].1, EXACT, CERTAIN))
            && (HasLink(l.rows, p) <==> HasLink(rows, p) || p in pairs)
            && multiset(l.created)[p] == (if p in pairs && !HasLink(rows, p) then 1 else 0)
            && multiset(l.created)[p] + multiset(l.skipped)[p] == multiset(pairs)[p]
            && (UniqueLinks(rows) ==> UniqueLinks(l.rows))
  {
    if pairs != [] {
      var (before, last) := (pairs[..|pairs| - 1], pairs[|pairs| - 1]);
      assert pairs == before + [last];
      LinkedIsExact(rows, before, p);
      var l := Linked(rows, before);
      HasLinkGrows(l.rows, Link(last.0, last.1, EXACT, CERTAIN), p);
      assert HasLink(l.rows, last) || forall k :: 0 <= k < |l.rows| ==> !IsLink(l.rows[k], last);
    }
  }

  /** The table maps the reference category to the target category. */
  predicate Mapped(rows: seq<Link>, p: Pair) {
    exists k :: 0 <= k < |rows| && rows[k].ref == p.0 && rows[k].target == p.1
  }

  lemma LinkedIffMapped(rows: seq<Link>, p: Pair)
    ensures HasLink(rows, p) <==> Mapped(rows, p)
  {
    if k :| 0 <= k < |rows| && IsLink(rows[k], p) {
      assert rows[k].ref == p.0 && rows[k].target == p.1;
    }
    if k :| 0 <= k < |rows| && rows[k].ref == p.0 && rows[k].target == p.1 {
      assert IsLink(rows[k], p);
    }
  }

  /** The pair is of a category of the one store and a category of the other with the same name. */
  ghost predicate Joins(categories: seq<Category>, refStore: nat, targetStore: nat, p: Pair) {
    exists i, k :: 0 <= i < |categories| && 0 <= k < |categories|
                   && categories[i].store == refStore && categories[k].store == targetStore
                   && SameName(categories[i], categories[k]) && p == (categories[i].id, categories[k].id)
  }

  /** The categories of a store, at ascending places: all of them, in the order of the table. */
  ghost predicate StoreIs(categories: seq<Category>, store: nat, n: nat, some: seq<Category>, at: seq<nat>)
    requires n <= |categories|
  {
    && |at| == |some|
    && (forall k :: 0 <= k < |at| ==> at[k] < n && some[k] == categories[at[k]] && some[k].store == store)
    && (forall i, k :: 0 <= i < k < |at| ==> at[i] < at[k])
    && (forall i: nat :: i < n && categories[i].store == store ==> i in at)
  }

  lemma StoreGrows(categories: seq<Category>, store: nat, n: nat, some: seq<Category>, at: seq<nat>)
    requires n < |categories| && StoreIs(categories, store, n, some, at)
    ensures if categories[n].store == store then StoreIs(categories, store, n + 1, some + [categories[n]], at + [n])
            else StoreIs(categories, store, n + 1, some, at)
  {
    if categories[n].store == store {
      assert (at + [n])[|at|] == n && forall g :: g in at ==> g in at + [n];
    }
  }

  lemma {:induction false} InStoreLast(categories: seq<Category>, store: nat, c: Category)
    ensures InStore(categories + [c], store) == InStore(categories, store) + if c.store == store then [c] else []
  {
    if categories == [] {
      assert [c][1..] == [];
    } else {
      InStoreLast(categories[1..], store, c);
      var first := if categories[0].store == store then [categories[0]] else [];
      assert (categories + [c])[1..] == categories[1..] + [c];
      assert InStore(categories + [c], store) == first + InStore(categories[1..] + [c], store);
      assert InStore(categories, store) == first + InStore(categories[1..], store);
      hide InStore;
      ConcatAssociates(first, InStore(categories[1..], store), if c.store == store then [c] else []);
    }
  }

  lemma {:induction false} InStoreIsExact(categories: seq<Category>, store: nat, n: nat) returns (at: seq<nat>)
    requires n <= |categories|
    ensures StoreIs(categories, store, n, InStore(categories[..n], store), at)
  {
    at := [];
    if n > 0 {
      hide StoreIs;
      at := InStoreIsExact(categories, store, n - 1);
      assert categories[..n] == categories[..n - 1] + [categories[n - 1]];
      InStoreLast(categories[..n - 1], store, categories[n - 1]);
      hide InStore;
      StoreGrows(categories, store, n - 1, InStore(categories[..n - 1], store), at);
      if categories[n - 1].store == store {
        at := at + [n - 1];
      } else {
        assert InStore(categories[..n - 1], store) + [] == InStore(categories[..n - 1], store);
      }
    }
  }

  lemma {:induction false} JoinOfStores(categories: seq<Category>, refStore: nat, targetStore: nat, p: Pair)
    ensures InJoin(InStore(categories, refStore), InStore(categories, targetStore), p) <==> Joins(categories, refStore, targetStore, p)
  {
    var (refs, targets) := (InStore(categories, refStore), InStore(categories, targetStore));
    assert categories[..|categories|] == categories;
    var refAt := InStoreIsExact(categories, refStore, |categories|);
    var targetAt := InStoreIsExact(categories, targetStore, |categories|);
    hide InStore, SameName;
    if i, k :| 0 <= i < |refs| && 0 <= k < |targets| && SameName(refs[i], targets[k]) && p == (refs[i].id, targets[k].id) {
      assert SameName(categories[refAt[i]], categories[targetAt[k]]);
    }
    if i, k :| 0 <= i < |categories| && 0 <= k < |categories| && categories[i].store == refStore
               && categories[k].store == targetStore && SameName(categories[i], categories[k])
               && p == (categories[i].id, categories[k].id) {
      assert i in refAt && k in targetAt;
      var q, s :| 0 <= q < |refAt| && refAt[q] == i && 0 <= s < |targetAt| && targetAt[s] == k;
      assert SameName(refs[q], targets[s]);
    }
  }

  /** Auto-linking is the plain join: existing mappings stay untouched, the new ones are exact and
      certain, a pair is mapped afterwards exactly when it was before or is of two categories of the
      two stores with the same name, and created tells the new pairs from the others. */
  lemma {:induction false} AutoLinkIsTheJoin(rows: seq<Link>, categories: seq<Category>, refStore: nat, targetStore: nat, p: Pair)
    ensures var (refs, targets) := (InStore(categories, refStore), InStore(categories, targetStore));
            var (l, joins) := (Linked(rows, Proposed(refs, targets, |refs|)), Joins(categories, refStore, targetStore, p));
            && rows <= l.rows && |l.rows| == |rows| + |l.created|
            && (forall k :: 0 <= k < |l.created| ==>
                  l.rows[|rows| + k] == Link(l.created[k].0, l.created[k].1, Some("exact"), Some(1.0)))
            && (Mapped(l.rows, p) <==> Mapped(rows, p) || joins)
            && (p in l.created <==> joins && !Mapped(rows, p))
            && (p in l.created || p in l.skipped <==> joins)
            && (UniqueLinks(rows) ==> UniqueLinks(l.rows))
  {
    hide InJoin, Joins, HasLink, Mapped, Linked, Proposed, InStore, UniqueLinks;
    var (refs, targets) := (InStore(categories, refStore), InStore(categories, targetStore));
    var pairs := Proposed(refs, targets, |refs|);
    var l := Linked(rows, pairs);
    LinkedIsExact(rows, pairs, p);
    ProposedMembers(refs, targets, |refs|, p);
    assert refs[..|refs|] == refs;
    JoinOfStores(categories, refStore, targetStore, p);
    LinkedIffMapped(rows, p);
    LinkedIffMapped(l.rows, p);
    assert p in l.created <==> p in multiset(l.created);
    assert p in l.skipped <==> p in multiset(l.skipped);
    assert p in pairs <==> p in multiset(pairs);
  }

  /** The count in the report is that of the reference categories with a missing or empty name. */
  lemma {:induction false} WithoutNormCounts(refs: seq<Category>, n: nat)
    requires n <= |refs|
    ensures WithoutNorm(refs, n) == |set k: nat | k < n && (refs[k].norm == None || refs[k].norm == Some(""))|
  {
    var nameless := set k: nat | k < n && (refs[k].norm == None || refs[k].norm == Some(""));
    if n > 0 {
      WithoutNormCounts(refs, n - 1);
      var before := set k: nat | k < n - 1 && (refs[k].norm == None || refs[k].norm == Some(""));
      assert nameless == before + if refs[n - 1].norm == None || refs[n - 1].norm == Some("") then {n - 1} else {};
    } else {
      assert nameless == {};
    }
  }

  // ----- the order of the proposals

  /** A place in the two loops: a reference category and a target category. */
  type Place = (nat, nat)

  predicate Sooner(a: Place, b: Place) {
    a.0 < b.0 || (a.0 == b.0 && a.1 < b.1)
  }

  /** The pairs stand at ascending places of categories with the same name, and `end` is later. */
  ghost predicate InLoopOrder(refs: seq<Category>, targets: seq<Category>, pairs: seq<Pair>, at: seq<Place>, end: Place) {
    && |at| == |pairs|
    && (forall k :: 0 <= k < |at| ==> Sooner(at[k], end) && PlacedAt(refs, targets, pairs[k], at[k]))
    && (forall i, k :: 0 <= i < k < |at| ==> Sooner(at[i], at[k]))
  }

  ghost predicate PlacedAt(refs: seq<Category>, targets: seq<Category>, p: Pair, at: Place) {
    at.0 < |refs| && at.1 < |targets| && SameName(refs[at.0], targets[at.1]) && p == (refs[at.0].id, targets[at.1].id)
  }

  lemma {:induction false} MatchesInOrder(refs: seq<Category>, targets: seq<Category>, i: nat, n: nat,
                                          before: seq<Pair>, at0: seq<Place>) returns (at: seq<Place>)
    requires i < |refs| && n <= |targets| && refs[i].Norm() != "" && InLoopOrder(refs, targets, before, at0, (i, 0))
    ensures InLoopOrder(refs, targets, before + PairsOf(refs[i], WithNorm(targets, refs[i].Norm(), n)), at, (i, n))
  {
    at := at0;
    if n > 0 {
      at := MatchesInOrder(refs, targets, i, n - 1, before, at0);
      var (ref, norm) := (refs[i], refs[i].Norm());
      var own := WithNorm(targets, norm, n - 1);
      if targets[n - 1].Norm() == norm {
        assert PairsOf(ref, own + [targets[n - 1]]) == PairsOf(ref, own) + [(ref.id, targets[n - 1].id)];
        assert before + (PairsOf(ref, own) + [(ref.id, targets[n - 1].id)]) == before + PairsOf(ref, own) + [(ref.id, targets[n - 1].id)];
        at := at + [(i, n - 1)];
      } else {
        assert own + [] == own;
      }
    } else {
      assert before + PairsOf(refs[i], []) == before;
    }
  }

  lemma NothingProposed(refs: seq<Category>, targets: seq<Category>)
    ensures InLoopOrder(refs, targets, [], [], (0, 0))
  {
  }

  lemma LaterEnd(refs: seq<Category>, targets: seq<Category>, pairs: seq<Pair>, at: seq<Place>, end: Place, later: Place)
    requires InLoopOrder(refs, targets, pairs, at, end) && Sooner(end, later)
    ensures InLoopOrder(refs, targets, pairs, at, later)
  {
    hide PlacedAt;
  }

  /** The pairs are proposed in the order of the loops: by reference, and for each by target. */
  lemma {:induction false} ProposedInOrder(refs: seq<Category>, targets: seq<Category>, n: nat) returns (at: seq<Place>)
    requires n <= |refs|
    ensures InLoopOrder(refs, targets, Proposed(refs, targets, n), at, (n, 0))
  {
    hide PairsOf, WithNorm, InLoopOrder;
    at := [];
    if n == 0 {
      NothingProposed(refs, targets);
    } else {
      at := ProposedInOrder(refs, targets, n - 1);
      LaterEnd(refs, targets, Proposed(refs, targets, n - 1), at, (n - 1, 0), (n, 0));
      if refs[n - 1].Norm() != "" {
        at := MatchesInOrder(refs, targets, n - 1, |targets|, Proposed(refs, targets, n - 1), at);
        LaterEnd(refs, targets, Proposed(refs, targets, n), at, (n - 1, |targets|), (n, 0));
      } else {
        assert Proposed(refs, targets, n - 1) + [] == Proposed(refs, targets, n - 1);
      }
    }
  }

  /** Linking pairs that are all linked changes nothing. */
  lemma {:induction false} NothingLeft(rows: seq<Link>, pairs: seq<Pair>)
    requires forall p: Pair :: p in pairs ==> HasLink(rows, p)
    ensures Linked(rows, pairs) == Linking(rows, [], pairs)
  {
    hide HasLink;
    if pairs != [] {
      var before := pairs[..|pairs| - 1];
      NothingLeft(rows, before);
      assert pairs == before + [pairs[|pairs| - 1]];
    }
  }

  /** A second call creates nothing and skips every pair of the join. */
  lemma {:induction false} SecondCallCreatesNothing(rows: seq<Link>, refs: seq<Category>, targets: seq<Category>)
    ensures var pairs := Proposed(refs, targets, |refs|);
            var first := Linked(rows, pairs);
            Linked(first.rows, pairs) == Linking(first.rows, [], pairs)
  {
    hide HasLink, Linked;
    var pairs := Proposed(refs, targets, |refs|);
    forall p: Pair | p in pairs ensures HasLink(Linked(rows, pairs).rows, p) {
      LinkedIsExact(rows, pairs, p);
    }
    NothingLeft(Linked(rows, pairs).rows, pairs);
  }

  ghost predicate DistinctCategories(categories: seq<Category>) {
    forall i, k :: 0 <= i < k < |categories| ==> categories[i].id != categories[k].id
  }

  lemma {:induction false} WithNormOnce(targets: seq<Category>, norm: string, n: nat)
    requires n <= |targets| && DistinctCategories(targets)
    ensures DistinctCategories(WithNorm(targets, norm, n))
    ensures forall c :: c in WithNorm(targets, norm, n) ==> c in targets[..n]
  {
    if n > 0 {
      WithNormOnce(targets, norm, n - 1);
      assert targets[..n] == targets[..n - 1] + [targets[n - 1]];
      var before := WithNorm(targets, norm, n - 1);
      forall i | 0 <= i < |before| ensures before[i].id != targets[n - 1].id {
        assert before[i] in targets[..n - 1];
      }
    }
  }

  lemma {:induction false} ProposedRefs(refs: seq<Category>, targets: seq<Category>, n: nat, p: Pair)
    requires n <= |refs| && p in Proposed(refs, targets, n)
    ensures exists i :: 0 <= i < n && p.0 == refs[i].id
  {
    ProposedMembers(refs, targets, n, p);
    var i, k :| 0 <= i < n && 0 <= k < |targets| && SameName(refs[..n][i], targets[k])
                && p == (refs[..n][i].id, targets[k].id);
    assert refs[..n][i] == refs[i];
  }

  lemma {:induction false} ProposedOnce(refs: seq<Category>, targets: seq<Category>, n: nat)
    requires n <= |refs| && DistinctCategories(refs) && DistinctCategories(targets)
    ensures Distinct(Proposed(refs, targets, n))
  {
    hide WithNorm;
    if n > 0 {
      ProposedOnce(refs, targets, n - 1);
      WithNormOnce(targets, refs[n - 1].Norm(), |targets|);
      var (before, own) := (Proposed(refs, targets, n - 1), PairsOf(refs[n - 1], WithNorm(targets, refs[n - 1].Norm(), |targets|)));
      forall i, k | 0 <= i < |before| && 0 <= k < |own| ensures before[i] != own[k] {
        ProposedRefs(refs, targets, n - 1, before[i]);
      }
    }
  }

  lemma {:induction false} CountOfDistinct(s: seq<Pair>, p: Pair)
    requires Distinct(s)
    ensures multiset(s)[p] == if p in s then 1 else 0
  {
    if s != [] {
      var n := |s| - 1;
      CountOfDistinct(s[..n], p);
      assert s == s[..n] + [s[n]] && s[n] !in s[..n];
    }
  }

  /** Categories have distinct ids, so the skipped pairs are exactly those of the join that were
      mapped before the call. */
  lemma {:induction false} SkippedWereMapped(rows: seq<Link>, refs: seq<Category>, targets: seq<Category>, p: Pair)
    requires DistinctCategories(refs) && DistinctCategories(targets)
    ensures p in Linked(rows, Proposed(refs, targets, |refs|)).skipped <==> InJoin(refs, targets, p) && HasLink(rows, p)
  {
    hide InJoin, HasLink, Linked, Proposed, DistinctCategories, Distinct;
    var pairs := Proposed(refs, targets, |refs|);
    LinkedIsExact(rows, pairs, p);
    ProposedMembers(refs, targets, |refs|, p);
    assert refs[..|refs|] == refs;
    ProposedOnce(refs, targets, |refs|);
    CountOfDistinct(pairs, p);
    assert p in Linked(rows, pairs).skipped <==> p in multiset(Linked(rows, pairs).skipped);
  }
}
