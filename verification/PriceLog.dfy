/** Products and their price history (pricewatch/db/repositories/product_repository.py).
    Prices are integers in units of 1/10000. */
module PriceLog {
  import opened Basics

  type Price = Option<int>

  /** The columns that an upsert only copies. */
  datatype Details = Details(
    name: string,
    currency: Option<string>,
    category: Option<nat>,
    externalId: Option<string>,
    description: Option<string>,
    sourceUrl: Option<string>,
    scrapeRun: Option<nat>)

  datatype Observation = Observation(store: nat, url: string, price: Price, available: Option<bool>, details: Details)
  datatype StoredProduct = StoredProduct(id: nat, price: Price, available: bool, details: Details)
  datatype PriceRow = PriceRow(product: nat, price: Price, currency: Option<string>, sourceUrl: string, scrapeRun: Option<nat>)

  /** The unique key of a product: its store and its stripped URL. */
  type Key = (nat, string)

  datatype Shop = Shop(products: map<Key, StoredProduct>, nextId: nat, history: seq<PriceRow>)

  datatype Reply = UrlRequired | Upserted(id: nat, created: bool, priceChanged: bool)

  const EMPTY_SHOP := Shop(map[], 0, [])

  // ----- URLs

  predicate IsSpace(c: char) {
    var n := c as int;
    || 0x09 <= n <= 0x0d || 0x1c <= n <= 0x20 || n == 0x85 || n == 0xa0 || n == 0x1680
    || 0x2000 <= n <= 0x200a || n == 0x2028 || n == 0x2029 || n == 0x202f || n == 0x205f || n == 0x3000
  }

  function StripLeft(s: string): string {
    if s != "" && IsSpace(s[0]) then StripLeft(s[1..]) else s
  }

  function StripRight(s: string): string {
    if s != "" && IsSpace(s[|s| - 1]) then StripRight(s[..|s| - 1]) else s
  }

  function Strip(s: string): string {
    StripRight(StripLeft(s))
  }

  lemma StripNothing()
    ensures Strip("") == ""
  {
  }

  predicate AllSpace(s: string) {
    forall k :: 0 <= k < |s| ==> IsSpace(s[k])
  }

  lemma {:induction false} LeftIsExact(s: string) returns (pre: string)
    ensures s == pre + StripLeft(s) && AllSpace(pre)
    ensures StripLeft(s) != "" ==> !IsSpace(StripLeft(s)[0])
  {
    pre := "";
    if s != "" && IsSpace(s[0]) {
      var rest := LeftIsExact(s[1..]);
      pre := [s[0]] + rest;
    }
  }

  lemma {:induction false} RightIsExact(s: string) returns (post: string)
    ensures s == StripRight(s) + post && AllSpace(post)
    ensures StripRight(s) != "" ==> StripRight(s)[0] == s[0] && !IsSpace(StripRight(s)[|StripRight(s)| - 1])
  {
    post := "";
    if s != "" && IsSpace(s[|s| - 1]) {
      var rest := RightIsExact(s[..|s| - 1]);
      post := rest + [s[|s| - 1]];
    }
  }

  /** Stripping takes the white space off both ends, and nothing else. */
  lemma {:induction false} StripIsExact(s: string) returns (pre: string, post: string)
    ensures s == pre + Strip(s) + post && AllSpace(pre) && AllSpace(post)
    ensures Strip(s) != "" ==> !IsSpace(Strip(s)[0]) && !IsSpace(Strip(s)[|Strip(s)| - 1])
  {
    pre := LeftIsExact(s);
    post := RightIsExact(StripLeft(s));
    ConcatAssociates(pre, Strip(s), post);
    hide StripLeft, StripRight;
  }

  /** White space as str.strip sees it: 29 characters. */
  lemma SpaceIsExact(c: char)
    ensures IsSpace(c) <==>
      c in {'\U{09}', '\U{0A}', '\U{0B}', '\U{0C}', '\U{0D}', '\U{1C}', '\U{1D}', '\U{1E}', '\U{1F}', '\U{20}',
            '\U{85}', '\U{A0}', '\U{1680}', '\U{2000}', '\U{2001}', '\U{2002}', '\U{2003}', '\U{2004}', '\U{2005}',
            '\U{2006}', '\U{2007}', '\U{2008}', '\U{2009}', '\U{200A}', '\U{2028}', '\U{2029}', '\U{202F}',
            '\U{205F}', '\U{3000}'}
  {
    var n := c as int;
    assert c == n as char;
  }

  function KeyOf(o: Observation): Key {
    (o.store, Strip(o.url))
  }

  // ----- the upsert

  /** The row that records an observation; the page of the product stands in for a missing source. */
  function RowOf(o: Observation, id: nat): PriceRow {
    var source := o.details.sourceUrl;
    PriceRow(id, o.price, o.details.currency,
             if source.None? || source.value == "" then Strip(o.url) else source.value, o.details.scrapeRun)
  }

  function Upsert(s: Shop, o: Observation): (Shop, Reply) {
    var key := KeyOf(o);
    if key.1 == "" then (s, UrlRequired)
    else if key in s.products then
      var p := s.products[key];
      var changed := p.price != o.price;
      var next := StoredProduct(p.id, o.price, o.available.GetOr(p.available), o.details);
      (Shop(s.products[key := next], s.nextId, s.history + if changed then [RowOf(o, p.id)] else []),
       Upserted(p.id, false, changed))
    else
      var next := StoredProduct(s.nextId, o.price, o.available.GetOr(true), o.details);
      (Shop(s.products[key := next], s.nextId + 1, s.history + if o.price.Some? then [RowOf(o, s.nextId)] else []),
       Upserted(s.nextId, true, o.price.Some?))
  }

  class ProductStore {
    var products: map<Key, StoredProduct>
    var nextId: nat
    var history: seq<PriceRow>

    constructor ()
      ensures Contents() == EMPTY_SHOP
    {
      products, nextId, history := map[], 0, [];
    }

    function Contents(): Shop
      reads this
    {
      Shop(products, nextId, history)
    }

    /** Two prices differ when one of them is missing and the other is not, or both are there
        and their values differ. */
    static method PriceChanged(before: Price, now: Price) returns (changed: bool)
      ensures changed <==> before != now
    {
      if before.None? && now.None? {
        return false;
      }
      if before.None? != now.None? {
        return true;
      }
      changed := before.value != now.value;
    }

    method AddPriceHistory(row: PriceRow)
      modifies this`history
      ensures history == old(history) + [row]
    {
      history := history + [row];
    }

    method UpsertProduct(o: Observation) returns (reply: Reply)
      modifies this
      ensures (Contents(), reply) == Upsert(old(Contents()), o)
      ensures var (key, before) := ((o.store, Strip(o.url)), old(products));
              if Strip(o.url) == "" then reply == UrlRequired && Contents() == old(Contents())
              else
                && products.Keys == before.Keys + {key} && (forall k :: k in before && k != key ==> products[k] == before[k])
                && products[key].price == o.price && products[key].details == o.details
                && products[key].available == (if o.available.Some? then o.available.value
                                               else if key in before then before[key].available else true)
                && products[key].id == (if key in before then before[key].id else old(nextId))
                && nextId == old(nextId) + (if key in before then 0 else 1)
                && reply == Upserted(products[key].id, key !in before, o.price != if key in before then before[key].price else None)
                && history == old(history)
                     + (if reply.priceChanged
                        then [PriceRow(products[key].id, o.price, o.details.currency,
                                       if o.details.sourceUrl == None || o.details.sourceUrl == Some("") then Strip(o.url)
                                       else o.details.sourceUrl.value,
                                       o.details.scrapeRun)]
                        else [])
    {
      hide Strip;
      assert Strip("") == "" by { StripNothing(); }
      if o.url == "" || Strip(o.url) == "" {
        return UrlRequired;
      }
      assert history + [] == history;
      var url := Strip(o.url);
      var source := if o.details.sourceUrl.None? || o.details.sourceUrl.value == "" then url else o.details.sourceUrl.value;
      if (o.store, url) in products {
        var p := products[(o.store, url)];
        var changed := PriceChanged(p.price, o.price);
        products := products[(o.store, url) := StoredProduct(p.id, o.price, o.available.GetOr(p.available), o.details)];
        if changed {
          AddPriceHistory(PriceRow(p.id, o.price, o.details.currency, source, o.details.scrapeRun));
        }
        return Upserted(p.id, false, changed);
      }
      var id := nextId;
      products := products[(o.store, url) := StoredProduct(id, o.price, o.available.GetOr(true), o.details)];
      nextId := nextId + 1;
      if o.price.Some? {
        AddPriceHistory(PriceRow(id, o.price, o.details.currency, source, o.details.scrapeRun));
      }
      reply := Upserted(id, true, o.price.Some?);
    }
  }

  // ----- the log against the observations

  function After(s: Shop, obs: seq<Observation>): Shop {
    if obs == [] then s else Upsert(After(s, obs[..|obs| - 1]), obs[|obs| - 1]).0
  }

  predicate Concerns(o: Observation, key: Key) {
    Strip(o.url) != "" && key == (o.store, Strip(o.url))
  }

  /** The prices observed for a product, in order. */
  function Observed(obs: seq<Observation>, key: Key): seq<Price> {
    if obs == [] then []
    else
      var last := obs[|obs| - 1];
      Observed(obs[..|obs| - 1], key) + if Concerns(last, key) then [last.price] else []
  }

  /** The prices logged for a product, in order. */
  function Logged(history: seq<PriceRow>, id: nat): seq<Price> {
    if history == [] then []
    else
      var last := history[|history| - 1];
      Logged(history[..|history| - 1], id) + if last.product == id then [last.price] else []
  }

  /** How many upserts of a product reported a price change. */
  function Changes(s: Shop, obs: seq<Observation>, key: Key): nat {
    if obs == [] then 0
    else
      var (before, last) := (obs[..|obs| - 1], obs[|obs| - 1]);
      var reply := Upsert(After(s, before), last).1;
      Changes(s, before, key) + if Concerns(last, key) && reply.Upserted? && reply.priceChanged then 1 else 0
  }

  /** The prices without the ones that repeat their predecessor; `before` precedes the first. */
  function Collapse(before: Price, prices: seq<Price>): seq<Price>
    decreases |prices|
  {
    if prices == [] then []
    else if prices[0] == before then Collapse(before, prices[1..])
    else [prices[0]] + Collapse(prices[0], prices[1..])
  }

  function LastOr(prices: seq<Price>, default: Price): Price {
    if prices == [] then default else prices[|prices| - 1]
  }

  lemma {:induction false} CollapseAppend(before: Price, prices: seq<Price>, p: Price)
    ensures Collapse(before, prices + [p])
            == Collapse(before, prices) + if p == LastOr(prices, before) then [] else [p]
    decreases |prices|
  {
    if prices == [] {
      assert [p][1..] == [];
    } else {
      assert (prices + [p])[1..] == prices[1..] + [p];
      CollapseAppend(prices[0], prices[1..], p);
    }
  }

  /** Collapsing leaves no repetition, keeps the last price, and drops nothing else: it is empty
      only if every price is the one before. */
  lemma {:induction false} CollapseIsExact(before: Price, prices: seq<Price>)
    ensures var c := Collapse(before, prices);
            && (c != [] ==> c[0] != before)
            && (forall i :: 0 < i < |c| ==> c[i] != c[i - 1])
            && LastOr(c, before) == LastOr(prices, before)
            && (c == [] <==> forall i :: 0 <= i < |prices| ==> prices[i] == before)
            && (forall p :: p in c ==> p in prices)
    decreases |prices|
  {
    if prices != [] {
      var rest := prices[1..];
      CollapseIsExact(prices[0], rest);
      assert prices == [prices[0]] + rest;
      assert forall i :: 0 < i < |prices| ==> prices[i] == rest[i - 1];
      assert forall i :: 0 <= i < |rest| ==> rest[i] == prices[i + 1];
    }
  }

  ghost predicate ShopOk(s: Shop) {
    && (forall k :: k in s.products ==> s.products[k].id < s.nextId)
    && (forall i, k | i in s.products && k in s.products :: s.products[i].id == s.products[k].id ==> i == k)
    && (forall k :: 0 <= k < |s.history| ==> s.history[k].product < s.nextId)
  }

  lemma {:induction false} UpsertKeeps(s: Shop, o: Observation)
    requires ShopOk(s)
    ensures ShopOk(Upsert(s, o).0)
  {
    hide Strip;
  }

  lemma {:induction false} NotLogged(history: seq<PriceRow>, id: nat)
    requires forall k :: 0 <= k < |history| ==> history[k].product < id
    ensures Logged(history, id) == []
  {
    if history != [] { NotLogged(history[..|history| - 1], id); }
  }

  lemma LoggedAppend(history: seq<PriceRow>, row: PriceRow, id: nat)
    ensures Logged(history + [row], id) == Logged(history, id) + if row.product == id then [row.price] else []
  {
    assert (history + [row])[..|history|] == history;
  }

  function PriceIn(s: Shop, key: Key): Price {
    if key in s.products then s.products[key].price else None
  }

  function LogIn(s: Shop, key: Key): seq<Price> {
    if key in s.products then Logged(s.history, s.products[key].id) else []
  }

  /** What is known of one product after some observations that started from `start`. */
  ghost predicate Faithful(start: Shop, s: Shop, key: Key, prices: seq<Price>, changes: nat) {
    && (key in s.products <==> key in start.products || prices != [])
    && (key in start.products ==> key in s.products && s.products[key].id == start.products[key].id)
    && (key in s.products ==>
          && s.products[key].price == LastOr(prices, PriceIn(start, key))
          && Logged(s.history, s.products[key].id) == LogIn(start, key) + Collapse(PriceIn(start, key), prices)
          && changes == |Collapse(PriceIn(start, key), prices)|)
    && (key !in s.products ==> changes == 0)
  }

  lemma {:induction false} UpsertFaithful(start: Shop, s: Shop, o: Observation, key: Key, prices: seq<Price>, changes: nat)
    requires ShopOk(s) && Faithful(start, s, key, prices, changes)
    ensures var (next, reply) := Upsert(s, o);
            if Concerns(o, key)
            then Faithful(start, next, key, prices + [o.price], changes + if reply.Upserted? && reply.priceChanged then 1 else 0)
            else Faithful(start, next, key, prices, changes)
  {
    hide Strip, Collapse, LogIn, PriceIn;
    var (next, reply) := Upsert(s, o);
    if reply.Upserted? {
      var id := if key in next.products then next.products[key].id else 0;
      LoggedAppend(s.history, RowOf(o, reply.id), id);
      assert s.history + [] == s.history;
      if Concerns(o, key) {
        var (before, log) := (PriceIn(start, key), LogIn(start, key));
        CollapseAppend(before, prices, o.price);
        ConcatAssociates(log, Collapse(before, prices), if o.price == LastOr(prices, before) then [] else [o.price]);
        if reply.created {
          NotLogged(s.history, s.nextId);
          NothingIn(start, key);
        }
      }
    }
  }

  lemma NothingIn(s: Shop, key: Key)
    requires key !in s.products
    ensures PriceIn(s, key) == None && LogIn(s, key) == [] && Collapse(None, []) == []
  {
  }

  /** For every sequence of upserts into any shop: a product exists exactly when it did before or was
      observed, a known one keeps its id, its price is the last one observed, its history goes on with
      the observed prices without repetitions, and the upserts that reported a change number what was
      added to it. */
  lemma {:induction false} LogRefinesObservations(start: Shop, obs: seq<Observation>, key: Key)
    requires ShopOk(start)
    ensures var s := After(start, obs);
            ShopOk(s) && Faithful(start, s, key, Observed(obs, key), Changes(start, obs, key))
  {
    hide Strip, Upsert, Concerns, ShopOk, Faithful;
    if obs != [] {
      var (before, last) := (obs[..|obs| - 1], obs[|obs| - 1]);
      LogRefinesObservations(start, before, key);
      UpsertKeeps(After(start, before), last);
      UpsertFaithful(start, After(start, before), last, key, Observed(before, key), Changes(start, before, key));
      assert Observed(before, key) + [] == Observed(before, key);
    } else {
      FaithfulAtFirst(start, key);
    }
  }

  lemma FaithfulAtFirst(start: Shop, key: Key)
    ensures Faithful(start, start, key, [], 0)
  {
    assert LogIn(start, key) + [] == LogIn(start, key);
  }

  lemma EmptyShopOk()
    ensures ShopOk(EMPTY_SHOP)
  {
  }

  /** The current price is the last logged one; a product that never had a price has no log. */
  lemma {:induction false} LogEndsAtCurrentPrice(obs: seq<Observation>, key: Key)
    requires key in After(EMPTY_SHOP, obs).products
    ensures var s := After(EMPTY_SHOP, obs);
            LastOr(Logged(s.history, s.products[key].id), None) == s.products[key].price
  {
    hide Strip, Upsert, ShopOk;
    EmptyShopOk();
    LogRefinesObservations(EMPTY_SHOP, obs, key);
    CollapseIsExact(None, Observed(obs, key));
    var s := After(EMPTY_SHOP, obs);
    assert [] + Collapse(None, Observed(obs, key)) == Collapse(None, Observed(obs, key));
  }

  // ----- the other columns

  /** The last of the first n observations that concerns the product, if any. */
  function LastOf(obs: seq<Observation>, key: Key, n: nat): Option<Observation>
    requires n <= |obs|
  {
    if n == 0 then None else if Concerns(obs[n - 1], key) then Some(obs[n - 1]) else LastOf(obs, key, n - 1)
  }

  /** The availability that the first n observations leave: the last one given, or `start`. */
  function Availability(obs: seq<Observation>, key: Key, n: nat, start: bool): bool
    requires n <= |obs|
  {
    if n == 0 then start
    else if Concerns(obs[n - 1], key) && obs[n - 1].available.Some? then obs[n - 1].available.value
    else Availability(obs, key, n - 1, start)
  }

  /** An observed product has every column of its last observation, and the last availability that
      was given; a product that was not observed is as before. */
  lemma {:induction false} LastObservationStays(start: Shop, obs: seq<Observation>, key: Key, n: nat)
    requires n <= |obs|
    ensures var s := After(start, obs[..n]);
            match LastOf(obs, key, n)
            case None => (key in s.products <==> key in start.products)
                         && (key in s.products ==> s.products[key] == start.products[key])
            case Some(o) =>
              && key in s.products && s.products[key].details == o.details && s.products[key].price == o.price
              && s.products[key].available
                 == Availability(obs, key, n, if key in start.products then start.products[key].available else true)
  {
    hide Strip;
    if n > 0 {
      LastObservationStays(start, obs, key, n - 1);
      assert obs[..n][..n - 1] == obs[..n - 1];
      AvailabilityUnobserved(obs, key, n - 1, if key in start.products then start.products[key].available else true);
    }
  }

  lemma {:induction false} AvailabilityUnobserved(obs: seq<Observation>, key: Key, n: nat, start: bool)
    requires n <= |obs|
    ensures LastOf(obs, key, n) == None ==> Availability(obs, key, n, start) == start
  {
    hide Concerns;
    if n > 0 { AvailabilityUnobserved(obs, key, n - 1, start); }
  }
}
