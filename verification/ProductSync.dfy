/** The product loop of a category sync and its diagnostics
    (pricewatch/services/product_sync_service.py, pricewatch/services/validation_diagnostics.py). */
module ProductSync {
  import opened Basics
  import opened PriceLog

  const SAMPLE_LIMIT := 10
  const MISSING_NAME := "missing_product_name"
  const MISSING_URL := "missing_product_url"

  /** A product record of a feed: its URLs as they came, the other fields after normalisation. */
  datatype Item = Item(
    name: Option<string>,
    rawUrl: Option<string>,
    rawSource: Option<string>,
    price: Price,
    currency: Option<string>,
    externalId: Option<string>,
    description: Option<string>,
    available: Option<bool>)

  datatype Problem = Problem(reason: string, name: Option<string>, url: Option<string>, sourceUrl: Option<string>)

  datatype Metadata = Metadata(skipped: nat, missingUrl: nat, counts: map<string, nat>, sample: seq<Problem>)

  datatype Counters = Counters(processed: nat, created: nat, updated: nat, priceChanges: nat)

  /** Where and for which run the products are stored. `join` resolves a relative URL against
      the page of the category; None is its exception. */
  datatype Target = Target(store: nat, category: nat, run: nat, page: Option<string>,
                           join: (string, string) -> Option<string>)

  datatype Outcome = Finished(counters: Counters) | Failed

  // ----- URLs

  function LowerAscii(c: char): char {
    if 'A' <= c <= 'Z' then (c as int + 32) as char else c
  }

  predicate StartsWith(s: string, prefix: string) {
    |prefix| <= |s| && forall k :: 0 <= k < |prefix| ==> LowerAscii(s[k]) == prefix[k]
  }

  predicate IsAbsolute(url: string) {
    StartsWith(url, "http://") || StartsWith(url, "https://")
  }

  predicate Missing(s: Option<string>) {
    s.None? || s.value == ""
  }

  /** A missing or blank URL is None; a relative one is joined to the page of the category. */
  function NormalizeUrl(t: Target, raw: Option<string>): Option<string> {
    if raw.None? || Strip(raw.value) == "" then None
    else
      var trimmed := Strip(raw.value);
      if !Missing(t.page) && !IsAbsolute(trimmed)
      then Some(t.join(t.page.value, trimmed).GetOr(trimmed)) else Some(trimmed)
  }

  // ----- one item

  /** Why an item is skipped, if it is. */
  function ProblemOf(t: Target, i: Item): Option<Problem> {
    if Missing(i.name) then Some(Problem(MISSING_NAME, None, None, None))
    else if Missing(NormalizeUrl(t, i.rawUrl)) then
      Some(Problem(MISSING_URL, i.name, i.rawUrl, NormalizeUrl(t, i.rawSource)))
    else None
  }

  function ObservationOf(t: Target, i: Item): Observation
    requires ProblemOf(t, i).None?
  {
    Observation(t.store, NormalizeUrl(t, i.rawUrl).value, i.price, i.available,
                Details(i.name.value, i.currency, Some(t.category), i.externalId, i.description,
                        NormalizeUrl(t, i.rawSource), Some(t.run)))
  }

  function Recorded(md: Metadata, p: Problem): Metadata {
    Metadata(
      md.skipped + 1,
      md.missingUrl + if p.reason == MISSING_URL then 1 else 0,
      md.counts[p.reason := (if p.reason in md.counts then md.counts[p.reason] else 0) + 1],
      md.sample + if |md.sample| < SAMPLE_LIMIT then [p] else [])
  }

  /** The counters of the loop, the store, the diagnostics, and whether an upsert raised. */
  datatype Progress = Progress(counters: Counters, shop: Shop, md: Metadata, raised: bool)

  const NO_PROBLEMS := Metadata(0, 0, map[], [])

  function Step(s: Progress, t: Target, i: Item): Progress {
    if s.raised then s
    else
      var n := s.counters.(processed := s.counters.processed + 1);
      var problem := ProblemOf(t, i);
      if problem.Some? then s.(counters := n, md := Recorded(s.md, problem.value))
      else
        var (shop, reply) := Upsert(s.shop, ObservationOf(t, i));
        match reply
        case UrlRequired => s.(counters := n, raised := true)
        case Upserted(_, created, changed) =>
          s.(shop := shop,
             counters := n.(created := n.created + if created then 1 else 0,
                            updated := n.updated + if created then 0 else 1,
                            priceChanges := n.priceChanges + if changed then 1 else 0))
  }

  function Synced(shop: Shop, t: Target, items: seq<Item>, n: nat): Progress
    requires n <= |items|
  {
    if n == 0 then Progress(Counters(0, 0, 0, 0), shop, NO_PROBLEMS, false)
    else Step(Synced(shop, t, items, n - 1), t, items[n - 1])
  }

  // ----- the program

  /** The metadata dictionary of a run. */
  class Diagnostics {
    var skipped: nat
    var missingUrl: nat
    var counts: map<string, nat>
    var sample: seq<Problem>

    constructor ()
      ensures Contents() == NO_PROBLEMS
    {
      skipped, missingUrl, counts, sample := 0, 0, map[], [];
    }

    function Contents(): Metadata
      reads this
    {
      Metadata(skipped, missingUrl, counts, sample)
    }

    method RecordValidationError(p: Problem)
      modifies this`skipped, this`counts, this`sample
      ensures Contents() == Recorded(old(Contents()), p).(missingUrl := old(missingUrl))
    {
      skipped := skipped + 1;
      counts := counts[p.reason := (if p.reason in counts then counts[p.reason] else 0) + 1];
      assert sample + [] == sample;
      if |sample| < SAMPLE_LIMIT {
        sample := sample + [p];
      }
    }
  }

  method SyncCategoryProducts(store: ProductStore, t: Target, items: seq<Item>)
    returns (outcome: Outcome, metadata: Diagnostics)
    modifies store
    ensures fresh(metadata)
    ensures var s := Synced(old(store.Contents()), t, items, |items|);
            && (outcome == if s.raised then Failed else Finished(s.counters))
            && store.Contents() == s.shop && metadata.Contents() == s.md
  {
    hide Upsert, NormalizeUrl;
    metadata := new Diagnostics();
    var processed, created, updated, priceChanges := 0, 0, 0, 0;
    var k := 0;
    while k < |items|
      invariant k <= |items| && fresh(metadata)
      invariant Synced(old(store.Contents()), t, items, k)
                == Progress(Counters(processed, created, updated, priceChanges), store.Contents(), metadata.Contents(), false)
    {
      var i := items[k];
      processed := processed + 1;
      k := k + 1;
      if Missing(i.name) {
        metadata.RecordValidationError(Problem(MISSING_NAME, None, None, None));
        continue;
      }
      var url := NormalizeUrl(t, i.rawUrl);
      var sourceUrl := NormalizeUrl(t, i.rawSource);
      if Missing(url) {
        metadata.missingUrl := metadata.missingUrl + 1;
        metadata.RecordValidationError(Problem(MISSING_URL, i.name, i.rawUrl, sourceUrl));
        continue;
      }
      var details := Details(i.name.value, i.currency, Some(t.category), i.externalId, i.description, sourceUrl, Some(t.run));
      var reply := store.UpsertProduct(Observation(t.store, url.value, i.price, i.available, details));
      if reply.UrlRequired? {
        RaisedStays(old(store.Contents()), t, items, k, |items|);
        UrlRequiredKeeps(Synced(old(store.Contents()), t, items, k - 1).shop, ObservationOf(t, i));
        return Failed, metadata;
      }
      if reply.created {
        created := created + 1;
      } else {
        updated := updated + 1;
      }
      if reply.priceChanged {
        priceChanges := priceChanges + 1;
      }
    }
    outcome := Finished(Counters(processed, created, updated, priceChanges));
  }

  lemma UrlRequiredKeeps(s: Shop, o: Observation)
    ensures Upsert(s, o).1 == UrlRequired ==> Upsert(s, o).0 == s
  {
  }

  lemma {:induction false} RaisedStays(shop: Shop, t: Target, items: seq<Item>, k: nat, n: nat)
    requires k <= n <= |items| && Synced(shop, t, items, k).raised
    ensures Synced(shop, t, items, n) == Synced(shop, t, items, k)
    decreases n
  {
    if k < n { RaisedStays(shop, t, items, k, n - 1); }
  }

  // ----- conservation

  /** The problems of the items, in feed order. */
  function Problems(t: Target, items: seq<Item>, n: nat): seq<Problem>
    requires n <= |items|
  {
    if n == 0 then []
    else
      var last := ProblemOf(t, items[n - 1]);
      Problems(t, items, n - 1) + if last.Some? then [last.value] else []
  }

  function Reasons(problems: seq<Problem>): seq<string> {
    seq(|problems|, k requires 0 <= k < |problems| => problems[k].reason)
  }

  /** The keys that the usable items name. */
  function Keys(t: Target, items: seq<Item>, n: nat): set<Key>
    requires n <= |items|
  {
    set k | 0 <= k < n && ProblemOf(t, items[k]).None? :: KeyOf(ObservationOf(t, items[k]))
  }

  /** The diagnostics summarise the problems: how many, how many per reason, the first ten. */
  ghost predicate Summarises(md: Metadata, problems: seq<Problem>) {
    var reasons := multiset(Reasons(problems));
    && md.skipped == |problems|
    && md.missingUrl == reasons["missing_product_url"]
    && Counts(md.counts, reasons)
    && md.sample == problems[..Min(10, |problems|)]
  }

  ghost predicate Counts(counts: map<string, nat>, reasons: multiset<string>) {
    && (forall r: string :: r in counts <==> r in reasons)
    && (forall r: string :: r in counts ==> counts[r] == reasons[r])
  }

  lemma CountsGrow(counts: map<string, nat>, reasons: multiset<string>, r: string)
    requires Counts(counts, reasons)
    ensures Counts(counts[r := (if r in counts then counts[r] else 0) + 1], reasons + multiset{r})
  {
  }

  lemma {:induction false} RecordedSummarises(md: Metadata, problems: seq<Problem>, p: Problem)
    requires Summarises(md, problems)
    ensures Summarises(Recorded(md, p), problems + [p])
  {
    hide Reasons, Counts;
    ReasonsGrow(problems, p);
    SampleGrows(problems, p);
    CountsGrow(md.counts, multiset(Reasons(problems)), p.reason);
  }

  lemma ReasonsGrow(problems: seq<Problem>, p: Problem)
    ensures multiset(Reasons(problems + [p])) == multiset(Reasons(problems)) + multiset{p.reason}
  {
    assert Reasons(problems + [p]) == Reasons(problems) + [p.reason];
  }

  lemma SampleGrows(problems: seq<Problem>, p: Problem)
    ensures var (before, all) := (problems[..Min(10, |problems|)], problems + [p]);
            all[..Min(10, |all|)] == before + if |before| < SAMPLE_LIMIT then [p] else []
  {
  }

  /** What the loop keeps, whatever the feed holds. */
  ghost predicate Balanced(s: Progress, shop: Shop, problems: seq<Problem>, keys: set<Key>, n: nat) {
    && s.counters.processed == n
    && s.counters.created + s.counters.updated + s.md.skipped == n
    && Summarises(s.md, problems)
    && s.shop.products.Keys == shop.products.Keys + keys
    && s.counters.created == |s.shop.products| - |shop.products|
    && shop.history <= s.shop.history
    && s.counters.priceChanges == |s.shop.history| - |shop.history|
  }

  lemma {:induction false} UpsertGrows(s: Shop, o: Observation)
    requires Upsert(s, o).1.Upserted?
    ensures var (next, reply) := Upsert(s, o);
            && next.products.Keys == s.products.Keys + {KeyOf(o)}
            && |next.products| == |s.products| + (if reply.created then 1 else 0)
            && s.history <= next.history
            && |next.history| == |s.history| + if reply.priceChanged then 1 else 0
  {
    hide Strip;
    var (next, reply) := Upsert(s, o);
    assert |next.products| == |next.products.Keys| && |s.products| == |s.products.Keys|;
    if KeyOf(o) in s.products {
      assert next.products.Keys == s.products.Keys;
    }
  }

  /** Sync conservation: every processed item is created, updated or skipped; the diagnostics
      summarise exactly the skipped ones; created counts the growth of the URL-keyed product
      set, which gains exactly the keys of the usable items; price changes count the growth of
      the price history, which is only appended to. */
  lemma {:induction false} SyncBalances(shop: Shop, t: Target, items: seq<Item>, n: nat)
    requires n <= |items| && !Synced(shop, t, items, n).raised
    ensures Balanced(Synced(shop, t, items, n), shop, Problems(t, items, n), Keys(t, items, n), n)
  {
    if n == 0 {
      assert Problems(t, items, 0)[..0] == [];
    } else {
      SyncBalances(shop, t, items, n - 1);
      BalancedStep(Synced(shop, t, items, n - 1), shop, t, items, n);
    }
  }

  lemma {:induction false} BalancedStep(s: Progress, shop: Shop, t: Target, items: seq<Item>, n: nat)
    requires 0 < n <= |items| && !s.raised && !Step(s, t, items[n - 1]).raised
    requires Balanced(s, shop, Problems(t, items, n - 1), Keys(t, items, n - 1), n - 1)
    ensures Balanced(Step(s, t, items[n - 1]), shop, Problems(t, items, n), Keys(t, items, n), n)
  {
    hide Upsert, Balanced, Recorded, Missing;
    KeysGrow(t, items, n);
    assert Problems(t, items, n - 1) + [] == Problems(t, items, n - 1);
    var problem := ProblemOf(t, items[n - 1]);
    if problem.Some? {
      SkipBalances(s, shop, Problems(t, items, n - 1), Keys(t, items, n - 1), n - 1, problem.value);
    } else {
      StoreBalances(s, shop, Problems(t, items, n - 1), Keys(t, items, n - 1), n - 1, ObservationOf(t, items[n - 1]));
    }
  }

  lemma KeysGrow(t: Target, items: seq<Item>, n: nat)
    requires 0 < n <= |items|
    ensures Keys(t, items, n) == if ProblemOf(t, items[n - 1]).Some? then Keys(t, items, n - 1)
                                 else Keys(t, items, n - 1) + {KeyOf(ObservationOf(t, items[n - 1]))}
  {
    hide ProblemOf, KeyOf;
  }

  lemma {:induction false} SkipBalances(s: Progress, shop: Shop, problems: seq<Problem>, keys: set<Key>, n: nat, p: Problem)
    requires Balanced(s, shop, problems, keys, n)
    ensures var next := s.(counters := s.counters.(processed := s.counters.processed + 1), md := Recorded(s.md, p));
            Balanced(next, shop, problems + [p], keys, n + 1)
  {
    RecordedSummarises(s.md, problems, p);
    RecordedSkips(s.md, p);
    hide Recorded, Summarises;
  }

  lemma {:induction false} StoreBalances(s: Progress, shop: Shop, problems: seq<Problem>, keys: set<Key>, n: nat, o: Observation)
    requires Balanced(s, shop, problems, keys, n) && Upsert(s.shop, o).1.Upserted?
    ensures var (stored, reply) := Upsert(s.shop, o);
            var c := s.counters;
            var next := s.(shop := stored,
                           counters := Counters(c.processed + 1,
                                                c.created + if reply.created then 1 else 0,
                                                c.updated + if reply.created then 0 else 1,
                                                c.priceChanges + if reply.priceChanged then 1 else 0));
            Balanced(next, shop, problems, keys + {KeyOf(o)}, n + 1)
  {
    UpsertGrows(s.shop, o);
    hide Upsert, Summarises;
  }

  lemma RecordedSkips(md: Metadata, p: Problem)
    ensures Recorded(md, p).skipped == md.skipped + 1
  {
  }

  /** An item with a name whose normalised URL is there but blank. */
  predicate IsBlank(t: Target, i: Item) {
    ProblemOf(t, i).None? && Strip(NormalizeUrl(t, i.rawUrl).value) == ""
  }

  /** The sync fails exactly when some item with a name has a URL that normalises to white space. */
  lemma {:induction false} RaisesIff(shop: Shop, t: Target, items: seq<Item>, n: nat)
    requires n <= |items|
    ensures Synced(shop, t, items, n).raised <==> exists k :: 0 <= k < n && IsBlank(t, items[k])
  {
    hide Strip, Recorded, Missing, NormalizeUrl;
    if n > 0 { RaisesIff(shop, t, items, n - 1); }
  }

  lemma {:induction false} StripLeftStays(s: string)
    ensures var l := StripLeft(s); StripLeft(l) == l && (l != "" ==> !IsSpace(l[0]))
  {
    if s != "" && IsSpace(s[0]) { StripLeftStays(s[1..]); }
  }

  lemma {:induction false} StripRightStays(s: string)
    ensures var r := StripRight(s);
            && StripRight(r) == r && |r| <= |s| && r == s[..|r|]
            && (s != "" && !IsSpace(s[0]) ==> r != "" && r[0] == s[0])
  {
    if s != "" && IsSpace(s[|s| - 1]) { StripRightStays(s[..|s| - 1]); }
  }

  lemma StripTwice(s: string)
    ensures Strip(Strip(s)) == Strip(s)
  {
    StripLeftStays(s);
    StripRightStays(StripLeft(s));
    var r := Strip(s);
    assert r != "" ==> !IsSpace(r[0]);
    assert StripLeft(r) == r;
  }

  /** Normalisation makes a blank URL a missing one, and no other URL blank, except through the
      join: what it returns for a relative URL may itself be blank. */
  lemma BlankOnlyByJoin(t: Target, i: Item)
    ensures IsBlank(t, i) <==>
              var trimmed := Strip(i.rawUrl.GetOr(""));
              && !Missing(i.name) && trimmed != "" && !Missing(t.page) && !IsAbsolute(trimmed)
              && t.join(t.page.value, trimmed).Some?
              && t.join(t.page.value, trimmed).value != "" && Strip(t.join(t.page.value, trimmed).value) == ""
    ensures !Missing(i.name) && Strip(i.rawUrl.GetOr("")) == "" ==>
              ProblemOf(t, i) == Some(Problem(MISSING_URL, i.name, i.rawUrl, NormalizeUrl(t, i.rawSource)))
  {
    assert Strip("") == "";
    hide Strip, IsAbsolute;
    StripTwice(i.rawUrl.GetOr(""));
  }

  /** The page of the category never joins to white space. */
  ghost predicate JoinsVisibly(t: Target) {
    !Missing(t.page) ==>
      forall url: string :: url != "" && t.join(t.page.value, url).GetOr("") != "" ==>
        Strip(t.join(t.page.value, url).value) != ""
  }

  /** While joins are visible no feed makes the sync fail: a URL of white space only counts as
      missing, and the books balance for every feed. */
  lemma {:induction false} EveryFeedBalances(shop: Shop, t: Target, items: seq<Item>)
    requires JoinsVisibly(t)
    ensures var s := Synced(shop, t, items, |items|);
            !s.raised && Balanced(s, shop, Problems(t, items, |items|), Keys(t, items, |items|), |items|)
  {
    hide Strip, IsBlank, Balanced, Synced;
    RaisesIff(shop, t, items, |items|);
    if k :| 0 <= k < |items| && IsBlank(t, items[k]) {
      BlankOnlyByJoin(t, items[k]);
      assert false;
    }
    SyncBalances(shop, t, items, |items|);
  }

  /** A failed sync has stored exactly what the items before the first such one lead to. */
  lemma {:induction false} StopsAtFirstBlank(shop: Shop, t: Target, items: seq<Item>, k: nat)
    requires k < |items| && IsBlank(t, items[k]) && forall i :: 0 <= i < k ==> !IsBlank(t, items[i])
    ensures Synced(shop, t, items, |items|).shop == Synced(shop, t, items, k).shop
    ensures Balanced(Synced(shop, t, items, k), shop, Problems(t, items, k), Keys(t, items, k), k)
  {
    hide Strip, Recorded, Missing, Balanced, NormalizeUrl;
    RaisesIff(shop, t, items, k);
    RaisesIff(shop, t, items, k + 1);
    RaisedStays(shop, t, items, k + 1, |items|);
    UrlRequiredKeeps(Synced(shop, t, items, k).shop, ObservationOf(t, items[k]));
    SyncBalances(shop, t, items, k);
  }

  // ----- URLs and problems, in full

  predicate StartsWithHttp(url: string) {
    && |url| >= 7 && url[0] in "hH" && url[1] in "tT" && url[2] in "tT" && url[3] in "pP"
    && (SlashesAt(url, 4) || (url[4] in "sS" && SlashesAt(url, 5)))
  }

  predicate SlashesAt(url: string, k: nat) {
    k + 2 < |url| && url[k] == ':' && url[k + 1] == '/' && url[k + 2] == '/'
  }

  lemma LowerAt(url: string, prefix: string)
    requires |prefix| <= |url|
    ensures StartsWith(url, prefix) <==> LowerAll(url[..|prefix|]) == prefix
  {
    var low := LowerAll(url[..|prefix|]);
    if low == prefix {
      forall k | 0 <= k < |prefix| ensures LowerAscii(url[k]) == prefix[k] { assert low[k] == prefix[k]; }
    }
  }

  function LowerAll(s: string): (low: string)
    ensures |low| == |s| && forall k :: 0 <= k < |s| ==> low[k] == LowerAscii(s[k])
  {
    seq(|s|, k requires 0 <= k < |s| => LowerAscii(s[k]))
  }

  lemma SameSeven(s: string, x: string)
    requires |s| == 7 && |x| == 7
    ensures s == x <==> s[0] == x[0] && s[1] == x[1] && s[2] == x[2] && s[3] == x[3] && s[4] == x[4] && s[5] == x[5] && s[6] == x[6]
  {
  }

  lemma SameEight(s: string, x: string)
    requires |s| == 8 && |x| == 8
    ensures s == x <==> && s[0] == x[0] && s[1] == x[1] && s[2] == x[2] && s[3] == x[3]
                        && s[4] == x[4] && s[5] == x[5] && s[6] == x[6] && s[7] == x[7]
  {
  }

  lemma LowerIsExact(c: char)
    ensures LowerAscii(c) == 'h' <==> c in "hH"
    ensures LowerAscii(c) == 't' <==> c in "tT"
    ensures LowerAscii(c) == 'p' <==> c in "pP"
    ensures LowerAscii(c) == 's' <==> c in "sS"
    ensures LowerAscii(c) == ':' <==> c == ':'
    ensures LowerAscii(c) == '/' <==> c == '/'
  {
    var n := c as int;
    assert c == n as char;
  }

  lemma AbsoluteIsExact(url: string)
    ensures IsAbsolute(url) <==> StartsWithHttp(url)
  {
    forall k | 0 <= k < |url|
      ensures && (LowerAscii(url[k]) == 'h' <==> url[k] in "hH") && (LowerAscii(url[k]) == 't' <==> url[k] in "tT")
              && (LowerAscii(url[k]) == 'p' <==> url[k] in "pP") && (LowerAscii(url[k]) == 's' <==> url[k] in "sS")
              && (LowerAscii(url[k]) == ':' <==> url[k] == ':') && (LowerAscii(url[k]) == '/' <==> url[k] == '/')
    {
      LowerIsExact(url[k]);
    }
    if |url| >= 7 {
      LowerAt(url, "http://");
      SameSeven(LowerAll(url[..7]), "http://");
    }
    if |url| >= 8 {
      LowerAt(url, "https://");
      SameEight(LowerAll(url[..8]), "https://");
    }
    hide LowerAscii, LowerAll;
  }

  /** A URL is trimmed; a blank one is missing; a relative one is joined to the page of the category
      if that is known, and kept when the join fails. */
  lemma NormalizeIsExact(t: Target, raw: Option<string>)
    ensures var url := NormalizeUrl(t, raw);
            if raw == None || Strip(raw.value) == "" then url == None
            else if t.page == None || t.page == Some("") || StartsWithHttp(Strip(raw.value)) then url == Some(Strip(raw.value))
            else var joined := t.join(t.page.value, Strip(raw.value));
                 url == if joined == None then Some(Strip(raw.value)) else joined
  {
    if raw.Some? { AbsoluteIsExact(Strip(raw.value)); }
    hide Strip, IsAbsolute, StartsWithHttp;
  }

  /** An item without a name is skipped for that, one without a URL for that, and no other one. */
  lemma ProblemIsExact(t: Target, i: Item)
    ensures var (nameless, url) := (i.name == None || i.name == Some(""), NormalizeUrl(t, i.rawUrl));
            ProblemOf(t, i) == if nameless then Some(Problem("missing_product_name", None, None, None))
                               else if url == None || url == Some("")
                               then Some(Problem("missing_product_url", i.name, i.rawUrl, NormalizeUrl(t, i.rawSource)))
                               else None
  {
    hide NormalizeUrl;
  }

  // ----- what a feed leaves in the shop

  /** The item is stored as the product: it has a name, and a URL that normalises to the product's. */
  predicate StoredAs(t: Target, i: Item, key: Key) {
    && i.name != None && i.name != Some("")
    && var url := NormalizeUrl(t, i.rawUrl);
       url != None && Strip(url.value) != "" && key == (t.store, Strip(url.value))
  }

  /** The prices that the first n items give the product. */
  function FeedPrices(t: Target, items: seq<Item>, n: nat, key: Key): seq<Price>
    requires n <= |items|
  {
    if n == 0 then []
    else FeedPrices(t, items, n - 1, key) + if StoredAs(t, items[n - 1], key) then [items[n - 1].price] else []
  }

  /** The last of the first n items that is stored as the product. */
  function LastItem(t: Target, items: seq<Item>, n: nat, key: Key): Option<Item>
    requires n <= |items|
  {
    if n == 0 then None else if StoredAs(t, items[n - 1], key) then Some(items[n - 1]) else LastItem(t, items, n - 1, key)
  }

  /** The last availability that the first n items give the product, or `start`. */
  function FeedAvailability(t: Target, items: seq<Item>, n: nat, key: Key, start: bool): bool
    requires n <= |items|
  {
    if n == 0 then start
    else if StoredAs(t, items[n - 1], key) && items[n - 1].available.Some? then items[n - 1].available.value
    else FeedAvailability(t, items, n - 1, key, start)
  }

  function SeenBy(t: Target, items: seq<Item>, n: nat): seq<Observation>
    requires n <= |items|
  {
    if n == 0 then []
    else SeenBy(t, items, n - 1) + if ProblemOf(t, items[n - 1]).None? then [ObservationOf(t, items[n - 1])] else []
  }

  lemma {:induction false} SyncedIsAfter(shop: Shop, t: Target, items: seq<Item>, n: nat)
    requires n <= |items| && !Synced(shop, t, items, n).raised
    ensures Synced(shop, t, items, n).shop == After(shop, SeenBy(t, items, n))
  {
    hide Upsert, Recorded, ProblemOf;
    if n > 0 {
      SyncedIsAfter(shop, t, items, n - 1);
      var before := SeenBy(t, items, n - 1);
      if ProblemOf(t, items[n - 1]).None? {
        var o := ObservationOf(t, items[n - 1]);
        assert (before + [o])[..|before|] == before;
      } else {
        assert before + [] == before;
      }
    }
  }

  /** How the item shows in its observation. */
  lemma ItemObserved(t: Target, i: Item, key: Key)
    ensures StoredAs(t, i, key) <==> ProblemOf(t, i).None? && Concerns(ObservationOf(t, i), key)
    ensures ProblemOf(t, i).None? ==>
      var o := ObservationOf(t, i);
      && o.price == i.price && o.available == i.available
      && o.details == Details(i.name.value, i.currency, Some(t.category), i.externalId, i.description,
                              NormalizeUrl(t, i.rawSource), Some(t.run))
  {
    StripNothing();
    hide NormalizeUrl, Strip;
  }

  lemma {:induction false} FeedObserved(t: Target, items: seq<Item>, n: nat, key: Key, start: bool)
    requires n <= |items|
    ensures var obs := SeenBy(t, items, n);
            && FeedPrices(t, items, n, key) == Observed(obs, key)
            && FeedAvailability(t, items, n, key, start) == Availability(obs, key, |obs|, start)
            && match LastItem(t, items, n, key)
               case None => LastOf(obs, key, |obs|) == None
               case Some(i) => ProblemOf(t, i).None? && LastOf(obs, key, |obs|) == Some(ObservationOf(t, i))
  {
    hide ProblemOf, ObservationOf, StoredAs, Concerns;
    if n > 0 {
      FeedObserved(t, items, n - 1, key, start);
      var (i, before) := (items[n - 1], SeenBy(t, items, n - 1));
      ItemObserved(t, i, key);
      if ProblemOf(t, i).None? {
        var o := ObservationOf(t, i);
        assert (before + [o])[..|before|] == before;
        ObservedPrefix(before, o, key, |before|, start);
        assert Observed(before, key) + [] == Observed(before, key);
      } else {
        assert before + [] == before;
      }
    }
  }

  lemma {:induction false} ObservedPrefix(obs: seq<Observation>, o: Observation, key: Key, n: nat, start: bool)
    requires n <= |obs|
    ensures LastOf(obs + [o], key, n) == LastOf(obs, key, n)
    ensures Availability(obs + [o], key, n, start) == Availability(obs, key, n, start)
  {
    hide Concerns;
    if n > 0 {
      ObservedPrefix(obs, o, key, n - 1, start);
      assert (obs + [o])[n - 1] == obs[n - 1];
    }
  }

  /** What the product looks like after the items: as the last of them that is stored as it says,
      with the last availability that was given; untouched when there is none. */
  ghost predicate LooksLike(shop: Shop, s: Shop, t: Target, items: seq<Item>, n: nat, key: Key)
    requires n <= |items|
  {
    match LastItem(t, items, n, key)
    case None => (key in s.products <==> key in shop.products)
                 && (key in s.products ==> s.products[key] == shop.products[key])
    case Some(i) =>
      && key in s.products && i.name.Some?
      && var p := s.products[key];
         && p.price == i.price && p.details.name == i.name.value && p.details.currency == i.currency
         && p.details.category == Some(t.category) && p.details.externalId == i.externalId
         && p.details.description == i.description && p.details.sourceUrl == NormalizeUrl(t, i.rawSource)
         && p.details.scrapeRun == Some(t.run)
         && p.available == FeedAvailability(t, items, n, key, if key in shop.products then shop.products[key].available else true)
  }

  /** A feed that does not fail, any shop it is synced into, any product: it exists exactly when it did
      before or an item is stored as it, and keeps its id; it looks like the last such item; and its
      price history goes on with the prices of these items, without repetitions. */
  lemma {:induction false} FeedIsStored(shop: Shop, t: Target, items: seq<Item>, n: nat, key: Key)
    requires n <= |items| && ShopOk(shop) && !Synced(shop, t, items, n).raised
    ensures var (s, prices) := (Synced(shop, t, items, n).shop, FeedPrices(t, items, n, key));
            && (key in s.products <==> key in shop.products || prices != [])
            && (key in shop.products ==> s.products[key].id == shop.products[key].id)
            && (key in s.products ==>
                  && s.products[key].price == LastOr(prices, PriceIn(shop, key))
                  && Logged(s.history, s.products[key].id) == LogIn(shop, key) + Collapse(PriceIn(shop, key), prices))
            && LooksLike(shop, s, t, items, n, key)
  {
    var obs := SeenBy(t, items, n);
    SyncedIsAfter(shop, t, items, n);
    FeedObserved(t, items, n, key, if key in shop.products then shop.products[key].available else true);
    LogRefinesObservations(shop, obs, key);
    LastObservationStays(shop, obs, key, |obs|);
    assert obs[..|obs|] == obs;
    hide Synced, SeenBy, After, Observed, ProblemOf, ObservationOf, StoredAs, Concerns, Availability, FeedAvailability, FeedPrices,
         LastOf, PriceIn, LogIn, Collapse, Logged, ShopOk;
    var last := LastItem(t, items, n, key);
    hide LastItem;
    if last.Some? {
      ItemObserved(t, last.value, key);
      StoredHasName(t, last.value);
    }
  }

  lemma StoredHasName(t: Target, i: Item)
    requires ProblemOf(t, i).None?
    ensures i.name.Some?
  {
    hide NormalizeUrl;
  }

  /** A row added to the price history tells its item: price, currency, run, and the source page or
      else the product's own URL. */
  ghost predicate RowFrom(t: Target, i: Item, row: PriceRow) {
    && row.price == i.price && row.currency == i.currency && row.scrapeRun == Some(t.run)
    && var (source, url) := (NormalizeUrl(t, i.rawSource), NormalizeUrl(t, i.rawUrl));
       row.sourceUrl == if source != None && source != Some("") then source.value else Strip(url.GetOr(""))
  }

  ghost predicate RowsTell(t: Target, items: seq<Item>, n: nat, before: seq<PriceRow>, history: seq<PriceRow>)
    requires n <= |items|
  {
    before <= history && forall h :: |before| <= h < |history| ==> TellsOneOf(t, items, n, history[h])
  }

  ghost predicate TellsOneOf(t: Target, items: seq<Item>, n: nat, row: PriceRow)
    requires n <= |items|
  {
    exists k :: 0 <= k < n && RowFrom(t, items[k], row)
  }

  /** Every row that a sync adds to the history is of an item of the feed. */
  lemma {:induction false} AddedRowsTell(shop: Shop, t: Target, items: seq<Item>, n: nat)
    requires n <= |items|
    ensures RowsTell(t, items, n, shop.history, Synced(shop, t, items, n).shop.history)
  {
    if n > 0 {
      AddedRowsTell(shop, t, items, n - 1);
      StepTells(Synced(shop, t, items, n - 1), t, items[n - 1]);
      hide RowFrom, Step;
      RowsTellMore(t, items, n, shop.history, Synced(shop, t, items, n - 1).shop.history, Synced(shop, t, items, n).shop.history);
    }
  }

  lemma StepTells(s: Progress, t: Target, i: Item)
    ensures var (before, after) := (s.shop.history, Step(s, t, i).shop.history);
            before <= after && |after| <= |before| + 1 && (|after| > |before| ==> RowFrom(t, i, after[|before|]))
  {
    if !s.raised && ProblemOf(t, i).None? {
      RowIsTold(s.shop, t, i);
    }
    hide Upsert, Recorded, RowFrom, ProblemOf, ObservationOf;
  }

  lemma RowsTellMore(t: Target, items: seq<Item>, n: nat, first: seq<PriceRow>, before: seq<PriceRow>, after: seq<PriceRow>)
    requires 0 < n <= |items| && RowsTell(t, items, n - 1, first, before)
    requires before <= after && |after| <= |before| + 1 && (|after| > |before| ==> RowFrom(t, items[n - 1], after[|before|]))
    ensures RowsTell(t, items, n, first, after)
  {
    forall h | |first| <= h < |after| ensures TellsOneOf(t, items, n, after[h]) {
      if h < |before| {
        assert TellsOneOf(t, items, n - 1, before[h]) && after[h] == before[h];
      } else {
        assert RowFrom(t, items[n - 1], after[h]);
      }
    }
  }

  lemma RowIsTold(s: Shop, t: Target, i: Item)
    requires ProblemOf(t, i).None?
    ensures var next := Upsert(s, ObservationOf(t, i)).0;
            && s.history <= next.history && |next.history| <= |s.history| + 1
            && (|next.history| > |s.history| ==> RowFrom(t, i, next.history[|s.history|]))
  {
    hide Strip, NormalizeUrl;
  }
}
