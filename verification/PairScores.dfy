/** How well two prepared product records fit (pricewatch/core/normalize.py, _pair_score). */
module PairScores {
  import opened Basics

  /** What _prep extracts from a product. */
  datatype Prepared = Prepared(
    norm: string,
    brand: Option<string>,
    level: Option<string>,
    tokens: set<string>,
    flex: Option<int>,
    hand: Option<string>,
    productType: Option<string>,
    sportContext: Option<string>,
    goalie: bool,
    curve: Option<string>,
    skateFit: Option<string>,
    sizeTokens: set<string>,
    accessory: bool,
    price: Option<int>)

  /** The parts that are taken as given: the fuzzy ratio, the domain dictionary of series
      names, and the shortlist of pool positions that the fuzzy library extracts for a
      title; with the parameters of heuristic_match. */
  datatype Matcher = Matcher(
    ratio: (string, string) -> real,
    series: set<string>,
    shortlist: (string, seq<string>) -> seq<nat>,
    topK: nat,
    minScore: real,
    minGap: real)

  const IMPOSSIBLE := -1000000000.0

  predicate Clash<T(==)>(a: Option<T>, b: Option<T>) {
    a.Some? && b.Some? && a != b
  }

  predicate Agree<T(==)>(a: Option<T>, b: Option<T>) {
    a.Some? && b.Some? && a == b
  }

  /** A player's type and its goalie counterpart. */
  predicate CompatibleTypes(a: string, b: string) {
    {a, b} in {{"STICK", "GOALIE_STICK"}, {"SKATES", "GOALIE_SKATES"}, {"GLOVES", "GOALIE_GLOVE"},
               {"HELMET", "GOALIE_HELMET"}, {"PANTS", "GOALIE_PANTS"}}
  }

  /** The five reasons why two records cannot be the same product. */
  predicate HardConflict(a: Prepared, b: Prepared) {
    || Clash(a.brand, b.brand)
    || Clash(a.sportContext, b.sportContext)
    || (a.goalie != b.goalie && (a.productType.Some? || b.productType.Some?))
    || (Clash(a.productType, b.productType) && !CompatibleTypes(a.productType.value, b.productType.value))
    || a.accessory != b.accessory
  }

  predicate HasDigit(t: string) {
    exists i :: 0 <= i < |t| && '0' <= t[i] <= '9'
  }

  function When(c: bool, points: real): real {
    if c then points else 0.0
  }

  function TokenBonus(a: Prepared, b: Prepared): real {
    var shared := a.tokens * b.tokens;
    var strong := set t | t in shared && HasDigit(t);
    10.0 * |strong| as real + 4.0 * (|shared| - |strong|) as real
  }

  function Penalty(a: Prepared, b: Prepared): real {
    When(Clash(a.level, b.level), 25.0)
    + When(Clash(a.flex, b.flex), 40.0)
    + When(Clash(a.hand, b.hand), 60.0)
    + When(Clash(a.curve, b.curve), 20.0)
    + When(Clash(a.skateFit, b.skateFit), 30.0)
    + When(a.sizeTokens != {} && b.sizeTokens != {} && a.sizeTokens * b.sizeTokens == {}, 15.0)
  }

  function DomainBonus(m: Matcher, a: Prepared, b: Prepared): real {
    When(Agree(a.productType, b.productType), 5.0)
    + When(Agree(a.sportContext, b.sportContext), 3.0)
    + When(a.goalie && b.goalie, 4.0)
    + 8.0 * |a.tokens * b.tokens * m.series| as real
    + When(Agree(a.curve, b.curve), 6.0)
    + When(Agree(a.hand, b.hand), 5.0)
    + When(Agree(a.flex, b.flex), 4.0)
    + When(Agree(a.skateFit, b.skateFit), 6.0)
  }

  function PriceModifier(a: Prepared, b: Prepared): real {
    if a.price.Some? && b.price.Some? && a.price.value > 0 && b.price.value > 0 then
      var ratio := Min(a.price.value, b.price.value) as real / Max(a.price.value, b.price.value) as real;
      if ratio >= 0.9 then 3.0 else if ratio < 0.5 then -5.0 else 0.0
    else 0.0
  }

  function PairScore(m: Matcher, a: Prepared, b: Prepared): real {
    if HardConflict(a, b) then IMPOSSIBLE
    else m.ratio(a.norm, b.norm) + TokenBonus(a, b) + DomainBonus(m, a, b) - Penalty(a, b) + PriceModifier(a, b)
  }

  ghost predicate RatioOk(m: Matcher) {
    forall x, y :: 0.0 <= m.ratio(x, y) <= 100.0
  }

  // ----- which pairs are impossible

  /** A kind of player equipment and the goalie's kind of it. */
  predicate PlayerAndGoalie(x: string, y: string) {
    || (x == "STICK" && y == "GOALIE_STICK")
    || (x == "SKATES" && y == "GOALIE_SKATES")
    || (x == "GLOVES" && y == "GOALIE_GLOVE")
    || (x == "HELMET" && y == "GOALIE_HELMET")
    || (x == "PANTS" && y == "GOALIE_PANTS")
  }

  /** Both are known, and they differ. */
  predicate Differ<T(==)>(x: Option<T>, y: Option<T>) {
    x != None && y != None && x != y
  }

  /** Why two records cannot be the same product: the brands or the kinds of sport differ, one is a
      goalie's and a product type is known, the product types differ and are not a player's and a
      goalie's kind of one thing, or only one of them is an accessory. */
  predicate Incompatible(a: Prepared, b: Prepared) {
    || Differ(a.brand, b.brand)
    || Differ(a.sportContext, b.sportContext)
    || (a.goalie != b.goalie && !(a.productType == None && b.productType == None))
    || (Differ(a.productType, b.productType)
        && !PlayerAndGoalie(a.productType.value, b.productType.value)
        && !PlayerAndGoalie(b.productType.value, a.productType.value))
    || a.accessory != b.accessory
  }

  lemma PairOfTwo(x: string, y: string, p: string, q: string)
    ensures {x, y} == {p, q} <==> (x == p && y == q) || (x == q && y == p)
  {
    if {x, y} == {p, q} {
      assert p in {x, y} && q in {x, y} && x in {p, q} && y in {p, q};
    }
  }

  lemma ConflictInFields(a: Prepared, b: Prepared)
    ensures HardConflict(a, b) <==> Incompatible(a, b)
  {
    if a.productType.Some? && b.productType.Some? {
      var (x, y) := (a.productType.value, b.productType.value);
      PairOfTwo(x, y, "STICK", "GOALIE_STICK");
      PairOfTwo(x, y, "SKATES", "GOALIE_SKATES");
      PairOfTwo(x, y, "GLOVES", "GOALIE_GLOVE");
      PairOfTwo(x, y, "HELMET", "GOALIE_HELMET");
      PairOfTwo(x, y, "PANTS", "GOALIE_PANTS");
    }
  }

  /** Scores tell impossible pairs apart: an incompatible pair lies below every other pair,
      which cannot lose more than 195 points. */
  lemma ImpossibleIffConflict(m: Matcher, a: Prepared, b: Prepared)
    requires RatioOk(m)
    ensures Incompatible(a, b) <==> PairScore(m, a, b) < -195.0
    ensures Incompatible(a, b) <==> PairScore(m, a, b) == -1000000000.0
  {
    ConflictInFields(a, b);
    hide HardConflict, Incompatible;
    var shared := a.tokens * b.tokens;
    var strong := set t | t in shared && HasDigit(t);
    SubsetSize(strong, shared);
    assert 0.0 <= m.ratio(a.norm, b.norm);
  }

  // ----- what a field is worth

  /** The points of a field: for two equal values, for two different ones; none for a missing one. */
  function Points<T(==)>(x: Option<T>, y: Option<T>, same: real, different: real): real {
    if x == None || y == None then 0.0 else if x == y then same else different
  }

  predicate NoDigit(t: string) {
    forall i :: 0 <= i < |t| ==> t[i] < '0' || '9' < t[i]
  }

  /** Points for the shared tokens: 10 for one with a digit, 4 for another, 8 more for a series name. */
  function TokenPoints(m: Matcher, a: Prepared, b: Prepared): real {
    var digits := set t | t in a.tokens && t in b.tokens && !NoDigit(t);
    var words := set t | t in a.tokens && t in b.tokens && NoDigit(t);
    var names := set t | t in a.tokens && t in b.tokens && t in m.series;
    10.0 * |digits| as real + 4.0 * |words| as real + 8.0 * |names| as real
  }

  /** Points for prices: 3 when the lower one is at least nine tenths of the other, -5 when it is
      less than half; nothing when one is missing or not positive. */
  function PricePoints(a: Option<int>, b: Option<int>): int {
    if a == None || b == None || a.value <= 0 || b.value <= 0 then 0
    else if 10 * Min(a.value, b.value) >= 9 * Max(a.value, b.value) then 3
    else if 2 * Min(a.value, b.value) < Max(a.value, b.value) then -5
    else 0
  }

  /** Field by field: the score of a compatible pair is the ratio of the titles and what each field
      adds to it, on its own. */
  lemma ScoreByField(m: Matcher, a: Prepared, b: Prepared)
    requires !Incompatible(a, b)
    ensures PairScore(m, a, b)
            == m.ratio(a.norm, b.norm)
               + TokenPoints(m, a, b)
               + Points(a.level, b.level, 0.0, -25.0)
               + Points(a.flex, b.flex, 4.0, -40.0)
               + Points(a.hand, b.hand, 5.0, -60.0)
               + Points(a.curve, b.curve, 6.0, -20.0)
               + Points(a.skateFit, b.skateFit, 6.0, -30.0)
               + Points(a.productType, b.productType, 5.0, 0.0)
               + Points(a.sportContext, b.sportContext, 3.0, 0.0)
               + (if a.goalie && b.goalie then 4.0 else 0.0)
               + (if a.sizeTokens != {} && b.sizeTokens != {} && a.sizeTokens !! b.sizeTokens then -15.0 else 0.0)
               + PricePoints(a.price, b.price) as real
  {
    ConflictInFields(a, b);
    TokensCounted(m, a, b);
    PricesCounted(a, b);
    FieldsCounted(m, a, b);
    hide HardConflict, Incompatible, TokenPoints, TokenBonus, PricePoints, PriceModifier, DomainBonus, Penalty, Points;
  }

  lemma FieldsCounted(m: Matcher, a: Prepared, b: Prepared)
    requires !Incompatible(a, b)
    ensures DomainBonus(m, a, b) - 8.0 * |a.tokens * b.tokens * m.series| as real - Penalty(a, b)
            == Points(a.level, b.level, 0.0, -25.0)
               + Points(a.flex, b.flex, 4.0, -40.0)
               + Points(a.hand, b.hand, 5.0, -60.0)
               + Points(a.curve, b.curve, 6.0, -20.0)
               + Points(a.skateFit, b.skateFit, 6.0, -30.0)
               + Points(a.productType, b.productType, 5.0, 0.0)
               + Points(a.sportContext, b.sportContext, 3.0, 0.0)
               + (if a.goalie && b.goalie then 4.0 else 0.0)
               + (if a.sizeTokens != {} && b.sizeTokens != {} && a.sizeTokens !! b.sizeTokens then -15.0 else 0.0)
  {
    hide Incompatible;
    if a.sizeTokens !! b.sizeTokens {
      assert a.sizeTokens * b.sizeTokens == {};
    } else {
      var t :| t in a.sizeTokens && t in b.sizeTokens;
      assert t in a.sizeTokens * b.sizeTokens;
    }
    BonusAndPenalty(a.level, b.level, 0.0, 25.0);
    BonusAndPenalty(a.flex, b.flex, 4.0, 40.0);
    BonusAndPenalty(a.hand, b.hand, 5.0, 60.0);
    BonusAndPenalty(a.curve, b.curve, 6.0, 20.0);
    BonusAndPenalty(a.skateFit, b.skateFit, 6.0, 30.0);
    BonusAndPenalty(a.productType, b.productType, 5.0, 0.0);
    BonusAndPenalty(a.sportContext, b.sportContext, 3.0, 0.0);
    hide Points, Agree, Clash;
  }

  lemma BonusAndPenalty<T>(x: Option<T>, y: Option<T>, bonus: real, penalty: real)
    ensures Points(x, y, bonus, -penalty) == When(Agree(x, y), bonus) - When(Clash(x, y), penalty)
  {
  }

  lemma TokensCounted(m: Matcher, a: Prepared, b: Prepared)
    ensures TokenPoints(m, a, b) == TokenBonus(a, b) + 8.0 * |a.tokens * b.tokens * m.series| as real
  {
    var shared := a.tokens * b.tokens;
    var strong := set t | t in shared && HasDigit(t);
    forall t ensures HasDigit(t) <==> !NoDigit(t) {}
    assert strong == set t | t in a.tokens && t in b.tokens && !NoDigit(t);
    assert shared - strong == set t | t in a.tokens && t in b.tokens && NoDigit(t);
    hide HasDigit, NoDigit;
    assert a.tokens * b.tokens * m.series == set t | t in a.tokens && t in b.tokens && t in m.series;
    assert |shared - strong| == |shared| - |strong|;
  }

  lemma PricesCounted(a: Prepared, b: Prepared)
    ensures PriceModifier(a, b) == PricePoints(a.price, b.price) as real
  {
    if a.price.Some? && b.price.Some? && a.price.value > 0 && b.price.value > 0 {
      var (lo, hi) := (Min(a.price.value, b.price.value), Max(a.price.value, b.price.value));
      RatioLine(lo, hi, 9);
      RatioLine(lo, hi, 5);
    }
  }

  lemma RatioLine(lo: int, hi: int, tenths: int)
    requires hi > 0
    ensures lo as real / hi as real >= tenths as real / 10.0 <==> 10 * lo >= tenths * hi
  {
    var ratio := lo as real / hi as real;
    assert ratio * hi as real == lo as real;
    if ratio >= tenths as real / 10.0 {
      assert ratio * hi as real >= tenths as real / 10.0 * hi as real;
    } else {
      assert ratio * hi as real < tenths as real / 10.0 * hi as real;
    }
  }

  /** The records agree on all fields but the five that never make a pair impossible. */
  predicate SoftlyApart(b: Prepared, c: Prepared) {
    c == b.(level := c.level, flex := c.flex, hand := c.hand, curve := c.curve, skateFit := c.skateFit)
  }

  /** The points of those five fields. */
  function SoftPoints(a: Prepared, b: Prepared): real {
    Points(a.level, b.level, 0.0, -25.0) + Points(a.flex, b.flex, 4.0, -40.0) + Points(a.hand, b.hand, 5.0, -60.0)
    + Points(a.curve, b.curve, 6.0, -20.0) + Points(a.skateFit, b.skateFit, 6.0, -30.0)
  }

  /** So what it is worth to learn that a compatible pair agrees on such a field, and what it costs to
      learn that it differs, is the field's points and depends on nothing else: two targets that are
      apart in these fields only score apart by exactly their points. */
  lemma ApartByPoints(m: Matcher, a: Prepared, c: Prepared, d: Prepared)
    requires !Incompatible(a, c) && SoftlyApart(c, d)
    ensures PairScore(m, a, d) - PairScore(m, a, c) == SoftPoints(a, d) - SoftPoints(a, c)
  {
    hide PairScore, PricePoints;
    ScoreByField(m, a, c);
    ScoreByField(m, a, d);
    SameTokenPoints(m, a, c, a, d);
    hide TokenPoints;
  }

  lemma SameTokenPoints(m: Matcher, a: Prepared, b: Prepared, a': Prepared, b': Prepared)
    requires a.tokens == a'.tokens && b.tokens == b'.tokens
    ensures TokenPoints(m, a, b) == TokenPoints(m, a', b')
  {
  }

  /** When the ratio is symmetric, so is the score: it does not matter which side is the
      reference. */
  lemma ScoreIsSymmetric(m: Matcher, a: Prepared, b: Prepared)
    requires m.ratio(a.norm, b.norm) == m.ratio(b.norm, a.norm)
    ensures PairScore(m, a, b) == PairScore(m, b, a)
  {
    assert a.tokens * b.tokens == b.tokens * a.tokens;
    assert TokenBonus(a, b) == TokenBonus(b, a);
    assert DomainBonus(m, a, b) == DomainBonus(m, b, a);
    SymmetricPenalty(a, b);
    SymmetricConflict(a, b);
    hide TokenBonus, DomainBonus, Penalty, HardConflict;
  }

  lemma SymmetricPenalty(a: Prepared, b: Prepared)
    ensures Penalty(a, b) == Penalty(b, a)
  {
    assert a.sizeTokens * b.sizeTokens == b.sizeTokens * a.sizeTokens;
  }

  lemma SymmetricConflict(a: Prepared, b: Prepared)
    ensures HardConflict(a, b) <==> HardConflict(b, a)
  {
    if a.productType.Some? && b.productType.Some? {
      assert {a.productType.value, b.productType.value} == {b.productType.value, a.productType.value};
    }
  }

  /** A goalie record and another one are kept apart only when the product type of at least one
      is known, or another conflict does it. */
  lemma GoalieConflictNeedsType(m: Matcher, a: Prepared, b: Prepared)
    requires RatioOk(m) && a.goalie != b.goalie
    ensures PairScore(m, a, b) == IMPOSSIBLE
            <==> || a.productType.Some? || b.productType.Some?
                 || Differ(a.brand, b.brand) || Differ(a.sportContext, b.sportContext) || a.accessory != b.accessory
  {
    ImpossibleIffConflict(m, a, b);
  }

  /** So two records that differ in nothing but their titles and the goalie flag score as their
      titles do: a title that says goalie and one that does not match whenever they are alike
      enough for the fuzzy ratio. */
  lemma GoalieConflictCanPass(m: Matcher, x: string, y: string)
    ensures var a := Prepared(x, None, None, {}, None, None, None, None, true, None, None, {}, false, None);
            PairScore(m, a, a.(norm := y, goalie := false)) == m.ratio(x, y)
  {
    var a := Prepared(x, None, None, {}, None, None, None, None, true, None, None, {}, false, None);
    assert a.tokens * a.tokens * m.series == {};
    assert (set t | t in a.tokens * a.tokens && HasDigit(t)) == {};
  }
}
