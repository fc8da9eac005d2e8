/**
 * The scoring function `bewerte_treffer`: the substance match (+0.5), the purity
 * bonus (+0.3) and the quantity bonus (+0.2). Scores are whole tenths, so the
 * possible results 0.0, 0.5, 0.7, 0.8 and 1.0 are 0, 5, 7, 8 and 10 here, and the
 * final `round(score, 2)` leaves them unchanged.
 */
module Scoring {
  import opened Wrappers
  import opened Text
  import opened Decimal
  import opened Patterns
  import opened Synonyms

  /**
   * One catalog row. `Produkt` is always present; `Menge`, `Einheit` and
   * `Reinheit` may be missing (`None`), which `.get(key, "")` reads as `""`.
   */
  datatype Product = Product(name: string, quantity: Option<string>, unit: Option<string>, purity: Option<string>)

  /** The requested purity: group 1 of the purity pattern in the query, `,` read as `.`. */
  function RequestedPurity(query: string): Option<real>
  {
    match PuritySearch(query)
    case None => None
    case Some(number) => ParseDecimal(ReplaceChar(number, ',', '.'))
  }

  /** The listed purity: the `Reinheit` field reduced to digits and commas, `,` read as `.`. */
  function ListedPurity(purity: string): Option<real>
  {
    ParseDecimal(ReplaceChar(KeepDigitsAndCommas(purity), ',', '.'))
  }

  /**
   * The purity stage adds 0.3 when a purity is requested, the listed one parses
   * and it is at least as high.
   */
  predicate PurityBonus(query: string, purity: string)
  {
    RequestedPurity(query).Some? && ListedPurity(purity).Some?
      && ListedPurity(purity).value >= RequestedPurity(query).value
  }

  /**
   * The quantity stage adds 0.2 when a quantity is requested, the `Menge` field
   * parses to the same number and the `Einheit` field is the same unit text.
   */
  predicate QuantityBonus(query: string, quantity: string, unit: string)
  {
    match QuantitySearch(query)
    case None => false
    case Some((number, wantedUnit)) =>
      var wanted := ParseDecimal(ReplaceChar(number, ',', '.'));
      var listed := ParseDecimal(ReplaceChar(quantity, ',', '.'));
      wanted.Some? && listed.Some? && listed.value == wanted.value && unit == wantedUnit
  }

  /** The score, in tenths, of `product` for the search term `query`. */
  function Score(product: Product, query: string, entries: seq<Entry>): (r: nat)
    ensures r == 0 || r == 5 || r == 7 || r == 8 || r == 10
  {
    var q := Lower(query);
    var productName := Lower(product.name);
    match SubstanceHit(entries, q, productName)
    case None => 0
    case Some(name) =>
      if name == [] then 0
      else
        5
        + (if PurityBonus(q, product.purity.GetOr("")) then 3 else 0)
        + (if QuantityBonus(q, Lower(product.quantity.GetOr("")), Lower(product.unit.GetOr(""))) then 2 else 0)
  }

  /** The lowercased name of the first entry both strings mention, if any. */
  function SubstanceHit(entries: seq<Entry>, query: string, product: string): (r: Option<string>)
  {
    match FirstMatch(entries, query, product)
    case None => None
    case Some(i) => Some(Lower(entries[i].name))
  }

  /**
   * The substance loop of `bewerte_treffer`: the entries are visited in order and the scan stops
   * at the first entry whose name or synonyms occur in the query and in the
   * product name; its lowercased name is the hit.
   */
  method FindSubstance(entries: seq<Entry>, query: string, product: string) returns (hit: Option<string>)
    ensures hit == SubstanceHit(entries, query, product)
  {
    hit := None;
    var n := 0;
    while n < |entries|
      invariant 0 <= n <= |entries|
      invariant FirstMatch(entries, query, product) == FirstFrom(entries, MatchTest(query, product), n)
    {
      var name := Lower(entries[n].name);
      var synonyms := SynonymTokens(entries[n].synonyms);
      EntryMatchesIs(entries[n], query, product);
      if Contains(query, name) || AnyContained(synonyms, query) {
        if Contains(product, name) || AnyContained(synonyms, product) {
          hit := Some(name);
          return;
        }
      }
      n := n + 1;
    }
  }

  /**
   * `bewerte_treffer(produkt, suchbegriff, grundstoff_liste)`: the score is
   * accumulated stage by stage, the substance scan stops at the first matching
   * entry, and a falsy hit (none, or an empty name) returns 0.
   */
  method RateMatch(product: Product, query: string, entries: seq<Entry>) returns (score: nat)
    ensures score == Score(product, query, entries)
  {
    var q := Lower(query);
    var productName := Lower(product.name);
    var quantity := Lower(product.quantity.GetOr(""));
    var unit := Lower(product.unit.GetOr(""));
    var purity := product.purity.GetOr("");

    score := 0;

    // Stage 1: the substance.
    var hit := FindSubstance(entries, q, productName);
    if hit.Some? {
      score := score + 5;
    }

    if hit.None? || hit.value == [] {
      return 0;
    }

    // Stage 2: the purity.
    var purityMatch := PuritySearch(q);
    if purityMatch.Some? {
      var wanted := ParseDecimal(ReplaceChar(purityMatch.value, ',', '.'));
      var listed := ParseDecimal(ReplaceChar(KeepDigitsAndCommas(purity), ',', '.'));
      if wanted.Some? && listed.Some? && listed.value >= wanted.value {
        score := score + 3;
      }
    }

    // Stage 3: the quantity. The requested number is converted outside the
    // `try`, which is sound because group 1 of the pattern always converts.
    var quantityMatch := QuantitySearch(q);
    if quantityMatch.Some? {
      QuantitySearchGroups(q);
      var wantedQuantity := ParseDecimal(ReplaceChar(quantityMatch.value.0, ',', '.')).value;
      var wantedUnit := quantityMatch.value.1;
      var listedQuantity := ParseDecimal(ReplaceChar(quantity, ',', '.'));
      if listedQuantity.Some? && listedQuantity.value == wantedQuantity && unit == wantedUnit {
        score := score + 2;
      }
    }
  }

  // ---------------------------------------------------------------------------
  // Properties of the score

  /**
   * The score is positive exactly when, scanning in order, the first entry that
   * both the lowercased search term and the lowercased product name mention has
   * a non-empty lowercased name.
   */
  lemma ScorePositive(product: Product, query: string, entries: seq<Entry>)
    ensures var q := Lower(query);
      var p := Lower(product.name);
      Score(product, query, entries) > 0 <==>
        exists i | 0 <= i < |entries| ::
          && EntryMatches(entries[i], q, p)
          && Lower(entries[i].name) != []
          && forall k | 0 <= k < i :: !EntryMatches(entries[k], q, p)
  {
    var q := Lower(query);
    var p := Lower(product.name);
    var r := FirstMatch(entries, q, p);
    if r.Some? {
      forall i | 0 <= i < |entries| && EntryMatches(entries[i], q, p) && forall k | 0 <= k < i :: !EntryMatches(entries[k], q, p)
        ensures i == r.value
      {
        FirstMatchIs(entries, q, p, i);
      }
    }
  }

  /** No entry mentioned by both the search term and the product name: the score is 0. */
  lemma NoSharedSubstanceScoresZero(product: Product, query: string, entries: seq<Entry>)
    requires forall k | 0 <= k < |entries| :: !EntryMatches(entries[k], Lower(query), Lower(product.name))
    ensures Score(product, query, entries) == 0
  {
    ScorePositive(product, query, entries);
  }

  /** An empty name at the head of the list matches everything and yields 0 at the falsy-hit check. */
  lemma EmptyNameScoresZero(product: Product, query: string, entries: seq<Entry>)
    requires |entries| > 0 && Lower(entries[0].name) == []
    ensures Score(product, query, entries) == 0
  {
    EmptyNameMatchesAll(entries[0], Lower(query), Lower(product.name));
    FirstMatchIs(entries, Lower(query), Lower(product.name), 0);
  }

  /**
   * Once the substance stage succeeds, 0.3 is added exactly for the purity bonus
   * and 0.2 exactly for the quantity bonus.
   */
  lemma ScoreStages(product: Product, query: string, entries: seq<Entry>)
    requires Score(product, query, entries) > 0
    ensures var q := Lower(query);
      && (Score(product, query, entries) >= 8 <==> PurityBonus(q, product.purity.GetOr("")))
      && (Score(product, query, entries) in {7, 10}
          <==> QuantityBonus(q, Lower(product.quantity.GetOr("")), Lower(product.unit.GetOr(""))))
  {
  }

  // ---------------------------------------------------------------------------
  // Purity bonus

  /** Without a match of the purity pattern in the query there is no purity bonus. */
  lemma PurityBonusNeedsPattern(query: string, purity: string)
    requires forall p :: !PurityMatchesAt(query, p)
    ensures !PurityBonus(query, purity)
  {
    PuritySearchSpec(query);
  }

  /**
   * With the leftmost match of the purity pattern at `p` and group 1 at
   * `query[i..j]`, the group converts, and the bonus is awarded exactly when the
   * reduced `Reinheit` parses to a value at least as high.
   */
  lemma PurityBonusAt(query: string, purity: string, p: nat, i: nat, j: nat, k: nat)
    requires PurityShape(query, p, i, j, k)
    requires forall p' | 0 <= p' < p :: !PurityMatchesAt(query, p')
    ensures ParseDecimal(ReplaceChar(query[i..j], ',', '.')).Some?
    ensures PurityBonus(query, purity) <==>
      && ListedPurity(purity).Some?
      && ListedPurity(purity).value >= ParseDecimal(ReplaceChar(query[i..j], ',', '.')).value
  {
    PuritySearchSpec(query);
    PurityNumberParses(query[i..j]);
  }

  /** Letters, signs and spaces around the number in `Reinheit` are ignored. */
  lemma ListedPurityIgnoresNoise(digits: string, before: string, after: string)
    requires |digits| > 0 && AllDigits(digits)
    requires forall x | 0 <= x < |before| :: !IsDigit(before[x]) && before[x] != ','
    requires forall x | 0 <= x < |after| :: !IsDigit(after[x]) && after[x] != ','
    ensures ListedPurity(before + digits + after) == Some(DigitsValue(digits) as real)
  {
    KeptDigits(digits, before, after);
    assert Free(digits, ',');
    ReplaceCharFree(digits, ',', '.');
    ParseDigits(digits);
  }

  lemma KeptDigits(digits: string, before: string, after: string)
    requires AllDigits(digits)
    requires forall x | 0 <= x < |before| :: !IsDigit(before[x]) && before[x] != ','
    requires forall x | 0 <= x < |after| :: !IsDigit(after[x]) && after[x] != ','
    ensures KeepDigitsAndCommas(before + digits + after) == digits
  {
    KeepAppend(before + digits, after);
    KeepAppend(before, digits);
    KeepDigitsAndCommasSpec(before);
    KeepDigitsAndCommasSpec(digits);
    KeepDigitsAndCommasSpec(after);
    assert [] + digits + [] == digits;
  }

  /**
   * A `Reinheit` with two or more commas, whatever else it holds, does not
   * convert: both commas survive the filter and become two `.`, so the purity
   * stage earns nothing and raises nothing.
   */
  lemma ListedPurityTwoCommas(purity: string, x: nat, y: nat)
    requires x < y < |purity| && purity[x] == ',' && purity[y] == ','
    ensures ListedPurity(purity).None?
  {
    var kept := KeepDigitsAndCommas(purity);
    KeepCommaAt(purity, x);
    KeepCommaAt(purity, y);
    KeepPrefixGrows(purity, x + 1, y);
    var x' := |KeepDigitsAndCommas(purity[..x])|;
    var y' := |KeepDigitsAndCommas(purity[..y])|;
    var r := ReplaceChar(kept, ',', '.');
    assert r[x'] == '.' && r[y'] == '.';
    TwoDotsNotDecimal(r, x', y');
  }

  /**
   * The quirk of the purity pattern: it has no `.` alternative, so in `≥99.9%`
   * the leftmost match is the trailing `9%` and the requested purity is 9.
   */
  lemma DotPurityReadsTrailingDigits()
    ensures PuritySearch("≥99.9%") == Some("9")
    ensures RequestedPurity("≥99.9%") == Some(9.0)
    ensures PurityBonus("≥99.9%", "10%")
  {
    var s := "≥99.9%";
    assert IsPurityNumber(s[4..5]);
    assert PurityShape(s, 4, 4, 5, 5);
    NoPurityMatchBeforeTrailingDigit();
    PuritySearchSpec(s);
    assert s[4..5] == "9";
    SingleDigitNine();
    TenPercent();
  }

  /**
   * The same quirk on the listed side: the filter keeps only digits and commas,
   * so the `.` of a `Reinheit` of `99.9%` is dropped and the listed purity is 999.
   */
  lemma ListedPurityDropsDot()
    ensures KeepDigitsAndCommas("99.9%") == "999"
    ensures ListedPurity("99.9%") == Some(999.0)
  {
    DroppedDot();
    CommaFreeNines();
    ParseNines();
  }

  lemma CommaFreeNines()
    ensures ReplaceChar("999", ',', '.') == "999"
  {
    assert Free("999", ',');
    ReplaceCharFree("999", ',', '.');
  }

  lemma ParseNines()
    ensures ParseDecimal("999") == Some(999.0)
  {
    assert AllDigits("999");
    ParseDigits("999");
    assert "999"[..2] == "99";
    assert "99"[..1] == "9";
  }

  lemma DroppedDot()
    ensures KeepDigitsAndCommas("99.9%") == "999"
  {
    assert "99.9%"[1..] == "9.9%";
    assert "9.9%"[1..] == ".9%";
    assert ".9%"[1..] == "9%";
    assert "9%"[1..] == "%";
    assert KeepDigitsAndCommas("%") == [];
    assert KeepDigitsAndCommas("9%") == "9";
    assert KeepDigitsAndCommas(".9%") == "9";
    assert KeepDigitsAndCommas("9.9%") == "99";
  }

  /** No match of the purity pattern starts in `≥99.` of `≥99.9%`. */
  lemma NoPurityMatchBeforeTrailingDigit()
    ensures forall p | 0 <= p < 4 :: !PurityMatchesAt("≥99.9%", p)
  {
    var s := "≥99.9%";
    forall p, i, j, k | 0 <= p < 4 && PurityShape(s, p, i, j, k) ensures PurityMatchAt(s, p) == Some((i, j)) {
      PurityMatchAtComplete(s, p, i, j, k);
    }
    assert DigitRunEnd(s, 1) == 3;
    assert DigitRunEnd(s, 2) == 3;
    assert forall p | 0 <= p < 4 :: PurityMatchAt(s, p).None?;
  }

  lemma SingleDigitNine()
    ensures ParseDecimal(ReplaceChar("9", ',', '.')) == Some(9.0)
  {
    assert ReplaceChar("9", ',', '.') == "9";
    ParseDigits("9");
    assert DigitsValue("9") == 9;
  }

  lemma TenPercent()
    ensures ListedPurity("10%") == Some(10.0)
  {
    ListedPurityIgnoresNoise("10", "", "%");
    assert "" + "10" + "%" == "10%";
    assert DigitsValue("10") == 10 by {
      assert "10"[..1] == "1";
    }
  }

  // ---------------------------------------------------------------------------
  // Quantity bonus

  /** Without a match of the quantity pattern in the query there is no quantity bonus. */
  lemma QuantityBonusNeedsPattern(query: string, quantity: string, unit: string)
    requires forall p :: !QuantityMatchesAt(query, p)
    ensures !QuantityBonus(query, quantity, unit)
  {
    QuantitySearchSpec(query);
  }

  /**
   * With the leftmost match of the quantity pattern at `p`, number `query[p..j]`
   * and unit `query[u..e]`, the number converts, and the bonus is awarded exactly
   * when `Menge` converts to the same value and `Einheit` is the same unit text.
   */
  lemma QuantityBonusAt(query: string, quantity: string, unit: string, p: nat, j: nat, u: nat, e: nat)
    requires QuantityShape(query, p, j, u, e)
    requires forall p' | 0 <= p' < p :: !QuantityMatchesAt(query, p')
    ensures ParseDecimal(ReplaceChar(query[p..j], ',', '.')).Some?
    ensures QuantityBonus(query, quantity, unit) <==>
      && ParseDecimal(ReplaceChar(quantity, ',', '.')).Some?
      && ParseDecimal(ReplaceChar(quantity, ',', '.')).value == ParseDecimal(ReplaceChar(query[p..j], ',', '.')).value
      && unit == query[u..e]
  {
    QuantitySearchSpec(query);
    QuantityNumberParses(query[p..j]);
  }

  /** The bonus needs the unit text itself: only `ml` or `l` can earn it. */
  lemma QuantityBonusUnit(query: string, quantity: string, unit: string)
    requires QuantityBonus(query, quantity, unit)
    ensures unit == QuantitySearch(query).value.1
    ensures unit == "ml" || unit == "l"
  {
    QuantitySearchGroups(query);
  }

  /** There is no conversion between units: `1 l` is not `1000 ml`. */
  lemma NoUnitConversion()
    ensures QuantityBonus("1 l", "1", "l")
    ensures !QuantityBonus("1 l", "1000", "ml")
  {
    var s := "1 l";
    assert s[0..1] == "1" && s[2..3] == "l";
    assert IsQuantityNumber(s[0..1]);
    assert QuantityShape(s, 0, 1, 2, 3);
    QuantityBonusAt(s, "1", "l", 0, 1, 2, 3);
    QuantityBonusAt(s, "1000", "ml", 0, 1, 2, 3);
    assert ReplaceChar("1", ',', '.') == "1";
    ParseDigits("1");
  }

  // ---------------------------------------------------------------------------
  // Missing fields

  lemma EmptyDoesNotConvert()
    ensures ListedPurity("").None?
    ensures ParseDecimal(ReplaceChar("", ',', '.')).None?
  {
    assert ReplaceChar("", ',', '.') == "";
  }

  /** A missing `Reinheit` forfeits the purity bonus and nothing else. */
  lemma MissingPurity(product: Product, query: string, entries: seq<Entry>)
    ensures var score := Score(product, query, entries);
      Score(product.(purity := None), query, entries) == if score >= 8 then score - 3 else score
  {
    EmptyDoesNotConvert();
    if Score(product, query, entries) > 0 {
      ScoreStages(product, query, entries);
    }
  }

  /** A missing `Menge` forfeits the quantity bonus and nothing else. */
  lemma MissingQuantity(product: Product, query: string, entries: seq<Entry>)
    ensures var score := Score(product, query, entries);
      Score(product.(quantity := None), query, entries) == if score in {7, 10} then score - 2 else score
  {
    EmptyDoesNotConvert();
    if Score(product, query, entries) > 0 {
      ScoreStages(product, query, entries);
    }
  }

  /** A missing `Einheit` forfeits the quantity bonus and nothing else. */
  lemma MissingUnit(product: Product, query: string, entries: seq<Entry>)
    ensures var score := Score(product, query, entries);
      Score(product.(unit := None), query, entries) == if score in {7, 10} then score - 2 else score
  {
    if Score(product, query, entries) > 0 {
      ScoreStages(product, query, entries);
      var q := Lower(query);
      if QuantityBonus(q, Lower(product.quantity.GetOr("")), Lower(product.unit.GetOr(""))) {
        QuantitySearchGroups(q);
      }
      if QuantitySearch(q).Some? {
        QuantitySearchGroups(q);
      }
    }
  }

  // ---------------------------------------------------------------------------
  // Letter case

  function LowerOption(field: Option<string>): Option<string>
  {
    match field
    case None => None
    case Some(text) => Some(Lower(text))
  }

  /** Two catalog rows that differ at most in letter case. */
  predicate ProductsAlike(a: Product, b: Product)
  {
    && Lower(a.name) == Lower(b.name)
    && LowerOption(a.quantity) == LowerOption(b.quantity)
    && LowerOption(a.unit) == LowerOption(b.unit)
    && LowerOption(a.purity) == LowerOption(b.purity)
  }

  /** Two synonym lists that differ at most in letter case. */
  predicate EntriesAlike(a: seq<Entry>, b: seq<Entry>)
  {
    && |a| == |b|
    && forall k | 0 <= k < |a| :: Lower(a[k].name) == Lower(b[k].name) && Lower(a[k].synonyms) == Lower(b[k].synonyms)
  }

  lemma LowerGetOrAlike(a: Option<string>, b: Option<string>)
    requires LowerOption(a) == LowerOption(b)
    ensures Lower(a.GetOr("")) == Lower(b.GetOr(""))
    ensures KeepDigitsAndCommas(a.GetOr("")) == KeepDigitsAndCommas(b.GetOr(""))
  {
    KeepLower(a.GetOr(""));
    KeepLower(b.GetOr(""));
  }

  /** The letter case of the search term, the row and the synonym list never changes the score. */
  lemma ScoreIgnoresCase(product: Product, other: Product, query: string, otherQuery: string,
                         entries: seq<Entry>, otherEntries: seq<Entry>)
    requires ProductsAlike(product, other) && Lower(query) == Lower(otherQuery)
    requires EntriesAlike(entries, otherEntries)
    ensures Score(product, query, entries) == Score(other, otherQuery, otherEntries)
  {
    var q := Lower(query);
    var name := Lower(product.name);
    forall k | 0 <= k < |entries|
      ensures EntryMatches(entries[k], q, name) == EntryMatches(otherEntries[k], q, name)
    {
      SynonymTokensLower(entries[k].synonyms);
      SynonymTokensLower(otherEntries[k].synonyms);
    }
    FirstMatchAlike(entries, otherEntries, q, name, q, name);
    LowerGetOrAlike(product.quantity, other.quantity);
    LowerGetOrAlike(product.unit, other.unit);
    LowerGetOrAlike(product.purity, other.purity);
  }

  /**
   * The substance test of `bewerte_treffer` is satisfied by the name in the search term
   * and a synonym in the product name: the two need not be the same token.
   */
  lemma DifferentTokensMatch()
    ensures EntryMatches(Entry("EtOH", "Sprit"), "etoh", "sprit")
    ensures !Contains("sprit", "etoh")
  {
    NameToken();
    SingleSynonym();
    assert OccursAt("etoh", "etoh", 0);
    assert OccursAt("sprit", "sprit", 0);
    NotContained();
  }

  lemma NameToken()
    ensures Lower("EtOH") == "etoh"
  {
  }

  lemma NotContained()
    ensures !Contains("sprit", "etoh")
  {
    forall i | 0 <= i <= 1 ensures !OccursAt("sprit", "etoh", i) {
      assert "sprit"[i + 3] != 'h';
    }
  }

  lemma SingleSynonym()
    ensures SynonymTokens("Sprit") == ["sprit"]
  {
    SplitFree("Sprit", ';');
    StripWord();
    LowerWord();
  }

  lemma StripWord()
    ensures Strip("Sprit") == "Sprit"
  {
    assert StripLeft("Sprit") == "Sprit";
    assert StripRight("Sprit") == "Sprit";
  }

  lemma LowerWord()
    ensures Lower("Sprit") == "sprit"
  {
    assert forall i | 0 <= i < 5 :: LowerChar("Sprit"[i]) == "sprit"[i];
  }
}
