/**
 * The two regular expressions of the scoring function, each written as the
 * leftmost-match scanner that `re.search` performs for that one pattern:
 *
 *   purity    [>≥]?\s?([0-9]+,[0-9]+|[0-9]+)\s?%
 *   quantity  \b(\d+(?:[.,]\d+)?)\s?(ml|l)\b
 *
 * Each scanner is paired with a declarative description of the strings the
 * pattern matches (PurityShape, QuantityShape), and the lemmas below prove that
 * the scanner returns the groups of the leftmost match of that description.
 * At any one start position the groups of a match are unique, so the engine's
 * backtracking order does not change which groups are reported.
 */
module Patterns {
  import opened Wrappers
  import opened Text
  import opened Decimal

  /** End of the run of digits that starts at `i`. */
  function DigitRunEnd(s: string, i: nat): (j: nat)
    requires i <= |s|
    ensures i <= j <= |s|
    ensures forall x | i <= x < j :: IsDigit(s[x])
    ensures j == |s| || !IsDigit(s[j])
    decreases |s| - i
  {
    if i < |s| && IsDigit(s[i]) then DigitRunEnd(s, i + 1) else i
  }

  lemma {:induction false} DigitRunEndIs(s: string, i: nat, j: nat)
    requires i <= j <= |s|
    requires forall x | i <= x < j :: IsDigit(s[x])
    requires j == |s| || !IsDigit(s[j])
    ensures DigitRunEnd(s, i) == j
    decreases j - i
  {
    if i < j {
      DigitRunEndIs(s, i + 1, j);
    }
  }

  // ---------------------------------------------------------------------------
  // Purity: [>≥]?\s?([0-9]+,[0-9]+|[0-9]+)\s?%

  predicate IsComparator(c: char)
  {
    c == '>' || c == '≥'
  }

  /** `\s?%` can be matched at position `j`. */
  predicate PercentAt(s: string, j: nat)
  {
    (j < |s| && s[j] == '%') || (j + 1 < |s| && IsSpace(s[j]) && s[j + 1] == '%')
  }

  /** Where the group begins for an attempt at `p`: past an optional comparator, then an optional whitespace. */
  function PurityGroupStart(s: string, p: nat): (d: nat)
    requires p <= |s|
    ensures p <= d <= |s|
  {
    var q := if p < |s| && IsComparator(s[p]) then p + 1 else p;
    if q < |s| && IsSpace(s[q]) then q + 1 else q
  }

  /**
   * The group `([0-9]+,[0-9]+|[0-9]+)` followed by `\s?%`, tried at `d`, first
   * alternative first; the result is where the group ends.
   */
  function PurityGroupEnd(s: string, d: nat): (r: Option<nat>)
    requires d <= |s|
    ensures r.Some? ==> d < r.value <= |s|
  {
    if d < |s| && IsDigit(s[d]) then
      var e := DigitRunEnd(s, d);
      if e + 1 < |s| && s[e] == ',' && IsDigit(s[e + 1]) && PercentAt(s, DigitRunEnd(s, e + 1)) then
        Some(DigitRunEnd(s, e + 1))
      else if PercentAt(s, e) then
        Some(e)
      else
        None
    else
      None
  }

  /** The bounds of group 1 when the purity pattern matches at start position `p`. */
  function PurityMatchAt(s: string, p: nat): (r: Option<(nat, nat)>)
    requires p <= |s|
    ensures r.Some? ==> p <= r.value.0 <= r.value.1 <= |s|
  {
    var d := PurityGroupStart(s, p);
    match PurityGroupEnd(s, d)
    case Some(j) => Some((d, j))
    case None => None
  }

  /** `re.search` from position `p` on: group 1 of the leftmost match. */
  function PuritySearchFrom(s: string, p: nat): Option<string>
    requires p <= |s|
    decreases |s| - p
  {
    match PurityMatchAt(s, p)
    case Some((i, j)) => if i <= j <= |s| then Some(s[i..j]) else None
    case None => if p == |s| then None else PuritySearchFrom(s, p + 1)
  }

  /** Group 1 of `re.search(r"[>≥]?\s?([0-9]+,[0-9]+|[0-9]+)\s?%", s)`, if it matches. */
  function PuritySearch(s: string): Option<string>
  {
    PuritySearchFrom(s, 0)
  }

  /** `digits` or `digits,digits`: what group 1 of the purity pattern can hold. */
  predicate IsPurityNumber(t: string)
  {
    |t| > 0 && (AllDigits(t) || exists c | 0 < c < |t| - 1 :: t[c] == ',' && AllDigits(t[..c]) && AllDigits(t[c + 1..]))
  }

  /**
   * `s[p..k + 1]` is a match of the purity pattern whose group 1 is `s[i..j]`:
   * an optional comparator and one optional whitespace, the number, one optional
   * whitespace, and `%` at `k`.
   */
  predicate PurityShape(s: string, p: int, i: int, j: int, k: int)
  {
    && 0 <= p <= i < j <= k < |s|
    && (|| i == p
        || (i == p + 1 && (IsComparator(s[p]) || IsSpace(s[p])))
        || (i == p + 2 && IsComparator(s[p]) && IsSpace(s[p + 1])))
    && IsPurityNumber(s[i..j])
    && (k == j || (k == j + 1 && IsSpace(s[j])))
    && s[k] == '%'
  }

  lemma PurityNumberChars(t: string)
    requires IsPurityNumber(t)
    ensures IsDigit(t[0]) && IsDigit(t[|t| - 1])
    ensures forall x | 0 <= x < |t| :: IsDigit(t[x]) || t[x] == ','
  {
    if !AllDigits(t) {
      var c :| 0 < c < |t| - 1 && t[c] == ',' && AllDigits(t[..c]) && AllDigits(t[c + 1..]);
      assert t[..c][0] == t[0];
      assert t[c + 1..][|t| - c - 2] == t[|t| - 1];
      forall x | 0 <= x < |t| ensures IsDigit(t[x]) || t[x] == ',' {
        if x < c {
          assert t[..c][x] == t[x];
        } else if x > c {
          assert t[c + 1..][x - c - 1] == t[x];
        }
      }
    }
  }

  lemma PurityGroupStartIs(s: string, p: nat, i: nat)
    requires p <= i < |s| && IsDigit(s[i])
    requires || i == p
             || (i == p + 1 && (IsComparator(s[p]) || IsSpace(s[p])))
             || (i == p + 2 && IsComparator(s[p]) && IsSpace(s[p + 1]))
    ensures PurityGroupStart(s, p) == i
  {
  }

  lemma AllDigitsSlice(s: string, a: nat, b: nat)
    requires a <= b <= |s| && AllDigits(s[a..b])
    ensures forall x | a <= x < b :: IsDigit(s[x])
  {
    forall x | a <= x < b ensures IsDigit(s[x]) {
      assert s[a..b][x - a] == s[x];
    }
  }

  lemma PurityGroupEndIs(s: string, i: nat, j: nat)
    requires i < j <= |s| && IsPurityNumber(s[i..j]) && PercentAt(s, j)
    ensures PurityGroupEnd(s, i) == Some(j)
  {
    var t := s[i..j];
    assert t[0] == s[i];
    if AllDigits(t) {
      AllDigitsSlice(s, i, j);
      DigitRunEndIs(s, i, j);
    } else {
      var c :| 0 < c < |t| - 1 && t[c] == ',' && AllDigits(t[..c]) && AllDigits(t[c + 1..]);
      assert t[..c] == s[i..i + c] && t[c + 1..] == s[i + c + 1..j] && t[c] == s[i + c];
      PurityGroupEndWithComma(s, i, j, c);
    }
  }

  lemma PurityGroupEndWithComma(s: string, i: nat, j: nat, c: nat)
    requires i < j <= |s| && PercentAt(s, j)
    requires 0 < c < j - i - 1 && s[i + c] == ',' && AllDigits(s[i..i + c]) && AllDigits(s[i + c + 1..j])
    ensures PurityGroupEnd(s, i) == Some(j)
  {
    AllDigitsSlice(s, i, i + c);
    AllDigitsSlice(s, i + c + 1, j);
    DigitRunEndIs(s, i, i + c);
    DigitRunEndIs(s, i + c + 1, j);
  }

  /** Any match of the shape at `p` is the one the scanner finds there. */
  lemma PurityMatchAtComplete(s: string, p: nat, i: nat, j: nat, k: nat)
    requires PurityShape(s, p, i, j, k)
    ensures PurityMatchAt(s, p) == Some((i, j))
  {
    PurityNumberChars(s[i..j]);
    assert s[i..j][0] == s[i];
    PurityGroupStartIs(s, p, i);
    assert PercentAt(s, j);
    PurityGroupEndIs(s, i, j);
  }

  /** What the scanner finds at `p` is a match of the shape. */
  lemma PurityMatchAtSound(s: string, p: nat)
    requires p <= |s| && PurityMatchAt(s, p).Some?
    ensures var (i, j) := PurityMatchAt(s, p).value;
      exists k :: PurityShape(s, p, i, j, k)
  {
    var (i, j) := PurityMatchAt(s, p).value;
    var e := DigitRunEnd(s, i);
    var t := s[i..j];
    if j == e {
      assert AllDigits(t);
    } else {
      var c := e - i;
      assert t[c] == ',';
      assert AllDigits(t[..c]);
      assert AllDigits(t[c + 1..]);
    }
    var k := if s[j] == '%' then j else j + 1;
    assert PurityShape(s, p, i, j, k);
  }

  /** The purity pattern matches with its start at `p`. */
  ghost predicate PurityMatchesAt(s: string, p: int)
  {
    exists i, j, k :: PurityShape(s, p, i, j, k)
  }

  lemma {:induction false} PuritySearchFromNone(s: string, p0: nat)
    requires p0 <= |s| && PuritySearchFrom(s, p0).None?
    ensures forall p | p0 <= p :: !PurityMatchesAt(s, p)
  {
    forall p | p0 <= p ensures !PurityMatchesAt(s, p) {
      PuritySearchFromNoneBeyond(s, p0, p);
    }
  }

  lemma {:induction false} PuritySearchFromNoneBeyond(s: string, p0: nat, p: int)
    requires p0 <= p && p0 <= |s| && PuritySearchFrom(s, p0).None?
    ensures !PurityMatchesAt(s, p)
    decreases p - p0
  {
    if p == p0 {
      PuritySearchFromNoneAt(s, p0);
    } else if p <= |s| {
      PuritySearchFromNoneStep(s, p0);
      PuritySearchFromNoneBeyond(s, p0 + 1, p);
    }
  }

  lemma PuritySearchFromNoneStep(s: string, p0: nat)
    requires p0 < |s| && PuritySearchFrom(s, p0).None?
    ensures PuritySearchFrom(s, p0 + 1).None?
  {
  }

  lemma PuritySearchFromNoneAt(s: string, p0: nat)
    requires p0 <= |s| && PuritySearchFrom(s, p0).None?
    ensures !PurityMatchesAt(s, p0)
  {
    forall i, j, k | PurityShape(s, p0, i, j, k) ensures PurityMatchAt(s, p0) == Some((i, j)) {
      PurityMatchAtComplete(s, p0, i, j, k);
    }
  }

  lemma {:induction false} PuritySearchFromSome(s: string, p0: nat, p: nat, i: nat, j: nat, k: nat)
    requires p0 <= p && PurityShape(s, p, i, j, k)
    requires forall p' | p0 <= p' < p :: !PurityMatchesAt(s, p')
    ensures PuritySearchFrom(s, p0) == Some(s[i..j])
    decreases p - p0
  {
    if p0 == p {
      PurityMatchAtComplete(s, p, i, j, k);
    } else {
      assert !PurityMatchesAt(s, p0);
      if PurityMatchAt(s, p0).Some? {
        PurityMatchAtSound(s, p0);
      }
      PuritySearchFromSome(s, p0 + 1, p, i, j, k);
    }
  }

  lemma {:induction false} PuritySearchFromFound(s: string, p0: nat)
    requires p0 <= |s| && PuritySearchFrom(s, p0).Some?
    ensures exists p, i, j, k :: p0 <= p && PurityShape(s, p, i, j, k) && PuritySearchFrom(s, p0) == Some(s[i..j])
    decreases |s| - p0
  {
    if PurityMatchAt(s, p0).Some? {
      PurityMatchAtSound(s, p0);
      var (i, j) := PurityMatchAt(s, p0).value;
      var k :| PurityShape(s, p0, i, j, k);
      assert PuritySearchFrom(s, p0) == Some(s[i..j]);
    } else {
      PuritySearchFromFound(s, p0 + 1);
    }
  }

  /**
   * The purity search returns group 1 of the leftmost match of the pattern, and
   * nothing exactly when the pattern matches nowhere.
   */
  lemma PuritySearchSpec(s: string)
    ensures PuritySearch(s).None? <==> forall p :: !PurityMatchesAt(s, p)
    ensures forall p, i, j, k | PurityShape(s, p, i, j, k) && (forall p' | 0 <= p' < p :: !PurityMatchesAt(s, p'))
      :: PuritySearch(s) == Some(s[i..j])
  {
    if PuritySearch(s).None? {
      PuritySearchFromNone(s, 0);
    } else {
      PuritySearchFromFound(s, 0);
      var p, i, j, k :| 0 <= p && PurityShape(s, p, i, j, k);
      assert PurityMatchesAt(s, p);
    }
    forall p, i, j, k | PurityShape(s, p, i, j, k) && (forall p' | 0 <= p' < p :: !PurityMatchesAt(s, p'))
      ensures PuritySearch(s) == Some(s[i..j])
    {
      PuritySearchFromSome(s, 0, p, i, j, k);
    }
  }

  /** Group 1 of a purity match always converts: the `float(group(1))` conversion of the requested purity never raises. */
  lemma PurityNumberParses(t: string)
    requires IsPurityNumber(t)
    ensures ParseDecimal(ReplaceChar(t, ',', '.')).Some?
  {
    var r := ReplaceChar(t, ',', '.');
    if AllDigits(t) {
      assert AllDigits(r);
    } else {
      var c :| 0 < c < |t| - 1 && t[c] == ',' && AllDigits(t[..c]) && AllDigits(t[c + 1..]);
      assert r[..c] == t[..c];
      assert r[c + 1..] == t[c + 1..];
      assert DotAt(r, c);
    }
    ParseDecimalSyntax(r);
  }

  // ---------------------------------------------------------------------------
  // Quantity: \b(\d+(?:[.,]\d+)?)\s?(ml|l)\b

  /** `\b` before a word character at `p`. */
  predicate BoundaryBefore(s: string, p: nat)
    requires p <= |s|
  {
    p == 0 || !IsWordChar(s[p - 1])
  }

  /** `\b` after a word character ending at `e`. */
  predicate BoundaryAfter(s: string, e: nat)
    requires e <= |s|
  {
    e == |s| || !IsWordChar(s[e])
  }

  /** End of `\d+(?:[.,]\d+)?` starting at a digit at `p`; the fraction is taken when there is one. */
  function QuantityNumberEnd(s: string, p: nat): (j: nat)
    requires p <= |s|
    ensures p <= j <= |s|
  {
    var e := DigitRunEnd(s, p);
    if e + 1 < |s| && (s[e] == '.' || s[e] == ',') && IsDigit(s[e + 1]) then DigitRunEnd(s, e + 1) else e
  }

  /** Group bounds `(j, u, e)` of a quantity match at `p`: number `s[p..j]`, unit `s[u..e]`. */
  function QuantityMatchAt(s: string, p: nat): (r: Option<(nat, nat, nat)>)
    requires p <= |s|
    ensures r.Some? ==> p <= r.value.0 <= r.value.1 <= r.value.2 <= |s|
  {
    if p < |s| && IsDigit(s[p]) && BoundaryBefore(s, p) then
      var j := QuantityNumberEnd(s, p);
      var u := if j < |s| && IsSpace(s[j]) then j + 1 else j;
      if u + 1 < |s| && s[u] == 'm' && s[u + 1] == 'l' && BoundaryAfter(s, u + 2) then
        Some((j, u, u + 2))
      else if u < |s| && s[u] == 'l' && BoundaryAfter(s, u + 1) then
        Some((j, u, u + 1))
      else
        None
    else
      None
  }

  /** `re.search` from position `p` on: groups 1 and 2 of the leftmost match. */
  function QuantitySearchFrom(s: string, p: nat): Option<(string, string)>
    requires p <= |s|
    decreases |s| - p
  {
    match QuantityMatchAt(s, p)
    case Some((j, u, e)) => if p <= j <= u <= e <= |s| then Some((s[p..j], s[u..e])) else None
    case None => if p == |s| then None else QuantitySearchFrom(s, p + 1)
  }

  /** Groups 1 and 2 of `re.search(r"\b(\d+(?:[.,]\d+)?)\s?(ml|l)\b", s)`, if it matches. */
  function QuantitySearch(s: string): Option<(string, string)>
  {
    QuantitySearchFrom(s, 0)
  }

  /** `digits` or `digits.digits` or `digits,digits`: what group 1 of the quantity pattern can hold. */
  predicate IsQuantityNumber(t: string)
  {
    |t| > 0 && (AllDigits(t) || exists c | 0 < c < |t| - 1 ::
      (t[c] == '.' || t[c] == ',') && AllDigits(t[..c]) && AllDigits(t[c + 1..]))
  }

  /**
   * `s[p..e]` is a match of the quantity pattern: a word boundary, the number
   * `s[p..j]`, one optional whitespace, the unit `s[u..e]` (`ml` or `l`), a word boundary.
   */
  predicate QuantityShape(s: string, p: int, j: int, u: int, e: int)
  {
    && 0 <= p < j <= u < e <= |s|
    && BoundaryBefore(s, p)
    && IsQuantityNumber(s[p..j])
    && (u == j || (u == j + 1 && IsSpace(s[j])))
    && (s[u..e] == "ml" || s[u..e] == "l")
    && BoundaryAfter(s, e)
  }

  lemma QuantityNumberChars(t: string)
    requires IsQuantityNumber(t)
    ensures IsDigit(t[0])
    ensures forall x | 0 <= x < |t| :: IsDigit(t[x]) || t[x] == ',' || t[x] == '.'
  {
    if !AllDigits(t) {
      var c :| 0 < c < |t| - 1 && (t[c] == '.' || t[c] == ',') && AllDigits(t[..c]) && AllDigits(t[c + 1..]);
      assert t[..c][0] == t[0];
      forall x | 0 <= x < |t| ensures IsDigit(t[x]) || t[x] == ',' || t[x] == '.' {
        if x < c {
          assert t[..c][x] == t[x];
        } else if x > c {
          assert t[c + 1..][x - c - 1] == t[x];
        }
      }
    }
  }

  lemma QuantityNumberEndIs(s: string, p: nat, j: nat)
    requires p < j < |s| && IsQuantityNumber(s[p..j])
    requires !IsDigit(s[j]) && s[j] != ',' && s[j] != '.'
    ensures QuantityNumberEnd(s, p) == j
  {
    if AllDigits(s[p..j]) {
      AllDigitsSlice(s, p, j);
      DigitRunEndIs(s, p, j);
    } else {
      QuantityNumberEndFraction(s, p, j);
    }
  }

  lemma QuantityNumberEndFraction(s: string, p: nat, j: nat)
    requires p < j < |s| && IsQuantityNumber(s[p..j]) && !AllDigits(s[p..j])
    requires !IsDigit(s[j])
    ensures QuantityNumberEnd(s, p) == j
  {
    var t := s[p..j];
    var c :| 0 < c < |t| - 1 && (t[c] == '.' || t[c] == ',') && AllDigits(t[..c]) && AllDigits(t[c + 1..]);
    assert t[c] == s[p + c];
    assert AllDigits(s[p..p + c]) by {
      assert t[..c] == s[p..p + c];
    }
    assert AllDigits(s[p + c + 1..j]) by {
      assert t[c + 1..] == s[p + c + 1..j];
    }
    QuantityNumberEndWithSeparator(s, p, j, c);
  }

  lemma QuantityNumberEndWithSeparator(s: string, p: nat, j: nat, c: nat)
    requires p < j < |s| && !IsDigit(s[j])
    requires 0 < c < j - p - 1 && (s[p + c] == '.' || s[p + c] == ',')
    requires AllDigits(s[p..p + c]) && AllDigits(s[p + c + 1..j])
    ensures QuantityNumberEnd(s, p) == j
  {
    AllDigitsSlice(s, p, p + c);
    AllDigitsSlice(s, p + c + 1, j);
    DigitRunEndIs(s, p, p + c);
    DigitRunEndIs(s, p + c + 1, j);
  }

  /** Any match of the shape at `p` is the one the scanner finds there. */
  lemma QuantityMatchAtComplete(s: string, p: nat, j: nat, u: nat, e: nat)
    requires QuantityShape(s, p, j, u, e)
    ensures QuantityMatchAt(s, p) == Some((j, u, e))
  {
    QuantityNumberChars(s[p..j]);
    assert s[p..j][0] == s[p];
    assert s[u..e][0] == s[u];
    if s[u..e] == "ml" {
      assert s[u + 1] == s[u..e][1];
    }
    assert !IsDigit(s[j]) && s[j] != ',' && s[j] != '.';
    QuantityNumberEndIs(s, p, j);
  }

  /** What the scanner finds at `p` is a match of the shape. */
  lemma QuantityMatchAtSound(s: string, p: nat)
    requires p <= |s| && QuantityMatchAt(s, p).Some?
    ensures var (j, u, e) := QuantityMatchAt(s, p).value;
      QuantityShape(s, p, j, u, e)
  {
    var (j, u, e) := QuantityMatchAt(s, p).value;
    QuantityNumberEndSound(s, p);
    if e == u + 2 {
      assert s[u..e] == "ml";
    } else {
      assert s[u..e] == "l";
    }
  }

  /** The scanner's number `s[p..QuantityNumberEnd(s, p)]` is one the pattern accepts. */
  lemma QuantityNumberEndSound(s: string, p: nat)
    requires p < |s| && IsDigit(s[p])
    ensures IsQuantityNumber(s[p..QuantityNumberEnd(s, p)])
  {
    var j := QuantityNumberEnd(s, p);
    var d := DigitRunEnd(s, p);
    var t := s[p..j];
    if j == d {
      assert AllDigits(t);
    } else {
      var c := d - p;
      assert t[c] == s[d];
      assert t[..c] == s[p..d];
      assert t[c + 1..] == s[d + 1..j];
      assert AllDigits(s[p..d]);
      assert AllDigits(s[d + 1..j]);
    }
  }

  /** The quantity pattern matches with its start at `p`. */
  ghost predicate QuantityMatchesAt(s: string, p: int)
  {
    exists j, u, e :: QuantityShape(s, p, j, u, e)
  }

  lemma {:induction false} QuantitySearchFromNone(s: string, p0: nat)
    requires p0 <= |s| && QuantitySearchFrom(s, p0).None?
    ensures forall p | p0 <= p :: !QuantityMatchesAt(s, p)
    decreases |s| - p0
  {
    QuantitySearchFromNoneAt(s, p0);
    if p0 < |s| {
      QuantitySearchFromNoneStep(s, p0);
      QuantitySearchFromNone(s, p0 + 1);
    }
  }

  lemma QuantitySearchFromNoneStep(s: string, p0: nat)
    requires p0 < |s| && QuantitySearchFrom(s, p0).None?
    ensures QuantitySearchFrom(s, p0 + 1).None?
  {
  }

  lemma QuantitySearchFromNoneAt(s: string, p0: nat)
    requires p0 <= |s| && QuantitySearchFrom(s, p0).None?
    ensures !QuantityMatchesAt(s, p0)
  {
    forall j, u, e | QuantityShape(s, p0, j, u, e) ensures QuantityMatchAt(s, p0) == Some((j, u, e)) {
      QuantityMatchAtComplete(s, p0, j, u, e);
    }
  }

  lemma {:induction false} QuantitySearchFromSome(s: string, p0: nat, p: nat, j: nat, u: nat, e: nat)
    requires p0 <= p && QuantityShape(s, p, j, u, e)
    requires forall p' | p0 <= p' < p :: !QuantityMatchesAt(s, p')
    ensures QuantitySearchFrom(s, p0) == Some((s[p..j], s[u..e]))
    decreases p - p0
  {
    if p0 == p {
      QuantityMatchAtComplete(s, p, j, u, e);
    } else {
      assert !QuantityMatchesAt(s, p0);
      if QuantityMatchAt(s, p0).Some? {
        QuantityMatchAtSound(s, p0);
      }
      QuantitySearchFromSome(s, p0 + 1, p, j, u, e);
    }
  }

  lemma {:induction false} QuantitySearchFromFound(s: string, p0: nat)
    requires p0 <= |s| && QuantitySearchFrom(s, p0).Some?
    ensures exists p, j, u, e ::
      p0 <= p && QuantityShape(s, p, j, u, e) && QuantitySearchFrom(s, p0) == Some((s[p..j], s[u..e]))
    decreases |s| - p0
  {
    if QuantityMatchAt(s, p0).Some? {
      QuantityMatchAtSound(s, p0);
    } else {
      QuantitySearchFromFound(s, p0 + 1);
    }
  }

  /**
   * The quantity search returns groups 1 and 2 of the leftmost match of the
   * pattern, and nothing exactly when the pattern matches nowhere.
   */
  lemma QuantitySearchSpec(s: string)
    ensures QuantitySearch(s).None? <==> forall p :: !QuantityMatchesAt(s, p)
    ensures forall p, j, u, e | QuantityShape(s, p, j, u, e) && (forall p' | 0 <= p' < p :: !QuantityMatchesAt(s, p'))
      :: QuantitySearch(s) == Some((s[p..j], s[u..e]))
  {
    if QuantitySearch(s).None? {
      QuantitySearchFromNone(s, 0);
    } else {
      QuantitySearchFromFound(s, 0);
      var p, j, u, e :| 0 <= p && QuantityShape(s, p, j, u, e);
      assert QuantityMatchesAt(s, p);
    }
    forall p, j, u, e | QuantityShape(s, p, j, u, e) && (forall p' | 0 <= p' < p :: !QuantityMatchesAt(s, p'))
      ensures QuantitySearch(s) == Some((s[p..j], s[u..e]))
    {
      QuantitySearchFromSome(s, 0, p, j, u, e);
    }
  }

  /** The unit group is `ml` or `l`, and group 1 always converts: the `float(group(1))` conversion of the requested quantity, made outside the `try`, never raises. */
  lemma QuantitySearchGroups(s: string)
    requires QuantitySearch(s).Some?
    ensures QuantitySearch(s).value.1 == "ml" || QuantitySearch(s).value.1 == "l"
    ensures ParseDecimal(ReplaceChar(QuantitySearch(s).value.0, ',', '.')).Some?
  {
    QuantitySearchFromFound(s, 0);
    var p, j, u, e :| 0 <= p && QuantityShape(s, p, j, u, e) && QuantitySearchFrom(s, 0) == Some((s[p..j], s[u..e]));
    QuantityNumberParses(s[p..j]);
  }

  /** Group 1 of the purity search is a purity number, so its conversion never raises. */
  lemma PuritySearchGroup(s: string)
    requires PuritySearch(s).Some?
    ensures IsPurityNumber(PuritySearch(s).value)
    ensures ParseDecimal(ReplaceChar(PuritySearch(s).value, ',', '.')).Some?
  {
    PuritySearchFromFound(s, 0);
    var p, i, j, k :| 0 <= p && PurityShape(s, p, i, j, k) && PuritySearchFrom(s, 0) == Some(s[i..j]);
    PurityNumberParses(s[i..j]);
  }

  lemma QuantityNumberParses(t: string)
    requires IsQuantityNumber(t)
    ensures ParseDecimal(ReplaceChar(t, ',', '.')).Some?
  {
    var r := ReplaceChar(t, ',', '.');
    if AllDigits(t) {
      assert AllDigits(r);
    } else {
      var c :| 0 < c < |t| - 1 && (t[c] == '.' || t[c] == ',') && AllDigits(t[..c]) && AllDigits(t[c + 1..]);
      assert r[..c] == t[..c];
      assert r[c + 1..] == t[c + 1..];
      assert DotAt(r, c);
    }
    ParseDecimalSyntax(r);
  }
}
