# bewerte_treffer — a verified model of the product scoring function

This project models `bewerte_treffer(produkt, suchbegriff, grundstoff_liste)`
from `app.py`. The function scores how well a catalog product (`produkt`) fits
a search term (`suchbegriff`), using a list of chemical substances with their
synonyms (`grundstoff_liste`):

1. **Substance (+0.5).** The substance entries are scanned in order. The scan
   stops at the first entry whose lowercased `Name`, or one of its trimmed and
   lowercased `;`-separated `Synonyme`, occurs in the lowercased search term,
   and whose name or synonyms also occur in the lowercased `Produkt` name.
   If no entry matches, or the matching entry's name is empty, the score is 0.
2. **Purity (+0.3).** The pattern `[>≥]?\s?([0-9]+,[0-9]+|[0-9]+)\s?%` is
   searched in the query. If it matches, the requested purity is group 1, with
   `,` read as `.`. The listed purity is `Reinheit` with everything except digits
   and commas removed, again with `,` read as `.`. The bonus is awarded when the
   listed purity is at least the requested one. A conversion error earns nothing.
3. **Quantity (+0.2).** The pattern `\b(\d+(?:[.,]\d+)?)\s?(ml|l)\b` is searched
   in the query. The bonus is awarded when the lowercased `Menge` converts to the
   same number and the lowercased `Einheit` equals the unit group.

Scores are whole tenths, so they are natural numbers here: 0, 5, 7, 8 or 10
stand for 0.0, 0.5, 0.7, 0.8 and 1.0. On these values the final
`round(score, 2)` changes nothing. `float()` is modelled on exact `real`
values.

Modules:

- `Wrappers`: `Option`.
- `Text`: `lower`, `strip`, `split(";")`, substring tests, `replace` and the
  `re.sub(r"[^0-9,]", "", …)` filter.
- `Decimal`: the `float()` conversion of plain decimal strings.
- `Patterns`: both regular expressions. Each is a leftmost-match scanner, paired
  with a declarative description of the matches it must find.
- `Synonyms`: the synonym list and the stage-1 scan.
- `Scoring`: the score, as a specification function `Score` and as the
  step-by-step method `RateMatch`.

The substance test follows the code exactly. The search term must mention the
entry (by name or by any synonym), and the product name must mention the entry
(by name or by any synonym). The two mentions may use different tokens: the
term may name `EtOH` while the product name contains only its synonym `Sprit`.
This is looser than reading the rule as "the same token occurs in both", and
`Scoring.DifferentTokensMatch` demonstrates it.

Decimal points are treated unevenly. The purity pattern has no `.` alternative,
so for a query containing `≥99.9%` the leftmost match is `9%` and the requested
purity is 9 (`Scoring.DotPurityReadsTrailingDigits`). The filter applied to
`Reinheit` keeps only digits and commas, so a listed `99.9%` reads as 999
(`Scoring.ListedPurityDropsDot`). Both behaviours are modelled as the code has
them.

## Model

| member | source | states |
|---|---|---|
| Scoring.RateMatch | app.py:3-52 | The score the function accumulates stage by stage equals `Score` |
| Scoring.FindSubstance | app.py:15-23 | The loop returns the lowercased name of the first entry, in list order, that both the query and the product name mention, and `None` if there is none |
| Scoring.Score | app.py:12-52 | The score is one of 0, 5, 7, 8, 10 (0.0, 0.5, 0.7, 0.8, 1.0) |
| Scoring.SubstanceHit | app.py:15-23 | The hit of the substance scan: the lowercased name of the first matching entry; its contract is `Synonyms.FirstMatch`, and `Scoring.FindSubstance` computes it |
| Scoring.ScorePositive | app.py:15-26 | The score is positive exactly when the first entry mentioned by both strings exists and has a non-empty lowercased name |
| Scoring.NoSharedSubstanceScoresZero | app.py:15-26 | With no entry mentioned by both the query and the product name, the score is 0 |
| Scoring.EmptyNameScoresZero | app.py:17-26 | An entry with an empty name at the head of the list matches every pair, and the falsy hit returns 0 |
| Scoring.ScoreStages | app.py:22-48 | Once stage 1 succeeds, the score is at least 0.8 exactly when the purity bonus holds, and is 0.7 or 1.0 exactly when the quantity bonus holds |
| Scoring.RequestedPurity | app.py:29-32 | `float(group(1).replace(",", "."))` of the purity match in the query; see `Scoring.PurityBonusAt` and `Patterns.PuritySearchGroup` |
| Scoring.ListedPurity | app.py:33 | `float` of `Reinheit` filtered to digits and commas, `,` read as `.`; see `Scoring.ListedPurityIgnoresNoise`, `Scoring.ListedPurityTwoCommas` and `Scoring.ListedPurityDropsDot` |
| Scoring.PurityBonus | app.py:29-37 | Whether the purity stage adds 0.3; see `Scoring.PurityBonusNeedsPattern`, `Scoring.PurityBonusAt` and `Scoring.ScoreStages` |
| Scoring.PurityBonusNeedsPattern | app.py:29-30 | Without a match of the purity pattern in the query there is no purity bonus |
| Scoring.PurityBonusAt | app.py:29-35 | For the leftmost purity match, group 1 converts, and the bonus holds exactly when the reduced `Reinheit` converts to a value at least as high |
| Scoring.DotPurityReadsTrailingDigits | app.py:29-35 | In `≥99.9%` the leftmost match is `9%`, the requested purity is 9, and `10%` earns the bonus |
| Scoring.ListedPurityDropsDot | app.py:33 | The filter drops the `.` of a `Reinheit` of `99.9%`, so the listed purity is 999 |
| Scoring.ListedPurityIgnoresNoise | app.py:33 | Characters around a digit string in `Reinheit` that are neither digits nor commas are dropped, and the digits give the value |
| Scoring.ListedPurityTwoCommas | app.py:33-37 | Any `Reinheit` holding two or more commas, whatever else it holds, fails to convert, so it earns no bonus and raises nothing |
| Scoring.QuantityBonus | app.py:40-50 | Whether the quantity stage adds 0.2; see `Scoring.QuantityBonusNeedsPattern`, `Scoring.QuantityBonusAt`, `Scoring.QuantityBonusUnit` and `Scoring.ScoreStages` |
| Scoring.QuantityBonusNeedsPattern | app.py:40-41 | Without a match of the quantity pattern in the query there is no quantity bonus |
| Scoring.QuantityBonusAt | app.py:40-48 | For the leftmost quantity match, the number converts, and the bonus holds exactly when `Menge` converts to the same value and `Einheit` is the unit text |
| Scoring.QuantityBonusUnit | app.py:40-48 | The quantity bonus requires `Einheit` to be the matched unit, which is `ml` or `l` |
| Scoring.NoUnitConversion | app.py:40-48 | `1 l` matches Menge `1`, Einheit `l`, but not `1000` `ml`: units are compared as text |
| Scoring.EmptyDoesNotConvert | app.py:8-10 | A missing field read as `""` never converts |
| Scoring.MissingPurity | app.py:10 | A missing `Reinheit` removes exactly the 0.3 purity bonus and nothing else |
| Scoring.MissingQuantity | app.py:8 | A missing `Menge` removes exactly the 0.2 quantity bonus and nothing else |
| Scoring.MissingUnit | app.py:9 | A missing `Einheit` removes exactly the 0.2 quantity bonus and nothing else |
| Scoring.ScoreIgnoresCase | app.py:6-10 | Query, product fields and synonym lists that differ only in letter case give the same score |
| Scoring.DifferentTokensMatch | app.py:19-20 | An entry passes when the query contains its name and the product name contains a different token, its synonym |
| Synonyms.FirstMatch | app.py:16-23 | The index found is that of a matching entry with no matching entry before it; `None` exactly when no entry matches |
| Synonyms.FirstFromSpec | app.py:16-23 | The scan from a position returns the first entry at or after it that passes the test |
| Synonyms.FirstMatchIs | app.py:16-23 | The first match is at `n` exactly when entry `n` matches and no earlier entry does |
| Synonyms.FirstMatchAlike | app.py:16-23 | Two lists whose entries pass and fail alike have the same first match |
| Synonyms.QueryOnlyEntryIsSkipped | app.py:19-20 | An entry mentioned only by the query does not stop the scan; the result is that of the rest of the list |
| Synonyms.EntryMatches | app.py:19-20 | The substance test of one entry; its contract is `Synonyms.EntryMatchesTokens` |
| Synonyms.EntryMatchesTokens | app.py:17-20 | An entry passes exactly when some of its tokens (lowercased name and synonyms) occurs in the query and some token occurs in the product name |
| Synonyms.AnyContainedSpec | app.py:19-20 | `any(s in text for s in tokens)` holds exactly when some token occurs in the text |
| Synonyms.EmptyNameMatchesAll | app.py:17-21 | An empty lowercased name occurs in every string, so the entry matches every pair |
| Synonyms.SynonymTokens | app.py:18 | The synonym list comprehension; see `Synonyms.CleanPiecesMembers`, `Synonyms.SynonymTokensWellFormed` and `Synonyms.SynonymTokensLower` |
| Synonyms.CleanPiecesMembers | app.py:18 | A synonym is exactly the stripped, lowercased form of a non-blank piece |
| Synonyms.CleanSpec | app.py:18 | A cleaned piece is non-empty, lowercase, `;`-free and has no surrounding whitespace |
| Synonyms.SynonymTokensWellFormed | app.py:18 | Every synonym is non-empty, lowercase, free of `;` and of surrounding whitespace |
| Synonyms.SynonymTokensLower | app.py:17-18 | Lowercasing `Synonyme` first does not change the synonyms |
| Patterns.PuritySearch | app.py:29 | `re.search` of the purity pattern; its contract is `Patterns.PuritySearchSpec` |
| Patterns.PuritySearchSpec | app.py:29 | The scanner returns group 1 of the leftmost match of the purity pattern, and nothing exactly when the pattern matches nowhere |
| Patterns.PuritySearchGroup | app.py:29-32 | Group 1 of a purity match is `digits` or `digits,digits`, so its conversion never raises |
| Patterns.PurityMatchAtComplete | app.py:29 | Any match of the purity pattern starting at `p` is the one the scanner reports there |
| Patterns.QuantitySearch | app.py:40 | `re.search` of the quantity pattern; its contract is `Patterns.QuantitySearchSpec` |
| Patterns.QuantitySearchSpec | app.py:40 | The scanner returns groups 1 and 2 of the leftmost match of the quantity pattern, and nothing exactly when it matches nowhere |
| Patterns.QuantitySearchGroups | app.py:40-43 | The unit group is `ml` or `l`, and group 1 always converts |
| Patterns.QuantityMatchAtComplete | app.py:40 | Any match of the quantity pattern starting at `p` is the one the scanner reports there |
| Decimal.ParseDecimal | app.py:32-33 | `float()` of a digit-and-dot string: never negative; see `Decimal.ParseDecimalSyntax`, `Decimal.ParseDigits` and `Decimal.ParseNatToDigits` |
| Decimal.ParseDecimalSyntax | app.py:32-33 | Conversion succeeds exactly on digit strings with at most one `.` and at least one digit |
| Decimal.ParseNatToDigits | app.py:46 | The decimal rendering of a natural number converts back to that number |
| Decimal.TrailingZeroInFraction | app.py:46-47 | `1.50` and `1.5` convert to the same value |
| Decimal.ParseDigits | app.py:33 | A plain digit string converts to the number it denotes |
| Decimal.TwoDotsNotDecimal | app.py:33-37 | A string with two `.` anywhere fails to convert |
| Decimal.TwoDotsFail | app.py:33-37 | A second `.` makes the conversion fail |
| Text.Strip | app.py:18 | `str.strip()`; its contract is `Text.StripSpec` |
| Text.StripSpec | app.py:18 | `strip()` returns a substring with no whitespace at either end, and only whitespace is removed around it |
| Text.StripLower | app.py:18 | Stripping and lowercasing commute |
| Text.Split | app.py:18 | `str.split(";")`: at least one piece; see `Text.JoinSplit`, `Text.SplitJoin` and `Text.SplitPiecesFree` |
| Text.JoinSplit | app.py:18 | Joining the pieces of `split(";")` with `;` gives back the string |
| Text.SplitJoin | app.py:18 | Splitting a `;`-join of `;`-free pieces gives back the pieces |
| Text.SplitPiecesFree | app.py:18 | No piece of `split(";")` contains `;` |
| Text.SplitLower | app.py:17-18 | Lowercasing before splitting lowercases each piece and keeps their number |
| Text.IndexOfFirst | app.py:18 | The separator search finds the first occurrence |
| Text.KeepDigitsAndCommas | app.py:33 | `re.sub(r"[^0-9,]", "", …)`; see `Text.KeepDigitsAndCommasSpec`, `Text.KeepAppend` and `Text.KeepCommaAt` |
| Text.KeepDigitsAndCommasSpec | app.py:33 | The filter keeps only digits and commas, keeps a string made of them whole, and empties one without any |
| Text.KeepCommaAt | app.py:33 | Every comma survives the filter, after the kept text of the prefix before it |
| Text.KeepAppend | app.py:33 | The filter works piecewise on a concatenation |
| Text.KeepLower | app.py:33 | Lowercasing `Reinheit` first does not change the filtered text |
| Text.ReplaceChar | app.py:32-46 | After `replace(",", ".")` no comma is left |
| Text.ReplaceCharRoundTrip | app.py:32-46 | On a string without `.`, replacing `,` by `.` and back restores it |
| Text.ReplaceCharFree | app.py:32-46 | `replace(",", ".")` leaves a string without commas unchanged |
| Text.Lower | app.py:6-9 | `str.lower()`, character by character; see `Text.LowerCharSpec` and `Text.LowerIdempotent` |
| Text.LowerIdempotent | app.py:6-9 | Lowercasing twice is lowercasing once, and leaves no upper-case letter |
| Text.LowerCharSpec | app.py:6-9 | Lowercasing a character maps `A`-`Z` (and Latin-1 capitals) to lower case, leaves others unchanged and keeps the digit, space and word classes |

## Left out

- Unicode beyond U+00FF: `str.lower()` and `\w` are exact only on Latin-1. Above it, characters are treated as their own lower case and as non-word characters. `\d` is ASCII digits only, while Python's `\d` also accepts other Unicode digits.
- Decimal.ParseDecimal: accepts only digits with at most one `.` and at least one digit. It does not accept the rest of Python's `float()` syntax: signs, surrounding whitespace, `_` separators, exponents, `inf`, `nan` and non-ASCII digits.
- Binary floating point and `round(score, 2)`: the scores are exact tenths and the purity and quantity comparisons use exact `real` values.
- The `KeyError` for a missing `Produkt`, `Name` or `Synonyme` key: the types always provide these fields. Cell values that are not strings (numbers, `None`) are not modelled either.
- `import re` and Python's regular-expression engine in general: only the two fixed patterns are modelled.
- Loading the product and synonym tables, the user interface, and the rest of the repository are not part of this model.
