/**
 * Stage 1 of the scoring function: the synonym list and the scan for the first
 * entry that names a substance mentioned by both the search term and the
 * product name.
 */
module Synonyms {
  import opened Wrappers
  import opened Text

  /** One row of the synonym list: its `Name` and its `;`-separated `Synonyme`. */
  datatype Entry = Entry(name: string, synonyms: string)

  /** `s.strip()` is empty. */
  predicate IsBlank(piece: string)
  {
    Strip(piece) == []
  }

  /** `s.strip().lower()`. */
  function Clean(piece: string): string
  {
    Lower(Strip(piece))
  }

  /** The trimmed, lowercased, non-blank pieces, in order. */
  function CleanPieces(pieces: seq<string>): seq<string>
    decreases |pieces|
  {
    if pieces == [] then []
    else (if !IsBlank(pieces[0]) then [Clean(pieces[0])] else []) + CleanPieces(pieces[1..])
  }

  /** The synonyms of an entry: `[s.strip().lower() for s in synonyms.split(";") if s.strip()]`. */
  function SynonymTokens(synonyms: string): seq<string>
  {
    CleanPieces(Split(synonyms, ';'))
  }

  /** A synonym is exactly the trimmed, lowercased form of a non-blank piece. */
  lemma {:induction false} CleanPiecesMembers(pieces: seq<string>)
    ensures forall t :: t in CleanPieces(pieces) <==>
      exists k | 0 <= k < |pieces| :: !IsBlank(pieces[k]) && t == Clean(pieces[k])
    decreases |pieces|
  {
    if pieces != [] {
      CleanPiecesMembers(pieces[1..]);
      forall t | t in CleanPieces(pieces)
        ensures exists k | 0 <= k < |pieces| :: !IsBlank(pieces[k]) && t == Clean(pieces[k])
      {
        if t !in CleanPieces(pieces[1..]) {
          assert !IsBlank(pieces[0]) && t == Clean(pieces[0]);
        } else {
          var k :| 0 <= k < |pieces[1..]| && !IsBlank(pieces[1..][k]) && t == Clean(pieces[1..][k]);
          assert pieces[1..][k] == pieces[k + 1];
        }
      }
      forall t, k | 0 <= k < |pieces| && !IsBlank(pieces[k]) && t == Clean(pieces[k])
        ensures t in CleanPieces(pieces)
      {
        if k > 0 {
          assert pieces[1..][k - 1] == pieces[k];
        }
      }
    }
  }

  /** A cleaned non-blank piece is non-empty, lowercase, without surrounding whitespace, and keeps out `;`. */
  lemma CleanSpec(piece: string)
    requires !IsBlank(piece)
    ensures var t := Clean(piece);
      && t != []
      && Lower(t) == t
      && (Free(piece, ';') ==> Free(t, ';'))
      && !IsSpace(t[0]) && !IsSpace(t[|t| - 1])
  {
    var r := Strip(piece);
    var t := Clean(piece);
    StripSpec(piece);
    var at := |piece| - |StripLeft(piece)|;
    assert piece[at..at + |r|] == r;
    LowerIdempotent(r);
    LowerCharSpec(r[0]);
    LowerCharSpec(r[|r| - 1]);
    if Free(piece, ';') {
      forall x | 0 <= x < |r| ensures t[x] != ';' {
        assert r[x] == piece[at + x];
        LowerCharSpec(r[x]);
      }
    }
  }

  /** Every synonym is non-empty, lowercase, free of `;` and of surrounding whitespace. */
  lemma SynonymTokensWellFormed(synonyms: string, t: string)
    requires t in SynonymTokens(synonyms)
    ensures t != [] && Lower(t) == t && Free(t, ';')
    ensures !IsSpace(t[0]) && !IsSpace(t[|t| - 1])
  {
    var pieces := Split(synonyms, ';');
    CleanPiecesMembers(pieces);
    SplitPiecesFree(synonyms, ';');
    var k :| 0 <= k < |pieces| && !IsBlank(pieces[k]) && t == Clean(pieces[k]);
    CleanSpec(pieces[k]);
  }

  lemma CleanLower(piece: string)
    ensures IsBlank(Lower(piece)) == IsBlank(piece)
    ensures Clean(Lower(piece)) == Clean(piece)
  {
    StripLower(piece);
    LowerIdempotent(Strip(piece));
  }

  lemma {:induction false} CleanPiecesLower(pieces: seq<string>, lowered: seq<string>)
    requires |lowered| == |pieces|
    requires forall k | 0 <= k < |pieces| :: lowered[k] == Lower(pieces[k])
    ensures CleanPieces(lowered) == CleanPieces(pieces)
    decreases |pieces|
  {
    if pieces != [] {
      CleanLower(pieces[0]);
      CleanPiecesLower(pieces[1..], lowered[1..]);
    }
  }

  /** Lowercasing the `Synonyme` field first does not change the synonyms. */
  lemma SynonymTokensLower(synonyms: string)
    ensures SynonymTokens(Lower(synonyms)) == SynonymTokens(synonyms)
  {
    SplitLower(synonyms, ';');
    CleanPiecesLower(Split(synonyms, ';'), Split(Lower(synonyms), ';'));
  }

  /** `any(s in text for s in tokens)`. */
  predicate AnyContained(tokens: seq<string>, text: string)
    decreases |tokens|
  {
    tokens != [] && (Contains(text, tokens[0]) || AnyContained(tokens[1..], text))
  }

  lemma {:induction false} AnyContainedSpec(tokens: seq<string>, text: string)
    ensures AnyContained(tokens, text) <==> exists k | 0 <= k < |tokens| :: Contains(text, tokens[k])
    decreases |tokens|
  {
    if tokens != [] {
      AnyContainedSpec(tokens[1..], text);
      if AnyContained(tokens[1..], text) {
        var k :| 0 <= k < |tokens[1..]| && Contains(text, tokens[1..][k]);
        assert tokens[1..][k] == tokens[k + 1];
      }
      forall k | 1 <= k < |tokens| && Contains(text, tokens[k]) ensures AnyContained(tokens[1..], text) {
        assert tokens[1..][k - 1] == tokens[k];
      }
    }
  }

  /** The entry's lowercased name, or one of its synonyms, occurs in `text`. */
  predicate Mentions(e: Entry, text: string)
  {
    Contains(text, Lower(e.name)) || AnyContained(SynonymTokens(e.synonyms), text)
  }

  /**
   * The substance test of `bewerte_treffer`: the entry is mentioned by the search term AND by the
   * product name. The two mentions may use different tokens.
   */
  predicate EntryMatches(e: Entry, query: string, product: string)
  {
    Mentions(e, query) && Mentions(e, product)
  }

  /**
   * The substance test of `bewerte_treffer` over the entry's tokens (its lowercased name and its
   * synonyms): some token occurs in the search term and some token occurs in the
   * product name.
   */
  lemma EntryMatchesTokens(e: Entry, query: string, product: string)
    ensures var tokens := [Lower(e.name)] + SynonymTokens(e.synonyms);
      EntryMatches(e, query, product) <==>
        (exists t | t in tokens :: Contains(query, t)) && (exists t | t in tokens :: Contains(product, t))
  {
    var synonyms := SynonymTokens(e.synonyms);
    var tokens := [Lower(e.name)] + synonyms;
    MentionsTokens(e, query);
    MentionsTokens(e, product);
  }

  lemma MentionsTokens(e: Entry, text: string)
    ensures Mentions(e, text) <==> exists t | t in [Lower(e.name)] + SynonymTokens(e.synonyms) :: Contains(text, t)
  {
    var synonyms := SynonymTokens(e.synonyms);
    var tokens := [Lower(e.name)] + synonyms;
    AnyContainedSpec(synonyms, text);
    if AnyContained(synonyms, text) {
      var k :| 0 <= k < |synonyms| && Contains(text, synonyms[k]);
      assert synonyms[k] == tokens[k + 1];
    }
    if exists t | t in tokens :: Contains(text, t) {
      var t :| t in tokens && Contains(text, t);
      var k :| 0 <= k < |tokens| && tokens[k] == t;
      if k > 0 {
        assert synonyms[k - 1] == t;
      }
    }
  }

  /** The substance test of `bewerte_treffer`, written out on the entry's lowercased name and its synonyms. */
  lemma EntryMatchesIs(e: Entry, query: string, product: string)
    ensures var name := Lower(e.name);
      var synonyms := SynonymTokens(e.synonyms);
      EntryMatches(e, query, product) == (
        (Contains(query, name) || AnyContained(synonyms, query)) &&
        (Contains(product, name) || AnyContained(synonyms, product)))
  {
  }

  /** The substance test of `bewerte_treffer` for a fixed search term and product name. */
  function MatchTest(query: string, product: string): Entry -> bool
  {
    e => EntryMatches(e, query, product)
  }

  /** The substance scan from index `from` on: the first entry that passes `test`. */
  function FirstFrom(entries: seq<Entry>, test: Entry -> bool, from: nat): (r: Option<nat>)
    requires from <= |entries|
    ensures r.Some? ==> from <= r.value < |entries|
    decreases |entries| - from
  {
    if from == |entries| then None
    else if test(entries[from]) then Some(from)
    else FirstFrom(entries, test, from + 1)
  }

  /** The scan from `from` finds the first entry at or after `from` that passes the test. */
  lemma {:induction false} FirstFromSpec(entries: seq<Entry>, test: Entry -> bool, from: nat)
    requires from <= |entries|
    ensures var r := FirstFrom(entries, test, from);
      && (r.Some? ==> test(entries[r.value]))
      && (r.Some? ==> forall k | from <= k < r.value :: !test(entries[k]))
      && (r.None? ==> forall k | from <= k < |entries| :: !test(entries[k]))
    decreases |entries| - from
  {
    if from < |entries| && !test(entries[from]) {
      FirstFromSpec(entries, test, from + 1);
    }
  }

  /**
   * The index of the first entry, in list order, that both the search term and
   * the product name mention; `None` when no entry does.
   */
  function FirstMatch(entries: seq<Entry>, query: string, product: string): (r: Option<nat>)
    ensures r.Some? ==> r.value < |entries| && EntryMatches(entries[r.value], query, product)
    ensures r.Some? ==> forall k | 0 <= k < r.value :: !EntryMatches(entries[k], query, product)
    ensures r.None? <==> forall k | 0 <= k < |entries| :: !EntryMatches(entries[k], query, product)
  {
    FirstFromSpec(entries, MatchTest(query, product), 0);
    FirstFrom(entries, MatchTest(query, product), 0)
  }

  /** The first match is at `n` exactly when entry `n` matches and no earlier entry does. */
  lemma FirstMatchIs(entries: seq<Entry>, query: string, product: string, n: nat)
    ensures FirstMatch(entries, query, product) == Some(n)
      <==> n < |entries| && EntryMatches(entries[n], query, product)
           && forall k | 0 <= k < n :: !EntryMatches(entries[k], query, product)
  {
  }

  /** Two lists whose entries pass and fail the test alike have the same first match. */
  lemma FirstMatchAlike(entries: seq<Entry>, others: seq<Entry>, query: string, product: string,
                        otherQuery: string, otherProduct: string)
    requires |entries| == |others|
    requires forall k | 0 <= k < |entries| ::
      EntryMatches(entries[k], query, product) == EntryMatches(others[k], otherQuery, otherProduct)
    ensures FirstMatch(entries, query, product) == FirstMatch(others, otherQuery, otherProduct)
  {
    var r := FirstMatch(entries, query, product);
    if r.Some? {
      FirstMatchIs(others, otherQuery, otherProduct, r.value);
    }
  }

  /** An entry whose lowercased name is empty matches every pair: `"" in s` always holds. */
  lemma EmptyNameMatchesAll(e: Entry, query: string, product: string)
    requires Lower(e.name) == ""
    ensures EntryMatches(e, query, product)
  {
    EmptyContained(query);
    EmptyContained(product);
  }

  /** An index into the tail, as an index into the whole list. */
  function Shifted(r: Option<nat>): Option<nat>
  {
    match r
    case Some(i) => Some(i + 1)
    case None => None
  }

  /**
   * An entry mentioned only by the search term does not stop the scan: the result
   * is that of the scan over the remaining entries, shifted by one.
   */
  lemma QueryOnlyEntryIsSkipped(e: Entry, rest: seq<Entry>, query: string, product: string)
    requires Mentions(e, query) && !Mentions(e, product)
    ensures FirstMatch([e] + rest, query, product) == Shifted(FirstMatch(rest, query, product))
  {
    var all := [e] + rest;
    var test := MatchTest(query, product);
    assert all[0] == e && !test(e);
    assert FirstFrom(all, test, 0) == FirstFrom(all, test, 1);
    FirstFromShift(e, rest, test, 0);
  }

  /** Scanning `[e] + rest` from `from + 1` is scanning `rest` from `from`, shifted by one. */
  lemma {:induction false} FirstFromShift(e: Entry, rest: seq<Entry>, test: Entry -> bool, from: nat)
    requires from <= |rest|
    ensures FirstFrom([e] + rest, test, from + 1) == Shifted(FirstFrom(rest, test, from))
    decreases |rest| - from
  {
    var all := [e] + rest;
    if from < |rest| {
      assert all[from + 1] == rest[from];
      FirstFromShift(e, rest, test, from + 1);
    }
  }
}
