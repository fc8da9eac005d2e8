/**
 * Character classes and string operations that the scoring function uses:
 * `str.lower()`, `str.strip()`, `str.split(";")`, the substring test `a in b`,
 * `str.replace(",", ".")` and `re.sub(r"[^0-9,]", "", s)`.
 */
module Text {
  import opened Wrappers

  /** `str.lower()` on one character: exact for U+0000..U+00FF, identity above. */
  function LowerChar(c: char): char
  {
    if IsUpper(c) then (c as int + 32) as char else c
  }

  /** The capitals `str.lower()` changes in U+0000..U+00FF: `A`-`Z` and `À`-`Þ` except `×`. */
  predicate IsUpper(c: char)
  {
    'A' <= c <= 'Z' || ('\U{00C0}' <= c <= '\U{00DE}' && c != '\U{00D7}')
  }

  /** ASCII decimal digit: the class `[0-9]` (and `\d`, see README). */
  predicate IsDigit(c: char)
  {
    '0' <= c <= '9'
  }

  /** The characters Python treats as whitespace (`\s`, `str.strip()`, `str.isspace()`). */
  predicate IsSpace(c: char)
  {
    ('\t' <= c <= '\r') || ('\U{001C}' <= c <= ' ') || c == '\U{0085}' || c == '\U{00A0}'
    || c == '\U{1680}' || ('\U{2000}' <= c <= '\U{200A}') || c == '\U{2028}' || c == '\U{2029}'
    || c == '\U{202F}' || c == '\U{205F}' || c == '\U{3000}'
  }

  /** The regex word class `\w` (alphanumerics and `_`): exact on Latin-1, non-word above it. */
  predicate IsWordChar(c: char)
  {
    ('0' <= c <= '9') || ('A' <= c <= 'Z') || ('a' <= c <= 'z') || c == '_'
    || c == '\U{00AA}' || c == '\U{00B2}' || c == '\U{00B3}' || c == '\U{00B5}' || c == '\U{00B9}'
    || c == '\U{00BA}' || ('\U{00BC}' <= c <= '\U{00BE}') || ('\U{00C0}' <= c <= '\U{00D6}')
    || ('\U{00D8}' <= c <= '\U{00F6}') || ('\U{00F8}' <= c <= '\U{00FF}')
  }

  lemma LowerCharSpec(c: char)
    ensures !IsUpper(LowerChar(c))
    ensures IsUpper(c) ==> LowerChar(c) as int == c as int + 32
    ensures !IsUpper(c) ==> LowerChar(c) == c
    ensures IsSpace(LowerChar(c)) == IsSpace(c)
    ensures IsDigit(LowerChar(c)) == IsDigit(c)
    ensures IsWordChar(LowerChar(c)) == IsWordChar(c)
  {
  }

  /** `str.lower()`, one character at a time. */
  function Lower(s: string): string
  {
    seq(|s|, i requires 0 <= i < |s| => LowerChar(s[i]))
  }

  lemma LowerIdempotent(s: string)
    ensures Lower(Lower(s)) == Lower(s)
    ensures forall i | 0 <= i < |s| :: !IsUpper(Lower(s)[i])
  {
    forall i | 0 <= i < |s| ensures Lower(Lower(s))[i] == Lower(s)[i] && !IsUpper(Lower(s)[i]) {
      LowerCharSpec(s[i]);
    }
  }

  /** Substring test `part in text`; the empty string occurs in every text. */
  predicate Contains(text: string, part: string)
  {
    exists i | 0 <= i <= |text| - |part| :: OccursAt(text, part, i)
  }

  /** `part` occurs in `text` starting at index `i`. */
  predicate OccursAt(text: string, part: string, i: int)
  {
    0 <= i <= |text| - |part| && text[i..i + |part|] == part
  }

  lemma EmptyContained(text: string)
    ensures Contains(text, "")
  {
    assert OccursAt(text, "", 0);
  }

  /** `str.lstrip()`: drop leading whitespace. */
  function StripLeft(s: string): string
  {
    if s != [] && IsSpace(s[0]) then StripLeft(s[1..]) else s
  }

  /** `str.rstrip()`: drop trailing whitespace. */
  function StripRight(s: string): string
  {
    if s != [] && IsSpace(s[|s| - 1]) then StripRight(s[..|s| - 1]) else s
  }

  /** `str.strip()`: drop leading and trailing whitespace. */
  function Strip(s: string): string
  {
    StripRight(StripLeft(s))
  }

  /** StripLeft keeps a suffix, drops only whitespace, and stops at a non-whitespace character. */
  lemma {:induction false} StripLeftSpec(s: string)
    ensures var r := StripLeft(s);
      && |r| <= |s| && r == s[|s| - |r|..]
      && (r == [] || !IsSpace(r[0]))
      && forall i | 0 <= i < |s| - |r| :: IsSpace(s[i])
    decreases |s|
  {
    if s != [] && IsSpace(s[0]) {
      StripLeftSpec(s[1..]);
    }
  }

  /** StripRight keeps a prefix, drops only whitespace, and stops at a non-whitespace character. */
  lemma {:induction false} StripRightSpec(s: string)
    ensures var r := StripRight(s);
      && |r| <= |s| && r == s[..|r|]
      && (r == [] || !IsSpace(r[|r| - 1]))
      && forall i | |r| <= i < |s| :: IsSpace(s[i])
    decreases |s|
  {
    if s != [] && IsSpace(s[|s| - 1]) {
      StripRightSpec(s[..|s| - 1]);
    }
  }

  /**
   * Strip cuts a whitespace prefix and a whitespace suffix and leaves no
   * whitespace at either end; what is left starts where StripLeft starts.
   */
  lemma StripSpec(s: string)
    ensures var r := Strip(s);
      var k := |s| - |StripLeft(s)|;
      && (r == [] || (!IsSpace(r[0]) && !IsSpace(r[|r| - 1])))
      && OccursAt(s, r, k)
      && (forall i | 0 <= i < k :: IsSpace(s[i]))
      && (forall i | k + |r| <= i < |s| :: IsSpace(s[i]))
  {
    var l := StripLeft(s);
    StripLeftSpec(s);
    StripRightSpec(l);
    StripRightInside(s, |s| - |l|);
  }

  lemma StripRightInside(s: string, k: nat)
    requires k <= |s|
    ensures var l := s[k..];
      var r := StripRight(l);
      && |r| <= |l| && s[k..k + |r|] == r
      && (r != [] ==> r[0] == l[0])
      && forall i | k + |r| <= i < |s| :: IsSpace(s[i])
  {
    var l := s[k..];
    var r := StripRight(l);
    StripRightSpec(l);
    assert r == l[..|r|];
    forall i | k + |r| <= i < |s| ensures IsSpace(s[i]) {
      assert s[i] == l[i - k];
    }
  }

  /** Whitespace stays whitespace and non-whitespace stays non-whitespace under Lower, so Strip commutes with it. */
  lemma StripLower(s: string)
    ensures Strip(Lower(s)) == Lower(Strip(s))
  {
    StripLeftLower(s);
    StripRightLower(StripLeft(s));
  }

  lemma {:induction false} StripLeftLower(s: string)
    ensures StripLeft(Lower(s)) == Lower(StripLeft(s))
    decreases |s|
  {
    if s != [] {
      LowerCharSpec(s[0]);
      assert Lower(s)[1..] == Lower(s[1..]);
      if IsSpace(s[0]) {
        StripLeftLower(s[1..]);
      }
    }
  }

  lemma {:induction false} StripRightLower(s: string)
    ensures StripRight(Lower(s)) == Lower(StripRight(s))
    decreases |s|
  {
    if s != [] {
      LowerCharSpec(s[|s| - 1]);
      assert Lower(s)[..|s| - 1] == Lower(s[..|s| - 1]);
      if IsSpace(s[|s| - 1]) {
        StripRightLower(s[..|s| - 1]);
      }
    }
  }

  predicate Free(s: string, sep: char)
  {
    forall i | 0 <= i < |s| :: s[i] != sep
  }

  /** Position of the first occurrence of `c` in `s`, if any. */
  function IndexOf(s: string, c: char): (r: Option<nat>)
    ensures r.Some? ==> r.value < |s| && s[r.value] == c && Free(s[..r.value], c)
    ensures r.None? ==> Free(s, c)
    decreases |s|
  {
    if s == [] then None
    else if s[0] == c then Some(0)
    else
      match IndexOf(s[1..], c)
      case None => None
      case Some(k) => Some(k + 1)
  }

  lemma {:induction false} IndexOfFirst(s: string, x: char, k: nat)
    requires k < |s| && s[k] == x && Free(s[..k], x)
    ensures IndexOf(s, x) == Some(k)
    decreases k
  {
    if k > 0 {
      assert s[..k][0] == s[0];
      assert s[1..][..k - 1] == s[..k][1..];
      IndexOfFirst(s[1..], x, k - 1);
    }
  }

  lemma IndexOfNone(s: string, x: char)
    requires Free(s, x)
    ensures IndexOf(s, x) == None
  {
  }

  /** `s.split(sep)`: the pieces between separators; always at least one piece, and `""` gives `[""]`. */
  function Split(s: string, sep: char): (r: seq<string>)
    ensures |r| >= 1
    decreases |s|
  {
    match IndexOf(s, sep)
    case None => [s]
    case Some(i) => [s[..i]] + Split(s[i + 1..], sep)
  }

  /** `sep.join(parts)`. */
  function Join(parts: seq<string>, sep: char): string
    requires |parts| >= 1
    decreases |parts|
  {
    if |parts| == 1 then parts[0] else parts[0] + [sep] + Join(parts[1..], sep)
  }

  lemma JoinCons(head: string, parts: seq<string>, sep: char)
    requires |parts| >= 1
    ensures Join([head] + parts, sep) == head + [sep] + Join(parts, sep)
  {
    assert ([head] + parts)[1..] == parts;
  }

  /** No piece contains the separator. */
  lemma {:induction false} SplitPiecesFree(s: string, sep: char)
    ensures forall k | 0 <= k < |Split(s, sep)| :: Free(Split(s, sep)[k], sep)
    decreases |s|
  {
    match IndexOf(s, sep)
    case None =>
    case Some(i) =>
      SplitPiecesFree(s[i + 1..], sep);
  }

  /** Joining the pieces with the separator gives back the string. */
  lemma {:induction false} JoinSplit(s: string, sep: char)
    ensures Join(Split(s, sep), sep) == s
    decreases |s|
  {
    match IndexOf(s, sep)
    case None =>
    case Some(i) =>
      JoinSplit(s[i + 1..], sep);
      JoinCons(s[..i], Split(s[i + 1..], sep), sep);
      assert s == s[..i] + [sep] + s[i + 1..];
  }

  /** Splitting a join of separator-free parts gives back the parts. */
  lemma {:induction false} SplitJoin(parts: seq<string>, sep: char)
    requires |parts| >= 1
    requires forall k | 0 <= k < |parts| :: Free(parts[k], sep)
    ensures Split(Join(parts, sep), sep) == parts
    decreases |parts|
  {
    if |parts| == 1 {
      SplitFree(parts[0], sep);
    } else {
      var s := Join(parts, sep);
      var head := parts[0];
      SplitJoin(parts[1..], sep);
      assert s == head + [sep] + Join(parts[1..], sep);
      assert s[..|head|] == head;
      IndexOfFirst(s, sep, |head|);
      assert s[|head| + 1..] == Join(parts[1..], sep);
    }
  }

  lemma SplitFree(s: string, sep: char)
    requires Free(s, sep)
    ensures Split(s, sep) == [s]
  {
    IndexOfNone(s, sep);
  }

  /** A character that is not a letter stays put under Lower, so Lower does not move separators. */
  lemma {:induction false} IndexOfLower(s: string, sep: char)
    requires !IsWordChar(sep)
    ensures IndexOf(Lower(s), sep) == IndexOf(s, sep)
    decreases |s|
  {
    if s != [] {
      LowerCharSpec(s[0]);
      assert Lower(s)[1..] == Lower(s[1..]);
      IndexOfLower(s[1..], sep);
    }
  }

  /** Splitting the lowercased string gives the lowercased pieces. */
  lemma {:induction false} SplitLower(s: string, sep: char)
    requires !IsWordChar(sep)
    ensures |Split(Lower(s), sep)| == |Split(s, sep)|
    ensures forall k | 0 <= k < |Split(s, sep)| :: Split(Lower(s), sep)[k] == Lower(Split(s, sep)[k])
    decreases |s|
  {
    IndexOfLower(s, sep);
    match IndexOf(s, sep)
    case None =>
    case Some(i) =>
      var low := Lower(s);
      assert low[..i] == Lower(s[..i]);
      assert low[i + 1..] == Lower(s[i + 1..]);
      SplitLower(s[i + 1..], sep);
  }

  /** `s.replace(from, to)` for single characters. */
  function ReplaceChar(s: string, from: char, to: char): (r: string)
    ensures from != to ==> Free(r, from)
  {
    seq(|s|, i requires 0 <= i < |s| => if s[i] == from then to else s[i])
  }

  /** Where `to` did not occur before, replacing it back by `from` restores the string. */
  lemma ReplaceCharRoundTrip(s: string, from: char, to: char)
    requires Free(s, to)
    ensures ReplaceChar(ReplaceChar(s, from, to), to, from) == s
  {
    var r := ReplaceChar(s, from, to);
    forall i | 0 <= i < |s| ensures ReplaceChar(r, to, from)[i] == s[i] {
      assert r[i] == (if s[i] == from then to else s[i]);
    }
  }

  /** Replacing a character that does not occur changes nothing. */
  lemma ReplaceCharFree(s: string, from: char, to: char)
    requires Free(s, from)
    ensures ReplaceChar(s, from, to) == s
  {
  }

  /** `re.sub(r"[^0-9,]", "", s)`: keep only ASCII digits and commas. */
  function KeepDigitsAndCommas(s: string): string
  {
    if s == [] then []
    else (if IsDigit(s[0]) || s[0] == ',' then [s[0]] else []) + KeepDigitsAndCommas(s[1..])
  }

  /** A comma of `s` survives the filter, at the position given by the kept prefix before it. */
  lemma KeepCommaAt(s: string, x: nat)
    requires x < |s| && s[x] == ','
    ensures var n := |KeepDigitsAndCommas(s[..x])|;
      && n < |KeepDigitsAndCommas(s)|
      && KeepDigitsAndCommas(s)[n] == ','
      && |KeepDigitsAndCommas(s[..x + 1])| == n + 1
  {
    assert s == s[..x] + s[x..];
    KeepAppend(s[..x], s[x..]);
    assert s[x..][1..] == s[x + 1..];
    assert KeepDigitsAndCommas(s[x..]) == [','] + KeepDigitsAndCommas(s[x + 1..]);
    assert s[..x + 1] == s[..x] + [','];
    KeepAppend(s[..x], [',']);
    assert KeepDigitsAndCommas([',']) == [','];
  }

  /** The kept text of a longer prefix is at least as long. */
  lemma KeepPrefixGrows(s: string, x: nat, y: nat)
    requires x <= y <= |s|
    ensures |KeepDigitsAndCommas(s[..x])| <= |KeepDigitsAndCommas(s[..y])|
  {
    assert s[..y] == s[..x] + s[x..y];
    KeepAppend(s[..x], s[x..y]);
  }

  /** What is kept is exactly the digits and commas of the input, in order. */
  lemma {:induction false} KeepDigitsAndCommasSpec(s: string)
    ensures forall i | 0 <= i < |KeepDigitsAndCommas(s)| ::
      IsDigit(KeepDigitsAndCommas(s)[i]) || KeepDigitsAndCommas(s)[i] == ','
    ensures (forall i | 0 <= i < |s| :: IsDigit(s[i]) || s[i] == ',') ==> KeepDigitsAndCommas(s) == s
    ensures (forall i | 0 <= i < |s| :: !IsDigit(s[i]) && s[i] != ',') ==> KeepDigitsAndCommas(s) == []
    decreases |s|
  {
    if s != [] {
      KeepDigitsAndCommasSpec(s[1..]);
    }
  }

  lemma {:induction false} KeepAppend(a: string, b: string)
    ensures KeepDigitsAndCommas(a + b) == KeepDigitsAndCommas(a) + KeepDigitsAndCommas(b)
    decreases |a|
  {
    if a == [] {
      assert a + b == b;
    } else {
      var head := if IsDigit(a[0]) || a[0] == ',' then [a[0]] else [];
      assert (a + b)[0] == a[0];
      assert (a + b)[1..] == a[1..] + b;
      KeepAppend(a[1..], b);
      calc {
        KeepDigitsAndCommas(a + b);
        head + KeepDigitsAndCommas(a[1..] + b);
        head + (KeepDigitsAndCommas(a[1..]) + KeepDigitsAndCommas(b));
        (head + KeepDigitsAndCommas(a[1..])) + KeepDigitsAndCommas(b);
      }
    }
  }

  /** Lower never turns a letter into a digit or comma, so it does not change what is kept. */
  lemma {:induction false} KeepLower(s: string)
    ensures KeepDigitsAndCommas(Lower(s)) == KeepDigitsAndCommas(s)
    decreases |s|
  {
    if s != [] {
      LowerCharSpec(s[0]);
      assert Lower(s)[1..] == Lower(s[1..]);
      KeepLower(s[1..]);
    }
  }
}
