/**
 * String helpers shared by the whole model: the .NET notions of white space,
 * invariant case folding, trimming, ordinal (case-insensitive) comparison,
 * substring search and replacement, and invariant integer formatting.
 *
 * Case folding covers ASCII and the Latin-1 upper-case letters; that is the
 * alphabet the tracker's own markers and keywords are written in.
 */
module Text {

  datatype Option<T> = None | Some(value: T)

  /** char.IsWhiteSpace: ASCII controls 9-13, space, U+0085 and the Unicode space separators. */
  predicate IsWhiteSpace(c: char)
  {
    c == ' ' || ('\t' <= c <= '\r') || c == '\U{0085}' || c == '\U{00A0}' || c == '\U{1680}'
    || ('\U{2000}' <= c <= '\U{200A}') || c == '\U{2028}' || c == '\U{2029}' || c == '\U{202F}'
    || c == '\U{205F}' || c == '\U{3000}'
  }

  predicate IsDigit(c: char) { '0' <= c <= '9' }

  /** Upper-case letters of ASCII and Latin-1 (U+00C0 to U+00DE without the multiplication sign). */
  predicate IsUpper(c: char)
  {
    ('A' <= c <= 'Z') || ('\U{00C0}' <= c <= '\U{00DE}' && c != '\U{00D7}')
  }

  predicate IsLetter(c: char)
  {
    ('A' <= c <= 'Z') || ('a' <= c <= 'z')
    || ('\U{00C0}' <= c <= '\U{00FF}' && c != '\U{00D7}' && c != '\U{00F7}')
  }

  function LowerChar(c: char): (r: char)
    ensures !IsUpper(c) ==> r == c
    ensures IsLetter(c) <==> IsLetter(r)
    ensures IsDigit(c) <==> IsDigit(r)
    ensures IsWhiteSpace(c) <==> IsWhiteSpace(r)
    ensures !IsUpper(r)
  {
    if IsUpper(c) then (c as int + 32) as char else c
  }

  /** ToLowerInvariant. */
  function Lower(s: string): (r: string)
    ensures |r| == |s|
    ensures forall i {:trigger r[i]} :: 0 <= i < |s| ==> r[i] == LowerChar(s[i])
  {
    seq(|s|, i requires 0 <= i < |s| => LowerChar(s[i]))
  }

  /** A string that ToLowerInvariant leaves as it is. */
  predicate IsLowered(s: string)
  {
    forall i :: 0 <= i < |s| ==> !IsUpper(s[i])
  }

  /** StringComparison.OrdinalIgnoreCase equality. */
  predicate EqIgnoreCase(a: string, b: string)
  {
    Lower(a) == Lower(b)
  }

  lemma LowerIsLowered(s: string)
    ensures IsLowered(Lower(s))
    ensures Lower(Lower(s)) == Lower(s)
  {
  }

  lemma LoweredIsFixed(s: string)
    requires IsLowered(s)
    ensures Lower(s) == s
  {
  }

  /** On strings already in lower case, ignoring case is plain equality. */
  lemma EqIgnoreCaseOfLowered(a: string, b: string)
    requires IsLowered(a) && IsLowered(b)
    ensures EqIgnoreCase(a, b) <==> a == b
  {
    LoweredIsFixed(a);
    LoweredIsFixed(b);
  }

  lemma LowerAppend(a: string, b: string)
    ensures Lower(a + b) == Lower(a) + Lower(b)
  {
  }

  lemma LowerSlice(s: string, i: int, j: int)
    requires 0 <= i <= j <= |s|
    ensures Lower(s[i..j]) == Lower(s)[i..j]
  {
  }

  /** List.Contains(x, StringComparer.OrdinalIgnoreCase). */
  predicate ListHasIgnoreCase(list: seq<string>, x: string)
  {
    exists k | 0 <= k < |list| :: EqIgnoreCase(list[k], x)
  }

  predicate IsBlank(s: string)
  {
    forall i :: 0 <= i < |s| ==> IsWhiteSpace(s[i])
  }

  // ---------------------------------------------------------------- trimming

  function TrimStart(s: string): (r: string)
    ensures |r| <= |s|
    ensures r == [] || !IsWhiteSpace(r[0])
    ensures forall i :: 0 <= i < |s| - |r| ==> IsWhiteSpace(s[i])
  {
    if |s| > 0 && IsWhiteSpace(s[0]) then TrimStart(s[1..]) else s
  }

  function TrimEnd(s: string): (r: string)
    ensures |r| <= |s|
    ensures r == [] || !IsWhiteSpace(r[|r| - 1])
    ensures forall i :: |r| <= i < |s| ==> IsWhiteSpace(s[i])
  {
    if |s| > 0 && IsWhiteSpace(s[|s| - 1]) then TrimEnd(s[..|s| - 1]) else s
  }

  /** string.Trim(): white space removed at both ends. */
  function Trim(s: string): (r: string)
    ensures |r| <= |s|
    ensures r == [] || (!IsWhiteSpace(r[0]) && !IsWhiteSpace(r[|r| - 1]))
    ensures r == [] <==> IsBlank(s)
  {
    TrimEndIsPrefix(TrimStart(s));
    TrimStartIsSuffix(s);
    TrimEnd(TrimStart(s))
  }

  /** r is the middle of s from offset i on, with only white space cut off before and after it. */
  predicate SpaceCutAt(s: string, r: string, i: int)
  {
    0 <= i <= |s| - |r| && r == s[i..i + |r|] &&
    (forall k | 0 <= k < i :: IsWhiteSpace(s[k])) &&
    (forall k | i + |r| <= k < |s| :: IsWhiteSpace(s[k]))
  }

  /** r is the middle of s from offset i on, with only characters of cs cut off before and after it. */
  predicate CharsCutAt(s: string, r: string, i: int, cs: set<char>)
  {
    0 <= i <= |s| - |r| && r == s[i..i + |r|] &&
    (forall k | 0 <= k < i :: s[k] in cs) &&
    (forall k | i + |r| <= k < |s| :: s[k] in cs)
  }

  /**
   * Trim keeps the middle of s: its result starts right after the leading white
   * space, and only white space follows it.
   */
  lemma TrimIsMiddle(s: string)
    ensures SpaceCutAt(s, Trim(s), |s| - |TrimStart(s)|)
  {
    var t := TrimStart(s);
    var i, r := |s| - |t|, Trim(s);
    TrimStartIsSuffix(s);
    TrimEndIsPrefix(t);
    assert r == t[..|r|];
    assert t == s[i..];
    forall k | i + |r| <= k < |s| ensures IsWhiteSpace(s[k]) {
      assert s[k] == t[k - i];
    }
  }

  /** A string with no white space at either end is its own trim. */
  lemma TrimOfTrimmed(s: string)
    requires s == [] || (!IsWhiteSpace(s[0]) && !IsWhiteSpace(s[|s| - 1]))
    ensures Trim(s) == s
  {
  }

  lemma TrimStartIsSuffix(s: string)
    ensures TrimStart(s) == s[|s| - |TrimStart(s)|..]
  {
  }

  lemma TrimEndIsPrefix(s: string)
    ensures TrimEnd(s) == s[..|TrimEnd(s)|]
  {
  }

  /** string.TrimEnd(c) for a single character. */
  function TrimEndChar(s: string, c: char): (r: string)
    ensures |r| <= |s| && r == s[..|r|]
    ensures r == [] || r[|r| - 1] != c
    ensures forall i :: |r| <= i < |s| ==> s[i] == c
  {
    if |s| > 0 && s[|s| - 1] == c then TrimEndChar(s[..|s| - 1], c) else s
  }

  /** string.Trim(chars) for a set of characters. */
  function TrimChars(s: string, cs: set<char>): (r: string)
    ensures r == [] || (r[0] !in cs && r[|r| - 1] !in cs)
    ensures |r| <= |s|
  {
    if |s| > 0 && s[0] in cs then TrimChars(s[1..], cs)
    else if |s| > 0 && s[|s| - 1] in cs then TrimChars(s[..|s| - 1], cs)
    else s
  }

  /** TrimChars cuts a prefix and a suffix made only of characters of cs. */
  lemma {:induction false} TrimCharsIsMiddle(s: string, cs: set<char>)
    ensures exists i :: CharsCutAt(s, TrimChars(s, cs), i, cs)
    decreases |s|
  {
    var r := TrimChars(s, cs);
    if |s| > 0 && s[0] in cs {
      var t := s[1..];
      TrimCharsIsMiddle(t, cs);
      var j :| CharsCutAt(t, r, j, cs);
      assert r == s[j + 1..j + 1 + |r|];
      assert forall k | 0 <= k < j + 1 :: s[k] in cs by {
        forall k | 0 <= k < j + 1 ensures s[k] in cs { if k > 0 { assert s[k] == t[k - 1]; } }
      }
      assert forall k | j + 1 + |r| <= k < |s| :: s[k] in cs by {
        forall k | j + 1 + |r| <= k < |s| ensures s[k] in cs { assert s[k] == t[k - 1]; }
      }
      assert CharsCutAt(s, r, j + 1, cs);
    } else if |s| > 0 && s[|s| - 1] in cs {
      var t := s[..|s| - 1];
      TrimCharsIsMiddle(t, cs);
      var j :| CharsCutAt(t, r, j, cs);
      assert r == s[j..j + |r|];
      assert forall k | j + |r| <= k < |s| :: s[k] in cs by {
        forall k | j + |r| <= k < |s| ensures s[k] in cs { if k < |t| { assert s[k] == t[k]; } }
      }
      assert CharsCutAt(s, r, j, cs);
    } else {
      assert r == s[0..|s|];
      assert CharsCutAt(s, r, 0, cs);
    }
  }

  // ---------------------------------------------------------------- search

  predicate StartsWith(s: string, t: string)
  {
    |t| <= |s| && s[..|t|] == t
  }

  predicate EndsWith(s: string, t: string)
  {
    |t| <= |s| && s[|s| - |t|..] == t
  }

  predicate StartsWithIgnoreCase(s: string, t: string)
  {
    |t| <= |s| && EqIgnoreCase(s[..|t|], t)
  }

  predicate EndsWithIgnoreCase(s: string, t: string)
  {
    |t| <= |s| && EqIgnoreCase(s[|s| - |t|..], t)
  }

  /** t occurs in s at position i. */
  predicate HasAt(s: string, t: string, i: int)
  {
    0 <= i && i + |t| <= |s| && s[i..i + |t|] == t
  }

  /** Ordinal string.Contains. */
  predicate Contains(s: string, t: string)
  {
    exists i | 0 <= i <= |s| - |t| :: HasAt(s, t, i)
  }

  /** string.Contains(t, StringComparison.OrdinalIgnoreCase). */
  predicate ContainsIgnoreCase(s: string, t: string)
  {
    Contains(Lower(s), Lower(t))
  }

  /** Whether any of the needles occurs in s. */
  predicate ContainsAny(s: string, needles: seq<string>)
  {
    exists k | 0 <= k < |needles| :: Contains(s, needles[k])
  }

  /** Ordinal IndexOf(t, from): the first occurrence at or after from, or -1. */
  function IndexOf(s: string, t: string, from: nat): (r: int)
    ensures r == -1 || (from <= r && HasAt(s, t, r))
    ensures r == -1 ==> forall i :: from <= i ==> !HasAt(s, t, i)
    ensures r != -1 ==> forall i :: from <= i < r ==> !HasAt(s, t, i)
    decreases |s| - from
  {
    if from + |t| > |s| then -1
    else if s[from..from + |t|] == t then from
    else IndexOf(s, t, from + 1)
  }

  lemma IndexOfFindsContained(s: string, t: string)
    ensures Contains(s, t) <==> IndexOf(s, t, 0) >= 0
  {
    if IndexOf(s, t, 0) >= 0 {
      assert HasAt(s, t, IndexOf(s, t, 0));
    }
  }

  /**
   * string.Replace(pattern, replacement): every occurrence, scanning left to right,
   * without overlaps.
   */
  function ReplaceAll(s: string, pat: string, rep: string): (r: string)
    requires |pat| > 0
    ensures !Contains(s, pat) ==> r == s
    decreases |s|
  {
    var i := IndexOf(s, pat, 0);
    if i < 0 then s
    else s[..i] + rep + ReplaceAll(s[i + |pat|..], pat, rep)
  }

  lemma ReplaceAllOnce(p: string, pat: string, rep: string, q: string)
    requires |pat| > 0
    requires IndexOf(p + pat + q, pat, 0) == |p|
    requires !Contains(q, pat)
    ensures ReplaceAll(p + pat + q, pat, rep) == p + rep + q
  {
    var s := p + pat + q;
    assert s[..|p|] == p;
    assert s[|p| + |pat|..] == q;
  }

  // ---------------------------------------------------------------- numbers

  function DigitValue(c: char): nat
    requires IsDigit(c)
  {
    c as int - '0' as int
  }

  predicate AllDigits(s: string)
  {
    forall i :: 0 <= i < |s| ==> IsDigit(s[i])
  }

  /** The number a string of decimal digits denotes ("" denotes 0). */
  function DigitsValue(s: string): nat
    requires AllDigits(s)
  {
    if s == [] then 0 else DigitsValue(s[..|s| - 1]) * 10 + DigitValue(s[|s| - 1])
  }

  function Pow10(k: nat): (r: nat)
    ensures r >= 1
  {
    if k == 0 then 1 else 10 * Pow10(k - 1)
  }

  /** Invariant-culture decimal digits of a natural number. */
  function NatToString(n: nat): (r: string)
    ensures |r| > 0 && AllDigits(r)
  {
    if n < 10 then [('0' as int + n) as char]
    else NatToString(n / 10) + [('0' as int + n % 10) as char]
  }

  /** int.ToString(CultureInfo.InvariantCulture). */
  function IntToString(n: int): (r: string)
    ensures n >= 0 ==> r == NatToString(n)
    ensures n < 0 ==> r == "-" + NatToString(-n)
  {
    if n >= 0 then NatToString(n) else "-" + NatToString(-n)
  }

  /** The text of an integer is a minus sign exactly for negative numbers, then the digits of its magnitude. */
  lemma IntToStringRoundTrip(n: int)
    ensures var r := IntToString(n); |r| > 0 && (r[0] == '-' <==> n < 0)
    ensures var d := IntToString(n)[if n < 0 then 1 else 0..];
            d != [] && AllDigits(d) && DigitsValue(d) == if n < 0 then -n else n
  {
    NatToStringRoundTrip(if n < 0 then -n else n);
    if n < 0 {
      assert IntToString(n)[1..] == NatToString(-n);
    } else {
      assert IsDigit(NatToString(n)[0]);
    }
  }

  /** Formatting a natural number and reading its digits back gives the number. */
  lemma {:induction false} NatToStringRoundTrip(n: nat)
    ensures DigitsValue(NatToString(n)) == n
  {
    if n >= 10 {
      NatToStringRoundTrip(n / 10);
      var s := NatToString(n);
      assert s[..|s| - 1] == NatToString(n / 10);
    }
  }
}
