/** Shared wrappers, HTTP-style errors and the string helpers the services use (ASCII model). */
module Common {

  datatype Option<T> = None | Some(value: T)

  /** An error answer of the HTTP API: status code and message. */
  datatype ApiError = ApiError(status: int, message: string)

  datatype Result<T> = Ok(value: T) | Err(error: ApiError)

  /** An Express error handed to `next`, answered by the application's error handler. */
  const ServerError: ApiError := ApiError(500, "Internal server error")

  // ---------------------------------------------------------------------
  // Character classes (ASCII part of the Java / JavaScript definitions)
  // ---------------------------------------------------------------------

  /** Java `String.trim` removes every character whose code is at most U+0020. */
  predicate JavaTrimmed(c: char) { c <= ' ' }

  /** The regular-expression class `\s` (Java) and the ASCII part of JavaScript whitespace. */
  predicate RegexSpace(c: char)
  {
    c == ' ' || c == '\t' || c == '\n' || c == '\r' || c as int == 11 || c as int == 12
  }

  /** ASCII part of Java `Character.isWhitespace`, used by `String.isBlank`. */
  predicate JavaWhitespace(c: char)
  {
    (9 <= c as int <= 13) || (28 <= c as int <= 32)
  }

  predicate IsLowerAscii(c: char) { 'a' <= c <= 'z' }
  predicate IsUpperAscii(c: char) { 'A' <= c <= 'Z' }

  function UpperChar(c: char): (r: char)
    ensures !IsLowerAscii(r)
    ensures IsLowerAscii(c) ==> r as int == c as int - 32
    ensures !IsLowerAscii(c) ==> r == c
  {
    if IsLowerAscii(c) then (c as int - 32) as char else c
  }

  function LowerChar(c: char): (r: char)
    ensures !IsUpperAscii(r)
    ensures IsUpperAscii(c) ==> r as int == c as int + 32
    ensures !IsUpperAscii(c) ==> r == c
  {
    if IsUpperAscii(c) then (c as int + 32) as char else c
  }

  /** `toUpperCase` restricted to ASCII letters. */
  function ToUpper(s: string): (r: string)
    ensures |r| == |s|
    ensures forall i :: 0 <= i < |s| ==> r[i] == UpperChar(s[i])
  {
    if s == [] then [] else [UpperChar(s[0])] + ToUpper(s[1..])
  }

  /** `toLowerCase` restricted to ASCII letters. */
  function ToLower(s: string): (r: string)
    ensures |r| == |s|
    ensures forall i :: 0 <= i < |s| ==> r[i] == LowerChar(s[i])
  {
    if s == [] then [] else [LowerChar(s[0])] + ToLower(s[1..])
  }

  /** Upper-casing leaves a text without lower-case letters as it is. */
  lemma UpperOfUpperless(s: string)
    requires forall i :: 0 <= i < |s| ==> !IsLowerAscii(s[i])
    ensures ToUpper(s) == s
  {
    assert forall i :: 0 <= i < |s| ==> ToUpper(s)[i] == s[i];
  }

  /** Upper-casing undoes lower-casing on a character that is not a lower-case letter. */
  lemma UpperOfLowerChar(c: char)
    requires !IsLowerAscii(c)
    ensures UpperChar(LowerChar(c)) == c
  {
  }

  /** Upper-casing undoes lower-casing on a text without lower-case letters. */
  lemma UpperOfLower(s: string)
    requires forall i :: 0 <= i < |s| ==> !IsLowerAscii(s[i])
    ensures ToUpper(ToLower(s)) == s
  {
    forall i | 0 <= i < |s| ensures ToUpper(ToLower(s))[i] == s[i] {
      UpperOfLowerChar(s[i]);
    }
  }

  // ---------------------------------------------------------------------
  // Trimming
  // ---------------------------------------------------------------------

  /** Drops the leading characters that satisfy `p`. */
  function TrimStart(s: string, p: char -> bool): (r: string)
    ensures |r| <= |s| && r == s[|s| - |r|..]
    ensures r != [] ==> !p(r[0])
    ensures forall i :: 0 <= i < |s| - |r| ==> p(s[i])
  {
    if s != [] && p(s[0]) then TrimStart(s[1..], p) else s
  }

  /** Drops the trailing characters that satisfy `p`. */
  function TrimEnd(s: string, p: char -> bool): (r: string)
    ensures |r| <= |s| && r == s[..|r|]
    ensures r != [] ==> !p(r[|r| - 1])
    ensures forall i :: |r| <= i < |s| ==> p(s[i])
  {
    if s != [] && p(s[|s| - 1]) then TrimEnd(s[..|s| - 1], p) else s
  }

  function Trim(s: string, p: char -> bool): (r: string)
    ensures |r| <= |s|
    ensures r != [] ==> !p(r[0]) && !p(r[|r| - 1])
  {
    TrimEnd(TrimStart(s, p), p)
  }

  /** A trimmed text is a contiguous part of its input. */
  lemma TrimIsInfix(s: string, p: char -> bool)
    ensures exists i :: 0 <= i <= |s| - |Trim(s, p)| && InfixAt(s, Trim(s, p), i)
  {
    var a := TrimStart(s, p);
    var b := TrimEnd(a, p);
    var i := |s| - |a|;
    assert InfixAt(s, b, i) by {
      assert a == s[i..];
      assert b == a[..|b|];
    }
    assert Trim(s, p) == b;
  }

  /** A trim that finds nothing to remove at either end returns its input. */
  lemma TrimOfUntrimmed(s: string, p: char -> bool)
    requires s != [] ==> !p(s[0]) && !p(s[|s| - 1])
    ensures Trim(s, p) == s
  {
    assert TrimStart(s, p) == s;
    assert TrimEnd(s, p) == s;
  }

  /** Java `String.trim`. */
  function JavaTrim(s: string): string { Trim(s, JavaTrimmed) }

  /** JavaScript `String.prototype.trim` (ASCII whitespace). */
  function JsTrim(s: string): string { Trim(s, RegexSpace) }

  /** `replaceAll("\\s+", "")` / `replace(/\s+/g, '')`: removes every whitespace character. */
  function RemoveSpaces(s: string): (r: string)
    ensures |r| <= |s|
    ensures forall i :: 0 <= i < |r| ==> !RegexSpace(r[i])
    ensures forall c :: c in r <==> c in s && !RegexSpace(c)
  {
    if s == [] then []
    else if RegexSpace(s[0]) then RemoveSpaces(s[1..])
    else [s[0]] + RemoveSpaces(s[1..])
  }

  /** `r` is `s` with some elements left out, the rest in their order. */
  predicate OrderedSubsequence<T(==)>(r: seq<T>, s: seq<T>)
    decreases |s|
  {
    r == [] || (s != [] && ((r[0] == s[0] && OrderedSubsequence(r[1..], s[1..])) || OrderedSubsequence(r, s[1..])))
  }

  /** Every sequence is an ordered subsequence of itself. */
  lemma {:induction false} SubsequenceOfSelf<T>(s: seq<T>)
    ensures OrderedSubsequence(s, s)
  {
    if s != [] {
      SubsequenceOfSelf(s[1..]);
    }
  }

  /**
   * Removing whitespace is a filter: the kept characters stay in their order, and each
   * non-whitespace character is kept as often as it occurs.
   */
  lemma {:induction false} RemoveSpacesFilters(s: string)
    ensures OrderedSubsequence(RemoveSpaces(s), s)
    ensures forall c :: multiset(RemoveSpaces(s))[c] == if RegexSpace(c) then 0 else multiset(s)[c]
  {
    if s != [] {
      RemoveSpacesFilters(s[1..]);
      assert s == [s[0]] + s[1..];
      var r := RemoveSpaces(s);
      if !RegexSpace(s[0]) {
        assert r[1..] == RemoveSpaces(s[1..]);
      }
    }
  }

  /** Java `String.isBlank`. */
  predicate IsBlank(s: string)
  {
    forall i :: 0 <= i < |s| ==> JavaWhitespace(s[i])
  }

  // ---------------------------------------------------------------------
  // Searching
  // ---------------------------------------------------------------------

  predicate StartsWith(s: string, prefix: string)
  {
    |prefix| <= |s| && s[..|prefix|] == prefix
  }

  /** A text glued after a prefix starts with that prefix. */
  lemma StartsWithConcat(prefix: string, rest: string)
    ensures StartsWith(prefix + rest, prefix)
  {
    assert (prefix + rest)[..|prefix|] == prefix;
  }

  predicate EndsWith(s: string, suffix: string)
  {
    |suffix| <= |s| && s[|s| - |suffix|..] == suffix
  }

  /** `part` occurs in `s` starting at index `i`. */
  predicate InfixAt(s: string, part: string, i: int)
  {
    0 <= i <= |s| - |part| && s[i..i + |part|] == part
  }

  /** JavaScript `includes` / Java `contains`. */
  predicate Contains(s: string, part: string)
  {
    exists i :: 0 <= i <= |s| - |part| && InfixAt(s, part, i)
  }

  /** `lastIndexOf(c)`: the index of the last occurrence of `c`, or -1. */
  function LastIndexOf(s: string, c: char): (r: int)
    ensures -1 <= r < |s|
    ensures r >= 0 ==> s[r] == c
    ensures forall i :: r < i < |s| ==> s[i] != c
  {
    if s == [] then -1
    else if s[|s| - 1] == c then |s| - 1
    else LastIndexOf(s[..|s| - 1], c)
  }

  /** Java `Math.round` and JavaScript `Math.round` on finite values: floor(x + 0.5). */
  function Round(x: real): (r: int)
    ensures x - 0.5 < r as real <= x + 0.5
  {
    (x + 0.5).Floor
  }
}
