/** The stock Option datatype: `None` stands for the source's `null`. */
module Wrappers {

  datatype Option<+T> = None | Some(value: T) {

    /** The value in Some, or `default` when None. */
    function GetOr(default: T): T {
      match this
      case Some(v) => v
      case None => default
    }
  }
}

/**
 * String operations the handler takes from the .NET base library, modelled on
 * `seq<char>`. Culture-sensitive casing (`ToLower()`, `InvariantCultureIgnoreCase`)
 * is modelled as ASCII case folding.
 */
module Text {
  import Wrappers

  /** ASCII lower-casing of one character. */
  function LowerChar(c: char): (r: char)
    ensures 'A' <= c <= 'Z' ==> 'a' <= r <= 'z' && r as int == c as int + 32
    ensures !('A' <= c <= 'Z') ==> r == c
  {
    if 'A' <= c <= 'Z' then (c as int + 32) as char else c
  }

  /** `String.ToLower()`: every character folded, length kept. */
  function ToLower(s: string): (r: string)
    ensures |r| == |s|
    ensures forall i :: 0 <= i < |s| ==> r[i] == LowerChar(s[i])
  {
    seq(|s|, i requires 0 <= i < |s| => LowerChar(s[i]))
  }

  /** Folding twice is folding once. */
  lemma ToLowerIdempotent(s: string)
    ensures ToLower(ToLower(s)) == ToLower(s)
  {
    var once := ToLower(s);
    var twice := ToLower(once);
    assert |twice| == |once|;
    forall i | 0 <= i < |once|
      ensures twice[i] == once[i]
    {
      assert once[i] == LowerChar(s[i]);
    }
  }

  /** Case-insensitive equality under ASCII folding. */
  predicate EqualsIgnoreCase(a: string, b: string) {
    ToLower(a) == ToLower(b)
  }

  /** `s.EndsWith(suffix, StringComparison.InvariantCultureIgnoreCase)`. */
  predicate EndsWithIgnoreCase(s: string, suffix: string) {
    |suffix| <= |s| && EqualsIgnoreCase(s[|s| - |suffix|..], suffix)
  }

  /** Whether a string ends with a suffix depends only on its folded form. */
  lemma EndsWithIgnoreCaseFolded(s: string, suffix: string)
    ensures EndsWithIgnoreCase(s, suffix) <==> EndsWithIgnoreCase(ToLower(s), suffix)
  {
    if |suffix| <= |s| {
      var n := |s| - |suffix|;
      var t := ToLower(s);
      ToLowerSuffix(s, n);
      ToLowerSuffix(t, n);
      ToLowerIdempotent(s);
      assert ToLower(s[n..]) == t[n..] == ToLower(t[n..]);
    }
  }

  /** Folding commutes with dropping a prefix. */
  lemma ToLowerSuffix(s: string, n: nat)
    requires n <= |s|
    ensures ToLower(s[n..]) == ToLower(s)[n..]
  {
    var a := ToLower(s[n..]);
    var b := ToLower(s)[n..];
    forall k | 0 <= k < |a|
      ensures a[k] == b[k]
    {
      assert s[n..][k] == s[n + k];
    }
  }

  /** Two strings with the same folded form agree on every case-insensitive suffix test. */
  lemma EndsWithIgnoreCaseRespectsFolding(s: string, t: string, suffix: string)
    requires EqualsIgnoreCase(s, t)
    ensures EndsWithIgnoreCase(s, suffix) <==> EndsWithIgnoreCase(t, suffix)
  {
    EndsWithIgnoreCaseFolded(s, suffix);
    EndsWithIgnoreCaseFolded(t, suffix);
  }

  /** The needle occurs, up to case, at position `i` of `s`. */
  predicate MatchesAt(s: string, needle: string, i: nat)
    requires i + |needle| <= |s|
  {
    EqualsIgnoreCase(s[i..i + |needle|], needle)
  }

  /** The first case-insensitive occurrence of `needle` at or after `from`, or -1. */
  function IndexOfFrom(s: string, needle: string, from: nat): (r: int)
    requires from <= |s|
    ensures r == -1 || (from <= r && r + |needle| <= |s| && MatchesAt(s, needle, r))
    ensures forall j :: from <= j && j + |needle| <= |s| && (r == -1 || j < r) ==> !MatchesAt(s, needle, j)
    decreases |s| - from
  {
    if from + |needle| > |s| then -1
    else if MatchesAt(s, needle, from) then from
    else IndexOfFrom(s, needle, from + 1)
  }

  /** `s.IndexOf(needle, StringComparison.InvariantCultureIgnoreCase)`: the first match, or -1. */
  function IndexOfIgnoreCase(s: string, needle: string): (r: int)
    ensures r >= 0 ==> r + |needle| <= |s| && MatchesAt(s, needle, r)
    ensures r >= 0 ==> forall j :: 0 <= j < r ==> !MatchesAt(s, needle, j)
    ensures r < 0 ==> r == -1 && forall j :: 0 <= j && j + |needle| <= |s| ==> !MatchesAt(s, needle, j)
  {
    IndexOfFrom(s, needle, 0)
  }

  /** `s.LastIndexOf(c)`: the last position holding `c`, or -1. */
  function LastIndexOf(s: string, c: char): (r: int)
    ensures -1 <= r < |s|
    ensures r >= 0 ==> s[r] == c
    ensures forall j :: r < j < |s| ==> s[j] != c
  {
    if s == [] then -1
    else if s[|s| - 1] == c then |s| - 1
    else LastIndexOf(s[..|s| - 1], c)
  }

  /** The characters `Char.IsWhiteSpace` accepts: the Unicode space, line and
      paragraph separators, U+0009 to U+000D and U+0085. */
  predicate IsWhiteSpace(c: char) {
    c == ' ' || '\t' <= c <= '\r' || c == '\U{0085}' || c == '\U{00A0}' || c == '\U{1680}'
    || '\U{2000}' <= c <= '\U{200A}' || c == '\U{2028}' || c == '\U{2029}' || c == '\U{202F}'
    || c == '\U{205F}' || c == '\U{3000}'
  }

  /** `String.IsNullOrWhiteSpace`: null, empty, or white space only. */
  predicate IsNullOrWhiteSpace(s: Wrappers.Option<string>) {
    s.None? || forall i :: 0 <= i < |s.value| ==> IsWhiteSpace(s.value[i])
  }
}
