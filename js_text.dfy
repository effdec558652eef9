/**
 * String primitives the service relies on: ECMAScript `String.prototype.trim`
 * and SQLite's built-in `lower()`, which folds ASCII letters only.
 */
module JsText {

  /** The characters `trim` removes: ECMAScript WhiteSpace and LineTerminator. */
  predicate IsJsSpace(c: char)
  {
    c == '\t' || c == '\n' || c == '\U{B}' || c == '\U{C}' || c == '\r' || c == ' '
    || c == '\U{A0}' || c == '\U{1680}' || ('\U{2000}' <= c <= '\U{200A}')
    || c == '\U{2028}' || c == '\U{2029}' || c == '\U{202F}' || c == '\U{205F}'
    || c == '\U{3000}' || c == '\U{FEFF}'
  }

  predicate AllSpace(s: string)
  {
    forall k :: 0 <= k < |s| ==> IsJsSpace(s[k])
  }

  /** Neither end of `s` is a space: `trim` has nothing to remove. */
  predicate Trimmed(s: string)
  {
    s == [] || (!IsJsSpace(s[0]) && !IsJsSpace(s[|s| - 1]))
  }

  /**
   * `s.trim()`: spaces are dropped from either end until neither end is a
   * space; what is left is an infix of `s` (TrimInfix).
   */
  function Trim(s: string): (r: string)
    ensures Trimmed(r)
    ensures |r| <= |s|
  {
    if s != [] && IsJsSpace(s[0]) then Trim(s[1..])
    else if s != [] && IsJsSpace(s[|s| - 1]) then Trim(s[..|s| - 1])
    else s
  }

  /** The trimmed text is `s[i..j]`, where `s[..i]` and `s[j..]` are spaces only. */
  lemma {:induction false} TrimInfix(s: string) returns (i: nat, j: nat)
    ensures i <= j <= |s| && Trim(s) == s[i..j]
    ensures AllSpace(s[..i]) && AllSpace(s[j..])
  {
    if s != [] && IsJsSpace(s[0]) {
      var tail := s[1..];
      var i', j' := TrimInfix(tail);
      i, j := i' + 1, j' + 1;
      assert tail[i'..j'] == s[i..j];
      assert tail[j'..] == s[j..];
      forall k | 0 <= k < i ensures IsJsSpace(s[k]) {
        if k > 0 { assert s[k] == tail[..i'][k - 1]; }
      }
    } else if s != [] && IsJsSpace(s[|s| - 1]) {
      var init := s[..|s| - 1];
      i, j := TrimInfix(init);
      assert init[i..j] == s[i..j];
      assert init[..i] == s[..i];
      forall k | j <= k < |s| ensures IsJsSpace(s[k]) {
        if k < |s| - 1 { assert s[k] == init[j..][k - j]; }
      }
    } else {
      i, j := 0, |s|;
    }
  }

  /** A string with nothing to trim is its own trim. */
  lemma TrimOfTrimmed(s: string)
    requires Trimmed(s)
    ensures Trim(s) == s
  {
  }

  /** `trim` is idempotent. */
  lemma TrimIdempotent(s: string)
    ensures Trim(Trim(s)) == Trim(s)
  {
    TrimOfTrimmed(Trim(s));
  }

  /** `s.trim()` is empty exactly when `s` is made of spaces only. */
  lemma {:induction false} TrimEmptyIff(s: string)
    ensures Trim(s) == [] <==> AllSpace(s)
  {
    if s != [] && IsJsSpace(s[0]) {
      TrimEmptyIff(s[1..]);
      assert AllSpace(s) <==> AllSpace(s[1..]) by {
        if AllSpace(s[1..]) {
          forall k | 0 < k < |s| ensures IsJsSpace(s[k]) { assert s[k] == s[1..][k - 1]; }
        }
      }
    } else if s != [] && IsJsSpace(s[|s| - 1]) {
      // s[0] is no space but the last character is, so both sides are false
      var init := s[..|s| - 1];
      TrimEmptyIff(init);
      assert init[0] == s[0];
    }
  }

  /** SQLite's built-in `lower()` on one character: ASCII `A`-`Z` only. */
  function AsciiLowerChar(c: char): (d: char)
    ensures 'A' <= c <= 'Z' ==> 'a' <= d <= 'z' && d as int == c as int + 32
    ensures !('A' <= c <= 'Z') ==> d == c
    ensures !('A' <= d <= 'Z')
  {
    if 'A' <= c <= 'Z' then (c as int + 32) as char else c
  }

  /** SQLite's built-in `lower()`: every ASCII capital folded, everything else kept. */
  function AsciiLower(s: string): string
  {
    seq(|s|, k requires 0 <= k < |s| => AsciiLowerChar(s[k]))
  }

  /** The comparison `lower(a) = lower(b)` the user lookup uses. */
  predicate SameLogin(a: string, b: string)
  {
    AsciiLower(a) == AsciiLower(b)
  }

  /** Folding twice is folding once. */
  lemma AsciiLowerIdempotent(s: string)
    ensures AsciiLower(AsciiLower(s)) == AsciiLower(s)
  {
    var f := AsciiLower(s);
    forall k | 0 <= k < |s| ensures AsciiLower(f)[k] == f[k] {
      assert f[k] == AsciiLowerChar(s[k]);
    }
  }

  /** A login and its folded form are the same login; folding only touches capitals. */
  lemma SameLoginFolded(s: string)
    ensures SameLogin(s, AsciiLower(s))
    ensures forall a :: SameLogin(a, s) <==> SameLogin(a, AsciiLower(s))
  {
    AsciiLowerIdempotent(s);
  }
}
