/** String primitives of the JavaScript runtime that the core relies on: the
    whitespace class shared by String.prototype.trim and the regular-expression
    escape \s, trimming, ASCII lower-casing, case-insensitive suffixes and the
    last segment of a split. A JavaScript string is a sequence of UTF-16 code
    units; here it is a sequence of Dafny characters (see README). */
module JsStrings {

  /** WhiteSpace or LineTerminator in the sense of ECMA-262 (sections 12.2 and
      12.3): the characters that `trim()` removes and that `\s` matches. */
  predicate IsSpace(c: char) {
    var n := c as int;
    (0x09 <= n <= 0x0D) || n == 0x20 || n == 0xA0 || n == 0x1680
    || (0x2000 <= n <= 0x200A) || n == 0x2028 || n == 0x2029
    || n == 0x202F || n == 0x205F || n == 0x3000 || n == 0xFEFF
  }

  predicate AllSpace(s: string) {
    forall i | 0 <= i < |s| :: IsSpace(s[i])
  }

  /** Removes the leading run of whitespace: what a greedy `\s*` consumes. */
  function TrimStart(s: string): (r: string)
    ensures |r| <= |s| && r == s[|s| - |r|..]
    ensures AllSpace(s[..|s| - |r|])
    ensures r == [] || !IsSpace(r[0])
  {
    if |s| > 0 && IsSpace(s[0]) then TrimStart(s[1..]) else s
  }

  /** Removes the trailing run of whitespace. */
  function TrimEnd(s: string): (r: string)
    ensures |r| <= |s| && r == s[..|r|]
    ensures AllSpace(s[|r|..])
    ensures r == [] || !IsSpace(r[|r| - 1])
  {
    if |s| > 0 && IsSpace(s[|s| - 1]) then
      var r := TrimEnd(s[..|s| - 1]);
      assert s[|r|..] == s[..|s| - 1][|r|..] + [s[|s| - 1]];
      r
    else s
  }

  /** `String.prototype.trim`. */
  function Trim(s: string): (r: string)
  {
    TrimEnd(TrimStart(s))
  }

  /** The trimmed string is the middle of the input, with only whitespace cut
      off on either side and no whitespace left at either end. */
  lemma TrimIsMiddle(s: string) returns (i: nat, j: nat)
    ensures i <= j <= |s| && Trim(s) == s[i..j]
    ensures AllSpace(s[..i]) && AllSpace(s[j..])
    ensures Trim(s) == [] || (!IsSpace(Trim(s)[0]) && !IsSpace(Trim(s)[|Trim(s)| - 1]))
  {
    var t := TrimStart(s);
    var e := TrimEnd(t);
    i := |s| - |t|;
    j := i + |e|;
    assert Trim(s) == e;
    assert e == t[..|e|];
    if e != [] {
      assert e[0] == t[0];
    }
    assert e == s[i..j] by {
      assert t == s[i..];
    }
    assert s[j..] == t[|e|..] by {
      assert t == s[i..];
    }
  }

  /** A string trims to nothing exactly when it is all whitespace (the
      `text.trim().length === 0` test). */
  lemma {:induction false} TrimEmptyIffAllSpace(s: string)
    ensures Trim(s) == [] <==> AllSpace(s)
  {
    var t := TrimStart(s);
    if Trim(s) == [] {
      // all of t is blank, yet t cannot start with a blank: t is empty
      assert t[0..] == t;
      assert t == [];
      assert s[..|s|] == s;
    }
  }

  /** Whitespace after the last non-blank character does not change the trim. */
  lemma TrimEndAppendSpace(s: string, c: char)
    requires IsSpace(c)
    ensures TrimEnd(s + [c]) == TrimEnd(s)
  {
    assert (s + [c])[..|s|] == s;
  }

  /** Leading whitespace does not change the trim. */
  lemma {:induction false} TrimAfterTrimStart(s: string)
    ensures Trim(TrimStart(s)) == Trim(s)
  {
    TrimStartIdempotent(s);
  }

  lemma {:induction false} TrimStartIdempotent(s: string)
    ensures TrimStart(TrimStart(s)) == TrimStart(s)
  {
    var t := TrimStart(s);
    if t != [] {
      assert !IsSpace(t[0]);
    }
  }

  /** `TrimStart` distributes over a concatenation whose left part is not blank. */
  lemma {:induction false} TrimStartAppend(a: string, b: string)
    requires !AllSpace(a)
    ensures TrimStart(a + b) == TrimStart(a) + b
  {
    if IsSpace(a[0]) {
      assert (a + b)[1..] == a[1..] + b;
      assert !AllSpace(a[1..]) by {
        var k :| 0 <= k < |a| && !IsSpace(a[k]);
        assert a[1..][k - 1] == a[k];
      }
      TrimStartAppend(a[1..], b);
    } else {
      assert (a + b)[0] == a[0];
    }
  }

  /** Whitespace appended after a non-blank string goes away under `trim`. */
  lemma TrimAppendSpace(s: string, c: char)
    requires IsSpace(c)
    ensures Trim(s + [c]) == Trim(s)
  {
    if AllSpace(s) {
      TrimEmptyIffAllSpace(s);
      TrimEmptyIffAllSpace(s + [c]);
    } else {
      TrimStartAppend(s, [c]);
      TrimEndAppendSpace(TrimStart(s), c);
    }
  }

  /** ASCII lower-casing of one character; other characters are kept. */
  function LowerAscii(c: char): (r: char)
    ensures !('A' <= r <= 'Z')
    ensures ('a' <= c <= 'z' || !('A' <= c <= 'Z')) ==> r == c
    // a capital becomes the lower-case letter at the same place in the alphabet
    ensures 'A' <= c <= 'Z' ==> 'a' <= r <= 'z' && r as int - 'a' as int == c as int - 'A' as int
  {
    if 'A' <= c <= 'Z' then (c as int + 32) as char else c
  }

  /** `toLowerCase()`, on the ASCII range. */
  function ToLower(s: string): (r: string)
    ensures |r| == |s|
    ensures forall i | 0 <= i < |s| :: r[i] == LowerAscii(s[i])
  {
    seq(|s|, i requires 0 <= i < |s| => LowerAscii(s[i]))
  }

  /** Lower-cased text holds no capital letter, so lower-casing it again
      changes nothing. */
  lemma ToLowerIdempotent(s: string)
    ensures forall i | 0 <= i < |s| :: !('A' <= ToLower(s)[i] <= 'Z')
    ensures ToLower(ToLower(s)) == ToLower(s)
  {
  }

  /** True when `s` ends with `suffix` ignoring ASCII case; `suffix` is given in
      lower case (the `/…$/i` test of a regular expression without the u flag,
      which folds only ASCII letters). */
  predicate EndsWithIgnoreCase(s: string, suffix: string) {
    |suffix| <= |s| && ToLower(s[|s| - |suffix|..]) == suffix
  }

  /** The last element of `s.split([sep])`: the longest suffix of `s` that holds
      no `sep`. */
  function AfterLast(s: string, sep: char): (r: string)
    ensures sep !in r
    ensures |r| <= |s| && r == s[|s| - |r|..]
    ensures |r| < |s| ==> s[|s| - |r| - 1] == sep
  {
    if |s| == 0 || s[|s| - 1] == sep then []
    else AfterLast(s[..|s| - 1], sep) + [s[|s| - 1]]
  }

  /** The segment after the last separator is recovered exactly. */
  lemma AfterLastOf(p: string, sep: char, e: string)
    requires sep !in e
    ensures AfterLast(p + [sep] + e, sep) == e
  {
    var s := p + [sep] + e;
    var r := AfterLast(s, sep);
    assert s[|s| - |e| - 1] == sep;
    assert s[|s| - |e|..] == e;
  }

  /** A string without the separator is its own last segment. */
  lemma AfterLastNone(s: string, sep: char)
    requires sep !in s
    ensures AfterLast(s, sep) == s
  {
  }

  /** `t` occurs in `s` at position `k`. */
  predicate OccursAt(s: string, t: string, k: int) {
    0 <= k && k + |t| <= |s| && s[k..k + |t|] == t
  }

  /** `s` holds no occurrence of `t` at any position. */
  ghost predicate Free(s: string, t: string) {
    forall k :: !OccursAt(s, t, k)
  }

  /** A piece of a string free of `t` is free of `t` too. */
  lemma FreeSlice(s: string, t: string, i: int, j: int)
    requires Free(s, t) && 0 <= i <= j <= |s|
    ensures Free(s[i..j], t)
  {
    forall k | 0 <= k && k + |t| <= j - i
      ensures !OccursAt(s[i..j], t, k)
    {
      var piece, whole := s[i..j][k..k + |t|], s[i + k..i + k + |t|];
      forall m | 0 <= m < |t|
        ensures piece[m] == whole[m]
      {
        assert piece[m] == s[i..j][k + m];
      }
      assert piece == whole;
      assert !OccursAt(s, t, i + k);
    }
  }
}
