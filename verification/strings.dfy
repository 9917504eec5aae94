/** The JavaScript string built-ins the client components rely on, over
    Dafny strings (sequences of Unicode code points): `trim`, `includes`,
    `slice`, `toLowerCase` and the decimal text of a whole number. */
module Strings {
  import opened Util

  /** The code points `String.prototype.trim` removes: the WhiteSpace set
      (tab, vertical tab, form feed, space, no-break space, the byte order
      mark and every other space separator) and the LineTerminator set
      (line feed, carriage return, line separator, paragraph separator). */
  predicate IsWhitespace(c: char)
  {
    c == '\t' || c == '\n' || c == '\U{000B}' || c == '\U{000C}' || c == '\r' || c == ' '
    || c == '\U{00A0}' || c == '\U{1680}' || ('\U{2000}' <= c <= '\U{200A}')
    || c == '\U{2028}' || c == '\U{2029}' || c == '\U{202F}' || c == '\U{205F}'
    || c == '\U{3000}' || c == '\U{FEFF}'
  }

  /** Every position of `s` from `lo` up to `hi` holds whitespace. */
  ghost predicate WhitespaceBetween(s: string, lo: int, hi: int)
  {
    forall k :: lo <= k < hi && 0 <= k < |s| ==> IsWhitespace(s[k])
  }

  ghost predicate AllWhitespace(s: string)
  {
    WhitespaceBetween(s, 0, |s|)
  }

  /** The first position from `i` on that does not hold whitespace, or `|s|`. */
  function FirstNonWhitespace(s: string, i: nat): (n: nat)
    requires i <= |s|
    ensures i <= n <= |s| && WhitespaceBetween(s, i, n)
    ensures n == |s| || !IsWhitespace(s[n])
    decreases |s| - i
  {
    if i < |s| && IsWhitespace(s[i]) then FirstNonWhitespace(s, i + 1) else i
  }

  /** The end of `s[lo..j]` once its trailing whitespace is dropped. */
  function EndOfNonWhitespace(s: string, lo: nat, j: nat): (n: nat)
    requires lo <= j <= |s|
    ensures lo <= n <= j && WhitespaceBetween(s, n, j)
    ensures n == lo || !IsWhitespace(s[n - 1])
    decreases j - lo
  {
    if lo < j && IsWhitespace(s[j - 1]) then EndOfNonWhitespace(s, lo, j - 1) else j
  }

  /** `String.prototype.trim`: the result has no whitespace at either end. */
  function Trim(s: string): (r: string)
    ensures |r| <= |s|
    ensures r != [] ==> !IsWhitespace(r[0]) && !IsWhitespace(r[|r| - 1])
  {
    var a := FirstNonWhitespace(s, 0);
    var b := EndOfNonWhitespace(s, a, |s|);
    if a == b then [] else s[a..b]
  }

  /** The trimmed string is the infix of `s` that starts at its first
      non-whitespace character, with only whitespace before and after it. */
  lemma TrimIsInfix(s: string)
    ensures var i, r := FirstNonWhitespace(s, 0), Trim(s);
      i + |r| <= |s| && r == s[i..i + |r|]
      && WhitespaceBetween(s, 0, i) && WhitespaceBetween(s, i + |r|, |s|)
  {
    var a := FirstNonWhitespace(s, 0);
    var b := EndOfNonWhitespace(s, a, |s|);
    if a == b {
      assert s[a..a] == [];
    }
  }

  /** A string trims to "" exactly when it is all whitespace. */
  lemma TrimEmptyIffAllWhitespace(s: string)
    ensures Trim(s) == [] <==> AllWhitespace(s)
  {
    var a := FirstNonWhitespace(s, 0);
    var b := EndOfNonWhitespace(s, a, |s|);
    if a < |s| {
      assert !IsWhitespace(s[a]);
      assert b > a;
    }
  }

  /** Trimming an already trimmed string changes nothing. */
  lemma TrimIdempotent(s: string)
    ensures Trim(Trim(s)) == Trim(s)
  {
    var t := Trim(s);
    if t != [] {
      assert FirstNonWhitespace(t, 0) == 0;
      assert EndOfNonWhitespace(t, 0, |t|) == |t|;
    }
  }

  /** `String.prototype.includes`: whether `pattern` occurs in `s`. */
  function Contains(s: string, pattern: string): (r: bool)
    ensures r ==> |pattern| <= |s|
    ensures |pattern| <= |s| && s[..|pattern|] == pattern ==> r
    decreases |s|
  {
    if |s| < |pattern| then false
    else s[..|pattern|] == pattern || Contains(s[1..], pattern)
  }

  ghost predicate OccursAt(s: string, pattern: string, i: int)
  {
    0 <= i <= |s| - |pattern| && s[i..i + |pattern|] == pattern
  }

  /** An infix of the tail of `s` is the infix of `s` one position later. */
  lemma TailSlice(s: string, i: nat, n: nat)
    requires 0 < |s| && i + n < |s|
    ensures s[1..][i..i + n] == s[i + 1..i + 1 + n]
  {
  }

  /** `Contains` finds an occurrence exactly when there is one at some offset. */
  lemma {:induction false} ContainsIffOccurs(s: string, pattern: string)
    ensures Contains(s, pattern) <==> exists i :: OccursAt(s, pattern, i)
    decreases |s|
  {
    if |s| < |pattern| {
    } else if s[..|pattern|] == pattern {
      assert OccursAt(s, pattern, 0);
    } else {
      ContainsIffOccurs(s[1..], pattern);
      if Contains(s[1..], pattern) {
        var i :| OccursAt(s[1..], pattern, i);
        TailSlice(s, i, |pattern|);
        assert OccursAt(s, pattern, i + 1);
      }
      if exists i :: OccursAt(s, pattern, i) {
        var i :| OccursAt(s, pattern, i);
        if i > 0 {
          TailSlice(s, i - 1, |pattern|);
          assert OccursAt(s[1..], pattern, i - 1);
        }
      }
    }
  }

  /** `toLowerCase` on one character, for the ASCII letters. */
  function LowerChar(c: char): (r: char)
    ensures !('A' <= r <= 'Z')
    ensures 'A' <= c <= 'Z' ==> 'a' <= r <= 'z' && r as int - c as int == 'a' as int - 'A' as int
    ensures !('A' <= c <= 'Z') ==> r == c
  {
    if 'A' <= c <= 'Z' then (c as int - 'A' as int + 'a' as int) as char else c
  }

  /** `toLowerCase`: the same length, each character lowered on its own,
      and no ASCII capital left. */
  function ToLower(s: string): (r: string)
    ensures |r| == |s|
    ensures forall i :: 0 <= i < |s| ==> r[i] == LowerChar(s[i])
    ensures forall i :: 0 <= i < |r| ==> !('A' <= r[i] <= 'Z')
  {
    seq(|s|, i requires 0 <= i < |s| => LowerChar(s[i]))
  }

  /** Lowering an already lowered string changes nothing. */
  lemma ToLowerIdempotent(s: string)
    ensures ToLower(ToLower(s)) == ToLower(s)
  {
    var t := ToLower(s);
    assert forall i :: 0 <= i < |t| ==> ToLower(t)[i] == t[i];
  }

  /** `s.slice(0, n)`: the first `n` characters, or all of `s` when it is shorter. */
  function SliceFirst(s: string, n: nat): (r: string)
    ensures |r| == Min(n, |s|) && r == s[..|r|]
  {
    s[..Min(n, |s|)]
  }

  /** `s.slice(-n)` for a positive `n`: the last `n` characters, or all of
      `s` when it is shorter. */
  function SliceLast(s: string, n: nat): (r: string)
    requires n > 0
    ensures |r| == Min(n, |s|) && r == s[|s| - |r|..]
  {
    s[Max(|s| - n, 0)..]
  }

  ghost predicate AllDigits(s: string)
  {
    forall i :: 0 <= i < |s| ==> '0' <= s[i] <= '9'
  }

  function DigitChar(d: nat): char
    requires d < 10
  {
    ('0' as int + d) as char
  }

  /** The number a string of decimal digits denotes. */
  function DecimalValue(s: string): nat
    requires AllDigits(s)
  {
    if s == [] then 0 else DecimalValue(s[..|s| - 1]) * 10 + (s[|s| - 1] as int - '0' as int)
  }

  /** The decimal numeral JavaScript writes for a whole number `n` in a
      template literal: digits only, and no leading zero. */
  function DecimalString(n: nat): (r: string)
    ensures r != [] && AllDigits(r)
    ensures r[0] == '0' ==> n == 0
    decreases n
  {
    if n < 10 then [DigitChar(n)] else DecimalString(n / 10) + [DigitChar(n % 10)]
  }

  /** Reading back the numeral gives the number. */
  lemma {:induction false} DecimalRoundTrip(n: nat)
    ensures DecimalValue(DecimalString(n)) == n
    decreases n
  {
    if n >= 10 {
      DecimalRoundTrip(n / 10);
      var s := DecimalString(n);
      assert s[..|s| - 1] == DecimalString(n / 10);
    }
  }
}
