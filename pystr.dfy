/**
  The pieces of Python's string semantics the bot relies on: `str.strip()` with
  no argument, `str(n)` for an integer, and the slice `s[1:]`.  A Python `str`
  is a sequence of code points, which is what a Dafny `string` is.
 */
module PyStr {

  import opened Wrappers

  // ---------------------------------------------------------------------------
  // Whitespace and str.strip()
  // ---------------------------------------------------------------------------

  /** The code points for which Python's `str.isspace()` holds; `strip()` with
      no argument removes exactly these. */
  predicate IsSpace(c: char): (r: bool)
    ensures c == ' ' || c == '\t' || c == '\n' || c == '\r' ==> r
    ensures r ==> c != '.' && !('0' <= c <= '9') && !('a' <= c <= 'z') && !('A' <= c <= 'Z')
  {
    var n := c as int;
    || (0x09 <= n <= 0x0D) || (0x1C <= n <= 0x20)
    || n == 0x85 || n == 0xA0 || n == 0x1680
    || (0x2000 <= n <= 0x200A)
    || n == 0x2028 || n == 0x2029 || n == 0x202F || n == 0x205F || n == 0x3000
  }

  /** Every character of `s` in positions lo..hi-1 is whitespace. */
  predicate SpaceBetween(s: string, lo: int, hi: int)
    requires 0 <= lo && hi <= |s|
  {
    forall k :: lo <= k < hi ==> IsSpace(s[k])
  }

  predicate AllSpace(s: string) {
    SpaceBetween(s, 0, |s|)
  }

  /** No whitespace at either end of `s`. */
  predicate Trimmed(s: string) {
    s == [] || (!IsSpace(s[0]) && !IsSpace(s[|s| - 1]))
  }

  /** `r` sits at offset `i` of `s` with nothing but whitespace around it. */
  predicate PaddedAt(s: string, r: string, i: int) {
    && 0 <= i && i + |r| <= |s|
    && s[i..i + |r|] == r
    && SpaceBetween(s, 0, i)
    && SpaceBetween(s, i + |r|, |s|)
  }

  /** The first position at or after `i` that is not whitespace (or the end):
      where `strip()` stops scanning forwards. */
  function SkipSpace(s: string, i: nat): (j: nat)
    requires i <= |s|
    ensures i <= j <= |s| && SpaceBetween(s, i, j)
    ensures j < |s| ==> !IsSpace(s[j])
    decreases |s| - i
  {
    if i < |s| && IsSpace(s[i]) then SkipSpace(s, i + 1) else i
  }

  /** The position just after the last non-whitespace character in `lo`..`j-1`
      (or `lo` when there is none): where `strip()` stops scanning backwards. */
  function SkipSpaceBack(s: string, lo: nat, j: nat): (k: nat)
    requires lo <= j <= |s|
    ensures lo <= k <= j && SpaceBetween(s, k, j)
    ensures lo < k ==> !IsSpace(s[k - 1])
    decreases j
  {
    if lo < j && IsSpace(s[j - 1]) then SkipSpaceBack(s, lo, j - 1) else j
  }

  /** Python's `s.strip()`: the part of `s` left after removing whitespace at
      both ends.  Its contract characterises it completely (see StripUnique):
      it has no whitespace at its ends and sits in `s` with only whitespace
      around it. */
  function Strip(s: string): (r: string)
    ensures Trimmed(r)
    ensures PaddedAt(s, r, SkipSpace(s, 0))
  {
    var i := SkipSpace(s, 0);
    var j := SkipSpaceBack(s, i, |s|);
    s[i..j]
  }

  lemma {:induction false} SkipSpaceAt(s: string, i: nat, j: nat)
    requires i <= j < |s| && SpaceBetween(s, i, j) && !IsSpace(s[j])
    ensures SkipSpace(s, i) == j
    decreases j - i
  {
    if i < j {
      SkipSpaceAt(s, i + 1, j);
    }
  }

  lemma {:induction false} SkipSpaceToEnd(s: string, i: nat)
    requires i <= |s| && SpaceBetween(s, i, |s|)
    ensures SkipSpace(s, i) == |s|
    decreases |s| - i
  {
    if i < |s| {
      SkipSpaceToEnd(s, i + 1);
    }
  }

  lemma {:induction false} SkipSpaceBackAt(s: string, lo: nat, k: nat, j: nat)
    requires lo < k <= j <= |s| && SpaceBetween(s, k, j) && !IsSpace(s[k - 1])
    ensures SkipSpaceBack(s, lo, j) == k
    decreases j
  {
    if k < j {
      SkipSpaceBackAt(s, lo, k, j - 1);
    }
  }

  /** Strip is the only way of cutting whitespace off the ends of `s` that
      leaves none at either end. */
  lemma StripUnique(s: string, r: string, i: int)
    requires PaddedAt(s, r, i) && Trimmed(r)
    ensures Strip(s) == r
  {
    if r == [] {
      SkipSpaceToEnd(s, 0);
    } else {
      var j := i + |r|;
      assert s[i] == r[0] && s[j - 1] == r[|r| - 1];
      SkipSpaceAt(s, 0, i);
      SkipSpaceBackAt(s, i, j, |s|);
    }
  }

  /** A string without whitespace at its ends is its own strip. */
  lemma StripOfTrimmed(s: string)
    requires Trimmed(s)
    ensures Strip(s) == s
  {
    assert s[0..0 + |s|] == s;
    StripUnique(s, s, 0);
  }

  /** Stripping an already stripped string changes nothing. */
  lemma StripIdempotent(s: string)
    ensures Strip(Strip(s)) == Strip(s)
  {
    StripOfTrimmed(Strip(s));
  }

  /** Whitespace added around a string does not change what strip returns. */
  lemma StripIgnoresPadding(pre: string, s: string, post: string)
    requires AllSpace(pre) && AllSpace(post)
    ensures Strip(pre + s + post) == Strip(s)
  {
    var r := Strip(s);
    PaddedGrow(pre, s, post, r, SkipSpace(s, 0));
    StripUnique(pre + s + post, r, |pre| + SkipSpace(s, 0));
  }

  /** Whitespace added around `s` keeps a padded piece of it padded. */
  lemma PaddedGrow(pre: string, s: string, post: string, r: string, i: int)
    requires AllSpace(pre) && AllSpace(post) && PaddedAt(s, r, i)
    ensures PaddedAt(pre + s + post, r, |pre| + i)
  {
    var t := pre + s + post;
    var k := |pre| + i;
    forall x | 0 <= x < k ensures IsSpace(t[x]) {
      if x < |pre| {
        assert t[x] == pre[x];
      } else {
        assert t[x] == s[x - |pre|];
      }
    }
    forall x | k + |r| <= x < |t| ensures IsSpace(t[x]) {
      if x < |pre| + |s| {
        assert t[x] == s[x - |pre|];
      } else {
        assert t[x] == post[x - |pre| - |s|];
      }
    }
    forall x | 0 <= x < |r| ensures t[k + x] == r[x] {
      assert t[k + x] == s[i + x];
      assert s[i..i + |r|][x] == s[i + x];
    }
    assert t[k..k + |r|] == r;
  }

  /** Strip loses no character that is not whitespace. */
  lemma StripKeepsVisible(s: string, c: char)
    requires !IsSpace(c)
    ensures c in Strip(s) <==> c in s
  {
    var r := Strip(s);
    var i := SkipSpace(s, 0);
    if c in s {
      var k :| 0 <= k < |s| && s[k] == c;
      assert r[k - i] == c;
    }
  }

  // ---------------------------------------------------------------------------
  // Python slicing s[start:]
  // ---------------------------------------------------------------------------

  /** Python's `s[start:]` for a non-negative start: empty once `start` runs
      past the end, never an error. */
  function SliceFrom(s: string, start: nat): (r: string)
    ensures |r| == if start <= |s| then |s| - start else 0
    ensures forall k :: 0 <= k < |r| ==> r[k] == s[start + k]
  {
    if start <= |s| then s[start..] else []
  }

  // ---------------------------------------------------------------------------
  // str(n) for an integer, and its inverse
  // ---------------------------------------------------------------------------

  predicate IsDigit(c: char) {
    '0' <= c <= '9'
  }

  predicate AllDigits(s: string) {
    forall k :: 0 <= k < |s| ==> IsDigit(s[k])
  }

  function DigitChar(d: nat): (c: char)
    requires d < 10
    ensures IsDigit(c)
  {
    (48 + d) as char
  }

  function DigitValue(c: char): (d: nat)
    requires IsDigit(c)
    ensures d < 10 && DigitChar(d) == c
  {
    c as int - 48
  }

  /** The decimal digits of `n`, most significant first, with no leading zero. */
  function NatToDecimal(n: nat): (r: string)
    ensures |r| >= 1 && AllDigits(r)
    ensures r[0] == '0' <==> n == 0
  {
    if n < 10 then [DigitChar(n)] else NatToDecimal(n / 10) + [DigitChar(n % 10)]
  }

  /** The number a string of decimal digits denotes. */
  function DecimalValue(s: string): nat
    requires AllDigits(s)
  {
    if s == [] then 0 else DecimalValue(s[..|s| - 1]) * 10 + DigitValue(s[|s| - 1])
  }

  /** Python's `str(i)`: an optional minus sign followed by the digits of |i|. */
  function IntToDecimal(i: int): (r: string)
    ensures |r| >= 1
    ensures (r[0] == '-') <==> i < 0
  {
    if i < 0 then "-" + NatToDecimal(-i) else NatToDecimal(i)
  }

  /** Reads back what IntToDecimal writes (Python's `int(s)` on such strings). */
  function ParseInt(s: string): Option<int> {
    if |s| >= 2 && s[0] == '-' && AllDigits(s[1..]) then Some(-(DecimalValue(s[1..]) as int))
    else if |s| >= 1 && AllDigits(s) then Some(DecimalValue(s))
    else None
  }

  lemma {:induction false} NatDecimalRoundTrip(n: nat)
    ensures DecimalValue(NatToDecimal(n)) == n
  {
    if n >= 10 {
      var a := NatToDecimal(n / 10);
      var s := a + [DigitChar(n % 10)];
      assert s[..|s| - 1] == a;
      NatDecimalRoundTrip(n / 10);
    }
  }

  /** The decimal form of an integer determines the integer. */
  lemma IntDecimalRoundTrip(i: int)
    ensures ParseInt(IntToDecimal(i)) == Some(i)
  {
    var s := IntToDecimal(i);
    if i < 0 {
      assert s[1..] == NatToDecimal(-i);
      NatDecimalRoundTrip(-i);
    } else {
      NatDecimalRoundTrip(i);
    }
  }
}
