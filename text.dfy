/** String helpers that stand for the JavaScript built-ins the source calls. */
module Text {

  predicate IsDigit(c: char)
  {
    '0' as int <= c as int <= '9' as int
  }

  function DigitChar(d: nat): (c: char)
    requires d < 10
    ensures IsDigit(c) && c as int - '0' as int == d
  {
    (('0' as int) + d) as char
  }

  /** `String(n)` for a natural number such as `Date.now()`: decimal digits, no leading zero. */
  function DecimalString(n: nat): (s: string)
    ensures |s| > 0
    ensures forall i :: 0 <= i < |s| ==> IsDigit(s[i])
    ensures |s| > 1 ==> s[0] != '0'
  {
    if n < 10 then [DigitChar(n)] else DecimalString(n / 10) + [DigitChar(n % 10)]
  }

  /** The value of a string of decimal digits; the reference the rendering is checked against. */
  function DecimalValue(s: string): nat
    requires forall i :: 0 <= i < |s| ==> IsDigit(s[i])
  {
    if s == [] then 0
    else
      assert IsDigit(s[|s| - 1]);
      10 * DecimalValue(s[..|s| - 1]) + (s[|s| - 1] as int - '0' as int)
  }

  /** Reading back a rendered timestamp gives the timestamp: distinct times give distinct strings. */
  lemma {:induction false} DecimalRoundTrip(n: nat)
    ensures DecimalValue(DecimalString(n)) == n
  {
    var s := DecimalString(n);
    if n >= 10 {
      DecimalRoundTrip(n / 10);
      assert s[..|s| - 1] == DecimalString(n / 10);
    }
  }

  /** A run of digits ended by a non-digit separator is recovered from the string it starts. */
  lemma DigitsBeforeSeparator(d1: string, r1: string, d2: string, r2: string, sep: char)
    requires !IsDigit(sep)
    requires forall i :: 0 <= i < |d1| ==> IsDigit(d1[i])
    requires forall i :: 0 <= i < |d2| ==> IsDigit(d2[i])
    requires d1 + [sep] + r1 == d2 + [sep] + r2
    ensures d1 == d2
  {
    var s := d1 + [sep] + r1;
    assert forall i :: 0 <= i < |d1| ==> s[i] != sep;
    assert forall i :: 0 <= i < |d2| ==> (d2 + [sep] + r2)[i] != sep;
    assert s[|d1|] == sep;
    assert (d2 + [sep] + r2)[|d2|] == sep;
    assert |d1| == |d2|;
    assert d1 == s[..|d1|];
    assert d2 == (d2 + [sep] + r2)[..|d2|];
  }

  /** Strings stamped with different numbers (a prefix, the number, a separator, a tail) differ. */
  lemma StampedDistinct(prefix: string, n1: nat, r1: string, n2: nat, r2: string, sep: char)
    requires n1 != n2 && !IsDigit(sep)
    ensures prefix + DecimalString(n1) + [sep] + r1 != prefix + DecimalString(n2) + [sep] + r2
  {
    var d1, d2 := DecimalString(n1), DecimalString(n2);
    var x1, x2 := d1 + [sep] + r1, d2 + [sep] + r2;
    if prefix + d1 + [sep] + r1 == prefix + d2 + [sep] + r2 {
      assert prefix + d1 + [sep] + r1 == prefix + x1;
      assert prefix + d2 + [sep] + r2 == prefix + x2;
      assert x1 == (prefix + x1)[|prefix|..];
      assert x2 == (prefix + x2)[|prefix|..];
      DigitsBeforeSeparator(d1, r1, d2, r2, sep);
      DecimalStringInjective(n1, n2);
    }
  }

  lemma DecimalStringInjective(m: nat, n: nat)
    requires DecimalString(m) == DecimalString(n)
    ensures m == n
  {
    DecimalRoundTrip(m);
    DecimalRoundTrip(n);
  }

  /** `toLowerCase` on the ASCII letters; every other character is kept. */
  function LowerChar(c: char): (r: char)
    ensures 'A' <= c <= 'Z' ==> r as int == c as int + 32
    ensures !('A' <= c <= 'Z') ==> r == c
    ensures !('A' <= r <= 'Z')
  {
    if 'A' <= c <= 'Z' then (c as int + 32) as char else c
  }

  function ToLower(s: string): (r: string)
    ensures |r| == |s|
    ensures forall i :: 0 <= i < |s| ==> r[i] == LowerChar(s[i])
  {
    if s == [] then [] else [LowerChar(s[0])] + ToLower(s[1..])
  }

  /** `s.slice(-n)` for n > 0: the last n characters, or all of s when it is shorter. */
  function SliceLast(s: string, n: nat): (r: string)
    requires n > 0
    ensures |r| == if |s| < n then |s| else n
    ensures |s| <= n ==> r == s
    ensures |s| > n ==> forall j :: 0 <= j < n ==> r[j] == s[|s| - n + j]
  {
    if |s| <= n then s else s[|s| - n..]
  }

  /** The index of the last '.' in s, or -1 when s holds none. */
  function LastDot(s: string): (i: int)
    ensures -1 <= i < |s|
    ensures i >= 0 ==> s[i] == '.'
    ensures forall j :: i < j < |s| ==> s[j] != '.'
  {
    if s == [] then -1
    else if s[|s| - 1] == '.' then |s| - 1
    else
      var i := LastDot(s[..|s| - 1]);
      assert forall j :: i < j < |s| - 1 ==> s[j] == s[..|s| - 1][j];
      i
  }

  /**
   * `s.split(".").pop()`: the text after the last '.', or the whole string when it
   * holds no '.'.
   */
  function AfterLastDot(s: string): (r: string)
    ensures |r| <= |s|
    ensures '.' !in r
    ensures s == s[..|s| - |r|] + r
    ensures |r| < |s| ==> s[|s| - |r| - 1] == '.'
  {
    var i := LastDot(s);
    SplitAt(s, i + 1);
    s[i + 1..]
  }

  lemma SplitAt(s: string, k: nat)
    requires k <= |s|
    ensures s[..k] + s[k..] == s
  {
  }

  /** Uniqueness of that split: a dot-free suffix preceded by '.' (or the whole string) is it. */
  lemma AfterLastDotUnique(pre: string, ext: string)
    requires '.' !in ext
    requires pre == [] || pre[|pre| - 1] == '.'
    ensures AfterLastDot(pre + ext) == ext
  {
    var s := pre + ext;
    forall k | |pre| <= k < |s| ensures s[k] != '.' {
      assert s[k] == ext[k - |pre|] && ext[k - |pre|] in ext;
    }
    if pre != [] {
      assert s[|pre| - 1] == '.';
    }
    assert LastDot(s) == |pre| - 1;
    assert s[|pre|..] == ext;
  }
}
