/**
 * String helpers the scoring engine and the request handlers rely on:
 * character classes, decimal digit strings, Go's strings.TrimSpace,
 * strings.TrimPrefix and strings.TrimSuffix, and the byte length that
 * Go's len() gives for a string (its UTF-8 encoding).
 *
 * Strings are sequences of Unicode scalar values, which is what Go's
 * `for _, r := range s` loop yields for the valid UTF-8 text that the
 * JSON decoder produces.
 */
module Text {
  import opened Arithmetic

  // ---------------------------------------------------------------------
  // Character classes
  // ---------------------------------------------------------------------

  /** unicode.IsLetter(c) || unicode.IsDigit(c), restricted to ASCII. */
  predicate IsAlphanumeric(c: char) {
    'a' <= c <= 'z' || 'A' <= c <= 'Z' || '0' <= c <= '9'
  }

  /** unicode.IsSpace: the Latin-1 spaces and the White_Space property. */
  predicate IsSpace(c: char) {
    || c == ' '
    || '\t' <= c <= '\r'
    || c == '\U{0085}' || c == '\U{00A0}' || c == '\U{1680}'
    || '\U{2000}' <= c <= '\U{200A}'
    || c == '\U{2028}' || c == '\U{2029}' || c == '\U{202F}'
    || c == '\U{205F}' || c == '\U{3000}'
  }

  predicate IsDigit(c: char) {
    '0' <= c <= '9'
  }

  predicate AllDigits(s: string) {
    forall i :: 0 <= i < |s| ==> IsDigit(s[i])
  }

  // ---------------------------------------------------------------------
  // Decimal digit strings
  // ---------------------------------------------------------------------

  function Pow10(n: nat): (r: nat)
    ensures r >= 1
    ensures n > 0 ==> r >= 10
  {
    if n == 0 then 1 else 10 * Pow10(n - 1)
  }

  function DigitValue(c: char): (d: nat)
    requires IsDigit(c)
    ensures d < 10
  {
    c as int - '0' as int
  }

  function DigitChar(d: nat): (c: char)
    requires d < 10
    ensures IsDigit(c) && DigitValue(c) == d
  {
    ('0' as int + d) as char
  }

  /** The number a string of decimal digits denotes (leading zeros allowed). */
  function DigitsValue(s: string): (v: nat)
    requires AllDigits(s)
    ensures v < Pow10(|s|)
  {
    if s == [] then 0
    else DigitsValue(s[..|s| - 1]) * 10 + DigitValue(s[|s| - 1])
  }

  /** The last `width` decimal digits of n, padded on the left with zeros. */
  function Digits(n: nat, width: nat): (s: string)
    ensures |s| == width && AllDigits(s)
  {
    if width == 0 then [] else Digits(n / 10, width - 1) + [DigitChar(n % 10)]
  }

  /** A number below 10^width is written back exactly by Digits. */
  lemma {:induction false} DigitsValueOfDigits(n: nat, width: nat)
    requires n < Pow10(width)
    ensures DigitsValue(Digits(n, width)) == n
  {
    if width > 0 {
      var s := Digits(n, width);
      DivModUnique(n, 10, n / 10, n % 10);
      assert n / 10 < Pow10(width - 1);
      DigitsValueOfDigits(n / 10, width - 1);
      assert s[..|s| - 1] == Digits(n / 10, width - 1);
    }
  }

  /** Reading a digit string and writing it back at its own width gives it back. */
  lemma {:induction false} DigitsOfDigitsValue(s: string)
    requires AllDigits(s)
    ensures Digits(DigitsValue(s), |s|) == s
  {
    if s != [] {
      var init, last := s[..|s| - 1], s[|s| - 1];
      var v := DigitsValue(s);
      DivModUnique(v, 10, DigitsValue(init), DigitValue(last));
      DigitsOfDigitsValue(init);
      assert DigitChar(DigitValue(last)) == last;
      assert s == init + [last];
    }
  }

  // ---------------------------------------------------------------------
  // strings.TrimSpace
  // ---------------------------------------------------------------------

  /** The length of the run of spaces that s starts with. */
  function LeadingSpaces(s: string): (n: nat)
    ensures n <= |s|
    ensures forall k :: 0 <= k < n ==> IsSpace(s[k])
    ensures n < |s| ==> !IsSpace(s[n])
  {
    if s != [] && IsSpace(s[0]) then 1 + LeadingSpaces(s[1..]) else 0
  }

  /** Drops the trailing spaces: the result is the prefix of s that ends at its last non-space. */
  function TrimRight(s: string): (r: string)
    ensures |r| <= |s| && r == s[..|r|]
    ensures forall k :: |r| <= k < |s| ==> IsSpace(s[k])
    ensures r != [] ==> !IsSpace(r[|r| - 1])
  {
    if s != [] && IsSpace(s[|s| - 1]) then TrimRight(s[..|s| - 1]) else s
  }

  /**
   * strings.TrimSpace: the slice of s that starts after its leading run of
   * spaces; only spaces follow it, and it neither starts nor ends with a space.
   */
  function TrimSpace(s: string): (r: string)
    ensures LeadingSpaces(s) + |r| <= |s|
    ensures r == s[LeadingSpaces(s)..LeadingSpaces(s) + |r|]
    ensures forall k :: LeadingSpaces(s) + |r| <= k < |s| ==> IsSpace(s[k])
    ensures r != [] ==> !IsSpace(r[0]) && !IsSpace(r[|r| - 1])
  {
    TrimRight(s[LeadingSpaces(s)..])
  }

  lemma {:induction false} LeadingSpacesOf(pre: string, rest: string)
    requires forall k :: 0 <= k < |pre| ==> IsSpace(pre[k])
    requires rest == [] || !IsSpace(rest[0])
    ensures LeadingSpaces(pre + rest) == |pre|
  {
    if pre == [] {
      assert pre + rest == rest;
    } else {
      assert (pre + rest)[0] == pre[0];
      assert (pre + rest)[1..] == pre[1..] + rest;
      LeadingSpacesOf(pre[1..], rest);
    }
  }

  lemma {:induction false} TrimRightOf(core: string, post: string)
    requires forall k :: 0 <= k < |post| ==> IsSpace(post[k])
    requires core == [] || !IsSpace(core[|core| - 1])
    ensures TrimRight(core + post) == core
  {
    if post == [] {
      assert core + post == core;
    } else {
      var s := core + post;
      assert s[|s| - 1] == post[|post| - 1];
      assert s[..|s| - 1] == core + post[..|post| - 1];
      TrimRightOf(core, post[..|post| - 1]);
    }
  }

  /**
   * TrimSpace undoes padding: a text that neither starts nor ends with a
   * space comes back unchanged from any run of spaces around it.
   */
  lemma TrimSpaceOfPadded(pre: string, core: string, post: string)
    requires forall k :: 0 <= k < |pre| ==> IsSpace(pre[k])
    requires forall k :: 0 <= k < |post| ==> IsSpace(post[k])
    requires core != [] ==> !IsSpace(core[0]) && !IsSpace(core[|core| - 1])
    ensures TrimSpace(pre + core + post) == core
  {
    var s := pre + core + post;
    if core == [] {
      assert s == pre + post;
      forall k | 0 <= k < |s|
        ensures IsSpace(s[k])
      {
        if k >= |pre| {
          assert s[k] == post[k - |pre|];
        }
      }
      TrimSpaceOfBlank(s);
    } else {
      assert s == pre + (core + post);
      assert (core + post)[0] == core[0];
      LeadingSpacesOf(pre, core + post);
      assert s[|pre|..] == core + post;
      TrimRightOf(core, post);
    }
  }

  /** A description made only of spaces trims to the empty string. */
  lemma {:induction false} TrimSpaceOfBlank(s: string)
    requires forall k :: 0 <= k < |s| ==> IsSpace(s[k])
    ensures TrimSpace(s) == []
  {
  }

  // ---------------------------------------------------------------------
  // len(): the UTF-8 byte length of a string
  // ---------------------------------------------------------------------

  /** Number of bytes UTF-8 uses for one scalar value. */
  function Utf8Width(c: char): (w: nat)
    ensures 1 <= w <= 4
    ensures w == 1 <==> c < '\U{80}'
  {
    if c < '\U{80}' then 1
    else if c < '\U{800}' then 2
    else if c < '\U{10000}' then 3
    else 4
  }

  function Utf8Length(s: string): (n: nat)
  {
    if s == [] then 0 else Utf8Length(s[..|s| - 1]) + Utf8Width(s[|s| - 1])
  }

  /** Byte length is additive over concatenation. */
  lemma {:induction false} Utf8LengthAppend(a: string, b: string)
    ensures Utf8Length(a + b) == Utf8Length(a) + Utf8Length(b)
  {
    if b != [] {
      assert (a + b)[..|a + b| - 1] == a + b[..|b| - 1];
      assert (a + b)[|a + b| - 1] == b[|b| - 1];
      Utf8LengthAppend(a, b[..|b| - 1]);
    } else {
      assert a + b == a;
    }
  }

  /** Every character takes at least one byte, and an ASCII string takes exactly one per character. */
  lemma {:induction false} Utf8LengthBounds(s: string)
    ensures |s| <= Utf8Length(s) <= 4 * |s|
    ensures (forall k :: 0 <= k < |s| ==> s[k] < '\U{80}') ==> Utf8Length(s) == |s|
  {
    if s != [] {
      Utf8LengthBounds(s[..|s| - 1]);
    }
  }

  // ---------------------------------------------------------------------
  // strings.TrimPrefix, strings.TrimSuffix
  // ---------------------------------------------------------------------

  predicate HasSuffix(s: string, suffix: string) {
    |suffix| <= |s| && s[|s| - |suffix|..] == suffix
  }

  /** Removes `prefix` from the front of s when s starts with it; otherwise s is unchanged. */
  function TrimPrefix(s: string, prefix: string): (r: string)
    ensures prefix <= s ==> prefix + r == s
    ensures !(prefix <= s) ==> r == s
  {
    if prefix <= s then s[|prefix|..] else s
  }

  /** Removes `suffix` from the end of s when s ends with it; otherwise s is unchanged. */
  function TrimSuffix(s: string, suffix: string): (r: string)
    ensures HasSuffix(s, suffix) ==> r + suffix == s
    ensures !HasSuffix(s, suffix) ==> r == s
  {
    if HasSuffix(s, suffix) then s[..|s| - |suffix|] else s
  }
}
