/**
 * The character identifier: `int(url.rstrip('/').split('/')[-1])`.
 * The integer parse is narrowed to non-empty strings of ASCII digits.
 */
module Ident {

  import opened Wrappers

  /** `url.rstrip('/')`: drop every trailing slash. */
  function RStripSlash(s: string): (r: string)
    ensures r <= s
    ensures r == [] || r[|r| - 1] != '/'
    ensures forall i | |r| <= i < |s| :: s[i] == '/'
  {
    if s != [] && s[|s| - 1] == '/' then RStripSlash(s[..|s| - 1]) else s
  }

  /** `s.split('/')[-1]`: the text after the last slash, or all of `s` when it has none. */
  function LastSegment(s: string): (r: string)
    ensures |r| <= |s| && r == s[|s| - |r|..]
    ensures forall i | 0 <= i < |r| :: r[i] != '/'
    ensures |r| == |s| || s[|s| - |r| - 1] == '/'
  {
    if s == [] || s[|s| - 1] == '/' then [] else LastSegment(s[..|s| - 1]) + [s[|s| - 1]]
  }

  predicate IsDigit(c: char) {
    '0' <= c <= '9'
  }

  predicate AllDigits(s: string) {
    forall i | 0 <= i < |s| :: IsDigit(s[i])
  }

  function DigitsValue(s: string): nat
    requires AllDigits(s)
  {
    if s == [] then 0 else DigitsValue(s[..|s| - 1]) * 10 + ((s[|s| - 1] as int) - ('0' as int))
  }

  /** `int(s)`, narrowed to a non-empty run of decimal digits (leading zeros allowed). */
  function ParseNat(s: string): (r: Option<nat>)
    ensures r.Some? <==> s != [] && AllDigits(s)
  {
    if s != [] && AllDigits(s) then Some(DigitsValue(s)) else None
  }

  /** `str(n)` for a natural number: its decimal digits, without leading zeros. */
  function ShowNat(n: nat): (s: string)
    ensures s != [] && AllDigits(s)
    ensures s[0] == '0' ==> n == 0 && s == "0"
  {
    if n < 10 then [(('0' as int) + n) as char]
    else ShowNat(n / 10) + [(('0' as int) + n % 10) as char]
  }

  /** The identifier of a resource URL; `None` where Python's `int()` would raise. */
  function ExtractId(url: string): (r: Option<nat>)
    ensures var seg := LastSegment(RStripSlash(url));
      && (r.Some? <==> seg != [] && AllDigits(seg))
      && (r.Some? ==> r.value == DigitsValue(seg))
  {
    ParseNat(LastSegment(RStripSlash(url)))
  }

  /** The digits of `str(n)` denote `n`. */
  lemma {:induction false} DigitsValueShowNat(n: nat)
    ensures DigitsValue(ShowNat(n)) == n
  {
    var s := ShowNat(n);
    if n >= 10 {
      DigitsValueShowNat(n / 10);
      assert s[..|s| - 1] == ShowNat(n / 10);
    } else {
      assert s[..|s| - 1] == [];
    }
  }

  /** Printing a number and parsing it back gives the number. */
  lemma ParseShowNat(n: nat)
    ensures ParseNat(ShowNat(n)) == Some(n)
  {
    DigitsValueShowNat(n);
  }

  /** Parsing a canonical digit string and printing the value gives the string back. */
  lemma {:induction false} ShowParseNat(s: string)
    requires s != [] && AllDigits(s)
    requires s[0] == '0' ==> s == "0"
    ensures ShowNat(DigitsValue(s)) == s
  {
    var n := DigitsValue(s);
    var init := s[..|s| - 1];
    if init == [] {
      assert s == [s[0]];
    } else {
      assert init[0] == s[0] != '0';
      ShowParseNat(init);
      assert DigitsValue(init) != 0;
      assert n / 10 == DigitsValue(init) && n >= 10;
      assert s == init + [s[|s| - 1]];
    }
  }

  function Slashes(k: nat): (r: string)
    ensures |r| == k && forall i | 0 <= i < k :: r[i] == '/'
  {
    seq(k, _ => '/')
  }

  /** Stripping removes exactly the slashes appended to a text that does not end in one. */
  lemma {:induction false} RStripAppendedSlashes(p: string, k: nat)
    requires p != [] && p[|p| - 1] != '/'
    ensures RStripSlash(p + Slashes(k)) == p
  {
    if k == 0 {
      assert p + Slashes(k) == p;
    } else {
      var s := p + Slashes(k);
      assert s[..|s| - 1] == p + Slashes(k - 1);
      RStripAppendedSlashes(p, k - 1);
    }
  }

  /** The last segment of `<prefix>/<seg>` is `seg` when `seg` holds no slash. */
  lemma {:induction false} LastSegmentAfterSlash(prefix: string, seg: string)
    requires forall i | 0 <= i < |seg| :: seg[i] != '/'
    ensures LastSegment(prefix + "/" + seg) == seg
  {
    var s := prefix + "/" + seg;
    if seg != [] {
      var init := seg[..|seg| - 1];
      assert s[..|s| - 1] == prefix + "/" + init;
      LastSegmentAfterSlash(prefix, init);
      assert seg == init + [seg[|seg| - 1]];
    }
  }

  /**
   * The identifier of `<prefix>/<n>` followed by any number of slashes is `n`:
   * `.../people/1/` gives 1 and `.../people/12//` gives 12.
   */
  lemma ExtractIdOfNumberedUrl(prefix: string, n: nat, k: nat)
    ensures ExtractId(prefix + "/" + ShowNat(n) + Slashes(k)) == Some(n)
  {
    var digits := ShowNat(n);
    var p := prefix + "/" + digits;
    assert p[|p| - 1] == digits[|digits| - 1];
    RStripAppendedSlashes(p, k);
    LastSegmentAfterSlash(prefix, digits);
    ParseShowNat(n);
  }

  /** A URL whose last segment is not a run of digits has no identifier. */
  lemma NonNumericSegmentHasNoId(prefix: string, seg: string)
    requires forall i | 0 <= i < |seg| :: seg[i] != '/'
    requires exists i | 0 <= i < |seg| :: !IsDigit(seg[i])
    ensures ExtractId(prefix + "/" + seg) == None
  {
    var s := prefix + "/" + seg;
    assert RStripSlash(s) == s by {
      assert s[|s| - 1] == seg[|seg| - 1];
    }
    LastSegmentAfterSlash(prefix, seg);
  }
}
