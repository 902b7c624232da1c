/** The parts of the Arduino core and of the C library that the tracker's code relies on:
    the `byte` type, `String::substring`, `String::indexOf`, `String::trim`,
    `String::toInt` (which is `atol`), `String::toFloat` (which is `atof`, read here as an
    exact decimal) and `strtol` in base 16. Strings are sequences of characters; a byte
    appended to a String is the character with that code. The functions walk the text by
    index, as the C code does, and lemmas state what they compute in terms of slices. */
module Arduino {

  /** Arduino's `byte`: an unsigned 8-bit value. */
  type byte = b: int | 0 <= b < 256

  function Min(a: int, b: int): int { if a <= b then a else b }
  function Max(a: int, b: int): int { if a <= b then b else a }

  /** `int` on the 8-bit target is 16 bits wide: the arithmetic wraps modulo 2^16. */
  function Int16(x: int): (r: int)
    ensures -32768 <= r < 32768
    ensures -32768 <= x < 32768 ==> r == x
    ensures (r - x) % 65536 == 0
  {
    (x + 32768) % 65536 - 32768
  }

  /** The spacing of `float` values (single precision, 24-bit significand) around the
      magnitude m: 1 below 2^24, doubling with each further binary digit. */
  function FloatSpacing(m: nat): (u: nat)
    ensures u >= 1
    ensures m < 0x100_0000 ==> u == 1
  {
    if m < 0x100_0000 then 1 else 2 * FloatSpacing(m / 2)
  }

  /** The multiple of u nearest to m, a tie going to the even multiple: how a `float`
      rounds a magnitude whose spacing is u. */
  function NearestMultiple(m: nat, u: nat): (r: int)
    requires u >= 1
  {
    var q, rem := m / u, m % u;
    if 2 * rem > u || (2 * rem == u && q % 2 == 1) then m - rem + u else m - rem
  }

  /** The nearest multiple is at most half of u away from m. */
  lemma {:induction false} NearestMultipleIsNear(m: nat, u: nat)
    requires u >= 1
    ensures NearestMultiple(m, u) >= 0
    ensures -(u as int) <= 2 * (NearestMultiple(m, u) - m) <= u
  {
  }

  /** A `long` stored in a `float` and converted back to `long`: the magnitude goes to
      the nearest multiple of the spacing; that value is a whole number, so the
      conversion back is exact. */
  function LongThroughFloat(n: int): int
  {
    var m := if n < 0 then -n else n;
    var r := NearestMultiple(m, FloatSpacing(m));
    if n < 0 then -r else r
  }

  /** A `long` that fits the 24-bit significand goes through a `float` unchanged; any
      other is moved by at most half the spacing, keeping its sign. */
  lemma {:induction false} LongThroughFloatNear(n: int)
    ensures -0x100_0000 < n < 0x100_0000 ==> LongThroughFloat(n) == n
    ensures var u: int := FloatSpacing(if n < 0 then -n else n);
            var r := LongThroughFloat(n);
            -u <= 2 * (r - n) <= u && (n < 0 ==> r <= 0) && (n >= 0 ==> r >= 0)
  {
    var m := if n < 0 then -n else n;
    NearestMultipleIsNear(m, FloatSpacing(m));
  }

  /** Below 2^27 the spacing is 1, 2, 4 or 8, and the magnitude of a `long` comes back
      from a `float` as a multiple of it: even from 2^24, a multiple of 4 from 2^25, of
      8 from 2^26. */
  lemma {:induction false} LongThroughFloatGrid(n: int)
    requires -0x800_0000 < n < 0x800_0000
    ensures var m := if n < 0 then -n else n;
            var r := LongThroughFloat(n);
            var a := if r < 0 then -r else r;
            (0x100_0000 <= m < 0x200_0000 ==> a % 2 == 0) &&
            (0x200_0000 <= m < 0x400_0000 ==> a % 4 == 0) &&
            (0x400_0000 <= m ==> a % 8 == 0)
  {
    var m := if n < 0 then -n else n;
    NearestMultipleIsNear(m, FloatSpacing(m));
    if m >= 0x100_0000 {
      assert FloatSpacing(m) == 2 * FloatSpacing(m / 2);
      if m >= 0x200_0000 {
        assert FloatSpacing(m / 2) == 2 * FloatSpacing(m / 4);
        if m >= 0x400_0000 {
          assert FloatSpacing(m / 4) == 2 * FloatSpacing(m / 8);
          NearestMultipleOf8(m);
        } else {
          NearestMultipleOf4(m);
        }
      } else {
        NearestMultipleOf2(m);
      }
    }
  }

  /** For a spacing of 2, the nearest multiple is even. */
  lemma {:induction false} NearestMultipleOf2(m: nat)
    ensures NearestMultiple(m, 2) % 2 == 0
  {
    var q := m / 2;
    assert m - m % 2 == 2 * q;
    var k := if NearestMultiple(m, 2) == 2 * q then q else q + 1;
    assert NearestMultiple(m, 2) == 2 * k;
  }

  /** For a spacing of 4, the nearest multiple is a multiple of 4. */
  lemma {:induction false} NearestMultipleOf4(m: nat)
    ensures NearestMultiple(m, 4) % 4 == 0
  {
    var q := m / 4;
    assert m - m % 4 == 4 * q;
    var k := if NearestMultiple(m, 4) == 4 * q then q else q + 1;
    assert NearestMultiple(m, 4) == 4 * k;
  }

  /** For a spacing of 8, the nearest multiple is a multiple of 8. */
  lemma {:induction false} NearestMultipleOf8(m: nat)
    ensures NearestMultiple(m, 8) % 8 == 0
  {
    var q := m / 8;
    assert m - m % 8 == 8 * q;
    var k := if NearestMultiple(m, 8) == 8 * q then q else q + 1;
    assert NearestMultiple(m, 8) == 8 * k;
  }

  /** The character a byte becomes when it is appended to a String. */
  function CharOf(b: byte): char { b as char }

  // ---------------------------------------------------------------------------
  // Copying a range of characters

  /** The characters of `s` from index `lo` up to `hi`, copied one at a time. */
  function Slice(s: string, lo: int, hi: int): (r: string)
    requires 0 <= lo <= hi <= |s|
    decreases hi - lo
    ensures |r| == hi - lo
  {
    if lo == hi then [] else Slice(s, lo, hi - 1) + [s[hi - 1]]
  }

  /** The copy is the slice `s[lo..hi]`. */
  lemma {:induction false} SliceIsSlice(s: string, lo: int, hi: int)
    requires 0 <= lo <= hi <= |s|
    decreases hi - lo
    ensures Slice(s, lo, hi) == s[lo..hi]
  {
    if lo < hi {
      SliceIsSlice(s, lo, hi - 1);
      assert s[lo..hi] == s[lo..hi - 1] + [s[hi - 1]];
    }
  }

  // ---------------------------------------------------------------------------
  // String::substring

  /** `String::substring(left, right)`. Both indices are `unsigned int`: a negative `int`
      (the -1 of a failed `indexOf`) converts to at least 0x8000 on the 8-bit target,
      past the end of any String it can hold, so it acts as "past the end" here.
      Out-of-order indices are swapped, a start at or past the end gives "", and an end
      past the end is clipped to the end. */
  function Substring(s: string, left: int, right: int): (r: string)
    ensures |r| <= |s|
  {
    if left < 0 && right < 0 then ""
    else
      var lo := if left < 0 then right else if right < 0 then left else Min(left, right);
      var hi := if left < 0 || right < 0 then |s| else Min(Max(left, right), |s|);
      if lo >= |s| then "" else Slice(s, lo, hi)
  }

  /** What `substring` returns, as slices of the String. */
  lemma {:induction false} SubstringIs(s: string, left: int, right: int)
    ensures 0 <= left <= right <= |s| ==> Substring(s, left, right) == s[left..right]
    ensures 0 <= right < left <= |s| ==> Substring(s, left, right) == s[right..left]
    ensures 0 <= left <= |s| && right < 0 ==> Substring(s, left, right) == s[left..]
    ensures 0 <= left <= |s| <= right ==> Substring(s, left, right) == s[left..]
    ensures left >= |s| && right >= |s| ==> Substring(s, left, right) == ""
  {
    if 0 <= left <= |s| <= right && left < |s| {
      SliceIsSlice(s, left, |s|);
    } else if 0 <= left <= right <= |s| && left < |s| {
      SliceIsSlice(s, left, right);
    } else if 0 <= right < left <= |s| {
      SliceIsSlice(s, right, left);
    } else if 0 <= left < |s| && right < 0 {
      SliceIsSlice(s, left, |s|);
    }
  }

  /** `String::substring(from)`: the text from `from` to the end. */
  function SubstringFrom(s: string, from: int): (r: string)
    ensures |r| <= |s|
  {
    Substring(s, from, |s|)
  }

  lemma {:induction false} SubstringFromIs(s: string, from: int)
    ensures 0 <= from <= |s| ==> SubstringFrom(s, from) == s[from..]
    ensures from >= |s| ==> SubstringFrom(s, from) == ""
  {
    SubstringIs(s, from, |s|);
  }

  // ---------------------------------------------------------------------------
  // String::indexOf

  /** `t` occurs in `s` starting at position `p`, compared character by character. */
  predicate OccursAt(s: string, t: string, p: int)
  {
    0 <= p && p + |t| <= |s| && forall i :: 0 <= i < |t| ==> s[p + i] == t[i]
  }

  /** `s` holds `t` at some position before its end. */
  predicate Contains(s: string, t: string)
  {
    exists p :: 0 <= p < |s| && OccursAt(s, t, p)
  }

  /** `String::indexOf(t, from)`, which searches with `strstr`: -1 when `from` is at or
      past the end, otherwise the first position at or after `from` where `t` occurs,
      or -1 when there is none. */
  function IndexOf(s: string, t: string, from: nat): (r: int)
    decreases |s| - from
    ensures r == -1 || from <= r < |s|
  {
    if from >= |s| then -1
    else if OccursAt(s, t, from) then from
    else IndexOf(s, t, from + 1)
  }

  /** `indexOf` finds an occurrence, and the first one at or after `from`. */
  lemma {:induction false} IndexOfIsFirst(s: string, t: string, from: nat)
    decreases |s| - from
    ensures var r := IndexOf(s, t, from);
            (r != -1 ==> OccursAt(s, t, r)) &&
            forall p :: from <= p < |s| && (r == -1 || p < r) ==> !OccursAt(s, t, p)
  {
    if from < |s| && !OccursAt(s, t, from) {
      IndexOfIsFirst(s, t, from + 1);
    }
  }

  /** When the first occurrence at or after `from` is known, that is what `indexOf` returns. */
  lemma {:induction false} IndexOfFinds(s: string, t: string, from: nat, q: int)
    requires from <= q < |s| && OccursAt(s, t, q)
    requires forall p :: from <= p < q ==> !OccursAt(s, t, p)
    ensures IndexOf(s, t, from) == q
  {
    IndexOfIsFirst(s, t, from);
  }

  /** The search the sources write as `s.indexOf(t) > -1` (or `>= 0`) is a containment test. */
  lemma {:induction false} IndexOfFindsIffContains(s: string, t: string)
    ensures IndexOf(s, t, 0) > -1 <==> Contains(s, t)
  {
    IndexOfIsFirst(s, t, 0);
  }

  /** `String::indexOf(c, from)` for a single character, which searches with `strchr`. */
  function IndexOfChar(s: string, c: char, from: nat): (r: int)
    decreases |s| - from
    ensures r == -1 || from <= r < |s|
  {
    if from >= |s| then -1
    else if s[from] == c then from
    else IndexOfChar(s, c, from + 1)
  }

  /** Searching for a character is searching for the one-character String. */
  lemma {:induction false} IndexOfCharIsIndexOf(s: string, c: char, from: nat)
    decreases |s| - from
    ensures IndexOfChar(s, c, from) == IndexOf(s, [c], from)
  {
    if from < |s| {
      assert [c][0] == c;
      assert OccursAt(s, [c], from) <==> s[from + 0] == c;
      if s[from] != c {
        IndexOfCharIsIndexOf(s, c, from + 1);
      }
    }
  }

  /** `IndexOfChar` finds the first `c` at or after `from`, or reports that there is none. */
  lemma {:induction false} IndexOfCharIsFirst(s: string, c: char, from: nat)
    decreases |s| - from
    ensures var r := IndexOfChar(s, c, from);
            (r != -1 ==> s[r] == c) && forall p :: from <= p < |s| && (r == -1 || p < r) ==> s[p] != c
  {
    if from < |s| && s[from] != c {
      IndexOfCharIsFirst(s, c, from + 1);
    }
  }

  // ---------------------------------------------------------------------------
  // String::trim and the white space that isspace accepts

  /** `isspace` in the C locale: the space, and tab, line feed, vertical tab, form feed
      and carriage return, which are the codes 9 to 13. */
  predicate IsSpace(c: char)
  {
    c == ' ' || '\t' <= c <= '\r'
  }

  /** How many white-space characters stand in `s` from index `i` on. */
  function SpacesFrom(s: string, i: nat): (n: nat)
    requires i <= |s|
    decreases |s| - i
    ensures i + n <= |s|
  {
    if i < |s| && IsSpace(s[i]) then 1 + SpacesFrom(s, i + 1) else 0
  }

  /** How many white-space characters stand in `s` just before index `j`. */
  function SpacesBefore(s: string, j: nat): (n: nat)
    requires j <= |s|
    ensures n <= j
  {
    if j > 0 && IsSpace(s[j - 1]) then 1 + SpacesBefore(s, j - 1) else 0
  }

  lemma {:induction false} SpacesFromCounted(s: string, i: nat)
    requires i <= |s|
    decreases |s| - i
    ensures forall k :: i <= k < i + SpacesFrom(s, i) ==> IsSpace(s[k])
    ensures i + SpacesFrom(s, i) == |s| || !IsSpace(s[i + SpacesFrom(s, i)])
  {
    if i < |s| && IsSpace(s[i]) {
      SpacesFromCounted(s, i + 1);
    }
  }

  lemma {:induction false} SpacesBeforeCounted(s: string, j: nat)
    requires j <= |s|
    ensures forall k :: j - SpacesBefore(s, j) <= k < j ==> IsSpace(s[k])
    ensures SpacesBefore(s, j) == j || !IsSpace(s[j - SpacesBefore(s, j) - 1])
  {
    if j > 0 && IsSpace(s[j - 1]) {
      SpacesBeforeCounted(s, j - 1);
    }
  }

  /** Where the text that `trim` keeps starts: after the leading white space. */
  function TrimStart(s: string): (lo: nat)
    ensures lo <= |s|
  {
    SpacesFrom(s, 0)
  }

  /** Where the text that `trim` keeps ends: before the trailing white space, and never
      before its start (a String of white space only becomes empty). */
  function TrimEnd(s: string): (hi: nat)
    ensures TrimStart(s) <= hi <= |s|
  {
    Max(TrimStart(s), |s| - SpacesBefore(s, |s|))
  }

  /** `String::trim`: white space removed from both ends. */
  function Trim(s: string): string
  {
    Slice(s, TrimStart(s), TrimEnd(s))
  }

  /** What `trim` keeps: the text between the leading and the trailing white space,
      which starts and ends with a character that is not white space. */
  lemma {:induction false} TrimIs(s: string)
    ensures Trim(s) == s[TrimStart(s)..TrimEnd(s)]
    ensures forall k :: 0 <= k < TrimStart(s) ==> IsSpace(s[k])
    ensures forall k :: TrimEnd(s) <= k < |s| ==> IsSpace(s[k])
    ensures Trim(s) == [] || (!IsSpace(Trim(s)[0]) && !IsSpace(Trim(s)[|Trim(s)| - 1]))
  {
    SliceIsSlice(s, TrimStart(s), TrimEnd(s));
    SpacesFromCounted(s, 0);
    SpacesBeforeCounted(s, |s|);
  }

  /** Text with no white space at either end is left as it is by `trim`. */
  lemma {:induction false} TrimUnspaced(s: string)
    requires s == [] || (!IsSpace(s[0]) && !IsSpace(s[|s| - 1]))
    ensures Trim(s) == s
  {
    assert TrimStart(s) == 0;
    assert SpacesBefore(s, |s|) == 0;
    SliceIsSlice(s, 0, |s|);
  }

  // ---------------------------------------------------------------------------
  // Numerals: atol, atof and strtol

  /** The value of an alphanumeric digit (0-9, then a/A = 10 up to z/Z = 35), or -1. */
  function DigitValue(c: char): int
  {
    if '0' <= c <= '9' then c as int - '0' as int
    else if 'A' <= c <= 'Z' then c as int - 'A' as int + 10
    else if 'a' <= c <= 'z' then c as int - 'a' as int + 10
    else -1
  }

  predicate IsDigitIn(c: char, base: nat)
  {
    0 <= DigitValue(c) < base
  }

  /** How many digits of the base stand in `s` from index `i` on. */
  function DigitsFrom(s: string, i: nat, base: nat): (n: nat)
    requires i <= |s|
    decreases |s| - i
    ensures i + n <= |s|
  {
    if i < |s| && IsDigitIn(s[i], base) then 1 + DigitsFrom(s, i + 1, base) else 0
  }

  lemma {:induction false} DigitsFromCounted(s: string, i: nat, base: nat)
    requires i <= |s|
    decreases |s| - i
    ensures forall k :: i <= k < i + DigitsFrom(s, i, base) ==> IsDigitIn(s[k], base)
    ensures i + DigitsFrom(s, i, base) == |s| || !IsDigitIn(s[i + DigitsFrom(s, i, base)], base)
  {
    if i < |s| && IsDigitIn(s[i], base) {
      DigitsFromCounted(s, i + 1, base);
    }
  }

  /** The value of the numeral `s[lo..hi]`, most significant digit first. */
  function NumeralIn(s: string, lo: nat, hi: nat, base: nat): int
    requires lo <= hi <= |s|
    decreases hi - lo
  {
    if hi == lo then 0 else NumeralIn(s, lo, hi - 1, base) * base + DigitValue(s[hi - 1])
  }

  /** The value of the digits of the base that start at index `i`. */
  function DigitsValue(s: string, i: nat, base: nat): int
    requires i <= |s|
  {
    NumeralIn(s, i, i + DigitsFrom(s, i, base), base)
  }

  function Pow10(n: nat): (p: nat)
    ensures p >= 1
  {
    if n == 0 then 1 else 10 * Pow10(n - 1)
  }

  /** More digits span a larger power of ten. */
  lemma {:induction false} Pow10Grows(a: nat, b: nat)
    requires a <= b
    decreases b
    ensures Pow10(a) <= Pow10(b)
  {
    if a < b {
      Pow10Grows(a, b - 1);
    }
  }

  /** Where the digits start once the optional sign at `i` is passed. */
  function AfterSign(s: string, i: nat): (j: nat)
    requires i <= |s|
    ensures i <= j <= |s|
  {
    if i < |s| && (s[i] == '-' || s[i] == '+') then i + 1 else i
  }

  /** A minus sign stands at `i`. */
  predicate MinusAt(s: string, i: nat)
  {
    i < |s| && s[i] == '-'
  }

  /** `String::toInt`, that is `atol`: leading white space, an optional sign, decimal digits. */
  function ToLong(s: string): int
  {
    var i := SpacesFrom(s, 0);
    var v := DigitsValue(s, AfterSign(s, i), 10);
    if MinusAt(s, i) then -v else v
  }

  /** Text made of decimal digits only. */
  predicate AllDigits(s: string, lo: nat, hi: nat)
    requires lo <= hi <= |s|
  {
    forall k :: lo <= k < hi ==> '0' <= s[k] <= '9'
  }

  /** Digits up to the end are all counted. */
  lemma {:induction false} DigitsFromAll(s: string, i: nat)
    requires i <= |s| && AllDigits(s, i, |s|)
    decreases |s| - i
    ensures DigitsFrom(s, i, 10) == |s| - i
  {
    if i < |s| {
      DigitsFromAll(s, i + 1);
    }
  }

  /** The digits stop at the first character that is not one. */
  lemma {:induction false} DigitsFromStops(s: string, i: nat, j: nat)
    requires i <= j < |s| && AllDigits(s, i, j) && !('0' <= s[j] <= '9')
    decreases j - i
    ensures DigitsFrom(s, i, 10) == j - i
  {
    if i < j {
      DigitsFromStops(s, i + 1, j);
    }
  }

  /** A numeral read from a slice is the numeral read at the same place in the whole. */
  lemma {:induction false} NumeralInSlice(s: string, a: nat, b: nat, lo: nat, hi: nat, base: nat)
    requires a <= b <= |s| && lo <= hi <= b - a
    decreases hi - lo
    ensures NumeralIn(s[a..b], lo, hi, base) == NumeralIn(s, a + lo, a + hi, base)
  {
    if lo < hi {
      NumeralInSlice(s, a, b, lo, hi - 1, base);
    }
  }

  /** A numeral of decimal digits is not negative and is below ten to the number of digits. */
  lemma {:induction false} NumeralInBounds(s: string, lo: nat, hi: nat)
    requires lo <= hi <= |s| && AllDigits(s, lo, hi)
    decreases hi - lo
    ensures 0 <= NumeralIn(s, lo, hi, 10) < Pow10(hi - lo)
  {
    if lo < hi {
      NumeralInBounds(s, lo, hi - 1);
    }
  }

  /** `toInt` of a text of decimal digits is their value. */
  lemma {:induction false} ToLongOfDigits(s: string)
    requires AllDigits(s, 0, |s|)
    ensures ToLong(s) == NumeralIn(s, 0, |s|, 10)
  {
    DigitsFromAll(s, 0);
    assert SpacesFrom(s, 0) == 0;
  }

  /** `toFloat` of a point followed by decimal digits is their value over the power of
      ten they span. */
  lemma {:induction false} ToRealOfFraction(s: string)
    requires |s| >= 1 && s[0] == '.' && AllDigits(s, 1, |s|)
    ensures ToReal(s) == NumeralIn(s, 1, |s|, 10) as real / Pow10(|s| - 1) as real
  {
    assert SpacesFrom(s, 0) == 0;
    assert DigitsFrom(s, 0, 10) == 0;
    DigitsFromAll(s, 1);
  }

  /** `toInt` of the substring over a run of decimal digits is their value. */
  lemma {:induction false} DigitFieldValue(s: string, lo: nat, hi: nat)
    requires lo <= hi <= |s| && AllDigits(s, lo, hi)
    ensures ToLong(Substring(s, lo, hi)) == NumeralIn(s, lo, hi, 10)
  {
    SubstringIs(s, lo, hi);
    var t := s[lo..hi];
    ToLongOfDigits(t);
    NumeralInSlice(s, lo, hi, 0, hi - lo, 10);
  }

  /** `toFloat` of the text from a point followed by decimal digits is their value over
      the power of ten they span. */
  lemma {:induction false} FractionAtValue(s: string, e: nat)
    requires e < |s| && s[e] == '.' && AllDigits(s, e + 1, |s|)
    ensures 0 <= NumeralIn(s, e + 1, |s|, 10)
    ensures ToReal(SubstringFrom(s, e)) == NumeralIn(s, e + 1, |s|, 10) as real / Pow10(|s| - e - 1) as real
  {
    NumeralInBounds(s, e + 1, |s|);
    SubstringFromIs(s, e);
    var t := s[e..];
    ToRealOfFraction(t);
    assert s[e..|s|] == t;
    NumeralInSlice(s, e, |s|, 1, |t|, 10);
  }

  /** The same text scaled by `m` and cast to a `long`: the integer quotient of the
      digits times `m` by the power of ten they span. */
  lemma {:induction false} FractionFieldValue(s: string, e: nat, m: nat)
    requires e < |s| && s[e] == '.' && AllDigits(s, e + 1, |s|)
    ensures TruncateToLong(ToReal(SubstringFrom(s, e)) * m as real)
            == NumeralIn(s, e + 1, |s|, 10) * m / Pow10(|s| - e - 1)
  {
    FractionAtValue(s, e);
    ScaledFractionValue(s, e, m);
  }

  lemma {:induction false} ScaledFractionValue(s: string, e: nat, m: nat)
    requires e < |s| && 0 <= NumeralIn(s, e + 1, |s|, 10)
    requires ToReal(SubstringFrom(s, e)) == NumeralIn(s, e + 1, |s|, 10) as real / Pow10(|s| - e - 1) as real
    ensures TruncateToLong(ToReal(SubstringFrom(s, e)) * m as real)
            == NumeralIn(s, e + 1, |s|, 10) * m / Pow10(|s| - e - 1)
  {
    TruncateScaledFraction(ToReal(SubstringFrom(s, e)), NumeralIn(s, e + 1, |s|, 10), Pow10(|s| - e - 1), m);
  }

  /** Where the hexadecimal digits start: past a `0x` or `0X` that hexadecimal digits
      follow. */
  function AfterHexPrefix(s: string, j: nat): (k: nat)
    requires j <= |s|
    ensures j <= k <= |s|
  {
    if j + 2 < |s| && s[j] == '0' && (s[j + 1] == 'x' || s[j + 1] == 'X') && IsDigitIn(s[j + 2], 16)
    then j + 2 else j
  }

  /** `strtol(s, NULL, 16)`: leading white space, an optional sign, an optional `0x` or
      `0X` when hexadecimal digits follow it, then hexadecimal digits. */
  function StrtolHex(s: string): int
  {
    var i := SpacesFrom(s, 0);
    var v := DigitsValue(s, AfterHexPrefix(s, AfterSign(s, i)), 16);
    if MinusAt(s, i) then -v else v
  }

  /** The fraction digits of `atof` after the integer digits that end at `e`: their
      value over the power of ten they span, or 0 without a point. */
  function FractionAt(s: string, e: nat): real
    requires e <= |s|
  {
    if e < |s| && s[e] == '.' then
      DigitsValue(s, e + 1, 10) as real / Pow10(DigitsFrom(s, e + 1, 10)) as real
    else 0.0
  }

  /** `String::toFloat`, that is `atof`, with the digits read as an exact decimal:
      leading white space, an optional sign, integer digits, then an optional point and
      fraction digits. */
  function ToReal(s: string): real
  {
    var i := SpacesFrom(s, 0);
    var j := AfterSign(s, i);
    var e := j + DigitsFrom(s, j, 10);
    var magnitude := DigitsValue(s, j, 10) as real + FractionAt(s, e);
    if MinusAt(s, i) then -magnitude else magnitude
  }

  /** The C conversion of a real to a `long`: truncation toward zero. */
  function TruncateToLong(x: real): (n: int)
    ensures x >= 0.0 ==> n as real <= x < n as real + 1.0
    ensures x < 0.0 ==> n as real - 1.0 < x <= n as real
  {
    if x >= 0.0 then x.Floor else -((-x).Floor)
  }

  /** Decimal text of an integer, as `String += int` writes it. */
  function IntToString(n: int): (r: string)
    ensures |r| >= 1 && (r[0] == '-' <==> n < 0)
    ensures forall i :: 0 <= i < |r| && (i > 0 || n >= 0) ==> '0' <= r[i] <= '9'
  {
    if n < 0 then "-" + NatToString(-n) else NatToString(n)
  }

  function NatToString(n: nat): (r: string)
    ensures |r| >= 1
    ensures forall i :: 0 <= i < |r| ==> '0' <= r[i] <= '9'
  {
    if n < 10 then [('0' as int + n) as char]
    else NatToString(n / 10) + [('0' as int + n % 10) as char]
  }

  /** The C cast of a non-negative fraction scaled by `m` truncates: it is the integer
      quotient. */
  lemma {:induction false} TruncateScaledFraction(x: real, n: nat, p: nat, m: nat)
    requires p >= 1 && x == n as real / p as real
    ensures TruncateToLong(x * m as real) == n * m / p
  {
    assert x * m as real == (n * m) as real / p as real;
    FloorOfQuotient(n * m, p);
  }

  /** The floor of an exact quotient of naturals is their integer quotient. */
  lemma {:induction false} FloorOfQuotient(a: nat, p: nat)
    requires p >= 1
    ensures (a as real / p as real).Floor == a / p
  {
    var q, r := a / p, a % p;
    assert a == q * p + r;
    assert a as real / p as real == q as real + r as real / p as real;
    assert 0.0 <= r as real / p as real < 1.0;
  }
}
