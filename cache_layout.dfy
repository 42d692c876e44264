/** The cache layout: ID `n` is stored as `page-%06d.html` in the harvest directory. */
module CacheLayout {
  import opened Base
  import opened Text

  predicate IsDigit(c: char) { '0' <= c <= '9' }

  predicate AllDigits(s: string) { forall i :: 0 <= i < |s| ==> IsDigit(s[i]) }

  function DigitChar(d: nat): (c: char)
    requires d < 10
    ensures IsDigit(c)
  {
    (48 + d) as char
  }

  function DigitValue(c: char): (d: nat)
    requires IsDigit(c)
    ensures d < 10 && DigitChar(d) == c
  {
    c as int - 48
  }

  function Pow10(k: nat): (p: nat)
    ensures p >= 1
  {
    if k == 0 then 1 else 10 * Pow10(k - 1)
  }

  /** Go's `%d` of a non-negative integer: the shortest decimal numeral. */
  function Decimal(n: nat): (s: string)
    ensures |s| >= 1 && AllDigits(s)
    decreases n
  {
    if n < 10 then [DigitChar(n)] else Decimal(n / 10) + [DigitChar(n % 10)]
  }

  /** The number a numeral denotes, read most significant digit first. */
  function Value(s: string): nat
    requires AllDigits(s)
  {
    if s == [] then 0 else Value(s[..|s| - 1]) * 10 + DigitValue(s[|s| - 1])
  }

  function Zeros(k: nat): (s: string)
    ensures |s| == k && AllDigits(s)
    ensures forall i :: 0 <= i < k ==> s[i] == '0'
  {
    seq(k, _ => '0')
  }

  /** Go's `%0<width>d` of a non-negative integer: the numeral, left-filled
      with zeros up to `width` characters (longer numerals are not cut). */
  function FormatPadded(n: nat, width: nat): string
  {
    var d := Decimal(n);
    if |d| >= width then d else Zeros(width - |d|) + d
  }

  const PagePrefix: string := "page-"
  const PageSuffix: string := ".html"

  /** `fmt.Sprintf("page-%06d.html", id)`. */
  function PageFilename(id: nat): string
  {
    PagePrefix + FormatPadded(id, 6) + PageSuffix
  }

  /** The inverse of `PageFilename`: the ID a cache file name stands for. */
  function ParsePageFilename(name: string): Option<nat>
  {
    if |name| > 10 && name[..5] == PagePrefix && name[|name| - 5..] == PageSuffix
       && AllDigits(name[5..|name| - 5])
    then Some(Value(name[5..|name| - 5]))
    else None
  }

  lemma {:induction false} ValueOfDecimal(n: nat)
    ensures Value(Decimal(n)) == n
    decreases n
  {
    if n >= 10 {
      ValueOfDecimal(n / 10);
      var d := Decimal(n);
      assert d[..|d| - 1] == Decimal(n / 10);
    }
  }

  lemma {:induction false} ValueOfZeros(k: nat, s: string)
    requires AllDigits(s)
    ensures AllDigits(Zeros(k) + s) && Value(Zeros(k) + s) == Value(s)
    decreases |s|
  {
    var z := Zeros(k) + s;
    if s == [] {
      assert z == Zeros(k);
      ZerosAreZero(k);
    } else {
      assert z[..|z| - 1] == Zeros(k) + s[..|s| - 1];
      ValueOfZeros(k, s[..|s| - 1]);
    }
  }

  lemma {:induction false} ZerosAreZero(k: nat)
    ensures Value(Zeros(k)) == 0
  {
    if k > 0 {
      assert Zeros(k)[..k - 1] == Zeros(k - 1);
      ZerosAreZero(k - 1);
    }
  }

  /** Reading a padded numeral back gives the number: the layout loses nothing. */
  lemma PaddedRoundTrip(n: nat, width: nat)
    ensures AllDigits(FormatPadded(n, width))
    ensures Value(FormatPadded(n, width)) == n
  {
    ValueOfDecimal(n);
    var d := Decimal(n);
    if |d| < width {
      ValueOfZeros(width - |d|, d);
    }
  }

  lemma {:induction false} DecimalFits(n: nat, k: nat)
    requires 1 <= k && n < Pow10(k)
    ensures |Decimal(n)| <= k
    decreases n
  {
    if n >= 10 {
      assert n / 10 < Pow10(k - 1);
      DecimalFits(n / 10, k - 1);
    }
  }

  /** Up to 999999 every cache file name has exactly 16 characters, its numeral exactly 6. */
  lemma PageFilenameLength(id: nat)
    requires id <= 999999
    ensures |FormatPadded(id, 6)| == 6
    ensures |PageFilename(id)| == 16
  {
    assert Pow10(6) == 1000000;
    DecimalFits(id, 6);
  }

  /** Parsing a cache file name recovers its ID, for every ID. */
  lemma {:induction false} ParsePageFilenameRoundTrip(id: nat)
    ensures ParsePageFilename(PageFilename(id)) == Some(id)
  {
    var digits := FormatPadded(id, 6);
    var name := PageFilename(id);
    PaddedRoundTrip(id, 6);
    assert |digits| >= 1;
    assert name[..5] == PagePrefix;
    assert name[|name| - 5..] == PageSuffix;
    assert name[5..|name| - 5] == digits;
  }

  /** Distinct IDs have distinct cache file names. */
  lemma PageFilenameInjective(a: nat, b: nat)
    requires PageFilename(a) == PageFilename(b)
    ensures a == b
  {
    ParsePageFilenameRoundTrip(a);
    ParsePageFilenameRoundTrip(b);
  }

  /** Every cache file name ends in the letter 'l' of ".html". */
  lemma PageFilenameEndsInL(id: nat)
    ensures |PageFilename(id)| > 0 && PageFilename(id)[|PageFilename(id)| - 1] == 'l'
  {
  }

  lemma {:induction false} ValueBound(s: string)
    requires AllDigits(s)
    ensures Value(s) < Pow10(|s|)
    decreases |s|
  {
    if s != [] {
      ValueBound(s[..|s| - 1]);
    }
  }

  /** `Value` read from the front: the first digit weighs 10^(|s|-1). */
  lemma {:induction false} ValueFront(s: string)
    requires AllDigits(s) && s != []
    ensures Value(s) == DigitValue(s[0]) * Pow10(|s| - 1) + Value(s[1..])
    decreases |s|
  {
    if |s| > 1 {
      var init, tail := s[..|s| - 1], s[1..];
      var d0, dl := DigitValue(s[0]), DigitValue(s[|s| - 1]);
      var p := Pow10(|s| - 2);
      ValueFront(init);
      assert init[1..] == tail[..|tail| - 1];
      assert init[0] == s[0] && tail[|tail| - 1] == s[|s| - 1];
      var v := Value(init[1..]);
      assert Value(s) == Value(init) * 10 + dl;
      assert Value(tail) == v * 10 + dl;
      assert Pow10(|s| - 1) == 10 * p;
      ShiftDigit(d0, p, v, dl);
    }
  }

  lemma ShiftDigit(d: int, p: int, v: int, e: int)
    ensures (d * p + v) * 10 + e == d * (10 * p) + (v * 10 + e)
  {
  }

  /** A smaller leading digit outweighs whatever follows it. */
  lemma LeadingDigitDominates(dx: nat, dy: nat, p: nat, rx: nat, ry: nat)
    requires dx < dy && rx < p
    ensures dx * p + rx < dy * p + ry
  {
    calc {
      dx * p + rx;
    <  dx * p + p;
    == (dx + 1) * p;
    <= { assert dx + 1 <= dy; MulMonotone(dx + 1, dy, p); }
      dy * p;
    }
  }

  lemma MulMonotone(a: nat, b: nat, p: nat)
    requires a <= b
    ensures a * p <= b * p
  {
    assert b * p == a * p + (b - a) * p;
  }

  /** Among numerals of equal length, string order is numeric order. */
  lemma {:induction false} LexLessDigits(x: string, y: string)
    requires AllDigits(x) && AllDigits(y) && |x| == |y|
    ensures LexLess(x, y) <==> Value(x) < Value(y)
    decreases |x|
  {
    if x != [] {
      var p := Pow10(|x| - 1);
      ValueFront(x);
      ValueFront(y);
      ValueBound(x[1..]);
      ValueBound(y[1..]);
      var dx, dy := DigitValue(x[0]), DigitValue(y[0]);
      assert LexLess(x, y) == (x[0] < y[0] || (x[0] == y[0] && LexLess(x[1..], y[1..])));
      if dx < dy {
        LeadingDigitDominates(dx, dy, p, Value(x[1..]), Value(y[1..]));
      } else if dy < dx {
        LeadingDigitDominates(dy, dx, p, Value(y[1..]), Value(x[1..]));
      } else {
        LexLessDigits(x[1..], y[1..]);
      }
    }
  }

  /** Up to 999999 the byte-wise order of cache file names, the order in
      which a directory walk visits them, is the numeric order of the IDs. */
  lemma PageFilenameOrder(a: nat, b: nat)
    requires a <= 999999 && b <= 999999
    ensures LexLess(PageFilename(a), PageFilename(b)) <==> a < b
  {
    var da, db := FormatPadded(a, 6), FormatPadded(b, 6);
    PageFilenameLength(a);
    PageFilenameLength(b);
    PaddedRoundTrip(a, 6);
    PaddedRoundTrip(b, 6);
    assert PageFilename(a) == PagePrefix + (da + PageSuffix);
    assert PageFilename(b) == PagePrefix + (db + PageSuffix);
    LexLessConcat(PagePrefix, PagePrefix, da + PageSuffix, db + PageSuffix);
    LexLessIrreflexive(PagePrefix);
    LexLessConcat(da, db, PageSuffix, PageSuffix);
    LexLessIrreflexive(PageSuffix);
    LexLessDigits(da, db);
  }

  /** Division by ten keeps a number within the matching power-of-ten band. */
  lemma DivTenBand(n: nat, lo: nat, hi: nat)
    requires 10 * lo <= n < 10 * hi
    ensures lo <= n / 10 < hi
  {
  }

  /** A number from `d * 10^k` up to, not including, `(d+1) * 10^k` is
      written with `k + 1` digits, the first of them `d`. */
  lemma {:induction false} DecimalLeadingDigit(n: nat, k: nat, d: nat)
    requires 1 <= d <= 9 && d * Pow10(k) <= n < (d + 1) * Pow10(k)
    ensures |Decimal(n)| == k + 1 && Decimal(n)[0] == DigitChar(d)
    decreases k
  {
    if k > 0 {
      var p := Pow10(k - 1);
      assert Pow10(k) == 10 * p;
      var lo, hi := d * p, (d + 1) * p;
      TimesTen(d, p);
      TimesTen(d + 1, p);
      DivTenBand(n, lo, hi);
      DecimalLeadingDigit(n / 10, k - 1, d);
      MulMonotone(1, d, p);
    }
  }

  lemma TimesTen(d: int, p: int)
    ensures d * (10 * p) == 10 * (d * p)
  {
  }

  /** Beyond six digits the padding no longer aligns the numerals and the
      name order parts from the ID order: every seven-digit ID starting
      with 1 sorts before every six-digit ID starting with 9, 1000000
      before 999999 among them. */
  lemma OrderBreaksBeyondSixDigits(big: nat, small: nat)
    requires 1000000 <= big < 2000000 && 900000 <= small <= 999999
    ensures LexLess(PageFilename(big), PageFilename(small))
  {
    assert Pow10(6) == 1000000;
    DecimalLeadingDigit(big, 6, 1);
    DecimalLeadingDigit(small, 5, 9);
    var da, db := Decimal(big), Decimal(small);
    assert FormatPadded(big, 6) == da && FormatPadded(small, 6) == db;
    var ra, rb := da[1..] + PageSuffix, db[1..] + PageSuffix;
    assert PageFilename(big) == PagePrefix + ([da[0]] + ra);
    assert PageFilename(small) == PagePrefix + ([db[0]] + rb);
    LexLessConcat(PagePrefix, PagePrefix, [da[0]] + ra, [db[0]] + rb);
    LexLessIrreflexive(PagePrefix);
    LexLessConcat([da[0]], [db[0]], ra, rb);
  }
}
