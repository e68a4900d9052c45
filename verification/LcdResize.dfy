/** PictureAdapter::ResizeLcd in dynamic_libs/image_framework/src/picture_adapter.cpp:427-477, with
    `double` and `float` taken as exact reals. */
module LcdResize {
  const EPSILON := 0.000001
  const LCD_LONG_SIDE_THRESHOLD := 1920
  const LCD_SHORT_SIDE_THRESHOLD := 512
  const MAXIMUM_LCD_LONG_SIDE := 4096
  const EVEN_BASE_NUMBER := 2

  /** static_cast<int> of a double: towards zero. */
  function Trunc(x: real): int {
    if x >= 0.0 then x.Floor else -((-x).Floor)
  }

  /** x % 2 in C++: the sign of x. */
  function Odd(x: int): int {
    if x >= 0 then x % EVEN_BASE_NUMBER else -((-x) % EVEN_BASE_NUMBER)
  }

  datatype Sides = Sides(long: int, short: int)

  function SidesOf(width: int, height: int): Sides {
    if width > height then Sides(width, height) else Sides(height, width)
  }

  /** The call refuses a zero short side and a ratio that is nearly zero. */
  predicate Usable(s: Sides) {
    s.short != 0 && !(-EPSILON < s.long as real / s.short as real < EPSILON)
  }

  /** The sides after the two thresholds and before the parity fix. */
  function Thresholded(s: Sides, ratio: real): Sides
    requires ratio != 0.0
  {
    var first := if s.long > LCD_LONG_SIDE_THRESHOLD
      then Sides(LCD_LONG_SIDE_THRESHOLD, Trunc(LCD_LONG_SIDE_THRESHOLD as real / ratio)) else s;
    if first.short < LCD_SHORT_SIDE_THRESHOLD <= s.short then
      var grown := Trunc(LCD_SHORT_SIDE_THRESHOLD as real * ratio);
      if grown > MAXIMUM_LCD_LONG_SIDE
      then Sides(MAXIMUM_LCD_LONG_SIDE, Trunc(MAXIMUM_LCD_LONG_SIDE as real / ratio))
      else Sides(grown, LCD_SHORT_SIDE_THRESHOLD)
    else first
  }

  function Resized(s: Sides): Sides
    requires Usable(s)
  {
    var last := Thresholded(s, s.long as real / s.short as real);
    if s.long != last.long then Sides(last.long + Odd(last.long), last.short + Odd(last.short)) else last
  }

  /** The middle of ResizeLcd, lines 446-461: the two thresholds. */
  method FitSides(maxLen: int, minLen: int, ratio: real) returns (lastMaxLen: int, lastMinLen: int)
    requires ratio != 0.0
    ensures Sides(lastMaxLen, lastMinLen) == Thresholded(Sides(maxLen, minLen), ratio)
  {
    var newMaxLen, newMinLen := maxLen, minLen;
    if maxLen > LCD_LONG_SIDE_THRESHOLD {
      newMaxLen := LCD_LONG_SIDE_THRESHOLD;
      newMinLen := Trunc(newMaxLen as real / ratio);
    }
    lastMinLen, lastMaxLen := newMinLen, newMaxLen;
    if newMinLen < LCD_SHORT_SIDE_THRESHOLD && minLen >= LCD_SHORT_SIDE_THRESHOLD {
      lastMinLen := LCD_SHORT_SIDE_THRESHOLD;
      lastMaxLen := Trunc(lastMinLen as real * ratio);
      if lastMaxLen > MAXIMUM_LCD_LONG_SIDE {
        lastMaxLen := MAXIMUM_LCD_LONG_SIDE;
        lastMinLen := Trunc(lastMaxLen as real / ratio);
      }
    }
  }

  /** The sizes are rewritten in place in the source; here they come back as `w` and `h`. */
  method ResizeLcd(width: int, height: int) returns (ok: bool, w: int, h: int)
    ensures ok <==> Usable(SidesOf(width, height))
    ensures !ok ==> w == width && h == height
    ensures ok && height > width ==> Sides(h, w) == Resized(SidesOf(width, height))
    ensures ok && height <= width ==> Sides(w, h) == Resized(SidesOf(width, height))
    ensures width > 0 && height > 0 ==>
      && ok && 0 <= w <= width && 0 <= h <= height && w <= 4096 && h <= 4096
      && (width >= height ==> w >= h) && (height >= width ==> h >= w)
  {
    w, h := width, height;
    var maxLen := if width > height then width else height;
    var minLen := if width > height then height else width;
    if width > 0 && height > 0 {
      PositiveIsUsable(SidesOf(width, height));
    }
    if minLen == 0 {
      return false, w, h;
    }
    var ratio := maxLen as real / minLen as real;
    if -EPSILON < ratio < EPSILON {
      return false, w, h;
    }
    var lastMaxLen, lastMinLen := FitSides(maxLen, minLen, ratio);
    if maxLen != lastMaxLen {
      lastMaxLen := lastMaxLen + Odd(lastMaxLen);
      lastMinLen := lastMinLen + Odd(lastMinLen);
    }
    if height > width {
      w, h := lastMinLen, lastMaxLen;
    } else {
      w, h := lastMaxLen, lastMinLen;
    }
    ok := true;
    if width > 0 && height > 0 {
      PictureIsFaithful(width, height, w, h);
    }
  }

  // ---------------------------------------------------------------------------------------------
  // Positive sizes in whole numbers
  // ---------------------------------------------------------------------------------------------

  predicate Positive(s: Sides) {
    0 < s.short <= s.long
  }

  lemma FloorIs(x: real, q: int)
    requires q as real <= x < (q + 1) as real
    ensures x.Floor == q
  {
  }

  /** a / b for b > 0 is the q with q * b <= a < (q + 1) * b. */
  lemma QuotientBounds(a: nat, b: nat)
    requires b > 0
    ensures (a / b) * b <= a < (a / b) * b + b
  {
  }

  lemma Product(i: int, j: int)
    ensures (i * j) as real == i as real * j as real
  {
  }

  lemma Scale(u: real, v: real, b: real)
    requires b > 0.0
    ensures u < v <==> u * b < v * b
  {
  }

  lemma Distribute(q: real, b: real)
    ensures (q + 1.0) * b == q * b + b
  {
  }

  lemma Between(q: real, b: real, a: real, x: real)
    requires b > 0.0 && q * b <= a < q * b + b && x * b == a
    ensures q <= x < q + 1.0
  {
    Distribute(q, b);
    Scale(x, q, b);
    Scale(x, q + 1.0, b);
  }

  /** Truncating x, where x * b == a. */
  lemma TruncIsQuotient(x: real, a: nat, b: nat)
    requires b > 0 && x * b as real == a as real
    ensures Trunc(x) == a / b
  {
    var q := a / b;
    QuotientBounds(a, b);
    Product(q, b);
    Between(q as real, b as real, a as real, x);
    FloorIs(x, q);
  }

  lemma OverRatio(k: real, l: real, s: real)
    requires l > 0.0 && s > 0.0
    ensures l / s != 0.0 && k / (l / s) * l == k * s
  {
    var ratio := l / s;
    assert ratio * s == l;
    var x := k / ratio;
    assert x * ratio == k;
    assert x * (ratio * s) == (x * ratio) * s;
  }

  lemma TimesRatio(k: real, l: real, s: real)
    requires s > 0.0
    ensures k * (l / s) * s == k * l
  {
    var ratio := l / s;
    assert ratio * s == l;
    assert k * ratio * s == k * (ratio * s);
  }

  lemma TruncOver(k: nat, long: nat, short: nat)
    requires long > 0 && short > 0
    ensures long as real / short as real != 0.0
    ensures Trunc(k as real / (long as real / short as real)) == k * short / long
  {
    OverRatio(k as real, long as real, short as real);
    Product(k, short);
    TruncIsQuotient(k as real / (long as real / short as real), k * short, long);
  }

  lemma TruncTimes(k: nat, long: nat, short: nat)
    requires long > 0 && short > 0
    ensures Trunc(k as real * (long as real / short as real)) == k * long / short
  {
    TimesRatio(k as real, long as real, short as real);
    Product(k, long);
    TruncIsQuotient(k as real * (long as real / short as real), k * long, short);
  }

  lemma PositiveIsUsable(s: Sides)
    requires Positive(s)
    ensures Usable(s)
  {
    var ratio := s.long as real / s.short as real;
    assert ratio * s.short as real == s.long as real;
    assert (ratio - 1.0) * s.short as real >= 0.0;
    assert ratio >= 1.0;
  }

  function Abs(x: int): nat {
    if x < 0 then -x else x
  }

  /** In whole numbers: a short side of zero is refused, and one a million times the other and more. */
  lemma UsableExactlyWhen(s: Sides)
    ensures Usable(s) <==> s.short != 0 && 1_000_000 * Abs(s.long) >= Abs(s.short)
  {
    if s.short > 0 {
      SmallExactlyWhen(s.long as real, s.short as real);
    } else if s.short < 0 {
      var l, t := s.long as real, s.short as real;
      assert l / t == -l / -t;
      SmallExactlyWhen(-l, -t);
    }
  }

  lemma SmallExactlyWhen(l: real, t: real)
    requires t > 0.0
    ensures -EPSILON < l / t < EPSILON <==> -t < 1_000_000.0 * l < t
  {
    var ratio := l / t;
    assert ratio * t == l;
    Scale(ratio, EPSILON, t);
    Scale(-EPSILON, ratio, t);
    assert ratio < EPSILON <==> l < EPSILON * t;
    assert -EPSILON < ratio <==> -EPSILON * t < l;
    assert 1_000_000.0 * (EPSILON * t) == t;
    assert l < EPSILON * t <==> 1_000_000.0 * l < t;
  }

  /** s scaled down so that its long side is k, the short side rounded down. */
  function Shrunk(s: Sides, k: nat): Sides
    requires Positive(s)
  {
    Sides(k, k * s.short / s.long)
  }

  /** s scaled down so that its short side is 512, the long side rounded down. */
  function Floored(s: Sides): Sides
    requires Positive(s)
  {
    Sides(LCD_SHORT_SIDE_THRESHOLD * s.long / s.short, LCD_SHORT_SIDE_THRESHOLD)
  }

  function Evened(s: Sides): Sides {
    Sides(s.long + Odd(s.long), s.short + Odd(s.short))
  }

  /** The thresholds on positive sizes, in whole numbers. */
  function Fitted(s: Sides): Sides
    requires Positive(s)
  {
    if s.long <= 1920 then s
    else if s.short < 512 || Shrunk(s, 1920).short >= 512 then Shrunk(s, 1920)
    else if Floored(s).long <= 4096 then Floored(s)
    else Shrunk(s, 4096)
  }

  lemma ThresholdedIsFitted(s: Sides, ratio: real)
    requires Positive(s) && ratio != 0.0
    requires Trunc(1920 as real / ratio) == Shrunk(s, 1920).short
    requires Trunc(512 as real * ratio) == Floored(s).long
    requires Trunc(4096 as real / ratio) == Shrunk(s, 4096).short
    ensures Thresholded(s, ratio) == Fitted(s)
  {
  }

  function Whole(s: Sides): Sides
    requires Positive(s)
  {
    if s.long == Fitted(s).long then Fitted(s) else Evened(Fitted(s))
  }

  /** Truncating the quotients of a double is dividing whole numbers. */
  lemma ResizedIsFitted(s: Sides)
    requires Positive(s)
    ensures Usable(s)
    ensures Resized(s) == Whole(s)
  {
    PositiveIsUsable(s);
    TruncOver(1920, s.long, s.short);
    TruncTimes(512, s.long, s.short);
    TruncOver(4096, s.long, s.short);
    ThresholdedIsFitted(s, s.long as real / s.short as real);
  }

  // ---------------------------------------------------------------------------------------------
  // What the result is worth
  // ---------------------------------------------------------------------------------------------

  lemma Less(a: int, b: int, c: int)
    requires c > 0
    ensures a < b <==> a * c < b * c
    ensures a <= b <==> a * c <= b * c
  {
  }

  lemma Shift(q: int, o: int, b: int)
    requires 0 <= o <= 1 && b > 0
    ensures q * b <= (q + o) * b <= q * b + b
  {
  }

  /** q is k * short / long, for a long side cut down to k. */
  lemma QuotientBelow(long: int, short: int, k: int, q: int)
    requires 0 < short <= long && 0 <= k < long && q * long <= k * short < q * long + long
    ensures 0 <= q < short && q <= k
  {
    Less(k, long, short);
    Less(q, short, long);
    assert q * long < short * long;
    assert k * short <= k * long;
    Less(k, q, long);
    Less(q, 0, long);
    if q <= -1 {
      Less(q, -1, long);
    }
  }

  /** r is a fair copy of s: its long side is 4096 at most, neither side grew, the long side is still
      the longer one, the proportions are kept to within one unit of the short side, and both sides are
      even if the long side changed while otherwise neither changed. */
  predicate Faithful(s: Sides, r: Sides) {
    && 0 <= r.short <= r.long <= MAXIMUM_LCD_LONG_SIDE && r.long <= s.long && r.short <= s.short
    && (if r.long != s.long then r.long % 2 == 0 && r.short % 2 == 0 else r == s)
    && -s.long <= r.short * s.long - r.long * s.short <= s.long
  }

  lemma ShrunkIsFaithful(s: Sides, k: nat, q: int)
    requires Positive(s) && k < s.long && k % 2 == 0 && k <= 4096
    requires q * s.long <= k * s.short < q * s.long + s.long
    ensures 0 <= q <= k && Odd(k) == 0 && Faithful(s, Sides(k, q + Odd(q)))
  {
    QuotientBelow(s.long, s.short, k, q);
    Shift(q, Odd(q), s.long);
  }

  lemma ShrunkBounds(s: Sides, k: nat)
    requires Positive(s)
    ensures Shrunk(s, k).short * s.long <= k * s.short < Shrunk(s, k).short * s.long + s.long
  {
    QuotientBounds(k * s.short, s.long);
  }

  lemma ShrunkFits(s: Sides, k: nat)
    requires Positive(s) && k < s.long && k % 2 == 0 && k <= 4096
    ensures Evened(Shrunk(s, k)).long == k
    ensures 0 <= Shrunk(s, k).short <= k
    ensures Faithful(s, Evened(Shrunk(s, k)))
  {
    ShrunkBounds(s, k);
    var q := Shrunk(s, k).short;
    ShrunkIsFaithful(s, k, q);
    assert Evened(Shrunk(s, k)) == Sides(k, q + Odd(q));
  }

  /** 512 * long / short stays two below long, so that making it even does not bring it back. */
  lemma FlooredBelow(long: int, short: int, m: int)
    requires 512 < short <= long && 513 < long && m * short <= 512 * long < m * short + short
    ensures 512 <= m < long - 1
  {
    Less(513, short, long - 1);
    assert (long - 1) * short >= (long - 1) * 513 > 512 * long;
    Less(m, long - 1, short);
    Less(512, m + 1, short);
    assert (m + 1) * short == m * short + short;
    assert 512 * short <= 512 * long;
  }

  lemma FlooredIsFaithful(s: Sides, m: int)
    requires Positive(s) && 512 < s.short && 513 < s.long && m <= 4096
    requires m * s.short <= 512 * s.long < m * s.short + s.short
    ensures 512 <= m < s.long && Faithful(s, Sides(m + Odd(m), 512))
  {
    FlooredBelow(s.long, s.short, m);
    Shift(m, Odd(m), s.short);
  }

  lemma FlooredFits(s: Sides)
    requires Positive(s) && 512 < s.short && 513 < s.long
    requires Floored(s).long <= 4096
    ensures 512 <= Floored(s).long < s.long
    ensures Faithful(s, Evened(Floored(s)))
  {
    QuotientBounds(512 * s.long, s.short);
    FlooredIsFaithful(s, Floored(s).long);
  }

  lemma CapNeedsLength(s: Sides)
    requires Positive(s) && 512 <= s.short && Floored(s).long > 4096
    ensures 4097 * s.short <= 512 * s.long && s.long > 4096 && Shrunk(s, 4096).short < 512
  {
    var m, q := Floored(s).long, Shrunk(s, 4096).short;
    QuotientBounds(512 * s.long, s.short);
    Less(4096, m, s.short);
    Less(4097, m, s.short);
    QuotientBounds(4096 * s.short, s.long);
    Less(q, 512, s.long);
  }

  lemma FlooredAt512(s: Sides)
    requires Positive(s) && s.short == 512
    ensures Floored(s) == s
  {
  }

  lemma WholeIsFaithful(s: Sides)
    requires Positive(s)
    ensures Faithful(s, Whole(s))
  {
    if s.long <= 1920 {
    } else if s.short < 512 || Shrunk(s, 1920).short >= 512 {
      ShrunkFits(s, 1920);
    } else if Floored(s).long <= 4096 {
      if s.short == 512 {
        FlooredAt512(s);
      } else {
        FlooredFits(s);
      }
    } else {
      CapNeedsLength(s);
      ShrunkFits(s, 4096);
    }
  }

  /** Positive sizes always come out as a fair copy. */
  lemma ResizedIsFaithful(s: Sides)
    requires Positive(s)
    ensures Usable(s) && Faithful(s, Resized(s))
  {
    ResizedIsFitted(s);
    WholeIsFaithful(s);
  }

  /** What the call aims at: 1920 for the long side; if that would cut a short side of 512 or more below
      512, then 512 for the short side; and if that would leave the long side above 4096, then 4096 for
      it. */
  lemma ResizedAimsAt(s: Sides)
    requires Positive(s) && s.long > 1920
    ensures Usable(s)
    ensures var r := Resized(s);
      if s.short < 512 || 512 * s.long <= 1920 * s.short then r.long == 1920
      else if 512 * s.long < 4097 * s.short then r.short == 512
      else r.long == 4096
  {
    ResizedIsFitted(s);
    QuotientAtLeast(1920 * s.short, s.long, 512);
    QuotientAtLeast(512 * s.long, s.short, 4097);
  }

  /** The same for a picture of any orientation: positive sizes are accepted; the longer side stays the
      longer one; nothing grows or ends above 4096; and sizes up to 1920 are left alone. */
  lemma PictureIsFaithful(width: int, height: int, w: int, h: int)
    requires width > 0 && height > 0
    requires Usable(SidesOf(width, height)) ==>
      (if height > width then Sides(h, w) else Sides(w, h)) == Resized(SidesOf(width, height))
    ensures Usable(SidesOf(width, height))
    ensures 0 <= w <= width && 0 <= h <= height && w <= 4096 && h <= 4096
    ensures (width >= height ==> w >= h) && (height >= width ==> h >= w)
    ensures width <= 1920 && height <= 1920 ==> w == width && h == height
  {
    ResizedIsFaithful(SidesOf(width, height));
    FixedExactlyWhen(SidesOf(width, height));
    if width == height {
      SquareStaysSquare(SidesOf(width, height));
    }
  }

  /** A square goes to 1920 by 1920. */
  lemma SquareStaysSquare(s: Sides)
    requires Positive(s) && s.long == s.short
    ensures Usable(s) && Resized(s).long == Resized(s).short
  {
    ResizedIsFitted(s);
    QuotientAtLeast(1920 * s.short, s.long, 1920);
    QuotientAtLeast(1920 * s.short, s.long, 1921);
  }

  // ---------------------------------------------------------------------------------------------
  // Resizing twice
  // ---------------------------------------------------------------------------------------------

  lemma QuotientAtLeast(a: nat, b: nat, t: nat)
    requires b > 0
    ensures a / b >= t <==> t * b <= a
  {
    QuotientBounds(a, b);
    Less(t, a / b, b);
    Less(t, a / b + 1, b);
    assert (a / b + 1) * b == (a / b) * b + b;
  }

  lemma FittedCollapses(s: Sides)
    requires Positive(s)
    ensures Fitted(s).short >= 0
    ensures Fitted(s).short == 0 <==> s.long > (if s.short < 512 then 1920 else 4096) * s.short
  {
    QuotientAtLeast(1920 * s.short, s.long, 512);
    QuotientAtLeast(512 * s.long, s.short, 4097);
    if s.short < 512 {
      QuotientAtLeast(1920 * s.short, s.long, 0);
      QuotientAtLeast(1920 * s.short, s.long, 1);
    } else {
      QuotientAtLeast(4096 * s.short, s.long, 0);
      QuotientAtLeast(4096 * s.short, s.long, 1);
    }
  }

  /** The short side comes out as zero exactly when the sides are further apart than the scaling can
      keep. */
  lemma CollapsesExactlyWhen(s: Sides)
    requires Positive(s)
    ensures Usable(s)
    ensures Resized(s).short == 0 <==> s.long > (if s.short < 512 then 1920 else 4096) * s.short
  {
    ResizedIsFitted(s);
    FittedCollapses(s);
  }

  lemma FixedWhole(s: Sides)
    requires Positive(s)
    ensures Whole(s) == s <==> s.long <= 1920 || (s.short == 512 && s.long <= 4096)
  {
    if s.long > 1920 {
      QuotientAtLeast(1920 * s.short, s.long, 512);
      if s.short < 512 || Shrunk(s, 1920).short >= 512 {
      } else if Floored(s).long > 4096 {
        CapNeedsLength(s);
      } else if s.short == 512 {
        FlooredAt512(s);
      } else {
        FlooredFits(s);
      }
    }
    if s.long > 4096 && s.short == 512 {
      FlooredAt512(s);
    }
  }

  /** The sizes the call leaves alone. */
  lemma FixedExactlyWhen(s: Sides)
    requires Positive(s)
    ensures Usable(s)
    ensures Resized(s) == s <==> s.long <= 1920 || (s.short == 512 && s.long <= 4096)
  {
    ResizedIsFitted(s);
    FixedWhole(s);
  }

  /** The cap was hit, and what it left of the short side is neither 512 nor zero. */
  predicate CutShort(s: Sides) {
    512 <= s.short && 4096 * s.short < 511 * s.long && s.long <= 4096 * s.short
  }

  /** The sides are of a kind that a second call changes. */
  predicate Unsettled(r: Sides) {
    r.short != 0 && !(r.long <= 1920 || (r.short == 512 && r.long <= 4096))
  }

  lemma FlooredIsSettled(s: Sides)
    requires Positive(s) && s.long > 1920 && 512 <= s.short && Shrunk(s, 1920).short < 512 && Floored(s).long <= 4096
    ensures !CutShort(s) && !Unsettled(Whole(s))
  {
    WholeIsFaithful(s);
    QuotientAtLeast(512 * s.long, s.short, 4097);
  }

  lemma EvenedIsSettledExactlyWhen(q: nat)
    requires q < 512
    ensures Unsettled(Evened(Sides(4096, q))) <==> 1 <= q < 511
  {
  }

  lemma CappedIsSettledExactlyWhen(s: Sides)
    requires Positive(s) && s.long > 1920 && 512 <= s.short && Shrunk(s, 1920).short < 512 && Floored(s).long > 4096
    ensures Unsettled(Whole(s)) <==> CutShort(s)
  {
    CapNeedsLength(s);
    assert Whole(s) == Evened(Shrunk(s, 4096));
    CutShortIs(s, Shrunk(s, 4096).short);
    EvenedIsSettledExactlyWhen(Shrunk(s, 4096).short);
  }

  lemma CutShortIs(s: Sides, q: int)
    requires Positive(s) && 512 <= s.short && q == Shrunk(s, 4096).short
    ensures q >= 0 && (CutShort(s) <==> 1 <= q < 511)
  {
    QuotientAtLeast(4096 * s.short, s.long, 0);
    QuotientAtLeast(4096 * s.short, s.long, 1);
    QuotientAtLeast(4096 * s.short, s.long, 511);
  }

  lemma WholeIsFixedOrCut(s: Sides)
    requires Positive(s)
    ensures CutShort(s) <==> Unsettled(Whole(s))
  {
    if s.long <= 1920 || s.short < 512 {
    } else if Shrunk(s, 1920).short >= 512 {
      QuotientAtLeast(1920 * s.short, s.long, 512);
    } else if Floored(s).long <= 4096 {
      FlooredIsSettled(s);
    } else {
      CappedIsSettledExactlyWhen(s);
    }
  }

  /** A second call leaves the sizes as the first one left them, by changing nothing or by refusing
      them, except after the cap has cut the short side below 512 without wiping it out. */
  lemma TwiceIsOnceExactlyWhen(s: Sides)
    requires Positive(s)
    ensures Usable(s)
    ensures (Usable(Resized(s)) ==> Resized(Resized(s)) == Resized(s)) <==> !CutShort(s)
  {
    ResizedIsFitted(s);
    WholeIsFaithful(s);
    WholeIsFixedOrCut(s);
    var r := Whole(s);
    if r.short != 0 {
      FixedExactlyWhen(r);
    }
  }
}
