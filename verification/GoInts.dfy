/**
 The integer operations of the Go source. Go's `/` truncates toward zero,
 while Dafny's `/` on int is Euclidean, so windows that reach before 1970
 need the source's operator written out.

 Stored buckets are natural numbers, on which the two operators agree; the
 lemmas about hours and minutes that the other modules share are here, next to
 the operators.
 */
module GoInts {

  const MINUTE: int := 60
  const HOUR: int := 3600
  const TWO32: int := 0x1_0000_0000

  function Larger(a: int, b: int): int {
    if a < b then b else a
  }

  /** Go's a / b for a positive divisor. */
  function Div(a: int, b: int): (q: int)
    requires b > 0
  {
    if a >= 0 then a / b else -((-a) / b)
  }

  /** Go's a % b for a positive divisor: it takes the sign of a. */
  function Mod(a: int, b: int): (r: int)
    requires b > 0
  {
    a - Div(a, b) * b
  }

  /** (t / step) * step, which rounds toward zero. */
  function TruncTo(t: int, step: int): (r: int)
    requires step > 0
  {
    Div(t, step) * step
  }

  /** q and r are the Euclidean quotient and remainder when they look like it. */
  lemma QuotientUnique(x: int, step: int, q: int, r: int)
    requires step > 0 && x == q * step + r && 0 <= r < step
    ensures x / step == q && x % step == r
  {
    var q', r' := x / step, x % step;
    assert x == q' * step + r';
    assert (q - q') * step == r' - r by {
      assert (q - q') * step == q * step - q' * step;
    }
    GapIsAStep(q - q', step);
  }

  lemma GapIsAStep(d: int, step: int)
    requires step > 0
    ensures d > 0 ==> d * step >= step
    ensures d < 0 ==> d * step <= -step
  {
    if d > 0 { assert (d - 1) * step >= 0; assert d * step == (d - 1) * step + step; }
    if d < 0 { assert (-d - 1) * step >= 0; assert d * step == -((-d - 1) * step) - step; }
  }

  /** TruncTo lands on a multiple of step less than one step away, on zero's side. */
  lemma TruncToBounds(t: int, step: int)
    requires step > 0
    ensures TruncTo(t, step) % step == 0
    ensures t >= 0 ==> TruncTo(t, step) <= t < TruncTo(t, step) + step
    ensures t <= 0 ==> TruncTo(t, step) - step < t <= TruncTo(t, step)
    ensures t % step == 0 <==> TruncTo(t, step) == t
  {
    if t >= 0 {
      FloorBounds(t, step);
    } else {
      TruncToBelowZero(-t, step);
    }
  }

  lemma TruncToBelowZero(u: int, step: int)
    requires step > 0 && u > 0
    ensures TruncTo(-u, step) == -((u / step) * step)
    ensures TruncTo(-u, step) % step == 0
    ensures TruncTo(-u, step) - step < -u <= TruncTo(-u, step)
    ensures (-u) % step == 0 <==> TruncTo(-u, step) == -u
  {
    FloorBounds(u, step);
    var k, r := u / step, u % step;
    NegateProduct(k, step);
    QuotientUnique(-(k * step), step, -k, 0);
    if r == 0 {
      assert -u == -(k * step);
    } else {
      assert (-k - 1) * step == (-k) * step - step;
      QuotientUnique(-u, step, -k - 1, step - r);
    }
  }

  lemma NegateProduct(k: int, step: int)
    ensures (-k) * step == -(k * step)
  {
  }

  lemma FloorBounds(u: nat, step: int)
    requires step > 0
    ensures (u / step) * step == u - u % step
    ensures ((u / step) * step) % step == 0
    ensures 0 <= u % step < step
  {
    var k, r := u / step, u % step;
    assert u == k * step + r;
    QuotientUnique(k * step, step, k, 0);
  }

  /** The hour bucket that holds a stored minute. */
  function HourOf(bucket: nat): (h: nat)
    ensures h % HOUR == 0
    ensures h <= bucket < h + HOUR
  {
    (bucket / HOUR) * HOUR
  }

  /** Only one hour bucket holds a given second. */
  lemma HourUnique(h: int, t: nat)
    requires h % HOUR == 0 && h <= t < h + HOUR
    ensures h == HourOf(t)
  {
  }

  /** Hour boundaries are minute boundaries. */
  lemma HoursAreMinutes(t: int)
    ensures t % HOUR == 0 ==> t % MINUTE == 0
  {
    if t % HOUR == 0 {
      var k := t / HOUR;
      assert t == 60 * (60 * k);
    }
  }

  lemma MinutesApart(a: int, b: int)
    requires a % MINUTE == 0 && b % MINUTE == 0 && a < b
    ensures a + MINUTE <= b
  {
    var x, y := a / 60, b / 60;
    assert a == 60 * x && b == 60 * y;
  }

  lemma HoursApart(a: int, b: int)
    requires a % HOUR == 0 && b % HOUR == 0 && a < b
    ensures a + HOUR <= b
  {
    var x, y := a / 3600, b / 3600;
    assert a == 3600 * x && b == 3600 * y;
  }
}
