// Video formats, reduced frame rates and RGBA frames
// (crates/obs-rs-media/src/time.rs, format.rs, frame.rs).
module VideoFormats {
  import opened Numbers
  import opened Results

  const MAX_PIXELS := 16_777_216

  datatype MediaError = InvalidFrameRate | ZeroDimension | FrameTooLarge | BufferSize(expected: nat, actual: nat)

  // `greatest_common_divisor`.
  function Gcd(a: nat, b: nat): nat
    decreases b
  {
    if b == 0 then a else Gcd(b, a % b)
  }

  lemma {:induction false} GcdScale(k: pos, a: nat, b: nat)
    ensures k * a >= 0 && k * b >= 0
    ensures Gcd(k * a, k * b) == k * Gcd(a, b)
    decreases b
  {
    if b > 0 {
      assert k * b > 0;
      ModScale(k, a, b);
      GcdScale(k, b, a % b);
    }
  }

  lemma ModScale(k: pos, a: nat, b: pos)
    ensures k * b > 0 && (k * a) % (k * b) == k * (a % b)
  {
    DivBounds(a, b);
    assert k * b > 0;
    assert a == b * (a / b) + a % b;
    assert k * a == (a / b) * (k * b) + k * (a % b);
    MulMonotone(a % b + 1, b, k);
    assert (a / b + 1) * (k * b) == (a / b) * (k * b) + k * b;
    DivUnique(k * a, k * b, a / b);
  }

  // The greatest common divisor divides both arguments.
  lemma {:induction false} GcdFactors(a: nat, b: nat) returns (x: nat, y: nat)
    requires a > 0 || b > 0
    ensures Gcd(a, b) > 0 && a == x * Gcd(a, b) && b == y * Gcd(a, b)
    decreases b
  {
    GcdStep(a, b);
    hide Gcd;
    if b == 0 {
      x, y := 1, 0;
    } else {
      var u, v := GcdFactors(b, a % b);
      x := Combine(a, b, u, v, Gcd(a, b));
      y := u;
    }
  }

  lemma GcdStep(a: nat, b: nat)
    ensures Gcd(a, b) == if b == 0 then a else Gcd(b, a % b)
  {
  }

  // A divisor of `b` and of the remainder divides `a`.
  lemma Combine(a: nat, b: pos, u: nat, v: nat, g: nat) returns (x: nat)
    requires b == u * g && a % b == v * g
    ensures a == x * g
  {
    var q := a / b;
    assert a == b * q + a % b;
    Distribute(q, u, v, g);
    x := q * u + v;
  }

  lemma Distribute(q: nat, u: nat, v: nat, g: nat)
    ensures q * u + v >= 0
    ensures (q * u + v) * g == (u * g) * q + v * g
  {
    assert (q * u) * g == (u * g) * q;
  }

  datatype RawFrameRate = FrameRate(numerator: u32, denominator: u32)

  type FrameRate = r: RawFrameRate | r.numerator > 0 && r.denominator > 0 && Gcd(r.numerator, r.denominator) == 1
    witness FrameRate(1, 1)

  // Dividing by the greatest common divisor leaves coprime components.
  lemma ReducedComponents(n: pos, d: pos)
    ensures var g := Gcd(n, d);
      g > 0 && 0 < n / g <= n && 0 < d / g <= d && Gcd(n / g, d / g) == 1
  {
    var g := Gcd(n, d);
    var x, y := GcdFactors(n, d);
    hide Gcd;
    QuotientOf(n, g, x);
    QuotientOf(d, g, y);
    ScaledGcd(g, x, y, n, d);
    CancelFactor(g, Gcd(x, y));
  }

  lemma ScaledGcd(g: pos, x: nat, y: nat, n: nat, d: nat)
    requires n == x * g && d == y * g
    ensures Gcd(n, d) == g * Gcd(x, y)
  {
    GcdScale(g, x, y);
    assert g * x == n && g * y == d;
  }

  lemma QuotientOf(n: pos, g: pos, x: nat)
    requires n == x * g
    ensures n / g == x && 0 < x <= n
  {
    DivUnique(n, g, x) by { assert (x + 1) * g == x * g + g; }
    if x == 0 {
      assert false;
    } else {
      MulMonotone(1, g, x);
    }
  }

  lemma CancelFactor(g: pos, x: nat)
    requires g == g * x
    ensures x == 1
  {
    if x == 0 {
      assert false;
    } else if x > 1 {
      MulMonotone(2, x, g);
      assert false;
    }
  }

  function NewFrameRate(numerator: u32, denominator: u32): (r: Result<FrameRate, MediaError>)
    ensures r.Err? <==> numerator == 0 || denominator == 0
  {
    if numerator == 0 || denominator == 0 then Err(InvalidFrameRate)
    else
      ReducedComponents(numerator, denominator);
      var divisor := Gcd(numerator, denominator);
      Ok(FrameRate(numerator / divisor, denominator / divisor))
  }

  // Rebuilding a rate from its components is the identity.
  lemma RebuildFrameRate(rate: FrameRate)
    ensures NewFrameRate(rate.numerator, rate.denominator) == Ok(rate)
  {
    assert rate.numerator / 1 == rate.numerator && rate.denominator / 1 == rate.denominator;
  }

  // Two fractions are read as the same rate exactly when they are equal.
  lemma SameRateExactly(numerator: u32, denominator: u32, rate: FrameRate)
    ensures NewFrameRate(numerator, denominator) == Ok(rate) <==>
      numerator > 0 && denominator > 0 && numerator * rate.denominator == denominator * rate.numerator
  {
    if numerator > 0 && denominator > 0 {
      var x, y := GcdFactors(numerator, denominator);
      var g := Gcd(numerator, denominator);
      hide Gcd;
      QuotientOf(numerator, g, x);
      QuotientOf(denominator, g, y);
      if numerator * rate.denominator == denominator * rate.numerator {
        CrossScaled(numerator, denominator, rate.numerator, rate.denominator);
        DivUnique(numerator, g, rate.numerator) by { NextMultiple(rate.numerator, g); }
        DivUnique(denominator, g, rate.denominator) by { NextMultiple(rate.denominator, g); }
      }
      if x == rate.numerator && y == rate.denominator {
        CrossProduct(x, y, g);
      }
    }
  }

  lemma NextMultiple(q: nat, g: pos)
    ensures q * g < (q + 1) * g
  {
    assert (q + 1) * g == q * g + g;
  }

  lemma CrossProduct(x: nat, y: nat, g: nat)
    ensures (x * g) * y == (y * g) * x
  {
  }

  // `k` times one pair is `l` times the other: so are their divisors.
  lemma SameScaled(k: pos, n: nat, d: nat, l: pos, a: nat, b: nat)
    requires k * n == l * a && k * d == l * b
    ensures k * Gcd(n, d) == l * Gcd(a, b)
  {
    hide Gcd;
    GcdScale(k, n, d);
    GcdScale(l, a, b);
  }

  // Equal fractions, one of them reduced: the other one is a multiple of it.
  lemma CrossScaled(n: pos, d: pos, a: pos, b: pos)
    requires n * b == d * a && Gcd(a, b) == 1
    ensures n == a * Gcd(n, d) && d == b * Gcd(n, d)
  {
    hide Gcd;
    Commutes(n, b);
    Commutes(d, b);
    SameScaled(b, n, d, d, a, b);
    Commutes(n, a);
    Commutes(a, d);
    SameScaled(a, n, d, n, a, b);
  }

  lemma Commutes(x: nat, y: nat)
    ensures x * y == y * x
  {
  }

  // `period_nanos().unwrap_or(1).max(1)`: the components are too small for a missing period.
  function PeriodNanos(rate: FrameRate): pos {
    Max(Quotient(NANOS_PER_SECOND * rate.denominator, rate.numerator), 1)
  }

  datatype RawVideoFormat = VideoFormat(width: u32, height: u32, frameRate: FrameRate)
  {
    function RgbaBytes(): nat { width * height * 4 }
  }

  type VideoFormat = f: RawVideoFormat | f.width > 0 && f.height > 0 && f.width * f.height <= MAX_PIXELS
    witness VideoFormat(1, 1, FrameRate(1, 1))

  function NewVideoFormat(width: u32, height: u32, frameRate: FrameRate): Result<VideoFormat, MediaError> {
    if width == 0 || height == 0 then Err(ZeroDimension)
    else if width * height > MAX_PIXELS then Err(FrameTooLarge)
    else Ok(VideoFormat(width, height, frameRate))
  }

  datatype RawVideoFrame = VideoFrame(format: VideoFormat, timestamp: u64, pixels: seq<u8>)

  type VideoFrame = f: RawVideoFrame | |f.pixels| == f.format.RgbaBytes()
    witness VideoFrame(VideoFormat(1, 1, FrameRate(1, 1)), 0, [0, 0, 0, 0])
}
