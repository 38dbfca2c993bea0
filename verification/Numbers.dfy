// Machine widths, saturating arithmetic and the division facts that the
// media-time modules build on.
module Numbers {

  const U16_MAX := 0xFFFF
  const U32_MAX := 0xFFFF_FFFF
  const U64_MAX := 0xFFFF_FFFF_FFFF_FFFF
  const I64_MAX := 0x7FFF_FFFF_FFFF_FFFF
  const I64_MIN := -0x8000_0000_0000_0000
  const I128_MAX := 0x7FFF_FFFF_FFFF_FFFF_FFFF_FFFF_FFFF_FFFF

  // A 64-bit target: `usize` and `u64` have the same range.
  const USIZE_MAX := U64_MAX

  const NANOS_PER_SECOND := 1_000_000_000

  type u8 = x: int | 0 <= x < 256
  type u16 = x: int | 0 <= x <= U16_MAX
  type u32 = x: int | 0 <= x <= U32_MAX
  type u64 = x: int | 0 <= x <= U64_MAX
  type pos = x: int | 0 < x witness 1

  function Min(a: int, b: int): int { if a <= b then a else b }

  function Max(a: int, b: int): int { if a >= b then a else b }

  // `u64::saturating_add`.
  function SaturatingAdd(a: u64, b: nat): u64 { Min(a + b, U64_MAX) }

  // `u64::saturating_sub`.
  function SaturatingSub(a: nat, b: nat): nat { if a >= b then a - b else 0 }

  function Quotient(a: nat, b: pos): nat { a / b }

  // `div_ceil` on naturals.
  function DivCeil(a: nat, b: pos): nat { (a + b - 1) / b }

  // The floor of a quotient, without division.
  lemma DivAtLeast(a: int, b: pos, q: int)
    ensures a / b >= q <==> a >= q * b
  {
    assert a == b * (a / b) + a % b;
    if a / b >= q {
      assert b * (a / b) >= b * q;
    } else {
      assert a / b + 1 <= q;
      assert b * (a / b + 1) <= b * q;
    }
  }

  lemma DivBelow(a: int, b: pos, q: int)
    ensures a / b < q <==> a < q * b
  {
    DivAtLeast(a, b, q);
  }

  // A quotient is pinned down by the two inequalities around it.
  lemma DivUnique(a: int, b: pos, q: int)
    requires q * b <= a < (q + 1) * b
    ensures a / b == q && a % b == a - q * b
  {
    DivAtLeast(a, b, q);
    DivBelow(a, b, q + 1);
    assert a == b * (a / b) + a % b;
  }

  lemma DivBounds(a: int, b: pos)
    ensures (a / b) * b <= a < (a / b) * b + b
  {
    assert a == b * (a / b) + a % b;
  }

  lemma DivMonotone(a: int, b: int, d: pos)
    requires a <= b
    ensures a / d <= b / d
  {
    DivBounds(a, d);
    DivAtLeast(b, d, a / d);
  }

  lemma MulMonotone(a: int, b: int, c: nat)
    requires a <= b
    ensures a * c <= b * c
  {
  }

  // The ceiling of a quotient is the least value whose multiple covers it.
  lemma CeilAtMost(a: nat, b: pos, q: nat)
    ensures DivCeil(a, b) <= q <==> a <= q * b
  {
    DivBelow(a + b - 1, b, q + 1);
    assert (q + 1) * b == q * b + b;
  }

  // Dividing in two steps is dividing by the product.
  lemma DivDiv(a: nat, b: pos, c: pos)
    ensures b * c > 0
    ensures a / b / c == a / (b * c)
  {
    var q := a / b / c;
    DivBounds(a / b, c);
    DivBounds(a, b);
    assert b * c > 0;
    assert (q * c) * b <= (a / b) * b by { MulMonotone(q * c, a / b, b); }
    assert (a / b + 1) * b <= (q * c + c) * b by { MulMonotone(a / b + 1, q * c + c, b); }
    assert q * (b * c) <= a < (q + 1) * (b * c);
    DivUnique(a, b * c, q);
  }

  // Adding a whole number of divisors moves the quotient by that number.
  lemma DivShift(a: int, k: int, b: pos)
    ensures (a + k * b) / b == a / b + k
    ensures (a + k * b) % b == a % b
  {
    DivBounds(a, b);
    assert (a / b + k) * b == (a / b) * b + k * b;
    assert (a / b + k + 1) * b == (a / b) * b + b + k * b;
    DivUnique(a + k * b, b, a / b + k);
    DivUnique(a, b, a / b);
  }

  // Adding numerators adds quotients and remainders, with one carry.
  lemma DivAdd(a: nat, s: nat, d: pos)
    ensures var carried := a % d + s % d;
      && (a + s) / d == a / d + s / d + (if carried >= d then 1 else 0)
      && (a + s) % d == (if carried >= d then carried - d else carried)
  {
    var carried := a % d + s % d;
    assert a + s == d * (a / d) + d * (s / d) + carried;
    DivShift(carried, a / d + s / d, d);
    assert (a / d + s / d) * d == d * (a / d) + d * (s / d);
    if carried >= d {
      DivUnique(carried, d, 1);
    } else {
      DivUnique(carried, d, 0);
    }
  }
}
