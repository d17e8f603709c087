/** The multiply-and-shift division descriptor of
    python/xvram/compat_audit_kernel_ranges.py, and what a kernel computes with it. */
module FastDiv {
  import opened Arithmetic
  import opened Options

  const WORD: nat := 0x1_0000_0000
  const I32_MAX: nat := 0x7fff_ffff

  function Pow2(n: nat): (p: nat)
    ensures p > 0
  {
    if n == 0 then 1 else 2 * Pow2(n - 1)
  }

  /** Python's int.bit_length. */
  function BitLength(n: nat): nat {
    if n == 0 then 0 else 1 + BitLength(n / 2)
  }

  lemma {:induction false} BitLengthTight(n: nat)
    ensures n < Pow2(BitLength(n))
    ensures n > 0 ==> BitLength(n) > 0 && Pow2(BitLength(n) - 1) <= n
  {
    if n > 0 {
      BitLengthTight(n / 2);
    }
  }

  datatype Descriptor = Descriptor(multiplier: nat, shift: nat, divisor: nat)

  /** The multiplier before the mask. */
  function Unmasked(divisor: nat, power: nat): nat
    requires 0 < divisor <= power
  {
    WORD * (power - divisor) / divisor + 1
  }

  function DescriptorOf(divisor: nat): Option<Descriptor> {
    if divisor == 0 || divisor > I32_MAX then None
    else
      var shift := BitLength(divisor - 1);
      BitLengthTight(divisor - 1);
      Some(Descriptor(Unmasked(divisor, Pow2(shift)) % WORD, shift, divisor))
  }

  /** n / divisor as the device evaluates it: the high word of n * multiplier, plus n,
      shifted right. */
  function Evaluate(d: Descriptor, n: nat): nat {
    (n * d.multiplier / WORD + n) / Pow2(d.shift)
  }

  /** The power is less than twice the divisor, so the multiplier fits the word. */
  lemma MaskKeepsAll(divisor: nat)
    requires 0 < divisor <= I32_MAX
    ensures var power := Pow2(BitLength(divisor - 1));
            divisor <= power && power - divisor < divisor && Unmasked(divisor, power) < WORD
  {
    BitLengthTight(divisor - 1);
    var power := Pow2(BitLength(divisor - 1));
    var x := WORD * (power - divisor);
    Remainder(x, divisor);
    if x / divisor >= WORD - 1 {
      MulMonotone(divisor, WORD - 1, x / divisor);
    }
  }

  /** divisor * (multiplier + 2^32) exceeds 2^32 * power by at most the divisor. */
  lemma MultiplierExcess(divisor: nat, power: nat) returns (e: nat)
    requires 0 < divisor <= power
    ensures 0 < e <= divisor
    ensures divisor * (Unmasked(divisor, power) + WORD) == WORD * power + e
  {
    var x := WORD * (power - divisor);
    Remainder(x, divisor);
    e := divisor - (x - divisor * (x / divisor));
    assert divisor * (x / divisor + 1 + WORD) == divisor * (x / divisor) + divisor + divisor * WORD;
    assert x == WORD * power - WORD * divisor;
  }

  /** A quotient span of a quotient span. */
  lemma NestedSpan(x: nat, a: nat, b: nat, y: nat, q: nat)
    requires y * a <= x < (y + 1) * a && q * b <= y < (q + 1) * b
    ensures a * (q * b) <= x < a * ((q + 1) * b)
  {
    MulMonotone(a, q * b, y);
    MulMonotone(a, y + 1, (q + 1) * b);
  }

  lemma Reassociate(a: nat, b: nat, q: nat)
    ensures a * (q * b) == q * (a * b)
  {
  }

  lemma PositiveProduct(a: nat, b: nat)
    requires a > 0 && b > 0
    ensures a * b > 0
  {
  }

  lemma DivideTwice(x: nat, a: nat, b: nat)
    requires a > 0 && b > 0
    ensures a * b > 0 && x / a / b == x / (a * b)
  {
    PositiveProduct(a, b);
    var y := x / a;
    var q := y / b;
    DivSpan(x, a, y);
    DivSpan(y, b, q);
    NestedSpan(x, a, b, y, q);
    Reassociate(a, b, q);
    Reassociate(a, b, q + 1);
    DivSpan(x, a * b, q);
  }

  lemma HighWordPlus(n: nat, m: nat)
    ensures n * m / WORD + n == n * (m + WORD) / WORD
  {
    var q := n * m / WORD;
    Remainder(n * m, WORD);
    assert n * (m + WORD) == n * m + n * WORD;
    DivSpan(n * (m + WORD), WORD, q + n);
  }

  lemma SmallExcess(n: nat, power: nat, e: nat)
    requires e <= power && 0 < power && n < WORD
    ensures n * e < WORD * power
  {
    MulMonotone(n, e, power);
    MulMonotone(power, n + 1, WORD);
  }

  lemma Rearrange(n: nat, divisor: nat, m: nat, z: nat, e: nat)
    requires divisor * m == z + e
    ensures divisor * (n * m) == n * z + n * e
  {
    assert divisor * (n * m) == n * (divisor * m);
  }

  /** With excess e, the scaled product stays inside the right multiple of 2^32 * power. */
  lemma ScaledQuotient(n: nat, divisor: nat, power: nat, m: nat, z: nat, e: nat)
    requires 0 < e <= divisor <= power && n < WORD
    requires z == WORD * power && divisor * m == z + e
    ensures z > 0 && n * m / z == n / divisor
  {
    Remainder(n, divisor);
    SmallExcess(n, power, e);
    Rearrange(n, divisor, m, z, e);
    ScaleDown(divisor, n * m, n, z, n * e, n / divisor);
    DivSpan(n * m, z, n / divisor);
  }

  lemma MulReflects(d: nat, x: nat, y: nat)
    requires d > 0
    ensures d * x < d * y ==> x < y
    ensures d * x <= d * y ==> x <= y
  {
    if x >= y { MulMonotone(d, y, x); }
    if x > y { MulMonotone(d, y + 1, x); }
  }

  lemma ScaleDown(d: nat, x: nat, n: nat, z: nat, r: nat, q: nat)
    requires d > 0 && d * x == n * z + r && r < z
    requires d * q <= n < d * q + d
    ensures q * z <= x < (q + 1) * z
  {
    ScaledBounds(d, x, n, z, r, q);
    MulReflects(d, q * z, x);
    MulReflects(d, x, (q + 1) * z);
  }

  lemma ScaledBounds(d: nat, x: nat, n: nat, z: nat, r: nat, q: nat)
    requires d > 0 && d * x == n * z + r && r < z
    requires d * q <= n < d * q + d
    ensures d * (q * z) <= d * x < d * ((q + 1) * z)
  {
    MulMonotone(z, d * q, n);
    MulMonotone(z, n + 1, d * q + d);
    Reassociate(z, d, q);
    assert z * (d * q) == d * (q * z);
    assert z * (d * q + d) == d * ((q + 1) * z);
  }

  lemma EvaluateExact(divisor: nat, power: nat, n: nat)
    requires 0 < divisor <= power && n < WORD
    ensures (n * Unmasked(divisor, power) / WORD + n) / power == n / divisor
  {
    hide Unmasked;
    var m := Unmasked(divisor, power);
    var e := MultiplierExcess(divisor, power);
    ScaledQuotient(n, divisor, power, m + WORD, WORD * power, e);
    HighWordPlus(n, m);
    DivideTwice(n * (m + WORD), WORD, power);
  }

  /** The mask drops nothing, and the shift is at most 31. */
  lemma DescriptorParts(divisor: nat)
    requires 0 < divisor <= I32_MAX
    ensures var shift := BitLength(divisor - 1);
            && shift <= 31 && divisor <= Pow2(shift) && Unmasked(divisor, Pow2(shift)) < WORD
            && DescriptorOf(divisor) == Some(Descriptor(Unmasked(divisor, Pow2(shift)), shift, divisor))
  {
    hide Unmasked, BitLength, Pow2;
    WordPower();
    MaskKeepsAll(divisor);
    ShiftBound(divisor - 1, 31);
  }

  /** For every accepted divisor the mask loses nothing, the formula is integer division
      on every 32-bit operand, and on signed operands its inner sum fits a word. */
  lemma DescriptorExact(divisor: nat, n: nat)
    requires 0 < divisor <= I32_MAX && n < WORD
    ensures DescriptorOf(divisor).Some?
    ensures var d := DescriptorOf(divisor).value;
            && d.multiplier == Unmasked(divisor, Pow2(d.shift)) && d.shift <= 31
            && Evaluate(d, n) == n / divisor
            && (n <= I32_MAX ==> n * d.multiplier / WORD + n < WORD)
  {
    hide Unmasked, BitLength, Pow2, DescriptorOf;
    DescriptorParts(divisor);
    var power := Pow2(BitLength(divisor - 1));
    EvaluateExact(divisor, power, n);
    InnerSum(n, Unmasked(divisor, power));
  }

  lemma WordPower()
    ensures Pow2(31) == I32_MAX + 1
  {
    assert Pow2(8) == 256;
    assert Pow2(16) == 65536;
    assert Pow2(24) == 16777216;
  }

  lemma InnerSum(n: nat, m: nat)
    requires m < WORD
    ensures n <= I32_MAX ==> n * m / WORD + n < WORD
  {
    MulMonotone(n, m, WORD);
    Remainder(n * m, WORD);
    assert n * m / WORD <= n;
  }

  lemma {:induction false} ShiftBound(n: nat, bits: nat)
    requires n < Pow2(bits)
    ensures BitLength(n) <= bits
  {
    if n > 0 {
      ShiftBound(n / 2, bits - 1);
    }
  }
}
