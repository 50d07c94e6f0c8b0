/** Fixed-width machine integers of the C source, modelled on unbounded `int`,
    with the conversions C performs written out as explicit wrap-around. */
module Machine {

  const TWO_8: int := 0x100
  const TWO_31: int := 0x8000_0000
  const TWO_32: int := 0x1_0000_0000

  type u8 = x: int | 0 <= x < 0x100
  type u32 = x: int | 0 <= x < 0x1_0000_0000
  type i32 = x: int | -0x8000_0000 <= x < 0x8000_0000

  predicate IsI32(v: int) { -TWO_31 <= v < TWO_31 }
  predicate IsU32(v: int) { 0 <= v < TWO_32 }

  /** Conversion to `uint8_t`: reduction modulo 2^8. */
  function WrapU8(v: int): (r: u8)
    ensures (r - v) % TWO_8 == 0
    ensures 0 <= v < TWO_8 ==> r == v
  {
    v % TWO_8
  }

  /** Conversion to `uint32_t`: reduction modulo 2^32. */
  function WrapU32(v: int): (r: u32)
    ensures (r - v) % TWO_32 == 0
    ensures IsU32(v) ==> r == v
  {
    v % TWO_32
  }

  /** Two's-complement conversion to `int32_t`, the wrap-around that 32-bit
      signed arithmetic performs on the target. */
  function WrapI32(v: int): (r: i32)
    ensures (r - v) % TWO_32 == 0
    ensures IsI32(v) ==> r == v
  {
    var m := v % TWO_32;
    if m < TWO_31 then m else m - TWO_32
  }

  /** Two integers that agree modulo 2^32 wrap to the same `int32_t`. */
  lemma WrapI32Congruent(a: int, b: int)
    requires (a - b) % TWO_32 == 0
    ensures WrapI32(a) == WrapI32(b)
  {
    var k := (a - b) / TWO_32;
    assert a == b + k * TWO_32;
    assert a % TWO_32 == b % TWO_32;
  }

  /** Wrapping addition is addition followed by one wrap: adding already
      wrapped operands gives the wrap of the exact sum. */
  lemma WrapI32Add(a: int, b: int)
    ensures WrapI32(WrapI32(a) + WrapI32(b)) == WrapI32(a + b)
  {
    var wa, wb := WrapI32(a), WrapI32(b);
    assert (wa - a) % TWO_32 == 0 && (wb - b) % TWO_32 == 0;
    var ka, kb := (wa - a) / TWO_32, (wb - b) / TWO_32;
    assert wa + wb == a + b + (ka + kb) * TWO_32;
    WrapI32Congruent(wa + wb, a + b);
  }

  /** Storing an `int32_t` in a `uint32_t` and reading it back as `int32_t`
      gives the original value. */
  lemma I32ThroughU32(v: i32)
    ensures WrapI32(WrapU32(v)) == v
  {
    WrapI32Congruent(WrapU32(v), v);
  }

  /** The 32 bits of an `int32_t` in two's complement. */
  function Bits(v: i32): bv32
  {
    WrapU32(v) as bv32
  }

  /** The sign bit of a word is clear exactly when the `int32_t` it encodes
      is non-negative. */
  lemma SignBitClear(v: i32)
    ensures Bits(v) < 0x8000_0000 <==> v >= 0
  {
    if v >= 0 {
      assert WrapU32(v) == v;
    } else {
      assert WrapU32(v) == v + TWO_32;
    }
  }

  /** Multiplying by a non-negative factor preserves order. */
  lemma MulMonotone(w: int, a: int, b: int)
    requires 0 <= w && a <= b
    ensures w * a <= w * b
  {
    assert w * (b - a) >= 0;
  }

  /** Quotient and remainder of floor division by a positive divisor. */
  lemma DivBounds(n: int, d: int)
    requires d > 0
    ensures (n / d) * d <= n < (n / d) * d + d
    ensures n >= 0 ==> n / d >= 0
  {
  }

  /** Floor division is determined by quotient and remainder. */
  lemma FloorUnique(n: int, d: int, q: int, r: int)
    requires d > 0 && q * d + r == n && 0 <= r < d
    ensures n / d == q && n % d == r
  {
    var q' := n / d;
    DivBounds(n, d);
    if q' < q {
      MulMonotone(d, q' + 1, q);
    } else if q' > q {
      MulMonotone(d, q + 1, q');
    }
  }
}

/** The optional value used for the source's nullable pointers. */
module Wrappers {

  datatype Option<+T> = None | Some(value: T)
}
