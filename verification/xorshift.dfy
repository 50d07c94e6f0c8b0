/** Marsaglia's xorshift32 generator with the 13/17/5 shift triple: one
    32-bit word of state, overwritten by every draw with the value drawn.

    A `u32` word is modelled bit by bit: bit i (weight 2^i) is `w.bits[i]`. A
    left shift by k moves bit i - k to bit i and fills the low k bits with
    zeros; a right shift moves bit i + k to bit i and fills the top k bits
    with zeros; xor is bitwise. */
module Xorshift {

  const WORD_BITS: nat := 32

  /** A string of bits, least significant first. */
  datatype Bits = Bits(bits: seq<bool>)

  /** A `u32`: exactly 32 bits. */
  type Word = w: Bits | |w.bits| == WORD_BITS
    witness Bits(seq(WORD_BITS, i => false))

  const ZERO: Word := Bits(seq(WORD_BITS, i => false))

  /** Bit i of a word, reading zero at every position outside it. */
  predicate Bit(w: Word, i: int) {
    0 <= i < WORD_BITS && w.bits[i]
  }

  /** `a ^ b`. */
  function Xor(a: Word, b: Word): Word {
    Bits(seq(WORD_BITS, i requires 0 <= i < WORD_BITS => a.bits[i] != b.bits[i]))
  }

  /** `a << k` on 32 bits: the top k bits fall off. */
  function Shl(a: Word, k: nat): Word {
    Bits(seq(WORD_BITS, i requires 0 <= i < WORD_BITS => i >= k && a.bits[i - k]))
  }

  /** `a >> k` on an unsigned 32-bit word: zeros come in at the top. */
  function Shr(a: Word, k: nat): Word {
    Bits(seq(WORD_BITS, i requires 0 <= i < WORD_BITS => i + k < WORD_BITS && a.bits[i + k]))
  }

  /** The generator's global state `xorshift_state`. */
  datatype Generator = Generator(a: Word)

  /** `x ^= x << 13`. */
  function ShiftLeft13(x: Word): Word { Xor(x, Shl(x, 13)) }

  /** `x ^= x >> 17`. */
  function ShiftRight17(x: Word): Word { Xor(x, Shr(x, 17)) }

  /** `x ^= x << 5`. */
  function ShiftLeft5(x: Word): Word { Xor(x, Shl(x, 5)) }

  /** The state update of one `xorshift32` call. */
  function Step(x: Word): Word {
    ShiftLeft5(ShiftRight17(ShiftLeft13(x)))
  }

  /** Inverse of `ShiftLeft13`: the bits below position 13 are already
      right, and each further round of 13 fixes 13 more. */
  function UnshiftLeft13(y: Word): Word {
    Xor(Xor(y, Shl(y, 13)), Shl(y, 26))
  }

  /** Inverse of `ShiftRight17`: the top 17 bits are already right, and one
      round fixes the remaining 15. */
  function UnshiftRight17(y: Word): Word {
    Xor(y, Shr(y, 17))
  }

  /** Inverse of `ShiftLeft5`: seven rounds of 5 cover the 32 bits. */
  function UnshiftLeft5(y: Word): Word {
    Xor(Xor(Xor(Xor(Xor(Xor(y, Shl(y, 5)), Shl(y, 10)), Shl(y, 15)), Shl(y, 20)), Shl(y, 25)), Shl(y, 30))
  }

  // Each inverse is checked bit by bit: bit i of the composition is an xor
  // of bits of the input in which every bit but bit i occurs twice.

  lemma Left13Inverse(x: Word)
    ensures UnshiftLeft13(ShiftLeft13(x)) == x
  {
    var z := UnshiftLeft13(ShiftLeft13(x));
    forall i | 0 <= i < WORD_BITS
      ensures z.bits[i] == x.bits[i]
    {
    }
    assert z.bits == x.bits;
  }

  lemma Left13Section(y: Word)
    ensures ShiftLeft13(UnshiftLeft13(y)) == y
  {
    var z := ShiftLeft13(UnshiftLeft13(y));
    forall i | 0 <= i < WORD_BITS
      ensures z.bits[i] == y.bits[i]
    {
    }
    assert z.bits == y.bits;
  }

  /** `ShiftRight17` undoes itself. */
  lemma Right17Involution(x: Word)
    ensures UnshiftRight17(ShiftRight17(x)) == x
    ensures ShiftRight17(UnshiftRight17(x)) == x
  {
    var z := UnshiftRight17(ShiftRight17(x));
    forall i | 0 <= i < WORD_BITS
      ensures z.bits[i] == x.bits[i]
    {
    }
    assert z.bits == x.bits;
  }

  lemma Left5Inverse(x: Word)
    ensures UnshiftLeft5(ShiftLeft5(x)) == x
  {
    var z := UnshiftLeft5(ShiftLeft5(x));
    forall i | 0 <= i < WORD_BITS
      ensures z.bits[i] == x.bits[i]
    {
      Left5InverseBit(x, i);
    }
    assert z.bits == x.bits;
  }

  /** One round of undoing `x ^= x << s`: if bit i of `a` is bit i of x xor
      bit i - k of x, xoring in bit i - k of `x ^ (x << s)` moves the second
      bit down to i - k - s. */
  lemma UnshiftRound(x: Word, s: nat, a: Word, k: nat, i: int)
    requires 0 <= i < WORD_BITS
    requires a.bits[i] == (Bit(x, i) != Bit(x, i - k))
    ensures Xor(a, Shl(Xor(x, Shl(x, s)), k)).bits[i] == (Bit(x, i) != Bit(x, i - k - s))
  {
  }

  /** Seven rounds take the second bit below the word. */
  lemma Left5InverseBit(x: Word, i: int)
    requires 0 <= i < WORD_BITS
    ensures UnshiftLeft5(ShiftLeft5(x)).bits[i] == x.bits[i]
  {
    var y := ShiftLeft5(x);
    var a1 := Xor(y, Shl(y, 5));
    var a2 := Xor(a1, Shl(y, 10));
    var a3 := Xor(a2, Shl(y, 15));
    var a4 := Xor(a3, Shl(y, 20));
    var a5 := Xor(a4, Shl(y, 25));
    UnshiftRound(x, 5, y, 5, i);
    UnshiftRound(x, 5, a1, 10, i);
    UnshiftRound(x, 5, a2, 15, i);
    UnshiftRound(x, 5, a3, 20, i);
    UnshiftRound(x, 5, a4, 25, i);
    UnshiftRound(x, 5, a5, 30, i);
  }

  lemma Left5Section(y: Word)
    ensures ShiftLeft5(UnshiftLeft5(y)) == y
  {
    var z := ShiftLeft5(UnshiftLeft5(y));
    forall i | 0 <= i < WORD_BITS
      ensures z.bits[i] == y.bits[i]
    {
    }
    assert z.bits == y.bits;
  }

  /** The inverse of the state update. */
  function Unstep(y: Word): Word {
    UnshiftLeft13(UnshiftRight17(UnshiftLeft5(y)))
  }

  /** The state update is a bijection on 32-bit words: `Unstep` undoes it on
      both sides, so no two states share a successor. */
  lemma StepBijective(x: Word, y: Word)
    ensures Unstep(Step(x)) == x
    ensures Step(Unstep(y)) == y
    ensures Step(x) == Step(y) ==> x == y
  {
    var a := ShiftLeft13(x);
    Left5Inverse(ShiftRight17(a));
    Right17Involution(a);
    Left13Inverse(x);
    var b := UnshiftLeft5(y);
    Left13Section(UnshiftRight17(b));
    Right17Involution(b);
    Left5Section(y);
    if Step(x) == Step(y) {
      var a' := ShiftLeft13(y);
      Left5Inverse(ShiftRight17(a'));
      Right17Involution(a');
      Left13Inverse(y);
    }
  }

  /** Zero is a fixed point of the update, and it is the only state that
      reaches zero, so a nonzero state never becomes zero. */
  lemma ZeroOnlyFixedAtZero(x: Word)
    ensures Step(x) == ZERO <==> x == ZERO
  {
    StepBijective(x, ZERO);
    ZeroStep();
  }

  lemma ZeroStep()
    ensures Step(ZERO) == ZERO
  {
    var a := ShiftLeft13(ZERO);
    assert a.bits == ZERO.bits;
    var b := ShiftRight17(a);
    assert b.bits == ZERO.bits;
    var c := ShiftLeft5(b);
    assert c.bits == ZERO.bits;
  }

  /** The native `uint32_t` a word stands for: bit i of the word has weight
      2^i. The bit-sequence form is what the inverse proofs reason about; this
      map ties it back to the machine word the C code operates on. */
  function ToBv(w: Word): bv32 {
    (if w.bits[0] then 0x1 else 0)
    | (if w.bits[1] then 0x2 else 0)
    | (if w.bits[2] then 0x4 else 0)
    | (if w.bits[3] then 0x8 else 0)
    | (if w.bits[4] then 0x10 else 0)
    | (if w.bits[5] then 0x20 else 0)
    | (if w.bits[6] then 0x40 else 0)
    | (if w.bits[7] then 0x80 else 0)
    | (if w.bits[8] then 0x100 else 0)
    | (if w.bits[9] then 0x200 else 0)
    | (if w.bits[10] then 0x400 else 0)
    | (if w.bits[11] then 0x800 else 0)
    | (if w.bits[12] then 0x1000 else 0)
    | (if w.bits[13] then 0x2000 else 0)
    | (if w.bits[14] then 0x4000 else 0)
    | (if w.bits[15] then 0x8000 else 0)
    | (if w.bits[16] then 0x10000 else 0)
    | (if w.bits[17] then 0x20000 else 0)
    | (if w.bits[18] then 0x40000 else 0)
    | (if w.bits[19] then 0x80000 else 0)
    | (if w.bits[20] then 0x100000 else 0)
    | (if w.bits[21] then 0x200000 else 0)
    | (if w.bits[22] then 0x400000 else 0)
    | (if w.bits[23] then 0x800000 else 0)
    | (if w.bits[24] then 0x1000000 else 0)
    | (if w.bits[25] then 0x2000000 else 0)
    | (if w.bits[26] then 0x4000000 else 0)
    | (if w.bits[27] then 0x8000000 else 0)
    | (if w.bits[28] then 0x10000000 else 0)
    | (if w.bits[29] then 0x20000000 else 0)
    | (if w.bits[30] then 0x40000000 else 0)
    | (if w.bits[31] then 0x80000000 else 0)
  }

  /** The body of `xorshift32` on a native 32-bit word, as the C code writes it. */
  function StepBv(v: bv32): bv32 {
    var x := v ^ (v << 13);
    var y := x ^ (x >> 17);
    y ^ (y << 5)
  }

  /** A known answer: seeded with 1, the first draw is 0x00042021, both for
      the bitwise model and for the C expression on a native word. */
  lemma KnownAnswer()
    ensures var one := Bits(seq(WORD_BITS, i => i == 0));
            ToBv(one) == 1 && ToBv(Step(one)) == 0x0004_2021 && StepBv(1) == 0x0004_2021
  {
    var one := Bits(seq(WORD_BITS, i => i == 0));
    var x1 := ShiftLeft13(one);
    assert forall i | 0 <= i < WORD_BITS :: x1.bits[i] == (i == 0 || i == 13);
    var x2 := ShiftRight17(x1);
    assert forall i | 0 <= i < WORD_BITS :: x2.bits[i] == (i == 0 || i == 13);
    var x3 := ShiftLeft5(x2);
    assert forall i | 0 <= i < WORD_BITS :: x3.bits[i] == (i == 0 || i == 5 || i == 13 || i == 18);
    ToBvOne(one);
    ToBvFirstDraw(x3);
  }

  /** The word with only bit 0 set is the number 1. */
  lemma ToBvOne(w: Word)
    requires forall i | 0 <= i < WORD_BITS :: w.bits[i] == (i == 0)
    ensures ToBv(w) == 1
  {
  }

  /** The word with bits 0, 5, 13 and 18 set is 0x00042021. */
  lemma ToBvFirstDraw(w: Word)
    requires forall i | 0 <= i < WORD_BITS :: w.bits[i] == (i == 0 || i == 5 || i == 13 || i == 18)
    ensures ToBv(w) == 0x0004_2021
  {
  }

  /** `set_xorshift32_seed`: the state becomes the seed. */
  function SetSeed(seed: Word): (g: Generator)
    ensures Unstep(Next(g).1) == seed
  {
    Generator(seed)
  }

  /** `xorshift32`: advance the state and return the new state. */
  function Next(g: Generator): (r: (Generator, Word))
    ensures r.0.a == r.1
    ensures Unstep(r.1) == g.a
  {
    StepBijective(g.a, ZERO);
    var x := Step(g.a);
    (Generator(x), x)
  }

  // The orbit of the generator is reasoned about for an arbitrary update
  // `f`, so that the proofs never look inside the bit-level update.

  /** The state after n applications of `f` to `a`. */
  function Orbit<T>(f: T -> T, a: T, n: nat): T {
    if n == 0 then a else f(Orbit(f, a, n - 1))
  }

  /** Applying `f` i + 1 times is applying it once and then i times. */
  lemma {:induction false} OrbitShift<T>(f: T -> T, a: T, i: nat)
    ensures Orbit(f, f(a), i) == Orbit(f, a, i + 1)
  {
    if i > 0 {
      OrbitShift(f, a, i - 1);
    }
  }

  /** A value that is the only preimage of itself is reached exactly from
      itself. */
  lemma {:induction false} OrbitFixed<T>(f: T -> T, z: T, a: T, n: nat)
    requires forall x :: f(x) == z <==> x == z
    ensures Orbit(f, a, n) == z <==> a == z
  {
    if n > 0 {
      OrbitFixed(f, z, a, n - 1);
    }
  }

  /** The values `f(a)`, `f(f(a))`, ... of n successive updates. */
  function Trace<T>(f: T -> T, a: T, n: nat): (r: seq<T>)
    ensures |r| == n
  {
    if n == 0 then [] else [f(a)] + Trace(f, f(a), n - 1)
  }

  /** The i-th value of the trace is the state after i + 1 updates. */
  lemma {:induction false} TraceOrbit<T>(f: T -> T, a: T, n: nat)
    ensures forall i :: 0 <= i < n ==> Trace(f, a, n)[i] == Orbit(f, a, i + 1)
  {
    if n > 0 {
      TraceOrbit(f, f(a), n - 1);
      forall i | 0 <= i < n
        ensures Trace(f, a, n)[i] == Orbit(f, a, i + 1)
      {
        OrbitShift(f, a, i);
      }
    }
  }

  /** One more update appends the next state to the trace. */
  lemma {:induction false} TraceSnoc<T>(f: T -> T, a: T, n: nat)
    ensures Trace(f, a, n + 1) == Trace(f, a, n) + [Orbit(f, a, n + 1)]
  {
    if n > 0 {
      TraceSnoc(f, f(a), n - 1);
      OrbitShift(f, a, n);
    }
  }

  /** Reference definition: the state after n updates of `a`. */
  function Iterate(a: Word, n: nat): Word {
    Orbit(Step, a, n)
  }

  /** The values returned by n successive `xorshift32` calls. */
  function Draws(g: Generator, n: nat): (out: seq<Word>)
    ensures |out| == n
  {
    Trace(Step, g.a, n)
  }

  /** Drawing n + 1 values is one call of `xorshift32` followed by n draws
      from the generator it leaves behind. */
  lemma DrawsNext(g: Generator, n: nat)
    ensures Draws(g, n + 1) == [Next(g).1] + Draws(Next(g).0, n)
  {
  }

  /** The i-th draw after seeding with `seed` is the seed updated i + 1
      times: the whole output is a function of the seed. */
  lemma DrawsIterate(seed: Word, n: nat)
    ensures forall i :: 0 <= i < n ==> Draws(SetSeed(seed), n)[i] == Iterate(seed, i + 1)
  {
    TraceOrbit(Step, seed, n);
  }

  /** A zero seed draws zeros forever; any other seed never draws zero. */
  lemma ZeroIffZeroSeed(seed: Word, n: nat)
    ensures Iterate(seed, n) == ZERO <==> seed == ZERO
  {
    forall x: Word
      ensures Step(x) == ZERO <==> x == ZERO
    {
      ZeroOnlyFixedAtZero(x);
    }
    OrbitFixed(Step, ZERO, seed, n);
  }

  /** Seed the generator and draw n values, as a caller of the two
      functions does. */
  method Run(seed: Word, n: nat) returns (g: Generator, out: seq<Word>)
    ensures out == Draws(SetSeed(seed), n)
    ensures g.a == Iterate(seed, n)
  {
    g := SetSeed(seed);
    out := [];
    var i := 0;
    while i < n
      invariant 0 <= i <= n
      invariant g.a == Iterate(seed, i)
      invariant out == Draws(SetSeed(seed), i)
    {
      TraceSnoc(Step, seed, i);
      var r := Next(g);
      g := r.0;
      out := out + [r.1];
      i := i + 1;
    }
  }
}
