/** Util.cpp: the 48-bit linear congruential generator `Random` (the
    `java.util.Random` recurrence, Knuth TAOCP Vol. 2 section 3.2.1), the
    process-wide seed uniquifier, and `clamp`. The generator's state is threaded
    through pure functions: every draw returns its value and the next state. */
module Util {

  const Multiplier: int := 0x5DEECE66D
  const Addend: int := 0xB
  /** 2^48: the state is `seed & mask` with `mask = 2^48 - 1`. */
  const Modulus: int := 0x1_0000_0000_0000
  const Two32: int := 0x1_0000_0000
  const Two64: int := 0x1_0000_0000_0000_0000

  /** The `seed` field of a Random instance, always below 2^48. */
  type State = s: int | 0 <= s < Modulus
  type Uint32 = n: int | 0 <= n < Two32
  type Uint64 = n: int | 0 <= n < Two64

  /** One draw: the value returned and the generator state afterwards. */
  datatype Draw = Draw(value: int, state: State)

  function Pow2(n: nat): (p: nat)
    ensures p >= 1
  {
    if n == 0 then 1 else 2 * Pow2(n - 1)
  }

  /** C++ conversion of an integer to a 32-bit two's-complement `int`. */
  function ToInt32(v: int): (r: int)
    ensures -0x8000_0000 <= r < 0x8000_0000
    ensures (r - v) % Two32 == 0
  {
    var u := v % Two32;
    if u >= 0x8000_0000 then u - Two32 else u
  }

  /** initialScramble(seed) = (seed ^ multiplier) & mask, on uint64. */
  function InitialScramble(seed: bv64): State {
    ((seed ^ 0x5_DEEC_E66D) & 0xFFFF_FFFF_FFFF) as bv48 as int
  }

  /** Random(seed): a fresh generator. */
  function Create(seed: bv64): State {
    InitialScramble(seed)
  }

  /** setSeed(seed): the previous state is forgotten entirely, so the
      generator is in the state a fresh `Random(seed)` starts in. */
  function SetSeed(s: State, seed: bv64): (r: State)
    ensures r == Create(seed)
  {
    InitialScramble(seed)
  }

  /** Only the low 48 bits of a seed matter: seeds that agree on them build
      generators in the same state, hence with identical draw sequences. */
  lemma SeedHighBitsIgnored(a: bv64, b: bv64)
    requires a & 0xFFFF_FFFF_FFFF == b & 0xFFFF_FFFF_FFFF
    ensures Create(a) == Create(b)
  {
    assert (a ^ 0x5_DEEC_E66D) & 0xFFFF_FFFF_FFFF == (b ^ 0x5_DEEC_E66D) & 0xFFFF_FFFF_FFFF;
  }

  /** The state update of next(): `(seed * multiplier + addend) & mask`,
      computed as the C++ does, in uint64 arithmetic that wraps at 2^64. */
  function Step(s: State): (r: State)
    ensures r == (s * Multiplier + Addend) % Modulus
  {
    ModOfMod(s * Multiplier, s * Multiplier + Addend);
    (((s * Multiplier) % Two64 + Addend) % Two64) % Modulus
  }

  /** Reducing mod 2^64 first does not change a residue mod 2^48, because 2^48
      divides 2^64; here for the wrapped product plus the addend. */
  lemma ModOfMod(p: int, q: int)
    requires p >= 0 && q == p + Addend
    ensures ((p % Two64 + Addend) % Two64) % Modulus == q % Modulus
  {
    var a := p % Two64 + Addend;
    ModMod(a, 0x1_0000);
    assert a % Modulus == q % Modulus by {
      assert p % Two64 == p - (p / Two64) * Two64;
      assert a == q - (p / Two64) * 0x1_0000 * Modulus;
      MultipleOfModulus(q, (p / Two64) * 0x1_0000);
    }
  }

  /** (a mod (k*2^48)) mod 2^48 == a mod 2^48. */
  lemma ModMod(a: int, k: int)
    requires k > 0
    ensures (a % (k * Modulus)) % Modulus == a % Modulus
  {
    var q := a / (k * Modulus);
    assert a % (k * Modulus) == a - (q * k) * Modulus;
    MultipleOfModulus(a, q * k);
  }

  lemma MultipleOfModulus(q: int, k: int)
    ensures (q - k * Modulus) % Modulus == q % Modulus
  {
  }

  /** Advancing the generator `n` times. */
  function Advance(s: State, n: nat): State
    decreases n
  {
    if n == 0 then s else Advance(Step(s), n - 1)
  }

  /** next(bits): advance the state once and return its top `bits` bits,
      converted to a (32-bit) int. For up to 31 bits no conversion wrap occurs. */
  function Next(s: State, bits: int): (d: Draw)
    requires 0 <= bits <= 48
    ensures d.state == Step(s)
    ensures bits <= 31 ==> 0 <= d.value < Pow2(bits)
    ensures bits <= 31 ==> d.value * Pow2(48 - bits) <= d.state < (d.value + 1) * Pow2(48 - bits)
  {
    var t := Step(s);
    var top := t / Pow2(48 - bits);
    if bits <= 31 then
      TopBitsBound(t, bits);
      Draw(ToInt32(top), t)
    else
      Draw(ToInt32(top), t)
  }

  lemma Pow2Add(a: nat, b: nat)
    ensures Pow2(a + b) == Pow2(a) * Pow2(b)
  {
    if a > 0 {
      Pow2Add(a - 1, b);
    }
  }

  lemma TopBitsBound(t: State, bits: int)
    requires 0 <= bits <= 31
    ensures 0 <= t / Pow2(48 - bits) < Pow2(bits)
    ensures ToInt32(t / Pow2(48 - bits)) == t / Pow2(48 - bits)
    ensures var q := t / Pow2(48 - bits); q * Pow2(48 - bits) <= t < (q + 1) * Pow2(48 - bits)
  {
    DivBracket(t, Pow2(48 - bits));
    Pow2Add(48 - bits, bits);
    Pow2Is48();
    DivBelow(t, Pow2(48 - bits), Pow2(bits));
    Pow2Monotone(bits, 31);
    Pow2Is31();
  }

  lemma DivBracket(t: int, p: int)
    requires p > 0 && t >= 0
    ensures (t / p) * p <= t < (t / p + 1) * p
  {
  }

  /** Integer division of a value below p*k by p yields a quotient below k. */
  lemma DivBelow(t: int, p: int, k: int)
    requires p > 0 && 0 <= t < p * k
    ensures 0 <= t / p < k
  {
  }

  lemma Pow2Monotone(a: nat, b: nat)
    requires a <= b
    ensures Pow2(a) <= Pow2(b)
  {
    if a < b {
      Pow2Monotone(a, b - 1);
    }
  }

  lemma Pow2Is31()
    ensures Pow2(31) == 0x8000_0000
  {
    assert Pow2(8) == 256;
    assert Pow2(7) == 128;
    Pow2Add(8, 8);
    assert Pow2(16) == 0x1_0000;
    Pow2Add(8, 7);
    assert Pow2(15) == 0x8000;
    Pow2Add(16, 15);
  }

  lemma Pow2Is48()
    ensures Pow2(48) == Modulus
  {
    assert Pow2(8) == 256;
    Pow2Add(8, 8);
    assert Pow2(16) == 0x1_0000;
    Pow2Add(16, 16);
    assert Pow2(32) == 0x1_0000_0000;
    Pow2Add(16, 32);
  }

  /** nextInt(): `next(32)` reinterpreted as uint32, i.e. the top 32 bits of
      the new state. */
  function NextUint(s: State): (d: Draw)
    ensures d.state == Step(s)
    ensures 0 <= d.value < Two32
    ensures d.value * 0x1_0000 <= d.state < (d.value + 1) * 0x1_0000
  {
    var n := Next(s, 32);
    assert Pow2(16) == 0x1_0000 by { Pow2Add(8, 8); assert Pow2(8) == 256; }
    var v := n.state / 0x1_0000;
    DivBelow(n.state, 0x1_0000, Two32);
    ToInt32Unsigned(v);
    Draw(n.value % Two32, n.state)
  }

  /** Reading a converted 32-bit int back as uint32 restores the value. */
  lemma ToInt32Unsigned(v: int)
    requires 0 <= v < Two32
    ensures ToInt32(v) % Two32 == v
  {
  }

  /** Bitwise AND of two non-negative integers, as `&` on unsigned values. */
  function BitAnd(a: nat, b: nat): nat {
    if a == 0 || b == 0 then 0 else 2 * BitAnd(a / 2, b / 2) + (a % 2) * (b % 2)
  }

  /** n is a power of two (1, 2, 4, ...). */
  predicate IsPow2(n: int)
    decreases if n < 0 then 0 else n
  {
    n == 1 || (n > 1 && n % 2 == 0 && IsPow2(n / 2))
  }

  /** The test `(bound & (bound - 1)) == 0` recognises exactly the powers of two
      among positive bounds. */
  lemma {:induction false} PowerOfTwoTest(n: int)
    requires n >= 1
    ensures BitAnd(n, n - 1) == 0 <==> IsPow2(n)
  {
    if n == 1 {
    } else if n % 2 == 0 {
      PowerOfTwoTest(n / 2);
      assert BitAnd(n, n - 1) == 2 * BitAnd(n / 2, (n - 1) / 2);
    } else {
      assert BitAnd(n, n - 1) == 2 * BitAnd(n / 2, n / 2) + 0;
      BitAndSelf(n / 2);
    }
  }

  lemma {:induction false} BitAndSelf(a: nat)
    ensures BitAnd(a, a) == a
  {
    if a != 0 {
      BitAndSelf(a / 2);
    }
  }

  /** The rejection test `u - r + m < 0` of nextInt(bound) is evaluated on
      uint32 operands, so it wraps modulo 2^32 and is never true: the retry
      loop that java.util.Random has is dead here. */
  predicate RejectionTest(u: Uint32, r: Uint32, m: Uint32) {
    (u - r + m) % Two32 < 0
  }

  lemma RejectionNeverFires(u: Uint32, r: Uint32, m: Uint32)
    ensures !RejectionTest(u, r, m)
  {
  }

  /** The same test as Java evaluates it, on signed 32-bit ints: it rejects a
      draw that falls in the last, incomplete block of multiples of `bound`. */
  predicate JavaRejectionTest(u: Uint32, r: Uint32, m: Uint32) {
    ToInt32(u - r + m) < 0
  }

  /** A draw that java.util.Random would reject and this generator keeps:
      with bound 96, the draw 2147483616 is accepted here as 0. */
  lemma DeadLoopDiffersFromJava()
    ensures var u, bound := 2147483616, 96;
      JavaRejectionTest(u, u % bound, bound - 1) && !RejectionTest(u, u % bound, bound - 1)
  {
  }

  /** nextInt(bound), bound an unsigned 32-bit value. It makes exactly one
      `next(31)` draw. A power of two (and 0, which passes the same bit test)
      scales the draw; any other bound takes it modulo `bound`. */
  function NextInt(s: State, bound: Uint32): (d: Draw)
    ensures d.state == Step(s)
    ensures bound > 0 ==> 0 <= d.value < bound
    ensures bound == 0 ==> d.value == 0
    ensures IsPow2(bound) ==> d.value == bound * Next(s, 31).value / Pow2(31)
    ensures bound > 0 && !IsPow2(bound) ==> d.value == Next(s, 31).value % bound
  {
    var r := Next(s, 31);
    var m := (bound - 1) % Two32;
    Pow2Is31();
    BitTestIsPow2(bound, m);
    if BitAnd(bound, m) == 0 then
      ScaleBelow(bound, r.value);
      Draw((bound * r.value / 0x8000_0000) % Two32, r.state)
    else
      Draw(r.value % bound, r.state)
  }

  lemma BitTestIsPow2(bound: Uint32, m: int)
    requires m == (bound - 1) % Two32
    ensures BitAnd(bound, m) == 0 <==> bound == 0 || IsPow2(bound)
  {
    if bound > 0 {
      assert m == bound - 1;
      PowerOfTwoTest(bound);
    }
  }

  lemma ScaleBelow(bound: Uint32, v: int)
    requires 0 <= v < 0x8000_0000
    ensures 0 <= bound * v / 0x8000_0000 <= bound
    ensures bound > 0 ==> bound * v / 0x8000_0000 < bound
    ensures (bound * v / 0x8000_0000) % Two32 == bound * v / 0x8000_0000
  {
    assert bound * v <= bound * 0x8000_0000;
    if bound > 0 {
      assert bound * v < bound * 0x8000_0000;
    }
  }

  /** A pair of ints, for nextIVec2. */
  datatype IVec2 = IVec2(x: int, y: int)

  /** nextIVec2(magnitude): two `nextInt(2*magnitude)` draws in order, each
      shifted down by the magnitude. */
  function NextIVec2(s: State, magnitude: int): (r: (IVec2, State))
    requires 0 <= magnitude && 2 * magnitude < 0x8000_0000
    ensures magnitude > 0 ==> -magnitude <= r.0.x < magnitude && -magnitude <= r.0.y < magnitude
    ensures magnitude == 0 ==> r.0 == IVec2(0, 0)
    ensures r.0.x == NextInt(s, 2 * magnitude).value - magnitude
    ensures r.0.y == NextInt(Advance(s, 1), 2 * magnitude).value - magnitude
    ensures r.1 == Advance(s, 2)
  {
    var a := NextInt(s, 2 * magnitude);
    var b := NextInt(a.state, 2 * magnitude);
    (IVec2(a.value - magnitude, b.value - magnitude), b.state)
  }

  /** nextLong(), with the two `next(32)` operands evaluated left to right:
      the first draw, sign-extended to uint64 and shifted, supplies the high
      word; the second, sign-extended, is added. The low word is therefore
      exactly the second draw's 32 bits. */
  function NextLong(s: State): (r: (Uint64, State))
    ensures r.1 == Advance(s, 2)
    ensures r.0 % Two32 == Next(Step(s), 32).value % Two32
  {
    var hi := Next(s, 32);
    var lo := Next(hi.state, 32);
    var hi64 := (hi.value % Two64) * Two32 % Two64;
    LowWordOfSum(hi.value % Two64, lo.value);
    ((hi64 + lo.value % Two64) % Two64, lo.state)
  }

  lemma LowWordOfSum(h: nat, l: int)
    ensures ((h * Two32 % Two64) + l % Two64) % Two64 % Two32 == l % Two32
  {
    var a, b := h * Two32 % Two64, l % Two64;
    Mod64Mod32(a + b);
    Mod64Mod32(l);
    var q := h * Two32 / Two64;
    assert a == (h - q * 0x1_0000_0000) * 0x1_0000_0000;
    AddMultipleOf32(b, h - q * 0x1_0000_0000);
  }

  /** 2^32 divides 2^64, so reducing mod 2^64 first keeps the low word. */
  lemma Mod64Mod32(x: int)
    ensures x % Two64 % Two32 == x % Two32
  {
    var q := x / 0x1_0000_0000_0000_0000;
    assert x % Two64 == x + (-q * 0x1_0000_0000) * 0x1_0000_0000;
    AddMultipleOf32(x, -q * 0x1_0000_0000);
  }

  lemma AddMultipleOf32(x: int, j: int)
    ensures (j * 0x1_0000_0000 + x) % Two32 == x % Two32
    ensures (x + j * 0x1_0000_0000) % Two32 == x % Two32
  {
  }

  /** The seed-uniquifier's multiplier (L'Ecuyer 1999) and its inverse modulo
      2^64; the initial uniquifier value. */
  const UniquifierMultiplier: int := 181783497276652981
  const UniquifierInverse: int := 18157677516117559453
  const InitialUniquifier: Uint64 := 8682522807148012

  /** uniqueSeed(): in a single-threaded run the compare-and-retry loop exits
      on its first pass, storing and returning `uniquifier * multiplier`
      modulo 2^64. Returns the seed and the new uniquifier. */
  function UniqueSeed(u: Uint64): (r: (Uint64, Uint64))
    ensures r.0 == r.1
    ensures (r.1 * UniquifierInverse) % Two64 == u
  {
    var n := (u * UniquifierMultiplier) % Two64;
    InverseUndoes(u);
    (n, n)
  }

  lemma InverseUndoes(u: Uint64)
    ensures ((u * UniquifierMultiplier) % Two64 * UniquifierInverse) % Two64 == u
  {
    var p := u * UniquifierMultiplier;
    var q := p / Two64;
    assert p % Two64 == p - q * Two64;
    assert (UniquifierMultiplier * UniquifierInverse) % Two64 == 1;
    var k := (UniquifierMultiplier * UniquifierInverse) / Two64;
    assert UniquifierMultiplier * UniquifierInverse == k * Two64 + 1;
    calc {
      (p % Two64) * UniquifierInverse;
      (p - q * Two64) * UniquifierInverse;
      u * (UniquifierMultiplier * UniquifierInverse) - q * UniquifierInverse * Two64;
      u * (k * Two64 + 1) - q * UniquifierInverse * Two64;
      u + (u * k - q * UniquifierInverse) * Two64;
    }
    MultipleOfTwo64(u, u * k - q * UniquifierInverse);
  }

  lemma MultipleOfTwo64(u: Uint64, j: int)
    ensures (u + j * Two64) % Two64 == u
  {
  }

  /** Successive unique seeds never repeat a value for two different previous
      uniquifiers: the update is a bijection of the 64-bit values. */
  lemma UniqueSeedInjective(a: Uint64, b: Uint64)
    requires UniqueSeed(a).0 == UniqueSeed(b).0
    ensures a == b
  {
  }

  /** clamp(val, min, max). An empty or inverted range is reported (on
      stdout, not modelled) and leaves `val` untouched. */
  function Clamp(val: real, min: real, max: real): (r: real)
    ensures min >= max ==> r == val
    ensures min < max ==> min <= r <= max
    ensures min < max && min <= val <= max ==> r == val
    ensures min < max && val < min ==> r == min
    ensures min < max && val > max ==> r == max
  {
    if min >= max then val
    else if val < min then min
    else if val > max then max
    else val
  }
}
