/** Marsaglia's KISS combinational generators, src/kiss.c.
 *
 *  Each generator adds three sub-generators modulo 2^w: a linear congruential
 *  generator, a 3-shift shift-register generator and a multiply-with-carry
 *  (or add-with-carry) generator.  The congruential and carry arithmetic is
 *  written over integers with the wrap-around of `uint32_t`/`uint64_t` made
 *  explicit; the shift-register steps work on the bit-vector view of a word.
 */
module Kiss {

  const Two31: int := 0x8000_0000
  const Two32: int := 0x1_0000_0000
  const Two58: int := 0x400_0000_0000_0000
  const Two64: int := 0x1_0000_0000_0000_0000

  /** An unsigned 32-bit word, as `uint32_t` holds it. */
  type U32 = x: int | 0 <= x < 0x1_0000_0000

  /** An unsigned 64-bit word, as `uint64_t` holds it. */
  type U64 = x: int | 0 <= x < 0x1_0000_0000_0000_0000

  /** Multiplier of the kiss32 multiply-with-carry generator; kiss.h bounds its carry by it. */
  const MwcA: int := 698769069

  // ---------------------------------------------------------------------------
  // The 3-shift registers on the bit-vector view of a word.  Each shift-and-xor step
  // has an explicit inverse; composing the inverses undoes the register, so the
  // register is injective and in particular never maps a nonzero word to zero.

  /** The 3-shift register of kiss32 and kiss32a: y ^= y << 13; y ^= y >> 17; y ^= y << 5. */
  function XorShift32(y: bv32): bv32
  {
    var a := y ^ (y << 13);
    var b := a ^ (a >> 17);
    b ^ (b << 5)
  }

  /** Inverse of c ^= c << 13 on 32 bits. */
  function UnShl13x32(c: bv32): bv32 { c ^ (c << 13) ^ (c << 26) }

  /** Inverse of c ^= c >> 17 on 32 bits. */
  function UnShr17x32(c: bv32): bv32 { c ^ (c >> 17) }

  /** Inverse of c ^= c << 5 on 32 bits. */
  function UnShl5x32(c: bv32): bv32 { c ^ (c << 5) ^ (c << 10) ^ (c << 15) ^ (c << 20) ^ (c << 25) ^ (c << 30) }

  /** The inverse of XorShift32: undo the three steps in reverse order. */
  function UnXorShift32(y: bv32): bv32
  {
    UnShl13x32(UnShr17x32(UnShl5x32(y)))
  }

  lemma UnShl13x32Step(y: bv32)
    ensures UnShl13x32(y ^ (y << 13)) == y
  {
  }

  lemma UnShr17x32Step(y: bv32)
    ensures UnShr17x32(y ^ (y >> 17)) == y
  {
  }

  lemma UnShl5x32Step(y: bv32)
    ensures UnShl5x32(y ^ (y << 5)) == y
  {
  }

  lemma XorShift32Unfold(y: bv32)
    ensures XorShift32(y) == (var a := y ^ (y << 13); var b := a ^ (a >> 17); b ^ (b << 5))
  {
  }

  /** Undoing the last step of XorShift32 leaves the state after its second step. */
  lemma {:induction false} XorShift32UndoLast(y: bv32)
    ensures UnShl5x32(XorShift32(y)) == (y ^ (y << 13)) ^ ((y ^ (y << 13)) >> 17)
  {
    XorShift32Unfold(y);
    UnShl5x32Step((y ^ (y << 13)) ^ ((y ^ (y << 13)) >> 17));
  }

  /** Undoing the last two steps of XorShift32 leaves the state after its first step. */
  lemma {:induction false} XorShift32UndoTwo(y: bv32)
    ensures UnShr17x32(UnShl5x32(XorShift32(y))) == y ^ (y << 13)
  {
    XorShift32UndoLast(y);
    UnShr17x32Step(y ^ (y << 13));
  }

  /** UnXorShift32 undoes the register: no two words have the same successor. */
  lemma {:induction false} XorShift32LeftInverse(y: bv32)
    ensures UnXorShift32(XorShift32(y)) == y
  {
    XorShift32UndoTwo(y);
    UnShl13x32Step(y);
  }

  /** The register keeps a nonzero word nonzero, the condition kiss.h puts on the seed. */
  lemma {:induction false} XorShift32NonZero(y: bv32)
    ensures y != 0 <==> XorShift32(y) != 0
  {
    XorShift32LeftInverse(y);
    assert UnXorShift32(0) == 0;
    assert XorShift32(0) == 0;
  }

  /** The 3-shift register of kiss64: y ^= y << 13; y ^= y >> 17; y ^= y << 43. */
  function XorShift64(y: bv64): bv64
  {
    var a := y ^ (y << 13);
    var b := a ^ (a >> 17);
    b ^ (b << 43)
  }

  /** Inverse of c ^= c << 13 on 64 bits. */
  function UnShl13x64(c: bv64): bv64 { c ^ (c << 13) ^ (c << 26) ^ (c << 39) ^ (c << 52) }

  /** Inverse of c ^= c >> 17 on 64 bits. */
  function UnShr17x64(c: bv64): bv64 { c ^ (c >> 17) ^ (c >> 34) ^ (c >> 51) }

  /** Inverse of c ^= c << 43 on 64 bits. */
  function UnShl43x64(c: bv64): bv64 { c ^ (c << 43) }

  /** The inverse of XorShift64. */
  function UnXorShift64(y: bv64): bv64
  {
    UnShl13x64(UnShr17x64(UnShl43x64(y)))
  }

  lemma UnShl13x64Step(y: bv64)
    ensures UnShl13x64(y ^ (y << 13)) == y
  {
  }

  lemma UnShr17x64Step(y: bv64)
    ensures UnShr17x64(y ^ (y >> 17)) == y
  {
  }

  lemma UnShl43x64Step(y: bv64)
    ensures UnShl43x64(y ^ (y << 43)) == y
  {
  }

  lemma XorShift64Unfold(y: bv64)
    ensures XorShift64(y) == (var a := y ^ (y << 13); var b := a ^ (a >> 17); b ^ (b << 43))
  {
  }

  lemma {:induction false} XorShift64UndoLast(y: bv64)
    ensures UnShl43x64(XorShift64(y)) == (y ^ (y << 13)) ^ ((y ^ (y << 13)) >> 17)
  {
    XorShift64Unfold(y);
    UnShl43x64Step((y ^ (y << 13)) ^ ((y ^ (y << 13)) >> 17));
  }

  lemma {:induction false} XorShift64UndoTwo(y: bv64)
    ensures UnShr17x64(UnShl43x64(XorShift64(y))) == y ^ (y << 13)
  {
    XorShift64UndoLast(y);
    UnShr17x64Step(y ^ (y << 13));
  }

  /** UnXorShift64 undoes the 64-bit register. */
  lemma {:induction false} XorShift64LeftInverse(y: bv64)
    ensures UnXorShift64(XorShift64(y)) == y
  {
    XorShift64UndoTwo(y);
    UnShl13x64Step(y);
  }

  /** The 64-bit register keeps a nonzero word nonzero. */
  lemma {:induction false} XorShift64NonZero(y: bv64)
    ensures y != 0 <==> XorShift64(y) != 0
  {
    XorShift64LeftInverse(y);
    assert UnXorShift64(0) == 0;
    assert XorShift64(0) == 0;
  }

  // ---------------------------------------------------------------------------
  // Congruential generators.

  /** kiss32: x := 69069 x + 12345 in uint32_t arithmetic. */
  function Cong32(x: U32): U32
  {
    (69069 * x + 12345) % Two32
  }

  /** The inverse of Cong32; 2783094533 is the inverse of 69069 modulo 2^32. */
  function UnCong32(y: U32): U32
  {
    (2783094533 * (y - 12345)) % Two32
  }

  lemma ModAddMultiple32(x: int, k: int)
    requires 0 <= x < Two32
    ensures (x + k * Two32) % Two32 == x
  {
  }

  lemma ModAddMultiple64(x: int, k: int)
    requires 0 <= x < Two64
    ensures (x + k * Two64) % Two64 == x
  {
  }

  /** The kiss32 congruential step is a bijection on words, so it can reach every word. */
  lemma {:induction false} Cong32RoundTrip(x: U32)
    ensures UnCong32(Cong32(x)) == x
  {
    var q := (69069 * x + 12345) / Two32;
    assert Cong32(x) == 69069 * x + 12345 - q * Two32;
    assert 2783094533 * 69069 == 1 + 44756 * 0x1_0000_0000;
    calc {
      2783094533 * (Cong32(x) - 12345);
      2783094533 * (69069 * x - q * Two32);
      (2783094533 * 69069) * x - 2783094533 * q * Two32;
      x + (44756 * x - 2783094533 * q) * Two32;
    }
    ModAddMultiple32(x, 44756 * x - 2783094533 * q);
  }

  /** kiss32a: x := x + 545925293 in uint32_t arithmetic. */
  function Add32(x: U32): (r: U32)
    ensures (r - 545925293) % Two32 == x
  {
    (x + 545925293) % Two32
  }

  /** kiss64: x := 6906969069 x + 1234567 in uint64_t arithmetic. */
  function Cong64(x: U64): U64
  {
    (6906969069 * x + 1234567) % Two64
  }

  /** The inverse of Cong64; 8575357931815410149 is the inverse of 6906969069 modulo 2^64. */
  function UnCong64(y: U64): U64
  {
    (8575357931815410149 * (y - 1234567)) % Two64
  }

  /** The kiss64 congruential step is a bijection on 64-bit words. */
  lemma {:induction false} Cong64RoundTrip(x: U64)
    ensures UnCong64(Cong64(x)) == x
  {
    var q := (6906969069 * x + 1234567) / Two64;
    assert Cong64(x) == 6906969069 * x + 1234567 - q * Two64;
    assert 8575357931815410149 * 6906969069 == 1 + 3210850205 * 0x1_0000_0000_0000_0000;
    calc {
      8575357931815410149 * (Cong64(x) - 1234567);
      8575357931815410149 * (6906969069 * x - q * Two64);
      (8575357931815410149 * 6906969069) * x - 8575357931815410149 * q * Two64;
      x + (3210850205 * x - 8575357931815410149 * q) * Two64;
    }
    ModAddMultiple64(x, 3210850205 * x - 8575357931815410149 * q);
  }

  // ---------------------------------------------------------------------------
  // Carry generators.  Each returns the new (z, c) pair.

  /** kiss32 multiply-with-carry: t = 698769069 z + c in uint64_t, c := t >> 32, z := (uint32_t) t.
   *  The 64-bit product never wraps, so the step is exact, and the carry bound of kiss.h is kept. */
  function Mwc32(z: U32, c: U32): (r: (U32, U32))
    ensures r.1 * Two32 + r.0 == MwcA * z + c
    ensures c < MwcA ==> r.1 < MwcA
  {
    var t := (MwcA * z + c) % Two64;
    (t % Two32, t / Two32)
  }

  /** kiss32a add-with-carry in uint32_t: t = z + w + c, z := w, c := t >> 31, w := t & 0x7fffffff.
   *  Under the ranges of kiss.h (z, w < 2^31, c <= 1) the 32-bit sum never wraps and the new
   *  carry and word hold the exact sum; the ranges are kept. */
  function Awc32(z: U32, w: U32, c: U32): (r: (U32, U32, U32))
    ensures r.0 == w
    ensures r.1 < Two31 && r.2 <= 1
    ensures z < Two31 && w < Two31 && c <= 1 ==> r.2 * Two31 + r.1 == z + w + c
  {
    var t := (z + w + c) % Two32;
    (w, t % Two31, t / Two31)
  }

  /** `nz < t` after `nz += t` detects exactly the additions that wrap past 2^64. */
  lemma CarryDetection64(z: U64, t: U64)
    ensures ((z + t) % Two64 < t) <==> (z + t >= Two64)
  {
  }

  /** kiss64 multiply-with-carry: t = (z << 58) + c, c := z >> 6, z += t, c += (z < t), all in uint64_t.
   *  With a 58-bit carry this is the exact multiply-with-carry step with multiplier 2^58 + 1.  The
   *  carry bound that the step keeps is c <= 2^58, one more than 58 bits. */
  function Mwc64(z: U64, c: U64): (r: (U64, U64))
    ensures c < Two58 ==> r.1 * Two64 + r.0 == (Two58 + 1) * z + c
    ensures c <= Two58 ==> r.1 <= Two58
  {
    var t := ((z * Two58) % Two64 + c) % Two64;
    var c1 := z / 64;
    var z1 := (z + t) % Two64;
    Mwc64Facts(z, c);
    (z1, c1 + if z1 < t then 1 else 0)
  }

  lemma {:induction false} Mwc64Facts(z: U64, c: U64)
    ensures var t := ((z * Two58) % Two64 + c) % Two64;
            var z1 := (z + t) % Two64;
            var c2 := z / 64 + if z1 < t then 1 else 0;
            (c < Two58 ==> c2 * Two64 + z1 == (Two58 + 1) * z + c) &&
            (c <= Two58 ==> c2 <= Two58)
  {
    var h, l := z / 64, z % 64;
    assert z == 64 * h + l;
    assert z * Two58 == h * Two64 + l * Two58;
    ModAddMultiple64(l * Two58, h);
    assert (z * Two58) % Two64 == l * Two58;
    var t := ((z * Two58) % Two64 + c) % Two64;
    var z1 := (z + t) % Two64;
    CarryDetection64(z, t);
    if c < Two58 {
      assert l * Two58 + c < Two64;
      assert t == l * Two58 + c;
    }
    if c <= Two58 && h == Two58 - 1 && z1 < t {
      // The carry can only be 1 when z + t wraps; with h = 2^58 - 1 that needs t > 63 - l.
      assert h + 1 == Two58;
    }
  }

  /** A state with a 58-bit carry whose successor carry is 2^58: the 58-bit bound is not kept. */
  lemma Mwc64CarryReaches2p58()
    ensures Mwc64(Two64 - 1, Two58 - 64) == (Two64 - 65, Two58)
  {
  }

  /** With carry 2^58 and z = 63 (mod 64), t = (z << 58) + c wraps to 0 and one carry is lost. */
  lemma Mwc64LosesCarryAt2p58()
    ensures var r := Mwc64(Two64 - 65, Two58);
            r.1 * Two64 + r.0 == (Two58 + 1) * (Two64 - 65) + Two58 - Two64
  {
  }

  /** The multiply-with-carry step that kiss64 stands for, computed exactly: x = (2^58 + 1) z + c,
   *  then z := x mod 2^64 and c := x div 2^64.  It keeps a carry of at most 2^58. */
  function Mwc64Exact(z: U64, c: U64): (r: (U64, U64))
    ensures r.1 * Two64 + r.0 == (Two58 + 1) * z + c
    ensures c <= Two58 ==> r.1 <= Two58
  {
    var x := (Two58 + 1) * z + c;
    (x % Two64, x / Two64)
  }

  /** Division by 2^64 leaves a unique quotient and remainder. */
  lemma DivModUnique64(x: int, q: int, r: int)
    requires 0 <= r < Two64 && x == q * Two64 + r
    ensures x / Two64 == q && x % Two64 == r
  {
  }

  /** Below a carry of 2^58 the kiss64 code computes the exact step. */
  lemma {:induction false} Mwc64AgreesBelow2p58(z: U64, c: U64)
    requires c < Two58
    ensures Mwc64(z, c) == Mwc64Exact(z, c)
  {
    var r := Mwc64(z, c);
    DivModUnique64((Two58 + 1) * z + c, r.1, r.0);
  }

  /** At the carry 2^58 that the code itself can produce, it departs from the exact step. */
  lemma Mwc64DiffersAt2p58()
    ensures Mwc64(Two64 - 65, Two58) != Mwc64Exact(Two64 - 65, Two58)
  {
  }

  // ---------------------------------------------------------------------------
  // The generators; the fields are those of the state records of kiss.h.

  /** kiss32: congruential + 3-shift register + 32-bit multiply-with-carry. */
  class Kiss32 {
    var mx: U32
    var my: bv32
    var mz: U32
    var mc: U32

    /** The seed ranges kiss.h demands: 0 < my and 0 <= mc < 698769069. */
    ghost predicate Valid()
      reads this
    {
      my != 0 && mc < MwcA
    }

    constructor (x: U32, y: bv32, z: U32, c: U32)
      requires y != 0 && c < MwcA
      ensures Valid()
      ensures mx == x && my == y && mz == z && mc == c
    {
      mx, my, mz, mc := x, y, z, c;
    }

    /** The initial values of the seeds in kiss.c. */
    constructor Default()
      ensures Valid()
      ensures mx == 123456789 && my == 362436000 && mz == 521288629 && mc == 7654321
    {
      mx, my, mz, mc := 123456789, 362436000, 521288629, 7654321;
    }

    method Next() returns (r: U32)
      requires Valid()
      modifies this
      ensures Valid()
      ensures mx == Cong32(old(mx))
      ensures my == XorShift32(old(my))
      ensures (mz, mc) == Mwc32(old(mz), old(mc))
      ensures r == (mx + my as int + mz) % Two32
    {
      mx := (69069 * mx + 12345) % Two32;

      XorShift32NonZero(my);
      my := XorShift32(my);

      var t := (MwcA * mz + mc) % Two64;
      mc := t / Two32;
      mz := t % Two32;
      r := (mx + my as int + mz) % Two32;
    }
  }

  /** kiss32a: the add-with-carry variant without 64-bit arithmetic.  Its state record
   *  names kiss.c's ax, ay, az, aw, ac as mx, my, mz, mw, mc. */
  class Kiss32a {
    var mx: U32
    var my: bv32
    var mz: U32
    var mw: U32
    var mc: U32

    /** The ranges of kiss.h that every call keeps: 0 < my, mz < 2^31, mw < 2^31, mc in {0, 1}. */
    ghost predicate Valid()
      reads this
    {
      my != 0 && mz < Two31 && mw < Two31 && mc <= 1
    }

    /** kiss.h also asks of a seed that 0 < mw and that mz, mw are not multiples of 7559. */
    constructor (x: U32, y: bv32, z: U32, w: U32, c: U32)
      requires y != 0 && z < Two31 && 0 < w < Two31 && c <= 1
      requires z % 7559 != 0 && w % 7559 != 0
      ensures Valid()
      ensures mx == x && my == y && mz == z && mw == w && mc == c
    {
      mx, my, mz, mw, mc := x, y, z, w, c;
    }

    /** The initial values of the seeds in kiss.c. */
    constructor Default()
      ensures Valid()
      ensures mx == 123456789 && my == 362436069 && mz == 21288629 && mw == 14921776 && mc == 0
    {
      mx, my, mz, mw, mc := 123456789, 362436069, 21288629, 14921776, 0;
    }

    method Next() returns (r: U32)
      requires Valid()
      modifies this
      ensures Valid()
      ensures mx == Add32(old(mx))
      ensures my == XorShift32(old(my))
      ensures (mz, mw, mc) == Awc32(old(mz), old(mw), old(mc))
      ensures mc * Two31 + mw == old(mz) + old(mw) + old(mc)
      ensures r == (mx + my as int + mw) % Two32
    {
      mx := (mx + 545925293) % Two32;

      XorShift32NonZero(my);
      my := XorShift32(my);

      var t := (mz + mw + mc) % Two32;
      mz := mw;
      mc := t / Two31;
      mw := t % Two31;
      r := (mx + my as int + mw) % Two32;
    }
  }

  /** kiss64: congruential + 3-shift register + 64-bit multiply-with-carry. */
  class Kiss64 {
    var mx: U64
    var my: bv64
    var mz: U64
    var mc: U64

    /** What every call keeps: 0 < my and a carry of at most 2^58. */
    ghost predicate Valid()
      reads this
    {
      my != 0 && mc <= Two58
    }

    /** kiss.h asks for a 58-bit carry in the seed. */
    constructor (x: U64, y: bv64, z: U64, c: U64)
      requires y != 0 && c < Two58
      ensures Valid()
      ensures mx == x && my == y && mz == z && mc == c
    {
      mx, my, mz, mc := x, y, z, c;
    }

    /** The initial values of the seeds in kiss.c. */
    constructor Default()
      ensures Valid()
      ensures mx == 1066149217761810 && my == 362436362436362436
      ensures mz == 1234567890987654321 && mc == 123456123456123456
    {
      mx, my := 1066149217761810, 362436362436362436;
      mz, mc := 1234567890987654321, 123456123456123456;
    }

    method Next() returns (r: U64)
      requires Valid()
      modifies this
      ensures Valid()
      ensures mx == Cong64(old(mx))
      ensures my == XorShift64(old(my))
      ensures (mz, mc) == Mwc64(old(mz), old(mc))
      ensures old(mc) < Two58 ==> (mz, mc) == Mwc64Exact(old(mz), old(mc))
      ensures r == (mx + my as int + mz) % Two64
    {
      if mc < Two58 {
        Mwc64AgreesBelow2p58(mz, mc);
      }
      mx := (6906969069 * mx + 1234567) % Two64;

      XorShift64NonZero(my);
      my := XorShift64(my);

      var t := ((mz * Two58) % Two64 + mc) % Two64;
      mc := mz / 64;
      mz := (mz + t) % Two64;
      mc := mc + if mz < t then 1 else 0;
      r := (mx + my as int + mz) % Two64;
    }
  }
}
