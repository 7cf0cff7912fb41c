/** L'Ecuyer's combined Tausworthe generators, src/lfsr.c.
 *
 *  Every component of every generator takes one step of the same form,
 *  ((s & m) << d) ^ (((s << a) ^ s) >> b), and a generator returns the XOR of its
 *  updated components.  The mask m of a component clears exactly the low bits that
 *  lfsr.h's seed lower bound covers: a component at or below its bound is stuck
 *  at zero, a component above it stays above it, and the bits below the mask
 *  never influence the step.
 */
module Lfsr {

  /** The TAUSWORTHE(s, a, b, c, d) macro of taus88, on 32-bit words. */
  function Tausworthe32(s: bv32, a: bv32, b: bv32, m: bv32, d: bv32): bv32
    requires a < 32 && b < 32 && d < 32
  {
    ((s & m) << d) ^ (((s << a) ^ s) >> b)
  }

  /** The same step on 64-bit words. */
  function Tausworthe64(s: bv64, a: bv64, b: bv64, m: bv64, d: bv64): bv64
    requires a < 64 && b < 64 && d < 64
  {
    ((s & m) << d) ^ (((s << a) ^ s) >> b)
  }

  /** The `b = ((s << a) ^ s) >> b; s = ((s & m) << d) ^ b;` form of lfsr113, on 32-bit words. */
  function Step32(s: bv32, a: bv32, b: bv32, m: bv32, d: bv32): bv32
    requires a < 32 && b < 32 && d < 32
  {
    var fb := ((s << a) ^ s) >> b;
    ((s & m) << d) ^ fb
  }

  /** The same two-statement form on 64-bit words, as lfsr258 writes it. */
  function Step64(s: bv64, a: bv64, b: bv64, m: bv64, d: bv64): bv64
    requires a < 64 && b < 64 && d < 64
  {
    var fb := ((s << a) ^ s) >> b;
    ((s & m) << d) ^ fb
  }

  lemma Tausworthe32Unfold(s: bv32, a: bv32, b: bv32, m: bv32, d: bv32)
    requires a < 32 && b < 32 && d < 32
    ensures Tausworthe32(s, a, b, m, d) == ((s & m) << d) ^ (((s << a) ^ s) >> b)
  {
  }

  lemma Tausworthe64Unfold(s: bv64, a: bv64, b: bv64, m: bv64, d: bv64)
    requires a < 64 && b < 64 && d < 64
    ensures Tausworthe64(s, a, b, m, d) == ((s & m) << d) ^ (((s << a) ^ s) >> b)
  {
  }

  lemma Step32Unfold(s: bv32, a: bv32, b: bv32, m: bv32, d: bv32)
    requires a < 32 && b < 32 && d < 32
    ensures Step32(s, a, b, m, d) == ((s & m) << d) ^ (((s << a) ^ s) >> b)
  {
  }

  lemma Step64Unfold(s: bv64, a: bv64, b: bv64, m: bv64, d: bv64)
    requires a < 64 && b < 64 && d < 64
    ensures Step64(s, a, b, m, d) == ((s & m) << d) ^ (((s << a) ^ s) >> b)
  {
  }

  /** The two-statement form of lfsr113 computes the macro's step, for every parameter set. */
  lemma {:induction false} Step32IsTausworthe(s: bv32, a: bv32, b: bv32, m: bv32, d: bv32)
    requires a < 32 && b < 32 && d < 32
    ensures Step32(s, a, b, m, d) == Tausworthe32(s, a, b, m, d)
  {
    Tausworthe32Unfold(s, a, b, m, d);
    Step32Unfold(s, a, b, m, d);
  }

  /** The two-statement form of lfsr258 computes the macro's step, for every parameter set. */
  lemma {:induction false} Step64IsTausworthe(s: bv64, a: bv64, b: bv64, m: bv64, d: bv64)
    requires a < 64 && b < 64 && d < 64
    ensures Step64(s, a, b, m, d) == Tausworthe64(s, a, b, m, d)
  {
    Tausworthe64Unfold(s, a, b, m, d);
    Step64Unfold(s, a, b, m, d);
  }

  // ---------------------------------------------------------------------------
  // taus88: three 32-bit components updated by the TAUSWORTHE macro.

  /** Each taus88 mask is the complement of that component's seed lower bound. */
  lemma Taus88Masks()
    ensures 4294967294 == !(1 as bv32)
    ensures 4294967288 == !(7 as bv32)
    ensures 4294967280 == !(15 as bv32)
  {
  }

  /** Component s1 of taus88 stays above its seed bound 1 exactly when it starts above it;
   *  at or below the bound it becomes zero. */
  lemma Taus88Bound1(s: bv32)
    ensures s > 1 <==> Tausworthe32(s, 13, 19, 4294967294, 12) > 1
    ensures s <= 1 ==> Tausworthe32(s, 13, 19, 4294967294, 12) == 0
  {
  }

  /** The bits of component s1 of taus88 that its mask clears do not influence its step. */
  lemma {:induction false} Taus88SignificantBits1(s: bv32)
    ensures Tausworthe32(s, 13, 19, 4294967294, 12) == Tausworthe32(s & 4294967294, 13, 19, 4294967294, 12)
  {
    Tausworthe32Unfold(s, 13, 19, 4294967294, 12);
    Tausworthe32Unfold(s & 4294967294, 13, 19, 4294967294, 12);
  }

  /** Component s2 of taus88 stays above its seed bound 7 exactly when it starts above it;
   *  at or below the bound it becomes zero. */
  lemma Taus88Bound2(s: bv32)
    ensures s > 7 <==> Tausworthe32(s, 2, 25, 4294967288, 4) > 7
    ensures s <= 7 ==> Tausworthe32(s, 2, 25, 4294967288, 4) == 0
  {
  }

  /** The bits of component s2 of taus88 that its mask clears do not influence its step. */
  lemma {:induction false} Taus88SignificantBits2(s: bv32)
    ensures Tausworthe32(s, 2, 25, 4294967288, 4) == Tausworthe32(s & 4294967288, 2, 25, 4294967288, 4)
  {
    Tausworthe32Unfold(s, 2, 25, 4294967288, 4);
    Tausworthe32Unfold(s & 4294967288, 2, 25, 4294967288, 4);
  }

  /** Component s3 of taus88 stays above its seed bound 15 exactly when it starts above it;
   *  at or below the bound it becomes zero. */
  lemma Taus88Bound3(s: bv32)
    ensures s > 15 <==> Tausworthe32(s, 3, 11, 4294967280, 17) > 15
    ensures s <= 15 ==> Tausworthe32(s, 3, 11, 4294967280, 17) == 0
  {
  }

  /** The bits of component s3 of taus88 that its mask clears do not influence its step. */
  lemma {:induction false} Taus88SignificantBits3(s: bv32)
    ensures Tausworthe32(s, 3, 11, 4294967280, 17) == Tausworthe32(s & 4294967280, 3, 11, 4294967280, 17)
  {
    Tausworthe32Unfold(s, 3, 11, 4294967280, 17);
    Tausworthe32Unfold(s & 4294967280, 3, 11, 4294967280, 17);
  }

  /** The state record of taus88, whose fields are the component seeds. */
  class Taus88 {
    var s1: bv32
    var s2: bv32
    var s3: bv32

    /** The seed bounds of lfsr.h; every call keeps them. */
    ghost predicate Valid()
      reads this
    {
      s1 > 1 && s2 > 7 && s3 > 15
    }

    constructor (z1: bv32, z2: bv32, z3: bv32)
      requires z1 > 1 && z2 > 7 && z3 > 15
      ensures Valid()
      ensures s1 == z1 && s2 == z2 && s3 == z3
    {
      s1, s2, s3 := z1, z2, z3;
    }

    /** One call: every component takes its own step, then the call returns the XOR of the new values. */
    method Next() returns (r: bv32)
      requires Valid()
      modifies this
      ensures Valid()
      ensures s1 == Tausworthe32(old(s1), 13, 19, 4294967294, 12)
      ensures s2 == Tausworthe32(old(s2), 2, 25, 4294967288, 4)
      ensures s3 == Tausworthe32(old(s3), 3, 11, 4294967280, 17)
      ensures r == s1 ^ s2 ^ s3
    {
      Taus88Bound1(s1);
      s1 := Tausworthe32(s1, 13, 19, 4294967294, 12);
      Taus88Bound2(s2);
      s2 := Tausworthe32(s2, 2, 25, 4294967288, 4);
      Taus88Bound3(s3);
      s3 := Tausworthe32(s3, 3, 11, 4294967280, 17);
      r := s1 ^ s2 ^ s3;
    }
  }

  // ---------------------------------------------------------------------------
  // lfsr113: four 32-bit components, each updated by `b = …; s = …`.

  /** Each lfsr113 mask is the complement of that component's seed lower bound. */
  lemma Lfsr113Masks()
    ensures 4294967294 == !(1 as bv32)
    ensures 4294967288 == !(7 as bv32)
    ensures 4294967280 == !(15 as bv32)
    ensures 4294967168 == !(127 as bv32)
  {
  }

  /** Component s1 of lfsr113 stays above its seed bound 1 exactly when it starts above it;
   *  at or below the bound it becomes zero. */
  lemma Lfsr113Bound1(s: bv32)
    ensures s > 1 <==> Tausworthe32(s, 6, 13, 4294967294, 18) > 1
    ensures s <= 1 ==> Tausworthe32(s, 6, 13, 4294967294, 18) == 0
  {
  }

  /** The bits of component s1 of lfsr113 that its mask clears do not influence its step. */
  lemma {:induction false} Lfsr113SignificantBits1(s: bv32)
    ensures Tausworthe32(s, 6, 13, 4294967294, 18) == Tausworthe32(s & 4294967294, 6, 13, 4294967294, 18)
  {
    Tausworthe32Unfold(s, 6, 13, 4294967294, 18);
    Tausworthe32Unfold(s & 4294967294, 6, 13, 4294967294, 18);
  }

  /** Component s2 of lfsr113 stays above its seed bound 7 exactly when it starts above it;
   *  at or below the bound it becomes zero. */
  lemma Lfsr113Bound2(s: bv32)
    ensures s > 7 <==> Tausworthe32(s, 2, 27, 4294967288, 2) > 7
    ensures s <= 7 ==> Tausworthe32(s, 2, 27, 4294967288, 2) == 0
  {
  }

  /** The bits of component s2 of lfsr113 that its mask clears do not influence its step. */
  lemma {:induction false} Lfsr113SignificantBits2(s: bv32)
    ensures Tausworthe32(s, 2, 27, 4294967288, 2) == Tausworthe32(s & 4294967288, 2, 27, 4294967288, 2)
  {
    Tausworthe32Unfold(s, 2, 27, 4294967288, 2);
    Tausworthe32Unfold(s & 4294967288, 2, 27, 4294967288, 2);
  }

  /** Component s3 of lfsr113 stays above its seed bound 15 exactly when it starts above it;
   *  at or below the bound it becomes zero. */
  lemma Lfsr113Bound3(s: bv32)
    ensures s > 15 <==> Tausworthe32(s, 13, 21, 4294967280, 7) > 15
    ensures s <= 15 ==> Tausworthe32(s, 13, 21, 4294967280, 7) == 0
  {
  }

  /** The bits of component s3 of lfsr113 that its mask clears do not influence its step. */
  lemma {:induction false} Lfsr113SignificantBits3(s: bv32)
    ensures Tausworthe32(s, 13, 21, 4294967280, 7) == Tausworthe32(s & 4294967280, 13, 21, 4294967280, 7)
  {
    Tausworthe32Unfold(s, 13, 21, 4294967280, 7);
    Tausworthe32Unfold(s & 4294967280, 13, 21, 4294967280, 7);
  }

  /** Component s4 of lfsr113 stays above its seed bound 127 exactly when it starts above it;
   *  at or below the bound it becomes zero. */
  lemma Lfsr113Bound4(s: bv32)
    ensures s > 127 <==> Tausworthe32(s, 3, 12, 4294967168, 13) > 127
    ensures s <= 127 ==> Tausworthe32(s, 3, 12, 4294967168, 13) == 0
  {
  }

  /** The bits of component s4 of lfsr113 that its mask clears do not influence its step. */
  lemma {:induction false} Lfsr113SignificantBits4(s: bv32)
    ensures Tausworthe32(s, 3, 12, 4294967168, 13) == Tausworthe32(s & 4294967168, 3, 12, 4294967168, 13)
  {
    Tausworthe32Unfold(s, 3, 12, 4294967168, 13);
    Tausworthe32Unfold(s & 4294967168, 3, 12, 4294967168, 13);
  }

  /** The state record of lfsr113, whose fields are the component seeds. */
  class Lfsr113 {
    var s1: bv32
    var s2: bv32
    var s3: bv32
    var s4: bv32

    /** The seed bounds of lfsr.h; every call keeps them. */
    ghost predicate Valid()
      reads this
    {
      s1 > 1 && s2 > 7 && s3 > 15 && s4 > 127
    }

    constructor (z1: bv32, z2: bv32, z3: bv32, z4: bv32)
      requires z1 > 1 && z2 > 7 && z3 > 15 && z4 > 127
      ensures Valid()
      ensures s1 == z1 && s2 == z2 && s3 == z3 && s4 == z4
    {
      s1, s2, s3, s4 := z1, z2, z3, z4;
    }

    /** One call: every component takes its own step, then the call returns the XOR of the new values. */
    method Next() returns (r: bv32)
      requires Valid()
      modifies this
      ensures Valid()
      ensures s1 == Tausworthe32(old(s1), 6, 13, 4294967294, 18)
      ensures s2 == Tausworthe32(old(s2), 2, 27, 4294967288, 2)
      ensures s3 == Tausworthe32(old(s3), 13, 21, 4294967280, 7)
      ensures s4 == Tausworthe32(old(s4), 3, 12, 4294967168, 13)
      ensures r == s1 ^ s2 ^ s3 ^ s4
    {
      Lfsr113Bound1(s1);
      Step32IsTausworthe(s1, 6, 13, 4294967294, 18);
      s1 := Step32(s1, 6, 13, 4294967294, 18);
      Lfsr113Bound2(s2);
      Step32IsTausworthe(s2, 2, 27, 4294967288, 2);
      s2 := Step32(s2, 2, 27, 4294967288, 2);
      Lfsr113Bound3(s3);
      Step32IsTausworthe(s3, 13, 21, 4294967280, 7);
      s3 := Step32(s3, 13, 21, 4294967280, 7);
      Lfsr113Bound4(s4);
      Step32IsTausworthe(s4, 3, 12, 4294967168, 13);
      s4 := Step32(s4, 3, 12, 4294967168, 13);
      r := s1 ^ s2 ^ s3 ^ s4;
    }
  }

  // ---------------------------------------------------------------------------
  // lfsr258: five 64-bit components, each updated by `b = …; s = …`.

  /** Each lfsr258 mask is the complement of that component's seed lower bound. */
  lemma Lfsr258Masks()
    ensures 18446744073709551614 == !(1 as bv64)
    ensures 18446744073709551104 == !(511 as bv64)
    ensures 18446744073709547520 == !(4095 as bv64)
    ensures 18446744073709420544 == !(131071 as bv64)
    ensures 18446744073701163008 == !(8388607 as bv64)
  {
  }

  /** Component s1 of lfsr258 stays above its seed bound 1 exactly when it starts above it;
   *  at or below the bound it becomes zero. */
  lemma Lfsr258Bound1(s: bv64)
    ensures s > 1 <==> Tausworthe64(s, 1, 53, 18446744073709551614, 10) > 1
    ensures s <= 1 ==> Tausworthe64(s, 1, 53, 18446744073709551614, 10) == 0
  {
  }

  /** The bits of component s1 of lfsr258 that its mask clears do not influence its step. */
  lemma {:induction false} Lfsr258SignificantBits1(s: bv64)
    ensures Tausworthe64(s, 1, 53, 18446744073709551614, 10) == Tausworthe64(s & 18446744073709551614, 1, 53, 18446744073709551614, 10)
  {
    Tausworthe64Unfold(s, 1, 53, 18446744073709551614, 10);
    Tausworthe64Unfold(s & 18446744073709551614, 1, 53, 18446744073709551614, 10);
  }

  /** Component s2 of lfsr258 stays above its seed bound 511 exactly when it starts above it;
   *  at or below the bound it becomes zero. */
  lemma Lfsr258Bound2(s: bv64)
    ensures s > 511 <==> Tausworthe64(s, 24, 50, 18446744073709551104, 5) > 511
    ensures s <= 511 ==> Tausworthe64(s, 24, 50, 18446744073709551104, 5) == 0
  {
  }

  /** The bits of component s2 of lfsr258 that its mask clears do not influence its step. */
  lemma {:induction false} Lfsr258SignificantBits2(s: bv64)
    ensures Tausworthe64(s, 24, 50, 18446744073709551104, 5) == Tausworthe64(s & 18446744073709551104, 24, 50, 18446744073709551104, 5)
  {
    Tausworthe64Unfold(s, 24, 50, 18446744073709551104, 5);
    Tausworthe64Unfold(s & 18446744073709551104, 24, 50, 18446744073709551104, 5);
  }

  /** Component s3 of lfsr258 stays above its seed bound 4095 exactly when it starts above it;
   *  at or below the bound it becomes zero. */
  lemma Lfsr258Bound3(s: bv64)
    ensures s > 4095 <==> Tausworthe64(s, 3, 23, 18446744073709547520, 29) > 4095
    ensures s <= 4095 ==> Tausworthe64(s, 3, 23, 18446744073709547520, 29) == 0
  {
  }

  /** The bits of component s3 of lfsr258 that its mask clears do not influence its step. */
  lemma {:induction false} Lfsr258SignificantBits3(s: bv64)
    ensures Tausworthe64(s, 3, 23, 18446744073709547520, 29) == Tausworthe64(s & 18446744073709547520, 3, 23, 18446744073709547520, 29)
  {
    Tausworthe64Unfold(s, 3, 23, 18446744073709547520, 29);
    Tausworthe64Unfold(s & 18446744073709547520, 3, 23, 18446744073709547520, 29);
  }

  /** Component s4 of lfsr258 stays above its seed bound 131071 exactly when it starts above it;
   *  at or below the bound it becomes zero. */
  lemma Lfsr258Bound4(s: bv64)
    ensures s > 131071 <==> Tausworthe64(s, 5, 24, 18446744073709420544, 23) > 131071
    ensures s <= 131071 ==> Tausworthe64(s, 5, 24, 18446744073709420544, 23) == 0
  {
  }

  /** The bits of component s4 of lfsr258 that its mask clears do not influence its step. */
  lemma {:induction false} Lfsr258SignificantBits4(s: bv64)
    ensures Tausworthe64(s, 5, 24, 18446744073709420544, 23) == Tausworthe64(s & 18446744073709420544, 5, 24, 18446744073709420544, 23)
  {
    Tausworthe64Unfold(s, 5, 24, 18446744073709420544, 23);
    Tausworthe64Unfold(s & 18446744073709420544, 5, 24, 18446744073709420544, 23);
  }

  /** Component s5 of lfsr258 stays above its seed bound 8388607 exactly when it starts above it;
   *  at or below the bound it becomes zero. */
  lemma Lfsr258Bound5(s: bv64)
    ensures s > 8388607 <==> Tausworthe64(s, 3, 33, 18446744073701163008, 8) > 8388607
    ensures s <= 8388607 ==> Tausworthe64(s, 3, 33, 18446744073701163008, 8) == 0
  {
  }

  /** The bits of component s5 of lfsr258 that its mask clears do not influence its step. */
  lemma {:induction false} Lfsr258SignificantBits5(s: bv64)
    ensures Tausworthe64(s, 3, 33, 18446744073701163008, 8) == Tausworthe64(s & 18446744073701163008, 3, 33, 18446744073701163008, 8)
  {
    Tausworthe64Unfold(s, 3, 33, 18446744073701163008, 8);
    Tausworthe64Unfold(s & 18446744073701163008, 3, 33, 18446744073701163008, 8);
  }

  /** The state record of lfsr258, whose fields are the component seeds. */
  class Lfsr258 {
    var s1: bv64
    var s2: bv64
    var s3: bv64
    var s4: bv64
    var s5: bv64

    /** The seed bounds of lfsr.h; every call keeps them. */
    ghost predicate Valid()
      reads this
    {
      s1 > 1 && s2 > 511 && s3 > 4095 && s4 > 131071 && s5 > 8388607
    }

    constructor (z1: bv64, z2: bv64, z3: bv64, z4: bv64, z5: bv64)
      requires z1 > 1 && z2 > 511 && z3 > 4095 && z4 > 131071 && z5 > 8388607
      ensures Valid()
      ensures s1 == z1 && s2 == z2 && s3 == z3 && s4 == z4 && s5 == z5
    {
      s1, s2, s3, s4, s5 := z1, z2, z3, z4, z5;
    }

    /** One call: every component takes its own step, then the call returns the XOR of the new values. */
    method Next() returns (r: bv64)
      requires Valid()
      modifies this
      ensures Valid()
      ensures s1 == Tausworthe64(old(s1), 1, 53, 18446744073709551614, 10)
      ensures s2 == Tausworthe64(old(s2), 24, 50, 18446744073709551104, 5)
      ensures s3 == Tausworthe64(old(s3), 3, 23, 18446744073709547520, 29)
      ensures s4 == Tausworthe64(old(s4), 5, 24, 18446744073709420544, 23)
      ensures s5 == Tausworthe64(old(s5), 3, 33, 18446744073701163008, 8)
      ensures r == s1 ^ s2 ^ s3 ^ s4 ^ s5
    {
      Lfsr258Bound1(s1);
      Step64IsTausworthe(s1, 1, 53, 18446744073709551614, 10);
      s1 := Step64(s1, 1, 53, 18446744073709551614, 10);
      Lfsr258Bound2(s2);
      Step64IsTausworthe(s2, 24, 50, 18446744073709551104, 5);
      s2 := Step64(s2, 24, 50, 18446744073709551104, 5);
      Lfsr258Bound3(s3);
      Step64IsTausworthe(s3, 3, 23, 18446744073709547520, 29);
      s3 := Step64(s3, 3, 23, 18446744073709547520, 29);
      Lfsr258Bound4(s4);
      Step64IsTausworthe(s4, 5, 24, 18446744073709420544, 23);
      s4 := Step64(s4, 5, 24, 18446744073709420544, 23);
      Lfsr258Bound5(s5);
      Step64IsTausworthe(s5, 3, 33, 18446744073701163008, 8);
      s5 := Step64(s5, 3, 33, 18446744073701163008, 8);
      r := s1 ^ s2 ^ s3 ^ s4 ^ s5;
    }
  }

}
