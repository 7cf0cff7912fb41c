/** The 32-bit Mersenne Twister MT19937 of Matsumoto and Nishimura, src/mt19937.c.
 *
 *  The state is an array of N = 624 words and an index.  Regeneration replaces the
 *  array in place, word after word, by the next N terms of the linear recurrence
 *
 *    x[k + N] = Twist(x[k], x[k + 1], x[k + M]).
 *
 *  The model states this recurrence once, as Recur, proves that the three in-place
 *  loops compute the next N terms of it, and that the words drawn after seeding are
 *  the tempered terms N, N + 1, N + 2, ... of the sequence that starts with the
 *  seeded array.
 */
module Mt19937 {

  const N: int := 624
  const M: int := 397
  const MatrixA: bv32 := 0x9908_b0df
  const UpperMask: bv32 := 0x8000_0000
  const LowerMask: bv32 := 0x7fff_ffff

  /** mag01[y & 1]: 0 or MatrixA, selected by the low bit of y. */
  function Mag01(y: bv32): (r: bv32)
    ensures r == 0 <==> y & 1 == 0
    ensures r != 0 ==> r == MatrixA
  {
    if y & 1 == 0 then 0 else MatrixA
  }

  /** One regeneration step: the new value of mt[kk] from the words at kk, kk + 1 and
   *  kk + M (mod N): the upper bit of the first and the lower 31 bits of the second,
   *  shifted right once, with MatrixA added in when the bit shifted out is set. */
  function Twist(cur: bv32, next: bv32, far: bv32): bv32
  {
    var y := (cur & UpperMask) | (next & LowerMask);
    far ^ (y >> 1) ^ Mag01(y)
  }

  // ---------------------------------------------------------------------------
  // The recurrence and what regeneration computes.

  /** Term j of the sequence whose first N terms are s. */
  function Recur(s: seq<bv32>, j: nat): bv32
    requires |s| == N
    decreases j
  {
    if j < N then s[j] else Twist(Recur(s, j - N), Recur(s, j - N + 1), Recur(s, j - N + M))
  }

  /** Unfolding the recurrence once. */
  lemma RecurStep(s: seq<bv32>, j: nat)
    requires |s| == N && j >= N
    ensures Recur(s, j) == Twist(Recur(s, j - N), Recur(s, j - N + 1), Recur(s, j - N + M))
  {
  }

  /** Terms o, ..., o + N - 1 of the sequence that starts with s. */
  function Window(s: seq<bv32>, o: nat): (w: seq<bv32>)
    requires |s| == N
    ensures |w| == N
    ensures forall p :: 0 <= p < N ==> w[p] == Recur(s, o + p)
  {
    seq(N, p requires 0 <= p < N => Recur(s, o + p))
  }

  /** The window at offset 0 is the initial array. */
  lemma {:induction false} WindowZero(s: seq<bv32>)
    requires |s| == N
    ensures Window(s, 0) == s
  {
    forall p | 0 <= p < N
      ensures Window(s, 0)[p] == s[p]
    {
    }
  }

  /** Word k of r is what the regeneration loops write at k in place of s: the first N - M
   *  words read only old words; the next M - 1 read, at k + M - N, a word that is already
   *  new; the last combines the old last word with the new words at 0 and M - 1. */
  ghost predicate RegeneratedAt(s: seq<bv32>, r: seq<bv32>, k: int)
    requires |s| == N && |r| == N && 0 <= k < N
  {
    if k < N - M then r[k] == Twist(s[k], s[k + 1], s[k + M])
    else if k < N - 1 then r[k] == Twist(s[k], s[k + 1], r[k + M - N])
    else r[k] == Twist(s[k], r[0], r[M - 1])
  }

  /** r is what the three regeneration loops leave in place of s. */
  ghost predicate Regenerated(s: seq<bv32>, r: seq<bv32>)
  {
    |s| == N && |r| == N && forall k :: 0 <= k < N ==> RegeneratedAt(s, r, k)
  }

  /** Regenerating a window of the sequence yields the next window. */
  lemma {:induction false} WindowRegenerated(s: seq<bv32>, o: nat)
    requires |s| == N
    ensures Regenerated(Window(s, o), Window(s, o + N))
  {
    var w, r := Window(s, o), Window(s, o + N);
    forall k | 0 <= k < N
      ensures RegeneratedAt(w, r, k)
    {
      RecurStep(s, o + N + k);
      if k < N - M {
        assert r[k] == Twist(w[k], w[k + 1], w[k + M]);
      } else if k < N - 1 {
        assert r[k] == Twist(w[k], w[k + 1], r[k + M - N]);
      } else {
        assert r[k] == Twist(w[k], r[0], r[M - 1]);
      }
    }
  }

  /** The words of a regeneration are determined one after another, so there is only one. */
  lemma {:induction false} RegeneratedUnique(s: seq<bv32>, r1: seq<bv32>, r2: seq<bv32>)
    requires Regenerated(s, r1) && Regenerated(s, r2)
    ensures r1 == r2
  {
    var n := 0;
    while n < N
      invariant 0 <= n <= N
      invariant forall p :: 0 <= p < n ==> r1[p] == r2[p]
    {
      assert RegeneratedAt(s, r1, n) && RegeneratedAt(s, r2, n);
      n := n + 1;
    }
  }

  /** The array after one regeneration of s. */
  ghost function Regenerate(s: seq<bv32>): (r: seq<bv32>)
    requires |s| == N
    ensures Regenerated(s, r)
  {
    WindowRegenerated(s, 0);
    WindowZero(s);
    var r :| Regenerated(s, r); r
  }

  /** Regeneration computes the next N terms of the recurrence: regenerating the window at
   *  offset o gives the window at offset o + N. */
  lemma {:induction false} RegenerateWindow(s: seq<bv32>, o: nat)
    requires |s| == N
    ensures Regenerate(Window(s, o)) == Window(s, o + N)
  {
    WindowRegenerated(s, o);
    RegeneratedUnique(Window(s, o), Regenerate(Window(s, o)), Window(s, o + N));
  }

  // ---------------------------------------------------------------------------
  // Tempering and its inverse.  Each shift-and-xor step has an explicit inverse,
  // so tempering loses no information: distinct words temper to distinct outputs.

  /** The tempering transform applied to every word drawn. */
  function Temper32(y: bv32): bv32
  {
    var y1 := y ^ (y >> 11);
    var y2 := y1 ^ ((y1 << 7) & 0x9d2c_5680);
    var y3 := y2 ^ ((y2 << 15) & 0xefc6_0000);
    y3 ^ (y3 >> 18)
  }

  /** Inverse of x ^= x >> 18. */
  function UnShr18(x: bv32): bv32 { x ^ (x >> 18) }

  /** Inverse of x ^= (x << 15) & 0xefc60000 (the step is its own inverse). */
  function UnShl15(x: bv32): bv32 { x ^ ((x << 15) & 0xefc6_0000) }

  /** Inverse of x ^= (x << 7) & 0x9d2c5680: recover seven more low bits per round. */
  function UnShl7(x: bv32): bv32
  {
    var z1 := x ^ ((x << 7) & 0x9d2c_5680);
    var z2 := x ^ ((z1 << 7) & 0x9d2c_5680);
    var z3 := x ^ ((z2 << 7) & 0x9d2c_5680);
    x ^ ((z3 << 7) & 0x9d2c_5680)
  }

  /** Inverse of x ^= x >> 11. */
  function UnShr11(x: bv32): bv32 { x ^ (x >> 11) ^ (x >> 22) }

  /** The inverse of Temper32: undo the four steps in reverse order. */
  function Untemper32(r: bv32): bv32
  {
    UnShr11(UnShl7(UnShl15(UnShr18(r))))
  }

  lemma UnShr18Step(x: bv32)
    ensures UnShr18(x ^ (x >> 18)) == x
  {
  }

  lemma UnShl15Step(x: bv32)
    ensures UnShl15(x ^ ((x << 15) & 0xefc6_0000)) == x
  {
  }

  lemma UnShl7Step(x: bv32)
    ensures UnShl7(x ^ ((x << 7) & 0x9d2c_5680)) == x
  {
  }

  lemma UnShr11Step(x: bv32)
    ensures UnShr11(x ^ (x >> 11)) == x
  {
  }

  lemma Temper32Unfold(y: bv32)
    ensures Temper32(y) == (var y1 := y ^ (y >> 11); var y2 := y1 ^ ((y1 << 7) & 0x9d2c_5680);
                            var y3 := y2 ^ ((y2 << 15) & 0xefc6_0000); y3 ^ (y3 >> 18))
  {
  }

  /** Undoing the last tempering step leaves the word after the first three. */
  lemma {:induction false} Temper32UndoOne(y: bv32)
    ensures UnShr18(Temper32(y)) == (var y1 := y ^ (y >> 11); var y2 := y1 ^ ((y1 << 7) & 0x9d2c_5680);
                                     y2 ^ ((y2 << 15) & 0xefc6_0000))
  {
    Temper32Unfold(y);
    UnShr18Step(var y1 := y ^ (y >> 11); var y2 := y1 ^ ((y1 << 7) & 0x9d2c_5680);
                y2 ^ ((y2 << 15) & 0xefc6_0000));
  }

  /** Undoing the last two steps leaves the word after the first two. */
  lemma {:induction false} Temper32UndoTwo(y: bv32)
    ensures UnShl15(UnShr18(Temper32(y))) == (var y1 := y ^ (y >> 11); y1 ^ ((y1 << 7) & 0x9d2c_5680))
  {
    Temper32UndoOne(y);
    UnShl15Step(var y1 := y ^ (y >> 11); y1 ^ ((y1 << 7) & 0x9d2c_5680));
  }

  /** Undoing the last three steps leaves the word after the first. */
  lemma {:induction false} Temper32UndoThree(y: bv32)
    ensures UnShl7(UnShl15(UnShr18(Temper32(y)))) == y ^ (y >> 11)
  {
    Temper32UndoTwo(y);
    UnShl7Step(y ^ (y >> 11));
  }

  /** Untemper32 undoes Temper32, so tempering is injective. */
  lemma {:induction false} Temper32LeftInverse(y: bv32)
    ensures Untemper32(Temper32(y)) == y
  {
    Temper32UndoThree(y);
    UnShr11Step(y);
  }

  // ---------------------------------------------------------------------------
  // Scalar seeding.

  /** `x & 0xffffffff` on a 32-bit word. */
  function Mask32(x: bv32): bv32
  {
    x & 0xffff_ffff
  }

  /** Masking a 32-bit word with 0xffffffff changes nothing. */
  lemma Mask32Identity(x: bv32)
    ensures Mask32(x) == x
  {
  }

  /** n as an unsigned 32-bit word (n mod 2^32), counted up from 0 in 32-bit arithmetic.
   *  This is how the source's int loop indices enter the word arithmetic. */
  function Word(n: nat): bv32
  {
    if n == 0 then 0 else Word(n - 1) + 1
  }

  /** The word scalar seeding stores at index i, from the word at index i - 1. */
  function SeedStep(prev: bv32, i: int): bv32
    requires 1 <= i < N
  {
    1812433253 * (prev ^ (prev >> 30)) + Word(i)
  }

  /** s is a scalar-seeded array: the seed at index 0, then the seeding recurrence. */
  ghost predicate ScalarSeeded(s: seq<bv32>, seed: bv32)
  {
    |s| == N && s[0] == seed && forall i :: 1 <= i < N ==> s[i] == SeedStep(s[i - 1], i)
  }

  /** The first n words of the scalar-seeded array, built one word at a time. */
  function SeedWords(seed: bv32, n: nat): (r: seq<bv32>)
    requires 1 <= n <= N
    ensures |r| == n && r[0] == seed
    decreases n
  {
    if n == 1 then [seed] else var p := SeedWords(seed, n - 1); p + [SeedStep(p[n - 2], n - 1)]
  }

  /** Every word of SeedWords after the first follows the recurrence. */
  lemma {:induction false} SeedWordsStep(seed: bv32, n: nat, i: int)
    requires 1 <= i < n <= N
    ensures SeedWords(seed, n)[i] == SeedStep(SeedWords(seed, n)[i - 1], i)
    decreases n
  {
    if i < n - 1 {
      SeedWordsStep(seed, n - 1, i);
      assert SeedWords(seed, n)[i] == SeedWords(seed, n - 1)[i];
      assert SeedWords(seed, n)[i - 1] == SeedWords(seed, n - 1)[i - 1];
    }
  }

  /** A scalar-seeded array exists for every seed. */
  lemma {:induction false} SeedWordsSeeded(seed: bv32)
    ensures ScalarSeeded(SeedWords(seed, N), seed)
  {
    forall i | 1 <= i < N
      ensures SeedWords(seed, N)[i] == SeedStep(SeedWords(seed, N)[i - 1], i)
    {
      SeedWordsStep(seed, N, i);
    }
  }

  /** The seed determines the array: two scalar-seeded arrays with the same seed are equal. */
  lemma {:induction false} ScalarSeededUnique(seed: bv32, s: seq<bv32>, t: seq<bv32>)
    requires ScalarSeeded(s, seed) && ScalarSeeded(t, seed)
    ensures s == t
  {
    var n := 1;
    while n < N
      invariant 1 <= n <= N
      invariant forall p :: 0 <= p < n ==> s[p] == t[p]
    {
      assert s[n - 1] == t[n - 1];
      n := n + 1;
    }
  }

  /** The array that scalar seeding produces. */
  ghost function ScalarSeed(seed: bv32): (r: seq<bv32>)
    ensures ScalarSeeded(r, seed)
  {
    SeedWordsSeeded(seed);
    var r :| ScalarSeeded(r, seed); r
  }

  // ---------------------------------------------------------------------------
  // Seeding by an array of key words.

  /** The number of iterations of the first mixing pass: max(N, key length). */
  function KeyRounds(keyLength: int): (k: int)
    ensures k >= N && k >= keyLength && (k == N || k == keyLength)
  {
    if N > keyLength then N else keyLength
  }

  /** The index the mixing passes write at iteration t, counting both passes from 0:
   *  i starts at 1, and `i++; if (i >= N) i = 1`. */
  function Row(t: nat): (i: int)
    ensures 1 <= i < N
  {
    if t == 0 then 1 else var p := Row(t - 1); if p + 1 >= N then 1 else p + 1
  }

  /** The key index at iteration t of the first pass: j starts at 0, and
   *  `j++; if (j >= key_length) j = 0`. */
  function KeyIndex(t: nat, keyLength: int): (j: int)
    requires keyLength >= 1
    ensures 0 <= j < keyLength
  {
    if t == 0 then 0 else var p := KeyIndex(t - 1, keyLength); if p + 1 >= keyLength then 0 else p + 1
  }

  /** One step of the key index counter. */
  lemma KeyIndexStep(t: nat, keyLength: int)
    requires keyLength >= 1
    ensures KeyIndex(t + 1, keyLength) == if KeyIndex(t, keyLength) + 1 >= keyLength then 0 else KeyIndex(t, keyLength) + 1
  {
  }

  /** Euclidean division leaves a unique remainder. */
  lemma ModOfDecomposition(a: int, d: int, q: int, r: int)
    requires d >= 1 && 0 <= r < d && a == q * d + r
    ensures a % d == r
  {
    var q', r' := a / d, a % d;
    assert a == q' * d + r';
    assert (q - q') * d == r' - r;
    MulBound(q - q', d);
  }

  lemma MulBound(e: int, d: int)
    requires d >= 1
    ensures e >= 1 ==> e * d >= d
    ensures e <= -1 ==> e * d <= -d
  {
  }

  /** A counter that counts up and wraps to 0 on reaching d is t % d after t steps:
   *  `x++; if (x >= d) x = 0` moves from t % d to (t + 1) % d. */
  lemma {:induction false} ModNext(t: nat, d: int)
    requires d >= 1
    ensures (t + 1) % d == if t % d + 1 >= d then 0 else t % d + 1
  {
    var q, r := t / d, t % d;
    if r + 1 == d {
      ModOfDecomposition(t + 1, d, q + 1, 0);
    } else {
      ModOfDecomposition(t + 1, d, q, r + 1);
    }
  }

  /** One step of the written index counter. */
  lemma RowStep(t: nat)
    ensures Row(t + 1) == if Row(t) + 1 >= N then 1 else Row(t) + 1
  {
  }

  /** The written index cycles through 1, ..., N - 1: at iteration t it is 1 + t mod (N - 1). */
  lemma {:induction false} RowCycles(t: nat)
    ensures Row(t) == 1 + t % (N - 1)
  {
    if t > 0 {
      RowCycles(t - 1);
      ModNext(t - 1, N - 1);
    }
  }

  /** The key index cycles through 0, ..., key_length - 1: at iteration t it is t mod key_length. */
  lemma {:induction false} KeyIndexCycles(t: nat, keyLength: int)
    requires keyLength >= 1
    ensures KeyIndex(t, keyLength) == t % keyLength
  {
    if t > 0 {
      KeyIndexCycles(t - 1, keyLength);
      ModNext(t - 1, keyLength);
    }
  }

  /** The first pass's word formula: (mt[i] ^ ((mt[i-1] ^ (mt[i-1] >> 30)) * 1664525)) + init_key[j] + j. */
  function Mix1(cur: bv32, prev: bv32, key: bv32, j: nat): bv32
  {
    (cur ^ ((prev ^ (prev >> 30)) * 1664525)) + key + Word(j)
  }

  /** The second pass's word formula: (mt[i] ^ ((mt[i-1] ^ (mt[i-1] >> 30)) * 1566083941)) - i. */
  function Mix2(cur: bv32, prev: bv32, i: nat): bv32
  {
    (cur ^ ((prev ^ (prev >> 30)) * 1566083941)) - Word(i)
  }

  /** Store w at index i; when i is the last index, also copy it into slot 0. */
  function Put(s: seq<bv32>, i: int, w: bv32): (r: seq<bv32>)
    requires |s| == N && 1 <= i < N
    ensures |r| == N && r[i] == w
    ensures i == N - 1 ==> r[0] == w
    ensures forall p :: 0 <= p < N && p != i && !(i == N - 1 && p == 0) ==> r[p] == s[p]
  {
    var t := s[i := w];
    if i + 1 >= N then t[0 := t[N - 1]] else t
  }

  /** The array after the first t iterations of the first mixing pass, started on s, where
   *  mix computes the new word at i from mt[i], mt[i - 1], init_key[j] and j. */
  function Pass1(s: seq<bv32>, key: seq<bv32>, t: nat, mix: (bv32, bv32, bv32, nat) -> bv32): (r: seq<bv32>)
    requires |s| == N && 1 <= |key| <= 0x7fff_ffff
    ensures |r| == N
    decreases t
  {
    if t == 0 then s
    else
      var p := Pass1(s, key, t - 1, mix);
      var i, j := Row(t - 1), KeyIndex(t - 1, |key|);
      Put(p, i, mix(p[i], p[i - 1], key[j], j))
  }

  lemma Pass1Step(s: seq<bv32>, key: seq<bv32>, t: nat, mix: (bv32, bv32, bv32, nat) -> bv32)
    requires |s| == N && 1 <= |key| <= 0x7fff_ffff
    ensures var p, i, j := Pass1(s, key, t, mix), Row(t), KeyIndex(t, |key|);
            Pass1(s, key, t + 1, mix) == Put(p, i, mix(p[i], p[i - 1], key[j], j))
  {
  }

  /** The array after the second mixing pass has run from iteration t0 (the iterations of
   *  the first pass) up to iteration t, started on s, where mix computes the new word at i
   *  from mt[i], mt[i - 1] and i. */
  function Pass2(s: seq<bv32>, t0: nat, t: nat, mix: (bv32, bv32, nat) -> bv32): (r: seq<bv32>)
    requires |s| == N && t0 <= t
    ensures |r| == N
    decreases t - t0
  {
    if t == t0 then s
    else
      var p := Pass2(s, t0, t - 1, mix);
      var i := Row(t - 1);
      Put(p, i, mix(p[i], p[i - 1], i))
  }

  lemma Pass2Step(s: seq<bv32>, t0: nat, t: nat, mix: (bv32, bv32, nat) -> bv32)
    requires |s| == N && t0 <= t
    ensures var p, i := Pass2(s, t0, t, mix), Row(t); Pass2(s, t0, t + 1, mix) == Put(p, i, mix(p[i], p[i - 1], i))
  {
  }

  /** What the two mixing passes do to the scalar-seeded array s, with the word formulas
   *  mix1 and mix2: max(N, |key|) iterations of the first pass and N - 1 of the second. */
  function Mixed(s: seq<bv32>, key: seq<bv32>, mix1: (bv32, bv32, bv32, nat) -> bv32, mix2: (bv32, bv32, nat) -> bv32): (r: seq<bv32>)
    requires |s| == N && 1 <= |key| <= 0x7fff_ffff
    ensures |r| == N
  {
    var k := KeyRounds(|key|);
    Pass2(Pass1(s, key, k, mix1), k, k + N - 1, mix2)
  }

  /** The array that seeding by the key produces: the mixing passes with the source's word
   *  formulas, then a most significant bit in slot 0, so that the array is never all zero. */
  ghost function ArraySeed(key: seq<bv32>): (r: seq<bv32>)
    requires 1 <= |key| <= 0x7fff_ffff
    ensures |r| == N && r[0] == 0x8000_0000
  {
    Mixed(ScalarSeed(19650218), key, Mix1, Mix2)[0 := 0x8000_0000]
  }

  // ---------------------------------------------------------------------------
  // The generator state: the array mt and the index mti.

  class Mt32 {
    const mt: array<bv32>
    var mti: int

    /** The array as the last seeding left it, and the number of words drawn since then. */
    ghost var origin: seq<bv32>
    ghost var drawn: nat

    ghost predicate Wellformed()
      reads this
    {
      mt.Length == N && 0 <= mti <= N + 1
    }

    /** The state is seeded, and it is the window of the seeded sequence from which the
     *  next word will be drawn: mti words of the current block have been used. */
    ghost predicate Valid()
      reads this, mt
    {
      mt.Length == N && 0 <= mti <= N && |origin| == N &&
      mt[..] == Window(origin, drawn + N - mti)
    }

    /** The static state before any seeding: a zero array and mti = N + 1. */
    constructor ()
      ensures Wellformed() && fresh(mt)
      ensures mt[..] == seq(N, _ => 0) && mti == N + 1
    {
      mt := new bv32[N](_ => 0);
      mti := N + 1;
    }

    /** init_mt19937ar: seed the array with a 32-bit word. */
    method Seed(seed: bv32)
      requires Wellformed()
      modifies this, mt
      ensures Valid() && mti == N
      ensures mt[..] == ScalarSeed(seed)
      ensures origin == mt[..] && drawn == 0
    {
      ghost var s := ScalarSeed(seed);
      mt[0] := Mask32(seed);
      Mask32Identity(seed);
      mti := 1;
      while mti < N
        invariant 1 <= mti <= N
        invariant forall p :: 0 <= p < mti ==> mt[p] == s[p]
      {
        mt[mti] := SeedStep(mt[mti - 1], mti);
        mti := mti + 1;
      }
      assert mt[..] == s;
      Restart();
    }

    /** init_mt19937ar_by_array: seed the array with the key words.  The source reads
     *  init_key[0] unconditionally and takes the length as an int, hence the bounds. */
    method SeedByArray(key: seq<bv32>)
      requires Wellformed() && 1 <= |key| <= 0x7fff_ffff
      modifies this, mt
      ensures Valid() && mti == N
      ensures mt[..] == ArraySeed(key)
      ensures origin == mt[..] && drawn == 0
    {
      Seed(19650218);
      Mix(key, Mix1, Mix2);
      ghost var s2 := mt[..];
      mt[0] := 0x8000_0000;
      assert mt[..] == s2[0 := 0x8000_0000];
      Restart();
    }

    /** The two mixing loops of seeding by the key, with the word formulas mix1 and mix2. */
    method Mix(key: seq<bv32>, mix1: (bv32, bv32, bv32, nat) -> bv32, mix2: (bv32, bv32, nat) -> bv32)
      requires mt.Length == N && 1 <= |key| <= 0x7fff_ffff
      modifies mt
      ensures mt[..] == Mixed(old(mt[..]), key, mix1, mix2)
    {
      var i := MixKey(key, mix1);
      MixIndices(i, KeyRounds(|key|), mix2);
    }

    /** Take the current array as the start of a new stream: N words of it are used up. */
    method Restart()
      requires mt.Length == N && mti == N
      modifies this
      ensures Valid() && mti == N
      ensures origin == mt[..] && drawn == 0
    {
      origin := mt[..];
      drawn := 0;
      WindowZero(origin);
    }

    /** The first mixing loop of init_mt19937ar_by_array: max(N, key_length) iterations with
     *  the word formula mix, returning the index i it stops at. */
    method MixKey(key: seq<bv32>, mix: (bv32, bv32, bv32, nat) -> bv32) returns (i: int)
      requires mt.Length == N && 1 <= |key| <= 0x7fff_ffff
      modifies mt
      ensures i == Row(KeyRounds(|key|))
      ensures mt[..] == Pass1(old(mt[..]), key, KeyRounds(|key|), mix)
    {
      var j := 0;
      i := 1;
      var k := if N > |key| then N else |key|;
      ghost var s0 := mt[..];
      ghost var rounds := k;
      ghost var t: nat := 0;
      while k > 0
        invariant 0 <= k <= rounds && t == rounds - k
        invariant i == Row(t)
        invariant j == KeyIndex(t, |key|)
        invariant mt[..] == Pass1(s0, key, t, mix)
      {
        ghost var p := mt[..];
        var w := mix(mt[i], mt[i - 1], key[j], j);
        mt[i] := w;
        i, j := i + 1, j + 1;
        if i >= N {
          mt[0] := mt[N - 1];
          i := 1;
        }
        if j >= |key| {
          j := 0;
        }
        assert mt[..] == Put(p, Row(t), w);
        RowStep(t);
        KeyIndexStep(t, |key|);
        Pass1Step(s0, key, t, mix);
        k, t := k - 1, t + 1;
      }
      assert t == KeyRounds(|key|);
      assert s0 == old(mt[..]);
    }

    /** The second mixing loop: N - 1 iterations with the word formula mix, continuing
     *  from the index Row(t0) the first loop stopped at. */
    method MixIndices(i0: int, ghost t0: nat, mix: (bv32, bv32, nat) -> bv32)
      requires mt.Length == N && i0 == Row(t0)
      modifies mt
      ensures mt[..] == Pass2(old(mt[..]), t0, t0 + N - 1, mix)
    {
      var i := i0;
      ghost var s1 := mt[..];
      ghost var t: nat := t0;
      var k := N - 1;
      while k > 0
        invariant 0 <= k <= N - 1 && t == t0 + (N - 1 - k)
        invariant i == Row(t)
        invariant mt[..] == Pass2(s1, t0, t, mix)
      {
        ghost var p := mt[..];
        var w := mix(mt[i], mt[i - 1], i);
        mt[i] := w;
        i := i + 1;
        if i >= N {
          mt[0] := mt[N - 1];
          i := 1;
        }
        assert mt[..] == Put(p, Row(t), w);
        RowStep(t);
        Pass2Step(s1, t0, t, mix);
        k, t := k - 1, t + 1;
      }
      assert s1 == old(mt[..]);
    }

    /** The three regeneration loops of mt19937ar, in place. */
    method Generate()
      requires mt.Length == N
      modifies mt
      ensures mt[..] == Regenerate(old(mt[..]))
    {
      ghost var s := mt[..];
      ghost var r := Regenerate(s);
      var kk := TwistFirst(s, r);
      kk := TwistSecond(s, r, kk);
      assert RegeneratedAt(s, r, N - 1);
      mt[N - 1] := Twist(mt[N - 1], mt[0], mt[M - 1]);
      assert mt[..] == r;
    }

    /** The first regeneration loop: words 0 .. N - M - 1, each from old words only. */
    method TwistFirst(ghost s: seq<bv32>, ghost r: seq<bv32>) returns (kk: int)
      requires mt.Length == N && mt[..] == s && Regenerated(s, r)
      modifies mt
      ensures kk == N - M
      ensures forall p :: 0 <= p < kk ==> mt[p] == r[p]
      ensures forall p :: kk <= p < N ==> mt[p] == s[p]
    {
      kk := 0;
      while kk < N - M
        invariant 0 <= kk <= N - M
        invariant forall p :: 0 <= p < kk ==> mt[p] == r[p]
        invariant forall p :: kk <= p < N ==> mt[p] == s[p]
      {
        assert RegeneratedAt(s, r, kk);
        mt[kk] := Twist(mt[kk], mt[kk + 1], mt[kk + M]);
        kk := kk + 1;
      }
    }

    /** The second regeneration loop: words N - M .. N - 2, each reading at kk + M - N a
     *  word the first loop has already replaced. */
    method TwistSecond(ghost s: seq<bv32>, ghost r: seq<bv32>, kk0: int) returns (kk: int)
      requires mt.Length == N && Regenerated(s, r) && kk0 == N - M
      requires forall p :: 0 <= p < kk0 ==> mt[p] == r[p]
      requires forall p :: kk0 <= p < N ==> mt[p] == s[p]
      modifies mt
      ensures kk == N - 1
      ensures forall p :: 0 <= p < kk ==> mt[p] == r[p]
      ensures mt[N - 1] == s[N - 1]
    {
      kk := kk0;
      while kk < N - 1
        invariant N - M <= kk <= N - 1
        invariant forall p :: 0 <= p < kk ==> mt[p] == r[p]
        invariant forall p :: kk <= p < N ==> mt[p] == s[p]
      {
        assert RegeneratedAt(s, r, kk);
        mt[kk] := Twist(mt[kk], mt[kk + 1], mt[kk + (M - N)]);
        kk := kk + 1;
      }
    }

    /** mt19937ar: draw the next word, regenerating the array first when the block is used up.
     *  The word drawn is the tempered term N + drawn of the seeded sequence. */
    method Next() returns (y: bv32)
      requires Valid()
      modifies this, mt
      ensures Valid() && origin == old(origin) && drawn == old(drawn) + 1
      ensures y == Temper32(Recur(origin, N + old(drawn)))
      ensures old(mti) < N ==> mt[..] == old(mt[..]) && mti == old(mti) + 1 && y == Temper32(mt[old(mti)])
      ensures old(mti) == N ==> mt[..] == Regenerate(old(mt[..])) && mti == 1 && y == Temper32(mt[0])
    {
      if mti >= N {
        Generate();
        mti := 0;
        RegenerateWindow(origin, drawn);
      }
      y := Temper32(mt[mti]);
      mti := mti + 1;
      drawn := drawn + 1;
    }
  }
}
