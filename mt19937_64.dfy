/** The 64-bit Mersenne Twister MT19937-64 of Nishimura and Matsumoto, the second half of
 *  src/mt19937.c.  It has the structure of the 32-bit generator in module Mt19937 with
 *  N = 312 words of 64 bits, M = 156, an upper mask of 33 bits, different tempering and
 *  seeding constants, and a 32-bit scalar seed.
 *
 *  src/mt19937.c writes the two generators out separately, and so does this module: the
 *  recurrence, regeneration, window and mixing-pass definitions below are those of module
 *  Mt19937 restated over 64-bit words with N = 312 and M = 156.  Only the index counters
 *  that do not depend on the word width (KeyIndex, ModNext) are shared.
 */
module Mt19937_64 {

  import Mt19937

  const N: int := 312
  const M: int := 156
  const MatrixA: bv64 := 0xB502_6F5A_A966_19E9
  const UpperMask: bv64 := 0xFFFF_FFFF_8000_0000
  const LowerMask: bv64 := 0x7FFF_FFFF

  /** mag01[x & 1]: 0 or MatrixA, selected by the low bit of x. */
  function Mag01(x: bv64): (r: bv64)
    ensures r == 0 <==> x & 1 == 0
    ensures r != 0 ==> r == MatrixA
  {
    if x & 1 == 0 then 0 else MatrixA
  }

  /** One regeneration step: the upper 33 bits of the first word and the lower 31 of the
   *  second, shifted right once, with MatrixA added in when the bit shifted out is set. */
  function Twist(cur: bv64, next: bv64, far: bv64): bv64
  {
    var x := (cur & UpperMask) | (next & LowerMask);
    far ^ (x >> 1) ^ Mag01(x)
  }

  // ---------------------------------------------------------------------------
  // The recurrence and what regeneration computes.

  /** Term j of the sequence whose first N terms are s. */
  function Recur(s: seq<bv64>, j: nat): bv64
    requires |s| == N
    decreases j
  {
    if j < N then s[j] else Twist(Recur(s, j - N), Recur(s, j - N + 1), Recur(s, j - N + M))
  }

  /** Unfolding the recurrence once. */
  lemma RecurStep(s: seq<bv64>, j: nat)
    requires |s| == N && j >= N
    ensures Recur(s, j) == Twist(Recur(s, j - N), Recur(s, j - N + 1), Recur(s, j - N + M))
  {
  }

  /** Terms o, ..., o + N - 1 of the sequence that starts with s. */
  function Window(s: seq<bv64>, o: nat): (w: seq<bv64>)
    requires |s| == N
    ensures |w| == N
    ensures forall p :: 0 <= p < N ==> w[p] == Recur(s, o + p)
  {
    seq(N, p requires 0 <= p < N => Recur(s, o + p))
  }

  /** The window at offset 0 is the initial array. */
  lemma {:induction false} WindowZero(s: seq<bv64>)
    requires |s| == N
    ensures Window(s, 0) == s
  {
    forall p | 0 <= p < N
      ensures Window(s, 0)[p] == s[p]
    {
    }
  }

  /** Word k of r is what the regeneration loops write at k in place of s: the first N - M
   *  words read only old words; the next M - 1 read, at k + M - N, a word that is already
   *  new; the last combines the old last word with the new words at 0 and M - 1. */
  ghost predicate RegeneratedAt(s: seq<bv64>, r: seq<bv64>, k: int)
    requires |s| == N && |r| == N && 0 <= k < N
  {
    if k < N - M then r[k] == Twist(s[k], s[k + 1], s[k + M])
    else if k < N - 1 then r[k] == Twist(s[k], s[k + 1], r[k + M - N])
    else r[k] == Twist(s[k], r[0], r[M - 1])
  }

  /** r is what the three regeneration loops leave in place of s. */
  ghost predicate Regenerated(s: seq<bv64>, r: seq<bv64>)
  {
    |s| == N && |r| == N && forall k :: 0 <= k < N ==> RegeneratedAt(s, r, k)
  }

  /** Regenerating a window of the sequence yields the next window. */
  lemma {:induction false} WindowRegenerated(s: seq<bv64>, o: nat)
    requires |s| == N
    ensures Regenerated(Window(s, o), Window(s, o + N))
  {
    var w, r := Window(s, o), Window(s, o + N);
    forall k | 0 <= k < N
      ensures RegeneratedAt(w, r, k)
    {
      RecurStep(s, o + N + k);
      if k < N - M {
        assert r[k] == Twist(w[k], w[k + 1], w[k + M]);
      } else if k < N - 1 {
        assert r[k] == Twist(w[k], w[k + 1], r[k + M - N]);
      } else {
        assert r[k] == Twist(w[k], r[0], r[M - 1]);
      }
    }
  }

  /** The words of a regeneration are determined one after another, so there is only one. */
  lemma {:induction false} RegeneratedUnique(s: seq<bv64>, r1: seq<bv64>, r2: seq<bv64>)
    requires Regenerated(s, r1) && Regenerated(s, r2)
    ensures r1 == r2
  {
    var n := 0;
    while n < N
      invariant 0 <= n <= N
      invariant forall p :: 0 <= p < n ==> r1[p] == r2[p]
    {
      assert RegeneratedAt(s, r1, n) && RegeneratedAt(s, r2, n);
      n := n + 1;
    }
  }

  /** The array after one regeneration of s. */
  ghost function Regenerate(s: seq<bv64>): (r: seq<bv64>)
    requires |s| == N
    ensures Regenerated(s, r)
  {
    WindowRegenerated(s, 0);
    WindowZero(s);
    var r :| Regenerated(s, r); r
  }

  /** Regeneration computes the next N terms of the recurrence: regenerating the window at
   *  offset o gives the window at offset o + N. */
  lemma {:induction false} RegenerateWindow(s: seq<bv64>, o: nat)
    requires |s| == N
    ensures Regenerate(Window(s, o)) == Window(s, o + N)
  {
    WindowRegenerated(s, o);
    RegeneratedUnique(Window(s, o), Regenerate(Window(s, o)), Window(s, o + N));
  }

  // ---------------------------------------------------------------------------
  // Tempering and its inverse.

  /** The tempering transform applied to every word drawn. */
  function Temper64(x: bv64): bv64
  {
    var x1 := x ^ ((x >> 29) & 0x5555_5555_5555_5555);
    var x2 := x1 ^ ((x1 << 17) & 0x71D6_7FFF_EDA6_0000);
    var x3 := x2 ^ ((x2 << 37) & 0xFFF7_EEE0_0000_0000);
    x3 ^ (x3 >> 43)
  }

  /** Inverse of x ^= x >> 43 (the step is its own inverse). */
  function UnShr43(x: bv64): bv64 { x ^ (x >> 43) }

  /** Inverse of x ^= (x << 37) & 0xFFF7EEE000000000 (its own inverse). */
  function UnShl37(x: bv64): bv64 { x ^ ((x << 37) & 0xFFF7_EEE0_0000_0000) }

  /** Inverse of x ^= (x << 17) & 0x71D67FFFEDA60000: 17 more low bits per round. */
  function UnShl17(x: bv64): bv64
  {
    var z1 := x ^ ((x << 17) & 0x71D6_7FFF_EDA6_0000);
    var z2 := x ^ ((z1 << 17) & 0x71D6_7FFF_EDA6_0000);
    x ^ ((z2 << 17) & 0x71D6_7FFF_EDA6_0000)
  }

  /** Inverse of x ^= (x >> 29) & 0x5555555555555555: 29 more high bits per round. */
  function UnShr29(x: bv64): bv64
  {
    var z1 := x ^ ((x >> 29) & 0x5555_5555_5555_5555);
    x ^ ((z1 >> 29) & 0x5555_5555_5555_5555)
  }

  /** The inverse of Temper64: undo the four steps in reverse order. */
  function Untemper64(r: bv64): bv64
  {
    UnShr29(UnShl17(UnShl37(UnShr43(r))))
  }

  lemma UnShr43Step(x: bv64)
    ensures UnShr43(x ^ (x >> 43)) == x
  {
  }

  lemma UnShl37Step(x: bv64)
    ensures UnShl37(x ^ ((x << 37) & 0xFFF7_EEE0_0000_0000)) == x
  {
  }

  lemma UnShl17Step(x: bv64)
    ensures UnShl17(x ^ ((x << 17) & 0x71D6_7FFF_EDA6_0000)) == x
  {
  }

  lemma UnShr29Step(x: bv64)
    ensures UnShr29(x ^ ((x >> 29) & 0x5555_5555_5555_5555)) == x
  {
  }

  lemma Temper64Unfold(x: bv64)
    ensures Temper64(x) == (var x1 := x ^ ((x >> 29) & 0x5555_5555_5555_5555);
                            var x2 := x1 ^ ((x1 << 17) & 0x71D6_7FFF_EDA6_0000);
                            var x3 := x2 ^ ((x2 << 37) & 0xFFF7_EEE0_0000_0000); x3 ^ (x3 >> 43))
  {
  }

  /** Undoing the last tempering step leaves the word after the first three. */
  lemma {:induction false} Temper64UndoOne(x: bv64)
    ensures UnShr43(Temper64(x)) == (var x1 := x ^ ((x >> 29) & 0x5555_5555_5555_5555);
                                     var x2 := x1 ^ ((x1 << 17) & 0x71D6_7FFF_EDA6_0000);
                                     x2 ^ ((x2 << 37) & 0xFFF7_EEE0_0000_0000))
  {
    Temper64Unfold(x);
    UnShr43Step(var x1 := x ^ ((x >> 29) & 0x5555_5555_5555_5555);
                var x2 := x1 ^ ((x1 << 17) & 0x71D6_7FFF_EDA6_0000);
                x2 ^ ((x2 << 37) & 0xFFF7_EEE0_0000_0000));
  }

  /** Undoing the last two steps leaves the word after the first two. */
  lemma {:induction false} Temper64UndoTwo(x: bv64)
    ensures UnShl37(UnShr43(Temper64(x))) == (var x1 := x ^ ((x >> 29) & 0x5555_5555_5555_5555);
                                              x1 ^ ((x1 << 17) & 0x71D6_7FFF_EDA6_0000))
  {
    Temper64UndoOne(x);
    UnShl37Step(var x1 := x ^ ((x >> 29) & 0x5555_5555_5555_5555);
                x1 ^ ((x1 << 17) & 0x71D6_7FFF_EDA6_0000));
  }

  /** Undoing the last three steps leaves the word after the first. */
  lemma {:induction false} Temper64UndoThree(x: bv64)
    ensures UnShl17(UnShl37(UnShr43(Temper64(x)))) == x ^ ((x >> 29) & 0x5555_5555_5555_5555)
  {
    Temper64UndoTwo(x);
    UnShl17Step(x ^ ((x >> 29) & 0x5555_5555_5555_5555));
  }

  /** Untemper64 undoes Temper64, so tempering is injective. */
  lemma {:induction false} Temper64LeftInverse(x: bv64)
    ensures Untemper64(Temper64(x)) == x
  {
    Temper64UndoThree(x);
    UnShr29Step(x);
  }

  // ---------------------------------------------------------------------------
  // Scalar seeding.

  /** n as an unsigned 64-bit word (n mod 2^64), counted up from 0 in 64-bit arithmetic.
   *  This is how the source's int loop indices enter the word arithmetic. */
  function Word(n: nat): bv64
  {
    if n == 0 then 0 else Word(n - 1) + 1
  }

  /** The word scalar seeding stores at index i, from the word at index i - 1. */
  function SeedStep(prev: bv64, i: int): bv64
    requires 1 <= i < N
  {
    6364136223846793005 * (prev ^ (prev >> 62)) + Word(i)
  }

  /** s is a scalar-seeded array: the seed at index 0, then the seeding recurrence. */
  ghost predicate ScalarSeeded(s: seq<bv64>, seed: bv32)
  {
    |s| == N && s[0] == seed as bv64 && forall i :: 1 <= i < N ==> s[i] == SeedStep(s[i - 1], i)
  }

  /** The first n words of the scalar-seeded array, built one word at a time. */
  function SeedWords(seed: bv32, n: nat): (r: seq<bv64>)
    requires 1 <= n <= N
    ensures |r| == n && r[0] == seed as bv64
    decreases n
  {
    if n == 1 then [seed as bv64] else var p := SeedWords(seed, n - 1); p + [SeedStep(p[n - 2], n - 1)]
  }

  /** Every word of SeedWords after the first follows the recurrence. */
  lemma {:induction false} SeedWordsStep(seed: bv32, n: nat, i: int)
    requires 1 <= i < n <= N
    ensures SeedWords(seed, n)[i] == SeedStep(SeedWords(seed, n)[i - 1], i)
    decreases n
  {
    if i < n - 1 {
      SeedWordsStep(seed, n - 1, i);
      assert SeedWords(seed, n)[i] == SeedWords(seed, n - 1)[i];
      assert SeedWords(seed, n)[i - 1] == SeedWords(seed, n - 1)[i - 1];
    }
  }

  /** A scalar-seeded array exists for every seed. */
  lemma {:induction false} SeedWordsSeeded(seed: bv32)
    ensures ScalarSeeded(SeedWords(seed, N), seed)
  {
    forall i | 1 <= i < N
      ensures SeedWords(seed, N)[i] == SeedStep(SeedWords(seed, N)[i - 1], i)
    {
      SeedWordsStep(seed, N, i);
    }
  }

  /** The seed determines the array: two scalar-seeded arrays with the same seed are equal. */
  lemma {:induction false} ScalarSeededUnique(seed: bv32, s: seq<bv64>, t: seq<bv64>)
    requires ScalarSeeded(s, seed) && ScalarSeeded(t, seed)
    ensures s == t
  {
    var n := 1;
    while n < N
      invariant 1 <= n <= N
      invariant forall p :: 0 <= p < n ==> s[p] == t[p]
    {
      assert s[n - 1] == t[n - 1];
      n := n + 1;
    }
  }

  /** The array that scalar seeding produces. */
  ghost function ScalarSeed(seed: bv32): (r: seq<bv64>)
    ensures ScalarSeeded(r, seed)
  {
    SeedWordsSeeded(seed);
    var r :| ScalarSeeded(r, seed); r
  }

  // ---------------------------------------------------------------------------
  // Seeding by an array of key words.

  /** The number of iterations of the first mixing pass: max(N, key length). */
  function KeyRounds(keyLength: int): (k: int)
    ensures k >= N && k >= keyLength && (k == N || k == keyLength)
  {
    if N > keyLength then N else keyLength
  }

  /** The index the mixing passes write at iteration t, counting both passes from 0:
   *  i starts at 1, and `i++; if (i >= N) i = 1`. */
  function Row(t: nat): (i: int)
    ensures 1 <= i < N
  {
    if t == 0 then 1 else var p := Row(t - 1); if p + 1 >= N then 1 else p + 1
  }

  /** One step of the written index counter. */
  lemma RowStep(t: nat)
    ensures Row(t + 1) == if Row(t) + 1 >= N then 1 else Row(t) + 1
  {
  }

  /** The written index cycles through 1, ..., N - 1: at iteration t it is 1 + t mod (N - 1). */
  lemma {:induction false} RowCycles(t: nat)
    ensures Row(t) == 1 + t % (N - 1)
  {
    if t > 0 {
      RowCycles(t - 1);
      Mt19937.ModNext(t - 1, N - 1);
    }
  }

  /** The first pass's word formula:
   *  (mt64[i] ^ ((mt64[i-1] ^ (mt64[i-1] >> 62)) * 3935559000370003845)) + init_key[j] + j. */
  function Mix1(cur: bv64, prev: bv64, key: bv64, j: nat): bv64
  {
    (cur ^ ((prev ^ (prev >> 62)) * 3935559000370003845)) + key + Word(j)
  }

  /** The second pass's word formula:
   *  (mt64[i] ^ ((mt64[i-1] ^ (mt64[i-1] >> 62)) * 2862933555777941757)) - i. */
  function Mix2(cur: bv64, prev: bv64, i: nat): bv64
  {
    (cur ^ ((prev ^ (prev >> 62)) * 2862933555777941757)) - Word(i)
  }

  /** Store w at index i; when i is the last index, also copy it into slot 0. */
  function Put(s: seq<bv64>, i: int, w: bv64): (r: seq<bv64>)
    requires |s| == N && 1 <= i < N
    ensures |r| == N && r[i] == w
    ensures i == N - 1 ==> r[0] == w
    ensures forall p :: 0 <= p < N && p != i && !(i == N - 1 && p == 0) ==> r[p] == s[p]
  {
    var t := s[i := w];
    if i + 1 >= N then t[0 := t[N - 1]] else t
  }

  /** The array after the first t iterations of the first mixing pass, started on s, where
   *  mix computes the new word at i from mt[i], mt[i - 1], init_key[j] and j. */
  function Pass1(s: seq<bv64>, key: seq<bv64>, t: nat, mix: (bv64, bv64, bv64, nat) -> bv64): (r: seq<bv64>)
    requires |s| == N && 1 <= |key| <= 0x7fff_ffff
    ensures |r| == N
    decreases t
  {
    if t == 0 then s
    else
      var p := Pass1(s, key, t - 1, mix);
      var i, j := Row(t - 1), Mt19937.KeyIndex(t - 1, |key|);
      Put(p, i, mix(p[i], p[i - 1], key[j], j))
  }

  lemma Pass1Step(s: seq<bv64>, key: seq<bv64>, t: nat, mix: (bv64, bv64, bv64, nat) -> bv64)
    requires |s| == N && 1 <= |key| <= 0x7fff_ffff
    ensures var p, i, j := Pass1(s, key, t, mix), Row(t), Mt19937.KeyIndex(t, |key|);
            Pass1(s, key, t + 1, mix) == Put(p, i, mix(p[i], p[i - 1], key[j], j))
  {
  }

  /** The array after the second mixing pass has run from iteration t0 (the iterations of
   *  the first pass) up to iteration t, started on s, where mix computes the new word at i
   *  from mt[i], mt[i - 1] and i. */
  function Pass2(s: seq<bv64>, t0: nat, t: nat, mix: (bv64, bv64, nat) -> bv64): (r: seq<bv64>)
    requires |s| == N && t0 <= t
    ensures |r| == N
    decreases t - t0
  {
    if t == t0 then s
    else
      var p := Pass2(s, t0, t - 1, mix);
      var i := Row(t - 1);
      Put(p, i, mix(p[i], p[i - 1], i))
  }

  lemma Pass2Step(s: seq<bv64>, t0: nat, t: nat, mix: (bv64, bv64, nat) -> bv64)
    requires |s| == N && t0 <= t
    ensures var p, i := Pass2(s, t0, t, mix), Row(t); Pass2(s, t0, t + 1, mix) == Put(p, i, mix(p[i], p[i - 1], i))
  {
  }

  /** What the two mixing passes do to the scalar-seeded array s, with the word formulas
   *  mix1 and mix2: max(N, |key|) iterations of the first pass and N - 1 of the second. */
  function Mixed(s: seq<bv64>, key: seq<bv64>, mix1: (bv64, bv64, bv64, nat) -> bv64, mix2: (bv64, bv64, nat) -> bv64): (r: seq<bv64>)
    requires |s| == N && 1 <= |key| <= 0x7fff_ffff
    ensures |r| == N
  {
    var k := KeyRounds(|key|);
    Pass2(Pass1(s, key, k, mix1), k, k + N - 1, mix2)
  }

  /** The array that seeding by the key produces: the mixing passes with the source's word
   *  formulas, then a most significant bit in slot 0, so that the array is never all zero. */
  ghost function ArraySeed(key: seq<bv64>): (r: seq<bv64>)
    requires 1 <= |key| <= 0x7fff_ffff
    ensures |r| == N && r[0] == 0x8000_0000_0000_0000
  {
    Mixed(ScalarSeed(19650218), key, Mix1, Mix2)[0 := 0x8000_0000_0000_0000]
  }

  // ---------------------------------------------------------------------------
  // The generator state: the array mt64 and the index mt64i.

  class Mt64 {
    const mt64: array<bv64>
    var mt64i: int

    /** The array as the last seeding left it, and the number of words drawn since then. */
    ghost var origin: seq<bv64>
    ghost var drawn: nat

    ghost predicate Wellformed()
      reads this
    {
      mt64.Length == N && 0 <= mt64i <= N + 1
    }

    /** The state is seeded, and it is the window of the seeded sequence from which the
     *  next word will be drawn: mt64i words of the current block have been used. */
    ghost predicate Valid()
      reads this, mt64
    {
      mt64.Length == N && 0 <= mt64i <= N && |origin| == N &&
      mt64[..] == Window(origin, drawn + N - mt64i)
    }

    /** The static state before any seeding: a zero array and mt64i = N + 1. */
    constructor ()
      ensures Wellformed() && fresh(mt64)
      ensures mt64[..] == seq(N, _ => 0) && mt64i == N + 1
    {
      mt64 := new bv64[N](_ => 0);
      mt64i := N + 1;
    }

    /** init_mt19937_64: seed the array with a 32-bit word. */
    method Seed(seed: bv32)
      requires Wellformed()
      modifies this, mt64
      ensures Valid() && mt64i == N
      ensures mt64[..] == ScalarSeed(seed)
      ensures origin == mt64[..] && drawn == 0
    {
      ghost var s := ScalarSeed(seed);
      mt64[0] := seed as bv64;
      mt64i := 1;
      while mt64i < N
        invariant 1 <= mt64i <= N
        invariant forall p :: 0 <= p < mt64i ==> mt64[p] == s[p]
      {
        mt64[mt64i] := SeedStep(mt64[mt64i - 1], mt64i);
        mt64i := mt64i + 1;
      }
      assert mt64[..] == s;
      Restart();
    }

    /** init_mt19937_64_by_array: seed the array with the key words.  The source reads
     *  init_key[0] unconditionally and takes the length as an int, hence the bounds. */
    method SeedByArray(key: seq<bv64>)
      requires Wellformed() && 1 <= |key| <= 0x7fff_ffff
      modifies this, mt64
      ensures Valid() && mt64i == N
      ensures mt64[..] == ArraySeed(key)
      ensures origin == mt64[..] && drawn == 0
    {
      Seed(19650218);
      Mix(key, Mix1, Mix2);
      ghost var s2 := mt64[..];
      mt64[0] := 0x8000_0000_0000_0000;
      assert mt64[..] == s2[0 := 0x8000_0000_0000_0000];
      Restart();
    }

    /** The two mixing loops of seeding by the key, with the word formulas mix1 and mix2. */
    method Mix(key: seq<bv64>, mix1: (bv64, bv64, bv64, nat) -> bv64, mix2: (bv64, bv64, nat) -> bv64)
      requires mt64.Length == N && 1 <= |key| <= 0x7fff_ffff
      modifies mt64
      ensures mt64[..] == Mixed(old(mt64[..]), key, mix1, mix2)
    {
      var i := MixKey(key, mix1);
      MixIndices(i, KeyRounds(|key|), mix2);
    }

    /** Take the current array as the start of a new stream: N words of it are used up. */
    method Restart()
      requires mt64.Length == N && mt64i == N
      modifies this
      ensures Valid() && mt64i == N
      ensures origin == mt64[..] && drawn == 0
    {
      origin := mt64[..];
      drawn := 0;
      WindowZero(origin);
    }

    /** The first mixing loop of init_mt19937_64_by_array: max(N, key_length) iterations with
     *  the word formula mix, returning the index i it stops at. */
    method MixKey(key: seq<bv64>, mix: (bv64, bv64, bv64, nat) -> bv64) returns (i: int)
      requires mt64.Length == N && 1 <= |key| <= 0x7fff_ffff
      modifies mt64
      ensures i == Row(KeyRounds(|key|))
      ensures mt64[..] == Pass1(old(mt64[..]), key, KeyRounds(|key|), mix)
    {
      var j := 0;
      i := 1;
      var k := if N > |key| then N else |key|;
      ghost var s0 := mt64[..];
      ghost var rounds := k;
      ghost var t: nat := 0;
      while k > 0
        invariant 0 <= k <= rounds && t == rounds - k
        invariant i == Row(t)
        invariant j == Mt19937.KeyIndex(t, |key|)
        invariant mt64[..] == Pass1(s0, key, t, mix)
      {
        ghost var p := mt64[..];
        var w := mix(mt64[i], mt64[i - 1], key[j], j);
        mt64[i] := w;
        i, j := i + 1, j + 1;
        if i >= N {
          mt64[0] := mt64[N - 1];
          i := 1;
        }
        if j >= |key| {
          j := 0;
        }
        assert mt64[..] == Put(p, Row(t), w);
        RowStep(t);
        Mt19937.KeyIndexStep(t, |key|);
        Pass1Step(s0, key, t, mix);
        k, t := k - 1, t + 1;
      }
      assert t == KeyRounds(|key|);
      assert s0 == old(mt64[..]);
    }

    /** The second mixing loop: N - 1 iterations with the word formula mix, continuing
     *  from the index Row(t0) the first loop stopped at. */
    method MixIndices(i0: int, ghost t0: nat, mix: (bv64, bv64, nat) -> bv64)
      requires mt64.Length == N && i0 == Row(t0)
      modifies mt64
      ensures mt64[..] == Pass2(old(mt64[..]), t0, t0 + N - 1, mix)
    {
      var i := i0;
      ghost var s1 := mt64[..];
      ghost var t: nat := t0;
      var k := N - 1;
      while k > 0
        invariant 0 <= k <= N - 1 && t == t0 + (N - 1 - k)
        invariant i == Row(t)
        invariant mt64[..] == Pass2(s1, t0, t, mix)
      {
        ghost var p := mt64[..];
        var w := mix(mt64[i], mt64[i - 1], i);
        mt64[i] := w;
        i := i + 1;
        if i >= N {
          mt64[0] := mt64[N - 1];
          i := 1;
        }
        assert mt64[..] == Put(p, Row(t), w);
        RowStep(t);
        Pass2Step(s1, t0, t, mix);
        k, t := k - 1, t + 1;
      }
      assert s1 == old(mt64[..]);
    }

    /** The three regeneration loops of mt19937_64, in place. */
    method Generate()
      requires mt64.Length == N
      modifies mt64
      ensures mt64[..] == Regenerate(old(mt64[..]))
    {
      ghost var s := mt64[..];
      ghost var r := Regenerate(s);
      var kk := TwistFirst(s, r);
      kk := TwistSecond(s, r, kk);
      assert RegeneratedAt(s, r, N - 1);
      mt64[N - 1] := Twist(mt64[N - 1], mt64[0], mt64[M - 1]);
      assert mt64[..] == r;
    }

    /** The first regeneration loop: words 0 .. N - M - 1, each from old words only. */
    method TwistFirst(ghost s: seq<bv64>, ghost r: seq<bv64>) returns (kk: int)
      requires mt64.Length == N && mt64[..] == s && Regenerated(s, r)
      modifies mt64
      ensures kk == N - M
      ensures forall p :: 0 <= p < kk ==> mt64[p] == r[p]
      ensures forall p :: kk <= p < N ==> mt64[p] == s[p]
    {
      kk := 0;
      while kk < N - M
        invariant 0 <= kk <= N - M
        invariant forall p :: 0 <= p < kk ==> mt64[p] == r[p]
        invariant forall p :: kk <= p < N ==> mt64[p] == s[p]
      {
        assert RegeneratedAt(s, r, kk);
        mt64[kk] := Twist(mt64[kk], mt64[kk + 1], mt64[kk + M]);
        kk := kk + 1;
      }
    }

    /** The second regeneration loop: words N - M .. N - 2, each reading at kk + M - N a
     *  word the first loop has already replaced. */
    method TwistSecond(ghost s: seq<bv64>, ghost r: seq<bv64>, kk0: int) returns (kk: int)
      requires mt64.Length == N && Regenerated(s, r) && kk0 == N - M
      requires forall p :: 0 <= p < kk0 ==> mt64[p] == r[p]
      requires forall p :: kk0 <= p < N ==> mt64[p] == s[p]
      modifies mt64
      ensures kk == N - 1
      ensures forall p :: 0 <= p < kk ==> mt64[p] == r[p]
      ensures mt64[N - 1] == s[N - 1]
    {
      kk := kk0;
      while kk < N - 1
        invariant N - M <= kk <= N - 1
        invariant forall p :: 0 <= p < kk ==> mt64[p] == r[p]
        invariant forall p :: kk <= p < N ==> mt64[p] == s[p]
      {
        assert RegeneratedAt(s, r, kk);
        mt64[kk] := Twist(mt64[kk], mt64[kk + 1], mt64[kk + (M - N)]);
        kk := kk + 1;
      }
    }

    /** mt19937_64: draw the next word, regenerating the array first when the block is used up.
     *  The word drawn is the tempered term N + drawn of the seeded sequence. */
    method Next() returns (y: bv64)
      requires Valid()
      modifies this, mt64
      ensures Valid() && origin == old(origin) && drawn == old(drawn) + 1
      ensures y == Temper64(Recur(origin, N + old(drawn)))
      ensures old(mt64i) < N ==> mt64[..] == old(mt64[..]) && mt64i == old(mt64i) + 1 && y == Temper64(mt64[old(mt64i)])
      ensures old(mt64i) == N ==> mt64[..] == Regenerate(old(mt64[..])) && mt64i == 1 && y == Temper64(mt64[0])
    {
      if mt64i >= N {
        Generate();
        mt64i := 0;
        RegenerateWindow(origin, drawn);
      }
      y := Temper64(mt64[mt64i]);
      mt64i := mt64i + 1;
      drawn := drawn + 1;
    }
  }
}
