# librandom generators in Dafny

This project models the pseudo-random engines of librandom:
- the three KISS generators of Marsaglia (`src/kiss.c`);
- the three combined Tausworthe generators of L'Ecuyer (`src/lfsr.c`);
- the Mersenne Twister MT19937 in its 32-bit and 64-bit forms (`src/mt19937.c`);
- the older 32-bit copy of MT19937 in `src/mt19937ar.c`.

Every engine is a class. Its fields are the state words, following the state records of the headers; the two Twisters have an `array` and an index. Every call is a method whose postcondition gives the new state and the returned word.

- `kiss.dfy` (module `Kiss`)
  - The congruential, add and multiply-with-carry words are integers below 2^32 or 2^64, with the wrap-around of `uint32_t`/`uint64_t` written out.
  - The 3-shift registers work on `bv32`/`bv64`.
  - Partners of the steps:
    - explicit inverses of the congruential and 3-shift steps, hence injectivity;
    - the exact multiply-with-carry and add-with-carry equations;
    - the carry bounds that each call keeps;
    - for kiss64, an independent exact multiply-with-carry step, `Mwc64Exact`.
- `lfsr.dfy` (module `Lfsr`)
  - The macro form and the two-statement form of the Tausworthe step, proved equal.
  - The three generators, with the constants exactly as `src/lfsr.c` writes them.
  - For every component:
    - its mask is the complement of the seed bound in `src/lfsr.h`;
    - the step keeps a seed above that bound;
    - the bits the mask clears never influence the step.
- `mt19937.dfy` (module `Mt19937`) and `mt19937_64.dfy` (module `Mt19937_64`)
  - One regeneration is specified by the linear recurrence `Recur`: x[k+N] = Twist(x[k], x[k+1], x[k+M]).
    - `Regenerated` states what the three in-place loops leave behind, including the reads of words the earlier loops have already replaced.
    - The model proves that a regeneration turns the window of N terms at offset o into the window at offset o + N.
  - Each class keeps two ghost fields: the array its last seeding produced (`origin`) and the number of words drawn since then (`drawn`).
    - `Next` returns the tempered term N + drawn of the seeded sequence.
  - Scalar seeding is specified by the `ScalarSeeded` predicate, which determines its array uniquely.
  - Seeding by a key is specified by the functions `Pass1` and `Pass2` over the counters `Row` and `KeyIndex` of the two mixing passes. Those counters are proved to be 1 + t mod (N − 1) and t mod key_length.
  - Tempering has an explicit left inverse.
- `mt19937ar.dfy` (module `Mt19937ar`)
  - The older copy. Its seeding methods Seed, MixKey and MixIndices mask every word they store with `0xffffffff`, as `src/mt19937ar.c` does at lines 119, 127, 147 and 158; regeneration and drawing are those of `src/mt19937.c`.
  - Each is proved against the specification functions of `Mt19937`. The two copies therefore produce the same arrays and the same stream.

The lfsr258 masks are the decimal literals of `src/lfsr.c:51-63`, that is 2^64 − 2, 2^64 − 512, 2^64 − 4096, 2^64 − 131072 and 2^64 − 8388608. They are the complements of the seed bounds 1, 511, 4095, 131071 and 8388607 of `src/lfsr.h` (`Lfsr.Lfsr258Masks`).

The kiss64 multiply-with-carry keeps a carry of at most 2^58. Its step is exact only for a carry below 2^58:
- `Kiss.Mwc64CarryReaches2p58` shows a seed with a 58-bit carry whose successor has carry exactly 2^58.
- `Kiss.Mwc64LosesCarryAt2p58` and `Kiss.Mwc64DiffersAt2p58` show that the next step then loses 2^64, because `(nz << 58) + nc` wraps.
- The model keeps the code's step, which is Marsaglia's published generator. `Kiss.Kiss64.Next` states that it coincides with `Mwc64Exact` whenever the carry is below 2^58.

## Model

| member | source | states |
|---|---|---|
| Kiss.XorShift32 | src/kiss.c:27-29 | computes the kiss32/kiss32a register on a 32-bit word: y ^= y << 13, then y ^= y >> 17, then y ^= y << 5 |
| Kiss.XorShift64 | src/kiss.c:86-88 | computes the kiss64 register on a 64-bit word: y ^= y << 13, then y ^= y >> 17, then y ^= y << 43 |
| Kiss.Cong32 | src/kiss.c:24 | computes the kiss32 congruential step 69069 x + 12345 reduced mod 2^32 |
| Kiss.Cong64 | src/kiss.c:83 | computes the kiss64 congruential step 6906969069 x + 1234567 reduced mod 2^64 |
| Kiss.XorShift32LeftInverse | src/kiss.c:27-29 | the three shift-and-xor steps of kiss32/kiss32a have a left inverse, so no two words have the same successor |
| Kiss.XorShift32NonZero | src/kiss.c:27-29 | the 32-bit register maps a word to zero exactly when the word is zero, so the seed condition 0 < my is kept by every call |
| Kiss.XorShift64LeftInverse | src/kiss.c:86-88 | the 13/17/43 register of kiss64 has a left inverse, so it is injective |
| Kiss.XorShift64NonZero | src/kiss.c:86-88 | the 64-bit register keeps a nonzero word nonzero and zero at zero |
| Kiss.Cong32RoundTrip | src/kiss.c:24 | 69069x + 12345 mod 2^32 is undone by multiplying by 2783094533 after subtracting 12345, so the congruential step is a bijection on words |
| Kiss.Add32 | src/kiss.c:53 | the kiss32a step x + 545925293 mod 2^32 is undone by subtracting the constant mod 2^32 |
| Kiss.Cong64RoundTrip | src/kiss.c:83 | 6906969069x + 1234567 mod 2^64 is undone with the inverse multiplier 8575357931815410149, so the kiss64 congruential step is a bijection |
| Kiss.Mwc32 | src/kiss.c:32-35 | the 64-bit product never wraps: new carry · 2^32 + new z = 698769069 · z + c; a carry below 698769069 stays below it |
| Kiss.Awc32 | src/kiss.c:61-64 | new z is the old w; new w < 2^31 and new carry ≤ 1; under z, w < 2^31 and c ≤ 1 the 32-bit sum does not wrap and new carry · 2^31 + new w = z + w + c |
| Kiss.CarryDetection64 | src/kiss.c:93-94 | after nz += t, the test nz < t holds exactly when the addition wrapped past 2^64 |
| Kiss.Mwc64 | src/kiss.c:91-94 | with a 58-bit carry the four statements compute the exact multiply-with-carry step with multiplier 2^58 + 1; a carry of at most 2^58 stays at most 2^58 |
| Kiss.Mwc64CarryReaches2p58 | src/kiss.c:91-94 | the state z = 2^64 − 1, c = 2^58 − 64, whose carry has 58 bits, steps to z = 2^64 − 65, c = 2^58 |
| Kiss.Mwc64LosesCarryAt2p58 | src/kiss.c:91-94 | from z = 2^64 − 65, c = 2^58, the result falls short of (2^58 + 1) z + c by exactly 2^64 |
| Kiss.Mwc64Exact | src/kiss.h:133-140 | the reference multiply-with-carry step with multiplier 2^58 + 1 and base 2^64: new carry · 2^64 + new z = (2^58 + 1) z + c, and a carry ≤ 2^58 stays ≤ 2^58 |
| Kiss.Mwc64AgreesBelow2p58 | src/kiss.c:91-94 | for every z and every carry below 2^58 the code's step equals the reference step |
| Kiss.Mwc64DiffersAt2p58 | src/kiss.c:91-94 | at the carry 2^58 the code's step and the reference step differ |
| Kiss.Kiss32.constructor | src/kiss.h:65-67 | a state built from a seed with 0 < my and mc < 698769069 holds exactly those words and satisfies the ranges |
| Kiss.Kiss32.Default | src/kiss.c:13-16 | the initial seeds of kiss.c, which satisfy the ranges of kiss.h |
| Kiss.Kiss32.Next | src/kiss.c:19-36 | one call: mx takes the congruential step, my the register step, (mz, mc) the multiply-with-carry step; the result is mx + my + mz mod 2^32 of the new words; the seed ranges are kept |
| Kiss.Kiss32a.constructor | src/kiss.h:114-117 | a seed with 0 < my, mz < 2^31, 0 < mw < 2^31, mc ≤ 1 and mz, mw not multiples of 7559 gives a state in range holding those words |
| Kiss.Kiss32a.Default | src/kiss.c:41-45 | the initial seeds of kiss32a under the field names of kiss32a_state_t |
| Kiss.Kiss32a.Next | src/kiss.c:48-67 | one call: the add step, the register step and the add-with-carry step, with the exact sum mc · 2^31 + mw = old mz + old mw + old mc; returns mx + my + mw mod 2^32; keeps the ranges |
| Kiss.Kiss64.constructor | src/kiss.h:139-140 | a seed with 0 < my and a 58-bit carry gives a valid state holding those words |
| Kiss.Kiss64.Default | src/kiss.c:72-75 | the initial seeds of kiss64 |
| Kiss.Kiss64.Next | src/kiss.c:78-97 | one call: congruential, register and multiply-with-carry steps; returns mx + my + mz mod 2^64; keeps 0 < my and a carry ≤ 2^58; below a carry of 2^58 the multiply-with-carry part is the reference step |
| Lfsr.Tausworthe32 | src/lfsr.c:13 | the TAUSWORTHE(s, a, b, c, d) macro on 32-bit words: ((s & c) << d) ^ (((s << a) ^ s) >> b) |
| Lfsr.Tausworthe64 | src/lfsr.c:13 | the same macro shape on 64-bit words, the independent reference for the lfsr258 statements |
| Lfsr.Step32 | src/lfsr.c:27-28 | the lfsr113 statement pair: b = ((s << a) ^ s) >> b, then s = ((s & m) << d) ^ b |
| Lfsr.Step64 | src/lfsr.c:50-51 | the lfsr258 statement pair on 64-bit words |
| Lfsr.Step32IsTausworthe | src/lfsr.c:27-28 | the `b = …; s = …` form of lfsr113 computes the TAUSWORTHE macro's step, for every parameter set |
| Lfsr.Step64IsTausworthe | src/lfsr.c:50-51 | the two-statement form of lfsr258 computes the same step on 64-bit words |
| Lfsr.Taus88Masks | src/lfsr.c:15-17 | the taus88 masks are ~1, ~7 and ~15 |
| Lfsr.Taus88Bound1 | src/lfsr.c:15 | s1 stays above its bound 1 exactly when it starts above it; at or below the bound it becomes zero |
| Lfsr.Taus88Bound2 | src/lfsr.c:16 | s2 stays above 7 exactly when it starts above 7; otherwise it becomes zero |
| Lfsr.Taus88Bound3 | src/lfsr.c:17 | s3 stays above 15 exactly when it starts above 15; otherwise it becomes zero |
| Lfsr.Taus88SignificantBits1 | src/lfsr.c:15 | the bit of s1 the mask clears does not influence its step |
| Lfsr.Taus88SignificantBits2 | src/lfsr.c:16 | the three bits of s2 the mask clears do not influence its step |
| Lfsr.Taus88SignificantBits3 | src/lfsr.c:17 | the four bits of s3 the mask clears do not influence its step |
| Lfsr.Taus88.constructor | src/lfsr.h:41-42 | a seed above 1, 7 and 15 gives a valid state holding it |
| Lfsr.Taus88.Next | src/lfsr.c:11-20 | each of s1, s2, s3 takes its own Tausworthe step with parameters (13,19,4294967294,12), (2,25,4294967288,4), (3,11,4294967280,17), depending on its own old value only; the result is the XOR of the new values; the seed bounds are kept |
| Lfsr.Lfsr113Masks | src/lfsr.c:28-37 | the lfsr113 masks are ~1, ~7, ~15 and ~127 |
| Lfsr.Lfsr113Bound1 | src/lfsr.c:27-28 | s1 stays above 1 exactly when it starts above 1; otherwise it becomes zero |
| Lfsr.Lfsr113Bound2 | src/lfsr.c:30-31 | s2 stays above 7 exactly when it starts above 7; otherwise it becomes zero |
| Lfsr.Lfsr113Bound3 | src/lfsr.c:33-34 | s3 stays above 15 exactly when it starts above 15; otherwise it becomes zero |
| Lfsr.Lfsr113Bound4 | src/lfsr.c:36-37 | s4 stays above 127 exactly when it starts above 127; otherwise it becomes zero |
| Lfsr.Lfsr113SignificantBits1 | src/lfsr.c:27-28 | the bit of s1 the mask clears does not influence its step |
| Lfsr.Lfsr113SignificantBits2 | src/lfsr.c:30-31 | the bits of s2 the mask clears do not influence its step |
| Lfsr.Lfsr113SignificantBits3 | src/lfsr.c:33-34 | the bits of s3 the mask clears do not influence its step |
| Lfsr.Lfsr113SignificantBits4 | src/lfsr.c:36-37 | the seven bits of s4 the mask clears do not influence its step |
| Lfsr.Lfsr113.constructor | src/lfsr.h:60-61 | a seed above 1, 7, 15 and 127 gives a valid state holding it |
| Lfsr.Lfsr113.Next | src/lfsr.c:23-40 | each of s1..s4 takes the Tausworthe step (6,13,~1,18), (2,27,~7,2), (13,21,~15,7), (3,12,~127,13) of its own old value; the result is the XOR of the four new values; the bounds are kept |
| Lfsr.Lfsr258Masks | src/lfsr.c:51-63 | the five decimal masks of lfsr258 are ~1, ~511, ~4095, ~131071 and ~8388607 |
| Lfsr.Lfsr258Bound1 | src/lfsr.c:50-51 | s1 stays above 1 exactly when it starts above 1; otherwise it becomes zero |
| Lfsr.Lfsr258Bound2 | src/lfsr.c:53-54 | s2 stays above 511 exactly when it starts above 511; otherwise it becomes zero |
| Lfsr.Lfsr258Bound3 | src/lfsr.c:56-57 | s3 stays above 4095 exactly when it starts above 4095; otherwise it becomes zero |
| Lfsr.Lfsr258Bound4 | src/lfsr.c:59-60 | s4 stays above 131071 exactly when it starts above 131071; otherwise it becomes zero |
| Lfsr.Lfsr258Bound5 | src/lfsr.c:62-63 | s5 stays above 8388607 exactly when it starts above 8388607; otherwise it becomes zero |
| Lfsr.Lfsr258SignificantBits1 | src/lfsr.c:50-51 | the bit of s1 the mask clears does not influence its step |
| Lfsr.Lfsr258SignificantBits2 | src/lfsr.c:53-54 | the nine bits of s2 the mask clears do not influence its step |
| Lfsr.Lfsr258SignificantBits3 | src/lfsr.c:56-57 | the twelve bits of s3 the mask clears do not influence its step |
| Lfsr.Lfsr258SignificantBits4 | src/lfsr.c:59-60 | the seventeen bits of s4 the mask clears do not influence its step |
| Lfsr.Lfsr258SignificantBits5 | src/lfsr.c:62-63 | the twenty-three bits of s5 the mask clears do not influence its step |
| Lfsr.Lfsr258.constructor | src/lfsr.h:81-82 | a seed above 1, 511, 4095, 131071 and 8388607 gives a valid state holding it |
| Lfsr.Lfsr258.Next | src/lfsr.c:46-66 | each of s1..s5 takes the 64-bit Tausworthe step (1,53,·,10), (24,50,·,5), (3,23,·,29), (5,24,·,23), (3,33,·,8) with the masks as written, of its own old value; returns the XOR of the five new values; keeps the bounds |
| Mt19937.Twist | src/mt19937.c:99-100 | one regeneration word: y is the top bit of the first word and the low 31 bits of the second; the result is the far word ^ (y >> 1) ^ mag01[y & 1] |
| Mt19937.Recur | src/mt19937.c:97-110 | term j of the sequence whose first N terms are the array, by x[j] = Twist(x[j − N], x[j − N + 1], x[j − N + M]) |
| Mt19937.Temper32 | src/mt19937.c:118-121 | the tempering y ^= y >> 11; y ^= (y << 7) & 0x9d2c5680; y ^= (y << 15) & 0xefc60000; y ^= y >> 18 |
| Mt19937.Word | src/mt19937.c:132 | the int loop counter converted to an unsigned 32-bit word, as it enters the seeding and mixing sums |
| Mt19937.SeedStep | src/mt19937.c:132 | the seeding word 1812433253 · (prev ^ (prev >> 30)) + i in 32-bit arithmetic |
| Mt19937.Mask32 | src/mt19937ar.c:127 | the `& 0xffffffff` of the older copy, on a 32-bit word |
| Mt19937.Mix1 | src/mt19937.c:153-154 | the first pass's word (mt[i] ^ ((mt[i−1] ^ (mt[i−1] >> 30)) · 1664525)) + init_key[j] + j in 32-bit arithmetic |
| Mt19937.Mix2 | src/mt19937.c:163-164 | the second pass's word (mt[i] ^ ((mt[i−1] ^ (mt[i−1] >> 30)) · 1566083941)) − i in 32-bit arithmetic |
| Mt19937.Pass1 | src/mt19937.c:151-159 | the array after t iterations of the first loop: each stores the formula's word at Row, reading the key at KeyIndex, and copies mt[N − 1] into slot 0 on wrapping |
| Mt19937.Pass2 | src/mt19937.c:161-167 | the array after the second loop's iterations from t0 to t, continuing the same index counter |
| Mt19937.Mixed | src/mt19937.c:149-167 | both passes: max(N, key_length) iterations of the first, then N − 1 of the second |
| Mt19937.Mag01 | src/mt19937.c:90 | mag01[y & 1] is zero exactly when the low bit of y is clear, and MATRIX_A otherwise |
| Mt19937.WindowZero | src/mt19937.c:93 | the first N terms of the sequence started by an array are the array itself, so a freshly seeded array with mti = N is the window at offset 0 that the next call regenerates (used by the classes' Restart and Valid) |
| Mt19937.WindowRegenerated | src/mt19937.c:97-110 | the next N terms of the recurrence satisfy what the three in-place loops write, index by index, including the reads at kk + M − N of already-replaced words and the last word built from the new words at 0 and M − 1 |
| Mt19937.RegeneratedUnique | src/mt19937.c:97-110 | what the loops write is determined word after word, so a regeneration of an array is unique |
| Mt19937.Regenerate | src/mt19937.c:97-110 | the array after one regeneration, characterised by the loop equations |
| Mt19937.RegenerateWindow | src/mt19937.c:93-112 | regenerating the window of terms o..o + N − 1 of the recurrence gives the window o + N..o + 2N − 1 |
| Mt19937.Temper32LeftInverse | src/mt19937.c:118-121 | tempering with shifts 11, 7, 15, 18 and masks 0x9d2c5680, 0xefc60000 has a left inverse, so no two words temper to the same output |
| Mt19937.Mask32Identity | src/mt19937.c:129 | `x & 0xffffffff` is the identity on 32-bit words |
| Mt19937.SeedWordsSeeded | src/mt19937.c:130-137 | for every seed there is an array with mt[0] = seed and mt[i] = 1812433253 · (mt[i−1] ^ (mt[i−1] >> 30)) + i mod 2^32 |
| Mt19937.ScalarSeededUnique | src/mt19937.c:127-138 | two arrays that both satisfy the seeding recurrence for one seed are equal |
| Mt19937.ScalarSeed | src/mt19937.c:127-138 | the array scalar seeding produces: the seed at 0 and the recurrence above |
| Mt19937.KeyRounds | src/mt19937.c:149 | the first pass runs max(N, key_length) times: at least N, at least key_length, and one of the two |
| Mt19937.Row | src/mt19937.c:156-157 | the written index of either mixing pass stays in [1, N − 1] |
| Mt19937.KeyIndex | src/mt19937.c:156-158 | the key index stays in [0, key_length) |
| Mt19937.RowCycles | src/mt19937.c:156-157 | after any number of iterations t the written index is 1 + t mod (N − 1): it wraps from N − 1 to 1 |
| Mt19937.KeyIndexCycles | src/mt19937.c:156-158 | after t iterations the key index is t mod key_length |
| Mt19937.Put | src/mt19937.c:153-157 | storing a word at i puts it at i, and when i is N − 1 also copies it into slot 0; every other word is unchanged |
| Mt19937.ArraySeed | src/mt19937.c:143-170 | the array seeding by a key produces: both mixing passes on the scalar seed 19650218, then mt[0] = 0x80000000, so the array is never all zero |
| Mt19937.Mt32.constructor | src/mt19937.c:83-84 | the static state before seeding: N zero words and mti = N + 1 |
| Mt19937.Mt32.Seed | src/mt19937.c:127-138 | init_mt19937ar leaves mt equal to ScalarSeed(seed) and mti = N, so the next call regenerates; the new stream starts at this array |
| Mt19937.Mt32.SeedByArray | src/mt19937.c:143-170 | for any key of length ≥ 1, init_mt19937ar_by_array leaves mt equal to ArraySeed(key), mt[0] = 0x80000000 and mti = N |
| Mt19937.Mt32.Mix | src/mt19937.c:151-167 | the two mixing loops together compute Pass2 after Pass1 of the array, for any word formula |
| Mt19937.Mt32.MixKey | src/mt19937.c:151-159 | the first loop computes Pass1 over max(N, key_length) iterations, with every index in bounds, and stops at index Row(KeyRounds) |
| Mt19937.Mt32.MixIndices | src/mt19937.c:161-167 | the second loop continues from that index and computes N − 1 further iterations of Pass2 |
| Mt19937.Mt32.Generate | src/mt19937.c:97-110 | the three in-place loops leave Regenerate of the old array |
| Mt19937.Mt32.TwistFirst | src/mt19937.c:97-101 | the first loop replaces words 0..N − M − 1 by their regenerated values and leaves the rest untouched |
| Mt19937.Mt32.TwistSecond | src/mt19937.c:103-107 | the second loop replaces words N − M..N − 2, reading at kk + M − N words the first loop replaced, and leaves the last word untouched |
| Mt19937.Mt32.Next | src/mt19937.c:87-124 | a call returns the tempered term N + drawn of the seeded sequence; with mti < N it changes no array word and increments mti; with mti = N it regenerates, returns Temper32(mt[0]) and leaves mti = 1 |
| Mt19937_64.Twist | src/mt19937.c:197-198 | one 64-bit regeneration word: the upper 33 bits of the first word and the lower 31 of the second, shifted right once, xored with the far word and mag01[x & 1] |
| Mt19937_64.Recur | src/mt19937.c:195-208 | term j of the 64-bit sequence whose first NN terms are the array |
| Mt19937_64.Temper64 | src/mt19937.c:216-219 | the tempering x ^= (x >> 29) & 0x5555555555555555; x ^= (x << 17) & 0x71D67FFFEDA60000; x ^= (x << 37) & 0xFFF7EEE000000000; x ^= x >> 43 |
| Mt19937_64.SeedStep | src/mt19937.c:230-231 | the seeding word 6364136223846793005 · (prev ^ (prev >> 62)) + i in 64-bit arithmetic |
| Mt19937_64.Mix1 | src/mt19937.c:248-250 | the first pass's word with multiplier 3935559000370003845 and shift 62, plus init_key[j] + j |
| Mt19937_64.Mix2 | src/mt19937.c:258-260 | the second pass's word with multiplier 2862933555777941757 and shift 62, minus i |
| Mt19937_64.Pass1 | src/mt19937.c:246-254 | the array after t iterations of the first 64-bit loop, with the wrap copy into slot 0 |
| Mt19937_64.Pass2 | src/mt19937.c:256-263 | the array after the second 64-bit loop's iterations from t0 to t |
| Mt19937_64.Mixed | src/mt19937.c:244-263 | both passes: max(NN, key_length) iterations of the first, then NN − 1 of the second |
| Mt19937_64.Mag01 | src/mt19937.c:189 | mag01[x & 1] is zero exactly when the low bit of x is clear, and MATRIX_AA otherwise |
| Mt19937_64.WindowZero | src/mt19937.c:191 | the first NN terms of the sequence started by an array are the array itself, so a freshly seeded array with mt64i = NN is the window at offset 0 that the next call regenerates (used by Restart and Valid) |
| Mt19937_64.WindowRegenerated | src/mt19937.c:195-208 | the next NN terms of the 64-bit recurrence satisfy what the three in-place loops write, index by index |
| Mt19937_64.RegeneratedUnique | src/mt19937.c:195-208 | a 64-bit regeneration of an array is unique |
| Mt19937_64.Regenerate | src/mt19937.c:195-208 | the array after one 64-bit regeneration, characterised by the loop equations |
| Mt19937_64.RegenerateWindow | src/mt19937.c:191-210 | regenerating the window at offset o of the recurrence gives the window at offset o + NN |
| Mt19937_64.Temper64LeftInverse | src/mt19937.c:216-219 | tempering with 29/0x5555…, 17/0x71D67FFFEDA60000, 37/0xFFF7EEE000000000 and 43 has a left inverse, so it is injective |
| Mt19937_64.SeedWordsSeeded | src/mt19937.c:228-232 | for every 32-bit seed there is an array with mt64[0] = seed and mt64[i] = 6364136223846793005 · (mt64[i−1] ^ (mt64[i−1] >> 62)) + i mod 2^64 |
| Mt19937_64.ScalarSeededUnique | src/mt19937.c:225-233 | two arrays satisfying the 64-bit seeding recurrence for one seed are equal |
| Mt19937_64.ScalarSeed | src/mt19937.c:225-233 | the array init_mt19937_64 produces from its 32-bit seed |
| Mt19937_64.KeyRounds | src/mt19937.c:244 | the first pass runs max(NN, key_length) times |
| Mt19937_64.Row | src/mt19937.c:251-252 | the written index of either mixing pass stays in [1, NN − 1] |
| Mt19937_64.RowCycles | src/mt19937.c:251-252 | after t iterations the written index is 1 + t mod (NN − 1) |
| Mt19937_64.Put | src/mt19937.c:248-252 | storing a word at i puts it at i, and when i is NN − 1 also copies it into slot 0; every other word is unchanged |
| Mt19937_64.ArraySeed | src/mt19937.c:238-266 | the array seeding by a key produces: both 64-bit mixing passes on the scalar seed 19650218, then mt64[0] = 2^63 |
| Mt19937_64.Mt64.constructor | src/mt19937.c:182-183 | the static state before seeding: NN zero words and mt64i = NN + 1 |
| Mt19937_64.Mt64.Seed | src/mt19937.c:225-233 | init_mt19937_64 leaves mt64 equal to ScalarSeed(seed) and mt64i = NN |
| Mt19937_64.Mt64.SeedByArray | src/mt19937.c:238-266 | for any key of length ≥ 1 the array becomes ArraySeed(key), with mt64[0] = 2^63 and mt64i = NN |
| Mt19937_64.Mt64.Mix | src/mt19937.c:246-263 | the two mixing loops compute Pass2 after Pass1, for any word formula |
| Mt19937_64.Mt64.MixKey | src/mt19937.c:246-254 | the first loop computes Pass1 over max(NN, key_length) iterations and stops at index Row(KeyRounds) |
| Mt19937_64.Mt64.MixIndices | src/mt19937.c:256-263 | the second loop computes NN − 1 further iterations of Pass2 from that index |
| Mt19937_64.Mt64.Generate | src/mt19937.c:195-208 | the three in-place loops leave Regenerate of the old array |
| Mt19937_64.Mt64.TwistFirst | src/mt19937.c:195-199 | the first loop replaces words 0..NN − MM − 1 and leaves the rest untouched |
| Mt19937_64.Mt64.TwistSecond | src/mt19937.c:201-205 | the second loop replaces words NN − MM..NN − 2, reading words already replaced, and leaves the last word untouched |
| Mt19937_64.Mt64.Next | src/mt19937.c:186-222 | a call returns the tempered term NN + drawn of the seeded sequence; below NN it only increments mt64i; at NN it regenerates, returns Temper64(mt64[0]) and leaves mt64i = 1 |
| Mt19937ar.Mt32.constructor | src/mt19937ar.c:73-74 | the static state before seeding: N zero words and mti = N + 1 |
| Mt19937ar.Mt32.Seed | src/mt19937ar.c:117-130 | with the extra mask after every store, init_mt19937ar still leaves exactly Mt19937.ScalarSeed(seed) and mti = N |
| Mt19937ar.Mt32.SeedByArray | src/mt19937ar.c:135-165 | with the masks in both passes, seeding by a key leaves exactly Mt19937.ArraySeed(key), mt[0] = 0x80000000 and mti = N |
| Mt19937ar.Mt32.Mix | src/mt19937ar.c:143-162 | the two masked mixing loops compute the same Pass2 after Pass1 as src/mt19937.c |
| Mt19937ar.Mt32.MixKey | src/mt19937ar.c:143-152 | the masked first loop computes Mt19937.Pass1 and stops at index Row(KeyRounds) |
| Mt19937ar.Mt32.MixIndices | src/mt19937ar.c:154-162 | the masked second loop computes Mt19937.Pass2 |
| Mt19937ar.Mt32.Generate | src/mt19937ar.c:87-100 | the three in-place loops leave Mt19937.Regenerate of the old array |
| Mt19937ar.Mt32.TwistFirst | src/mt19937ar.c:87-91 | the first loop replaces words 0..N − M − 1 and leaves the rest untouched |
| Mt19937ar.Mt32.TwistSecond | src/mt19937ar.c:93-97 | the second loop replaces words N − M..N − 2 from words already replaced, and leaves the last word |
| Mt19937ar.Mt32.Next | src/mt19937ar.c:77-114 | the same stream as Mt19937.Mt32.Next: the tempered term N + drawn; below N only mti changes; at N it regenerates and leaves mti = 1 |

## Left out

- The test programs under `tests/` and `src/test/` are not modelled. They do file input, printing and assertions against fixtures of up to 10^8 outputs.
- Process-wide state: kiss.c's globals and the static arrays and indices of the Twisters become the fields of one object per generator. The calls take no state other than that object.
- Conditional compilation (`#ifdef UINT64_C`, `#ifdef UINT64_MAX`) is not modelled: both widths are always present.
- Drawing from an unseeded Twister is not specified. The headers require seeding first, so `Next` requires a seeded state. The constructor only gives the initial array and index.
- Period lengths, uniformity and equidistribution are number-theoretic and statistical claims, and are not proved.
- Injectivity of the 3-shift registers and of tempering is shown by left inverses. That the maps are onto follows for finite words, but the model does not state it.
- Word: the conversion of the int loop counters mti, i and j to unsigned words is modelled by counting up in 32-bit or 64-bit arithmetic. It is not proved equal to n mod 2^32 as an integer fact.
- Mt19937.Mt32.Mix: the mixing loops take their word formula as a parameter and are proved for every formula; seeding by a key passes the source's two formulas.
- Mt19937ar: the file writes its constants with `INT32_C`. Like unsuffixed hexadecimal literals, they keep their values in the unsigned arithmetic of the words, and the model uses those values.
- Kiss32a.Next: the seed conditions 0 < aw and "not a multiple of 7559" are required of a seed only. A call is not claimed to keep them, and the sum can make the new aw zero.
- Kiss64.Next keeps a carry of at most 2^58, not the 58-bit carry seeds are asked for. The code can produce a carry of exactly 2^58, so the multiply-with-carry equation is stated only for carries below 2^58.
- The key-seeding methods take `key_length` as the length of the key sequence, with 1 ≤ length ≤ 2^31 − 1. The source reads init_key[0] unconditionally and declares the length as int.
