/** The older copy of the 32-bit Mersenne Twister, src/mt19937ar.c.  It is the generator of
 *  module Mt19937 with an extra `x &= 0xffffffff` after every word the seeding loops store,
 *  a step that only matters where words are wider than 32 bits.  Every method here is
 *  proved against the specification functions of module Mt19937, so the two copies seed
 *  the same arrays and draw the same words.
 */
module Mt19937ar {

  import Mt19937

  class Mt32 {
    const mt: array<bv32>
    var mti: int

    /** The array as the last seeding left it, and the number of words drawn since then. */
    ghost var origin: seq<bv32>
    ghost var drawn: nat

    ghost predicate Wellformed()
      reads this
    {
      mt.Length == Mt19937.N && 0 <= mti <= Mt19937.N + 1
    }

    /** The state is seeded, and it is the window of the seeded sequence from which the
     *  next word will be drawn: mti words of the current block have been used. */
    ghost predicate Valid()
      reads this, mt
    {
      mt.Length == Mt19937.N && 0 <= mti <= Mt19937.N && |origin| == Mt19937.N &&
      mt[..] == Mt19937.Window(origin, drawn + Mt19937.N - mti)
    }

    /** The static state before any seeding: a zero array and mti = N + 1. */
    constructor ()
      ensures Wellformed() && fresh(mt)
      ensures mt[..] == seq(Mt19937.N, _ => 0) && mti == Mt19937.N + 1
    {
      mt := new bv32[Mt19937.N](_ => 0);
      mti := Mt19937.N + 1;
    }

    /** init_mt19937ar: seed the array with a 32-bit word, masking every word it stores. */
    method Seed(seed: bv32)
      requires Wellformed()
      modifies this, mt
      ensures Valid() && mti == Mt19937.N
      ensures mt[..] == Mt19937.ScalarSeed(seed)
      ensures origin == mt[..] && drawn == 0
    {
      ghost var s := Mt19937.ScalarSeed(seed);
      mt[0] := Mt19937.Mask32(seed);
      Mt19937.Mask32Identity(seed);
      mti := 1;
      while mti < Mt19937.N
        invariant 1 <= mti <= Mt19937.N
        invariant forall p :: 0 <= p < mti ==> mt[p] == s[p]
      {
        mt[mti] := Mt19937.SeedStep(mt[mti - 1], mti);
        Mt19937.Mask32Identity(mt[mti]);
        mt[mti] := Mt19937.Mask32(mt[mti]);
        mti := mti + 1;
      }
      assert mt[..] == s;
      Restart();
    }

    /** init_mt19937ar_by_array: seed the array with the key words.  The source reads
     *  init_key[0] unconditionally and takes the length as an int, hence the bounds. */
    method SeedByArray(key: seq<bv32>)
      requires Wellformed() && 1 <= |key| <= 0x7fff_ffff
      modifies this, mt
      ensures Valid() && mti == Mt19937.N
      ensures mt[..] == Mt19937.ArraySeed(key)
      ensures origin == mt[..] && drawn == 0
    {
      Seed(19650218);
      Mix(key, Mt19937.Mix1, Mt19937.Mix2);
      ghost var s2 := mt[..];
      mt[0] := 0x8000_0000;
      assert mt[..] == s2[0 := 0x8000_0000];
      Restart();
    }

    /** The two mixing loops of seeding by the key, with the word formulas mix1 and mix2. */
    method Mix(key: seq<bv32>, mix1: (bv32, bv32, bv32, nat) -> bv32, mix2: (bv32, bv32, nat) -> bv32)
      requires mt.Length == Mt19937.N && 1 <= |key| <= 0x7fff_ffff
      modifies mt
      ensures mt[..] == Mt19937.Mixed(old(mt[..]), key, mix1, mix2)
    {
      var i := MixKey(key, mix1);
      MixIndices(i, Mt19937.KeyRounds(|key|), mix2);
    }

    /** Take the current array as the start of a new stream: N words of it are used up. */
    method Restart()
      requires mt.Length == Mt19937.N && mti == Mt19937.N
      modifies this
      ensures Valid() && mti == Mt19937.N
      ensures origin == mt[..] && drawn == 0
    {
      origin := mt[..];
      drawn := 0;
      Mt19937.WindowZero(origin);
    }

    /** The first mixing loop of init_mt19937ar_by_array, with the extra mask: max(N, key_length)
     *  iterations with the word formula mix, returning the index i it stops at. */
    method MixKey(key: seq<bv32>, mix: (bv32, bv32, bv32, nat) -> bv32) returns (i: int)
      requires mt.Length == Mt19937.N && 1 <= |key| <= 0x7fff_ffff
      modifies mt
      ensures i == Mt19937.Row(Mt19937.KeyRounds(|key|))
      ensures mt[..] == Mt19937.Pass1(old(mt[..]), key, Mt19937.KeyRounds(|key|), mix)
    {
      var j := 0;
      i := 1;
      var k := if Mt19937.N > |key| then Mt19937.N else |key|;
      ghost var s0 := mt[..];
      ghost var rounds := k;
      ghost var t: nat := 0;
      while k > 0
        invariant 0 <= k <= rounds && t == rounds - k
        invariant i == Mt19937.Row(t)
        invariant j == Mt19937.KeyIndex(t, |key|)
        invariant mt[..] == Mt19937.Pass1(s0, key, t, mix)
      {
        ghost var p := mt[..];
        var w := mix(mt[i], mt[i - 1], key[j], j);
        mt[i] := w;
        Mt19937.Mask32Identity(mt[i]);
        mt[i] := Mt19937.Mask32(mt[i]);
        i, j := i + 1, j + 1;
        if i >= Mt19937.N {
          mt[0] := mt[Mt19937.N - 1];
          i := 1;
        }
        if j >= |key| {
          j := 0;
        }
        assert mt[..] == Mt19937.Put(p, Mt19937.Row(t), w);
        Mt19937.RowStep(t);
        Mt19937.KeyIndexStep(t, |key|);
        Mt19937.Pass1Step(s0, key, t, mix);
        k, t := k - 1, t + 1;
      }
      assert t == Mt19937.KeyRounds(|key|);
      assert s0 == old(mt[..]);
    }

    /** The second mixing loop, with the extra mask: N - 1 iterations with the word formula mix, continuing
     *  from the index Row(t0) the first loop stopped at. */
    method MixIndices(i0: int, ghost t0: nat, mix: (bv32, bv32, nat) -> bv32)
      requires mt.Length == Mt19937.N && i0 == Mt19937.Row(t0)
      modifies mt
      ensures mt[..] == Mt19937.Pass2(old(mt[..]), t0, t0 + Mt19937.N - 1, mix)
    {
      var i := i0;
      ghost var s1 := mt[..];
      ghost var t: nat := t0;
      var k := Mt19937.N - 1;
      while k > 0
        invariant 0 <= k <= Mt19937.N - 1 && t == t0 + (Mt19937.N - 1 - k)
        invariant i == Mt19937.Row(t)
        invariant mt[..] == Mt19937.Pass2(s1, t0, t, mix)
      {
        ghost var p := mt[..];
        var w := mix(mt[i], mt[i - 1], i);
        mt[i] := w;
        Mt19937.Mask32Identity(mt[i]);
        mt[i] := Mt19937.Mask32(mt[i]);
        i := i + 1;
        if i >= Mt19937.N {
          mt[0] := mt[Mt19937.N - 1];
          i := 1;
        }
        assert mt[..] == Mt19937.Put(p, Mt19937.Row(t), w);
        Mt19937.RowStep(t);
        Mt19937.Pass2Step(s1, t0, t, mix);
        k, t := k - 1, t + 1;
      }
      assert s1 == old(mt[..]);
    }

    /** The three regeneration loops of mt19937ar, in place. */
    method Generate()
      requires mt.Length == Mt19937.N
      modifies mt
      ensures mt[..] == Mt19937.Regenerate(old(mt[..]))
    {
      ghost var s := mt[..];
      ghost var r := Mt19937.Regenerate(s);
      var kk := TwistFirst(s, r);
      kk := TwistSecond(s, r, kk);
      assert Mt19937.RegeneratedAt(s, r, Mt19937.N - 1);
      mt[Mt19937.N - 1] := Mt19937.Twist(mt[Mt19937.N - 1], mt[0], mt[Mt19937.M - 1]);
      assert mt[..] == r;
    }

    /** The first regeneration loop: words 0 .. N - M - 1, each from old words only. */
    method TwistFirst(ghost s: seq<bv32>, ghost r: seq<bv32>) returns (kk: int)
      requires mt.Length == Mt19937.N && mt[..] == s && Mt19937.Regenerated(s, r)
      modifies mt
      ensures kk == Mt19937.N - Mt19937.M
      ensures forall p :: 0 <= p < kk ==> mt[p] == r[p]
      ensures forall p :: kk <= p < Mt19937.N ==> mt[p] == s[p]
    {
      kk := 0;
      while kk < Mt19937.N - Mt19937.M
        invariant 0 <= kk <= Mt19937.N - Mt19937.M
        invariant forall p :: 0 <= p < kk ==> mt[p] == r[p]
        invariant forall p :: kk <= p < Mt19937.N ==> mt[p] == s[p]
      {
        assert Mt19937.RegeneratedAt(s, r, kk);
        mt[kk] := Mt19937.Twist(mt[kk], mt[kk + 1], mt[kk + Mt19937.M]);
        kk := kk + 1;
      }
    }

    /** The second regeneration loop: words N - M .. N - 2, each reading at kk + M - N a
     *  word the first loop has already replaced. */
    method TwistSecond(ghost s: seq<bv32>, ghost r: seq<bv32>, kk0: int) returns (kk: int)
      requires mt.Length == Mt19937.N && Mt19937.Regenerated(s, r) && kk0 == Mt19937.N - Mt19937.M
      requires forall p :: 0 <= p < kk0 ==> mt[p] == r[p]
      requires forall p :: kk0 <= p < Mt19937.N ==> mt[p] == s[p]
      modifies mt
      ensures kk == Mt19937.N - 1
      ensures forall p :: 0 <= p < kk ==> mt[p] == r[p]
      ensures mt[Mt19937.N - 1] == s[Mt19937.N - 1]
    {
      kk := kk0;
      while kk < Mt19937.N - 1
        invariant Mt19937.N - Mt19937.M <= kk <= Mt19937.N - 1
        invariant forall p :: 0 <= p < kk ==> mt[p] == r[p]
        invariant forall p :: kk <= p < Mt19937.N ==> mt[p] == s[p]
      {
        assert Mt19937.RegeneratedAt(s, r, kk);
        mt[kk] := Mt19937.Twist(mt[kk], mt[kk + 1], mt[kk + (Mt19937.M - Mt19937.N)]);
        kk := kk + 1;
      }
    }

    /** mt19937ar: draw the next word, regenerating the array first when the block is used up.
     *  The word drawn is the tempered term N + drawn of the seeded sequence. */
    method Next() returns (y: bv32)
      requires Valid()
      modifies this, mt
      ensures Valid() && origin == old(origin) && drawn == old(drawn) + 1
      ensures y == Mt19937.Temper32(Mt19937.Recur(origin, Mt19937.N + old(drawn)))
      ensures old(mti) < Mt19937.N ==> mt[..] == old(mt[..]) && mti == old(mti) + 1 && y == Mt19937.Temper32(mt[old(mti)])
      ensures old(mti) == Mt19937.N ==> mt[..] == Mt19937.Regenerate(old(mt[..])) && mti == 1 && y == Mt19937.Temper32(mt[0])
    {
      if mti >= Mt19937.N {
        Generate();
        mti := 0;
        Mt19937.RegenerateWindow(origin, drawn);
      }
      y := Mt19937.Temper32(mt[mti]);
      mti := mti + 1;
      drawn := drawn + 1;
    }
  }
}
