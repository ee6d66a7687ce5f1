/** `ARDOUR::DSP::Generator` (libs/ardour/dsp_filter.cc:944-1025): a noise
    source driven by the Park–Miller "minimal standard" generator
    (Park & Miller, Communications of the ACM 31(10), 1988), computed with
    Carta's division-free reduction in 32-bit unsigned arithmetic. */
module Noise {

  /** 2^32: every `uint32_t` result is reduced modulo this. */
  const U32: nat := 0x1_0000_0000

  /** The Park–Miller modulus 2^31 - 1. */
  const M: nat := 0x7fff_ffff

  /** The multiplier 7^5. */
  const A: nat := 16807

  /** `randi ()` on the seed (dsp_filter.cc:991-1002), every step an
      unsigned 32-bit operation: `& (2^k - 1)` is `% 2^k`, `>> k` is
      `/ 2^k`, `<< 16` is `* 2^16`, and each result wraps modulo 2^32. */
  function Randi(seed: nat): (r: nat)
    requires seed < U32
    ensures r < U32
  {
    var lo := (A * (seed % 0x1_0000)) % U32;
    var hi := (A * (seed / 0x1_0000)) % U32;
    var lo1 := (lo + ((hi % 0x8000) * 0x1_0000) % U32) % U32;
    var lo2 := (lo1 + hi / 0x8000) % U32;
    (lo2 % 0x8000_0000 + lo2 / 0x8000_0000) % U32
  }

  /** None of the 32-bit steps of `randi` wraps, whatever the seed: the
      same steps on unbounded integers give the same result. */
  lemma RandiNoWrap(seed: nat)
    requires seed < U32
    ensures var lo := A * (seed % 0x1_0000);
            var hi := A * (seed / 0x1_0000);
            var lo1 := lo + (hi % 0x8000) * 0x1_0000;
            var lo2 := lo1 + hi / 0x8000;
            && lo < U32 && hi < U32 && lo1 < U32 && lo2 < U32
            && lo2 % 0x8000_0000 + lo2 / 0x8000_0000 < U32
            && Randi(seed) == lo2 % 0x8000_0000 + lo2 / 0x8000_0000
  {
    var sl := seed % 0x1_0000;
    var sh := seed / 0x1_0000;
    StepBounds(sl, sh);
    var lo := A * sl;
    var hi := A * sh;
    var lo1 := lo + (hi % 0x8000) * 0x1_0000;
    var lo2 := lo1 + hi / 0x8000;
    Small(lo);
    Small(hi);
    Small((hi % 0x8000) * 0x1_0000);
    Small(lo1);
    Small(lo2);
    Small(lo2 % 0x8000_0000 + lo2 / 0x8000_0000);
  }

  /** The unbounded values of the steps of `randi` for the two 16-bit
      halves of the seed. */
  lemma StepBounds(sl: nat, sh: nat)
    requires sl < 0x1_0000 && sh < 0x1_0000
    ensures A * sl <= A * 0xffff && A * sh <= A * 0xffff
    ensures A * sl + ((A * sh) % 0x8000) * 0x1_0000 + (A * sh) / 0x8000 <= 3248898470
    ensures ((A * sh) % 0x8000) * 0x1_0000 <= 0x7fff * 0x1_0000
  {
    var lo := A * sl;
    var hi := A * sh;
    assert lo <= A * 0xffff && hi <= A * 0xffff;
    assert (hi % 0x8000) * 0x1_0000 <= 0x7fff * 0x1_0000;
  }

  /** A value below 2^32 is its own 32-bit residue. */
  lemma Small(x: nat)
    requires x < U32
    ensures x % U32 == x
  {
  }

  /** The reduction step of `randi` never yields more than 2^31 - 1: `lo2`
      stays below 2^32 - 1. */
  lemma FoldBound(lo2: nat)
    requires lo2 <= 3248898470
    ensures lo2 % 0x8000_0000 + lo2 / 0x8000_0000 <= M
    ensures lo2 % 0x8000_0000 + lo2 / 0x8000_0000 == lo2 - M * (lo2 / 0x8000_0000)
  {
  }

  /** `A * 1407677000 == 1 + 11017 * M` makes `A` invertible modulo `M`:
      from `A * s == k * M + rem` it recovers `s` as a multiple of `M` plus
      `rem * 1407677000`. */
  lemma {:induction false} RecoverSeed(s: int, k: int, rem: int)
    requires A * s == k * M + rem
    ensures s == M * (k * 1407677000 - 11017 * s) + rem * 1407677000
  {
    assert A * 1407677000 == 1 + 11017 * M;
    calc {
      s;
      == s * (A * 1407677000) - s * (11017 * M);
      == (A * s) * 1407677000 - M * (11017 * s);
      == (k * M + rem) * 1407677000 - M * (11017 * s);
      == M * (k * 1407677000) + rem * 1407677000 - M * (11017 * s);
      == M * (k * 1407677000 - 11017 * s) + rem * 1407677000;
    }
  }

  /** No multiple of `M` lies strictly between 0 and `M`. */
  lemma NoMultipleBetween(s: int, j: int)
    requires 1 <= s < M
    ensures s != M * j
  {
    if j >= 1 {
      assert M * j >= M;
    } else {
      assert M * j <= 0;
    }
  }

  /** `A * s` is not a multiple of `M` for a seed strictly between 0 and M. */
  lemma NotMultiple(s: nat)
    requires 1 <= s < M
    ensures (A * s) % M != 0
  {
    var k := (A * s) / M;
    var rem := (A * s) % M;
    RecoverSeed(s, k, rem);
    NoMultipleBetween(s, k * 1407677000 - 11017 * s);
  }

  /** For every seed in [1, 2^31 - 2], `randi` computes the Park–Miller step
      `16807 * seed mod (2^31 - 1)`, and the new seed is again in
      [1, 2^31 - 2]. */
  lemma {:induction false} RandiIsParkMiller(seed: nat)
    requires 1 <= seed < M
    ensures Randi(seed) == (A * seed) % M
    ensures 1 <= Randi(seed) < M
  {
    RandiNoWrap(seed);
    var sl := seed % 0x1_0000;
    var sh := seed / 0x1_0000;
    var lo := A * sl;
    var hi := A * sh;
    var hl := hi % 0x8000;
    var hh := hi / 0x8000;
    var lo1 := lo + hl * 0x1_0000;
    var lo2 := lo1 + hh;
    assert seed == sh * 0x1_0000 + sl;
    assert hi == hh * 0x8000 + hl;
    // A * seed == lo1 + hh * 2^31, and 2^31 == M + 1
    assert A * seed == lo + hi * 0x1_0000;
    assert hi * 0x1_0000 == hh * 0x8000_0000 + hl * 0x1_0000;
    assert A * seed == lo2 + hh * M;
    FoldBound(lo2);
    var r := lo2 % 0x8000_0000 + lo2 / 0x8000_0000;
    assert Randi(seed) == r;
    assert A * seed == r + M * (hh + lo2 / 0x8000_0000);
    NotMultiple(seed);
    ResidueOf(A * seed, r, hh + lo2 / 0x8000_0000);
  }

  /** `x == r + M * q` with `0 <= r <= M` and `x` not a multiple of `M`
      gives `r == x % M` and `0 < r < M`. */
  lemma ResidueOf(x: nat, r: nat, q: int)
    requires x == r + M * q && r <= M && x % M != 0
    ensures r == x % M && 0 < r < M
  {
    ModOfMultiplePlus(r, q);
  }

  lemma ModOfMultiplePlus(r: int, q: int)
    ensures (r + M * q) % M == r % M
  {
  }

  /** `_randi` applied `n` times. */
  function RandiIter(seed: nat, n: nat): (r: nat)
    requires seed < U32
    ensures r < U32
  {
    if n == 0 then seed else Randi(RandiIter(seed, n - 1))
  }

  /** Every seed in [1, 2^31 - 2] stays there however many times `randi`
      runs, each step the Park–Miller step. */
  lemma {:induction false} RandiIterInRange(seed: nat, n: nat)
    requires 1 <= seed < M
    ensures 1 <= RandiIter(seed, n) < M
    ensures n > 0 ==> RandiIter(seed, n) == (A * RandiIter(seed, n - 1)) % M
  {
    if n > 0 {
      RandiIterInRange(seed, n - 1);
      RandiIsParkMiller(RandiIter(seed, n - 1));
    }
  }

  /** `Generator::Type`. */
  datatype NoiseType = UniformWhiteNoise | GaussianWhiteNoise | PinkNoise

  /** The Box–Muller rejection loop of `grandf`, foreign floating-point
      code: from a seed, how many rejected rounds of two draws it takes,
      and the two Gaussian values it produces. */
  datatype BoxMuller = BoxMuller(rejected: nat -> nat, pair: nat -> (real, real))

  /** The state `grandf` reads and writes: the seed, the spare-value flag
      `_pass` and the spare value `_rn`. */
  datatype GaussCache = GaussCache(seed: nat, pass: bool, rn: real)

  /** `grandf ()` (dsp_filter.cc:1004-1025) on its state: a cached spare
      value is returned once and the flag cleared; otherwise the loop draws
      two uniform values per round, the first value of the pair is
      returned and the second one cached. */
  function Grand(bm: BoxMuller, c: GaussCache): (r: (GaussCache, real))
    requires c.seed < U32
    ensures r.0.seed < U32
    ensures c.pass ==> r == (GaussCache(c.seed, false, c.rn), c.rn)
    ensures !c.pass ==> r.0.pass && r.0.rn == bm.pair(c.seed).1 && r.1 == bm.pair(c.seed).0
    ensures !c.pass ==> r.0.seed == RandiIter(c.seed, 2 * (bm.rejected(c.seed) + 1))
  {
    if c.pass then (c.(pass := false), c.rn)
    else
      var (first, second) := bm.pair(c.seed);
      (GaussCache(RandiIter(c.seed, 2 * (bm.rejected(c.seed) + 1)), true, second), first)
  }

  /** `grandf` alternates: after a fresh pair, the next call returns the
      cached second value without drawing, and the cache is empty again. */
  lemma GrandAlternates(bm: BoxMuller, c: GaussCache)
    requires c.seed < U32 && !c.pass
    ensures var (c1, v1) := Grand(bm, c);
            var (c2, v2) := Grand(bm, c1);
            && v1 == bm.pair(c.seed).0 && v2 == bm.pair(c.seed).1
            && c2.seed == c1.seed && !c2.pass
  {
  }

  class Generator {
    var kind: NoiseType
    var rseed: nat
    var b0: real
    var b1: real
    var b2: real
    var b3: real
    var b4: real
    var b5: real
    var b6: real
    var pass: bool
    var rn: real

    /** The pink-noise filter bank `_b0` .. `_b6`. */
    function Pink(): seq<real>
      reads this
    {
      [b0, b1, b2, b3, b4, b5, b6]
    }

    function Cache(): GaussCache
      reads this
    {
      GaussCache(rseed, pass, rn)
    }

    /** The seed stays in [1, 2^31 - 2], where the Park–Miller step is a
        permutation. */
    ghost predicate Valid()
      reads this
    {
      1 <= rseed < M
    }

    /** `Generator ()` (dsp_filter.cc:944-949): uniform white noise, seed 1. */
    constructor()
      ensures Valid()
      ensures kind == UniformWhiteNoise && rseed == 1
      ensures Pink() == [0.0, 0.0, 0.0, 0.0, 0.0, 0.0, 0.0] && !pass && rn == 0.0
    {
      kind := UniformWhiteNoise;
      rseed := 1;
      new;
      SetType(UniformWhiteNoise);
    }

    /** `set_type (t)` (dsp_filter.cc:951-958): clears the pink filter bank
        and the Gaussian cache; the seed is left alone. */
    method SetType(t: NoiseType)
      modifies this
      ensures kind == t && rseed == old(rseed)
      ensures Pink() == [0.0, 0.0, 0.0, 0.0, 0.0, 0.0, 0.0] && !pass && rn == 0.0
    {
      kind := t;
      b0, b1, b2, b3, b4, b5, b6 := 0.0, 0.0, 0.0, 0.0, 0.0, 0.0, 0.0;
      pass := false;
      rn := 0.0;
    }

    /** `randi ()`: one Park–Miller step, returning the new seed. */
    method NextRandom() returns (r: nat)
      requires Valid()
      modifies this
      ensures Valid()
      ensures rseed == Randi(old(rseed)) == (A * old(rseed)) % M && r == rseed
      ensures kind == old(kind) && Pink() == old(Pink()) && pass == old(pass) && rn == old(rn)
    {
      RandiIsParkMiller(rseed);
      var hi: nat, lo: nat;
      lo := (A * (rseed % 0x1_0000)) % U32;
      hi := (A * (rseed / 0x1_0000)) % U32;
      lo := (lo + ((hi % 0x8000) * 0x1_0000) % U32) % U32;
      lo := (lo + hi / 0x8000) % U32;
      lo := (lo % 0x8000_0000 + lo / 0x8000_0000) % U32;
      rseed := lo;
      r := rseed;
    }

    /** `grandf ()`: the cache logic, with the rejection loop drawing two
        uniform values (two `randi` steps) per round. */
    method GaussianRandom(bm: BoxMuller) returns (r: real)
      requires Valid()
      modifies this
      ensures Valid()
      ensures (Cache(), r) == Grand(bm, old(Cache()))
      ensures kind == old(kind) && Pink() == old(Pink())
    {
      if pass {
        pass := false;
        return rn;
      }
      ghost var start := rseed;
      var rounds := bm.rejected(rseed) + 1;
      var (first, second) := bm.pair(rseed);
      var k := 0;
      while k < rounds
        invariant 0 <= k <= rounds
        invariant Valid() && rseed == RandiIter(start, 2 * k)
        invariant kind == old(kind) && Pink() == old(Pink()) && !pass && rn == old(rn)
      {
        RandiIterInRange(start, 2 * k + 1);
        var x1 := NextRandom();
        var x2 := NextRandom();
        k := k + 1;
      }
      pass := true;
      rn := second;
      r := first;
    }
  }
}
