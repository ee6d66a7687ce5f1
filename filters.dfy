/** The one-pole `LowPass` and the second-order `Biquad` filters of
    `ARDOUR::DSP` (libs/ardour/dsp_filter.cc:113-449). Samples and
    coefficients are real numbers; the transcendental functions the sources
    call (`expf`, `sin`, `cos`, `sqrt`, `pow`) and the matched-response
    (Vicanek) fits are parameters. */
module Filters {
  import opened DspBuffers

  /** `M_PI` as the sources define it. */
  const Pi: real := 3.14159265358979323846

  /** The transcendental functions the coefficient formulas call. */
  datatype MathEnv = MathEnv(
    exp: real -> real,      // expf
    sin: real -> real,      // sin
    cos: real -> real,      // cos
    sqrt: real -> real,     // sqrt
    pow10: real -> real,    // pow (10.0, x)
    matched: (FilterType, real, real, real, real) -> Coefs)
      // the Vicanek fits of the Matched* types from (type, W0, Q, A, freq / rate),
      // already divided by their a0 = 1

  /** The facts about those functions the `a0 > 0` argument relies on. */
  ghost predicate Lawful(me: MathEnv) {
    && (forall x :: 0.0 < x < Pi ==> 0.0 < me.sin(x) <= 1.0)
    && (forall x :: -1.0 <= me.cos(x) <= 1.0)
    && (forall x :: me.pow10(x) > 0.0)
    && (forall x :: x > 0.0 ==> me.sqrt(x) > 0.0)
  }

  /* ---------------------------------------------------------------- LowPass */

  /** One sample of `proc`: the input plus `a` times its distance from the
      previous output `z`. */
  function LowPassStep(a: real, z: real, x: real): real {
    x + a * (x - z)
  }

  /** One sample of `ctrl`: what the buffer holds plus `a` times the
      distance of the previous output `z` from the target `val`. */
  function CtrlStep(a: real, z: real, val: real, x: real): real {
    x + a * (val - z)
  }

  /** The output of `LowPass::proc` for input `xs` from state `z`, and the
      state after it. */
  function LowPassRun(a: real, z: real, xs: seq<real>): (r: (seq<real>, real))
    ensures |r.0| == |xs|
    ensures |xs| > 0 ==> r.1 == r.0[|xs| - 1]
    ensures |xs| == 0 ==> r.1 == z
    decreases |xs|
  {
    if xs == [] then ([], z)
    else
      var prev := LowPassRun(a, z, xs[..|xs| - 1]);
      var y := LowPassStep(a, prev.1, xs[|xs| - 1]);
      (prev.0 + [y], y)
  }

  /** The output of `LowPass::ctrl` for buffer `xs`, control value `val`
      and state `z`: the smoothed step towards `val` is added to what the
      buffer already holds. */
  function CtrlRun(a: real, z: real, val: real, xs: seq<real>): (r: (seq<real>, real))
    ensures |r.0| == |xs|
    ensures |xs| > 0 ==> r.1 == r.0[|xs| - 1]
    ensures |xs| == 0 ==> r.1 == z
    decreases |xs|
  {
    if xs == [] then ([], z)
    else
      var prev := CtrlRun(a, z, val, xs[..|xs| - 1]);
      var y := CtrlStep(a, prev.1, val, xs[|xs| - 1]);
      (prev.0 + [y], y)
  }

  /** `ctrl` on a prefix of the buffer writes the prefix of the full run's
      output: each sample depends only on the samples before it. */
  lemma {:induction false} CtrlRunPrefix(a: real, z: real, val: real, xs: seq<real>, k: nat)
    requires k <= |xs|
    ensures CtrlRun(a, z, val, xs[..k]).0 == CtrlRun(a, z, val, xs).0[..k]
    decreases |xs|
  {
    if k < |xs| {
      var init := xs[..|xs| - 1];
      CtrlRunPrefix(a, z, val, init, k);
      assert init[..k] == xs[..k];
      assert CtrlRun(a, z, val, xs).0[..k] == CtrlRun(a, z, val, init).0[..k];
    } else {
      assert xs[..k] == xs;
    }
  }

  /** A signal that sits at the filter's state passes through unchanged. */
  lemma {:induction false} LowPassHoldsLevel(a: real, z: real, xs: seq<real>)
    requires forall i :: 0 <= i < |xs| ==> xs[i] == z
    ensures LowPassRun(a, z, xs) == (xs, z)
    decreases |xs|
  {
    if xs != [] {
      LowPassHoldsLevel(a, z, xs[..|xs| - 1]);
      assert xs[..|xs| - 1] + [xs[|xs| - 1]] == xs;
    }
  }

  /** On an empty buffer, `ctrl` holds at the level where the step towards
      `val` equals the state: `(1 + a) * z == a * val`. */
  lemma {:induction false} CtrlHoldsLevel(a: real, z: real, val: real, xs: seq<real>)
    requires (1.0 + a) * z == a * val
    requires forall i :: 0 <= i < |xs| ==> xs[i] == 0.0
    ensures forall i :: 0 <= i < |xs| ==> CtrlRun(a, z, val, xs).0[i] == z
    ensures CtrlRun(a, z, val, xs).1 == z
    decreases |xs|
  {
    if xs != [] {
      CtrlHoldsLevel(a, z, val, xs[..|xs| - 1]);
      var prev := CtrlRun(a, z, val, xs[..|xs| - 1]);
      assert a * (val - z) == a * val - a * z;
      assert CtrlStep(a, prev.1, val, xs[|xs| - 1]) == z;
    }
  }

  class LowPass {
    var rate: real
    var a: real
    var z: real

    /** `LowPass (samplerate, freq)` (dsp_filter.cc:113-118). */
    constructor(samplerate: real, freq: real, me: MathEnv)
      requires samplerate != 0.0
      ensures rate == samplerate && z == 0.0
      ensures a == 1.0 - me.exp(-2.0 * Pi * freq / samplerate)
    {
      rate := samplerate;
      z := 0.0;
      new;
      SetCutoff(freq, me);
    }

    /** `set_cutoff (freq)` (dsp_filter.cc:120-124). */
    method SetCutoff(freq: real, me: MathEnv)
      requires rate != 0.0
      modifies this
      ensures rate == old(rate) && z == old(z)
      ensures a == 1.0 - me.exp(-2.0 * Pi * freq / rate)
    {
      a := 1.0 - me.exp(-2.0 * Pi * freq / rate);
    }

    /** `proc (data, n_samples)` (dsp_filter.cc:126-142): filters the first
        `n` samples in place, then resets a state that is not finite and
        normal. */
    method Proc(data: array<real>, n: nat, fe: FloatEnv)
      requires n <= data.Length
      modifies this, data
      ensures rate == old(rate) && a == old(a)
      ensures data[..n] == LowPassRun(a, old(z), old(data[..n])).0
      ensures data[n..] == old(data[n..])
      ensures z == Sanitize(fe, LowPassRun(a, old(z), old(data[..n])).1)
    {
      ghost var xs := data[..n];
      var zz := z;
      var i := 0;
      while i < n
        invariant 0 <= i <= n
        invariant data[..i] == LowPassRun(a, old(z), xs[..i]).0
        invariant zz == LowPassRun(a, old(z), xs[..i]).1
        invariant data[i..] == old(data[i..])
        modifies data
      {
        assert xs[..i + 1][..i] == xs[..i];
        assert data[i] == xs[i] by { assert data[i..][0] == old(data[i..])[0]; }
        var y := LowPassStep(a, zz, data[i]);
        assert old(data[i..])[1..] == old(data[i + 1..]);
        data[i] := y;
        zz := y;
        assert data[..i + 1] == data[..i] + [data[i]];
        i := i + 1;
      }
      assert xs[..n] == xs;
      z := zz;
      if !fe.finite(z) {
        z := 0.0;
      } else if !fe.normal(z) {
        z := 0.0;
      }
    }

    /** `ctrl (data, val, n_samples)` (dsp_filter.cc:144-155): like `proc`
        with `val` as the target and without the state reset. */
    method Ctrl(data: array<real>, val: real, n: nat)
      requires n <= data.Length
      modifies this, data
      ensures rate == old(rate) && a == old(a)
      ensures data[..n] == CtrlRun(a, old(z), val, old(data[..n])).0
      ensures data[n..] == old(data[n..])
      ensures z == CtrlRun(a, old(z), val, old(data[..n])).1
    {
      ghost var xs := data[..n];
      var zz := z;
      var i := 0;
      while i < n
        invariant 0 <= i <= n
        invariant data[..i] == CtrlRun(a, old(z), val, xs[..i]).0
        invariant zz == CtrlRun(a, old(z), val, xs[..i]).1
        invariant data[i..] == old(data[i..])
        modifies data
      {
        assert xs[..i + 1][..i] == xs[..i];
        assert data[i] == xs[i] by { assert data[i..][0] == old(data[i..])[0]; }
        var y := CtrlStep(a, zz, val, data[i]);
        assert old(data[i..])[1..] == old(data[i + 1..]);
        data[i] := y;
        zz := y;
        assert data[..i + 1] == data[..i] + [data[i]];
        i := i + 1;
      }
      assert xs[..n] == xs;
      z := zz;
    }
  }

  /* ----------------------------------------------------------------- Biquad */

  /** `Biquad::Type`; the source aborts on any other value, which a datatype
      does not have. */
  datatype FilterType =
    | LowPassType | HighPass | BandPassSkirt | BandPass0dB | Notch | AllPass
    | Peaking | LowShelf | HighShelf
    | MatchedLowPass | MatchedHighPass | MatchedBandPass0dB | MatchedPeaking

  /** The five coefficients in the order `configure` takes them. */
  datatype Coefs = Coefs(a1: real, a2: real, b0: real, b1: real, b2: real)

  /** The coefficients of a new Biquad: the output is the input. */
  const Identity: Coefs := Coefs(0.0, 0.0, 1.0, 0.0, 0.0)

  /** A section before the division by `a0`. */
  datatype Section = Section(b0: real, b1: real, b2: real, a0: real, a1: real, a2: real)

  /** `Q` as `compute` uses it: at least 0.001. */
  function ClampQ(q: real): (r: real)
    ensures r >= 0.001
    ensures q > 0.001 ==> r == q
    ensures q <= 0.001 ==> r == 0.001
  {
    if q <= 0.001 then 0.001 else q
  }

  /** `freq` as `compute` uses it: raised to 1, then lowered to
      `0.4998 * rate`; the second test wins when the two bounds cross. */
  function ClampFreq(freq: real, rate: real): (r: real)
    ensures r <= 0.4998 * rate
    ensures 0.4998 * rate >= 1.0 ==> r >= 1.0
    ensures 1.0 < freq < 0.4998 * rate ==> r == freq
    ensures freq >= 0.4998 * rate ==> r == 0.4998 * rate
    ensures freq <= 1.0 < 0.4998 * rate ==> r == 1.0
    ensures 0.4998 * rate <= 1.0 ==> r == 0.4998 * rate
  {
    var f := if freq <= 1.0 then 1.0 else freq;
    if f >= 0.4998 * rate then 0.4998 * rate else f
  }

  /** The cookbook sections of `compute` (dsp_filter.cc:295-374), from
      `sin W0`, `cos W0`, the gain factor `A` and the clamped `Q`. */
  function Cookbook(t: FilterType, s: real, c: real, gainA: real, sqrtA: real, q: real): Section
    requires q > 0.0
    requires !t.MatchedLowPass? && !t.MatchedHighPass? && !t.MatchedBandPass0dB? && !t.MatchedPeaking?
    requires gainA > 0.0
  {
    var alpha := s / (2.0 * q);
    var beta := sqrtA / q;
    match t
    case LowPassType => Section((1.0 - c) / 2.0, 1.0 - c, (1.0 - c) / 2.0, 1.0 + alpha, -2.0 * c, 1.0 - alpha)
    case HighPass => Section((1.0 + c) / 2.0, -(1.0 + c), (1.0 + c) / 2.0, 1.0 + alpha, -2.0 * c, 1.0 - alpha)
    case BandPassSkirt => Section(s / 2.0, 0.0, -s / 2.0, 1.0 + alpha, -2.0 * c, 1.0 - alpha)
    case BandPass0dB => Section(alpha, 0.0, -alpha, 1.0 + alpha, -2.0 * c, 1.0 - alpha)
    case Notch => Section(1.0, -2.0 * c, 1.0, 1.0 + alpha, -2.0 * c, 1.0 - alpha)
    case AllPass => Section(1.0 - alpha, -2.0 * c, 1.0 + alpha, 1.0 + alpha, -2.0 * c, 1.0 - alpha)
    case Peaking => Section(1.0 + alpha * gainA, -2.0 * c, 1.0 - alpha * gainA,
                            1.0 + alpha / gainA, -2.0 * c, 1.0 - alpha / gainA)
    case LowShelf =>
      Section(gainA * ((gainA + 1.0) - (gainA - 1.0) * c + beta * s),
              (2.0 * gainA) * ((gainA - 1.0) - (gainA + 1.0) * c),
              gainA * ((gainA + 1.0) - (gainA - 1.0) * c - beta * s),
              (gainA + 1.0) + (gainA - 1.0) * c + beta * s,
              -2.0 * ((gainA - 1.0) + (gainA + 1.0) * c),
              (gainA + 1.0) + (gainA - 1.0) * c - beta * s)
    case HighShelf =>
      Section(gainA * ((gainA + 1.0) + (gainA - 1.0) * c + beta * s),
              -(2.0 * gainA) * ((gainA - 1.0) + (gainA + 1.0) * c),
              gainA * ((gainA + 1.0) + (gainA - 1.0) * c - beta * s),
              (gainA + 1.0) - (gainA - 1.0) * c + beta * s,
              2.0 * ((gainA - 1.0) - (gainA + 1.0) * c),
              (gainA + 1.0) - (gainA - 1.0) * c - beta * s)
  }

  /** The numerator's value at DC is `b0 + b1 + b2` and at Nyquist
      `b0 - b1 + b2`: the low-pass has a zero at Nyquist, the high-pass at
      DC, the band-passes at both; the notch and the peaking section pass
      both unchanged; the all-pass numerator is the pole polynomial
      reversed. */
  lemma CookbookZeros(t: FilterType, s: real, c: real, gainA: real, sqrtA: real, q: real)
    requires q > 0.0 && gainA > 0.0
    requires !t.MatchedLowPass? && !t.MatchedHighPass? && !t.MatchedBandPass0dB? && !t.MatchedPeaking?
    ensures var r := Cookbook(t, s, c, gainA, sqrtA, q);
            && (t.LowPassType? ==> r.b0 - r.b1 + r.b2 == 0.0)
            && (t.HighPass? ==> r.b0 + r.b1 + r.b2 == 0.0)
            && (t.BandPassSkirt? || t.BandPass0dB? ==> r.b0 + r.b1 + r.b2 == 0.0 && r.b0 - r.b1 + r.b2 == 0.0)
            && (t.Notch? || t.Peaking? ==>
                  r.b0 + r.b1 + r.b2 == r.a0 + r.a1 + r.a2 && r.b0 - r.b1 + r.b2 == r.a0 - r.a1 + r.a2)
            && (t.AllPass? ==> r.b0 == r.a2 && r.b1 == r.a1 && r.b2 == r.a0)
  {
  }

  lemma MulNonNegative(x: real, y: real)
    requires x >= 0.0 && y >= 0.0
    ensures x * y >= 0.0
  {
  }

  /** `(A + 1) ± (A - 1) cos W0` is positive for a positive gain factor. */
  lemma ShelfBase(gainA: real, c: real)
    requires gainA > 0.0 && -1.0 <= c <= 1.0
    ensures (gainA + 1.0) + (gainA - 1.0) * c > 0.0
    ensures (gainA + 1.0) - (gainA - 1.0) * c > 0.0
  {
    if gainA >= 1.0 {
      MulNonNegative(gainA - 1.0, c + 1.0);
      MulNonNegative(gainA - 1.0, 1.0 - c);
    } else {
      MulNonNegative(1.0 - gainA, 1.0 - c);
      MulNonNegative(1.0 - gainA, c + 1.0);
      var d := 1.0 - gainA;
      assert d * (1.0 - c) == d - d * c;
      assert d * (c + 1.0) == d + d * c;
      assert -d <= d * c <= d;
      assert (gainA - 1.0) * c == -(d * c);
    }
  }

  /** With `0 < sin W0 <= 1`, `|cos W0| <= 1` and a positive gain factor,
      every cookbook section has a positive `a0`, so the division that
      normalises it is defined. */
  lemma CookbookA0Positive(t: FilterType, s: real, c: real, gainA: real, sqrtA: real, q: real)
    requires q > 0.0 && gainA > 0.0 && sqrtA > 0.0 && 0.0 < s <= 1.0 && -1.0 <= c <= 1.0
    requires !t.MatchedLowPass? && !t.MatchedHighPass? && !t.MatchedBandPass0dB? && !t.MatchedPeaking?
    ensures Cookbook(t, s, c, gainA, sqrtA, q).a0 > 0.0
  {
    var alpha := s / (2.0 * q);
    assert alpha > 0.0;
    var beta := sqrtA / q;
    assert beta > 0.0;
    assert beta * s > 0.0;
    assert alpha / gainA > 0.0;
    ShelfBase(gainA, c);
  }

  /** The stability triangle before the division by `a0`: `|a2| < a0` and
      `|a1| <= a0 + a2`, so both poles lie in the closed unit disc. */
  predicate InTriangle(sec: Section) {
    -sec.a0 < sec.a2 < sec.a0 && -(sec.a0 + sec.a2) <= sec.a1 <= sec.a0 + sec.a2
  }

  /** The denominator `1 + d, -2 cos W0, 1 - d` shared by all but the
      shelves. */
  lemma ResonatorPoles(sec: Section, d: real, c: real)
    requires d > 0.0 && -1.0 <= c <= 1.0
    requires sec.a0 == 1.0 + d && sec.a1 == -2.0 * c && sec.a2 == 1.0 - d
    ensures InTriangle(sec)
  {
  }

  /** The shelf denominator `B + e, a1, B - e` with `B > 0`, `e > 0` and
      `|a1| <= 2 B`. */
  lemma ShelfPoles(sec: Section, base: real, e: real)
    requires base > 0.0 && e > 0.0
    requires sec.a0 == base + e && sec.a2 == base - e && -2.0 * base <= sec.a1 <= 2.0 * base
    ensures InTriangle(sec)
  {
  }

  /** Every cookbook section has its poles in the closed unit disc. */
  lemma CookbookPoles(t: FilterType, s: real, c: real, gainA: real, sqrtA: real, q: real)
    requires q > 0.0 && gainA > 0.0 && sqrtA > 0.0 && 0.0 < s <= 1.0 && -1.0 <= c <= 1.0
    requires !t.MatchedLowPass? && !t.MatchedHighPass? && !t.MatchedBandPass0dB? && !t.MatchedPeaking?
    ensures InTriangle(Cookbook(t, s, c, gainA, sqrtA, q))
  {
    if t.LowShelf? || t.HighShelf? {
      ShelfSectionPoles(t, s, c, gainA, sqrtA, q);
    } else {
      var sec := Cookbook(t, s, c, gainA, sqrtA, q);
      var alpha := s / (2.0 * q);
      assert alpha > 0.0;
      if t.Peaking? {
        assert alpha / gainA > 0.0;
        ResonatorPoles(sec, alpha / gainA, c);
      } else {
        ResonatorPoles(sec, alpha, c);
      }
    }
  }

  lemma ShelfSectionPoles(t: FilterType, s: real, c: real, gainA: real, sqrtA: real, q: real)
    requires q > 0.0 && gainA > 0.0 && sqrtA > 0.0 && 0.0 < s <= 1.0 && -1.0 <= c <= 1.0
    requires t.LowShelf? || t.HighShelf?
    ensures InTriangle(Cookbook(t, s, c, gainA, sqrtA, q))
  {
    var sec := Cookbook(t, s, c, gainA, sqrtA, q);
    var beta := sqrtA / q;
    assert beta > 0.0;
    assert beta * s > 0.0;
    ShelfBase(gainA, c);
    MulNonNegative(gainA, 1.0 + c);
    MulNonNegative(gainA, 1.0 - c);
    if t.LowShelf? {
      ShelfPoles(sec, (gainA + 1.0) + (gainA - 1.0) * c, beta * s);
    } else {
      ShelfPoles(sec, (gainA + 1.0) - (gainA - 1.0) * c, beta * s);
    }
  }

  /** Dividing by a positive `a0` turns the stability triangle of a section
      into `-1 < a2 < 1` and `|a1| <= 1 + a2` for the stored coefficients. */
  lemma NormalisedPoles(sec: Section)
    requires sec.a0 > 0.0 && InTriangle(sec)
    ensures var r := Normalise(sec);
            -1.0 < r.a2 < 1.0 && -(1.0 + r.a2) <= r.a1 <= 1.0 + r.a2
  {
    UnitRatio(sec.a2, sec.a0);
    TriangleRatio(sec.a1, sec.a2, sec.a0);
    var r := Normalise(sec);
    assert r.a1 == sec.a1 / sec.a0 && r.a2 == sec.a2 / sec.a0;
  }

  lemma UnitRatio(a: real, k: real)
    requires k > 0.0 && -k < a < k
    ensures -1.0 < a / k < 1.0
  {
    assert a / k < k / k;
    assert -k / k < a / k;
  }

  lemma TriangleRatio(a1: real, a2: real, k: real)
    requires k > 0.0 && -(k + a2) <= a1 <= k + a2
    ensures -(1.0 + a2 / k) <= a1 / k <= 1.0 + a2 / k
  {
    DivAtMost(a1, k + a2, k);
    DivAtMost(-(k + a2), a1, k);
    DivSum(k, a2, k);
    DivSelf(k);
    assert -(k + a2) / k == -((k + a2) / k);
  }

  /** Division by a positive number keeps an order. */
  lemma DivAtMost(x: real, y: real, k: real)
    requires k > 0.0 && x <= y
    ensures x / k <= y / k
  {
  }

  lemma DivSelf(k: real)
    requires k > 0.0
    ensures k / k == 1.0
  {
  }

  /** Division distributes over a sum. */
  lemma DivSum(x: real, y: real, k: real)
    requires k > 0.0
    ensures (x + y) / k == x / k + y / k
  {
  }

  /** Every coefficient divided by `a0`. */
  function Normalise(sec: Section): (r: Coefs)
    requires sec.a0 != 0.0
    ensures r.b0 * sec.a0 == sec.b0 && r.b1 * sec.a0 == sec.b1 && r.b2 * sec.a0 == sec.b2
    ensures r.a1 * sec.a0 == sec.a1 && r.a2 * sec.a0 == sec.a2
  {
    Coefs(sec.a1 / sec.a0, sec.a2 / sec.a0, sec.b0 / sec.a0, sec.b1 / sec.a0, sec.b2 / sec.a0)
  }

  /** `W0 = 2 pi freq / rate` of a clamped frequency lies in (0, pi). */
  lemma W0InRange(f: real, rate: real)
    requires rate > 0.0 && 0.0 < f <= 0.4998 * rate
    ensures 0.0 < 2.0 * Pi * f / rate < Pi
  {
    var ratio := f / rate;
    assert ratio <= 0.4998;
    assert 2.0 * Pi * f / rate == 2.0 * Pi * ratio;
  }

  /** `compute (type, freq, Q, gain)` (dsp_filter.cc:265-449): the
      coefficients it stores, from the clamped frequency and Q. */
  function Design(t: FilterType, freq: real, q: real, gain: real, rate: real, me: MathEnv): (r: Coefs)
    requires rate > 0.0 && Lawful(me)
    ensures !t.MatchedLowPass? && !t.MatchedHighPass? && !t.MatchedBandPass0dB? && !t.MatchedPeaking? ==>
              -1.0 < r.a2 < 1.0 && -(1.0 + r.a2) <= r.a1 <= 1.0 + r.a2
  {
    var qc := ClampQ(q);
    var f := ClampFreq(freq, rate);
    var gainA := me.pow10(gain / 40.0);
    assert f > 0.0 by {
      if 0.4998 * rate < 1.0 { assert f == 0.4998 * rate || f >= 1.0; }
    }
    W0InRange(f, rate);
    var w0 := (2.0 * Pi * f) / rate;
    var s := me.sin(w0);
    var c := me.cos(w0);
    if t.MatchedLowPass? || t.MatchedHighPass? || t.MatchedBandPass0dB? || t.MatchedPeaking? then
      me.matched(t, w0, qc, gainA, f / rate)
    else
      var sqrtA := me.sqrt(gainA);
      CookbookA0Positive(t, s, c, gainA, sqrtA, qc);
      CookbookPoles(t, s, c, gainA, sqrtA, qc);
      NormalisedPoles(Cookbook(t, s, c, gainA, sqrtA, qc));
      Normalise(Cookbook(t, s, c, gainA, sqrtA, qc))
  }

  /** The inputs `compute` sees after clamping: Q is at least 0.001, the
      frequency at most `0.4998 * rate`, and a Q or frequency already in
      range is used as given. */
  lemma DesignClamps(t: FilterType, freq: real, q: real, gain: real, rate: real, me: MathEnv)
    requires rate > 0.0 && Lawful(me)
    requires q > 0.001 && 1.0 < freq < 0.4998 * rate
    requires !t.MatchedLowPass? && !t.MatchedHighPass? && !t.MatchedBandPass0dB? && !t.MatchedPeaking?
    ensures var w0 := (2.0 * Pi * freq) / rate;
            var gainA := me.pow10(gain / 40.0);
            Design(t, freq, q, gain, rate, me)
              == Normalise(Cookbook(t, me.sin(w0), me.cos(w0), gainA, me.sqrt(gainA), q))
  {
  }

  /** The all-pass section is the pole polynomial reversed: after the
      division `b0 == a2`, `b1 == a1` and `b2 == 1`. */
  lemma AllPassSymmetric(freq: real, q: real, gain: real, rate: real, me: MathEnv)
    requires rate > 0.0 && Lawful(me)
    ensures var r := Design(AllPass, freq, q, gain, rate, me);
            r.b0 == r.a2 && r.b1 == r.a1 && r.b2 == 1.0
  {
  }

  /** The notch section has unit gain at DC: `b0 + b1 + b2 == 1 + a1 + a2`
      after the division. */
  lemma NotchUnitDcGain(freq: real, q: real, gain: real, rate: real, me: MathEnv)
    requires rate > 0.0 && Lawful(me)
    ensures var r := Design(Notch, freq, q, gain, rate, me);
            r.b0 + r.b1 + r.b2 == 1.0 + r.a1 + r.a2
  {
  }

  /** The two state registers of the transposed direct form II. */
  datatype Regs = Regs(z1: real, z2: real)

  /** The output of one sample of `run`. */
  function BiquadOut(c: Coefs, r: Regs, x: real): real {
    c.b0 * x + r.z1
  }

  /** One sample of `run`: the output and the new registers. */
  function BiquadStep(c: Coefs, r: Regs, x: real): (real, Regs) {
    var y := BiquadOut(c, r, x);
    (y, Regs(c.b1 * x - c.a1 * y + r.z2, c.b2 * x - c.a2 * y))
  }

  /** The output of `Biquad::run` for input `xs` from registers `r`, before
      the registers are reset. */
  function BiquadRun(c: Coefs, r: Regs, xs: seq<real>): (out: (seq<real>, Regs))
    ensures |out.0| == |xs|
    decreases |xs|
  {
    if xs == [] then ([], r)
    else
      var prev := BiquadRun(c, r, xs[..|xs| - 1]);
      var step := BiquadStep(c, prev.1, xs[|xs| - 1]);
      (prev.0 + [step.0], step.1)
  }

  /** Running a prefix of the input gives the prefix of the output: each
      output sample depends only on the samples up to it. */
  lemma {:induction false} BiquadRunPrefix(c: Coefs, r: Regs, xs: seq<real>, k: nat)
    requires k <= |xs|
    ensures BiquadRun(c, r, xs[..k]).0 == BiquadRun(c, r, xs).0[..k]
    decreases |xs|
  {
    if k < |xs| {
      var init := xs[..|xs| - 1];
      BiquadRunPrefix(c, r, init, k);
      assert init[..k] == xs[..k];
      assert BiquadRun(c, r, xs).0[..k] == BiquadRun(c, r, init).0[..k];
    } else {
      assert xs[..k] == xs;
    }
  }

  /** A new Biquad passes any signal through unchanged and its registers
      stay at zero. */
  lemma {:induction false} IdentityPassesThrough(xs: seq<real>)
    ensures BiquadRun(Identity, Regs(0.0, 0.0), xs) == (xs, Regs(0.0, 0.0))
    decreases |xs|
  {
    if xs != [] {
      IdentityPassesThrough(xs[..|xs| - 1]);
      assert xs[..|xs| - 1] + [xs[|xs| - 1]] == xs;
    }
  }

  /** Silence into a section at rest gives silence, whatever its
      coefficients. */
  lemma {:induction false} SilenceStaysSilent(c: Coefs, xs: seq<real>)
    requires forall i :: 0 <= i < |xs| ==> xs[i] == 0.0
    ensures BiquadRun(c, Regs(0.0, 0.0), xs) == (xs, Regs(0.0, 0.0))
    decreases |xs|
  {
    if xs != [] {
      SilenceStaysSilent(c, xs[..|xs| - 1]);
      assert xs[..|xs| - 1] + [xs[|xs| - 1]] == xs;
    }
  }

  class Biquad {
    var rate: real
    var z1: real
    var z2: real
    var a1: real
    var a2: real
    var b0: real
    var b1: real
    var b2: real

    /** `coefficients (a1, a2, b0, b1, b2)` (dsp_filter.cc:216-224): the
        five stored values, in that order. */
    function Coefficients(): (c: Coefs)
      reads this
      ensures c.a1 == a1 && c.a2 == a2
      ensures c.b0 == b0 && c.b1 == b1 && c.b2 == b2
    {
      Coefs(a1, a2, b0, b1, b2)
    }

    /** `Biquad (samplerate)` (dsp_filter.cc:159-169). */
    constructor(samplerate: real)
      ensures rate == samplerate && z1 == 0.0 && z2 == 0.0
      ensures Coefficients() == Identity
    {
      rate := samplerate;
      z1, z2 := 0.0, 0.0;
      a1, a2, b0, b1, b2 := 0.0, 0.0, 1.0, 0.0, 0.0;
    }

    /** `Biquad (const Biquad&)` (dsp_filter.cc:171-181): the rate and the
        coefficients are copied, the registers start at zero. */
    constructor Copy(other: Biquad)
      ensures rate == other.rate && z1 == 0.0 && z2 == 0.0
      ensures Coefficients() == other.Coefficients()
    {
      rate := other.rate;
      z1, z2 := 0.0, 0.0;
      a1, a2, b0, b1, b2 := other.a1, other.a2, other.b0, other.b1, other.b2;
    }

    /** `configure (a1, a2, b0, b1, b2)` (dsp_filter.cc:206-224): `coefficients`
        reads back exactly these values. */
    method Configure(na1: real, na2: real, nb0: real, nb1: real, nb2: real)
      modifies this
      ensures rate == old(rate) && z1 == old(z1) && z2 == old(z2)
      ensures Coefficients() == Coefs(na1, na2, nb0, nb1, nb2)
    {
      a1, a2, b0, b1, b2 := na1, na2, nb0, nb1, nb2;
    }

    /** `configure (other)` (dsp_filter.cc:226-234). */
    method ConfigureFrom(other: Biquad)
      modifies this
      ensures rate == old(rate) && z1 == old(z1) && z2 == old(z2)
      ensures Coefficients() == old(other.Coefficients())
    {
      a1, a2, b0, b1, b2 := other.a1, other.a2, other.b0, other.b1, other.b2;
    }

    /** `compute (type, freq, Q, gain)` (dsp_filter.cc:265-449). */
    method Compute(t: FilterType, freq: real, q: real, gain: real, me: MathEnv)
      requires rate > 0.0 && Lawful(me)
      modifies this
      ensures rate == old(rate) && z1 == old(z1) && z2 == old(z2)
      ensures Coefficients() == Design(t, freq, q, gain, rate, me)
    {
      var c := Design(t, freq, q, gain, rate, me);
      a1, a2, b0, b1, b2 := c.a1, c.a2, c.b0, c.b1, c.b2;
    }

    /** The body of `run`'s loop for one input sample `xn`: the output
        and the new registers, as `BiquadStep` gives them. */
    method Tick(xn: real, r1: real, r2: real) returns (z: real, n1: real, n2: real)
      ensures z == BiquadStep(Coefficients(), Regs(r1, r2), xn).0
      ensures Regs(n1, n2) == BiquadStep(Coefficients(), Regs(r1, r2), xn).1
    {
      z := b0 * xn + r1;
      n1 := b1 * xn - a1 * z + r2;
      n2 := b2 * xn - a2 * z;
    }

    /** `run (data, n_samples)` (dsp_filter.cc:183-204): filters the first
        `n` samples in place, then resets each register that is not finite
        and normal. */
    method Run(data: array<real>, n: nat, fe: FloatEnv)
      requires n <= data.Length
      modifies this, data
      ensures rate == old(rate) && Coefficients() == old(Coefficients())
      ensures data[..n] == BiquadRun(Coefficients(), Regs(old(z1), old(z2)), old(data[..n])).0
      ensures data[n..] == old(data[n..])
      ensures var r := BiquadRun(Coefficients(), Regs(old(z1), old(z2)), old(data[..n])).1;
              z1 == Sanitize(fe, r.z1) && z2 == Sanitize(fe, r.z2)
    {
      ghost var xs := data[..n];
      ghost var c := Coefs(a1, a2, b0, b1, b2);
      var r1, r2 := z1, z2;
      var i := 0;
      while i < n
        invariant 0 <= i <= n
        invariant data[..i] == BiquadRun(c, Regs(old(z1), old(z2)), xs[..i]).0
        invariant Regs(r1, r2) == BiquadRun(c, Regs(old(z1), old(z2)), xs[..i]).1
        invariant data[i..] == old(data[i..])
        modifies data
      {
        assert xs[..i + 1][..i] == xs[..i];
        assert data[i] == xs[i] by { assert data[i..][0] == old(data[i..])[0]; }
        ghost var prev := BiquadRun(c, Regs(old(z1), old(z2)), xs[..i]);
        var z;
        z, r1, r2 := Tick(data[i], r1, r2);
        data[i] := z;
        assert data[..i + 1] == data[..i] + [data[i]];
        i := i + 1;
      }
      assert xs[..n] == xs;
      ghost var last := BiquadRun(c, Regs(old(z1), old(z2)), xs).1;
      assert r1 == last.z1 && r2 == last.z2;
      z1, z2 := r1, r2;
      if !fe.finite(z1) {
        z1 := 0.0;
      } else if !fe.normal(z1) {
        z1 := 0.0;
      }
      if !fe.finite(z2) {
        z2 := 0.0;
      } else if !fe.normal(z2) {
        z2 := 0.0;
      }
    }
  }
}
