/** The bookkeeping of `ARDOUR::DSP::PerceptualAnalyzer`
    (libs/ardour/dsp_filter.cc:574-849): the input cursor, the leaky power
    trace, the peak meter and the peak-hold / running-average trace with its
    saturating count, and the resets. The all-pass cascade, the transform
    and the 9-tap smoothing are parameters (`Spectral`): the model says
    which values they are given and where their results go, not what they
    compute. */
module Perceptual {
  import DspBuffers

  /** `Speed` presets of `set_speed`. */
  datatype Speed = Noise | Slow | Moderate | Fast | Rapid

  /** The time constant each preset stands for (dsp_filter.cc:664-685). */
  function SpeedValue(speed: Speed): (r: real)
    ensures r > 0.0
    ensures speed == Noise ==> r == 20.0
    ensures speed == Rapid ==> r == 0.03
  {
    match speed
    case Noise => 20.0
    case Slow => 2.0
    case Moderate => 0.2
    case Fast => 0.08
    case Rapid => 0.03
  }

  /** The presets are ordered from the longest to the shortest time
      constant. */
  lemma SpeedPresetsOrdered()
    ensures SpeedValue(Noise) > SpeedValue(Slow) > SpeedValue(Moderate)
            > SpeedValue(Fast) > SpeedValue(Rapid)
  {
  }

  /** `ProcessMode`: `Plain` stands for any mode other than `MM_PEAK` and
      `MM_AVER`, in which only the power trace is updated. */
  datatype ProcessMode = Plain | Peak | Average

  /** The trace count stops growing here. */
  const AverageCap: nat := 1000000

  /** What `process` computes from the samples, taken as given:
      `warp (warped, chunk, w, i)` is the new delay-line value of index `i`
      after the all-pass cascade with factor `w` has consumed `chunk`;
      `bin (warped, b)` is the smoothed power of bin `b` of the transform of
      `warped` (scaled and offset by 1e-20, as in dsp_filter.cc:795-820);
      `leak (l, fsamp, speed)` is `1 - 0.1 ^ (l / (fsamp * speed))`. */
  datatype Spectral = Spectral(
    warp: (seq<real>, seq<real>, real, nat) -> real,
    bin: (seq<real>, nat) -> real,
    leak: (nat, real, real) -> real)

  /** The analyzer's fixed sizes and its settings. */
  datatype Config = Config(fftlen: nat, ipsize: nat, fsamp: real, wfact: real, speed: real)

  /** The analyzer's state as a value: the cursor, the delay line, the two
      traces with their flags, the average count and the peak meter. */
  datatype Snapshot = Snapshot(
    icount: nat, warped: seq<real>,
    power: seq<real>, powerValid: bool,
    peak: seq<real>, peakValid: bool, count: nat,
    pmax: real)

  /** `x` is a multiple of `l`, stated without multiplication. */
  predicate OnGrid(x: nat, l: nat)
    requires l > 0
    decreases x
  {
    if x < l then x == 0 else OnGrid(x - l, l)
  }

  /** Sizes `process` relies on: chunks of half the FFT length tile the
      input buffer, the cursor sits on a chunk boundary, the three traces
      have `fftlen + 1` values, and the count is within its cap. */
  ghost predicate WellFormed(cf: Config, ipdata: seq<real>, s: Snapshot) {
    && cf.fftlen >= 2 && cf.fftlen % 2 == 0
    && cf.ipsize > 0 && OnGrid(cf.ipsize, cf.fftlen / 2) && |ipdata| == cf.ipsize
    && s.icount < cf.ipsize && OnGrid(s.icount, cf.fftlen / 2)
    && |s.warped| == cf.fftlen + 1 && |s.power| == cf.fftlen + 1 && |s.peak| == cf.fftlen + 1
    && s.count <= AverageCap
  }

  /** The cursor after one chunk of `l` samples: it wraps to 0 on reaching
      `ipsize` (dsp_filter.cc:745-749). */
  function Advance(icount: nat, l: nat, ipsize: nat): nat {
    if icount + l == ipsize then 0 else icount + l
  }

  lemma {:induction false} MulMonotoneNat(a: nat, b: nat, l: nat)
    requires a <= b
    ensures a * l <= b * l
    decreases b - a
  {
    if a < b {
      MulMonotoneNat(a, b - 1, l);
      assert b * l == (b - 1) * l + l;
    }
  }

  lemma MulSign(d: int, m: nat)
    ensures d >= 1 ==> d * m >= m
    ensures d <= -1 ==> d * m + m <= 0
  {
    if d >= 1 {
      MulMonotoneNat(1, d, m);
    } else if d <= -1 {
      MulMonotoneNat(1, -d, m);
      assert d * m == -((-d) * m);
    }
  }

  /** Euclidean division is unique: a representation `k * m + r` with
      `0 <= r < m` gives the remainder. */
  lemma ModUnique(z: int, m: nat, k: int, r: int)
    requires m > 0 && z == k * m + r && 0 <= r < m
    ensures z % m == r
  {
    var k' := z / m;
    var r' := z % m;
    assert z == k' * m + r';
    assert (k - k') * m == r' - r;
    MulSign(k - k', m);
  }

  lemma {:induction false} GridOfMod(x: nat, l: nat)
    requires l > 0 && x % l == 0
    ensures OnGrid(x, l)
    decreases x
  {
    if x >= l {
      var q := x / l;
      assert x == q * l;
      assert x - l == (q - 1) * l + 0;
      ModUnique(x - l, l, q - 1, 0);
      GridOfMod(x - l, l);
    }
  }

  /** Two distinct multiples of `l` are at least `l` apart. */
  lemma {:induction false} GridGap(x: nat, y: nat, l: nat)
    requires l > 0 && OnGrid(x, l) && OnGrid(y, l) && x < y
    ensures x + l <= y
    decreases x
  {
    if x >= l {
      GridGap(x - l, y - l, l);
    }
  }

  /** A cursor on a chunk boundary stays on one, and its chunk fits. */
  lemma CursorStep(icount: nat, l: nat, ipsize: nat)
    requires l > 0 && OnGrid(ipsize, l) && icount < ipsize && OnGrid(icount, l)
    ensures icount + l <= ipsize
    ensures Advance(icount, l, ipsize) < ipsize
    ensures OnGrid(Advance(icount, l, ipsize), l)
  {
    GridGap(icount, ipsize, l);
  }

  /** The delay line after the cascade has consumed `chunk`. */
  function Warped(cf: Config, sp: Spectral, chunk: seq<real>, warped: seq<real>): (r: seq<real>)
    ensures |r| == |warped|
  {
    seq(|warped|, i requires 0 <= i < |warped| => sp.warp(warped, chunk, -cf.wfact, i))
  }

  /** The first `k` bin powers of the transform of `warped`. */
  function Bins(sp: Spectral, warped: seq<real>, k: nat): (r: seq<real>)
    ensures |r| == k
    ensures forall i :: 0 <= i < k ==> r[i] == sp.bin(warped, i)
  {
    seq(k, i requires 0 <= i < k => sp.bin(warped, i))
  }

  /** `p` moved towards `b` by the factor `a`. */
  function Approach(p: real, b: real, a: real): real {
    p + a * (b - p)
  }

  /** Each trace value moved towards its bin's power by the factor `a`. */
  function Leaky(power: seq<real>, bins: seq<real>, a: real): (r: seq<real>)
    requires |bins| == |power|
    ensures |r| == |power|
    ensures forall i :: 0 <= i < |power| ==> r[i] == Approach(power[i], bins[i], a)
  {
    seq(|power|, i requires 0 <= i < |power| => Approach(power[i], bins[i], a))
  }

  /** The largest of 0 and the values in `ps`, as the running `m` of
      dsp_filter.cc:798-815 leaves it. */
  function MaxBin(ps: seq<real>, k: nat): real
    requires k <= |ps|
    decreases k
  {
    if k == 0 then 0.0
    else
      var m := MaxBin(ps, k - 1);
      if m < ps[k - 1] then ps[k - 1] else m
  }

  /** `MaxBin (ps, k)` is at least 0 and each of the first `k` values, and
      it is 0 or one of them. */
  lemma {:induction false} MaxBinIsMax(ps: seq<real>, k: nat)
    requires k <= |ps|
    ensures MaxBin(ps, k) >= 0.0
    ensures forall i :: 0 <= i < k ==> ps[i] <= MaxBin(ps, k)
    ensures MaxBin(ps, k) == 0.0 || exists i :: 0 <= i < k && ps[i] == MaxBin(ps, k)
    decreases k
  {
    if k > 0 {
      MaxBinIsMax(ps, k - 1);
    }
  }

  /** The peak meter: a new maximum is taken, otherwise the old one decays
      by 5% (dsp_filter.cc:823-827). */
  function NextPmax(pmax: real, m: real): (r: real)
    ensures pmax < m ==> r == m
    ensures m <= pmax ==> r == 0.95 * pmax
  {
    if pmax < m then m else 0.95 * pmax
  }

  /** The peak-hold trace: each bin the larger of its value and the power. */
  function HoldPeak(peak: seq<real>, power: seq<real>): (r: seq<real>)
    requires |power| == |peak|
    ensures |r| == |peak|
    ensures forall i :: 0 <= i < |r| ==> r[i] >= peak[i] && r[i] >= power[i]
    ensures forall i :: 0 <= i < |r| ==> r[i] == peak[i] || r[i] == power[i]
  {
    seq(|peak|, i requires 0 <= i < |peak| => if peak[i] < power[i] then power[i] else peak[i])
  }

  /** The mean of `n` copies of `p` and one `q`. */
  function Mean(n: nat, p: real, q: real): real {
    ((n as real) * p + q) / ((n as real) + 1.0)
  }

  /** The running average of `n` earlier traces and the power. */
  function Averaged(peak: seq<real>, power: seq<real>, n: nat): (r: seq<real>)
    requires |power| == |peak|
    ensures |r| == |peak|
    ensures forall i :: 0 <= i < |peak| ==> r[i] == Mean(n, peak[i], power[i])
  {
    seq(|peak|, i requires 0 <= i < |peak| => Mean(n, peak[i], power[i]))
  }

  /** The average count, saturating at `AverageCap`. */
  function NextCount(n: nat): (r: nat)
    ensures n < AverageCap ==> r == n + 1
    ensures n >= AverageCap ==> r == n
  {
    if n < AverageCap then n + 1 else n
  }

  /** The part of one chunk that every mode shares (dsp_filter.cc:745-827):
      the cursor step, the delay line, the power trace and its flag, and
      the peak meter; the peak-hold trace and its count are untouched. */
  function Measure(cf: Config, sp: Spectral, ipdata: seq<real>, s: Snapshot): (r: Snapshot)
    requires WellFormed(cf, ipdata, s)
    ensures WellFormed(cf, ipdata, r)
    ensures r.icount == Advance(s.icount, cf.fftlen / 2, cf.ipsize) && r.powerValid
    ensures r.peak == s.peak && r.peakValid == s.peakValid && r.count == s.count
  {
    var l := cf.fftlen / 2;
    CursorStep(s.icount, l, cf.ipsize);
    var warped := Warped(cf, sp, ipdata[s.icount .. s.icount + l], s.warped);
    var bins := Bins(sp, warped, cf.fftlen + 1);
    var power := Leaky(s.power, bins, sp.leak(l, cf.fsamp, cf.speed));
    Snapshot(Advance(s.icount, l, cf.ipsize), warped, power, true,
             s.peak, s.peakValid, s.count, NextPmax(s.pmax, MaxBin(bins, cf.fftlen)))
  }

  /** `Measure` field by field. */
  lemma MeasureParts(cf: Config, sp: Spectral, ipdata: seq<real>, s: Snapshot, l: nat, a: real)
    requires WellFormed(cf, ipdata, s) && l == cf.fftlen / 2 && s.icount + l <= cf.ipsize
    requires a == sp.leak(l, cf.fsamp, cf.speed)
    ensures var warped := Warped(cf, sp, ipdata[s.icount .. s.icount + l], s.warped);
            var bins := Bins(sp, warped, cf.fftlen + 1);
            Measure(cf, sp, ipdata, s)
            == Snapshot(Advance(s.icount, l, cf.ipsize), warped, Leaky(s.power, bins, a), true,
                        s.peak, s.peakValid, s.count, NextPmax(s.pmax, MaxBin(bins, cf.fftlen)))
  {
  }

  /** One chunk of `process` (dsp_filter.cc:745-847): `Measure`, then the
      peak-hold or average trace by mode. */
  function Chunk(cf: Config, sp: Spectral, ipdata: seq<real>, mode: ProcessMode, s: Snapshot): (r: Snapshot)
    requires WellFormed(cf, ipdata, s)
    ensures WellFormed(cf, ipdata, r)
    ensures r.icount == Advance(s.icount, cf.fftlen / 2, cf.ipsize)
    ensures mode == Average ==> r.count == NextCount(s.count)
    ensures mode != Average ==> r.count == s.count
  {
    var base := Measure(cf, sp, ipdata, s);
    match mode
    case Plain => base
    case Peak => base.(peak := HoldPeak(s.peak, base.power), peakValid := true)
    case Average => base.(peak := Averaged(s.peak, base.power, s.count), peakValid := true,
                          count := NextCount(s.count))
  }

  /** `n` chunks of `process`. */
  function Steps(cf: Config, sp: Spectral, ipdata: seq<real>, mode: ProcessMode, s: Snapshot, n: nat): (r: Snapshot)
    requires WellFormed(cf, ipdata, s)
    ensures WellFormed(cf, ipdata, r)
    decreases n
  {
    if n == 0 then s else Chunk(cf, sp, ipdata, mode, Steps(cf, sp, ipdata, mode, s, n - 1))
  }

  /** The first of `n + 1` chunks can be taken first. */
  lemma {:induction false} StepsFirst(cf: Config, sp: Spectral, ipdata: seq<real>, mode: ProcessMode, s: Snapshot, n: nat)
    requires WellFormed(cf, ipdata, s)
    ensures Steps(cf, sp, ipdata, mode, s, n + 1)
            == Steps(cf, sp, ipdata, mode, Chunk(cf, sp, ipdata, mode, s), n)
    decreases n
  {
    if n > 0 {
      var m := n - 1;
      StepsFirst(cf, sp, ipdata, mode, s, m);
      assert m + 1 == n;
    }
  }

  /** The number of chunks `process (iplen)` handles: its loop steps `k`
      by `l` from 0 while `k < iplen` (dsp_filter.cc:744). */
  function ChunkCount(iplen: int, l: nat): (r: nat)
    requires l > 0
    ensures r == 0 <==> iplen <= 0
    decreases if iplen > 0 then iplen else 0
  {
    if iplen <= 0 then 0 else 1 + ChunkCount(iplen - l, l)
  }

  /** `process (iplen)`: `ChunkCount (iplen, l)` chunks, one after another. */
  function Run(cf: Config, sp: Spectral, ipdata: seq<real>, mode: ProcessMode, s: Snapshot, iplen: int): (r: Snapshot)
    requires WellFormed(cf, ipdata, s)
    ensures WellFormed(cf, ipdata, r)
  {
    Steps(cf, sp, ipdata, mode, s, ChunkCount(iplen, cf.fftlen / 2))
  }

  /** While input remains, `process` takes one chunk and goes on with `l`
      fewer samples to cover. */
  lemma RunStep(cf: Config, sp: Spectral, ipdata: seq<real>, mode: ProcessMode, s: Snapshot, rest: int, rest': int)
    requires WellFormed(cf, ipdata, s) && rest > 0 && rest' == rest - cf.fftlen / 2
    ensures Run(cf, sp, ipdata, mode, s, rest) == Run(cf, sp, ipdata, mode, Chunk(cf, sp, ipdata, mode, s), rest')
  {
    var l := cf.fftlen / 2;
    var c := ChunkCount(rest', l);
    assert ChunkCount(rest, l) == c + 1;
    StepsFirst(cf, sp, ipdata, mode, s, c);
  }

  /** The number of chunks is `ceil (iplen / l)`, and 0 for `iplen <= 0`. */
  lemma {:induction false} ChunkCountIsCeiling(iplen: int, l: nat)
    requires l > 0
    ensures ChunkCount(iplen, l) * l >= iplen
    ensures ChunkCount(iplen, l) > 0 ==> (ChunkCount(iplen, l) - 1) * l < iplen
    ensures ChunkCount(iplen, l) == 0 <==> iplen <= 0
    decreases if iplen > 0 then iplen else 0
  {
    if iplen > 0 {
      var c' := ChunkCount(iplen - l, l);
      ChunkCountIsCeiling(iplen - l, l);
      MulPred(c' + 1, l);
    }
  }

  lemma ModAddLeft(x: int, l: nat, m: nat)
    requires m > 0
    ensures (x % m + l) % m == (x + l) % m
  {
    var q := x / m;
    var r := x % m;
    assert x == q * m + r;
    var k2 := (r + l) / m;
    var r2 := (r + l) % m;
    assert r + l == k2 * m + r2;
    assert x + l == (q + k2) * m + r2;
    ModUnique(x + l, m, q + k2, r2);
  }

  /** The cursor after `n` chunks of `l` samples from `c0`. */
  function Cursor(c0: nat, l: nat, m: nat, n: nat): nat
    decreases n
  {
    if n == 0 then c0 else Advance(Cursor(c0, l, m, n - 1), l, m)
  }

  lemma {:induction false} CursorStays(c0: nat, l: nat, m: nat, n: nat)
    requires l > 0 && OnGrid(m, l) && c0 < m && OnGrid(c0, l)
    ensures Cursor(c0, l, m, n) < m && OnGrid(Cursor(c0, l, m, n), l)
    decreases n
  {
    if n > 0 {
      CursorStays(c0, l, m, n - 1);
      CursorStep(Cursor(c0, l, m, n - 1), l, m);
    }
  }

  /** On the grid, the wrap of `Advance` is the remainder modulo `m`. */
  lemma AdvanceIsMod(c: nat, l: nat, m: nat)
    requires l > 0 && OnGrid(m, l) && c < m && OnGrid(c, l)
    ensures Advance(c, l, m) == (c + l) % m
  {
    CursorStep(c, l, m);
    if c + l == m {
      ModUnique(c + l, m, 1, 0);
    } else {
      ModUnique(c + l, m, 0, c + l);
    }
  }

  lemma {:induction false} CursorIsMod(c0: nat, l: nat, m: nat, n: nat)
    requires l > 0 && OnGrid(m, l) && c0 < m && OnGrid(c0, l)
    ensures Cursor(c0, l, m, n) == (c0 + n * l) % m
    decreases n
  {
    if n == 0 {
      ModUnique(c0, m, 0, c0);
    } else {
      var c := Cursor(c0, l, m, n - 1);
      CursorIsMod(c0, l, m, n - 1);
      CursorStays(c0, l, m, n - 1);
      AdvanceIsMod(c, l, m);
      CursorArith(c0, c, n, l, m);
    }
  }

  lemma CursorArith(c0: nat, c: nat, n: nat, l: nat, m: nat)
    requires m > 0 && n > 0 && c == (c0 + (n - 1) * l) % m
    ensures (c + l) % m == (c0 + n * l) % m
  {
    var x := c0 + (n - 1) * l;
    ModAddLeft(x, l, m);
    MulPred(n, l);
    assert x + l == c0 + n * l;
  }

  lemma {:induction false} StepsCursor(cf: Config, sp: Spectral, ipdata: seq<real>, mode: ProcessMode, s: Snapshot, n: nat)
    requires WellFormed(cf, ipdata, s)
    ensures Steps(cf, sp, ipdata, mode, s, n).icount == Cursor(s.icount, cf.fftlen / 2, cf.ipsize, n)
    decreases n
  {
    if n > 0 {
      StepsCursor(cf, sp, ipdata, mode, s, n - 1);
    }
  }

  /** After `n` chunks the cursor has moved by `n * l` modulo `ipsize`. */
  lemma CursorAfterSteps(cf: Config, sp: Spectral, ipdata: seq<real>, mode: ProcessMode, s: Snapshot, n: nat)
    requires WellFormed(cf, ipdata, s)
    ensures Steps(cf, sp, ipdata, mode, s, n).icount == (s.icount + n * (cf.fftlen / 2)) % cf.ipsize
  {
    StepsCursor(cf, sp, ipdata, mode, s, n);
    CursorIsMod(s.icount, cf.fftlen / 2, cf.ipsize, n);
  }

  /** One chunk moves the cursor by `l` modulo `ipsize`. */
  lemma ChunkCursor(cf: Config, sp: Spectral, ipdata: seq<real>, mode: ProcessMode, s: Snapshot)
    requires WellFormed(cf, ipdata, s)
    ensures Chunk(cf, sp, ipdata, mode, s).icount == (s.icount + cf.fftlen / 2) % cf.ipsize
  {
    AdvanceIsMod(s.icount, cf.fftlen / 2, cf.ipsize);
  }

  lemma MulPred(n: nat, l: nat)
    requires n > 0
    ensures (n - 1) * l + l == n * l
  {
  }

  /** In peak-hold mode no bin of the peak trace decreases, and each holds
      at least the new power. */
  lemma PeakHolds(cf: Config, sp: Spectral, ipdata: seq<real>, s: Snapshot)
    requires WellFormed(cf, ipdata, s)
    ensures var r := Chunk(cf, sp, ipdata, Peak, s);
            && r.peakValid && r.count == s.count
            && forall i :: 0 <= i < |r.peak| ==> r.peak[i] >= s.peak[i] && r.peak[i] >= r.power[i]
  {
  }

  /** Over any number of peak-hold chunks no bin of the peak trace
      decreases. */
  lemma {:induction false} PeakNeverDecreases(cf: Config, sp: Spectral, ipdata: seq<real>, s: Snapshot, n: nat)
    requires WellFormed(cf, ipdata, s)
    ensures forall i :: 0 <= i < |s.peak| ==> Steps(cf, sp, ipdata, Peak, s, n).peak[i] >= s.peak[i]
    decreases n
  {
    if n > 0 {
      PeakNeverDecreases(cf, sp, ipdata, s, n - 1);
      PeakHolds(cf, sp, ipdata, Steps(cf, sp, ipdata, Peak, s, n - 1));
    }
  }

  lemma MulMonotone(n: real, x: real, y: real)
    requires n >= 0.0 && x <= y
    ensures n * x <= n * y
  {
    assert n * y - n * x == n * (y - x);
    assert n * (y - x) >= 0.0;
  }

  lemma MulPositive(x: real, y: real)
    ensures x > 0.0 && y > 0.0 ==> x * y > 0.0
  {
  }

  /** A weighted mean lies between its two values. */
  lemma MeanBetween(n: nat, p: real, q: real)
    ensures (if p < q then p else q) <= Mean(n, p, q) <= (if p < q then q else p)
  {
    var w := n as real;
    var mean := Mean(n, p, q);
    var lo := if p < q then p else q;
    var hi := if p < q then q else p;
    MulMonotone(w, lo, p);
    MulMonotone(w, p, hi);
    assert w * lo + lo <= w * p + q <= w * hi + hi;
    assert mean * (w + 1.0) == w * p + q;
    assert (lo - mean) * (w + 1.0) == w * lo + lo - mean * (w + 1.0);
    assert (mean - hi) * (w + 1.0) == mean * (w + 1.0) - (w * hi + hi);
    MulPositive(lo - mean, w + 1.0);
    MulPositive(mean - hi, w + 1.0);
  }

  /** In average mode each bin of the trace moves to a mean of its value and
      the new power, and the count grows by one until it reaches its cap. */
  lemma AverageStep(cf: Config, sp: Spectral, ipdata: seq<real>, s: Snapshot)
    requires WellFormed(cf, ipdata, s)
    ensures var r := Chunk(cf, sp, ipdata, Average, s);
            && r.peakValid
            && r.count == (if s.count < AverageCap then s.count + 1 else s.count)
            && forall i :: 0 <= i < |r.peak| ==>
                 && (s.peak[i] <= r.power[i] ==> s.peak[i] <= r.peak[i] <= r.power[i])
                 && (r.power[i] <= s.peak[i] ==> r.power[i] <= r.peak[i] <= s.peak[i])
  {
    var r := Chunk(cf, sp, ipdata, Average, s);
    var power := Measure(cf, sp, ipdata, s).power;
    assert r.power == power;
    assert r.peak == Averaged(s.peak, power, s.count);
    forall i | 0 <= i < |r.peak|
      ensures s.peak[i] <= power[i] ==> s.peak[i] <= r.peak[i] <= power[i]
      ensures power[i] <= s.peak[i] ==> power[i] <= r.peak[i] <= s.peak[i]
    {
      MeanBetween(s.count, s.peak[i], power[i]);
    }
  }

  /** From count `c`, `n` average chunks leave the count at
      `min (c + n, AverageCap)`. */
  lemma {:induction false} CountSaturates(cf: Config, sp: Spectral, ipdata: seq<real>, s: Snapshot, n: nat)
    requires WellFormed(cf, ipdata, s)
    ensures Steps(cf, sp, ipdata, Average, s, n).count
            == if s.count + n <= AverageCap then s.count + n else AverageCap
    decreases n
  {
    if n > 0 {
      CountSaturates(cf, sp, ipdata, s, n - 1);
    }
  }

  /** The modes other than average leave the count alone. */
  lemma {:induction false} CountOnlyInAverage(cf: Config, sp: Spectral, ipdata: seq<real>, mode: ProcessMode, s: Snapshot, n: nat)
    requires WellFormed(cf, ipdata, s) && mode != Average
    ensures Steps(cf, sp, ipdata, mode, s, n).count == s.count
    decreases n
  {
    if n > 0 {
      CountOnlyInAverage(cf, sp, ipdata, mode, s, n - 1);
    }
  }

  /** With `0 <= a <= 1` each value of the power trace moves to a point
      between its old value and its bin's power. */
  lemma LeakyBetween(power: seq<real>, bins: seq<real>, a: real)
    requires |bins| == |power| && 0.0 <= a <= 1.0
    ensures forall i :: 0 <= i < |power| ==>
              && (power[i] <= bins[i] ==> power[i] <= Leaky(power, bins, a)[i] <= bins[i])
              && (bins[i] <= power[i] ==> bins[i] <= Leaky(power, bins, a)[i] <= power[i])
  {
    forall i | 0 <= i < |power|
      ensures power[i] <= bins[i] ==> power[i] <= Leaky(power, bins, a)[i] <= bins[i]
      ensures bins[i] <= power[i] ==> bins[i] <= Leaky(power, bins, a)[i] <= power[i]
    {
      ApproachBetween(power[i], bins[i], a);
    }
  }

  lemma ApproachBetween(p: real, b: real, a: real)
    requires 0.0 <= a <= 1.0
    ensures p <= b ==> p <= Approach(p, b, a) <= b
    ensures b <= p ==> b <= Approach(p, b, a) <= p
  {
    if p <= b {
      var d := b - p;
      MulMonotone(d, 0.0, a);
      MulMonotone(d, a, 1.0);
      assert Approach(p, b, a) == p + d * a;
    } else {
      var e := p - b;
      MulMonotone(e, 0.0, a);
      MulMonotone(e, a, 1.0);
      assert Approach(p, b, a) == p - e * a;
    }
  }

  /** The first average after a reset is the power trace itself. */
  lemma FirstAverageIsPower(peak: seq<real>, power: seq<real>)
    requires |power| == |peak|
    ensures Averaged(peak, power, 0) == power
  {
  }

  function Zeros(n: nat): (r: seq<real>)
    ensures |r| == n && forall i :: 0 <= i < n ==> r[i] == 0.0
  {
    seq(n, _ => 0.0)
  }

  /** `PerceptualAnalyzer::Trace`: a buffer and its flags. */
  class Trace {
    const data: array<real>
    var valid: bool
    var count: nat

    /** `Trace (size)` (dsp_filter.cc:574-578): the count is not set here,
        only by the analyzer's `reset`. */
    constructor(size: nat)
      ensures data.Length == size && fresh(data)
      ensures !valid
    {
      data := new real[size];
      valid := false;
    }
  }

  class PerceptualAnalyzer {
    const fftlen: nat
    const ipsize: nat
    const fsamp: real
    var icount: nat
    var wfact: real
    var speed: real
    var pmax: real
    const ipdata: array<real>
    const warped: array<real>
    const power: Trace
    const peakp: Trace

    /** The sizes and the distinct buffers; `Valid` also bounds the count. */
    ghost predicate Layout()
      reads this, power, peakp
    {
      && fftlen >= 2 && fftlen % 2 == 0
      && ipsize > 0 && OnGrid(ipsize, fftlen / 2) && ipdata.Length == ipsize
      && icount < ipsize && OnGrid(icount, fftlen / 2)
      && warped.Length == fftlen + 1 && power.data.Length == fftlen + 1 && peakp.data.Length == fftlen + 1
      && power != peakp
      && warped != power.data && warped != peakp.data && power.data != peakp.data
      && ipdata != warped && ipdata != power.data && ipdata != peakp.data
    }

    ghost predicate Valid()
      reads this, power, peakp
    {
      Layout() && peakp.count <= AverageCap
    }

    function Conf(): Config
      reads this
    {
      Config(fftlen, ipsize, fsamp, wfact, speed)
    }

    function Snap(): Snapshot
      reads this, warped, power, peakp, power.data, peakp.data
    {
      Snapshot(icount, warped[..], power.data[..], power.valid,
               peakp.data[..], peakp.valid, peakp.count, pmax)
    }

    lemma SnapWellFormed()
      requires Valid()
      ensures WellFormed(Conf(), ipdata[..], Snap())
    {
    }

    /** `PerceptualAnalyzer (sample_rate, ipsize)` (dsp_filter.cc:585-600),
        with the FFT length as a parameter: allocates the buffers and, by
        way of `init` and `set_wfact`, resets them. The peak meter starts
        at 0. */
    constructor(sampleRate: real, inputSize: nat, fftLength: nat)
      requires fftLength >= 2 && fftLength % 2 == 0
      requires inputSize > 0 && inputSize % (fftLength / 2) == 0
      ensures Valid()
      ensures fftlen == fftLength && ipsize == inputSize && fsamp == sampleRate
      ensures wfact == 0.9 && speed == 1.0
      ensures fresh(ipdata) && fresh(warped) && fresh(power) && fresh(peakp)
      ensures fresh(power.data) && fresh(peakp.data)
      ensures Snap() == Snapshot(0, Zeros(fftLength + 1), Zeros(fftLength + 1), false,
                                 Zeros(fftLength + 1), false, 0, 0.0)
    {
      fftlen := fftLength;
      ipsize := inputSize;
      fsamp := sampleRate;
      icount := 0;
      wfact := 0.9;
      speed := 1.0;
      pmax := 0.0;
      ipdata := new real[inputSize];
      warped := new real[fftLength + 1];
      power := new Trace(fftLength + 1);
      peakp := new Trace(fftLength + 1);
      GridOfMod(inputSize, fftLength / 2);
      new;
      Reset();
    }

    /** `set_speed (speed)` for a preset (dsp_filter.cc:664-685). */
    method SetSpeed(preset: Speed)
      modifies this
      ensures speed == SpeedValue(preset)
      ensures icount == old(icount) && wfact == old(wfact) && pmax == old(pmax)
    {
      match preset
      case Noise => speed := 20.0;
      case Slow => speed := 2.0;
      case Moderate => speed := 0.2;
      case Fast => speed := 0.08;
      case Rapid => speed := 0.03;
    }

    /** `set_speed (float)` (dsp_filter.cc:687-690). */
    method SetSpeedValue(value: real)
      modifies this
      ensures speed == value
      ensures icount == old(icount) && wfact == old(wfact) && pmax == old(pmax)
    {
      speed := value;
    }

    /** `reset ()` (dsp_filter.cc:692-701): both flags cleared, the count
        zeroed, the delay line and both traces zeroed; the cursor and the
        peak meter are kept. */
    method Reset()
      requires Layout()
      modifies power, peakp, warped, power.data, peakp.data
      ensures Valid()
      ensures Snap() == old(Snap()).(warped := Zeros(fftlen + 1), power := Zeros(fftlen + 1),
                                     powerValid := false, peak := Zeros(fftlen + 1),
                                     peakValid := false, count := 0)
    {
      power.valid := false;
      peakp.valid := false;
      peakp.count := 0;
      DspBuffers.Memset(warped, 0.0, fftlen + 1);
      DspBuffers.Memset(power.data, 0.0, fftlen + 1);
      DspBuffers.Memset(peakp.data, 0.0, fftlen + 1);
      assert warped[..] == Zeros(fftlen + 1);
      assert power.data[..] == Zeros(fftlen + 1);
      assert peakp.data[..] == Zeros(fftlen + 1);
    }

    /** `process (iplen, mode)` (dsp_filter.cc:734-849): `ceil (iplen / l)`
        chunks of `l = fftlen / 2` samples from the input buffer. */
    method Process(iplen: int, mode: ProcessMode, sp: Spectral)
      requires Valid()
      modifies this, power, peakp, warped, power.data, peakp.data
      ensures Valid() && Conf() == old(Conf())
      ensures WellFormed(Conf(), ipdata[..], old(Snap()))
      ensures Snap() == Run(Conf(), sp, ipdata[..], mode, old(Snap()), iplen)
    {
      SnapWellFormed();
      ghost var cf := Conf();
      ghost var ipd := ipdata[..];
      ghost var final := Run(cf, sp, ipd, mode, Snap(), iplen);
      var l := fftlen / 2;
      var k := 0;
      ghost var rest: int := iplen;
      while k < iplen
        invariant rest == iplen - k
        invariant Valid() && Conf() == cf && ipdata[..] == ipd && WellFormed(cf, ipd, Snap())
        invariant Run(cf, sp, ipd, mode, Snap(), rest) == final
      {
        rest := ProcessStep(mode, sp, cf, ipd, final, rest);
        k := k + l;
      }
    }

    method ProcessStep(mode: ProcessMode, sp: Spectral, ghost cf: Config, ghost ipd: seq<real>,
                       ghost final: Snapshot, ghost rest: int) returns (ghost rest': int)
      requires rest > 0
      requires Valid() && Conf() == cf && ipdata[..] == ipd && WellFormed(cf, ipd, Snap())
      requires Run(cf, sp, ipd, mode, Snap(), rest) == final
      modifies this, power, peakp, warped, power.data, peakp.data
      ensures Valid() && Conf() == cf && ipdata[..] == ipd && WellFormed(cf, ipd, Snap())
      ensures rest' == rest - fftlen / 2
      ensures Run(cf, sp, ipd, mode, Snap(), rest') == final
    {
      ghost var before := Snap();
      rest' := rest - cf.fftlen / 2;
      RunStep(cf, sp, ipd, mode, before, rest, rest');
      ProcessChunk(mode, sp, cf, ipd);
      SnapWellFormed();
    }

    /** One chunk: the cursor step, the delay line, the power trace, the
        peak meter and, by mode, the peak-hold or average trace. */
    method ProcessChunk(mode: ProcessMode, sp: Spectral, ghost cf: Config, ghost ipd: seq<real>)
      requires Valid() && Conf() == cf && ipdata[..] == ipd
      modifies this, power, peakp, warped, power.data, peakp.data
      ensures Valid() && Conf() == cf && ipdata[..] == ipd
      ensures WellFormed(cf, ipd, old(Snap()))
      ensures Snap() == Chunk(cf, sp, ipd, mode, old(Snap()))
    {
      SnapWellFormed();
      ghost var s0 := Snap();
      MeasureChunk(sp);
      ghost var base := Snap();
      if mode == Peak {
        HoldPeaks();
        peakp.valid := true;
        assert Snap() == base.(peak := HoldPeak(s0.peak, base.power), peakValid := true);
      } else if mode == Average {
        var n := peakp.count;
        AveragePeaks(n);
        if n < AverageCap {
          peakp.count := n + 1;
        }
        peakp.valid := true;
        assert Snap() == base.(peak := Averaged(s0.peak, base.power, s0.count), peakValid := true,
                               count := NextCount(s0.count));
      }
    }

    /** The part of a chunk every mode shares (dsp_filter.cc:745-827). */
    method MeasureChunk(sp: Spectral)
      requires Valid()
      modifies this, power, warped, power.data
      ensures Valid() && Conf() == old(Conf())
      ensures WellFormed(Conf(), ipdata[..], old(Snap()))
      ensures Snap() == Measure(Conf(), sp, ipdata[..], old(Snap()))
    {
      SnapWellFormed();
      ghost var s0 := Snap();
      ghost var cf := Conf();
      ghost var ipd := ipdata[..];
      var l := fftlen / 2;
      var p1 := AdvanceCursor();
      assert Conf() == cf && ipdata[..] == ipd && warped[..] == s0.warped;
      WarpChunk(p1, sp);
      ghost var w := Warped(cf, sp, ipd[s0.icount .. s0.icount + l], s0.warped);
      assert ipd[p1 .. p1 + l] == ipdata[p1 .. p1 + l];
      assert warped[..] == w;
      var a := sp.leak(l, fsamp, speed);
      ghost var bins := Bins(sp, w, cf.fftlen + 1);
      assert power.data[..] == s0.power;
      var m := UpdatePower(a, sp);
      assert power.data[..] == Leaky(s0.power, bins, a);
      assert m == MaxBin(bins, cf.fftlen);
      power.valid := true;
      UpdatePeakMeter(m);
      MeasureParts(cf, sp, ipd, s0, l, a);
      assert Snap() == Snapshot(Advance(s0.icount, l, cf.ipsize), w, Leaky(s0.power, bins, a), true,
                                s0.peak, s0.peakValid, s0.count, NextPmax(s0.pmax, MaxBin(bins, cf.fftlen)));
      assert Conf() == cf && ipdata[..] == ipd;
    }

    /** The cursor moves one chunk on, wrapping to 0 at the end of the input
        buffer (dsp_filter.cc:745-749); returns where the chunk starts. */
    method AdvanceCursor() returns (p1: nat)
      requires Valid()
      modifies this
      ensures Valid() && Conf() == old(Conf()) && pmax == old(pmax)
      ensures p1 == old(icount) && p1 + fftlen / 2 <= ipsize
      ensures icount == Advance(old(icount), fftlen / 2, ipsize)
    {
      var l := fftlen / 2;
      CursorStep(icount, l, ipsize);
      p1 := icount;
      icount := icount + l;
      if icount == ipsize {
        icount := 0;
      }
    }

    /** The peak meter takes a new maximum and otherwise decays
        (dsp_filter.cc:823-827). */
    method UpdatePeakMeter(m: real)
      modifies this
      ensures pmax == NextPmax(old(pmax), m)
      ensures icount == old(icount) && wfact == old(wfact) && speed == old(speed)
    {
      if pmax < m {
        pmax := m;
      } else {
        pmax := 0.95 * pmax;
      }
    }

    /** The all-pass cascade over the chunk that starts at `p1`. */
    method WarpChunk(p1: nat, sp: Spectral)
      requires Valid() && p1 + fftlen / 2 <= ipsize
      modifies warped
      ensures warped[..] == Warped(Conf(), sp, ipdata[p1 .. p1 + fftlen / 2], old(warped[..]))
    {
      var w := -wfact;
      var prev := warped[..];
      var chunk := ipdata[p1 .. p1 + fftlen / 2];
      var i := 0;
      while i <= fftlen
        invariant 0 <= i <= fftlen + 1
        invariant forall j :: 0 <= j < i ==> warped[j] == sp.warp(prev, chunk, w, j)
        invariant forall j :: i <= j <= fftlen ==> warped[j] == prev[j]
      {
        warped[i] := sp.warp(prev, chunk, w, i);
        i := i + 1;
      }
      assert warped[..] == Warped(Conf(), sp, chunk, prev);
    }

    /** The leaky update of the power trace, bins in pairs and then the last
        one (dsp_filter.cc:795-821); returns the largest of 0 and the first
        `fftlen` bin powers. */
    method UpdatePower(a: real, sp: Spectral) returns (m: real)
      requires fftlen % 2 == 0 && warped.Length == fftlen + 1 && power.data.Length == fftlen + 1
      requires warped != power.data
      modifies power.data
      ensures var bins := Bins(sp, warped[..], fftlen + 1);
              && power.data[..] == Leaky(old(power.data[..]), bins, a)
              && m == MaxBin(bins, fftlen)
    {
      var l := fftlen / 2;
      var spectrum := warped[..];
      ghost var bins := Bins(sp, spectrum, fftlen + 1);
      ghost var before := power.data[..];
      ghost var target := Leaky(before, bins, a);
      m := 0.0;
      var i := 0;
      while i < l
        invariant 0 <= i <= l
        invariant forall j :: 0 <= j < 2 * i ==> power.data[j] == target[j]
        invariant forall j :: 2 * i <= j <= fftlen ==> power.data[j] == before[j]
        invariant m == MaxBin(bins, 2 * i)
      {
        var p := sp.bin(spectrum, 2 * i);
        if m < p {
          m := p;
        }
        LeakBin(2 * i, p, a);
        p := sp.bin(spectrum, 2 * i + 1);
        if m < p {
          m := p;
        }
        LeakBin(2 * i + 1, p, a);
        i := i + 1;
      }
      var p := sp.bin(spectrum, 2 * l);
      LeakBin(2 * l, p, a);
      assert power.data[..] == target;
    }

    /** One bin of the power trace moved towards `p` by the factor `a`. */
    method LeakBin(j: nat, p: real, a: real)
      requires j < power.data.Length
      modifies power.data
      ensures power.data[j] == Approach(old(power.data[j]), p, a)
      ensures forall k :: 0 <= k < power.data.Length && k != j ==> power.data[k] == old(power.data[k])
    {
      var p1 := power.data;
      p1[j] := p1[j] + a * (p - p1[j]);
    }

    /** `MM_PEAK`: each bin of the peak trace raised to the power trace
        (dsp_filter.cc:829-835). */
    method HoldPeaks()
      requires Valid()
      modifies peakp.data
      ensures peakp.data[..] == HoldPeak(old(peakp.data[..]), power.data[..])
    {
      var p1 := power.data;
      var p2 := peakp.data;
      var i := 0;
      while i <= fftlen
        invariant 0 <= i <= fftlen + 1
        invariant forall j :: 0 <= j < i ==> p2[j] == HoldPeak(old(p2[..]), p1[..])[j]
        invariant forall j :: i <= j <= fftlen ==> p2[j] == old(p2[j])
      {
        if p2[i] < p1[i] {
          p2[i] := p1[i];
        }
        i := i + 1;
      }
    }

    /** `MM_AVER`: each bin of the trace replaced by the mean of `n` copies
        of it and the power trace (dsp_filter.cc:836-846). */
    method AveragePeaks(n: nat)
      requires Valid()
      modifies peakp.data
      ensures peakp.data[..] == Averaged(old(peakp.data[..]), power.data[..], n)
    {
      var p1 := power.data;
      var p2 := peakp.data;
      var a := n as real;
      var b := a + 1.0;
      ghost var before := p2[..];
      ghost var pw := p1[..];
      var i := 0;
      while i <= fftlen
        invariant 0 <= i <= fftlen + 1
        invariant p1[..] == pw
        invariant forall j :: 0 <= j < i ==> p2[j] == Mean(n, before[j], pw[j])
        invariant forall j :: i <= j <= fftlen ==> p2[j] == before[j]
      {
        p2[i] := (a * p2[i] + p1[i]) / b;
        i := i + 1;
      }
      assert p2[..] == Averaged(before, pw, n);
    }
  }
}
