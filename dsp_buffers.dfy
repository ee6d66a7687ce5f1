/** The in-place buffer routines of `ARDOUR::DSP` (libs/ardour/dsp_filter.cc)
    and the floating-point classification the filters use to reset their
    state. Samples are real numbers: rounding is not modelled. */
module DspBuffers {

  /** The classification of a `float`, foreign to a model on reals
      (`isfinite`, `std::isnormal`). */
  datatype FloatEnv = FloatEnv(finite: real -> bool, normal: real -> bool)

  /** The reset the filters apply to a state register after a block: a
      value that is not finite, or finite but not normal (zero or
      subnormal), becomes 0; any other value is kept. */
  function Sanitize(fe: FloatEnv, x: real): (r: real)
    ensures r == 0.0 || (fe.finite(x) && fe.normal(x))
    ensures fe.finite(x) && fe.normal(x) ==> r == x
    ensures !(fe.finite(x) && fe.normal(x)) ==> r == 0.0
  {
    if !fe.finite(x) then 0.0
    else if !fe.normal(x) then 0.0
    else x
  }

  /** `DSP::memset (data, val, n_samples)` (dsp_filter.cc:44-50). */
  method Memset(data: array<real>, val: real, n: nat)
    requires n <= data.Length
    modifies data
    ensures forall i :: 0 <= i < n ==> data[i] == val
    ensures forall i :: n <= i < data.Length ==> data[i] == old(data[i])
  {
    var i := 0;
    while i < n
      invariant 0 <= i <= n
      invariant forall j :: 0 <= j < i ==> data[j] == val
      invariant forall j :: i <= j < data.Length ==> data[j] == old(data[j])
    {
      data[i] := val;
      i := i + 1;
    }
  }

  /** `DSP::mmult (data, mult, n_samples)` (dsp_filter.cc:52-58). `mult`
      may be `data` itself: each factor is read before its own index is
      written. */
  method Mmult(data: array<real>, mult: array<real>, n: nat)
    requires n <= data.Length && n <= mult.Length
    modifies data
    ensures forall i :: 0 <= i < n ==> data[i] == old(data[i]) * old(mult[i])
    ensures forall i :: n <= i < data.Length ==> data[i] == old(data[i])
  {
    var i := 0;
    while i < n
      invariant 0 <= i <= n
      invariant forall j :: 0 <= j < i ==> data[j] == old(data[j]) * old(mult[j])
      invariant forall j :: i <= j < data.Length ==> data[j] == old(data[j])
      invariant forall j :: i <= j < mult.Length ==> mult[j] == old(mult[j])
    {
      data[i] := data[i] * mult[i];
      i := i + 1;
    }
  }
}
