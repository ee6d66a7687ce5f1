/** The buffers of `ARDOUR::DSP::FFTSpectrum` (libs/ardour/dsp_filter.cc:478-545):
    an input window, the transform's output, the power per bin and the Hann
    window. The transform itself (FFTW) is not part of this model. */
module Spectrum {

  class FFTSpectrum {
    const windowSize: nat
    const dataSize: nat
    const dataIn: array<real>
    const dataOut: array<real>
    const power: array<real>
    const hann: array<real>

    /** The buffer sizes `init` allocates, four distinct buffers. */
    ghost predicate Valid()
      reads this
    {
      && dataSize == windowSize / 2
      && dataIn.Length == windowSize && dataOut.Length == windowSize
      && power.Length == dataSize && hann.Length == windowSize
      && dataIn != dataOut && dataIn != hann && dataOut != hann
    }

    /** `FFTSpectrum (window_size, rate)` and `init` (dsp_filter.cc:478-526):
        allocates the buffers, resets them, and stores the window. The
        window's values are a parameter: `window (i)` stands for the
        normalised Hann coefficient of index `i`. */
    constructor(size: nat, window: nat -> real)
      requires size > 0
      ensures Valid() && windowSize == size
      ensures fresh(dataIn) && fresh(dataOut) && fresh(power) && fresh(hann)
      ensures forall i :: 0 <= i < windowSize ==> dataOut[i] == 0.0
      ensures forall i :: 0 <= i < dataSize ==> power[i] == 0.0
      ensures forall i :: 0 <= i < windowSize ==> hann[i] == window(i)
    {
      windowSize := size;
      dataSize := size / 2;
      dataIn := new real[size];
      dataOut := new real[size];
      power := new real[size / 2];
      hann := new real[size];
      new;
      Reset();
      var i := 0;
      while i < size
        invariant 0 <= i <= size
        invariant forall j :: 0 <= j < i ==> hann[j] == window(j)
        modifies hann
      {
        hann[i] := window(i);
        i := i + 1;
      }
    }

    /** `reset ()` (dsp_filter.cc:527-536): zeroes the power and the
        transform's output; the input and the window are untouched. */
    method Reset()
      requires Valid()
      modifies power, dataOut
      ensures forall i :: 0 <= i < dataSize ==> power[i] == 0.0
      ensures forall i :: 0 <= i < windowSize ==> dataOut[i] == 0.0
    {
      var i := 0;
      while i < dataSize
        invariant 0 <= i <= dataSize
        invariant forall j :: 0 <= j < i ==> power[j] == 0.0
      {
        power[i] := 0.0;
        i := i + 1;
      }
      i := 0;
      while i < windowSize
        invariant 0 <= i <= windowSize
        invariant forall j :: 0 <= j < i ==> dataOut[j] == 0.0
        invariant forall j :: 0 <= j < dataSize ==> power[j] == 0.0
      {
        dataOut[i] := 0.0;
        i := i + 1;
      }
    }

    /** `set_data_hann (data, n_samples, offset)` (dsp_filter.cc:538-545):
        the input window from `offset` on holds the `n` samples weighted by
        the window; every other input sample keeps its value. */
    method SetDataHann(data: array<real>, n: nat, offset: nat)
      requires Valid()
      requires n + offset <= windowSize && n <= data.Length
      requires data != dataIn
      modifies dataIn
      ensures forall i :: 0 <= i < offset ==> dataIn[i] == old(dataIn[i])
      ensures forall i :: offset <= i < offset + n ==> dataIn[i] == data[i - offset] * hann[i]
      ensures forall i :: offset + n <= i < windowSize ==> dataIn[i] == old(dataIn[i])
    {
      var i := 0;
      while i < n
        invariant 0 <= i <= n
        invariant forall j :: 0 <= j < offset ==> dataIn[j] == old(dataIn[j])
        invariant forall j :: offset <= j < offset + i ==> dataIn[j] == data[j - offset] * hann[j]
        invariant forall j :: offset + i <= j < windowSize ==> dataIn[j] == old(dataIn[j])
      {
        dataIn[i + offset] := data[i] * hann[i + offset];
        i := i + 1;
      }
    }
  }
}
