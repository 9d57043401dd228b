/** The resampler and the 16-bit encoder of the capture pipeline.

    Samples are exact reals, the resampling ratio is the exact rational
    inRate/outRate, and the host's rounding (halves go toward +infinity) is
    Floor(x + 1/2).  Each operation is given twice: a pure specification
    function on sequences, and a method with the source's loops over arrays
    that is proved to compute it. */
module AudioUtils {

  import Arith

  /** The rate the transcription service expects. */
  const OutputSampleRate: int := 16000

  /** The largest 16-bit magnitude used by the encoder (0x7fff). */
  const MaxInt: int := 0x7fff

  newtype int16 = x: int | -0x8000 <= x < 0x8000

  // ---------------------------------------------------------------------
  // Rounding
  // ---------------------------------------------------------------------

  /** The host's round-to-nearest: the unique integer within a half of x,
      taking the upper one on a tie. */
  function RoundHalfUp(x: real): (n: int)
    ensures n as real - 0.5 <= x < n as real + 0.5
  {
    (x + 0.5).Floor
  }

  /** The least integer not below x. */
  function Ceil(x: real): (n: int)
    ensures n as real - 1.0 < x <= n as real
  {
    -((-x).Floor)
  }

  // ---------------------------------------------------------------------
  // Resampling: the window arithmetic of decreaseSampleRate
  // ---------------------------------------------------------------------

  /** The resampling ratio inRate/outRate, exact. */
  function Ratio(inRate: int, outRate: int): real
    requires outRate > 0
  {
    inRate as real / outRate as real
  }

  /** Index k of the window grid: round(k * ratio). Window i starts at
      Boundary(i) and ends (before clipping) at Boundary(i + 1). */
  function Boundary(k: int, inRate: int, outRate: int): int
    requires outRate > 0
  {
    RoundHalfUp(k as real * Ratio(inRate, outRate))
  }

  /** Number of output samples: ceil(len / ratio). */
  function OutLength(len: nat, inRate: int, outRate: int): int
    requires 0 < outRate < inRate
  {
    Ceil(len as real / Ratio(inRate, outRate))
  }

  /** The window grid in integer arithmetic. */
  lemma BoundaryClosedForm(k: int, inRate: int, outRate: int)
    requires outRate > 0
    ensures Boundary(k, inRate, outRate) == (2 * k * inRate + outRate) / (2 * outRate)
  {
    Arith.ScaledHalf(k, inRate, outRate);
    Arith.FloorOfQuotient(2 * k * inRate + outRate, 2 * outRate);
  }

  /** The output length in integer arithmetic. */
  lemma OutLengthClosedForm(len: nat, inRate: int, outRate: int)
    requires 0 < outRate < inRate
    ensures OutLength(len, inRate, outRate) == -((-(len * outRate)) / inRate)
  {
    var x := len as real / Ratio(inRate, outRate);
    Arith.OverRatio(len, inRate, outRate);
    assert -x == (-(len * outRate)) as real / inRate as real;
    Arith.FloorOfQuotient(-(len * outRate), inRate);
  }

  /** The output length is ceil(len * outRate / inRate): enough output
      samples to cover the input, and not one more. */
  lemma OutLengthIsCeiling(len: nat, inRate: int, outRate: int)
    requires 0 < outRate < inRate
    ensures OutLength(len, inRate, outRate) >= 0
    ensures (OutLength(len, inRate, outRate) - 1) * inRate < len * outRate
    ensures len * outRate <= OutLength(len, inRate, outRate) * inRate
  {
    OutLengthClosedForm(len, inRate, outRate);
    var q, r := (-(len * outRate)) / inRate, (-(len * outRate)) % inRate;
    assert -(len * outRate) == inRate * q + r;
    Arith.DivUpperBound(1, -(len * outRate), inRate);
    assert (-q - 1) * inRate == -(inRate * q) - inRate;
    assert -q * inRate == -(inRate * q);
  }

  /** The grid starts at index 0 of the input. */
  lemma BoundaryZero(inRate: int, outRate: int)
    requires outRate > 0
    ensures Boundary(0, inRate, outRate) == 0
  {
    BoundaryClosedForm(0, inRate, outRate);
    Arith.DivUnique(outRate, 2 * outRate, 0, outRate);
  }

  /** When downsampling, every unclipped window holds at least one index. */
  lemma BoundaryStrictlyIncreasing(k: int, inRate: int, outRate: int)
    requires 0 < outRate < inRate
    ensures Boundary(k, inRate, outRate) + 1 <= Boundary(k + 1, inRate, outRate)
  {
    BoundaryClosedForm(k, inRate, outRate);
    BoundaryClosedForm(k + 1, inRate, outRate);
    assert 2 * (k + 1) * inRate + outRate == (2 * k * inRate + outRate) + 2 * inRate;
    Arith.DivStep(2 * k * inRate + outRate, 2 * inRate, 2 * outRate);
  }

  /** The grid is monotone, so windows never overlap. */
  lemma BoundaryMonotone(a: int, b: int, inRate: int, outRate: int)
    requires 0 < outRate && 0 <= inRate && a <= b
    ensures Boundary(a, inRate, outRate) <= Boundary(b, inRate, outRate)
  {
    BoundaryClosedForm(a, inRate, outRate);
    BoundaryClosedForm(b, inRate, outRate);
    Arith.MulMono(2 * inRate, a, b);
    assert 2 * a * inRate <= 2 * b * inRate;
    Arith.DivMonotone(2 * a * inRate + outRate, 2 * b * inRate + outRate, 2 * outRate);
  }

  /** Every window of the output starts inside the buffer or right at its
      end. */
  lemma WindowStartsInBuffer(len: nat, inRate: int, outRate: int, i: int)
    requires 0 < outRate < inRate
    requires 0 <= i < OutLength(len, inRate, outRate)
    ensures Boundary(i, inRate, outRate) <= len
  {
    OutLengthIsCeiling(len, inRate, outRate);
    BoundaryClosedForm(i, inRate, outRate);
    Arith.RoundedGridBelow(i, OutLength(len, inRate, outRate), inRate, outRate, len);
  }

  /** The grid point after the last window lies at or past the end of the
      buffer, so the windows cover the whole input. */
  lemma LastBoundaryCoversInput(len: nat, inRate: int, outRate: int)
    requires 0 < outRate < inRate
    ensures len <= Boundary(OutLength(len, inRate, outRate), inRate, outRate)
  {
    var n := OutLength(len, inRate, outRate);
    OutLengthIsCeiling(len, inRate, outRate);
    BoundaryClosedForm(n, inRate, outRate);
    Arith.RoundedGridReaches(n, inRate, outRate, len);
  }

  /** First index of output window i. */
  function WindowStart(i: int, inRate: int, outRate: int): int
    requires outRate > 0
  {
    Boundary(i, inRate, outRate)
  }

  /** One past the last index of output window i: the next grid point,
      clipped to the buffer. */
  function WindowEnd(i: int, len: nat, inRate: int, outRate: int): int
    requires outRate > 0
  {
    var b := Boundary(i + 1, inRate, outRate);
    if b < len then b else len
  }

  /** Sum of s[lo..hi]; zero for an empty range. */
  function Sum(s: seq<real>, lo: int, hi: int): real
    requires 0 <= lo && (lo < hi ==> hi <= |s|)
    decreases hi - lo
  {
    if hi <= lo then 0.0 else Sum(s, lo, hi - 1) + s[hi - 1]
  }

  /** Arithmetic mean of s[lo..hi]. The source divides by a zero count for
      an empty range, which yields NaN; that case is given the value 0.0,
      which the encoder turns into the same 16-bit sample as NaN. */
  function Mean(s: seq<real>, lo: int, hi: int): real
    requires 0 <= lo && (lo < hi ==> hi <= |s|)
  {
    if lo < hi then Sum(s, lo, hi) / (hi - lo) as real else 0.0
  }

  /** Output sample i of a downsampled buffer: the mean of window i. */
  function WindowMean(s: seq<real>, inRate: int, outRate: int, i: int): real
    requires 0 < outRate < inRate && 0 <= i
  {
    BoundaryMonotone(0, i, inRate, outRate);
    BoundaryZero(inRate, outRate);
    Mean(s, WindowStart(i, inRate, outRate), WindowEnd(i, |s|, inRate, outRate))
  }

  /** Block-averaging downsampling: the identity unless inRate > outRate;
      otherwise output sample i is the mean of window i. */
  function Resample(s: seq<real>, inRate: int, outRate: int): seq<real>
    requires outRate > 0
  {
    if inRate <= outRate then s
    else
      OutLengthIsCeiling(|s|, inRate, outRate);
      seq(OutLength(|s|, inRate, outRate), i requires 0 <= i => WindowMean(s, inRate, outRate, i))
  }

  /** decreaseSampleRate returns its input when it would have to upsample. */
  lemma ResampleIdentity(s: seq<real>, inRate: int, outRate: int)
    requires 0 < outRate && inRate <= outRate
    ensures Resample(s, inRate, outRate) == s
  {
  }

  /** Shape of a downsampled buffer: its length is the output length, and
      each sample is the mean of its own window. */
  lemma ResampleAt(s: seq<real>, inRate: int, outRate: int, i: int)
    requires 0 < outRate < inRate
    requires 0 <= i < OutLength(|s|, inRate, outRate)
    ensures |Resample(s, inRate, outRate)| == OutLength(|s|, inRate, outRate)
    ensures 0 <= WindowStart(i, inRate, outRate)
    ensures WindowStart(i, inRate, outRate) < WindowEnd(i, |s|, inRate, outRate) ==>
              Resample(s, inRate, outRate)[i] ==
                Sum(s, WindowStart(i, inRate, outRate), WindowEnd(i, |s|, inRate, outRate)) /
                (WindowEnd(i, |s|, inRate, outRate) - WindowStart(i, inRate, outRate)) as real
  {
    OutLengthIsCeiling(|s|, inRate, outRate);
    BoundaryMonotone(0, i, inRate, outRate);
    BoundaryZero(inRate, outRate);
  }

  /** Successive windows are contiguous: where one ends, unless it was
      clipped, the next begins, and no index lies in two windows. */
  lemma {:induction false} WindowsContiguous(len: nat, inRate: int, outRate: int, i: int, j: int)
    requires 0 < outRate < inRate
    requires 0 <= i < j
    ensures WindowEnd(i, len, inRate, outRate) <= WindowStart(j, inRate, outRate)
    ensures Boundary(i + 1, inRate, outRate) <= len ==>
              WindowEnd(i, len, inRate, outRate) == WindowStart(i + 1, inRate, outRate)
  {
    BoundaryMonotone(i + 1, j, inRate, outRate);
  }

  /** Every index of the input is averaged into exactly one output sample. */
  lemma {:induction false} EveryIndexInOneWindow(len: nat, inRate: int, outRate: int, x: int)
    requires 0 < outRate < inRate
    requires 0 <= x < len
    ensures exists i :: 0 <= i < OutLength(len, inRate, outRate) &&
              WindowStart(i, inRate, outRate) <= x < WindowEnd(i, len, inRate, outRate)
    ensures forall i, j ::
              0 <= i < OutLength(len, inRate, outRate) && 0 <= j < OutLength(len, inRate, outRate) &&
              WindowStart(i, inRate, outRate) <= x < WindowEnd(i, len, inRate, outRate) &&
              WindowStart(j, inRate, outRate) <= x < WindowEnd(j, len, inRate, outRate)
              ==> i == j
  {
    var n := OutLength(len, inRate, outRate);
    LastBoundaryCoversInput(len, inRate, outRate);
    BoundaryZero(inRate, outRate);
    var i := FindWindow(x, n, inRate, outRate);
    assert WindowStart(i, inRate, outRate) <= x < WindowEnd(i, len, inRate, outRate);
    forall i1, j1 |
      0 <= i1 < n && 0 <= j1 < n &&
      WindowStart(i1, inRate, outRate) <= x < WindowEnd(i1, len, inRate, outRate) &&
      WindowStart(j1, inRate, outRate) <= x < WindowEnd(j1, len, inRate, outRate)
      ensures i1 == j1
    {
      if i1 < j1 {
        WindowsContiguous(len, inRate, outRate, i1, j1);
      } else if j1 < i1 {
        WindowsContiguous(len, inRate, outRate, j1, i1);
      }
    }
  }

  /** The window below grid point m that holds index x. */
  lemma {:induction false} FindWindow(x: int, m: int, inRate: int, outRate: int) returns (i: int)
    requires 0 < outRate < inRate
    requires 0 <= m && Boundary(0, inRate, outRate) <= x < Boundary(m, inRate, outRate)
    ensures 0 <= i < m
    ensures Boundary(i, inRate, outRate) <= x < Boundary(i + 1, inRate, outRate)
    decreases m
  {
    if Boundary(m - 1, inRate, outRate) <= x {
      i := m - 1;
    } else {
      i := FindWindow(x, m - 1, inRate, outRate);
    }
  }

  /** With an integer ratio r the grid is the multiples of r. */
  lemma IntegerRatioBoundary(k: int, r: int, outRate: int)
    requires 0 < outRate
    ensures Boundary(k, r * outRate, outRate) == k * r
  {
    BoundaryClosedForm(k, r * outRate, outRate);
    assert 2 * k * (r * outRate) + outRate == (2 * outRate) * (k * r) + outRate;
    Arith.DivUnique(2 * k * (r * outRate) + outRate, 2 * outRate, k * r, outRate);
  }

  /** With an integer ratio r, window i is exactly [i*r, min((i+1)*r, len)),
      and none of the output windows is empty. */
  lemma IntegerRatioWindows(len: nat, r: int, outRate: int, i: int)
    requires 0 < outRate && r > 1
    requires 0 <= i < OutLength(len, r * outRate, outRate)
    ensures WindowStart(i, r * outRate, outRate) == i * r
    ensures WindowEnd(i, len, r * outRate, outRate) == if (i + 1) * r < len then (i + 1) * r else len
    ensures WindowStart(i, r * outRate, outRate) < WindowEnd(i, len, r * outRate, outRate)
  {
    var inRate := r * outRate;
    Arith.MulStep(outRate, 1, r);
    IntegerRatioBoundary(i, r, outRate);
    IntegerRatioBoundary(i + 1, r, outRate);
    IntegerRatioCoverage(len, r, outRate, i);
    assert (i + 1) * r == i * r + r;
  }

  /** With an integer ratio r, every output window starts inside the buffer. */
  lemma IntegerRatioCoverage(len: nat, r: int, outRate: int, i: int)
    requires 0 < outRate && r > 1
    requires 0 <= i < OutLength(len, r * outRate, outRate)
    ensures i * r < len
  {
    Arith.MulStep(outRate, 1, r);
    OutLengthIsCeiling(len, r * outRate, outRate);
    Arith.ScaledGridBelow(i, OutLength(len, r * outRate, outRate), r, outRate, len);
  }

  /** With a non-integer ratio the last window can be empty: 7 Hz to 5 Hz
      on 6 samples asks for 5 outputs, but the fifth window starts at
      round(4 * 1.4) = 6, past the last sample. The source then divides
      zero by zero. */
  lemma EmptyLastWindow()
    ensures OutLength(6, 7, 5) == 5
    ensures WindowStart(4, 7, 5) == 6 == WindowEnd(4, 6, 7, 5)
  {
    OutLengthClosedForm(6, 7, 5);
    BoundaryClosedForm(4, 7, 5);
    BoundaryClosedForm(5, 7, 5);
  }

  /** Only the last window can be empty. */
  lemma {:induction false} OnlyLastWindowEmpty(len: nat, inRate: int, outRate: int, i: int)
    requires 0 < outRate < inRate
    requires 0 <= i && i + 1 < OutLength(len, inRate, outRate)
    ensures WindowStart(i, inRate, outRate) < WindowEnd(i, len, inRate, outRate)
  {
    WindowStartsInBuffer(len, inRate, outRate, i + 1);
    BoundaryStrictlyIncreasing(i, inRate, outRate);
  }

  /** A sum of samples within [lo, hi] lies within count*lo and count*hi. */
  lemma {:induction false} SumBounds(s: seq<real>, a: int, b: int, lo: real, hi: real)
    requires 0 <= a <= b <= |s|
    requires forall k :: a <= k < b ==> lo <= s[k] <= hi
    ensures (b - a) as real * lo <= Sum(s, a, b) <= (b - a) as real * hi
    decreases b - a
  {
    if a < b {
      SumBounds(s, a, b - 1, lo, hi);
    }
  }

  /** Averaging never leaves the range of the samples averaged. */
  lemma {:induction false} MeanBounds(s: seq<real>, a: int, b: int, lo: real, hi: real)
    requires 0 <= a < b <= |s|
    requires forall k :: a <= k < b ==> lo <= s[k] <= hi
    ensures lo <= Mean(s, a, b) <= hi
  {
    SumBounds(s, a, b, lo, hi);
    var n := (b - a) as real;
    var m := Sum(s, a, b) / n;
    assert Sum(s, a, b) == m * n;
    if m < lo {
      assert m * n < lo * n;
    }
    if m > hi {
      assert m * n > hi * n;
    }
  }

  /** Downsampling does not amplify: every sample averaged from a non-empty
      window stays within the bounds of the input. */
  lemma ResampleBounded(s: seq<real>, inRate: int, outRate: int, lo: real, hi: real, i: int)
    requires 0 < outRate < inRate
    requires forall k :: 0 <= k < |s| ==> lo <= s[k] <= hi
    requires 0 <= i < OutLength(|s|, inRate, outRate)
    requires WindowStart(i, inRate, outRate) < WindowEnd(i, |s|, inRate, outRate)
    ensures lo <= Resample(s, inRate, outRate)[i] <= hi
  {
    ResampleAt(s, inRate, outRate, i);
    MeanBounds(s, WindowStart(i, inRate, outRate), WindowEnd(i, |s|, inRate, outRate), lo, hi);
  }

  /** The inner loop of decreaseSampleRate: the mean of the buffer from lo
      up to hi, clipped to the buffer's end. */
  method AverageWindow(buffer: array<real>, lo: int, hi: int) returns (mean: real)
    requires 0 <= lo
    ensures mean == Mean(buffer[..], lo, if hi < buffer.Length then hi else buffer.Length)
  {
    ghost var end := if hi < buffer.Length then hi else buffer.Length;
    var accum := 0.0;
    var count := 0;
    var i := lo;
    while i < hi && i < buffer.Length
      invariant lo <= i
      invariant lo < end ==> i <= end
      invariant lo >= end ==> i == lo
      invariant count == i - lo
      invariant accum == Sum(buffer[..], lo, i)
    {
      accum := accum + buffer[i];
      count := count + 1;
      i := i + 1;
    }
    // An empty window is 0 / 0 in the source; see Mean.
    mean := if count == 0 then 0.0 else accum / count as real;
  }

  /** decreaseSampleRate: returns the very buffer it was given when it would
      have to upsample, else a fresh array filled window by window. */
  method DecreaseSampleRate(buffer: array<real>, inputSampleRate: int, outputSampleRate: int)
    returns (result: array<real>)
    requires 0 < outputSampleRate
    ensures inputSampleRate <= outputSampleRate ==> result == buffer
    ensures inputSampleRate > outputSampleRate ==> fresh(result)
    ensures result[..] == Resample(buffer[..], inputSampleRate, outputSampleRate)
  {
    if inputSampleRate <= outputSampleRate {
      return buffer;
    }
    ghost var s := buffer[..];
    var sampleRateRatio := inputSampleRate as real / outputSampleRate as real;
    OutLengthIsCeiling(buffer.Length, inputSampleRate, outputSampleRate);
    var newLength := Ceil(buffer.Length as real / sampleRateRatio);
    result := new real[newLength];
    var offsetResult := 0;
    var offsetBuffer := 0;
    BoundaryZero(inputSampleRate, outputSampleRate);
    while offsetResult < result.Length
      invariant 0 <= offsetResult <= result.Length
      invariant offsetBuffer == WindowStart(offsetResult, inputSampleRate, outputSampleRate) >= 0
      invariant forall k :: 0 <= k < offsetResult ==>
                  result[k] == WindowMean(s, inputSampleRate, outputSampleRate, k)
    {
      var nextOffsetBuffer := RoundHalfUp((offsetResult + 1) as real * sampleRateRatio);
      assert nextOffsetBuffer == Boundary(offsetResult + 1, inputSampleRate, outputSampleRate);
      result[offsetResult] := AverageWindow(buffer, offsetBuffer, nextOffsetBuffer);
      BoundaryMonotone(offsetResult, offsetResult + 1, inputSampleRate, outputSampleRate);
      offsetResult := offsetResult + 1;
      offsetBuffer := nextOffsetBuffer;
    }
    assert result[..] == Resample(s, inputSampleRate, outputSampleRate);
  }

  // ---------------------------------------------------------------------
  // Encoding: convertFloat32ToInt16
  // ---------------------------------------------------------------------

  /** Math.max(-1, Math.min(1, x)). */
  function Clamp(x: real): (c: real)
    ensures -1.0 <= c <= 1.0
    ensures -1.0 <= x <= 1.0 ==> c == x
    ensures x >= 1.0 ==> c == 1.0
    ensures x <= -1.0 ==> c == -1.0
  {
    if x < -1.0 then -1.0 else if x > 1.0 then 1.0 else x
  }

  /** One encoded sample: the clamped input scaled by 0x7fff and rounded.
      It always fits in 16 bits, symmetric range, and saturates at full
      scale. */
  function EncodeSample(x: real): (v: int)
    ensures -MaxInt <= v <= MaxInt
    ensures x >= 1.0 ==> v == MaxInt
    ensures x <= -1.0 ==> v == -MaxInt
  {
    RoundHalfUp(Clamp(x) * MaxInt as real)
  }

  /** The encoder is the rounding of the scaled clamped sample: the nearest
      integer, a tie going up. So it never moves a sample by more than half
      a step of the 16-bit scale. */
  lemma EncodeSampleNearest(x: real)
    ensures EncodeSample(x) as real - 0.5 <= Clamp(x) * MaxInt as real
    ensures Clamp(x) * MaxInt as real < EncodeSample(x) as real + 0.5
  {
  }

  /** Ties round toward +infinity, so the encoder is not odd-symmetric:
      +1/65534 scales to +0.5 and encodes as 1, -1/65534 encodes as 0. */
  lemma EncodeTiesRoundUp()
    ensures EncodeSample(1.0 / 65534.0) == 1
    ensures EncodeSample(-1.0 / 65534.0) == 0
  {
    assert Clamp(1.0 / 65534.0) * MaxInt as real == 0.5;
    assert Clamp(-1.0 / 65534.0) * MaxInt as real == -0.5;
  }

  /** The encoder is monotone: a louder input never encodes lower. */
  lemma EncodeSampleMonotone(x: real, y: real)
    requires x <= y
    ensures EncodeSample(x) <= EncodeSample(y)
  {
    assert Clamp(x) * MaxInt as real <= Clamp(y) * MaxInt as real;
  }

  /** The encoded buffer, sample by sample. */
  function Encode(s: seq<real>): seq<int16>
  {
    seq(|s|, k requires 0 <= k < |s| => EncodeSample(s[k]) as int16)
  }

  /** convertFloat32ToInt16: same length, and each output depends only on
      the input at the same index; filled from the last index down. */
  method ConvertFloat32ToInt16(buffer: array<real>) returns (buf: array<int16>)
    ensures fresh(buf)
    ensures buf.Length == buffer.Length
    ensures forall k :: 0 <= k < buf.Length ==>
              buf[k] as int == RoundHalfUp(Clamp(buffer[k]) * MaxInt as real)
    ensures buf[..] == Encode(buffer[..])
  {
    var l := buffer.Length;
    buf := new int16[l];
    while l > 0
      invariant 0 <= l <= buffer.Length
      invariant forall k :: l <= k < buf.Length ==> buf[k] == EncodeSample(buffer[k]) as int16
    {
      l := l - 1;
      var sample := Clamp(buffer[l]);
      buf[l] := RoundHalfUp(sample * MaxInt as real) as int16;
    }
  }
}
