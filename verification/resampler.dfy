/** The microphone worklet: each audio block is appended to a carry-over
    buffer, the buffer is resampled from the device rate to 24 kHz by linear
    interpolation, converted to 16-bit PCM and posted, and the samples not
    yet consumed are kept for the next block. Samples are real numbers here,
    not IEEE floats. */
module Resampler {
  import opened Wrappers
  import opened JsMath

  const TargetRate: real := 24000.0
  const Int16Min: int := -32768
  const Int16Max: int := 32767

  /** Input samples per output sample. */
  function Ratio(sampleRate: real): (r: real)
    requires sampleRate > 0.0
    ensures r > 0.0
  {
    sampleRate / TargetRate
  }

  /** `Math.floor(n / ratio)`: how many output samples `n` input samples
      give. */
  function OutputLen(n: nat, ratio: real): (k: nat)
    requires ratio > 0.0
    ensures k as real * ratio <= n as real
    ensures n as real < (k as real + 1.0) * ratio
  {
    FloorBelow(n as real, ratio);
    FloorAbove(n as real, ratio);
    (n as real / ratio).Floor
  }

  /** `floor(x / c)` is not negative, and times `c` it is at most `x`. */
  lemma FloorBelow(x: real, c: real)
    requires x >= 0.0 && c > 0.0
    ensures (x / c).Floor >= 0
    ensures (x / c).Floor as real * c <= x
  {
    var q := x / c;
    assert q * c == x;
    MulLeft(q.Floor as real, q, c);
  }

  /** One more than `floor(x / c)`, times `c`, is more than `x`. */
  lemma FloorAbove(x: real, c: real)
    requires x >= 0.0 && c > 0.0
    ensures x < ((x / c).Floor as real + 1.0) * c
  {
    var q := x / c;
    assert q * c == x;
    MulLeftStrict(q, q.Floor as real + 1.0, c);
  }

  lemma MulLeft(a: real, b: real, c: real)
    requires a <= b && c > 0.0
    ensures a * c <= b * c
  {
  }

  lemma MulLeftStrict(a: real, b: real, c: real)
    requires a < b && c > 0.0
    ensures a * c < b * c
  {
  }

  /** `Math.floor(i * ratio)`: the buffer index output sample `i` starts
      from. */
  function Lo(i: nat, ratio: real): int
    requires ratio > 0.0
  {
    (i as real * ratio).Floor
  }

  /** `Math.min(lo + 1, n - 1)`: the index interpolated towards. */
  function Hi(lo: int, n: nat): int {
    if lo + 1 < n - 1 then lo + 1 else n - 1
  }

  predicate IndicesInRange(n: nat, ratio: real, i: nat)
    requires ratio > 0.0
  {
    0 <= Lo(i, ratio) <= Hi(Lo(i, ratio), n) < n
  }

  /** For every output sample, both interpolation indices lie in the
      buffer, `lo` never passes `hi`, and the fraction is in [0, 1). */
  lemma IndicesValid(n: nat, ratio: real, i: nat)
    requires ratio > 0.0 && i < OutputLen(n, ratio)
    ensures IndicesInRange(n, ratio, i)
    ensures 0.0 <= i as real * ratio - Lo(i, ratio) as real < 1.0
  {
    var k := OutputLen(n, ratio);
    MulLeftStrict(i as real, k as real, ratio);
    assert i as real * ratio < n as real;
    assert i as real * ratio >= 0.0;
  }

  /** `Math.max(-32768, Math.min(32767, x))` */
  function Clamp16(x: int): (r: int)
    ensures Int16Min <= r <= Int16Max
    ensures Int16Min <= x <= Int16Max ==> r == x
    ensures x > Int16Max ==> r == Int16Max
    ensures x < Int16Min ==> r == Int16Min
  {
    if x > Int16Max then Int16Max else if x < Int16Min then Int16Min else x
  }

  /** Linear interpolation from `a` towards `b`. */
  function Lerp(a: real, b: real, frac: real): real {
    a * (1.0 - frac) + b * frac
  }

  /** An interpolated value lies between its two end points. */
  lemma LerpBetween(a: real, b: real, frac: real, lo: real, hi: real)
    requires 0.0 <= frac <= 1.0
    requires lo <= a <= hi && lo <= b <= hi
    ensures lo <= Lerp(a, b, frac) <= hi
  {
    LerpAbove(a, b, frac, lo);
    LerpBelow(a, b, frac, hi);
  }

  lemma LerpAbove(a: real, b: real, frac: real, lo: real)
    requires 0.0 <= frac <= 1.0 && lo <= a && lo <= b
    ensures lo <= Lerp(a, b, frac)
  {
    var p := 1.0 - frac;
    MulMono(lo, a, p);
    MulMono(lo, b, frac);
    Distribute(lo, p, frac);
    AddLe(-(a * p), -(lo * p), -(b * frac), -(lo * frac), -lo);
  }

  lemma LerpBelow(a: real, b: real, frac: real, hi: real)
    requires 0.0 <= frac <= 1.0 && a <= hi && b <= hi
    ensures Lerp(a, b, frac) <= hi
  {
    var p := 1.0 - frac;
    MulMono(a, hi, p);
    MulMono(b, hi, frac);
    Distribute(hi, p, frac);
    AddLe(a * p, hi * p, b * frac, hi * frac, hi);
  }

  lemma MulMono(x: real, y: real, w: real)
    requires 0.0 <= w && x <= y
    ensures x * w <= y * w
  {
  }

  lemma AddLe(x1: real, y1: real, x2: real, y2: real, s: real)
    requires x1 <= y1 && x2 <= y2 && y1 + y2 == s
    ensures x1 + x2 <= s
  {
  }

  lemma Distribute(x: real, p: real, q: real)
    requires p + q == 1.0
    ensures x * p + x * q == x
  {
    assert x * p + x * q == x * (p + q);
  }

  /** Output sample `i` of buffer `buf`. */
  function OutputSample(buf: seq<real>, ratio: real, i: nat): (r: int)
    requires ratio > 0.0 && i < OutputLen(|buf|, ratio)
    ensures Int16Min <= r <= Int16Max
  {
    IndicesValid(|buf|, ratio, i);
    var lo := Lo(i, ratio);
    var hi := Hi(lo, |buf|);
    var frac := i as real * ratio - lo as real;
    Clamp16(JsRound(Lerp(buf[lo], buf[hi], frac) * 32767.0))
  }

  lemma SampleAt(buf: seq<real>, ratio: real, i: nat)
    requires ratio > 0.0 && i < OutputLen(|buf|, ratio)
    ensures IndicesInRange(|buf|, ratio, i)
    ensures var lo := Lo(i, ratio);
            OutputSample(buf, ratio, i)
            == Clamp16(JsRound(Lerp(buf[lo], buf[Hi(lo, |buf|)], i as real * ratio - lo as real) * 32767.0))
  {
    IndicesValid(|buf|, ratio, i);
  }

  /** The 16-bit samples a buffer resamples to. */
  function Resample(buf: seq<real>, ratio: real): (r: seq<int>)
    requires ratio > 0.0
    ensures |r| == OutputLen(|buf|, ratio)
    ensures forall i :: 0 <= i < |r| ==> Int16Min <= r[i] <= Int16Max
  {
    seq(OutputLen(|buf|, ratio), i requires 0 <= i < OutputLen(|buf|, ratio) => OutputSample(buf, ratio, i))
  }

  /** The conversion loop, filling the output one sample at a time. */
  method ResampleLoop(buf: seq<real>, ratio: real) returns (pcm: seq<int>)
    requires ratio > 0.0
    ensures pcm == Resample(buf, ratio)
  {
    var n := OutputLen(|buf|, ratio);
    pcm := [];
    var i := 0;
    while i < n
      invariant 0 <= i <= n
      invariant pcm == Resample(buf, ratio)[..i]
    {
      IndicesValid(|buf|, ratio, i);
      var lo := (i as real * ratio).Floor;
      var hi := if lo + 1 < |buf| - 1 then lo + 1 else |buf| - 1;
      var frac := i as real * ratio - lo as real;
      var sample := buf[lo] * (1.0 - frac) + buf[hi] * frac;
      assert lo == Lo(i, ratio) && hi == Hi(lo, |buf|);
      assert sample == Lerp(buf[lo], buf[hi], frac);
      SampleAt(buf, ratio, i);
      assert Resample(buf, ratio)[i] == OutputSample(buf, ratio, i);
      assert Clamp16(JsRound(sample * 32767.0)) == Resample(buf, ratio)[i];
      assert Resample(buf, ratio)[..i + 1] == Resample(buf, ratio)[..i] + [Resample(buf, ratio)[i]];
      pcm := pcm + [Clamp16(JsRound(sample * 32767.0))];
      i := i + 1;
    }
  }

  /** When every input sample is in [-1, 1], as audio samples are, no
      output sample is clipped: each is the rounded, scaled interpolation. */
  lemma NoClipping(buf: seq<real>, ratio: real, i: nat)
    requires ratio > 0.0 && i < OutputLen(|buf|, ratio)
    requires forall j :: 0 <= j < |buf| ==> -1.0 <= buf[j] <= 1.0
    ensures var lo := Lo(i, ratio);
            var frac := i as real * ratio - lo as real;
            OutputSample(buf, ratio, i) == JsRound(Lerp(buf[lo], buf[Hi(lo, |buf|)], frac) * 32767.0)
  {
    IndicesValid(|buf|, ratio, i);
    var lo := Lo(i, ratio);
    var frac := i as real * ratio - lo as real;
    var v := Lerp(buf[lo], buf[Hi(lo, |buf|)], frac);
    LerpBetween(buf[lo], buf[Hi(lo, |buf|)], frac, -1.0, 1.0);
    MulMono(-1.0, v, 32767.0);
    MulMono(v, 1.0, 32767.0);
  }

  /** `Math.floor(outputLen * ratio)`: input samples used up. */
  function Consumed(k: nat, ratio: real): int
    requires ratio > 0.0
  {
    (k as real * ratio).Floor
  }

  /** What one call of `process` leaves behind: the carry-over buffer, the
      posted PCM block if any, and the keep-alive result. */
  datatype Step = Step(buffer: seq<real>, posted: Option<seq<int>>, keepAlive: bool)

  /** `process(inputs)`. `inputs[0][0]` is the mono channel of the first
      input; a missing or empty input or channel changes nothing. */
  function Process(buffer: seq<real>, inputs: seq<seq<seq<real>>>, sampleRate: real): (r: Step)
    requires sampleRate > 0.0
    ensures r.keepAlive
    ensures r.posted.Some? ==> |r.posted.value| >= 1
  {
    if |inputs| == 0 || |inputs[0]| == 0 || |inputs[0][0]| == 0 then Step(buffer, None, true)
    else
      var buf := buffer + inputs[0][0];
      var ratio := Ratio(sampleRate);
      var k := OutputLen(|buf|, ratio);
      if k < 1 then Step(buf, None, true)
      else
        ConsumedBounds(|buf|, ratio);
        Step(buf[Consumed(k, ratio)..], Some(Resample(buf, ratio)), true)
  }

  /** The samples used up are all in the buffer, and fewer than `ratio + 1`
      are left over. */
  lemma ConsumedBounds(n: nat, ratio: real)
    requires ratio > 0.0
    ensures 0 <= Consumed(OutputLen(n, ratio), ratio) <= n
    ensures (n - Consumed(OutputLen(n, ratio), ratio)) as real < ratio + 1.0
  {
    var k := OutputLen(n, ratio);
    assert k as real * ratio >= 0.0;
    assert (k as real + 1.0) * ratio == k as real * ratio + ratio;
  }

  /** Sample accounting of one call: nothing is lost or invented. The new
      buffer is the old one with the block appended and a prefix dropped,
      that prefix being exactly what the posted samples were interpolated
      from; without output, everything is kept. */
  lemma ProcessAccounting(buffer: seq<real>, inputs: seq<seq<seq<real>>>, sampleRate: real)
    requires sampleRate > 0.0
    ensures var r := Process(buffer, inputs, sampleRate);
            if |inputs| == 0 || |inputs[0]| == 0 || |inputs[0][0]| == 0 then r == Step(buffer, None, true)
            else
              var buf := buffer + inputs[0][0];
              var ratio := Ratio(sampleRate);
              && (r.posted.None? <==> |buf| as real < ratio)
              && (r.posted.None? ==> r.buffer == buf)
              && (r.posted.Some? ==>
                    && r.posted.value == Resample(buf, ratio)
                    && r.buffer == buf[Consumed(|r.posted.value|, ratio)..])
  {
    if !(|inputs| == 0 || |inputs[0]| == 0 || |inputs[0][0]| == 0) {
      var buf := buffer + inputs[0][0];
      var ratio := Ratio(sampleRate);
      var k := OutputLen(|buf|, ratio);
      if k >= 1 {
        MulLeft(1.0, k as real, ratio);
      } else {
        assert |buf| as real < 1.0 * ratio;
      }
    }
  }

  /** The carry-over buffer stays short: after any call that received
      samples it holds fewer than `ratio + 1` of them, so it never grows
      from block to block. */
  lemma CarryOverBounded(buffer: seq<real>, inputs: seq<seq<seq<real>>>, sampleRate: real)
    requires sampleRate > 0.0
    requires |inputs| > 0 && |inputs[0]| > 0 && |inputs[0][0]| > 0
    ensures (|Process(buffer, inputs, sampleRate).buffer| as real) < Ratio(sampleRate) + 1.0
  {
    var buf := buffer + inputs[0][0];
    var ratio := Ratio(sampleRate);
    var k := OutputLen(|buf|, ratio);
    if k >= 1 {
      ConsumedBounds(|buf|, ratio);
    } else {
      assert |buf| as real < 1.0 * ratio;
    }
  }

  /** The cut of the input into blocks changes the output. The carried
      buffer restarts interpolation at its first sample, so the fractional
      position reached in one block is lost in the next. At 36 kHz (ratio
      1.5) the samples 0, 1, 0, 1 in one block give two output samples and
      keep one input sample back; the same samples as two blocks give three
      output samples, in a different order, and keep nothing. */
  lemma SplitChangesOutput()
    ensures var whole := Process([], [[[0.0, 1.0, 0.0, 1.0]]], 36000.0);
            whole.posted == Some([0, 16384]) && whole.buffer == [1.0]
    ensures var first := Process([], [[[0.0, 1.0]]], 36000.0);
            var second := Process(first.buffer, [[[0.0, 1.0]]], 36000.0);
            && first.posted == Some([0]) && first.buffer == [1.0]
            && second.posted == Some([32767, 16384]) && second.buffer == []
  {
    assert Ratio(36000.0) == 1.5;
    WholeBlock();
    FirstHalf();
    SecondHalf();
    assert [] + [0.0, 1.0, 0.0, 1.0] == [0.0, 1.0, 0.0, 1.0];
    assert [] + [0.0, 1.0] == [0.0, 1.0];
    assert [1.0] + [0.0, 1.0] == [1.0, 0.0, 1.0];
  }

  lemma WholeBlock()
    ensures OutputLen(4, 1.5) == 2 && Consumed(2, 1.5) == 3
    ensures Resample([0.0, 1.0, 0.0, 1.0], 1.5) == [0, 16384]
  {
    var buf := [0.0, 1.0, 0.0, 1.0];
    assert Lo(0, 1.5) == 0 && Lo(1, 1.5) == 1;
    assert Lerp(buf[0], buf[1], 0.0) == 0.0;
    assert Lerp(buf[1], buf[2], 0.5) == 0.5;
    JsRoundUnique(0.0 * 32767.0, 0);
    JsRoundUnique(0.5 * 32767.0, 16384);
    assert OutputSample(buf, 1.5, 0) == 0;
    assert OutputSample(buf, 1.5, 1) == 16384;
  }

  lemma FirstHalf()
    ensures OutputLen(2, 1.5) == 1 && Consumed(1, 1.5) == 1
    ensures Resample([0.0, 1.0], 1.5) == [0]
  {
    var buf := [0.0, 1.0];
    assert Lo(0, 1.5) == 0;
    assert Lerp(buf[0], buf[1], 0.0) == 0.0;
    JsRoundUnique(0.0 * 32767.0, 0);
    assert OutputSample(buf, 1.5, 0) == 0;
  }

  lemma SecondHalf()
    ensures OutputLen(3, 1.5) == 2 && Consumed(2, 1.5) == 3
    ensures Resample([1.0, 0.0, 1.0], 1.5) == [32767, 16384]
  {
    var buf := [1.0, 0.0, 1.0];
    assert Lo(0, 1.5) == 0 && Lo(1, 1.5) == 1;
    assert Hi(0, 3) == 1 && Hi(1, 3) == 2;
    assert Lerp(buf[0], buf[1], 0.0) == 1.0;
    assert Lerp(buf[1], buf[2], 0.5) == 0.5;
    JsRoundUnique(1.0 * 32767.0, 32767);
    JsRoundUnique(0.5 * 32767.0, 16384);
    assert OutputSample(buf, 1.5, 0) == 32767;
    assert OutputSample(buf, 1.5, 1) == 16384;
  }
}
