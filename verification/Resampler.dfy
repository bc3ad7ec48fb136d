/** Getting between two sample rates by linear interpolation, in exact arithmetic. */
module Resampler {
  import opened Arith
  import opened Common

  // ------------------------------------------------------------------ what the output should be

  /** The input as a signal with samples at whole times: sample `k` at time `k + 1`, silence at time zero. */
  function Sample(input: seq<real>, time: int): real {
    if 1 <= time <= |input| then input[time - 1] else 0.0
  }

  function Between(previous: real, sample: real, t: real): real { previous + (sample - previous) * t }

  /** The broken line through the samples. */
  function Line(input: seq<real>, x: real): real {
    var k := x.Floor;
    Between(Sample(input, k), Sample(input, k + 1), x - k as real)
  }

  /** How many output samples `n` input samples make: `n * to / from`, rounded up. */
  function Count(n: nat, from: nat, to: nat): nat
    requires from > 0
  {
    (n * to + from - 1) / from
  }

  /** `k` steps. */
  function Times(k: nat, step: real): real { if k == 0 then 0.0 else Times(k - 1, step) + step }

  /** Output sample `j` is the line's value at `j` steps. */
  function Point(input: seq<real>, step: real, j: nat): real { Line(input, Times(j, step)) }

  function Points(input: seq<real>, step: real, k: nat): (r: seq<real>)
    ensures |r| == k && forall j :: 0 <= j < k ==> r[j] == Point(input, step, j)
  {
    if k == 0 then [] else Points(input, step, k - 1) + [Point(input, step, k - 1)]
  }

  function Step(from: nat, to: nat): real
    requires to > 0
  {
    from as real / to as real
  }

  function Converted(input: seq<real>, from: nat, to: nat): seq<real>
    requires from > 0 && to > 0
  {
    if from == to then input else Points(input, Step(from, to), Count(|input|, from, to))
  }

  // ------------------------------------------------------------------ counting

  lemma {:induction false} TimesIsProduct(k: nat, step: real)
    ensures Times(k, step) == k as real * step
  {
    if k > 0 {
      TimesIsProduct(k - 1, step);
      assert k as real * step == (k - 1) as real * step + step;
    }
  }

  lemma {:induction false} MoreSteps(a: nat, b: nat, step: real)
    requires a < b && step > 0.0
    ensures Times(a, step) + step <= Times(b, step)
  {
    if a < b - 1 { MoreSteps(a, b - 1, step); }
  }

  lemma FewerSteps(a: nat, b: nat, step: real)
    requires step > 0.0 && Times(a, step) < Times(b, step)
    ensures a < b
  {
    if b < a { MoreSteps(b, a, step); }
  }

  lemma StepTimes(from: nat, to: nat, c: nat)
    requires from > 0 && to > 0
    ensures Times(c, Step(from, to)) * to as real == (c * from) as real
    ensures Step(from, to) > 0.0
  {
    var s, t := Step(from, to), to as real;
    TimesIsProduct(c, s);
    assert s * t == from as real;
    assert c as real * s * t == c as real * (s * t);
  }

  lemma Cancel(a: real, b: real, t: real)
    requires t > 0.0
    ensures a <= b <==> a * t <= b * t
  {
    if a <= b { assert (b - a) * t >= 0.0; }
    if b < a { assert (a - b) * t > 0.0; }
  }

  /** The count is the first number of steps that is not before time `n`. */
  lemma CountInSteps(n: nat, from: nat, to: nat)
    requires from > 0 && to > 0
    ensures Step(from, to) > 0.0
    ensures n as real <= Times(Count(n, from, to), Step(from, to)) < n as real + Step(from, to)
  {
    var c, s, t := Count(n, from, to), Step(from, to), to as real;
    assert n as real * t == (n * to) as real;
    assert n * to <= c * from < n * to + from;
    StepTimes(from, to, c);
    StepTimes(from, to, 1);
    Cancel(n as real, Times(c, s), t);
    Cancel(n as real + s, Times(c, s), t);
    assert (n as real + s) * t == n as real * t + s * t;
  }

  lemma CountGrows(n: nat, from: nat, to: nat)
    requires from > 0 && to > 0
    ensures Count(n, from, to) <= Count(n + 1, from, to)
  {
    CountInSteps(n, from, to);
    CountInSteps(n + 1, from, to);
    if Count(n + 1, from, to) < Count(n, from, to) {
      MoreSteps(Count(n + 1, from, to), Count(n, from, to), Step(from, to));
    }
  }

  lemma CountFrom0(from: nat, to: nat)
    requires from > 0 && to > 0
    ensures Count(0, from, to) == 0
  {
    DivModUnique(from - 1, from, 0, from - 1);
  }

  // ------------------------------------------------------------------ the line

  /** What comes out, in the ratio of the rates: `n * to / from` samples rounded up, sample `j` being the line's value
      at time `j * from / to`. */
  lemma ClosedForm(input: seq<real>, from: nat, to: nat)
    requires from > 0 && to > 0 && from != to
    ensures var out := Converted(input, from, to);
      && from * (|out| - 1) < |input| * to <= from * |out|
      && forall j :: 0 <= j < |out| ==> out[j] == Line(input, (j * from) as real / to as real)
  {
    CountIsCeiling(|input|, from, to);
    forall j: nat | j < Count(|input|, from, to)
      ensures Point(input, Step(from, to), j) == Line(input, (j * from) as real / to as real)
    {
      PointIs(input, from, to, j);
    }
  }

  lemma CountIsCeiling(n: nat, from: nat, to: nat)
    requires from > 0
    ensures from * (Count(n, from, to) - 1) < n * to <= from * Count(n, from, to)
  {
  }

  lemma PointIs(input: seq<real>, from: nat, to: nat, j: nat)
    requires from > 0 && to > 0
    ensures Point(input, Step(from, to), j) == Line(input, (j * from) as real / to as real)
  {
    StepTimes(from, to, j);
    Quotient(Times(j, Step(from, to)), to as real, (j * from) as real);
  }

  lemma Quotient(q: real, b: real, a: real)
    requires b > 0.0 && q * b == a
    ensures q == a / b
  {
  }

  lemma ConvertedLength(input: seq<real>, from: nat, to: nat)
    requires from > 0 && to > 0
    ensures |Converted(input, from, to)| == Count(|input|, from, to)
  {
    if from == to { DivModUnique(|input| * to + from - 1, from, |input|, from - 1); }
  }

  /** What the input is at a whole time. */
  function Given(input: seq<real>, k: nat): real
    requires k <= |input|
  {
    if k == 0 then 0.0 else input[k - 1]
  }

  /** At whole times the line is the input. */
  lemma LineAtWholeTimes(input: seq<real>, k: nat)
    requires k <= |input|
    ensures Line(input, k as real) == Given(input, k)
  {
  }

  /** Between two whole times it runs straight from the one value to the other. */
  lemma LineIsStraight(input: seq<real>, k: nat, t: real)
    requires k < |input| && 0.0 <= t <= 1.0
    ensures Line(input, k as real + t) == (1.0 - t) * Given(input, k) + t * Given(input, k + 1)
  {
    if t < 1.0 {
      assert (k as real + t).Floor == k;
    } else {
      assert k as real + t == (k + 1) as real && (1.0 - t) * Given(input, k) == 0.0;
      LineAtWholeTimes(input, k + 1);
    }
  }

  /** Every output sample lies straight between the two input samples around its time, in proportion to how far it is
      from each; one at a whole time is the input sample there. */
  lemma Interpolated(input: seq<real>, from: nat, to: nat, j: nat, k: nat, d: nat)
    requires from > 0 && to > 0 && from != to && j < |Converted(input, from, to)|
    requires j * from == k * to + d && d < to
    ensures k < |input|
    ensures to as real * Converted(input, from, to)[j]
         == (to - d) as real * Given(input, k) + d as real * Given(input, k + 1)
    ensures d == 0 ==> Converted(input, from, to)[j] == Given(input, k)
  {
    PointsBefore(|input|, from, to, j, k);
    PointIs(input, from, to, j);
    OnTheLine(input, Converted(input, from, to)[j], j * from, to, k, d);
  }

  lemma OnTheLine(input: seq<real>, y: real, time: nat, to: nat, k: nat, d: nat)
    requires to > 0 && k < |input| && y == Line(input, time as real / to as real) && time == k * to + d && d < to
    ensures to as real * y == (to - d) as real * Given(input, k) + d as real * Given(input, k + 1)
    ensures d == 0 ==> y == Given(input, k)
  {
    var t := Fraction(time, k, to, d);
    LineIsStraight(input, k, t);
    InProportion(y, Given(input, k), Given(input, k + 1), t, to, d);
    if d == 0 { LineAtWholeTimes(input, k); }
  }

  lemma Fraction(time: nat, k: nat, to: nat, d: nat) returns (t: real)
    requires to > 0 && time == k * to + d && d < to
    ensures 0.0 <= t < 1.0 && t * to as real == d as real && (d == 0 ==> t == 0.0)
    ensures time as real / to as real == k as real + t
  {
    t := d as real / to as real;
    RealTimes(k, to);
    Quotient(k as real + t, to as real, time as real);
  }

  lemma RealTimes(a: nat, b: nat)
    ensures a as real * b as real == (a * b) as real
  {
  }

  lemma Widen(a: nat, b: nat, c: nat)
    requires a <= b
    ensures a * c <= b * c
  {
  }

  /** Points are taken only before the input's end. */
  lemma PointsBefore(n: nat, from: nat, to: nat, j: nat, k: nat)
    requires from > 0 && to > 0 && j < Count(n, from, to) && k * to <= j * from
    ensures k < n
  {
    CountIsCeiling(n, from, to);
    Widen(j, Count(n, from, to) - 1, from);
    if k >= n { Widen(n, k, to); }
  }

  lemma InProportion(y: real, a: real, b: real, t: real, to: nat, d: nat)
    requires y == (1.0 - t) * a + t * b && t * to as real == d as real && d <= to
    ensures to as real * y == (to - d) as real * a + d as real * b
  {
    assert to as real * y == (to as real * (1.0 - t)) * a + (t * to as real) * b;
  }

  /** Points already passed do not change when more input comes. */
  lemma LineIsSettled(input: seq<real>, more: seq<real>, x: real)
    requires 0.0 <= x < |input| as real
    ensures Line(input + more, x) == Line(input, x)
  {
  }

  lemma {:induction false} PointsAreSettled(input: seq<real>, more: seq<real>, step: real, k: nat)
    requires step > 0.0 && Times(k, step) < |input| as real + step
    ensures Points(input, step, k) == Points(input + more, step, k)
  {
    if k > 0 {
      PointsAreSettled(input, more, step, k - 1);
      TimesArePositive(k - 1, step);
      LineIsSettled(input, more, Times(k - 1, step));
    }
  }

  lemma TimesArePositive(k: nat, step: real)
    requires step > 0.0
    ensures Times(k, step) >= 0.0
  {
    if k > 0 { MoreSteps(0, k, step); }
  }

  lemma ConvertedExtends(input: seq<real>, more: seq<real>, from: nat, to: nat)
    requires from > 0 && to > 0
    ensures from != to ==>
      Converted(input, from, to) == Points(input + more, Step(from, to), Count(|input|, from, to))
  {
    CountInSteps(|input|, from, to);
    StepTimes(from, to, 1);
    PointsAreSettled(input, more, Step(from, to), Count(|input|, from, to));
  }

  /** What more input adds to the output. */
  lemma NewSamples(input: seq<real>, more: seq<real>, from: nat, to: nat) returns (out: seq<real>)
    requires from > 0 && to > 0
    ensures Converted(input, from, to) + out == Converted(input + more, from, to)
  {
    if from == to {
      out := more;
    } else {
      var c, d := Count(|input|, from, to), Count(|input + more|, from, to);
      ConvertedExtends(input, more, from, to);
      CountIsMonotone(|input|, |input + more|, from, to);
      PointsPrefix(input + more, Step(from, to), c, d);
      out := Points(input + more, Step(from, to), d)[c..];
    }
  }

  lemma {:induction false} CountIsMonotone(n: nat, m: nat, from: nat, to: nat)
    requires from > 0 && to > 0 && n <= m
    ensures Count(n, from, to) <= Count(m, from, to)
    decreases m
  {
    if n < m {
      CountIsMonotone(n, m - 1, from, to);
      CountGrows(m - 1, from, to);
    }
  }

  lemma PointsPrefix(input: seq<real>, step: real, c: nat, d: nat)
    requires c <= d
    ensures Points(input, step, d) == Points(input, step, c) + Points(input, step, d)[c..]
  {
  }

  /** The point the loop emits is on the line. */
  lemma Emitted(input: seq<real>, n: nat, step: real, c: nat, t: real)
    requires n < |input| && t == Times(c, step) - n as real && 0.0 <= t < 1.0
    ensures Between(Sample(input, n), input[n], t) == Point(input, step, c)
  {
    assert Times(c, step).Floor == n;
    assert Sample(input, n + 1) == input[n];
  }

  /** A buffer, and the points from `d` to `k` after it. */
  ghost function After(base: seq<real>, input: seq<real>, step: real, d: nat, k: nat): seq<real>
    requires d <= k
  {
    base + Points(input, step, k)[d..]
  }

  lemma OneMore(base: seq<real>, input: seq<real>, step: real, d: nat, k: nat)
    requires d <= k
    ensures After(base, input, step, d, k + 1) == After(base, input, step, d, k) + [Point(input, step, k)]
  {
    var sofar := Points(input, step, k);
    assert (sofar + [Point(input, step, k)])[d..] == sofar[d..] + [Point(input, step, k)];
  }

  // ------------------------------------------------------------------ the resampler

  class Resampler {
    const from: nat
    const to: nat
    const step: real
    const passthrough: bool
    var position: real
    var previous: real
    /** Everything it was ever given. */
    ghost var fed: seq<real>

    ghost predicate Valid()
      reads this
    {
      && from > 0 && to > 0 && step == Step(from, to) && passthrough == (from == to)
      && (!passthrough ==>
            && position == Times(Count(|fed|, from, to), step) - |fed| as real
            && previous == Sample(fed, |fed|))
    }

    constructor (from: Word, to: Word)
      ensures Valid() && fed == []
      ensures this.from == Max(from, 1) && this.to == Max(to, 1)
    {
      var f, t := Max(from, 1), Max(to, 1);
      this.from, this.to := f, t;
      step, passthrough := Step(f, t), f == t;
      position, previous, fed := 0.0, 0.0, [];
      CountFrom0(f, t);
    }

    /** Appends to `into` exactly what turns the conversion of all the input before into the conversion of all the
        input so far. */
    method Process(input: seq<real>, into: seq<real>) returns (out: seq<real>)
      requires Valid()
      modifies this
      ensures Valid() && fed == old(fed) + input
      ensures into <= out && Converted(old(fed), from, to) + out[|into|..] == Converted(fed, from, to)
    {
      if passthrough {
        fed := fed + input;
        return into + input;
      }
      ghost var before, all := fed, fed + input;
      ghost var d := Count(|fed|, from, to);
      ConvertedExtends(fed, input, from, to);
      out := into;
      for i := 0 to |input|
        invariant Valid() && fed == before + input[..i]
        invariant d <= Count(|fed|, from, to) && out == After(into, all, step, d, Count(|fed|, from, to))
      {
        out := EmitUpTo(input[i], out, into, d, all);
        TakeMore(before, input, i);
      }
      assert fed == all;
      PointsPrefix(all, step, d, Count(|all|, from, to));
    }

    /** One more input sample: every output point between the one before it and this one. */
    method EmitUpTo(sample: real, sofar: seq<real>, ghost base: seq<real>, ghost d: nat, ghost all: seq<real>)
      returns (out: seq<real>)
      requires Valid() && !passthrough
      requires |fed| < |all| && all[..|fed|] == fed && all[|fed|] == sample
      requires d <= Count(|fed|, from, to) && sofar == After(base, all, step, d, Count(|fed|, from, to))
      modifies this
      ensures Valid() && fed == old(fed) + [sample]
      ensures d <= Count(|fed|, from, to) && out == After(base, all, step, d, Count(|fed|, from, to))
    {
      ghost var n := |fed|;
      CountInSteps(n, from, to);
      CountInSteps(n + 1, from, to);
      CountGrows(n, from, to);
      StepTimes(from, to, 1);
      assert Sample(all, n) == Sample(fed, n);
      out, position := EmitPoints(sample, previous, position, step, sofar, base, all, n, d, Count(n, from, to),
                                  Count(n + 1, from, to));
      position := position - 1.0;
      previous := sample;
      fed := fed + [sample];
    }
  }

  /** The inner loop: from point `c` to the last before time `n + 1`. */
  method EmitPoints(sample: real, previous: real, start: real, step: real, sofar: seq<real>,
                    ghost base: seq<real>, ghost all: seq<real>,
                    ghost n: nat, ghost d: nat, ghost first: nat, ghost target: nat)
    returns (out: seq<real>, position: real)
    requires step > 0.0 && d <= first <= target && start == Times(first, step) - n as real && start >= 0.0
    requires (n + 1) as real <= Times(target, step) < (n + 1) as real + step
    requires n < |all| && all[n] == sample && previous == Sample(all, n)
    requires sofar == After(base, all, step, d, first)
    ensures out == After(base, all, step, d, target) && position == Times(target, step) - n as real
  {
    ghost var c := first;
    out, position := sofar, start;
    while position < 1.0
      invariant d <= c <= target && position == Times(c, step) - n as real && position >= 0.0
      invariant out == After(base, all, step, d, c)
      decreases target - c
    {
      FewerSteps(c, target, step);
      Emitted(all, n, step, c, position);
      OneMore(base, all, step, d, c);
      out := out + [Between(previous, sample, position)];
      position := position + step;
      c := c + 1;
    }
    if c < target { MoreSteps(c, target, step); }
  }

  // ------------------------------------------------------------------ chunks

  /** Outputs of successive calls: each turns the conversion of the input before it into the conversion of the input
      with it. */
  ghost predicate Calls(chunks: seq<seq<real>>, outs: seq<seq<real>>, from: nat, to: nat)
    requires from > 0 && to > 0 && |chunks| == |outs|
  {
    forall i :: 0 <= i < |chunks| ==> Call(chunks, outs, from, to, i)
  }

  ghost predicate Call(chunks: seq<seq<real>>, outs: seq<seq<real>>, from: nat, to: nat, i: nat)
    requires from > 0 && to > 0 && i < |chunks| == |outs|
  {
    Converted(Flat(chunks[..i]), from, to) + outs[i] == Converted(Flat(chunks[..i + 1]), from, to)
  }

  /** However the device cuts its input into buffers, the output is the conversion of the whole: no click at a buffer's
      edge, and as many samples as the ratio says. */
  lemma {:induction false} AnyChunking(chunks: seq<seq<real>>, outs: seq<seq<real>>, from: nat, to: nat)
    requires from > 0 && to > 0 && |chunks| == |outs| && Calls(chunks, outs, from, to)
    ensures Flat(outs) == Converted(Flat(chunks), from, to)
    ensures from != to ==> |Flat(outs)| == Count(|Flat(chunks)|, from, to)
    decreases |chunks|
  {
    if chunks == [] {
      CountFrom0(from, to);
    } else {
      var n := |chunks| - 1;
      forall i | 0 <= i < n
        ensures Call(chunks[..n], outs[..n], from, to, i)
      {
        assert Call(chunks, outs, from, to, i);
        assert chunks[..n][..i] == chunks[..i] && chunks[..n][..i + 1] == chunks[..i + 1];
      }
      AnyChunking(chunks[..n], outs[..n], from, to);
      assert Call(chunks, outs, from, to, n);
      assert chunks[..n + 1] == chunks && outs[..n] + [outs[n]] == outs;
      FlatSnoc(outs[..n], outs[n]);
    }
  }
}
