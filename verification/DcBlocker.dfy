/** The 5 Hz high-pass behind the model: a two-word recurrence carried across blocks. */
module DcBlocker {
  import opened RateAdapterSpec

  /** Previous input and previous output. */
  type Memory = (real, real)

  function Recurrence(c: real, memory: Memory, x: real): real { x - memory.0 + c * memory.1 }

  function Filter(c: real): Dsp<Memory> {
    (memory: Memory, x: real) => ((x, Recurrence(c, memory, x)), Recurrence(c, memory, x))
  }

  const AT_REST: Memory := (0.0, 0.0)

  predicate Within(x: real, bound: real) { -bound <= x <= bound }

  predicate AllWithin(xs: seq<real>, bound: real) { forall i :: 0 <= i < |xs| ==> Within(xs[i], bound) }

  /** Blocks through the filter, the memory carried from one to the next. */
  function FilterBlocks(c: real, memory: Memory, blocks: seq<seq<real>>): (Memory, seq<real>) {
    if blocks == [] then (memory, [])
    else
      var (before, out) := FilterBlocks(c, memory, blocks[..|blocks| - 1]);
      var (after, more) := DspRun(Filter(c), before, blocks[|blocks| - 1]);
      (after, out + more)
  }

  lemma RecurrenceIs(c: real, previousInput: real, previousOutput: real, x: real, y: real)
    requires y == x - previousInput + c * previousOutput
    ensures y == Recurrence(c, (previousInput, previousOutput), x)
  {
  }

  lemma FilterStep(c: real, memory: Memory, xs: seq<real>, x: real)
    ensures var (before, out) := DspRun(Filter(c), memory, xs);
            DspRun(Filter(c), memory, xs + [x]) == ((x, Recurrence(c, before, x)), out + [Recurrence(c, before, x)])
  {
    assert (xs + [x])[..|xs|] == xs;
  }

  /** The filter does not notice how the stream is cut. */
  lemma {:induction false} FilterIgnoresCut(c: real, memory: Memory, blocks: seq<seq<real>>)
    ensures FilterBlocks(c, memory, blocks) == DspRun(Filter(c), memory, Flatten(blocks))
  {
    if blocks == [] {
    } else {
      FilterIgnoresCut(c, memory, blocks[..|blocks| - 1]);
      DspAppend(Filter(c), memory, Flatten(blocks[..|blocks| - 1]), blocks[|blocks| - 1]);
    }
  }

  // ---- it never more than doubles the peak -----------------------------------------

  /** What the filter has subtracted from its last input. */
  function Removed(memory: Memory): real { memory.0 - memory.1 }

  lemma Shares(c: real, a: real, bound: real)
    requires 0.0 < c < 1.0 && Within(a, bound)
    ensures Within(c * a, c * bound)
  {
    assert c * (bound - a) >= 0.0 && c * (a + bound) >= 0.0;
  }

  /** What is removed next is a weighted mean of what was removed last and the last input. */
  lemma RemovedIsAMean(c: real, memory: Memory, x: real, bound: real)
    requires 0.0 < c < 1.0 && Within(Removed(memory), bound) && Within(memory.0, bound)
    ensures Within(x - Recurrence(c, memory, x), bound)
  {
    Shares(c, Removed(memory), bound);
    Shares(1.0 - c, memory.0, bound);
    assert c * memory.1 == c * memory.0 - c * Removed(memory);
    assert (1.0 - c) * memory.0 == memory.0 - c * memory.0;
    assert (1.0 - c) * bound == bound - c * bound;
  }

  /** From rest the output stays within twice the peak of the input, for every signal. */
  lemma {:induction false} AtMostTwiceThePeak(c: real, xs: seq<real>, bound: real)
    requires 0.0 < c < 1.0 && bound >= 0.0 && AllWithin(xs, bound)
    ensures AllWithin(DspRun(Filter(c), AT_REST, xs).1, 2.0 * bound)
    ensures Within(Removed(DspRun(Filter(c), AT_REST, xs).0), bound) && Within(DspRun(Filter(c), AT_REST, xs).0.0, bound)
    decreases |xs|
  {
    if xs == [] {
    } else {
      var before := DspRun(Filter(c), AT_REST, xs[..|xs| - 1]).0;
      AtMostTwiceThePeak(c, xs[..|xs| - 1], bound);
      RemovedIsAMean(c, before, xs[|xs| - 1], bound);
      hide Recurrence;
    }
  }

  // ---- it removes a constant -------------------------------------------------------

  function Power(c: real, n: nat): real { if n == 0 then 1.0 else c * Power(c, n - 1) }

  function Constant(level: real, n: nat): (r: seq<real>)
    ensures |r| == n
  {
    seq(n, _ => level)
  }

  /** A constant input decays geometrically from its first sample on. */
  lemma {:induction false} ConstantDecays(c: real, level: real, n: nat)
    requires n > 0
    ensures DspRun(Filter(c), AT_REST, Constant(level, n)).1[n - 1] == level * Power(c, n - 1)
    ensures DspRun(Filter(c), AT_REST, Constant(level, n)).0 == (level, level * Power(c, n - 1))
  {
    var xs := Constant(level, n);
    assert xs[..n - 1] == Constant(level, n - 1);
    if n == 1 {
      assert DspRun(Filter(c), AT_REST, xs[..n - 1]).0 == AT_REST;
    } else {
      ConstantDecays(c, level, n - 1);
      assert c * (level * Power(c, n - 2)) == level * (c * Power(c, n - 2));
    }
  }
}
