/** The Doppler correction block: its streaming state and its `work` step. */
module DopplerCorrection {
  import opened Angles
  import opened DopplerProfile
  import opened TimeTags

  /** The frequencies the samples of one block are corrected with: each sample's
      time from the block's final time base, looked up from the cursor the
      block started with. */
  function BlockFreqs(times: seq<real>, freqs: seq<real>, cursor: nat, b: TimeBase,
                      count: nat, sampRate: real, n: nat): (fs: seq<real>)
    requires |freqs| == |times| && cursor < |times| && sampRate > 0.0
    ensures |fs| == n
  {
    if n == 0 then []
    else BlockFreqs(times, freqs, cursor, b, count, sampRate, n - 1)
         + [Lookup(times, freqs, cursor, SampleTime(b, count, n - 1, sampRate))]
  }

  /** Sample j of a block is corrected with the frequency looked up for its
      time from the block's starting cursor. */
  lemma {:induction false} BlockFreqsAt(times: seq<real>, freqs: seq<real>, cursor: nat, b: TimeBase,
                                        count: nat, sampRate: real, n: nat, j: nat)
    requires |freqs| == |times| && cursor < |times| && sampRate > 0.0
    requires j < n
    ensures BlockFreqs(times, freqs, cursor, b, count, sampRate, n)[j]
              == Lookup(times, freqs, cursor, SampleTime(b, count, j, sampRate))
  {
    if j < n - 1 {
      BlockFreqsAt(times, freqs, cursor, b, count, sampRate, n - 1, j);
    }
  }

  /** The cursor carried over from sample j - 1, advanced for sample j, stops
      where advancing the block's starting cursor for sample j would. */
  lemma CarriedCursor(times: seq<real>, c0: nat, before: nat, b: TimeBase,
                      count: nat, sampRate: real, j: nat)
    requires c0 < |times| && sampRate > 0.0
    requires before == if j == 0 then c0 else AdvanceTo(times, c0, SampleTime(b, count, j - 1, sampRate))
    ensures before < |times|
    ensures AdvanceTo(times, before, SampleTime(b, count, j, sampRate))
              == AdvanceTo(times, c0, SampleTime(b, count, j, sampRate))
  {
    if j > 0 {
      SampleTimeStep(b, count, j - 1, sampRate);
      AdvanceCompose(times, c0, SampleTime(b, count, j - 1, sampRate), SampleTime(b, count, j, sampRate));
    }
  }

  /** Where the cursor stands after the first j samples of a block. */
  function CursorAfter(times: seq<real>, cursor: nat, b: TimeBase, count: nat, sampRate: real, j: nat): (c: nat)
    requires cursor < |times| && sampRate > 0.0
    ensures cursor <= c < |times|
  {
    if j == 0 then cursor else AdvanceTo(times, cursor, SampleTime(b, count, j - 1, sampRate))
  }

  /** Sample j of a block, run from the carried cursor: the cursor stops where
      advancing the block's starting cursor would, and the frequency selected
      there is the block's frequency for sample j. */
  lemma SampleStep(times: seq<real>, freqs: seq<real>, cursor: nat, b: TimeBase,
                   count: nat, sampRate: real, n: nat, j: nat)
    requires |freqs| == |times| && cursor < |times| && sampRate > 0.0
    requires j < n
    ensures AdvanceTo(times, CursorAfter(times, cursor, b, count, sampRate, j), SampleTime(b, count, j, sampRate))
              == CursorAfter(times, cursor, b, count, sampRate, j + 1)
    ensures BlockFreqs(times, freqs, cursor, b, count, sampRate, n)[j]
              == SelectFreq(times, freqs, CursorAfter(times, cursor, b, count, sampRate, j + 1),
                            SampleTime(b, count, j, sampRate))
  {
    CarriedCursor(times, cursor, CursorAfter(times, cursor, b, count, sampRate, j), b, count, sampRate, j);
    BlockFreqsAt(times, freqs, cursor, b, count, sampRate, n, j);
  }

  /** The phase accumulator after adding each of `fs` in turn and wrapping
      after every addition. */
  function PhaseAfter(phase: real, fs: seq<real>): real {
    if fs == [] then phase else Wrap(PhaseAfter(phase, fs[..|fs| - 1]) + fs[|fs| - 1])
  }

  /** The accumulator's value after each addition. */
  function PhaseTrace(phase: real, fs: seq<real>): (t: seq<real>)
    ensures |t| == |fs|
  {
    if fs == [] then [] else PhaseTrace(phase, fs[..|fs| - 1]) + [PhaseAfter(phase, fs)]
  }

  /** One more increment: the accumulator adds it and wraps, and the trace
      gains the new value. */
  lemma PhaseStep(phase: real, fs: seq<real>, j: nat)
    requires j < |fs|
    ensures PhaseAfter(phase, fs[..j + 1]) == Wrap(PhaseAfter(phase, fs[..j]) + fs[j])
    ensures PhaseTrace(phase, fs[..j + 1]) == PhaseTrace(phase, fs[..j]) + [PhaseAfter(phase, fs[..j + 1])]
  {
    assert fs[..j + 1][..j] == fs[..j];
  }

  /** Entry k of the trace is the accumulator after the first k + 1 increments. */
  lemma {:induction false} PhaseTraceAt(phase: real, fs: seq<real>, k: nat)
    requires k < |fs|
    ensures PhaseTrace(phase, fs)[k] == PhaseAfter(phase, fs[..k + 1])
  {
    var init := fs[..|fs| - 1];
    if k < |fs| - 1 {
      PhaseTraceAt(phase, init, k);
      assert init[..k + 1] == fs[..k + 1];
    } else {
      assert fs[..k + 1] == fs;
    }
  }

  /** However often it was wrapped, the accumulated phase is canonical and the
      same angle as the starting phase plus the sum of the increments. */
  lemma {:induction false} PhaseAfterSum(phase: real, fs: seq<real>)
    requires Canonical(phase)
    ensures Canonical(PhaseAfter(phase, fs))
    ensures SameAngle(PhaseAfter(phase, fs), phase + Sum(fs))
  {
    if fs == [] {
      assert (phase - phase) / TwoPi == 0.0;
    } else {
      var init := fs[..|fs| - 1];
      var f := fs[|fs| - 1];
      PhaseAfterSum(phase, init);
      var p := PhaseAfter(phase, init);
      SameAngleShift(p, phase + Sum(init), f);
      SameAngleTransitive(Wrap(p + f), p + f, phase + Sum(fs));
    }
  }

  /** Integrating a constant frequency f for k samples leaves the phase at
      the same angle as the starting phase plus k * f, however often it was
      wrapped on the way. */
  lemma ConstantFrequencyContinuity(phase: real, fs: seq<real>, f: real)
    requires Canonical(phase)
    requires forall i :: 0 <= i < |fs| ==> fs[i] == f
    ensures SameAngle(PhaseAfter(phase, fs), phase + |fs| as real * f)
  {
    PhaseAfterSum(phase, fs);
    ConstantFrequencyPhase(fs, f);
  }

  /** Sample j of a block as the loop runs it, from the cursor and phase left
      by sample j - 1: the cursor lands where the closed form puts it, the
      phase becomes the accumulator after j + 1 of the block's frequencies,
      and the trace grows by that phase. */
  lemma BlockStep(times: seq<real>, freqs: seq<real>, cursor: nat, phase: real, b: TimeBase,
                  count: nat, sampRate: real, n: nat, j: nat)
    requires |freqs| == |times| && cursor < |times| && sampRate > 0.0
    requires j < n
    ensures AdvanceTo(times, CursorAfter(times, cursor, b, count, sampRate, j), SampleTime(b, count, j, sampRate))
              == CursorAfter(times, cursor, b, count, sampRate, j + 1)
    ensures Wrap(PhaseAfter(phase, BlockFreqs(times, freqs, cursor, b, count, sampRate, n)[..j])
                 + SelectFreq(times, freqs, CursorAfter(times, cursor, b, count, sampRate, j + 1),
                              SampleTime(b, count, j, sampRate)))
              == PhaseAfter(phase, BlockFreqs(times, freqs, cursor, b, count, sampRate, n)[..j + 1])
    ensures PhaseTrace(phase, BlockFreqs(times, freqs, cursor, b, count, sampRate, n)[..j + 1])
              == PhaseTrace(phase, BlockFreqs(times, freqs, cursor, b, count, sampRate, n)[..j])
                 + [PhaseAfter(phase, BlockFreqs(times, freqs, cursor, b, count, sampRate, n)[..j + 1])]
  {
    SampleStep(times, freqs, cursor, b, count, sampRate, n, j);
    PhaseStep(phase, BlockFreqs(times, freqs, cursor, b, count, sampRate, n), j);
  }

  /** Every value in the trace is canonical and the same angle as the
      starting phase plus the increments up to and including its own. */
  lemma PhaseTraceMeaning(phase: real, fs: seq<real>, t: seq<real>)
    requires Canonical(phase)
    requires t == PhaseTrace(phase, fs)
    ensures forall k :: 0 <= k < |t| ==> Canonical(t[k]) && SameAngle(t[k], phase + Sum(fs[..k + 1]))
  {
    forall k | 0 <= k < |t|
      ensures Canonical(t[k]) && SameAngle(t[k], phase + Sum(fs[..k + 1]))
    {
      PhaseTraceAt(phase, fs, k);
      PhaseAfterSum(phase, fs[..k + 1]);
    }
  }

  /** The sample loop as written: each sample's time by the unsigned 64-bit
      expression, the cursor carried over from the previous sample and
      advanced for that time, and the frequency selected there. Returns the
      final cursor and the frequency of each sample. */
  function BlockAsWritten(times: seq<real>, freqs: seq<real>, cursor: nat, b: TimeBase,
                          count: nat, sampRate: real, n: nat): (r: (nat, seq<real>))
    requires |freqs| == |times| && cursor < |times| && sampRate > 0.0
    ensures cursor <= r.0 < |times| && |r.1| == n
  {
    if n == 0 then (cursor, [])
    else
      var prev := BlockAsWritten(times, freqs, cursor, b, count, sampRate, n - 1);
      var time := SampleTimeAsWritten(b, count, n - 1, sampRate);
      var c := AdvanceTo(times, prev.0, time);
      (c, prev.1 + [SelectFreq(times, freqs, c, time)])
  }

  /** When the block starts at or after the time base's anchor sample and
      ends within 2^64 samples of it, the loop as written leaves the model's
      cursor and selects the model's frequencies. */
  lemma {:induction false} BlockAsWrittenAgrees(times: seq<real>, freqs: seq<real>, cursor: nat,
                                                b: TimeBase, count: nat, sampRate: real, n: nat)
    requires |freqs| == |times| && cursor < |times| && sampRate > 0.0
    requires b.sampleT0 <= count && count + n <= b.sampleT0 + Two64
    ensures BlockAsWritten(times, freqs, cursor, b, count, sampRate, n).0
              == CursorAfter(times, cursor, b, count, sampRate, n)
    ensures BlockAsWritten(times, freqs, cursor, b, count, sampRate, n).1
              == BlockFreqs(times, freqs, cursor, b, count, sampRate, n)
  {
    if n > 0 {
      BlockAsWrittenAgrees(times, freqs, cursor, b, count, sampRate, n - 1);
      AsWrittenAgreesFromAnchor(b, count, n - 1, sampRate);
      SampleStep(times, freqs, cursor, b, count, sampRate, n, n - 1);
      var fs := BlockFreqs(times, freqs, cursor, b, count, sampRate, n);
      assert fs == BlockFreqs(times, freqs, cursor, b, count, sampRate, n - 1) + [fs[n - 1]];
    }
  }

  /** Once the cursor stands at the last index, every later query holds the
      last frequency, whatever its time: the cursor is never rewound. */
  lemma PinnedAtLast(times: seq<real>, freqs: seq<real>, time: real)
    requires |freqs| == |times| && 0 < |times|
    ensures AdvanceTo(times, |times| - 1, time) == |times| - 1
    ensures Lookup(times, freqs, |times| - 1, time) == freqs[|times| - 1]
  {
  }

  /** The input of the finding, run as written for n samples of the first
      call: a tag at stream offset 1 with time 0, 1 sample per second, a table
      at 0 and 100 seconds. The first sample sends the cursor to the last
      index, and every sample of the call, including the tagged one at time 0,
      gets the last frequency. */
  lemma {:induction false} AsWrittenHoldsLast(n: nat)
    requires n >= 1
    ensures BlockAsWritten([0.0, 100.0], [0.0, 1.0], 0, TimeBase(0.0, 1), 0, 1.0, n).0 == 1
    ensures forall j :: 0 <= j < n ==> BlockAsWritten([0.0, 100.0], [0.0, 1.0], 0, TimeBase(0.0, 1), 0, 1.0, n).1[j] == 1.0
  {
    var ts, fs, b := [0.0, 100.0], [0.0, 1.0], TimeBase(0.0, 1);
    if n == 1 {
      AsWrittenStepBreaks();
      assert BlockAsWritten(ts, fs, 0, b, 0, 1.0, 0) == (0, []);
    } else {
      AsWrittenHoldsLast(n - 1);
      var prev := BlockAsWritten(ts, fs, 0, b, 0, 1.0, n - 1);
      PinnedAtLast(ts, fs, SampleTimeAsWritten(b, 0, n - 1, 1.0));
      assert BlockAsWritten(ts, fs, 0, b, 0, 1.0, n).1 == prev.1 + [1.0];
    }
  }

  /** The same call with the signed times: for n = 2 the model interpolates
      at the tagged sample (time 0, frequency 0) where the loop as written
      holds the last frequency. */
  lemma AsWrittenDiffersFromModel()
    ensures BlockAsWritten([0.0, 100.0], [0.0, 1.0], 0, TimeBase(0.0, 1), 0, 1.0, 2).1 == [1.0, 1.0]
    ensures BlockFreqs([0.0, 100.0], [0.0, 1.0], 0, TimeBase(0.0, 1), 0, 1.0, 2) == [0.0, 0.0]
    ensures CursorAfter([0.0, 100.0], 0, TimeBase(0.0, 1), 0, 1.0, 2) == 0
  {
    var ts, fs, b := [0.0, 100.0], [0.0, 1.0], TimeBase(0.0, 1);
    AsWrittenHoldsLast(2);
    AsWrittenStepBreaks();
    assert SampleTime(b, 0, 1, 1.0) == 0.0;
    assert AdvanceTo(ts, 0, 0.0) == 0;
    assert BlockFreqs(ts, fs, 0, b, 0, 1.0, 1) == [0.0];
  }

  class Corrector {
    const times: seq<real>
    const freqsRadPerSample: seq<real>
    const sampRate: real
    var phase: real
    var currentIndex: nat
    var t0: real
    var sampleT0: nat

    ghost predicate Valid()
      reads this
    {
      |times| == |freqsRadPerSample| >= 1 &&
      currentIndex < |times| &&
      sampRate > 0.0 &&
      Canonical(phase)
    }

    function Base(): TimeBase
      reads this
    {
      TimeBase(t0, sampleT0)
    }

    /** The profile is given as its two columns, frequency in Hz. */
    constructor (times: seq<real>, freqsHz: seq<real>, sampRate: real, t0: real)
      requires |times| == |freqsHz| >= 1
      requires sampRate > 0.0
      ensures Valid()
      ensures this.times == times && this.sampRate == sampRate
      ensures freqsRadPerSample == ToRadPerSample(freqsHz, sampRate)
      ensures phase == 0.0 && currentIndex == 0
      ensures Base() == TimeBase(t0, 0)
    {
      this.times := times;
      this.freqsRadPerSample := ToRadPerSample(freqsHz, sampRate);
      this.sampRate := sampRate;
      this.phase := 0.0;
      this.currentIndex := 0;
      this.t0 := t0;
      this.sampleT0 := 0;
    }

    /** Moves the cursor forward while the next table time is not after `time`. */
    method AdvanceCursor(time: real)
      requires Valid()
      modifies this`currentIndex
      ensures Valid()
      ensures old(currentIndex) <= currentIndex
      ensures currentIndex == AdvanceTo(times, old(currentIndex), time)
    {
      while currentIndex + 1 < |times| && times[currentIndex + 1] <= time
        invariant Valid()
        invariant old(currentIndex) <= currentIndex
        invariant AdvanceTo(times, currentIndex, time) == AdvanceTo(times, old(currentIndex), time)
        decreases |times| - currentIndex
      {
        currentIndex := currentIndex + 1;
      }
    }

    /** The per-sample step: advances the cursor for `time`, selects the
        frequency there, adds it to the phase and wraps the phase. */
    method ProcessSample(time: real)
      requires Valid()
      modifies this`currentIndex, this`phase
      ensures Valid()
      ensures currentIndex == AdvanceTo(times, old(currentIndex), time)
      ensures phase == Wrap(old(phase) + SelectFreq(times, freqsRadPerSample, currentIndex, time))
    {
      AdvanceCursor(time);
      var freq := SelectFreq(times, freqsRadPerSample, currentIndex, time);
      phase := Wrap(phase + freq);
    }

    /** Absorbs the block's `rx_time` tags into the time base, in order. */
    method AbsorbTimeTags(tags: seq<Tag>)
      modifies this`t0, this`sampleT0
      ensures Base() == Rebase(old(Base()), tags)
    {
      for i := 0 to |tags|
        invariant Rebase(Base(), tags[i..]) == Rebase(old(Base()), tags)
      {
        assert tags[i..][1..] == tags[i + 1..];
        if tags[i].isTuple {
          sampleT0 := tags[i].offset;
          t0 := tags[i].seconds as real + tags[i].fraction;
        }
      }
    }

    /** The sample loop of one call: runs samples 0 to n - 1, writing each
        sample's phase to `out`. */
    method ProcessBlock(n: nat, nitemsWritten: nat, out: array<real>)
      requires Valid()
      requires n <= out.Length
      modifies this`currentIndex, this`phase, out
      ensures Valid()
      ensures currentIndex == CursorAfter(times, old(currentIndex), Base(), nitemsWritten, sampRate, n)
      ensures phase == PhaseAfter(old(phase), BlockFreqs(times, freqsRadPerSample, old(currentIndex), Base(),
                                                           nitemsWritten, sampRate, n))
      ensures out[..n] == PhaseTrace(old(phase), BlockFreqs(times, freqsRadPerSample, old(currentIndex), Base(),
                                                              nitemsWritten, sampRate, n))
      ensures forall k :: n <= k < out.Length ==> out[k] == old(out[k])
    {
      ghost var c0, p0, base := currentIndex, phase, Base();
      ghost var fs := BlockFreqs(times, freqsRadPerSample, c0, base, nitemsWritten, sampRate, n);
      var j := 0;
      while j < n
        invariant 0 <= j <= n
        invariant Valid() && Base() == base
        invariant currentIndex == CursorAfter(times, c0, base, nitemsWritten, sampRate, j)
        invariant phase == PhaseAfter(p0, fs[..j])
        invariant out[..j] == PhaseTrace(p0, fs[..j])
        invariant forall k :: n <= k < out.Length ==> out[k] == old(out[k])
      {
        var time := SampleTime(Base(), nitemsWritten, j, sampRate);
        BlockStep(times, freqsRadPerSample, c0, p0, base, nitemsWritten, sampRate, n, j);
        ProcessSample(time);
        out[j] := phase;
        assert out[..j + 1] == out[..j] + [out[j]];
        j := j + 1;
      }
      assert fs[..n] == fs;
    }

    /** One call of the block: absorbs the tags, then for each of the
        `noutputItems` samples advances the cursor to the sample's time, selects
        its frequency, adds it to the phase and wraps it. `out[j]` receives the
        phase sample j is rotated back by (output j is input j times
        exp(-i*out[j])). */
    method Work(noutputItems: nat, nitemsWritten: nat, tags: seq<Tag>, out: array<real>)
      returns (produced: nat)
      requires Valid()
      requires noutputItems <= out.Length
      modifies this, out
      ensures Valid()
      ensures produced == noutputItems
      ensures Base() == Rebase(old(Base()), tags)
      ensures old(currentIndex) <= currentIndex
      ensures currentIndex == CursorAfter(times, old(currentIndex), Base(), nitemsWritten, sampRate, noutputItems)
      ensures out[..noutputItems] == PhaseTrace(old(phase), BlockFreqs(times, freqsRadPerSample, old(currentIndex),
                                                                         Base(), nitemsWritten, sampRate, noutputItems))
      ensures phase == if noutputItems == 0 then old(phase) else out[noutputItems - 1]
      ensures forall k :: noutputItems <= k < out.Length ==> out[k] == old(out[k])
    {
      ghost var c0, p0 := currentIndex, phase;
      AbsorbTimeTags(tags);
      ghost var base := Base();
      ghost var fs := BlockFreqs(times, freqsRadPerSample, c0, base, nitemsWritten, sampRate, noutputItems);
      ProcessBlock(noutputItems, nitemsWritten, out);
      assert Base() == base;
      if noutputItems > 0 {
        assert out[noutputItems - 1] == out[..noutputItems][noutputItems - 1];
        PhaseTraceAt(p0, fs, noutputItems - 1);
        assert fs[..noutputItems] == fs;
      }
      produced := noutputItems;
    }
  }

  /** A tag one sample into the block, at stream offset 1 with time 0, on a
      table spanning 0 to 100 seconds at 1 sample per second: with the wrapping
      sample difference the first sample pushes the cursor to the last index,
      where, never rewound, it holds the last frequency for every later time;
      with the signed difference the cursor stays at index 0. */
  lemma AsWrittenPinsCursor(later: real)
    ensures AdvanceTo([0.0, 100.0], 0, SampleTimeAsWritten(TimeBase(0.0, 1), 0, 0, 1.0)) == 1
    ensures Lookup([0.0, 100.0], [0.0, 1.0], 1, later) == 1.0
    ensures AdvanceTo([0.0, 100.0], 0, SampleTime(TimeBase(0.0, 1), 0, 0, 1.0)) == 0
  {
    AsWrittenStepBreaks();
  }
}
