/** The Doppler profile: two parallel tables, `times` (seconds) and `freqs`
    (radians per sample), queried by time through a cursor that only moves
    forward. The cursor advance and the choice between edge hold and linear
    interpolation are modelled here as functions; the corrector's methods are
    proved against them. */
module DopplerProfile {
  import opened Angles

  predicate Sorted(s: seq<real>) {
    forall i, j :: 0 <= i < j < |s| ==> s[i] <= s[j]
  }

  predicate StrictlySorted(s: seq<real>) {
    forall i, j :: 0 <= i < j < |s| ==> s[i] < s[j]
  }

  /** Converts a frequency column in Hz to radians per sample. */
  function ToRadPerSample(hz: seq<real>, sampRate: real): (r: seq<real>)
    requires sampRate > 0.0
    ensures |r| == |hz|
    ensures forall i :: 0 <= i < |r| ==> r[i] * sampRate == 2.0 * Pi * hz[i]
  {
    seq(|hz|, i requires 0 <= i < |hz| => 2.0 * Pi * hz[i] / sampRate)
  }

  /** The cursor needs no further advance for `time`: it is the last index, or
      the next table time lies strictly after `time`. */
  predicate AdvanceDone(times: seq<real>, cursor: nat, time: real)
    requires cursor < |times|
  {
    cursor + 1 == |times| || time < times[cursor + 1]
  }

  /** Where the cursor stops when advanced from `cursor` for `time`: never
      before `cursor`, always in bounds, and where no further advance is due. */
  function AdvanceTo(times: seq<real>, cursor: nat, time: real): (c: nat)
    requires cursor < |times|
    ensures cursor <= c < |times|
    ensures AdvanceDone(times, c, time)
    decreases |times| - cursor
  {
    if cursor + 1 < |times| && times[cursor + 1] <= time then
      AdvanceTo(times, cursor + 1, time)
    else
      cursor
  }

  /** Every entry the cursor moves past lies at or before `time`. */
  lemma {:induction false} AdvanceSkipsOnlyPast(times: seq<real>, cursor: nat, time: real)
    requires cursor < |times|
    ensures forall k :: cursor < k <= AdvanceTo(times, cursor, time) ==> times[k] <= time
    decreases |times| - cursor
  {
    if cursor + 1 < |times| && times[cursor + 1] <= time {
      AdvanceSkipsOnlyPast(times, cursor + 1, time);
    }
  }

  /** The three conditions in AdvanceTo's contract determine its result. */
  lemma AdvanceToUnique(times: seq<real>, cursor: nat, time: real, c: nat)
    requires cursor <= c < |times|
    requires forall k :: cursor < k <= c ==> times[k] <= time
    requires AdvanceDone(times, c, time)
    ensures AdvanceTo(times, cursor, time) == c
  {
    AdvanceSkipsOnlyPast(times, cursor, time);
  }

  /** Advancing for t1 and then for a later t2 stops where advancing for t2 at
      once would: the cursor carried from one sample to the next is exact. */
  lemma AdvanceCompose(times: seq<real>, cursor: nat, t1: real, t2: real)
    requires cursor < |times|
    requires t1 <= t2
    ensures AdvanceTo(times, AdvanceTo(times, cursor, t1), t2) == AdvanceTo(times, cursor, t2)
  {
    var c1 := AdvanceTo(times, cursor, t1);
    var r := AdvanceTo(times, c1, t2);
    AdvanceSkipsOnlyPast(times, cursor, t1);
    AdvanceSkipsOnlyPast(times, c1, t2);
    forall k | cursor < k <= r
      ensures times[k] <= t2
    {
      if k <= c1 {
        assert times[k] <= t1;
      }
    }
    AdvanceToUnique(times, cursor, t2, r);
  }

  /** For a later query time the cursor ends no earlier. */
  lemma AdvanceMonotone(times: seq<real>, cursor: nat, t1: real, t2: real)
    requires cursor < |times|
    requires t1 <= t2
    ensures AdvanceTo(times, cursor, t1) <= AdvanceTo(times, cursor, t2)
  {
    AdvanceCompose(times, cursor, t1, t2);
  }

  /** A cursor that has not overshot the fresh scan from index 0 stops where the
      fresh scan does. */
  lemma ReusedCursorMatchesFresh(times: seq<real>, cursor: nat, time: real)
    requires 0 < |times|
    requires cursor <= AdvanceTo(times, 0, time)
    ensures AdvanceTo(times, cursor, time) == AdvanceTo(times, 0, time)
  {
    AdvanceSkipsOnlyPast(times, 0, time);
    AdvanceToUnique(times, cursor, time, AdvanceTo(times, 0, time));
  }

  predicate Between(a: real, x: real, b: real) {
    (a <= x <= b) || (b <= x <= a)
  }

  /** The interpolation weight of `time` between two table times. */
  function Alpha(tLo: real, tHi: real, time: real): (a: real)
    requires tLo <= time < tHi
    ensures 0.0 <= a < 1.0
    ensures a * (tHi - tLo) == time - tLo
    ensures time == tLo ==> a == 0.0
  {
    var a := (time - tLo) / (tHi - tLo);
    QuotientInUnit(time - tLo, tHi - tLo);
    a
  }

  lemma QuotientInUnit(e: real, d: real)
    requires 0.0 <= e < d
    ensures 0.0 <= e / d < 1.0
    ensures (e / d) * d == e
  {
    var a := e / d;
    assert a * d == e;
    if a >= 1.0 {
      MulMonotone(1.0, a, d);
    }
    if a < 0.0 {
      MulMonotone(a, 0.0, d);
    }
  }

  lemma MulMonotone(x: real, y: real, d: real)
    requires x <= y && 0.0 <= d
    ensures x * d <= y * d
  {
    assert y * d - x * d == (y - x) * d;
  }

  /** A fraction of a non-negative quantity lies between zero and it. */
  lemma ScaleBounds(a: real, g: real)
    requires 0.0 <= a <= 1.0 && 0.0 <= g
    ensures 0.0 <= a * g <= g
  {
    MulMonotone(0.0, a, g);
    MulMonotone(a, 1.0, g);
  }

  lemma LerpFacts(fLo: real, fHi: real, a: real, d: real, e: real)
    requires d > 0.0 && 0.0 <= a < 1.0 && a * d == e
    ensures Between(fLo, (1.0 - a) * fLo + a * fHi, fHi)
    ensures ((1.0 - a) * fLo + a * fHi - fLo) * d == (fHi - fLo) * e
    ensures a == 0.0 ==> (1.0 - a) * fLo + a * fHi == fLo
  {
    var f := (1.0 - a) * fLo + a * fHi;
    var g := fHi - fLo;
    var h := fLo - fHi;
    assert f == fLo + a * g;
    assert f == fLo - a * h;
    if fLo <= fHi {
      ScaleBounds(a, g);
    } else {
      ScaleBounds(a, h);
    }
    assert (f - fLo) * d == (a * d) * (fHi - fLo);
  }

  /** The interpolation branch is taken: at or after the cursor's time, and a
      next entry exists. */
  predicate Interpolating(times: seq<real>, cursor: nat, time: real)
    requires cursor < |times|
  {
    times[cursor] <= time && cursor + 1 < |times|
  }

  /** The frequency for `time` at an advanced cursor: edge hold before the
      cursor's time or at the last index, linear interpolation otherwise. */
  function SelectFreq(times: seq<real>, freqs: seq<real>, cursor: nat, time: real): (f: real)
    requires |freqs| == |times| && cursor < |times|
    requires AdvanceDone(times, cursor, time)
    ensures !Interpolating(times, cursor, time) ==> f == freqs[cursor]
    ensures time == times[cursor] ==> f == freqs[cursor]
    ensures Interpolating(times, cursor, time) ==>
      times[cursor] <= time < times[cursor + 1] &&
      Between(freqs[cursor], f, freqs[cursor + 1]) &&
      (f - freqs[cursor]) * (times[cursor + 1] - times[cursor])
        == (freqs[cursor + 1] - freqs[cursor]) * (time - times[cursor])
  {
    if time < times[cursor] || cursor + 1 == |times| then
      freqs[cursor]
    else
      var alpha := Alpha(times[cursor], times[cursor + 1], time);
      LerpFacts(freqs[cursor], freqs[cursor + 1], alpha,
                times[cursor + 1] - times[cursor], time - times[cursor]);
      (1.0 - alpha) * freqs[cursor] + alpha * freqs[cursor + 1]
  }

  /** A whole query: advance the cursor, then select the frequency. */
  function Lookup(times: seq<real>, freqs: seq<real>, cursor: nat, time: real): real
    requires |freqs| == |times| && cursor < |times|
  {
    SelectFreq(times, freqs, AdvanceTo(times, cursor, time), time)
  }

  /** On a sorted table, a time inside segment k is looked up on that segment. */
  lemma LookupOnSegment(times: seq<real>, freqs: seq<real>, k: nat, time: real)
    requires |freqs| == |times| && Sorted(times)
    requires k + 1 < |times| && times[k] <= time < times[k + 1]
    ensures AdvanceTo(times, 0, time) == k
    ensures Between(freqs[k], Lookup(times, freqs, 0, time), freqs[k + 1])
    ensures (Lookup(times, freqs, 0, time) - freqs[k]) * (times[k + 1] - times[k])
              == (freqs[k + 1] - freqs[k]) * (time - times[k])
  {
    forall i | 0 < i <= k
      ensures times[i] <= time
    {
      assert times[i] <= times[k];
    }
    AdvanceToUnique(times, 0, time, k);
  }

  /** Before the first table time, a sorted table holds the first frequency. */
  lemma EdgeHoldBeforeStart(times: seq<real>, freqs: seq<real>, time: real)
    requires |freqs| == |times| && 0 < |times| && Sorted(times)
    requires time < times[0]
    ensures AdvanceTo(times, 0, time) == 0
    ensures Lookup(times, freqs, 0, time) == freqs[0]
  {
    if 1 < |times| {
      assert times[0] <= times[1];
    }
    AdvanceToUnique(times, 0, time, 0);
  }

  /** At or after the last table time, a sorted table holds the last frequency,
      from any cursor. */
  lemma EdgeHoldAfterEnd(times: seq<real>, freqs: seq<real>, cursor: nat, time: real)
    requires |freqs| == |times| && cursor < |times| && Sorted(times)
    requires times[|times| - 1] <= time
    ensures AdvanceTo(times, cursor, time) == |times| - 1
    ensures Lookup(times, freqs, cursor, time) == freqs[|times| - 1]
  {
    forall i | cursor < i <= |times| - 1
      ensures times[i] <= time
    {
      assert times[i] <= times[|times| - 1];
    }
    AdvanceToUnique(times, cursor, time, |times| - 1);
  }

  /** Querying a strictly increasing table at one of its own times returns that
      entry's frequency exactly. */
  lemma RoundTrip(times: seq<real>, freqs: seq<real>, k: nat)
    requires |freqs| == |times| && StrictlySorted(times)
    requires k < |times|
    ensures Lookup(times, freqs, 0, times[k]) == freqs[k]
  {
    assert Sorted(times);
    if k + 1 < |times| {
      LookupOnSegment(times, freqs, k, times[k]);
    } else {
      EdgeHoldAfterEnd(times, freqs, 0, times[k]);
    }
  }

  /** Non-decreasing queries through a carried cursor give the same answers as
      fresh queries from index 0. */
  lemma IncrementalLookupMatchesFresh(times: seq<real>, freqs: seq<real>, t1: real, t2: real)
    requires |freqs| == |times| && 0 < |times|
    requires t1 <= t2
    ensures AdvanceTo(times, AdvanceTo(times, 0, t1), t2) == AdvanceTo(times, 0, t2)
    ensures Lookup(times, freqs, AdvanceTo(times, 0, t1), t2) == Lookup(times, freqs, 0, t2)
  {
    AdvanceCompose(times, 0, t1, t2);
  }

  /** The cursor is never rewound: after a query at a late time, an earlier
      query falls into edge hold at the advanced cursor, where a fresh query
      would interpolate. */
  lemma StaleCursorAfterRewind()
    ensures AdvanceTo([0.0, 10.0, 20.0], 0, 25.0) == 2
    ensures Lookup([0.0, 10.0, 20.0], [0.0, 1.0, 2.0], 2, 5.0) == 2.0
    ensures Lookup([0.0, 10.0, 20.0], [0.0, 1.0, 2.0], 0, 5.0) == 0.5
  {
    var ts := [0.0, 10.0, 20.0];
    assert AdvanceTo(ts, 2, 25.0) == 2;
    assert AdvanceTo(ts, 1, 25.0) == 2;
    assert AdvanceTo(ts, 2, 5.0) == 2;
    assert AdvanceTo(ts, 0, 5.0) == 0;
  }
}
