/** The corrector's time base: `rx_time` tags that rebase it, and the absolute
    time of a sample extrapolated from it. */
module TimeTags {

  /** An `rx_time` tag: the absolute stream offset it is attached to and, when
      its value is a tuple, the whole seconds (a uint64) and the fractional
      seconds of that sample's time. */
  datatype Tag = Tag(offset: nat, isTuple: bool, seconds: nat, fraction: real)

  /** The time base: absolute time `t0` at stream sample `sampleT0`. */
  datatype TimeBase = TimeBase(t0: real, sampleT0: nat)

  const Two64: int := 0x1_0000_0000_0000_0000

  /** The time base a tuple-valued tag installs. */
  function TagBase(tag: Tag): TimeBase {
    TimeBase(tag.seconds as real + tag.fraction, tag.offset)
  }

  /** The time base after absorbing `tags` in order: every tuple-valued tag
      replaces it, every other tag is skipped. */
  function Rebase(b: TimeBase, tags: seq<Tag>): (r: TimeBase)
    ensures r == b || exists i :: 0 <= i < |tags| && tags[i].isTuple && r == TagBase(tags[i])
    decreases |tags|
  {
    if tags == [] then b
    else
      var r := Rebase(if tags[0].isTuple then TagBase(tags[0]) else b, tags[1..]);
      assert forall i :: 0 <= i < |tags[1..]| ==> tags[1..][i] == tags[i + 1];
      r
  }

  /** The last tuple-valued tag wins. */
  lemma {:induction false} LastTupleTagWins(b: TimeBase, tags: seq<Tag>, i: nat)
    requires i < |tags| && tags[i].isTuple
    requires forall k :: i < k < |tags| ==> !tags[k].isTuple
    ensures Rebase(b, tags) == TagBase(tags[i])
    decreases |tags|
  {
    var next := if tags[0].isTuple then TagBase(tags[0]) else b;
    if i == 0 {
      NonTupleTagsKeepBase(next, tags[1..]);
    } else {
      LastTupleTagWins(next, tags[1..], i - 1);
    }
  }

  /** Tags none of which is a tuple leave the time base as it was; in
      particular no tags at all do. */
  lemma {:induction false} NonTupleTagsKeepBase(b: TimeBase, tags: seq<Tag>)
    requires forall k :: 0 <= k < |tags| ==> !tags[k].isTuple
    ensures Rebase(b, tags) == b
    decreases |tags|
  {
    if tags != [] {
      NonTupleTagsKeepBase(b, tags[1..]);
    }
  }

  /** The absolute time of the sample `j` places after written count `count`,
      extrapolated from the time base with a signed sample difference. */
  function SampleTime(b: TimeBase, count: nat, j: nat, sampRate: real): real
    requires sampRate > 0.0
  {
    b.t0 + ((count + j) as real - b.sampleT0 as real) / sampRate
  }

  /** Consecutive samples are exactly one sample period apart. */
  lemma SampleTimeStep(b: TimeBase, count: nat, j: nat, sampRate: real)
    requires sampRate > 0.0
    ensures SampleTime(b, count, j + 1, sampRate) == SampleTime(b, count, j, sampRate) + 1.0 / sampRate
    ensures SampleTime(b, count, j, sampRate) < SampleTime(b, count, j + 1, sampRate)
  {
    var n := (count + j) as real - b.sampleT0 as real;
    assert (n + 1.0) / sampRate == n / sampRate + 1.0 / sampRate;
  }

  /** The sample a time base is anchored at has exactly the time base's time. */
  lemma SampleTimeAtAnchor(b: TimeBase, count: nat, j: nat, sampRate: real)
    requires sampRate > 0.0
    requires count + j == b.sampleT0
    ensures SampleTime(b, count, j, sampRate) == b.t0
  {
  }

  /** The sample difference as the unsigned 64-bit expression computes it. */
  function ElapsedAsWritten(count: nat, sampleT0: nat, j: nat): (e: nat)
    ensures e < Two64
  {
    (count - sampleT0 + j) % Two64
  }

  /** The sample time as written, with the wrapping sample difference. */
  function SampleTimeAsWritten(b: TimeBase, count: nat, j: nat, sampRate: real): real
    requires sampRate > 0.0
  {
    b.t0 + ElapsedAsWritten(count, b.sampleT0, j) as real / sampRate
  }

  /** At or after the anchor (and short of a full 2^64 samples) the wrapping
      expression agrees with the signed one. */
  lemma AsWrittenAgreesFromAnchor(b: TimeBase, count: nat, j: nat, sampRate: real)
    requires sampRate > 0.0
    requires b.sampleT0 <= count + j < b.sampleT0 + Two64
    ensures SampleTimeAsWritten(b, count, j, sampRate) == SampleTime(b, count, j, sampRate)
  {
    assert ElapsedAsWritten(count, b.sampleT0, j) == count + j - b.sampleT0;
  }

  /** Before the anchor the wrapping expression jumps almost 2^64 samples ahead. */
  lemma AsWrittenWrapsBeforeAnchor(b: TimeBase, count: nat, j: nat, sampRate: real)
    requires sampRate > 0.0
    requires count + j < b.sampleT0 <= count + j + Two64
    ensures SampleTimeAsWritten(b, count, j, sampRate)
              == b.t0 + (Two64 - (b.sampleT0 - count - j)) as real / sampRate
  {
    assert ElapsedAsWritten(count, b.sampleT0, j) == Two64 - (b.sampleT0 - count - j);
  }

  /** A tag one sample into a block: the first sample's time as written lies
      about 2^64 seconds after the anchor instead of one period before it, so
      consecutive samples are not one period apart. */
  lemma AsWrittenStepBreaks()
    ensures SampleTimeAsWritten(TimeBase(0.0, 1), 0, 0, 1.0) == (Two64 - 1) as real
    ensures SampleTime(TimeBase(0.0, 1), 0, 0, 1.0) == -1.0
    ensures SampleTimeAsWritten(TimeBase(0.0, 1), 0, 1, 1.0)
              != SampleTimeAsWritten(TimeBase(0.0, 1), 0, 0, 1.0) + 1.0
  {
    AsWrittenWrapsBeforeAnchor(TimeBase(0.0, 1), 0, 0, 1.0);
    AsWrittenAgreesFromAnchor(TimeBase(0.0, 1), 0, 1, 1.0);
  }
}
