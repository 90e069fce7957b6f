# Doppler correction block, modelled in Dafny

This project models the `work` step of gr-satellites' `doppler_correction`
block (`lib/doppler_correction_impl.cc`). The block corrects a carrier's
Doppler shift in a stream of complex samples. It loads a Doppler profile once:
a table of times in seconds and frequencies in Hz, with each frequency
converted to radians per sample. It keeps a time base: an absolute time `t0`
at stream sample `sample_t0`. `rx_time` stream tags with a tuple value move the
time base. For every output sample the block:

1. computes the sample's absolute time from the time base;
2. moves a forward-only cursor through the table;
3. takes the frequency at the cursor, holding the edge value or interpolating
   linearly;
4. adds that frequency to a phase accumulator and wraps it;
5. rotates the input sample back by the accumulated phase.

Files and modules:

- `angles.dfy` (`Angles`): the value of pi the block uses, equality of angles
  modulo 2*pi (`SameAngle`), the wrap step (`Wrap`, into (-pi, pi]) and the
  running sum of increments.
- `profile.dfy` (`DopplerProfile`): the profile tables as immutable sequences.
  The cursor advance is the function `AdvanceTo`. The choice between edge hold
  and interpolation is the function `SelectFreq`.
- `time_tags.dfy` (`TimeTags`): tags as values (`Tag`), the time base
  (`TimeBase`), how tags rebase it (`Rebase`) and the time of a sample
  (`SampleTime`). It also models the unsigned 64-bit expression of line 79 as
  written (`SampleTimeAsWritten`); see Findings.
- `doppler_correction.dfy` (`DopplerCorrection`): the block's state as the
  class `Corrector`. Its fields are `phase`, `currentIndex`, `t0` and
  `sampleT0`, as in the C++ members. The profile tables and the sample rate are
  `const` fields. The methods `AdvanceCursor`, `ProcessSample`,
  `AbsorbTimeTags`, `ProcessBlock` and `Work` mirror the body of `work`, and
  each is proved against the pure functions of the other modules. The block as
  a whole is specified in closed form. After j samples the cursor stands at
  `CursorAfter`, which is `AdvanceTo` from the block's starting cursor for
  sample j - 1's time. Sample j is corrected with the frequency `BlockFreqs`
  holds for it. The phases written are `PhaseTrace` of those frequencies.
  `PhaseTraceMeaning` and `PhaseAfterSum` prove what those phases mean: each is
  canonical and equals, modulo 2*pi, the starting phase plus the sum of the
  block's frequencies up to that sample.

What `work` writes to `out[j]` is `in[j] * exp(-i * phase_j)`. The model's
`out` array holds `phase_j`, the angle each sample is rotated back by. The
complex rotation itself is left out (see below).

Inputs the block gets from its host are parameters of `Work`:

- `nitemsWritten`: the count the host's `nitems_written(0)` returns.
- `tags`: the `rx_time` tags in the call's window, in the order the host
  returns them.
- `noutputItems`: the number of samples.

## Model

| member | source | states |
|---|---|---|
| Angles.Wrap | lib/doppler_correction_impl.cc:97-98 | the wrapped phase lies in (-pi, pi] and is the same angle, modulo 2*pi, as the unwrapped one |
| Angles.CanonicalUnique | lib/doppler_correction_impl.cc:98 | two canonical phases that are the same angle are equal, so the wrapped phase is determined by the rotation |
| Angles.WrapCanonical | lib/doppler_correction_impl.cc:98 | wrapping a phase that is already canonical leaves it unchanged |
| Angles.ConstantFrequencyPhase | lib/doppler_correction_impl.cc:97 | k increments all equal to f sum to k * f |
| DopplerProfile.ToRadPerSample | lib/doppler_correction_impl.cc:57 | the converted table has one entry per Hz entry, and each entry times the sample rate is 2*pi times the Hz value |
| DopplerProfile.AdvanceTo | lib/doppler_correction_impl.cc:80-84 | the advanced cursor is never before the old one and stays in bounds; at the stop it is the last index or the next table time is after the sample's time |
| DopplerProfile.AdvanceSkipsOnlyPast | lib/doppler_correction_impl.cc:82-84 | every table entry the cursor moves past has a time at or before the sample's time |
| DopplerProfile.AdvanceToUnique | lib/doppler_correction_impl.cc:82-84 | any in-bounds index reached only past entries at or before the time, where the loop condition is false, is where the loop stops |
| DopplerProfile.AdvanceCompose | lib/doppler_correction_impl.cc:78-84 | advancing for t1 and then for a later t2 stops where advancing for t2 at once would, so the cursor carried between samples is exact |
| DopplerProfile.AdvanceMonotone | lib/doppler_correction_impl.cc:82-84 | for a later time the cursor ends no earlier |
| DopplerProfile.ReusedCursorMatchesFresh | lib/doppler_correction_impl.cc:82-84 | a cursor that has not overshot the scan from index 0 stops where that scan stops |
| DopplerProfile.Alpha | lib/doppler_correction_impl.cc:92-93 | on the interpolation branch the denominator is positive and the weight lies in [0, 1); the weight times the segment length is the time into the segment, and it is 0 at the segment's start |
| DopplerProfile.SelectFreq | lib/doppler_correction_impl.cc:85-96 | before the cursor's time or at the last index, the cursor's frequency is held; at a table time, that entry's frequency is returned exactly; otherwise the frequency lies between the two neighbours and on the line through them |
| DopplerProfile.Lookup | lib/doppler_correction_impl.cc:82-96 | one query: advance the cursor, then select the frequency there; its partners `LookupOnSegment`, `EdgeHoldBeforeStart`, `EdgeHoldAfterEnd`, `RoundTrip` and `IncrementalLookupMatchesFresh` state what it returns |
| DopplerProfile.LookupOnSegment | lib/doppler_correction_impl.cc:82-96 | on a sorted table, a time inside segment k puts the cursor at k and interpolates between entries k and k + 1 |
| DopplerProfile.EdgeHoldBeforeStart | lib/doppler_correction_impl.cc:86-89 | on a sorted table, a time before the first entry keeps the cursor at 0 and holds the first frequency |
| DopplerProfile.EdgeHoldAfterEnd | lib/doppler_correction_impl.cc:86-89 | on a sorted table, a time at or after the last entry moves any cursor to the last index and holds the last frequency |
| DopplerProfile.RoundTrip | lib/doppler_correction_impl.cc:82-96 | on a strictly increasing table, a query at one of its own times returns that entry's frequency |
| DopplerProfile.IncrementalLookupMatchesFresh | lib/doppler_correction_impl.cc:78-96 | non-decreasing queries through the carried cursor answer as fresh queries from index 0 would |
| DopplerProfile.StaleCursorAfterRewind | lib/doppler_correction_impl.cc:82-84 | the cursor is never rewound: after a late query, an earlier time holds the advanced cursor's frequency where a fresh query would interpolate |
| TimeTags.Rebase | lib/doppler_correction_impl.cc:68-76 | the time base after a call's tags is the old one or the one set by one of the tuple-valued tags |
| TimeTags.TagBase | lib/doppler_correction_impl.cc:70-73 | the time base a tuple-valued tag installs: its offset as `sample_t0`, whole seconds plus fraction as `t0`; `LastTupleTagWins` states that the last such tag is the one that stays |
| TimeTags.LastTupleTagWins | lib/doppler_correction_impl.cc:69-76 | when several tuple-valued tags arrive, the last one sets `t0` (seconds plus fraction) and `sample_t0` (its offset) |
| TimeTags.NonTupleTagsKeepBase | lib/doppler_correction_impl.cc:69-71 | tags whose value is not a tuple, or no tags at all, leave the time base unchanged |
| TimeTags.SampleTime | lib/doppler_correction_impl.cc:79 | a sample's absolute time with a signed sample difference; its partners `SampleTimeStep` and `SampleTimeAtAnchor` state that samples are one period apart and that the anchor sample gets the tag's time |
| TimeTags.SampleTimeStep | lib/doppler_correction_impl.cc:79 | consecutive samples are exactly 1 / samp_rate seconds apart, and later samples have strictly later times |
| TimeTags.SampleTimeAtAnchor | lib/doppler_correction_impl.cc:79 | the sample a tag is attached to gets exactly the tag's time |
| TimeTags.ElapsedAsWritten | lib/doppler_correction_impl.cc:79 | the unsigned sample difference lies in [0, 2^64) |
| TimeTags.SampleTimeAsWritten | lib/doppler_correction_impl.cc:79 | a sample's absolute time with the unsigned 64-bit difference as written; its partners `AsWrittenAgreesFromAnchor`, `AsWrittenWrapsBeforeAnchor` and `AsWrittenStepBreaks` state where it agrees with `SampleTime` and where it wraps |
| TimeTags.AsWrittenAgreesFromAnchor | lib/doppler_correction_impl.cc:79 | at or after the anchor sample, and within 2^64 samples of it, the unsigned time equals the signed one |
| TimeTags.AsWrittenWrapsBeforeAnchor | lib/doppler_correction_impl.cc:79 | before the anchor sample, the unsigned time lies almost 2^64 samples after the anchor |
| TimeTags.AsWrittenStepBreaks | lib/doppler_correction_impl.cc:79 | with a tag one sample into the block, the unsigned time of sample 0 is 2^64 - 1 seconds where the signed one is -1, and samples 0 and 1 are not one period apart |
| DopplerCorrection.BlockFreqs | lib/doppler_correction_impl.cc:78-96 | a block of n samples has exactly n frequencies |
| DopplerCorrection.BlockFreqsAt | lib/doppler_correction_impl.cc:79-96 | sample j's frequency is the lookup from the block's starting cursor at sample j's time under the block's final time base |
| DopplerCorrection.CarriedCursor | lib/doppler_correction_impl.cc:78-84 | the cursor left by sample j - 1, advanced for sample j, stops where advancing the block's starting cursor for sample j would |
| DopplerCorrection.CursorAfter | lib/doppler_correction_impl.cc:78-84 | after any number of samples the cursor is in bounds and no earlier than where the block started |
| DopplerCorrection.SampleStep | lib/doppler_correction_impl.cc:79-96 | from the carried cursor, sample j's cursor and selected frequency are the closed-form ones |
| DopplerCorrection.PhaseAfter | lib/doppler_correction_impl.cc:97-98 | the phase after adding each increment and wrapping after every addition; its partner `PhaseAfterSum` states it stays canonical and equals the start plus the sum modulo 2*pi |
| DopplerCorrection.PhaseTrace | lib/doppler_correction_impl.cc:97-100 | the phase applied to each sample, one per increment; its partners `PhaseTraceAt` and `PhaseTraceMeaning` state that entry k is the accumulator after k + 1 increments, canonical and equal to the start plus the partial sum modulo 2*pi |
| DopplerCorrection.PhaseStep | lib/doppler_correction_impl.cc:97-98 | one more increment adds it to the phase and wraps it, and the trace grows by the new phase |
| DopplerCorrection.PhaseTraceAt | lib/doppler_correction_impl.cc:97-100 | the phase used for sample k is the accumulator after the first k + 1 increments |
| DopplerCorrection.PhaseAfterSum | lib/doppler_correction_impl.cc:97-98 | however often it was wrapped, the accumulated phase is canonical and the same angle as the starting phase plus the sum of the increments |
| DopplerCorrection.ConstantFrequencyContinuity | lib/doppler_correction_impl.cc:97-98 | integrating a constant frequency f for k samples gives the same angle as the starting phase plus k * f |
| DopplerCorrection.BlockStep | lib/doppler_correction_impl.cc:79-98 | one sample of the loop, from the state left by the previous one, produces the closed-form cursor, phase and trace |
| DopplerCorrection.PhaseTraceMeaning | lib/doppler_correction_impl.cc:97-100 | every phase a block applies is canonical and the same angle as the starting phase plus the block's frequencies up to and including its sample |
| DopplerCorrection.BlockAsWritten | lib/doppler_correction_impl.cc:78-96 | the sample loop as written: unsigned sample times, the cursor carried from sample to sample and advanced for each time, the frequency selected there; the cursor stays in bounds and never moves back, and there is one frequency per sample |
| DopplerCorrection.BlockAsWrittenAgrees | lib/doppler_correction_impl.cc:78-96 | when the call starts at or after the anchor sample and ends within 2^64 samples of it, the loop as written leaves the model's cursor `CursorAfter` and selects the model's frequencies `BlockFreqs` |
| DopplerCorrection.PinnedAtLast | lib/doppler_correction_impl.cc:82-89 | a cursor at the last index stays there for any later time and holds the last frequency |
| DopplerCorrection.AsWrittenHoldsLast | lib/doppler_correction_impl.cc:79-96 | on the finding's input, for any number of samples in the call, the loop as written ends at the last index and gives every sample the last frequency |
| DopplerCorrection.AsWrittenDiffersFromModel | lib/doppler_correction_impl.cc:79-96 | on the finding's input with two samples, the loop as written gives frequencies [1, 1] while the model gives [0, 0] with its cursor at 0 |
| DopplerCorrection.Corrector.constructor | lib/doppler_correction_impl.cc:27-41 | the phase starts at 0, the cursor at index 0, the time base at (t0, sample 0), and the frequency table is the Hz column converted to radians per sample |
| DopplerCorrection.Corrector.AdvanceCursor | lib/doppler_correction_impl.cc:80-84 | the while loop moves the cursor forward, keeps it in bounds and stops where `AdvanceTo` does |
| DopplerCorrection.Corrector.ProcessSample | lib/doppler_correction_impl.cc:82-98 | one sample advances the cursor, adds the selected frequency to the phase and wraps it, and leaves the state valid |
| DopplerCorrection.Corrector.AbsorbTimeTags | lib/doppler_correction_impl.cc:68-76 | the loop over the tags leaves the time base equal to `Rebase` of the old one |
| DopplerCorrection.Corrector.ProcessBlock | lib/doppler_correction_impl.cc:78-101 | after the sample loop, the cursor is the closed-form cursor, the phase is the accumulator over the block's frequencies, `out[0..n)` holds the phase of each sample, and the rest of `out` is untouched |
| DopplerCorrection.Corrector.Work | lib/doppler_correction_impl.cc:61-104 | returns `noutput_items`; absorbs all tags before any sample, so every sample uses the final time base; the cursor moves only forward; the phases written and the final phase are as for `ProcessBlock` |
| DopplerCorrection.AsWrittenPinsCursor | lib/doppler_correction_impl.cc:79-84 | with the unsigned time, a tag one sample into the block sends the cursor to the last index, where it holds the last frequency for every later time; with the signed time the cursor stays at 0 |

## Left out

- Loading the profile file (`read_doppler_file`, lines 45-59) is I/O. The
  constructor takes the two columns as sequences. Format errors, the exception
  and the extra entry the end-of-file loop can append are not modelled. The
  unit conversion of line 57 is `ToRadPerSample`. The model requires at least
  one entry, which the loading loop always produces.
- Time-ordering of the profile is not checked by the block and is not required
  by the model. The lemmas about particular segments assume a sorted table.
- `gr_expj` and `fast_cc_multiply` (lines 99-100) are complex floating-point
  operations. `out` holds the phase each sample is rotated back by, not the
  rotated sample. The input samples are not modelled.
- `phase_wrap` (line 98) is declared in `doppler_correction_impl.h`, which is
  not part of this model. `Angles.Wrap` stands for it: wrapping into (-pi, pi]
  while keeping the angle modulo 2*pi. That range is the model's own choice,
  since the body of `phase_wrap` is not available, and every conclusion that a
  phase is `Canonical` rests on it: `Valid`, `PhaseAfterSum`,
  `PhaseTraceMeaning` and the values written to `out`. The same-angle
  conclusions hold for any wrap that shifts by whole turns.
- Floating point: times, frequencies and phases are exact reals. Rounding in
  the division of line 79, the `static_cast<double>` of the whole seconds, and
  the precision of `GR_M_PI` are not modelled. Pi is the decimal literal of
  `GR_M_PI`.
- `get_tags_in_window`, `pmt` decoding (`is_tuple`, `tuple_ref`, `to_uint64`,
  `to_double`) and the logger call are host-framework calls. A tag is a value
  holding its offset, whether it is a tuple, whole seconds and fraction. The
  tags are processed in the order given, whatever that order is. The exception
  path is not modelled: `tuple_ref`, `to_uint64` and `to_double` throw when an
  `rx_time` tuple is too short or its elements are not a uint64 and a double,
  and `Tag` cannot express such a value.
- `nitems_written(0)` and `noutput_items` are parameters of `Work`. The
  scheduler, buffers and the `int` type of `noutput_items` are not modelled.
- `Corrector.constructor`: requires a positive sample rate, so that the
  divisions of lines 57 and 79 are defined. The source does not check it.
- `Corrector.ProcessBlock`: computes each sample's time with the signed
  `TimeTags.SampleTime`, not the unsigned 64-bit expression of line 79, and so
  do the closed-form members it is proved against: `BlockFreqs`,
  `BlockFreqsAt`, `CarriedCursor`, `CursorAfter`, `SampleStep` and
  `BlockStep`. `BlockAsWritten` is the loop as written, with the unsigned times
  and the carried cursor. `BlockAsWrittenAgrees` proves it leaves the same
  cursor and selects the same frequencies as the model when the call's first
  sample is at or after the time base's anchor sample and its last sample is
  within 2^64 samples of it.
- `Corrector.Work`: uses the signed sample difference of `TimeTags.SampleTime`,
  not the unsigned 64-bit expression written at line 79. Once a call holds a
  sample before the anchor sample of the call's final time base (the offset of
  the last tuple-valued tag in the order the host gives), that sample's time
  wraps. Provided the wrapped time is at or after the last table time, as it
  is at any realistic sample rate, the source and the model then part ways for
  the rest of the stream. The wrapped time sends the source's cursor to the
  last index. The cursor is never rewound, so the source
  holds the last frequency for every later sample of that call and of all
  later calls. The model keeps following the intended times.
  `AsWrittenHoldsLast`, `AsWrittenDiffersFromModel` and `PinnedAtLast` show
  this (see Findings).
- `Corrector.Work`: its own `ensures` ties the phases it writes to
  `PhaseTrace`. That they are canonical and equal, modulo 2*pi, the starting
  phase plus the sum of the frequencies is proved separately, in
  `PhaseTraceMeaning`.

## Findings

| source | as written | input that shows it | evidently intended | confidence | as-written member | corrected member |
|---|---|---|---|---|---|---|
| lib/doppler_correction_impl.cc:79 | `nitems_written(0) - d_sample_t0 + j` is unsigned 64-bit arithmetic. For a sample before the anchor sample of the call's final time base (the offset of its last tuple-valued tag), it wraps to almost 2^64; when that wrapped time is at or after the last table time, as at any realistic sample rate, the cursor is pinned at the last index. | A tag at stream offset 1 with time 0 s, block starting at count 0, 1 sample/s, table at 0 s and 100 s. Sample 0 gets time 2^64 - 1 s instead of -1 s. The cursor jumps to the last index and is never rewound, so every later sample holds the last frequency. | A signed difference, so sample 0 gets time -1 s and the cursor stays at index 0. | medium, not executed; assumes `d_sample_t0` is an unsigned 64-bit integer, as its initialisation to 0 at line 37 and the assignment of the uint64 `tag.offset` at line 71 suggest (its declaration in `doppler_correction_impl.h` is not part of this model; a floating-point member would not wrap) | `TimeTags.SampleTimeAsWritten` and `DopplerCorrection.BlockAsWritten`, shown by `TimeTags.AsWrittenStepBreaks`, `DopplerCorrection.AsWrittenPinsCursor` and `DopplerCorrection.AsWrittenHoldsLast` | `TimeTags.SampleTime`, with `TimeTags.SampleTimeStep` |
