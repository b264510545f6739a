# soundprep — a Dafny model of the buffer-mixing core

`soundprep.py` prepares audio for analysis: it loads and normalises sound
files, resamples them and mixes two signals into one. This project models
the part of it that is pure length-and-index logic on sample buffers, plus
the small file-name helpers, and proves what those operations promise.

- **Buffers** (`buffers.dfy`): sample buffers as `seq<real>` (exact
  reals), sample rates as positive naturals, NumPy's clamped slices,
  scaling, elementwise addition, and `stereo2mono`, which keeps channel 0
  of every frame rather than averaging.
- **Extend** (`extend.dfy`): `extend_sound`'s doubling loop, proved to
  tile its input periodically up to the target length.
- **Padding** (`padding.dfy`): `zeropad_sound`, with its two failure
  modes made explicit: an input at least as long as the target leaves the
  returned variable unbound, and a delayed input that overruns the buffer
  fails on an out-of-range write.
- **Combine** (`combine.dfy`): `combine_sounds` on two buffers at a common
  rate — choice of long and short buffer, padding, matching to the
  shortest, elementwise sum and the duration cut.
- **AddSound** (`addsound.dfy`): `add_sound_to_signal` as written, and as
  evidently intended (see Findings).
- **Resample** (`resample.dfy`): the output-length rule of
  `resample_audio`; the interpolating kernel is a parameter trusted to
  return exactly the number of samples it is asked for.
- **Paths** (`paths.dfy`): pathlib's `name`, `suffix` and `stem` on a
  path string, `replace_ext`, `match_ext`, `adjustname`, the `.wav` name
  derived by `convert2wav`, and the subtype and default file name chosen by
  `newbitdepth`.

Failures are values of `Wrappers.Result`: `UnboundLocal`,
`IndexOutOfRange`, `LengthMismatch`, `AssertionFailed`, `NonTermination`,
`MissingExtension`, `UnsupportedBitdepth`.

File loading is abstracted: each mixer takes the decoded buffers and the
common sample rate as parameters, delays and durations are whole seconds,
and the second buffer is taken as already resampled to the first one's
rate.

The model follows the code as written: `zeropad_sound` leaves its result
unbound on an input that is not shorter than the target, so
`combine_sounds` matched to the shortest with a zero delay always fails,
and `add_sound_to_signal`
does not extend a short tail (the code discards the extension, see
Findings). The resampled length `int(len / sr_original * sr_desired)` is
read in exact arithmetic, as `(len * sr_desired) / sr_original` rounded
down; the floating-point expression can come out one sample lower (see
Left out).

## Model

| member | source | states |
|---|---|---|
| Buffers.Take | soundprep.py:219 | a slice `s[:n]` is the first `min(len(s), n)` samples: it shortens and never pads |
| Buffers.ElementwiseAdd | soundprep.py:216 | the sum of two buffers is defined exactly when their lengths agree, and is then taken sample by sample |
| Buffers.Stereo2Mono | soundprep.py:155-157 | the mono buffer has one sample per frame, the frame's channel 0; a buffer with frames but no channel fails, and an empty one collapses to the empty buffer |
| Buffers.Stereo2MonoIgnoresOtherChannels | soundprep.py:156 | the collapse is a selection: buffers agreeing on channel 0 give the same mono buffer whatever their other channels hold |
| Extend.ExtendSound | soundprep.py:176-182 | on a non-empty input the result has exactly `target_len` samples with `result[i] == data[i % len(data)]`, and is the input's prefix when the input is long enough; an empty input with a positive target never terminates |
| Extend.DoublingKeepsPeriod | soundprep.py:178-179 | one concatenation of the buffer with itself keeps it a whole number of copies of the input |
| Padding.Scatter | soundprep.py:189-190 | after the first `k` rounds of the write loop, exactly the positions `delay .. delay + k - 1` hold their input sample added in |
| Padding.ZeropadSound | soundprep.py:184-191 | defined exactly when the input is shorter than the target and, if non-empty, fits after the delay; then the result has the target length, holds the input shifted by `sr * delay_sec` and zeros elsewhere; otherwise `UnboundLocal` or `IndexOutOfRange` |
| Padding.ZeropadPlacesSamples | soundprep.py:189-190 | input sample `i` lands at index `i + sr * delay_sec` |
| Padding.ZeropadAsConcatenation | soundprep.py:188-190 | the padded buffer is `delay` zeros, the input, then zeros up to the target length |
| Padding.ZeropadToOwnLengthIsUnbound | soundprep.py:186 | padding a buffer to its own length has no defined result |
| Padding.ZeropadExample | soundprep.py:184-191 | padding `[1, 2, 3]` to 6 at rate 1 with a one-second delay gives `[0, 1, 2, 3, 0, 0]` |
| Combine.CombineSounds | soundprep.py:193-220 | defined exactly when matching-to-shortest has a non-zero delay and a long buffer reaching the delayed short one's end, or otherwise when the short buffer is strictly shorter and fits after the delay; the result is the long buffer plus the delayed short one, of the mixed length cut to `sr * total_dur_sec` when that is non-zero |
| Combine.CombineFailures | soundprep.py:198-216 | a zero delay when matching the shortest, or equal lengths otherwise, leave the padding unbound; a long buffer too short to cover the delayed short one mismatches; a non-empty short buffer that overruns after the delay writes out of range |
| Combine.MatchShortestPadding | soundprep.py:211-213 | with a non-zero delay, matching the shortest pads the short buffer to `zeros(sr * delay) ++ short` |
| Combine.CombineSymmetric | soundprep.py:202-207 | swapping the two inputs never changes the result, ties to the second input included |
| Combine.CombineExampleLength | soundprep.py:211-216 | rate-1 buffers of 10 and 20 samples, matched to the shortest with a one-second delay and no cut, mix to 11 samples |
| Combine.CombineDurationBound | soundprep.py:218-219 | a non-zero total duration bounds the mix by `sr * total_dur_sec` samples whatever the inputs |
| AddSound.LeadIn | soundprep.py:164-165 | the lead-in is the first `min(sr, len)` samples of the scaled sound |
| AddSound.Tail | soundprep.py:164-166 | the tail is the rest of the scaled sound, sample for sample |
| AddSound.AddSoundToSignal | soundprep.py:159-174 | as written: defined exactly when the tail is at least as long as the target; a shorter tail fails the length assertion, an empty one loops in `extend_sound`; otherwise the result is the lead-in (when `delay_target`) followed by target plus tail, of length `len(target)` plus the lead-in's |
| AddSound.AddSoundLengthWithDelay | soundprep.py:172-173 | with a non-empty target, the result with lead-in is exactly `sr` samples longer than the target |
| AddSound.AddSoundShortTailFails | soundprep.py:167-170 | a one-sample tail and a two-sample target fail the length assertion |
| AddSound.AddSoundToSignalIntended | soundprep.py:167-171 | as intended: the tail is tiled to the target's length; fails only when `extend_sound` cannot finish, and agrees with the code as written wherever that succeeds |
| Resample.ResampledLength | soundprep.py:150-151 | the new length covers the original duration to within one output sample: `m * sr_original <= len * sr_desired < (m + 1) * sr_original` |
| Resample.ResampleAudio | soundprep.py:147-153 | the output length follows the rule above and the returned rate is `sr_desired` |
| Resample.ResampleSameRate | soundprep.py:150-151 | under the exact rule, resampling to the same rate keeps the length |
| Resample.ResampleRoundTripLength | soundprep.py:150-151 | under the exact rule, resampling there and back never gains samples and loses fewer than `a / b + 1` |
| Paths.ParentNameSplit | soundprep.py:58-59 | a path is its directory followed by its separator-free final component |
| Paths.StemSuffixSplit | soundprep.py:139-144 | the final component is its stem followed by its suffix, and the suffix is empty or a well-formed extension |
| Paths.StemShape | soundprep.py:139 | the stem is empty only when the final component is |
| Paths.PathDecomposition | soundprep.py:59-63 | a path is its directory, stem and suffix in that order |
| Paths.ReplaceExt | soundprep.py:72-75 | the result is the path's directory and stem followed by the new extension |
| Paths.ReplaceExtRoundTrip | soundprep.py:72-75 | when the final component is non-empty, replacing the suffix by a well-formed extension gives a path with exactly that suffix and the same directory and stem |
| Paths.MatchExt | soundprep.py:77-98 | fails exactly when neither name has a suffix; otherwise the first name's suffix, else the second's, is put on both, and a name already carrying it is returned unchanged |
| Paths.MatchExtSuffixes | soundprep.py:90-98 | when both final components are non-empty, both returned names have the chosen extension as their suffix |
| Paths.Convert2WavName | soundprep.py:57-64 | the `.wav` name is `replace_ext(p, '.wav')`: it keeps the directory and stem and, when the final component is non-empty, has suffix `.wav` |
| Paths.AdjustNameKeepsSuffix | soundprep.py:136-145 | for a name with a suffix and an adjustment without `/`, the adjustment, or `_adj` when empty, joins the stem; the suffix is kept and the directory dropped |
| Paths.BitdepthSubtype | soundprep.py:109-114 | bit depths 16 and 32 map to `PCM_16` and `PCM_32`; any other is refused |
| Paths.BitdepthFileName | soundprep.py:109-124 | an unsupported bit depth is refused first; for a name with a suffix, the default name of the converted file carries `_bitdepth16` or `_bitdepth32` before the unchanged suffix |

## Left out

- Loading and saving (`loadsoundfile`, `prep4scipywavfile`, the read and write calls of `convert2wav` and `newbitdepth`, including `newbitdepth`'s overwrite and explicit-new-name branches): file I/O and codec calls outside the model.
- `normsound`: floating-point interpolation whose behaviour on a constant buffer is the library's.
- The resampling kernel: `resample` is not imported by the module, so as written `resample_audio` raises `NameError` on every call and both mixers fail whenever the two sample rates differ; `Resample.ResampleAudio` models the evident intent, with only its output length fixed, through a kernel parameter.
- Resampling inside `combine_sounds` and `add_sound_to_signal`: both take buffers already at the common rate.
- Non-integer and `None` delays and durations: they lead to float indices; delays, durations and rates are natural numbers here.
- Buffers.ElementwiseAdd: reports `LengthMismatch` for every pair of unequal lengths, although NumPy would broadcast a one-sample operand.
- Extend.ExtendSound: the endless loop on an empty input with a positive target is reported as a `NonTermination` result rather than modelled as divergence.
- Paths.ParentNameSplit: pathlib's normalisation of the path string (collapsing `//`, dropping `.` components and a trailing `/`) is not modelled; paths are taken in their printed form.
- Resample.ResampledLength: computes the exact floor of `len * sr_desired / sr_original`, whereas `int(len / sr_original * sr_desired)` in floating point can be one sample lower: 29 samples from 100 Hz to 100 Hz give `int(0.29 * 100) == int(28.999999999999996) == 28`, not 29, so the same-rate and round-trip properties hold for the exact rule only.
- Combine.CombineSounds: without NumPy broadcasting, a one-sample operand makes the sum a `LengthMismatch`; the program would broadcast it, and then the result can depend on the order of the inputs (`[1.0]` and `[2.0]` at rate 1, one-second delay, matched to the shortest: `[2.0, 3.0]` one way, `[1.0, 3.0]` the other), so the symmetry and mismatch properties hold for the non-broadcasting sum only.
- Windows paths: only `/` separates components, as POSIX `pathlib` does; `\` separators and drive letters are not modelled.
- Buffers.Stereo2Mono: covers two-dimensional frames-by-channels buffers only.
- Floating-point rounding: samples are exact reals, so the scaling `sound2add *= scale` and both sums are exact here, where the program rounds each result.
- The informational `print` messages.

## Findings

| source | as written | input that shows it | evidently intended | confidence | as-written member | corrected member |
|---|---|---|---|---|---|---|
| soundprep.py:167-170 | the result of `extend_sound` is overwritten on the next line by the tail cut to the target length, so a tail shorter than the target reaches the length assertion unextended | rate 1, sound `[1.0, 2.0]` (tail `[2.0]`), target `[0.5, 0.5]`: the assertion fails | the short tail is tiled to the target's length and mixed | high; not executed | AddSound.AddSoundToSignal (AddSound.AddSoundShortTailFails) | AddSound.AddSoundToSignalIntended |
