/** `resample_audio`: only the length of its output is modelled. The
    interpolating kernel is a parameter, trusted to return exactly the
    number of samples it is asked for. */
module Resample {
  import opened Buffers

  /** `int(len(samples) / sr_original * sr_desired)`, read in exact
      arithmetic: the floor of `n * srDesired / srOriginal`. The new length
      covers the original duration to within one output sample. */
  function ResampledLength(n: nat, srOriginal: Rate, srDesired: Rate): (m: nat)
    ensures m * srOriginal <= n * srDesired < (m + 1) * srOriginal
  {
    var m := (n * srDesired) / srOriginal;
    assert n * srDesired == m * srOriginal + (n * srDesired) % srOriginal;
    m
  }

  /** A resampling kernel that returns exactly the requested number of samples. */
  ghost predicate HonoursLength(kernel: (Samples, nat) -> Samples) {
    forall s: Samples, m: nat :: |kernel(s, m)| == m
  }

  /** `resample_audio(samples, sr_original, sr_desired)`: returns the
      resampled buffer and the desired rate. The output's duration
      `|r.0| / srDesired` is at most the input's and short of it by less
      than one output sample. */
  function ResampleAudio(samples: Samples, srOriginal: Rate, srDesired: Rate,
                         kernel: (Samples, nat) -> Samples): (r: (Samples, Rate))
    requires HonoursLength(kernel)
    ensures r.1 == srDesired
    ensures |r.0| * srOriginal <= |samples| * srDesired < (|r.0| + 1) * srOriginal
  {
    (kernel(samples, ResampledLength(|samples|, srOriginal, srDesired)), srDesired)
  }

  /** Resampling to the same rate keeps the length. */
  lemma ResampleSameRate(n: nat, sr: Rate)
    ensures ResampledLength(n, sr, sr) == n
  {
  }

  /** Resampling from rate `a` to `b` and back never gains samples, and loses
      fewer than `a / b + 1` of them: `(n - back) * b < a + b`. */
  lemma ResampleRoundTripLength(n: nat, a: Rate, b: Rate)
    ensures ResampledLength(ResampledLength(n, a, b), b, a) <= n
    ensures (n - ResampledLength(ResampledLength(n, a, b), b, a)) * b < a + b
  {
  }
}
