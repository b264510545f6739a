/** Sample buffers and the NumPy primitives the mixers are built from:
    zero buffers, clamped slices, scaling, elementwise addition and the
    channel-selecting stereo-to-mono collapse. */
module Buffers {
  import opened Wrappers

  /** A mono sample buffer; sample values are exact reals. */
  type Samples = seq<real>

  /** A sample rate in samples per second; a decoder never reports zero. */
  type Rate = r: nat | r > 0 witness 1

  function Min(a: nat, b: nat): nat {
    if a <= b then a else b
  }

  /** `np.zeros(n)` */
  function Zeros(n: nat): (r: Samples)
    ensures |r| == n
    ensures forall i :: 0 <= i < n ==> r[i] == 0.0
  {
    seq(n, _ => 0.0)
  }

  /** The slice `s[:n]`: a stop past the end is clamped, so it never pads. */
  function Take(s: Samples, n: nat): (r: Samples)
    ensures |r| == Min(|s|, n)
    ensures r == s[..|r|]
  {
    if n <= |s| then s[..n] else s
  }

  /** The slice `s[n:]`, the part of `s` that `Take(s, n)` leaves behind. */
  function Drop(s: Samples, n: nat): (r: Samples)
    ensures |r| == |s| - Min(|s|, n)
    ensures Take(s, n) + r == s
  {
    s[Min(|s|, n)..]
  }

  /** `s * k` for an array `s` and a scalar `k`. */
  function Scale(s: Samples, k: real): (r: Samples)
    ensures |r| == |s|
    ensures forall i :: 0 <= i < |s| ==> r[i] == s[i] * k
  {
    seq(|s|, i requires 0 <= i < |s| => s[i] * k)
  }

  /** `a + b` for two 1-D arrays: defined only when the lengths agree. */
  function ElementwiseAdd(a: Samples, b: Samples): (r: Result<Samples>)
    ensures r.Ok? <==> |a| == |b|
    ensures r.Err? ==> r.error == LengthMismatch
    ensures r.Ok? ==> |r.value| == |a|
    ensures r.Ok? ==> forall i :: 0 <= i < |a| ==> r.value[i] == a[i] + b[i]
  {
    if |a| != |b| then Err(LengthMismatch)
    else Ok(seq(|a|, i requires 0 <= i < |a| => a[i] + b[i]))
  }

  /** Elementwise addition does not depend on the order of its operands. */
  lemma ElementwiseAddCommutes(a: Samples, b: Samples)
    ensures ElementwiseAdd(a, b) == ElementwiseAdd(b, a)
  {
    if |a| == |b| {
      assert ElementwiseAdd(a, b).value == ElementwiseAdd(b, a).value;
    }
  }

  /** A frames-by-channels buffer in which every frame has `channels` samples. */
  ghost predicate Rectangular(frames: seq<seq<real>>, channels: nat) {
    forall i :: 0 <= i < |frames| ==> |frames[i]| == channels
  }

  /** `np.take(data, 0, axis=-1)`: keeps channel 0 of every frame, which
      fails on a buffer that has frames but no channel; a buffer with
      neither collapses to the empty buffer. */
  function Stereo2Mono(frames: seq<seq<real>>, channels: nat): (r: Result<Samples>)
    requires Rectangular(frames, channels)
    ensures r.Ok? <==> channels > 0 || |frames| == 0
    ensures r.Err? ==> r.error == IndexOutOfRange
    ensures r.Ok? ==> |r.value| == |frames|
    ensures r.Ok? ==> forall i :: 0 <= i < |frames| ==> r.value[i] == frames[i][0]
  {
    if channels == 0 then (if |frames| == 0 then Ok([]) else Err(IndexOutOfRange))
    else Ok(seq(|frames|, i requires 0 <= i < |frames| => frames[i][0]))
  }

  /** The collapse is a selection, not an average: two buffers whose first
      channels agree collapse to the same mono buffer whatever the other
      channels hold. */
  lemma Stereo2MonoIgnoresOtherChannels(a: seq<seq<real>>, b: seq<seq<real>>, channels: nat)
    requires Rectangular(a, channels) && Rectangular(b, channels)
    requires |a| == |b|
    requires channels > 0 ==> forall i :: 0 <= i < |a| ==> a[i][0] == b[i][0]
    ensures Stereo2Mono(a, channels) == Stereo2Mono(b, channels)
  {
    if channels > 0 {
      assert Stereo2Mono(a, channels).value == Stereo2Mono(b, channels).value;
    }
  }
}
