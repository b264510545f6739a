/** `zeropad_sound`: place a buffer, delayed by `sr * delay_sec` samples,
    inside a zero buffer of the target length. */
module Padding {
  import opened Wrappers
  import opened Buffers

  /** The first `k` rounds of the `for i, row in enumerate(data)` loop: round
      `i` adds `data[i]` into position `i + delay` of `buf`. */
  function Scatter(buf: Samples, data: Samples, delay: nat, k: nat): (r: Samples)
    requires k <= |data| && delay + |data| <= |buf|
    ensures |r| == |buf|
    ensures forall j :: 0 <= j < |buf| ==>
      r[j] == if delay <= j < delay + k then buf[j] + data[j - delay] else buf[j]
    decreases k
  {
    if k == 0 then buf
    else
      var b := Scatter(buf, data, delay, k - 1);
      b[delay + k - 1 := b[delay + k - 1] + data[k - 1]]
  }

  /** `zeropad_sound(data, target_len, sr, delay_sec)`. The source assigns the
      padded buffer only when `data` is shorter than `target_len`, so a longer
      or equally long `data` leaves the returned variable unbound; and a
      write past the end of the zero buffer fails. Otherwise the result holds
      `data` shifted right by `sr * delay_sec` samples, and zeros elsewhere. */
  function ZeropadSound(data: Samples, targetLen: nat, sr: nat, delaySec: nat): (r: Result<Samples>)
    ensures r.Ok? <==> |data| < targetLen && (|data| == 0 || |data| + sr * delaySec <= targetLen)
    ensures |data| >= targetLen ==> r == Err(UnboundLocal)
    ensures |data| < targetLen && 0 < |data| && targetLen < |data| + sr * delaySec ==>
      r == Err(IndexOutOfRange)
    ensures r.Ok? ==> |r.value| == targetLen
    ensures r.Ok? ==> forall j :: 0 <= j < targetLen ==>
      r.value[j] == if sr * delaySec <= j < sr * delaySec + |data| then data[j - sr * delaySec] else 0.0
  {
    var delay := sr * delaySec;
    if |data| >= targetLen then Err(UnboundLocal)
    else if |data| > 0 && |data| + delay > targetLen then Err(IndexOutOfRange)
    else if |data| == 0 then Ok(Zeros(targetLen))
    else Ok(Scatter(Zeros(targetLen), data, delay, |data|))
  }

  /** Sample `i` of the input lands at index `i + sr * delay_sec` of the
      padded buffer. */
  lemma ZeropadPlacesSamples(data: Samples, targetLen: nat, sr: nat, delaySec: nat, i: nat)
    requires ZeropadSound(data, targetLen, sr, delaySec).Ok?
    requires i < |data|
    ensures i + sr * delaySec < targetLen
    ensures ZeropadSound(data, targetLen, sr, delaySec).value[i + sr * delaySec] == data[i]
  {
  }

  /** The padded buffer is leading zeros for the delay, then the input, then
      trailing zeros up to the target length. */
  lemma ZeropadAsConcatenation(data: Samples, targetLen: nat, sr: nat, delaySec: nat)
    requires |data| < targetLen && |data| + sr * delaySec <= targetLen
    ensures ZeropadSound(data, targetLen, sr, delaySec)
      == Ok(Zeros(sr * delaySec) + data + Zeros(targetLen - |data| - sr * delaySec))
  {
    var delay := sr * delaySec;
    var r := ZeropadSound(data, targetLen, sr, delaySec).value;
    var c := Zeros(delay) + data + Zeros(targetLen - |data| - delay);
    assert |r| == |c|;
    forall j | 0 <= j < |c|
      ensures r[j] == c[j]
    {
      if j < delay {
        assert c[j] == Zeros(delay)[j];
      } else if j < delay + |data| {
        assert c[j] == data[j - delay];
      } else {
        assert c[j] == Zeros(targetLen - |data| - delay)[j - delay - |data|];
      }
    }
    assert r == c;
  }

  /** Padding an input to its own length has no defined result: the source
      has no branch for it. */
  lemma ZeropadToOwnLengthIsUnbound(data: Samples, sr: nat, delaySec: nat)
    ensures ZeropadSound(data, |data|, sr, delaySec) == Err(UnboundLocal)
  {
  }

  /** `zeropad_sound([1, 2, 3], 6, sr=1, delay_sec=1)` yields `[0, 1, 2, 3, 0, 0]`. */
  lemma ZeropadExample()
    ensures ZeropadSound([1.0, 2.0, 3.0], 6, 1, 1) == Ok([0.0, 1.0, 2.0, 3.0, 0.0, 0.0])
  {
    var r := ZeropadSound([1.0, 2.0, 3.0], 6, 1, 1).value;
    assert r[0] == 0.0 && r[1] == 1.0 && r[2] == 2.0 && r[3] == 3.0 && r[4] == 0.0 && r[5] == 0.0;
    assert r == [0.0, 1.0, 2.0, 3.0, 0.0, 0.0];
  }
}
