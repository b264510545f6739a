/** `add_sound_to_signal`: scale a sound, split off its first second as a
    lead-in, mix the rest onto a target signal and optionally put the
    lead-in in front. */
module AddSound {
  import opened Wrappers
  import opened Buffers
  import opened Extend

  /** The scaled lead-in `sound2add[:sr]`. */
  function LeadIn(sound: Samples, sr: Rate, scale: real): (r: Samples)
    ensures |r| == Min(sr, |sound|)
    ensures forall i :: 0 <= i < |r| ==> r[i] == sound[i] * scale
  {
    Take(Scale(sound, scale), sr)
  }

  /** The scaled remainder `sound2add[sr:]`, the part mixed onto the target. */
  function Tail(sound: Samples, sr: Rate, scale: real): (r: Samples)
    ensures |r| == |sound| - Min(sr, |sound|)
    ensures forall k :: 0 <= k < |r| ==> r[k] == sound[Min(sr, |sound|) + k] * scale
  {
    var scaled := Scale(sound, scale);
    var r := Drop(scaled, sr);
    assert forall k :: 0 <= k < |r| ==> r[k] == (Take(scaled, sr) + r)[Min(sr, |sound|) + k];
    r
  }

  /** `add_sound_to_signal` as written, on buffers already at the common
      rate `sr`. A tail shorter than the target is passed to `extend_sound`,
      but the next line overwrites that result with the short tail itself,
      so the length assertion fails; an empty tail makes `extend_sound`
      loop for ever before that. With a long enough tail, the result is the
      lead-in (when `delayTarget`) followed by the target plus the
      beginning of the tail. */
  function AddSoundToSignal(target: Samples, sound: Samples, sr: Rate, scale: real,
                            delayTarget: bool): (r: Result<Samples>)
    ensures var lead := Min(sr, |sound|);
      r.Ok? <==> |sound| - lead >= |target|
    ensures var lead := Min(sr, |sound|);
      |sound| - lead < |target| ==>
        r == Err(if |sound| - lead == 0 then NonTermination else AssertionFailed)
    ensures var lead := Min(sr, |sound|);
      r.Ok? ==> |r.value| == |target| + if delayTarget then lead else 0
    ensures var off := if delayTarget then Min(sr, |sound|) else 0;
      r.Ok? ==> forall i :: 0 <= i < off ==> r.value[i] == sound[i] * scale
    ensures var lead := Min(sr, |sound|);
      var off := if delayTarget then lead else 0;
      r.Ok? ==> forall j :: 0 <= j < |target| ==>
        r.value[off + j] == sound[lead + j] * scale + target[j]
  {
    var firstsec := LeadIn(sound, sr, scale);
    var tail := Tail(sound, sr, scale);
    if ExtendDiverges(tail, |target|) then Err(NonTermination)
    else
      var tail2 := Take(tail, |target|);
      if |tail2| != |target| then Err(AssertionFailed)
      else
        var combined := ElementwiseAdd(tail2, target).value;
        Ok(if delayTarget then firstsec + combined else combined)
  }

  /** With a non-empty target, a successful mix with the lead-in in front is
      exactly `sr` samples longer than the target. */
  lemma AddSoundLengthWithDelay(target: Samples, sound: Samples, sr: Rate, scale: real)
    requires |target| > 0
    requires AddSoundToSignal(target, sound, sr, scale, true).Ok?
    ensures |AddSoundToSignal(target, sound, sr, scale, true).value| == |target| + sr
  {
  }

  /** The discrepancy of the source, on a concrete input: a one-second rate-1
      sound of two samples leaves a one-sample tail, which the source does
      not extend to the two-sample target. */
  lemma AddSoundShortTailFails()
    ensures AddSoundToSignal([0.5, 0.5], [1.0, 2.0], 1, 1.0, true) == Err(AssertionFailed)
  {
  }

  /** `add_sound_to_signal` as evidently intended: a short non-empty tail is
      tiled by `extend_sound` to the target's length and mixed. It fails only
      where `extend_sound` itself cannot finish, and agrees with the code as
      written wherever that succeeds. */
  method AddSoundToSignalIntended(target: Samples, sound: Samples, sr: Rate, scale: real,
                                  delayTarget: bool) returns (r: Result<Samples>)
    ensures var tail := Tail(sound, sr, scale);
      r.Ok? <==> !ExtendDiverges(tail, |target|)
    ensures r.Err? ==> r.error == NonTermination
    ensures r.Ok? ==> |r.value| == |target| + if delayTarget then Min(sr, |sound|) else 0
    ensures var off := if delayTarget then Min(sr, |sound|) else 0;
      r.Ok? ==> forall i :: 0 <= i < off ==> r.value[i] == sound[i] * scale
    ensures var lead := Min(sr, |sound|);
      var off := if delayTarget then lead else 0;
      r.Ok? ==> forall j :: 0 <= j < |target| ==>
        r.value[off + j] == sound[lead + j % (|sound| - lead)] * scale + target[j]
    ensures AddSoundToSignal(target, sound, sr, scale, delayTarget).Ok? ==>
      r == AddSoundToSignal(target, sound, sr, scale, delayTarget)
  {
    var firstsec := LeadIn(sound, sr, scale);
    var tail := Tail(sound, sr, scale);
    var tail2: Samples;
    if |tail| < |target| {
      var e := ExtendSound(tail, |target|);
      if e.Err? {
        return Err(e.error);
      }
      tail2 := e.value;
    } else {
      tail2 := Take(tail, |target|);
      assert forall j :: 0 <= j < |target| ==> j % |tail| == j;
    }
    assert forall j :: 0 <= j < |target| ==> tail2[j] == tail[j % |tail|];
    var combined := ElementwiseAdd(tail2, target).value;
    r := Ok(if delayTarget then firstsec + combined else combined);
  }
}
