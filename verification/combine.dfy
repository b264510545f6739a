/** `combine_sounds`: mix two buffers at a common rate, the shorter one
    delayed by `time_delay_sec` seconds, then cut to `total_dur_sec`. */
module Combine {
  import opened Wrappers
  import opened Buffers
  import opened Padding

  /** The longer buffer; on equal lengths the second one. */
  function Long(data1: Samples, data2: Samples): (r: Samples)
    ensures r == data1 || r == data2
    ensures |r| == if |data1| > |data2| then |data1| else |data2|
  {
    if |data1| > |data2| then data1 else data2
  }

  /** The buffer `Long` did not pick. */
  function Short(data1: Samples, data2: Samples): (r: Samples)
    ensures |r| <= |Long(data1, data2)|
    ensures [r, Long(data1, data2)] == [data1, data2] || [r, Long(data1, data2)] == [data2, data1]
  {
    if |data1| > |data2| then data2 else data1
  }

  /** Length of the mix before the duration cut: the delayed short buffer's
      end when matching the shortest, else the long buffer's length. */
  function MixLength(data1: Samples, data2: Samples, sr: Rate, match2shortest: bool, delaySec: nat): nat {
    if match2shortest then |Short(data1, data2)| + sr * delaySec else |Long(data1, data2)|
  }

  /** When the source produces a mix at all. Matching the shortest needs a
      non-zero delay (else padding to the short buffer's own length leaves
      the result unbound) and a long buffer that reaches the end of the
      delayed short one (else the sum mismatches). Otherwise the short buffer
      must be strictly shorter and, if non-empty, fit after the delay. */
  predicate CombineDefined(data1: Samples, data2: Samples, sr: Rate, match2shortest: bool, delaySec: nat) {
    var long := Long(data1, data2);
    var short := Short(data1, data2);
    var extra := sr * delaySec;
    if match2shortest then extra > 0 && |short| + extra <= |long|
    else |short| < |long| && (|short| == 0 || |short| + extra <= |long|)
  }

  /** `combine_sounds` on two buffers already at the common rate `sr`. The
      result is the long buffer plus the short one delayed by
      `sr * delaySec` samples, cut to `sr * totalDurSec` samples when that is
      non-zero; the cut only shortens and never pads. */
  function CombineSounds(data1: Samples, data2: Samples, sr: Rate, match2shortest: bool,
                         delaySec: nat, totalDurSec: nat): (r: Result<Samples>)
    ensures r.Ok? <==> CombineDefined(data1, data2, sr, match2shortest, delaySec)
    ensures r.Ok? ==> |r.value| == if totalDurSec != 0
      then Min(MixLength(data1, data2, sr, match2shortest, delaySec), sr * totalDurSec)
      else MixLength(data1, data2, sr, match2shortest, delaySec)
    ensures r.Ok? ==> forall i :: 0 <= i < |r.value| ==>
      var short := Short(data1, data2);
      var extra := sr * delaySec;
      r.value[i] == Long(data1, data2)[i] + if extra <= i < extra + |short| then short[i - extra] else 0.0
  {
    var long := Long(data1, data2);
    var short := Short(data1, data2);
    var extra := sr * delaySec;
    var padded :- if match2shortest
      then ZeropadSound(short, |short| + extra, sr, delaySec)
      else ZeropadSound(short, |long|, sr, delaySec);
    var trimmed := if match2shortest then Take(long, |short| + extra) else long;
    var added :- ElementwiseAdd(trimmed, padded);
    Ok(if totalDurSec != 0 then Take(added, sr * totalDurSec) else added)
  }

  /** Which failure each undefined case stops with. */
  lemma CombineFailures(data1: Samples, data2: Samples, sr: Rate, match2shortest: bool,
                        delaySec: nat, totalDurSec: nat)
    ensures var r := CombineSounds(data1, data2, sr, match2shortest, delaySec, totalDurSec);
      var long := Long(data1, data2);
      var short := Short(data1, data2);
      var extra := sr * delaySec;
      && (match2shortest && extra == 0 ==> r == Err(UnboundLocal))
      && (match2shortest && extra > 0 && |long| < |short| + extra ==> r == Err(LengthMismatch))
      && (!match2shortest && |short| == |long| ==> r == Err(UnboundLocal))
      && (!match2shortest && 0 < |short| < |long| < |short| + extra ==> r == Err(IndexOutOfRange))
  {
  }

  /** With a non-zero delay, matching the shortest pads the short buffer to
      exactly `extra` leading zeros followed by the buffer itself. */
  lemma MatchShortestPadding(data1: Samples, data2: Samples, sr: Rate, delaySec: nat)
    requires delaySec > 0
    ensures var short := Short(data1, data2);
      ZeropadSound(short, |short| + sr * delaySec, sr, delaySec) == Ok(Zeros(sr * delaySec) + short)
  {
    var short := Short(data1, data2);
    var extra := sr * delaySec;
    ZeropadAsConcatenation(short, |short| + extra, sr, delaySec);
    assert Zeros(extra) + short + Zeros(0) == Zeros(extra) + short;
  }

  /** The order of the two inputs never matters: on different lengths both
      orders pick the same long and short buffer, and on equal lengths both
      orders fail. */
  lemma CombineSymmetric(data1: Samples, data2: Samples, sr: Rate, match2shortest: bool,
                         delaySec: nat, totalDurSec: nat)
    ensures CombineSounds(data1, data2, sr, match2shortest, delaySec, totalDurSec)
         == CombineSounds(data2, data1, sr, match2shortest, delaySec, totalDurSec)
  {
    var a := CombineSounds(data1, data2, sr, match2shortest, delaySec, totalDurSec);
    var b := CombineSounds(data2, data1, sr, match2shortest, delaySec, totalDurSec);
    if |data1| == |data2| {
      CombineFailures(data1, data2, sr, match2shortest, delaySec, totalDurSec);
      CombineFailures(data2, data1, sr, match2shortest, delaySec, totalDurSec);
    } else {
      assert Long(data1, data2) == Long(data2, data1);
      assert Short(data1, data2) == Short(data2, data1);
      if a.Ok? {
        assert |a.value| == |b.value|;
        forall i | 0 <= i < |a.value|
          ensures a.value[i] == b.value[i]
        {
        }
        assert a.value == b.value;
      }
    }
  }

  /** Two rate-1 buffers of 10 and 20 samples, matched to the shortest with a
      one-second delay and no duration cut, mix to 10 + 1 samples. */
  lemma CombineExampleLength(data1: Samples, data2: Samples)
    requires |data1| == 10 && |data2| == 20
    ensures CombineSounds(data1, data2, 1, true, 1, 0).Ok?
    ensures |CombineSounds(data1, data2, 1, true, 1, 0).value| == 11
  {
  }

  /** A non-zero total duration bounds the mix, whatever the inputs. */
  lemma CombineDurationBound(data1: Samples, data2: Samples, sr: Rate, match2shortest: bool,
                             delaySec: nat, totalDurSec: nat)
    requires totalDurSec > 0
    requires CombineSounds(data1, data2, sr, match2shortest, delaySec, totalDurSec).Ok?
    ensures |CombineSounds(data1, data2, sr, match2shortest, delaySec, totalDurSec).value| <= sr * totalDurSec
  {
  }
}
