/** `extend_sound`: periodic extension of a buffer by repeated
    self-concatenation, followed by truncation to the target length. */
module Extend {
  import opened Wrappers
  import opened Buffers

  /** The doubling loop never exits: an empty buffer stays empty however
      often it is concatenated with itself. */
  predicate ExtendDiverges(data: Samples, targetLen: nat) {
    |data| == 0 && targetLen > 0
  }

  lemma MulAtLeast(d: int, n: int)
    requires d >= 1 && n > 0
    ensures d * n >= n
  {
  }

  /** Euclidean remainder is unique: `r` is the remainder of any `q * n + r`
      with `0 <= r < n`. */
  lemma ModUnique(x: int, n: int, q: int, r: int)
    requires n > 0 && x == q * n + r && 0 <= r < n
    ensures x % n == r
  {
    var q' := x / n;
    var r' := x % n;
    assert (q' - q) * n == r - r';
    if q' > q {
      MulAtLeast(q' - q, n);
    } else if q' < q {
      MulAtLeast(q - q', n);
    }
  }

  /** Adding a multiple of `n` does not change a remainder modulo `n`. */
  lemma ModAddMultiple(a: nat, j: nat, n: nat)
    requires n > 0 && a % n == 0
    ensures (a + j) % n == j % n
  {
    ModUnique(a + j, n, a / n + j / n, j % n);
  }

  /** `cur` repeats `data`: it is a whole number of copies of it. */
  ghost predicate Periodic(data: Samples, cur: Samples)
    requires |data| > 0
  {
    && |cur| % |data| == 0
    && forall i :: 0 <= i < |cur| ==> cur[i] == data[i % |data|]
  }

  /** One round of the loop keeps the buffer a whole number of copies of
      the input. */
  lemma DoublingKeepsPeriod(data: Samples, cur: Samples)
    requires |data| > 0 && Periodic(data, cur)
    ensures Periodic(data, cur + cur)
  {
    var n, len := |data|, |cur|;
    forall i | len <= i < len + len
      ensures (cur + cur)[i] == data[i % n]
    {
      ModAddMultiple(len, i - len, n);
    }
    ModAddMultiple(len, len, n);
  }

  /** The loop of `extend_sound`: while the buffer is shorter than
      `targetLen`, concatenate it with itself; then keep the first
      `targetLen` samples. The result is the input repeated periodically. */
  method ExtendSound(data: Samples, targetLen: nat) returns (r: Result<Samples>)
    ensures r.Err? <==> ExtendDiverges(data, targetLen)
    ensures r.Err? ==> r.error == NonTermination
    ensures r.Ok? ==> |r.value| == targetLen
    ensures r.Ok? ==> forall i :: 0 <= i < targetLen ==> r.value[i] == data[i % |data|]
    ensures |data| >= targetLen ==> r == Ok(data[..targetLen])
  {
    if |data| == 0 {
      if targetLen > 0 {
        return Err(NonTermination);
      }
      return Ok([]);
    }
    var n := |data|;
    var cur := data;
    while |cur| < targetLen
      invariant n <= |cur|
      invariant n >= targetLen ==> cur == data
      invariant Periodic(data, cur)
      decreases targetLen - |cur|
    {
      DoublingKeepsPeriod(data, cur);
      cur := cur + cur;
    }
    r := Ok(cur[..targetLen]);
  }
}
